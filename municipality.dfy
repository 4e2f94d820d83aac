/** The municipality lookup, `buscar_dados_municipio`: a request to the IBGE
    locality service for the municipality's name and region, then a
    best-effort request to the IBGE indicator service for its estimated
    population, and the placeholder area and the density derived from them. */
module MunicipalityLookup {
  import opened CStrings
  import opened CNumbers
  import opened Json
  import opened Http

  /** `sizeof` of the two `char` fields of `DadosIBGE`. */
  const NomeCompletoSize: nat := 256
  const RegiaoSize: nat := 64

  /** The area every municipality is given, in km². */
  const PlaceholderArea: real := 500.0

  /** What a `DadosIBGE` holds: two C strings, a C `int` and two doubles
      (as exact reals). */
  datatype Municipio = Municipio(
    nomeCompleto: seq<byte>,
    regiao: seq<byte>,
    populacao: int32,
    area: real,
    densidade: real)

  /** A zero-initialised record. */
  const Empty := Municipio([], [], 0, 0.0, 0.0)

  // ------------------------------------------------------------------ region

  /** The members leading from a municipality to the name of its region. */
  const RegionPath: seq<string> := ["microrregiao", "mesorregiao", "UF", "regiao", "nome"]

  /** The walk along `path` reaches an object. */
  predicate ObjectAt(j: Json, path: seq<string>)
  {
    Walk(j, path).Some? && Walk(j, path).value.JObject?
  }

  // -------------------------------------------------------------- population

  /** The population table of the indicator answer, `[0].res[0].res`, when
      every level has the shape the program expects: a non-empty array whose
      first element has a non-empty `res` array whose first element has a
      `res` object. Absent for every other answer and for a failed request. */
  function PopulationTable(secondary: Reply): Option<seq<(string, Json)>>
  {
    if !secondary.Parsed? || !secondary.root.JArray? || |secondary.root.items| == 0 then None
    else
      var resObj := Get(secondary.root.items[0], "res");
      if resObj.None? || !resObj.value.JArray? || |resObj.value.items| == 0 then None
      else
        var resData := Get(resObj.value.items[0], "res");
        if resData.None? || !resData.value.JObject? then None
        else Some(resData.value.members)
  }

  /** A table entry the scan takes a population from: an integer, or a
      string. */
  predicate Convertible(v: Json)
  {
    v.JInt? || v.JString?
  }

  /** The population an entry gives: an integer narrowed to `int`, or a
      string read by `atoi`. */
  function PopulationOf(v: Json): int32
    requires Convertible(v)
  {
    if v.JInt? then Wrap32(v.i) else Atoi(v.s)
  }

  /** `populacao` after the `json_object_foreach` scan of `members`, when it
      held `prior` before: the value of the last convertible entry. */
  function LastPopulation(members: seq<(string, Json)>, prior: int32): (r: int32)
    ensures r == prior || exists i :: 0 <= i < |members| && Convertible(members[i].1) && r == PopulationOf(members[i].1)
  {
    if members == [] then prior
    else if Convertible(members[|members| - 1].1) then PopulationOf(members[|members| - 1].1)
    else LastPopulation(members[..|members| - 1], prior)
  }

  /** The population after the secondary request. */
  function PopulationAfter(prior: int32, secondary: Reply): int32
  {
    match PopulationTable(secondary)
    case Some(members) => LastPopulation(members, prior)
    case None => prior
  }

  /** The density as `populacao / area`, assigned only for a positive
      population. */
  function DensityAfter(prior: real, populacao: int32): real
  {
    if populacao > 0 then populacao as real / PlaceholderArea else prior
  }

  // ----------------------------------------------------------------- lookup

  /** The record after the part of `buscar_dados_municipio` that follows a
      successful primary parse of `root`, given the reply to the secondary
      request. The function then always returns 0. */
  function Extract(prior: Municipio, root: Json, secondary: Reply): (r: Municipio)
    ensures r.area == PlaceholderArea
    ensures r.populacao > 0 ==> r.densidade * r.area == r.populacao as real && r.densidade > 0.0
    ensures r.populacao <= 0 ==> r.densidade == prior.densidade
    ensures |prior.nomeCompleto| < NomeCompletoSize ==> |r.nomeCompleto| < NomeCompletoSize
    ensures |prior.regiao| < RegiaoSize ==> |r.regiao| < RegiaoSize
  {
    var populacao := PopulationAfter(prior.populacao, secondary);
    Municipio(
      FieldAfter(prior.nomeCompleto, Get(root, "nome"), NomeCompletoSize),
      FieldAfter(prior.regiao, Walk(root, RegionPath), RegiaoSize),
      populacao,
      PlaceholderArea,
      DensityAfter(prior.densidade, populacao))
  }

  /** `sizeof(url)` in `buscar_dados_municipio`. */
  const UrlSize: nat := 512
  const DetailPrefix := Ascii("https://servicodados.ibge.gov.br/api/v1/localidades/municipios/")
  const PopulationPrefix := Ascii("https://servicodados.ibge.gov.br/api/v1/pesquisas/indicadores/47001/resultados/")

  /** The URL of the primary request, as `snprintf` leaves it in `url`. */
  function DetailUrl(code: seq<byte>): seq<byte>
  {
    Truncate(DetailPrefix + CStr(code), UrlSize - 1)
  }

  /** The URL of the secondary request. */
  function PopulationUrl(code: seq<byte>): seq<byte>
  {
    Truncate(PopulationPrefix + CStr(code), UrlSize - 1)
  }

  /** The whole of `buscar_dados_municipio` on the record's contents: None
      when it returns -1. */
  function Lookup(code: seq<byte>, prior: Municipio, net: Network): Option<Municipio>
  {
    match net(DetailUrl(code))
    case Parsed(root) => Some(Extract(prior, root, net(PopulationUrl(code))))
    case _ => None
  }

  /** The requests `buscar_dados_municipio` makes: the secondary one only
      after the primary one succeeded. */
  function Requests(code: seq<byte>, net: Network): seq<seq<byte>>
  {
    if net(DetailUrl(code)).Parsed? then [DetailUrl(code), PopulationUrl(code)] else [DetailUrl(code)]
  }

  // ------------------------------------------------------------------ record

  /** `DadosIBGE`: two `char` arrays, the population and two doubles. */
  class DadosIbge {
    const nomeCompleto: array<byte>
    const regiao: array<byte>
    var populacao: int32
    var area: real
    var densidade: real

    ghost predicate Valid()
      reads nomeCompleto, regiao
    {
      Terminated(nomeCompleto, NomeCompletoSize) && Terminated(regiao, RegiaoSize)
    }

    /** The contents of the record. */
    function View(): Municipio
      reads this, nomeCompleto, regiao
    {
      Municipio(CStr(nomeCompleto[..]), CStr(regiao[..]), populacao, area, densidade)
    }

    /** `DadosIBGE dados_ibge = {0};` */
    constructor ()
      ensures Valid() && View() == Empty
      ensures fresh(nomeCompleto) && fresh(regiao)
    {
      nomeCompleto := new byte[NomeCompletoSize](_ => NUL);
      regiao := new byte[RegiaoSize](_ => NUL);
      populacao := 0;
      area := 0.0;
      densidade := 0.0;
    }
  }

  /** The region part of `buscar_dados_municipio`: one `json_is_object`
      test per level, and a copy only when the last member is a string. */
  method CopyRegion(dados: DadosIbge, root: Json)
    requires dados.Valid()
    modifies dados.regiao
    ensures dados.Valid()
    ensures CStr(dados.regiao[..]) == FieldAfter(old(CStr(dados.regiao[..])), Walk(root, RegionPath), RegiaoSize)
  {
    ghost var path := RegionPath;
    assert path[1..] == ["mesorregiao", "UF", "regiao", "nome"];
    assert path[1..][1..] == ["UF", "regiao", "nome"];
    assert path[1..][1..][1..] == ["regiao", "nome"];
    assert path[1..][1..][1..][1..] == ["nome"];
    var microrregiao := Get(root, "microrregiao");
    if microrregiao.Some? && microrregiao.value.JObject? {
      assert Walk(root, path) == Walk(microrregiao.value, path[1..]);
      var mesorregiao := Get(microrregiao.value, "mesorregiao");
      if mesorregiao.Some? && mesorregiao.value.JObject? {
        assert Walk(root, path) == Walk(mesorregiao.value, path[1..][1..]);
        var uf := Get(mesorregiao.value, "UF");
        if uf.Some? && uf.value.JObject? {
          assert Walk(root, path) == Walk(uf.value, path[1..][1..][1..]);
          var regiao := Get(uf.value, "regiao");
          if regiao.Some? && regiao.value.JObject? {
            assert Walk(root, path) == Walk(regiao.value, path[1..][1..][1..][1..]);
            var nomeRegiao := Get(regiao.value, "nome");
            assert Walk(root, path) == nomeRegiao by {
              WalkOneKey(regiao.value, "nome");
            }
            CopyStringField(dados.regiao, nomeRegiao);
          } else {
            WalkFromNonObject(regiao, path[1..][1..][1..][1..]);
          }
        } else {
          WalkFromNonObject(uf, path[1..][1..][1..]);
        }
      } else {
        WalkFromNonObject(mesorregiao, path[1..][1..]);
      }
    } else {
      WalkFromNonObject(microrregiao, path[1..]);
    }
  }

  /** A walk along one key is a `json_object_get`. */
  lemma WalkOneKey(j: Json, key: string)
    ensures Walk(j, [key]) == Get(j, key)
  {
    assert [key][1..] == [];
  }

  /** Past a missing or non-object level, the rest of a walk finds nothing. */
  lemma WalkFromNonObject(v: Option<Json>, rest: seq<string>)
    requires rest != [] && (v.None? || !v.value.JObject?)
    ensures v.None? || Walk(v.value, rest).None?
  {
  }

  /** The `json_object_foreach` scan: every integer or string entry
      overwrites `populacao`, so the last one wins. */
  method ScanPopulation(dados: DadosIbge, members: seq<(string, Json)>)
    modifies dados
    ensures dados.populacao == LastPopulation(members, old(dados.populacao))
    ensures dados.area == old(dados.area) && dados.densidade == old(dados.densidade)
  {
    for i := 0 to |members|
      invariant dados.populacao == LastPopulation(members[..i], old(dados.populacao))
      invariant dados.area == old(dados.area) && dados.densidade == old(dados.densidade)
    {
      var value := members[i].1;
      LastPopulationStep(members, i, old(dados.populacao));
      if value.JInt? {
        dados.populacao := Wrap32(value.i);
      } else if value.JString? {
        dados.populacao := Atoi(value.s);
      }
    }
    assert members[..|members|] == members;
  }

  /** One more entry of the scan: a convertible entry replaces the value. */
  lemma LastPopulationStep(members: seq<(string, Json)>, i: nat, prior: int32)
    requires i < |members|
    ensures LastPopulation(members[..i + 1], prior) ==
      if Convertible(members[i].1) then PopulationOf(members[i].1) else LastPopulation(members[..i], prior)
  {
    assert members[..i + 1][..i] == members[..i];
  }

  /** The secondary request and its tolerant descent to the population
      table; a failure anywhere leaves `populacao` as it was. */
  method FetchPopulation(code: seq<byte>, dados: DadosIbge, net: Network)
    modifies dados
    ensures dados.populacao == PopulationAfter(old(dados.populacao), net(PopulationUrl(code)))
    ensures dados.area == old(dados.area) && dados.densidade == old(dados.densidade)
  {
    var secondary := net(PopulationUrl(code));
    if secondary.Parsed? {
      var root2 := secondary.root;
      if root2.JArray? && |root2.items| > 0 {
        var item := At(root2, 0).value;
        var resObj := Get(item, "res");
        if resObj.Some? && resObj.value.JArray? && |resObj.value.items| > 0 {
          var resItem := At(resObj.value, 0).value;
          var resData := Get(resItem, "res");
          if resData.Some? && resData.value.JObject? {
            ScanPopulation(dados, resData.value.members);
          }
        }
      }
    }
  }

  /** `buscar_dados_municipio(code, dados)`. Returns -1 and leaves the record
      untouched when the primary request or its parse fails; otherwise
      fills the record and returns 0, whatever becomes of the secondary
      request. `requests` lists the URLs asked for. */
  method BuscarDadosMunicipio(code: seq<byte>, dados: DadosIbge, net: Network)
    returns (rc: int, requests: seq<seq<byte>>)
    requires dados.Valid()
    modifies dados, dados.nomeCompleto, dados.regiao
    ensures dados.Valid()
    ensures requests == Requests(code, net)
    ensures rc == 0 || rc == -1
    ensures rc == 0 <==> net(DetailUrl(code)).Parsed?
    ensures rc == 0 ==>
      dados.View() == Extract(old(dados.View()), net(DetailUrl(code)).root, net(PopulationUrl(code)))
    ensures rc == -1 ==> unchanged(dados, dados.nomeCompleto, dados.regiao)
  {
    var url := DetailUrl(code);
    requests := [url];
    var reply := net(url);
    if !reply.Parsed? {
      return -1, requests;
    }
    var root := reply.root;
    CopyStringField(dados.nomeCompleto, Get(root, "nome"));
    CopyRegion(dados, root);
    requests := requests + [PopulationUrl(code)];
    FetchPopulation(code, dados, net);
    dados.area := PlaceholderArea;
    if dados.populacao > 0 {
      dados.densidade := dados.populacao as real / dados.area;
    }
    rc := 0;
  }

  // ------------------------------------------------------------ properties

  /** The region is written exactly when each of `microrregiao`,
      `mesorregiao`, `UF` and `regiao` is an object and `regiao.nome` is a
      string; a break at any level leaves `regiao` as it was, without
      failing the lookup. */
  lemma RegionNeedsEveryLevel(prior: Municipio, root: Json, secondary: Reply)
    ensures IsString(Walk(root, RegionPath)) <==>
      && ObjectAt(root, RegionPath[..1]) && ObjectAt(root, RegionPath[..2])
      && ObjectAt(root, RegionPath[..3]) && ObjectAt(root, RegionPath[..4])
      && IsString(Get(Walk(root, RegionPath[..4]).value, "nome"))
    ensures !IsString(Walk(root, RegionPath)) ==> Extract(prior, root, secondary).regiao == prior.regiao
  {
    var path := RegionPath;
    forall k | 1 <= k <= 4
      ensures Walk(root, path) == match Walk(root, path[..k]) case None => None case Some(m) => Walk(m, path[k..])
    {
      WalkAppend(root, path[..k], path[k..]);
      assert path[..k] + path[k..] == path;
    }
    assert path[4..] == ["nome"];
    if Walk(root, path[..4]).Some? {
      WalkOneKey(Walk(root, path[..4]).value, "nome");
    }
    if IsString(Walk(root, path)) {
      forall k | 1 <= k <= 4
        ensures ObjectAt(root, path[..k])
      {
        WalkThroughObjects(Walk(root, path[..k]).value, path[k..]);
      }
    }
  }

  /** The name is written only from a string `nome`, and then holds its
      prefix of at most 255 bytes. */
  lemma NameOnlyFromString(prior: Municipio, root: Json, secondary: Reply)
    ensures var e := Extract(prior, root, secondary);
      && (!IsString(Get(root, "nome")) ==> e.nomeCompleto == prior.nomeCompleto)
      && (IsString(Get(root, "nome")) ==>
            e.nomeCompleto <= CStr(Get(root, "nome").value.s) && |e.nomeCompleto| < NomeCompletoSize)
  {
  }

  /** The scan leaves `populacao` holding the value of the last integer or
      string entry, even when that string reads as 0, and entries of any
      other type are skipped; with no such entry it keeps its value. */
  lemma {:induction false} LastEntryWins(members: seq<(string, Json)>, prior: int32, i: nat)
    requires i < |members| && Convertible(members[i].1)
    requires forall j :: i < j < |members| ==> !Convertible(members[j].1)
    ensures LastPopulation(members, prior) == PopulationOf(members[i].1)
  {
    if i < |members| - 1 {
      LastEntryWins(members[..|members| - 1], prior, i);
    }
  }

  lemma {:induction false} NoEntryKeepsPopulation(members: seq<(string, Json)>, prior: int32)
    requires forall j :: 0 <= j < |members| ==> !Convertible(members[j].1)
    ensures LastPopulation(members, prior) == prior
  {
    if members != [] {
      NoEntryKeepsPopulation(members[..|members| - 1], prior);
    }
  }

  /** With the estimates for two years, a later entry that `atoi` reads as 0
      still replaces the earlier count. */
  lemma LaterUnreadableEntryGivesZero(count: int32)
    ensures LastPopulation([("2021", JInt(count as int)), ("2024", JString(Ascii("n/d")))], 7) == 0
    ensures LastPopulation([("2021", JInt(count as int)), ("2024", JNull)], 7) == count
  {
    var m := [("2021", JInt(count as int)), ("2024", JNull)];
    assert m[..1] == [("2021", JInt(count as int))];
  }

  /** A failed secondary request, or an answer of the wrong shape at any
      level, is swallowed: the lookup still succeeds and `populacao` keeps
      the value it had. */
  lemma SecondaryFailureSwallowed(code: seq<byte>, prior: Municipio, net: Network)
    requires net(DetailUrl(code)).Parsed?
    requires PopulationTable(net(PopulationUrl(code))).None?
    ensures Lookup(code, prior, net).Some?
    ensures Lookup(code, prior, net).value.populacao == prior.populacao
  {
  }

  /** Every way the secondary answer can fail to reach an object at
      `[0].res[0].res` gives no population table. */
  lemma PopulationTableShape(secondary: Reply)
    ensures !secondary.Parsed? ==> PopulationTable(secondary).None?
    ensures secondary.Parsed? && (!secondary.root.JArray? || secondary.root.items == []) ==>
      PopulationTable(secondary).None?
    ensures PopulationTable(secondary).Some? ==>
      && At(secondary.root, 0).Some? && Get(At(secondary.root, 0).value, "res").Some?
      && At(Get(At(secondary.root, 0).value, "res").value, 0).Some?
  {
  }

  /** The primary request decides success: the lookup fails exactly when
      that request or its parse fails. */
  lemma PrimaryDecides(code: seq<byte>, prior: Municipio, net: Network)
    ensures Lookup(code, prior, net).None? <==> !net(DetailUrl(code)).Parsed?
    ensures Requests(code, net)[0] == DetailUrl(code)
  {
  }

  /** Starting from a zero-initialised record, a failed secondary request
      leaves population and density at 0 and a broken region path leaves
      the region empty. */
  lemma ZeroRecordDefaults(root: Json, secondary: Reply)
    requires PopulationTable(secondary).None? && !IsString(Walk(root, RegionPath))
    ensures var e := Extract(Empty, root, secondary);
      e.populacao == 0 && e.densidade == 0.0 && e.regiao == [] && e.area == PlaceholderArea
  {
  }

  /** A code of up to 400 bytes is put into both URLs verbatim. */
  lemma UrlsEmbedCode(code: seq<byte>)
    requires |CStr(code)| <= 400
    ensures DetailUrl(code) == DetailPrefix + CStr(code)
    ensures PopulationUrl(code) == PopulationPrefix + CStr(code)
  {
  }
}
