/** The address lookup, `buscar_endereco`: one request to the ViaCEP service
    for a postal code, and the copying of six string members of the answer
    into a `DadosEndereco` record. */
module AddressLookup {
  import opened CStrings
  import opened Json
  import opened Http

  /** `sizeof` of each `DadosEndereco` field. */
  const CepSize: nat := 16
  const LogradouroSize: nat := 256
  const BairroSize: nat := 128
  const CidadeSize: nat := 128
  const UfSize: nat := 4
  const CodigoIbgeSize: nat := 16

  /** The C strings a `DadosEndereco` holds. */
  datatype Endereco = Endereco(
    cep: seq<byte>,
    logradouro: seq<byte>,
    bairro: seq<byte>,
    cidade: seq<byte>,
    uf: seq<byte>,
    codigoIbge: seq<byte>)
  {
    /** The C string held by field `f`. */
    function Of(f: Field): seq<byte>
    {
      match f
      case Cep => cep
      case Logradouro => logradouro
      case Bairro => bairro
      case Cidade => cidade
      case Uf => uf
      case CodigoIbge => codigoIbge
    }
    /** The record with field `f` holding `s` and the others unchanged. */
    function With(f: Field, s: seq<byte>): Endereco
    {
      match f
      case Cep => this.(cep := s)
      case Logradouro => this.(logradouro := s)
      case Bairro => this.(bairro := s)
      case Cidade => this.(cidade := s)
      case Uf => this.(uf := s)
      case CodigoIbge => this.(codigoIbge := s)
    }
  }

  /** The six fields of `DadosEndereco`. */
  datatype Field = Cep | Logradouro | Bairro | Cidade | Uf | CodigoIbge

  /** `sizeof` of each field. */
  function Size(f: Field): nat
  {
    match f
    case Cep => CepSize
    case Logradouro => LogradouroSize
    case Bairro => BairroSize
    case Cidade => CidadeSize
    case Uf => UfSize
    case CodigoIbge => CodigoIbgeSize
  }

  /** A zero-initialised record: every field empty. */
  const Empty := Endereco([], [], [], [], [], [])

  /** Every field fits its `char` array together with its terminating NUL. */
  predicate Fits(e: Endereco)
  {
    && |e.cep| < CepSize && |e.logradouro| < LogradouroSize && |e.bairro| < BairroSize
    && |e.cidade| < CidadeSize && |e.uf| < UfSize && |e.codigoIbge| < CodigoIbgeSize
  }

  /** ViaCEP's answer for an unknown postal code: an `erro` member holding
      boolean true. */
  predicate NotFound(root: Json)
  {
    Get(root, "erro") == Some(JBool(true))
  }

  /** The record after the part of `buscar_endereco` that follows a
      successful parse; None when it returns -1, leaving the record as it
      was. */
  function Extract(prior: Endereco, root: Json): (r: Option<Endereco>)
    ensures r.None? <==> NotFound(root)
    ensures Fits(prior) && r.Some? ==> Fits(r.value)
  {
    if NotFound(root) then None
    else Some(Endereco(
      FieldAfter(prior.cep, Get(root, "cep"), CepSize),
      FieldAfter(prior.logradouro, Get(root, "logradouro"), LogradouroSize),
      FieldAfter(prior.bairro, Get(root, "bairro"), BairroSize),
      FieldAfter(prior.cidade, Get(root, "localidade"), CidadeSize),
      FieldAfter(prior.uf, Get(root, "uf"), UfSize),
      FieldAfter(prior.codigoIbge, Get(root, "ibge"), CodigoIbgeSize)))
  }

  const UrlPrefix := Ascii("https://viacep.com.br/ws/")
  const UrlSuffix := Ascii("/json/")
  /** `sizeof(url)` in `buscar_endereco`. */
  const UrlSize: nat := 256

  /** The request URL: what
      `snprintf(url, sizeof(url), "https://viacep.com.br/ws/%s/json/", cep)`
      leaves in `url` (see UrlIsSnPrintfOutput). */
  function Url(cep: seq<byte>): seq<byte>
  {
    Truncate(UrlPrefix + CStr(cep) + UrlSuffix, UrlSize - 1)
  }

  /** The whole of `buscar_endereco` on the record's contents: the request,
      the reply, and the extraction. */
  function Lookup(cep: seq<byte>, prior: Endereco, net: Network): Option<Endereco>
  {
    match net(Url(cep))
    case Parsed(root) => Extract(prior, root)
    case _ => None
  }

  /** `DadosEndereco`: six `char` arrays. */
  class DadosEndereco {
    const cep: array<byte>
    const logradouro: array<byte>
    const bairro: array<byte>
    const cidade: array<byte>
    const uf: array<byte>
    const codigoIbge: array<byte>

    ghost predicate Valid()
      reads cep, logradouro, bairro, cidade, uf, codigoIbge
    {
      && Terminated(cep, CepSize) && Terminated(logradouro, LogradouroSize)
      && Terminated(bairro, BairroSize) && Terminated(cidade, CidadeSize)
      && Terminated(uf, UfSize) && Terminated(codigoIbge, CodigoIbgeSize)
      && cep != codigoIbge && bairro != cidade
    }

    /** The C strings the record holds. */
    function View(): Endereco
      reads cep, logradouro, bairro, cidade, uf, codigoIbge
    {
      Endereco(CStr(cep[..]), CStr(logradouro[..]), CStr(bairro[..]),
               CStr(cidade[..]), CStr(uf[..]), CStr(codigoIbge[..]))
    }

    /** The `char` array behind field `f`. */
    function Buffer(f: Field): array<byte>
    {
      match f
      case Cep => cep
      case Logradouro => logradouro
      case Bairro => bairro
      case Cidade => cidade
      case Uf => uf
      case CodigoIbge => codigoIbge
    }

    /** One of the six statements
        `if (json_is_string(v)) strncpy(field, json_string_value(v), sizeof(field) - 1);`:
        field `f` is overwritten when `v` is a string, and every other field
        is left alone. */
    method CopyField(f: Field, v: Option<Json>)
      requires Valid()
      modifies Buffer(f)
      ensures Valid()
      ensures View() == old(View()).With(f, FieldAfter(old(View()).Of(f), v, Size(f)))
    {
      CopyStringField(Buffer(f), v);
    }

    /** `DadosEndereco endereco = {0};` */
    constructor ()
      ensures Valid() && View() == Empty
      ensures fresh(cep) && fresh(logradouro) && fresh(bairro)
      ensures fresh(cidade) && fresh(uf) && fresh(codigoIbge)
    {
      cep := new byte[CepSize](_ => NUL);
      logradouro := new byte[LogradouroSize](_ => NUL);
      bairro := new byte[BairroSize](_ => NUL);
      cidade := new byte[CidadeSize](_ => NUL);
      uf := new byte[UfSize](_ => NUL);
      codigoIbge := new byte[CodigoIbgeSize](_ => NUL);
    }
  }

  /** `buscar_endereco(cep, endereco)`. Returns 0 and fills the record from
      the answer, or returns -1 and leaves it untouched: when the request or
      the parse fails, and when the answer says the postal code is unknown.
      `requests` lists the URLs asked for. */
  method BuscarEndereco(cep: seq<byte>, endereco: DadosEndereco, net: Network)
    returns (rc: int, requests: seq<seq<byte>>)
    requires endereco.Valid()
    modifies endereco.cep, endereco.logradouro, endereco.bairro
    modifies endereco.cidade, endereco.uf, endereco.codigoIbge
    ensures endereco.Valid()
    ensures requests == [Url(cep)]
    ensures rc == 0 || rc == -1
    ensures rc == 0 <==> net(Url(cep)).Parsed? && !NotFound(net(Url(cep)).root)
    ensures rc == 0 ==> endereco.View() == Extract(old(endereco.View()), net(Url(cep)).root).value
    ensures rc == -1 ==> unchanged(endereco.cep, endereco.logradouro, endereco.bairro)
    ensures rc == -1 ==> unchanged(endereco.cidade, endereco.uf, endereco.codigoIbge)
  {
    var url := Url(cep);
    requests := [url];
    var reply := net(url);
    if !reply.Parsed? {
      return -1, requests;
    }
    var root := reply.root;
    var erro := Get(root, "erro");
    if erro.Some? && erro.value.JBool? && erro.value.b {
      return -1, requests;
    }
    FillFirst(endereco, root);
    FillSecond(endereco, root);
    rc := 0;
  }

  /** The first three copies of `buscar_endereco`: `cep`, `logradouro` and
      `bairro`. */
  method FillFirst(endereco: DadosEndereco, root: Json)
    requires endereco.Valid()
    modifies endereco.cep, endereco.logradouro, endereco.bairro
    ensures endereco.Valid()
    ensures endereco.View() == old(endereco.View()).(
      cep := FieldAfter(old(endereco.View()).cep, Get(root, "cep"), CepSize),
      logradouro := FieldAfter(old(endereco.View()).logradouro, Get(root, "logradouro"), LogradouroSize),
      bairro := FieldAfter(old(endereco.View()).bairro, Get(root, "bairro"), BairroSize))
  {
    endereco.CopyField(Cep, Get(root, "cep"));
    endereco.CopyField(Logradouro, Get(root, "logradouro"));
    endereco.CopyField(Bairro, Get(root, "bairro"));
  }

  /** The last three copies of `buscar_endereco`: `localidade` into `cidade`,
      `uf`, and `ibge` into `codigo_ibge`. */
  method FillSecond(endereco: DadosEndereco, root: Json)
    requires endereco.Valid()
    modifies endereco.cidade, endereco.uf, endereco.codigoIbge
    ensures endereco.Valid()
    ensures endereco.View() == old(endereco.View()).(
      cidade := FieldAfter(old(endereco.View()).cidade, Get(root, "localidade"), CidadeSize),
      uf := FieldAfter(old(endereco.View()).uf, Get(root, "uf"), UfSize),
      codigoIbge := FieldAfter(old(endereco.View()).codigoIbge, Get(root, "ibge"), CodigoIbgeSize))
  {
    endereco.CopyField(Cidade, Get(root, "localidade"));
    endereco.CopyField(Uf, Get(root, "uf"));
    endereco.CopyField(CodigoIbge, Get(root, "ibge"));
  }

  // ------------------------------------------------------------ properties

  /** `Lookup` succeeds exactly when the request gets a parsed answer that
      does not report the postal code unknown, and then yields the
      extraction from that answer: the terms `BuscarEndereco` is stated in. */
  lemma LookupOutcome(cep: seq<byte>, prior: Endereco, net: Network)
    ensures Lookup(cep, prior, net).Some? <==> net(Url(cep)).Parsed? && !NotFound(net(Url(cep)).root)
    ensures Lookup(cep, prior, net).Some? ==>
      Lookup(cep, prior, net) == Extract(prior, net(Url(cep)).root)
  {
  }

  /** Only a boolean-true `erro` fails the lookup; `erro` false, or of any
      other type, or absent, lets every field be extracted. */
  lemma ErroBlocksOnlyWhenTrue(prior: Endereco, root: Json)
    ensures Extract(prior, root).None? <==> Get(root, "erro") == Some(JBool(true))
    ensures Get(root, "erro") == Some(JBool(false)) ==> Extract(prior, root).Some?
  {
  }

  /** A field changes only when its member is a JSON string, and then holds
      a prefix of that string short enough to leave room for the NUL; the
      record keeps fitting its arrays. */
  lemma ExtractChangesOnlyStringFields(prior: Endereco, root: Json)
    requires Fits(prior) && Extract(prior, root).Some?
    ensures Fits(Extract(prior, root).value)
    ensures var e := Extract(prior, root).value;
      && (e.cep != prior.cep ==> IsString(Get(root, "cep")) && e.cep <= CStr(Get(root, "cep").value.s))
      && (e.logradouro != prior.logradouro ==>
            IsString(Get(root, "logradouro")) && e.logradouro <= CStr(Get(root, "logradouro").value.s))
      && (e.bairro != prior.bairro ==> IsString(Get(root, "bairro")) && e.bairro <= CStr(Get(root, "bairro").value.s))
      && (e.cidade != prior.cidade ==>
            IsString(Get(root, "localidade")) && e.cidade <= CStr(Get(root, "localidade").value.s))
      && (e.uf != prior.uf ==> IsString(Get(root, "uf")) && e.uf <= CStr(Get(root, "uf").value.s))
      && (e.codigoIbge != prior.codigoIbge ==> IsString(Get(root, "ibge")) && e.codigoIbge <= CStr(Get(root, "ibge").value.s))
  {
  }

  /** Members short enough for their fields are copied verbatim: with the
      answer for Avenida Paulista the record holds city and state exactly. */
  lemma ExtractCopiesShortStringsVerbatim(prior: Endereco, root: Json, city: seq<byte>, state: seq<byte>)
    requires !NotFound(root)
    requires Get(root, "localidade") == Some(JString(city)) && NUL !in city && |city| < CidadeSize
    requires Get(root, "uf") == Some(JString(state)) && NUL !in state && |state| < UfSize
    ensures Extract(prior, root).Some?
    ensures Extract(prior, root).value.cidade == city && Extract(prior, root).value.uf == state
  {
    FieldAfterShortString(prior.cidade, city, CidadeSize);
    FieldAfterShortString(prior.uf, state, UfSize);
  }

  /** An answer that is not an object has no members: the lookup succeeds
      and leaves every field as it was. */
  lemma ExtractFromNonObject(prior: Endereco, root: Json)
    requires !root.JObject?
    ensures Extract(prior, root) == Some(prior)
  {
  }

  /** The postal code is put into the URL byte for byte, without escaping;
      the URL is cut at 255 bytes, so a code longer than 224 bytes loses its
      tail and the "/json/" suffix. */
  lemma UrlEmbedsCep(cep: seq<byte>)
    ensures |CStr(cep)| <= 224 ==> Url(cep) == UrlPrefix + CStr(cep) + UrlSuffix
    ensures |CStr(cep)| <= 224 ==> Url(cep)[|UrlPrefix|..|UrlPrefix| + |CStr(cep)|] == CStr(cep)
    ensures |CStr(cep)| > 224 ==> |Url(cep)| == 255 && Url(cep) <= UrlPrefix + CStr(cep) + UrlSuffix
    ensures Url(cep)[..|UrlPrefix|] == UrlPrefix
  {
    var text := UrlPrefix + CStr(cep) + UrlSuffix;
    assert text[..|UrlPrefix|] == UrlPrefix;
    assert |CStr(cep)| <= 224 ==> text[|UrlPrefix|..|UrlPrefix| + |CStr(cep)|] == CStr(cep);
  }

  /** `Url` is what `snprintf` leaves in the 256-byte `url` buffer. */
  lemma UrlIsSnPrintfOutput(cep: seq<byte>, buffer: seq<byte>)
    requires |buffer| == UrlSize
    ensures CStr(SnPrintf(buffer, UrlPrefix + CStr(cep) + UrlSuffix)) == Url(cep)
  {
    assert NUL !in UrlPrefix && NUL !in UrlSuffix;
    SnPrintfReadsBack(buffer, UrlPrefix + CStr(cep) + UrlSuffix);
  }
}
