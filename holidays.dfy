/** The holiday lookup, `buscar_feriados`: one request to BrasilAPI for the
    national holidays of the current year, a count of the well-formed
    entries, and the choice of the first one that falls on or after today.
    The clock is not modelled: today's `YYYY-MM-DD` text and the year are
    parameters. */
module HolidayLookup {
  import opened CStrings
  import opened CNumbers
  import opened Json
  import opened Http

  /** `sizeof` of the three `char` fields of `DadosFeriados`. */
  const ProximoSize: nat := 128
  const DataSize: nat := 16
  const TipoSize: nat := 64

  /** What a `DadosFeriados` holds: the count and three C strings. */
  datatype Feriados = Feriados(
    quantidade: int,
    proximo: seq<byte>,
    data: seq<byte>,
    tipo: seq<byte>)

  /** A zero-initialised record. */
  const Empty := Feriados(0, [], [], [])

  /** The type given to a holiday without a string `type`. */
  const National := Ascii("national")
  /** What the date and type fields hold when no holiday is left. */
  const NotAvailable := Ascii("N/A")

  /** The text written when no holiday is left in `year`. */
  function Sentinel(year: int32): (r: seq<byte>)
    ensures NUL !in r
  {
    AsciiNulFree("Nenhum feriado restante em ");
    Ascii("Nenhum feriado restante em ") + FormatInt(year as int)
  }

  // ------------------------------------------------------------ the entries

  /** An entry that is counted: it has a string `date` and a string `name`. */
  predicate Counted(item: Json)
  {
    IsString(Get(item, "date")) && IsString(Get(item, "name"))
  }

  function DateOf(item: Json): seq<byte>
    requires Counted(item)
  {
    Get(item, "date").value.s
  }

  function NameOf(item: Json): seq<byte>
    requires Counted(item)
  {
    Get(item, "name").value.s
  }

  /** The entry's `type`, or "national" when it has no string `type`. */
  function TypeOf(item: Json): seq<byte>
  {
    if IsString(Get(item, "type")) then Get(item, "type").value.s else National
  }

  /** A counted entry whose date is not before today:
      `strcmp(date, today) >= 0`. */
  predicate Upcoming(item: Json, today: seq<byte>)
  {
    Counted(item) && !Below(CStr(DateOf(item)), CStr(today))
  }

  /** The number of counted entries. */
  function Count(items: seq<Json>): (r: nat)
    ensures r <= |items|
  {
    if items == [] then 0
    else Count(items[..|items| - 1]) + (if Counted(items[|items| - 1]) then 1 else 0)
  }

  /** The index of the first upcoming entry, if any. */
  function FirstUpcoming(items: seq<Json>, today: seq<byte>): (r: Option<nat>)
    ensures r.Some? ==> r.value < |items| && Upcoming(items[r.value], today)
    ensures r.Some? ==> forall j :: 0 <= j < r.value ==> !Upcoming(items[j], today)
    ensures r.None? ==> forall j :: 0 <= j < |items| ==> !Upcoming(items[j], today)
  {
    if items == [] then None
    else
      var init := items[..|items| - 1];
      assert forall j :: 0 <= j < |init| ==> init[j] == items[j];
      match FirstUpcoming(init, today)
      case Some(k) => Some(k)
      case None => if Upcoming(items[|items| - 1], today) then Some(|items| - 1) else None
  }

  // -------------------------------------------------------------- the record

  /** The record once `quantidade` is `count` and the holiday `item` has been
      copied in with `strncpy(field, s, sizeof(field) - 1)`. */
  function Chosen(count: int, item: Json): Feriados
    requires Counted(item)
  {
    Feriados(count,
      Truncate(CStr(NameOf(item)), ProximoSize - 1),
      Truncate(CStr(DateOf(item)), DataSize - 1),
      Truncate(CStr(TypeOf(item)), TipoSize - 1))
  }

  /** The record when no holiday is left, after the three `snprintf`s. */
  function NoneLeft(count: int, year: int32): Feriados
  {
    Feriados(count,
      Truncate(Sentinel(year), ProximoSize - 1),
      Truncate(NotAvailable, DataSize - 1),
      Truncate(NotAvailable, TipoSize - 1))
  }

  /** The record after the loop has visited `items`, when it held `prior`
      before the count was reset. */
  function Progress(prior: Feriados, items: seq<Json>, today: seq<byte>): Feriados
  {
    match FirstUpcoming(items, today)
    case Some(k) => Chosen(Count(items), items[k])
    case None => prior.(quantidade := Count(items))
  }

  /** One more entry visited: the count grows when it is counted, and it is
      chosen when it is the first upcoming one. */
  lemma ProgressStep(prior: Feriados, items: seq<Json>, today: seq<byte>)
    requires items != []
    ensures var init, last := items[..|items| - 1], items[|items| - 1];
      Progress(prior, items, today) ==
        if FirstUpcoming(init, today).Some? then
          Progress(prior, init, today).(quantidade := Count(items))
        else if Upcoming(last, today) then Chosen(Count(items), last)
        else prior.(quantidade := Count(items))
    ensures var init, last := items[..|items| - 1], items[|items| - 1];
      FirstUpcoming(items, today).Some? <==> FirstUpcoming(init, today).Some? || Upcoming(last, today)
  {
    var init := items[..|items| - 1];
    match FirstUpcoming(init, today)
    case Some(k) => assert items[k] == init[k];
    case None =>
  }

  /** One turn of the loop, on the record `v` and the flag `found`. */
  function Step(v: Feriados, found: bool, item: Json, today: seq<byte>): (Feriados, bool)
  {
    if !Counted(item) then (v, found)
    else if !found && Upcoming(item, today) then (Chosen(v.quantidade + 1, item), true)
    else (v.(quantidade := v.quantidade + 1), found)
  }

  /** The loop run turn by turn over `items`, from the record `prior` and
      an unset flag. */
  function Scan(prior: Feriados, items: seq<Json>, today: seq<byte>): (Feriados, bool)
  {
    if items == [] then (prior, false)
    else
      var r := Scan(prior, items[..|items| - 1], today);
      Step(r.0, r.1, items[|items| - 1], today)
  }

  /** One turn on a record whose count is `n` less the entry's own, and
      which is `prior` with that count until an entry has been recorded. */
  lemma StepAgrees(prior: Feriados, v: Feriados, found: bool, item: Json, today: seq<byte>, n: int)
    requires n == v.quantidade + (if Counted(item) then 1 else 0)
    requires !found ==> v == prior.(quantidade := v.quantidade)
    ensures Step(v, found, item, today) ==
      (if found then v.(quantidade := n)
       else if Upcoming(item, today) then Chosen(n, item)
       else prior.(quantidade := n),
       found || Upcoming(item, today))
  {
  }

  /** Running the loop from a zero count leaves the count of entries, the
      first upcoming entry recorded, and the flag set exactly when there is
      one. */
  lemma {:induction false} ScanIsProgress(prior: Feriados, items: seq<Json>, today: seq<byte>)
    requires prior.quantidade == 0
    ensures Scan(prior, items, today) == (Progress(prior, items, today), FirstUpcoming(items, today).Some?)
  {
    if items != [] {
      var init, last := items[..|items| - 1], items[|items| - 1];
      ScanIsProgress(prior, init, today);
      ProgressStep(prior, items, today);
      var v := Progress(prior, init, today);
      assert v.quantidade == Count(init);
      StepAgrees(prior, v, FirstUpcoming(init, today).Some?, last, today, Count(items));
    }
  }

  /** The record after `buscar_feriados` has processed the array `items`. */
  function Select(items: seq<Json>, today: seq<byte>, year: int32): (r: Feriados)
    ensures r.quantidade == Count(items)
    ensures |r.proximo| < ProximoSize && |r.data| < DataSize && |r.tipo| < TipoSize
    ensures FirstUpcoming(items, today).None? ==> r.data == NotAvailable && r.tipo == NotAvailable
  {
    match FirstUpcoming(items, today)
    case Some(k) => Chosen(Count(items), items[k])
    case None => NoneLeft(Count(items), year)
  }

  /** `sizeof(url)` in `buscar_feriados`. */
  const UrlSize: nat := 512
  const UrlPrefix := Ascii("https://brasilapi.com.br/api/feriados/v1/")

  /** The request URL, as `snprintf` leaves it in `url`. */
  function Url(year: int32): seq<byte>
  {
    Truncate(UrlPrefix + FormatInt(year as int), UrlSize - 1)
  }

  /** The whole of `buscar_feriados` on the record's contents: None when it
      returns -1, which a reply that is not an array also causes. */
  function Lookup(net: Network, today: seq<byte>, year: int32): Option<Feriados>
  {
    match net(Url(year))
    case Parsed(root) => if root.JArray? then Some(Select(root.items, today, year)) else None
    case _ => None
  }

  /** `DadosFeriados`: the count and three `char` arrays. */
  class DadosFeriados {
    var quantidade: int
    const proximo: array<byte>
    const data: array<byte>
    const tipo: array<byte>

    ghost predicate Valid()
      reads proximo, data, tipo
    {
      Terminated(proximo, ProximoSize) && Terminated(data, DataSize) && Terminated(tipo, TipoSize)
    }

    /** The contents of the record. */
    function View(): Feriados
      reads this, proximo, data, tipo
    {
      Feriados(quantidade, CStr(proximo[..]), CStr(data[..]), CStr(tipo[..]))
    }

    /** `DadosFeriados feriados = {0};` */
    constructor ()
      ensures Valid() && View() == Empty
      ensures fresh(proximo) && fresh(data) && fresh(tipo)
    {
      quantidade := 0;
      proximo := new byte[ProximoSize](_ => NUL);
      data := new byte[DataSize](_ => NUL);
      tipo := new byte[TipoSize](_ => NUL);
    }

    /** The three `strncpy`s that record the next holiday. */
    method Record(item: Json)
      requires Valid() && Counted(item)
      modifies proximo, data, tipo
      ensures Valid()
      ensures View() == Chosen(quantidade, item)
    {
      StrNCpyField(proximo, NameOf(item));
      StrNCpyField(data, DateOf(item));
      StrNCpyField(tipo, TypeOf(item));
    }

    /** One turn of the loop over the array: a counted entry raises the
        count, and the first upcoming one (`found` says whether one was
        already recorded) is recorded. */
    method Visit(item: Json, today: seq<byte>, found: bool) returns (nowFound: bool)
      requires Valid()
      modifies this, proximo, data, tipo
      ensures Valid()
      ensures (View(), nowFound) == Step(old(View()), found, item, today)
    {
      nowFound := found;
      if !Counted(item) {
        return;
      }
      quantidade := quantidade + 1;
      if !found && !Below(CStr(DateOf(item)), CStr(today)) {
        Record(item);
        nowFound := true;
      }
    }

    /** The three `snprintf`s written when no holiday is left. */
    method RecordNoneLeft(year: int32)
      requires Valid()
      modifies proximo, data, tipo
      ensures Valid()
      ensures View() == NoneLeft(quantidade, year)
    {
      SnPrintfField(proximo, Sentinel(year));
      SnPrintfField(data, NotAvailable);
      SnPrintfField(tipo, NotAvailable);
    }
  }

  /** The part of `buscar_feriados` after the answer is known to be the
      array `items`: reset the count, visit every entry, and write the
      sentinel when no holiday is left. */
  method Tally(feriados: DadosFeriados, items: seq<Json>, today: seq<byte>, year: int32)
    requires feriados.Valid()
    modifies feriados, feriados.proximo, feriados.data, feriados.tipo
    ensures feriados.Valid()
    ensures feriados.View() == Select(items, today, year)
  {
    feriados.quantidade := 0;
    var found := false;
    ghost var start := feriados.View();
    for i := 0 to |items|
      invariant feriados.Valid()
      invariant (feriados.View(), found) == Scan(start, items[..i], today)
    {
      assert items[..i + 1][..i] == items[..i];
      found := feriados.Visit(items[i], today, found);
    }
    assert items[..|items|] == items;
    ScanIsProgress(start, items, today);
    if !found {
      feriados.RecordNoneLeft(year);
    }
  }

  /** `buscar_feriados(uf, feriados)` (the state is not used). Returns -1 and
      leaves the record untouched when the request or the parse fails or the
      answer is not an array; otherwise counts the entries, records the next
      holiday or the sentinel, and returns 0. `requests` lists the URLs asked
      for. */
  method BuscarFeriados(feriados: DadosFeriados, net: Network, today: seq<byte>, year: int32)
    returns (rc: int, requests: seq<seq<byte>>)
    requires feriados.Valid()
    modifies feriados, feriados.proximo, feriados.data, feriados.tipo
    ensures feriados.Valid()
    ensures requests == [Url(year)]
    ensures rc == 0 || rc == -1
    ensures rc == 0 <==> net(Url(year)).Parsed? && net(Url(year)).root.JArray?
    ensures rc == 0 ==> feriados.View() == Select(net(Url(year)).root.items, today, year)
    ensures rc == -1 ==> unchanged(feriados, feriados.proximo, feriados.data, feriados.tipo)
  {
    var url := Url(year);
    requests := [url];
    var reply := net(url);
    if !reply.Parsed? {
      return -1, requests;
    }
    var root := reply.root;
    if !root.JArray? {
      return -1, requests;
    }
    Tally(feriados, root.items, today, year);
    rc := 0;
  }

  // ------------------------------------------------------------ properties

  /** The count is the number of entries exactly when every entry has a
      string date and a string name. */
  lemma {:induction false} CountAllCounted(items: seq<Json>)
    ensures Count(items) == |items| <==> forall i :: 0 <= i < |items| ==> Counted(items[i])
  {
    if items != [] {
      var init := items[..|items| - 1];
      CountAllCounted(init);
      assert forall i :: 0 <= i < |init| ==> init[i] == items[i];
    }
  }

  /** The count does not depend on today's date, and neither does the
      record's `quantidade`. */
  lemma CountIgnoresToday(items: seq<Json>, today: seq<byte>, other: seq<byte>, year: int32)
    ensures Select(items, today, year).quantidade == Select(items, other, year).quantidade == Count(items)
  {
  }

  /** The first upcoming entry is unique: any upcoming entry with none
      before it is the one chosen. */
  lemma FirstUpcomingIsUnique(items: seq<Json>, today: seq<byte>, k: nat)
    requires k < |items| && Upcoming(items[k], today)
    requires forall j :: 0 <= j < k ==> !Upcoming(items[j], today)
    ensures FirstUpcoming(items, today) == Some(k)
  {
  }

  /** A later match never overwrites the chosen holiday: entries appended
      after it do not change the choice. */
  lemma LaterMatchesDoNotOverwrite(items: seq<Json>, more: seq<Json>, today: seq<byte>)
    requires FirstUpcoming(items, today).Some?
    ensures FirstUpcoming(items + more, today) == FirstUpcoming(items, today)
  {
    var k := FirstUpcoming(items, today).value;
    var all := items + more;
    assert forall j :: 0 <= j < |items| ==> all[j] == items[j];
    FirstUpcomingIsUnique(all, today, k);
  }

  /** When the dates come in ascending order, as BrasilAPI lists them, the
      upcoming entries are the tail that starts at the chosen one. */
  lemma UpcomingTailWhenSorted(items: seq<Json>, today: seq<byte>)
    requires forall i :: 0 <= i < |items| ==> Counted(items[i])
    requires forall i, j :: 0 <= i < j < |items| ==> !Below(CStr(DateOf(items[j])), CStr(DateOf(items[i])))
    ensures FirstUpcoming(items, today).Some? ==>
      forall j :: FirstUpcoming(items, today).value <= j < |items| ==> Upcoming(items[j], today)
  {
    if FirstUpcoming(items, today).Some? {
      var k := FirstUpcoming(items, today).value;
      forall j | k <= j < |items|
        ensures Upcoming(items[j], today)
      {
        if j > k {
          AtMostTransitive(CStr(today), CStr(DateOf(items[k])), CStr(DateOf(items[j])));
        }
      }
    }
  }

  /** With no date on or after today the record holds the sentinel,
      "Nenhum feriado restante em <year>", and "N/A" twice; when every entry
      is well formed the count is the length of the array. */
  lemma NoHolidayLeft(items: seq<Json>, today: seq<byte>, year: int32)
    requires forall i :: 0 <= i < |items| ==> !Upcoming(items[i], today)
    ensures Select(items, today, year).proximo == Sentinel(year)
    ensures Select(items, today, year).data == NotAvailable
    ensures Select(items, today, year).tipo == NotAvailable
    ensures (forall i :: 0 <= i < |items| ==> Counted(items[i])) ==>
      Select(items, today, year).quantidade == |items|
  {
    FormatInt32Length(year);
    CountAllCounted(items);
  }

  /** Without a string `type`, the chosen holiday's type is "national". */
  lemma NationalByDefault(items: seq<Json>, today: seq<byte>, year: int32)
    requires FirstUpcoming(items, today).Some?
    requires !IsString(Get(items[FirstUpcoming(items, today).value], "type"))
    ensures Select(items, today, year).tipo == National
  {
    NationalIsCString();
  }

  /** "national" is its own C string. */
  lemma NationalIsCString()
    ensures CStr(National) == National
  {
    AsciiIsCString("national");
  }

  /** "Natal" is its own C string. */
  lemma NatalIsCString()
    ensures CStr(Ascii("Natal")) == Ascii("Natal")
  {
    AsciiIsCString("Natal");
  }

  /** The two dates differ first at their sixth byte, '1' against '0'. */
  lemma DecemberAfterJune()
    ensures !Below(Ascii("2025-12-25"), Ascii("2025-06-01"))
  {
    var natal, june := Ascii("2025-12-25"), Ascii("2025-06-01");
    assert natal[..5] == june[..5] && natal[5] != june[5];
    BelowAtFirstDifference(natal, june, 5);
  }

  /** `strcmp("2025-12-25", "2025-06-01") > 0`. */
  lemma ChristmasNotBeforeJune()
    ensures CStr(Ascii("2025-12-25")) == Ascii("2025-12-25")
    ensures !Below(CStr(Ascii("2025-12-25")), CStr(Ascii("2025-06-01")))
  {
    AsciiIsCString("2025-12-25");
    AsciiIsCString("2025-06-01");
    DecemberAfterJune();
  }

  /** Of two counted entries, an upcoming first one is chosen. */
  lemma FirstOfTwoChosen(first: Json, second: Json, today: seq<byte>, year: int32)
    requires Upcoming(first, today) && Counted(second)
    ensures Select([first, second], today, year) == Chosen(2, first)
  {
    var items := [first, second];
    FirstUpcomingIsUnique(items, today, 0);
    assert items[..1] == [first] && [first][..0] == [];
    assert Count([first]) == 1;
    assert Count(items) == 2;
  }

  /** Christmas is chosen over New Year's Day when today is the first of
      June 2025, and both are counted. */
  lemma NextHolidayExample(otherName: seq<byte>)
    ensures var natal := JObject([("date", JString(Ascii("2025-12-25"))), ("name", JString(Ascii("Natal")))]);
      var anoNovo := JObject([("date", JString(Ascii("2025-01-01"))), ("name", JString(otherName))]);
      Select([natal, anoNovo], Ascii("2025-06-01"), 2025)
        == Feriados(2, Ascii("Natal"), Ascii("2025-12-25"), National)
  {
    var natalDate, natalName, today := Ascii("2025-12-25"), Ascii("Natal"), Ascii("2025-06-01");
    var natal := JObject([("date", JString(natalDate)), ("name", JString(natalName))]);
    var anoNovo := JObject([("date", JString(Ascii("2025-01-01"))), ("name", JString(otherName))]);
    assert "date" != "name" by {
      assert "date"[0] != "name"[0];
    }
    assert "type" != "date" && "type" != "name" by {
      assert "type"[0] != "date"[0] && "type"[0] != "name"[0];
    }
    GetOfPair("date", JString(natalDate), "name", JString(natalName));
    assert Get(natal, "type").None?;
    GetOfPair("date", JString(Ascii("2025-01-01")), "name", JString(otherName));
    ChristmasNotBeforeJune();
    FirstOfTwoChosen(natal, anoNovo, today, 2025);
    NatalIsCString();
    NationalIsCString();
  }

  /** The year is put into the URL in full. */
  lemma UrlEmbedsYear(year: int32)
    ensures Url(year) == UrlPrefix + FormatInt(year as int)
  {
    FormatInt32Length(year);
  }
}
