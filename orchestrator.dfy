/** `main`: three zero-initialised records, the argument check, and the
    address → municipality → holidays sequence, each failure ending the run
    with exit status 1, and the report produced only after all three
    lookups succeed. */
module Orchestrator {
  import opened CStrings
  import opened Json
  import opened Http
  import opened CNumbers
  import AddressLookup
  import MunicipalityLookup
  import HolidayLookup

  /** What `exibir_relatorio_completo` is given: the three filled records.
      The printing itself is not modelled. */
  datatype Report = Report(
    endereco: AddressLookup.Endereco,
    municipio: MunicipalityLookup.Municipio,
    feriados: HolidayLookup.Feriados)

  /** The end of a run: the exit status, the URLs requested in order, and
      the report when one was produced. */
  datatype Outcome = Outcome(exit: int, requests: seq<seq<byte>>, report: Option<Report>)

  /** `o` with the requests `earlier` made before it. */
  function After(earlier: seq<seq<byte>>, o: Outcome): Outcome
  {
    o.(requests := earlier + o.requests)
  }

  /** The last stage of `main`, once the address `e` and the municipality
      `m` are known. */
  function HolidayStage(e: AddressLookup.Endereco, m: MunicipalityLookup.Municipio,
                        net: Network, today: seq<byte>, year: int32): Outcome
  {
    match HolidayLookup.Lookup(net, today, year)
    case None => Outcome(1, [HolidayLookup.Url(year)], None)
    case Some(f) => Outcome(0, [HolidayLookup.Url(year)], Some(Report(e, m, f)))
  }

  /** The stages of `main` after the address `e` is known: the municipality
      is looked up with the IBGE code the address lookup stored. */
  function MunicipalityStage(e: AddressLookup.Endereco, net: Network, today: seq<byte>, year: int32): Outcome
  {
    var asked := MunicipalityLookup.Requests(e.codigoIbge, net);
    match MunicipalityLookup.Lookup(e.codigoIbge, MunicipalityLookup.Empty, net)
    case None => Outcome(1, asked, None)
    case Some(m) => After(asked, HolidayStage(e, m, net, today, year))
  }

  /** The run of `main` with arguments `args` (`args[0]` being the program
      name) against `net`, on the day `today` of `year`. */
  function Pipeline(args: seq<seq<byte>>, net: Network, today: seq<byte>, year: int32): (r: Outcome)
    ensures r.exit == 0 || r.exit == 1
    ensures r.report.Some? <==> r.exit == 0
    ensures r.requests == [] <==> |args| < 2
    ensures |r.requests| <= 4
  {
    if |args| < 2 then Outcome(1, [], None)
    else
      var cep := args[1];
      match AddressLookup.Lookup(cep, AddressLookup.Empty, net)
      case None => Outcome(1, [AddressLookup.Url(cep)], None)
      case Some(e) => After([AddressLookup.Url(cep)], MunicipalityStage(e, net, today, year))
  }

  /** The holiday lookup, on a zero-initialised `DadosFeriados`, and the
      report. */
  method RunHolidays(e: AddressLookup.Endereco, m: MunicipalityLookup.Municipio,
                     net: Network, today: seq<byte>, year: int32)
    returns (exit: int, requests: seq<seq<byte>>, report: Option<Report>)
    ensures Outcome(exit, requests, report) == HolidayStage(e, m, net, today, year)
  {
    var feriados := new HolidayLookup.DadosFeriados();
    var rc;
    rc, requests := HolidayLookup.BuscarFeriados(feriados, net, today, year);
    if rc != 0 {
      return 1, requests, None;
    }
    report := Some(Report(e, m, feriados.View()));
    exit := 0;
  }

  /** The municipality lookup, on a zero-initialised `DadosIBGE` and the
      address record's IBGE code `code`, then the rest of the run. */
  method RunMunicipality(e: AddressLookup.Endereco, code: seq<byte>,
                         net: Network, today: seq<byte>, year: int32)
    returns (exit: int, requests: seq<seq<byte>>, report: Option<Report>)
    requires e.codigoIbge == CStr(code)
    ensures Outcome(exit, requests, report) == MunicipalityStage(e, net, today, year)
  {
    var dadosIbge := new MunicipalityLookup.DadosIbge();
    CStrIdempotent(code);
    var rc, asked := MunicipalityLookup.BuscarDadosMunicipio(code, dadosIbge, net);
    if rc != 0 {
      return 1, asked, None;
    }
    var m := dadosIbge.View();
    exit, requests, report := RunHolidays(e, m, net, today, year);
    requests := asked + requests;
  }

  /** `main(argc, argv)`. */
  method Run(args: seq<seq<byte>>, net: Network, today: seq<byte>, year: int32)
    returns (exit: int, requests: seq<seq<byte>>, report: Option<Report>)
    ensures Outcome(exit, requests, report) == Pipeline(args, net, today, year)
  {
    var endereco := new AddressLookup.DadosEndereco();
    if |args| < 2 {
      return 1, [], None;
    }
    var cep := args[1];
    var rc, asked := AddressLookup.BuscarEndereco(cep, endereco, net);
    AddressLookup.LookupOutcome(cep, AddressLookup.Empty, net);
    if rc != 0 {
      return 1, asked, None;
    }
    exit, requests, report :=
      RunMunicipality(endereco.View(), endereco.codigoIbge[..], net, today, year);
    requests := asked + requests;
  }

  // ------------------------------------------------------------ properties

  /** Fewer than two arguments: usage message, exit status 1, no request. */
  lemma UsageError(args: seq<seq<byte>>, net: Network, today: seq<byte>, year: int32)
    requires |args| < 2
    ensures Pipeline(args, net, today, year) == Outcome(1, [], None)
  {
  }

  /** The run succeeds exactly when all three lookups succeed, the
      municipality being looked up with the IBGE code of the address
      found. */
  lemma SuccessNeedsAllThree(args: seq<seq<byte>>, net: Network, today: seq<byte>, year: int32)
    ensures Pipeline(args, net, today, year).exit == 0 <==>
      && |args| >= 2
      && AddressLookup.Lookup(args[1], AddressLookup.Empty, net).Some?
      && MunicipalityLookup.Lookup(AddressLookup.Lookup(args[1], AddressLookup.Empty, net).value.codigoIbge,
                                   MunicipalityLookup.Empty, net).Some?
      && HolidayLookup.Lookup(net, today, year).Some?
  {
    if |args| >= 2 && AddressLookup.Lookup(args[1], AddressLookup.Empty, net).Some? {
      var e := AddressLookup.Lookup(args[1], AddressLookup.Empty, net).value;
      assert Pipeline(args, net, today, year) == After([AddressLookup.Url(args[1])], MunicipalityStage(e, net, today, year));
    }
  }

  /** A successful run reports the three lookups' results. */
  lemma SuccessfulRunReport(args: seq<seq<byte>>, net: Network, today: seq<byte>, year: int32)
    requires Pipeline(args, net, today, year).exit == 0
    ensures |args| >= 2 && AddressLookup.Lookup(args[1], AddressLookup.Empty, net).Some?
    ensures var e := AddressLookup.Lookup(args[1], AddressLookup.Empty, net).value;
      && MunicipalityLookup.Lookup(e.codigoIbge, MunicipalityLookup.Empty, net).Some?
      && HolidayLookup.Lookup(net, today, year).Some?
      && Pipeline(args, net, today, year).report == Some(Report(e,
           MunicipalityLookup.Lookup(e.codigoIbge, MunicipalityLookup.Empty, net).value,
           HolidayLookup.Lookup(net, today, year).value))
  {
    var e := AddressLookup.Lookup(args[1], AddressLookup.Empty, net).value;
    var m := MunicipalityLookup.Lookup(e.codigoIbge, MunicipalityLookup.Empty, net).value;
    var h := HolidayStage(e, m, net, today, year);
    assert Pipeline(args, net, today, year).report == MunicipalityStage(e, net, today, year).report == h.report;
  }

  /** A successful run makes four requests, in order: the address, the
      municipality's detail and population, and the holidays. */
  lemma SuccessfulRunRequests(args: seq<seq<byte>>, net: Network, today: seq<byte>, year: int32)
    requires Pipeline(args, net, today, year).exit == 0
    ensures |args| >= 2 && AddressLookup.Lookup(args[1], AddressLookup.Empty, net).Some?
    ensures var e := AddressLookup.Lookup(args[1], AddressLookup.Empty, net).value;
      Pipeline(args, net, today, year).requests ==
        [AddressLookup.Url(args[1]), MunicipalityLookup.DetailUrl(e.codigoIbge),
         MunicipalityLookup.PopulationUrl(e.codigoIbge), HolidayLookup.Url(year)]
  {
    var e := AddressLookup.Lookup(args[1], AddressLookup.Empty, net).value;
    var m := MunicipalityLookup.Lookup(e.codigoIbge, MunicipalityLookup.Empty, net).value;
    var asked := MunicipalityLookup.Requests(e.codigoIbge, net);
    assert asked == [MunicipalityLookup.DetailUrl(e.codigoIbge), MunicipalityLookup.PopulationUrl(e.codigoIbge)];
    var h := HolidayStage(e, m, net, today, year);
    assert h.requests == [HolidayLookup.Url(year)];
    assert Pipeline(args, net, today, year) == After([AddressLookup.Url(args[1])], After(asked, h));
    Concat4(AddressLookup.Url(args[1]), MunicipalityLookup.DetailUrl(e.codigoIbge),
            MunicipalityLookup.PopulationUrl(e.codigoIbge), HolidayLookup.Url(year));
  }

  lemma Concat4<T>(a: T, b: T, c: T, d: T)
    ensures [a] + ([b, c] + [d]) == [a, b, c, d]
  {
  }

  /** Each failure ends the run: a failed address lookup leaves the
      municipality and the holidays unrequested, and a failed municipality
      lookup leaves the holidays unrequested. */
  lemma FailureStopsTheRun(args: seq<seq<byte>>, net: Network, today: seq<byte>, year: int32)
    requires |args| >= 2
    ensures var o := Pipeline(args, net, today, year);
      && o.requests[0] == AddressLookup.Url(args[1])
      && (AddressLookup.Lookup(args[1], AddressLookup.Empty, net).None? <==> o.requests == [AddressLookup.Url(args[1])])
    ensures var o := Pipeline(args, net, today, year);
      AddressLookup.Lookup(args[1], AddressLookup.Empty, net).Some? ==>
        var code := AddressLookup.Lookup(args[1], AddressLookup.Empty, net).value.codigoIbge;
        && o.requests[1] == MunicipalityLookup.DetailUrl(code)
        && (MunicipalityLookup.Lookup(code, MunicipalityLookup.Empty, net).None? <==> |o.requests| == 2)
  {
  }

  /** The records start zeroed: a field the replies never fill is still
      empty in the report, and a failed population request leaves the
      population and the density at 0. */
  lemma ZeroInitialisedDefaults(args: seq<seq<byte>>, net: Network, today: seq<byte>, year: int32)
    requires Pipeline(args, net, today, year).exit == 0
    ensures |args| >= 2 && net(AddressLookup.Url(args[1])).Parsed?
    ensures var r := Pipeline(args, net, today, year).report.value;
      && (!IsString(Get(net(AddressLookup.Url(args[1])).root, "bairro")) ==> r.endereco.bairro == [])
      && (!net(MunicipalityLookup.PopulationUrl(r.endereco.codigoIbge)).Parsed? ==>
            r.municipio.populacao == 0 && r.municipio.densidade == 0.0)
  {
  }
}
