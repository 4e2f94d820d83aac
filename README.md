# Three-API integration client (ViaCEP → IBGE → BrasilAPI), modelled in Dafny

The program takes a Brazilian postal code (CEP) on its command line and
chains three public HTTP+JSON services:

1. **ViaCEP** (`buscar_endereco`) fills an address record (`DadosEndereco`)
   with six fixed-size C strings, one of which is the municipality's IBGE
   code;
2. **IBGE** (`buscar_dados_municipio`) fills a municipality record
   (`DadosIBGE`) with the municipality's name and region (a four-level
   walk through nested objects) and, from a second, best-effort request, its
   population; the area is a placeholder constant and the density is derived
   from the population only when that is positive;
3. **BrasilAPI** (`buscar_feriados`) fills a holiday record
   (`DadosFeriados`) with the number of well-formed holidays of the current
   year and the first one, in array order, dated today or later, or a
   sentinel when none is left.

`main` zero-initialises the three records, checks its arguments, and runs
the three lookups in order; each failure ends the run with exit status 1,
and the report is produced only after all three succeed. `write_callback`
is the libcurl write callback that grows the response buffer.

The model is organised as the program is:

- `CStrings` — bytes, C strings held in `char[N]` buffers (`CStr`),
  `strncpy` and `snprintf` into such buffers (array methods proved against
  functions on the buffer's contents), and `strcmp` (`Below`), proved to be
  the lexicographic order on byte strings.
- `CNumbers` — 32-bit `int` conversions, glibc's `atoi` (as `(int) strtol`),
  and the `%d` formatting of `snprintf`.
- `Json` — the parsed JSON tree (jansson's `json_t`), `json_object_get`
  (absent on a missing key and on a non-object), `json_array_get`, a
  tolerant descent through nested objects, and the guarded
  `strncpy`-from-JSON-string that every lookup uses.
- `Http` — the outcome of one request (`Reply`), the services as a function
  from URL to reply (`Network`), and the `HTTPResponse` buffer with
  `write_callback`.
- `AddressLookup`, `MunicipalityLookup`, `HolidayLookup` — one module per
  lookup. Each has a record class whose `char` arrays are updated in place,
  a pure function (`Extract` / `Select`) that gives the record after a
  successful lookup, and the imperative lookup method proved against it.
- `Orchestrator` — `main` as the method `Run`, proved equal to the pure
  `Pipeline`, which the properties of the run are stated about.

Two source files carry the lookups: `integrador__apis.c` (three lookups) and
`integrador_apis.c` (the two-lookup variant). Their lines 11–265
(`write_callback`, `buscar_endereco`, `buscar_dados_municipio`) are
identical, so one model serves both; rows below cite one or the other. The
field capacities are those of `integrador_apis.h:8-32`, which the
three-lookup file is assumed to share.

The network, the clock and memory allocation are parameters. A run is
given a `Network` (the reply each URL gets: no curl handle, a transport
failure, an unparsable body, or a parsed JSON tree), today's date as
`strftime("%Y-%m-%d")` would write it, and the current year. Lookups return
the URLs they requested, so the order of requests and the absence of later
ones after a failure are part of what is proved.

`Run` creates each record in the stage that first writes it, rather than
all three at its start as `main` does. No earlier stage can reach a later
record, so the outcome is the same.

## Model

| member | source | states |
|---|---|---|
| Http.Response.WriteCallback | integrador__apis.c:11-26 | when `realloc` succeeds, the body becomes the old body followed by exactly the `size * nmemb` new bytes, `size` grows by that amount, `data[size]` is NUL and the count is returned; when it fails, 0 is returned and neither `data` nor `size` nor the body changes |
| Http.Response.constructor | integrador__apis.c:44 | `HTTPResponse response = {NULL, 0}` starts with no buffer, size 0 and an empty body |
| CStrings.CStr | integrador__apis.c:101-112 | the C string a buffer holds is a NUL-free prefix of it, ended by a NUL whenever it is shorter than the buffer |
| CStrings.Below | integrador__apis.c:374 | `strcmp(a, b) < 0` on C strings: a proper prefix sorts first, and a string never sorts before one of its own prefixes |
| CStrings.StrNCpyInto | integrador__apis.c:102 | `strncpy(dst, src, n)` on an array: the first `n` bytes become `src`'s C string padded with NULs and the rest of the array is untouched (`StrNCpy`) |
| CStrings.StrNCpyReadsBack | integrador__apis.c:101-112 | after `strncpy(field, s, sizeof(field) - 1)` into a NUL-terminated field, the field reads back as `s` cut to `sizeof(field) - 1` bytes and stays terminated |
| CStrings.StrNCpyField | integrador__apis.c:375-377 | the same on a record's array: last byte still NUL, C string = truncated source |
| CStrings.SnPrintfInto | integrador__apis.c:385-388 | `snprintf(dst, sizeof(dst), text)`: writes at most `sizeof(dst) - 1` bytes of `text`, then a NUL, and leaves the bytes after it untouched (`SnPrintf`) |
| CStrings.SnPrintfReadsBack | integrador__apis.c:385-388 | the buffer then reads back as `text` cut to `sizeof(dst) - 1` bytes, and a terminated buffer stays terminated |
| CStrings.SnPrintfField | integrador__apis.c:385-388 | the same on a record's array |
| CStrings.BelowIsLexicographic | integrador__apis.c:374 | `strcmp(a, b) < 0` holds exactly when `a` is a proper prefix of `b` or, at the first byte where they differ, `a`'s byte is smaller — in both directions |
| CStrings.BelowAtFirstDifference | integrador__apis.c:374 | after a common prefix, the first differing byte alone decides `strcmp` |
| CStrings.BelowTotal | integrador__apis.c:374 | two different C strings are always ordered one way or the other |
| CStrings.BelowTransitive | integrador__apis.c:374 | `strcmp` order is transitive |
| CStrings.BelowAsymmetric | integrador__apis.c:374 | `strcmp(a, b) < 0` excludes `strcmp(b, a) < 0` |
| CStrings.AtMostTransitive | integrador__apis.c:374 | `strcmp(a, b) >= 0` is transitive, so dates sorted ascending stay at or after today once one is |
| CNumbers.Wrap32 | integrador__apis.c:241 | assigning a `json_int_t` to `int`: the result is congruent to the value modulo 2^32 and equal to it when it fits |
| CNumbers.Atoi | integrador__apis.c:243 | `atoi` of a string with no digit at all is 0 |
| CNumbers.AtoiFormatInt | integrador__apis.c:243 | `atoi` reads back every 32-bit integer written in decimal, negative ones included |
| CNumbers.FormatInt | integrador__apis.c:385-386 | `%d` of `n`: no NUL, at least one byte, a leading minus sign exactly when `n` is negative, and otherwise only decimal digits |
| CNumbers.FormatInt32Length | integrador__apis.c:298-300 | `%d` of a 32-bit `int` takes at most 11 bytes |
| Json.Get | integrador__apis.c:86 | `json_object_get` yields a value exactly when the JSON value is an object holding the key, and the value is the member stored under it |
| Json.FindDistinct | integrador__apis.c:94-99 | in an object with distinct keys, as `json_loads` builds it, `json_object_get` finds the one value stored under the key wherever it sits |
| Json.At | integrador__apis.c:230 | `json_array_get(a, i)` yields a value exactly when `a` is an array longer than `i`, and that value is element `i` |
| Json.WalkAppend | integrador__apis.c:189-205 | descending a path in two legs is descending it in one |
| Json.WalkThroughObjects | integrador__apis.c:189-205 | a descent that reaches a value passed only through objects holding each key |
| Json.FieldAfter | integrador__apis.c:101-112 | the guarded copy leaves the field as it was when the JSON value is absent or not a string, and otherwise yields a prefix of the string that fits in the field |
| Json.CopyIfStringReadsBack | integrador__apis.c:101-112 | `if (json_is_string(v)) strncpy(...)` on a terminated field: the field stays terminated and reads back as `FieldAfter` |
| Json.CopyStringField | integrador__apis.c:101-112 | the same on a record's array |
| Json.FieldAfterShortString | integrador__apis.c:101-112 | a NUL-free string shorter than the field is copied verbatim |
| AddressLookup.DadosEndereco.constructor | main.c:6 | `DadosEndereco endereco = {0}`: six empty, terminated fields |
| AddressLookup.DadosEndereco.CopyField | integrador__apis.c:101-112 | one guarded copy changes exactly its own field, to `FieldAfter`, and keeps every field terminated |
| AddressLookup.FillFirst | integrador__apis.c:94-106 | `cep`, `logradouro` and `bairro` are each copied from their keys and nothing else changes |
| AddressLookup.FillSecond | integrador__apis.c:97-112 | `cidade` (from `localidade`), `uf` and `codigo_ibge` (from `ibge`) likewise |
| AddressLookup.BuscarEndereco | integrador__apis.c:41-121 | requests exactly the ViaCEP URL. Returns 0 exactly when the reply parsed and `erro` is not boolean true, and then the record is `Extract` of the reply. Returns -1 otherwise, with all six fields untouched |
| AddressLookup.LookupOutcome | integrador__apis.c:75-91 | the whole lookup succeeds exactly when the reply parsed and is not flagged not-found, and then yields `Extract` of it |
| AddressLookup.ErroBlocksOnlyWhenTrue | integrador__apis.c:86-91 | extraction fails exactly when `erro` is the boolean `true`; an `erro` that is `false`, of another type or absent lets the fields through |
| AddressLookup.Extract | integrador__apis.c:86-112 | after a parse, `buscar_endereco` fails exactly when `erro` is the boolean `true`, and otherwise leaves every field fitting its array if it did before |
| AddressLookup.ExtractChangesOnlyStringFields | integrador__apis.c:94-112 | each of the six fields changes only when its key (`cep`, `logradouro`, `bairro`, `localidade`, `uf`, `ibge`) holds a string, and then to a prefix of that string; fields that fit their arrays still fit |
| AddressLookup.ExtractCopiesShortStringsVerbatim | integrador__apis.c:107-110 | short NUL-free `localidade` and `uf` strings arrive in the record unchanged |
| AddressLookup.ExtractFromNonObject | integrador_apis.c:94-112 | a reply that is not an object succeeds and leaves the record as it was |
| AddressLookup.UrlEmbedsCep | integrador_apis.c:48 | the URL is the ViaCEP prefix, the CEP unescaped and `/json/`, or that text cut to 255 bytes when the CEP is longer than 224 bytes; the prefix always survives |
| AddressLookup.UrlIsSnPrintfOutput | integrador__apis.c:45-48 | the URL is what `snprintf` leaves in the 256-byte `url` buffer |
| MunicipalityLookup.DadosIbge.constructor | main.c:7 | `DadosIBGE dados_ibge = {0}`: empty strings, population 0, area and density 0.0 |
| MunicipalityLookup.CopyRegion | integrador__apis.c:189-205 | the region field becomes `FieldAfter` of the value at `microrregiao.mesorregiao.UF.regiao.nome` and stays terminated |
| MunicipalityLookup.ScanPopulation | integrador__apis.c:239-245 | the `json_object_foreach` loop leaves `populacao` at `LastPopulation` of the members and touches nothing else |
| MunicipalityLookup.FetchPopulation | integrador__apis.c:209-252 | the secondary request leaves `populacao` at `PopulationAfter` its reply, and area and density untouched |
| MunicipalityLookup.BuscarDadosMunicipio | integrador__apis.c:135-265 | requests the detail URL, then the population URL only after the detail reply parsed. Returns 0 exactly when the detail reply parsed, and the record is then `Extract` of both replies. Returns -1 otherwise, with the record untouched |
| MunicipalityLookup.RegionNeedsEveryLevel | integrador__apis.c:189-205 | the region string is reached exactly when all four levels are objects and `regiao.nome` is a string; a break at any level leaves `regiao` unchanged |
| MunicipalityLookup.NameOnlyFromString | integrador_apis.c:184-187 | `nome_completo` changes only for a string `nome`, and then to a prefix of it that fits 255 bytes |
| MunicipalityLookup.LastEntryWins | integrador__apis.c:239-245 | the population is that of the last integer or string member, whatever comes after it |
| MunicipalityLookup.NoEntryKeepsPopulation | integrador__apis.c:239-245 | with no integer or string member the population is unchanged |
| MunicipalityLookup.LastPopulation | integrador__apis.c:236-245 | after the `json_object_foreach` scan the population is either the prior value or the value of one of the integer or string members |
| MunicipalityLookup.LaterUnreadableEntryGivesZero | integrador__apis.c:240-244 | a later non-numeric string replaces an earlier count by `atoi`'s 0, while a later `null` is skipped |
| MunicipalityLookup.SecondaryFailureSwallowed | integrador_apis.c:217-264 | when the detail reply parsed but the population reply fails or has the wrong shape at any level, the lookup still succeeds with the population unchanged |
| MunicipalityLookup.PopulationTableShape | integrador__apis.c:227-235 | the population table is absent for an unparsed reply, a non-array or an empty array, and present only below `[0].res[0].res` |
| MunicipalityLookup.PrimaryDecides | integrador_apis.c:160-179 | the lookup fails exactly when the detail request is not parsed, and the detail URL is always requested first |
| MunicipalityLookup.Extract | integrador__apis.c:184-260 | after a successful primary parse the area is always 500.0; with a positive population the density times the area is the population (and positive), otherwise the density is left as it was; name and region that fit their arrays still fit |
| MunicipalityLookup.ZeroRecordDefaults | main.c:7 | from the zeroed record, a failed population request and an unreachable region leave population 0, density 0.0 and an empty region |
| MunicipalityLookup.UrlsEmbedCode | integrador__apis.c:142-212 | for codes of up to 400 bytes, the detail URL and the population URL are each their prefix followed by the code, never cut |
| HolidayLookup.Sentinel | integrador__apis.c:385-386 | "Nenhum feriado restante em <year>" holds no NUL byte |
| HolidayLookup.FirstUpcoming | integrador__apis.c:355-379 | the chosen index holds a counted entry dated today or later, and no earlier entry is one; with no choice, no entry is one |
| HolidayLookup.DadosFeriados.constructor | main.c:8 | `DadosFeriados feriados = {0}`: count 0 and three empty fields |
| HolidayLookup.DadosFeriados.Record | integrador__apis.c:375-377 | the three `strncpy`s set name, date and type of the entry (type "national" when it has none), each cut to its field |
| HolidayLookup.DadosFeriados.Visit | integrador__apis.c:356-379 | one turn of the loop is `Step`: skip an uncounted entry, count a counted one, and record it when it is upcoming and nothing was recorded yet |
| HolidayLookup.DadosFeriados.RecordNoneLeft | integrador__apis.c:384-389 | the three `snprintf`s write the sentinel, "N/A" and "N/A" |
| HolidayLookup.Tally | integrador__apis.c:345-389 | after the counter reset, the loop and the fallback, the record is `Select` of the array |
| HolidayLookup.BuscarFeriados | integrador__apis.c:283-399 | requests the BrasilAPI URL of the year. Returns 0 exactly when the reply parsed as an array, and the record is then `Select` of it. Returns -1 otherwise (including a non-array), with the record untouched |
| HolidayLookup.ScanIsProgress | integrador__apis.c:345-380 | running the loop from a zero count ends at the count of entries and the first upcoming one (or the prior fields), with the flag set exactly when there is one |
| HolidayLookup.StepAgrees | integrador__apis.c:362-379 | one turn adds one to the count exactly for a counted entry and records only the first upcoming entry |
| HolidayLookup.ProgressStep | integrador__apis.c:355-380 | extending the array by one entry changes the record only by the count unless no earlier entry was upcoming |
| HolidayLookup.CountAllCounted | integrador__apis.c:362-371 | the count equals the array's length exactly when every entry has a string `date` and a string `name` |
| HolidayLookup.Count | integrador__apis.c:356-369 | `quantidade_feriados` never exceeds the number of entries |
| HolidayLookup.CountIgnoresToday | integrador__apis.c:346-371 | the count does not depend on today's date |
| HolidayLookup.FirstUpcomingIsUnique | integrador__apis.c:374-379 | an upcoming entry with no upcoming entry before it is the one chosen |
| HolidayLookup.LaterMatchesDoNotOverwrite | integrador__apis.c:374-378 | once an entry is chosen, appending more entries never changes the choice |
| HolidayLookup.UpcomingTailWhenSorted | integrador__apis.c:374 | in an array sorted by date, every entry from the chosen one on is upcoming |
| HolidayLookup.NoHolidayLeft | integrador__apis.c:384-389 | with no upcoming entry the fields read the sentinel, "N/A" and "N/A", and the count is the length when all entries are counted |
| HolidayLookup.Select | integrador__apis.c:346-389 | the record after the loop: the count is `Count` of the entries, whichever holiday is chosen; all three strings fit their arrays; with no upcoming entry the date and the type read "N/A" |
| HolidayLookup.NationalByDefault | integrador__apis.c:368 | a chosen entry without a string `type` gets type "national" |
| HolidayLookup.FirstOfTwoChosen | integrador__apis.c:355-379 | of two counted entries the first, when upcoming, is chosen and both are counted |
| HolidayLookup.NextHolidayExample | integrador__apis.c:355-389 | on 2025-06-01, a Christmas entry followed by a New Year entry gives count 2 and next holiday "Natal", "2025-12-25", "national" |
| HolidayLookup.UrlEmbedsYear | integrador__apis.c:298-300 | the URL is the BrasilAPI prefix followed by the year in decimal, never cut |
| Orchestrator.Run | main.c:5-53 | `main` ends with exactly the exit status, the requests and the report of `Pipeline` |
| Orchestrator.RunMunicipality | main.c:37-41 | the municipality stage, run on the address record's `codigo_ibge` buffer, behaves as `MunicipalityStage` of the address found |
| Orchestrator.RunHolidays | main.c:43-52 | the holiday stage and the report behave as `HolidayStage` |
| Orchestrator.UsageError | main.c:17-27 | fewer than two arguments: exit status 1, no request, no report |
| Orchestrator.Pipeline | main.c:5-53 | the exit status is 0 or 1, a report exists exactly when it is 0, no request is made exactly when fewer than two arguments are given, and at most four requests are made |
| Orchestrator.SuccessNeedsAllThree | main.c:32-52 | the run succeeds exactly when the address, the municipality (looked up with the code the address lookup stored) and the holiday lookups all succeed |
| Orchestrator.SuccessfulRunReport | main.c:50-52 | a successful run reports exactly the three lookups' results |
| Orchestrator.SuccessfulRunRequests | main.c:32-47 | a successful run requests the address, municipality detail, population and holiday URLs, in that order |
| Orchestrator.FailureStopsTheRun | main.c:32-41 | the address URL is requested first; a failed address lookup is the only request; otherwise the next request is the detail URL for the address's IBGE code, and a failed municipality lookup stops there |
| Orchestrator.ZeroInitialisedDefaults | main.c:6-8 | in a successful run, a `bairro` the reply does not give as a string is empty, and a failed population request leaves population 0 and density 0.0 |

## Left out

- libcurl: handle creation, options and the transfer are not modelled; each request is summed up by its `Reply`. `curl_easy_init` failures, transport failures and unparsable bodies all end a lookup as the code does. The returned list of requests includes a URL even when no handle could be created for it.
- jansson: the JSON text and `json_loads` are not modelled; a reply carries the parsed tree. Reference counting, `json_decref` and `free` are not modelled either. Without `JSON_REJECT_DUPLICATES`, `json_loads` keeps the last value of a repeated key, so every parsed object has distinct keys (`Json.DistinctKeys`). The `Json` datatype does not demand it; `Find` returns the first match, which under `DistinctKeys` is the only one (`Json.FindDistinct`).
- The secondary IBGE request's "transfer succeeded but no body arrived" case is folded into `ParseFailure`. Both are swallowed the same way.
- `time`, `localtime` and `strftime`: today's date and the year are parameters of the run.
- `printf`/`fprintf` output, the usage text and `exibir_relatorio_completo` (console formatting only) are not modelled. The report is the three records handed to it. The header declares that function with three arguments while `integrador_apis.c:272` defines it with two; that file's report is not modelled.
- The `uf` argument of `buscar_feriados` is unused by the code and is not a parameter of `BuscarFeriados`.
- Http.Response.WriteCallback: `size * nmemb` and `size + realsize + 1` are unbounded; the `size_t` wrap-around they could suffer is not modelled. Whether `realloc` succeeds is a parameter.
- MunicipalityLookup.Extract: the density is the exact quotient `populacao / 500.0`, not the rounded `double`. Only the guard and the constant area are exact.
- HolidayLookup.Tally: `quantidade_feriados` is an unbounded integer; C `int` overflow after 2^31 - 1 counted entries is not modelled.
- CNumbers.Atoi: `atoi` is modelled as glibc's `(int) strtol(s, NULL, 10)`: leading white space, a sign, then digits, clamped to the 64-bit range and then wrapped to 32 bits. Behaviour on overflow is left to the C library by the standard and is fixed here to glibc's.
- Json: numbers with a fraction or exponent are one `JReal` value, since the program never reads them.
- The three `strncpy` and the three `snprintf` of a lookup are split across helper methods (`FillFirst`/`FillSecond`, `Record`/`RecordNoneLeft`). Each helper states the whole record it leaves.
