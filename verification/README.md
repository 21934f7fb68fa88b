# Employee-lookup tools for an LLM agent, modelled in Dafny

The system answers questions about employees through four lookup tools that
an agent calls with a single line of text:

- the birthday lookup reads a spreadsheet of employees;
- the vacation lookup reads a document collection of vacation periods;
- the training lookup reads a relational table of courses;
- the weather lookup asks a geocoding service and a forecast service.

`app.py` wraps each lookup in a tool whose input adapter, `handle_input`,
works in three tiers:

1. It reads the text as JSON and calls the lookup by keyword (for an object) or positionally (for an array).
2. If the text is not JSON, or is a JSON scalar, or the call raised, it calls again with the comma-split, stripped pieces of the raw text.
3. It serialises the answer as JSON.

`server.py` exposes the same sources as a second set of tools:

- a month filter over the spreadsheet;
- a weather tool that decides its outcome differently;
- vacation and training lookups identical to those of `tools.py`.

The model keeps the data sources and the services as explicit values. A lookup
is a pure function of the snapshot it reads, or of the answers the two web
services give. The JSON reader and writer are parameters.

## Modules

- `wrappers.dfy`, module `Wrappers`: `Option` and `Result`.
- `seqs.dfy`, module `Seqs`: order-preserving selection (`Filter`, `Map`, `Count`, subsequences).
  - `FilterUnique` shows that a filter's contract determines its result.
  - `MapPermutation` shows that mapping keeps a permutation a permutation.
- `text.dfy`, module `Text`: Python's `str.strip`, `str.lower`, `str.title` and `in`.
  - Whitespace is the exact set `str.isspace` accepts.
  - Case maps cover ASCII and Latin-1.
- `dates.dfy`, module `Dates`: calendar dates, `strftime("%Y-%m-%d")`, and reading it back.
  - ISO text sorts in time order.
- `dispatch.dfy` holds three modules:
  - `Dispatch`: `handle_input` and `build_tool`.
  - `DispatchCalls`: Python's binding of `f(**kwargs)` / `f(*args)` to a lookup's parameters, and what the adapter does with it.
  - `DispatchExamples`: worked examples of the comma fallback.
- `lookups.dfy`, module `Lookups`: the four tools of `tools.py`.
- `server.dfy`, module `Server`: the tools of `server.py`, and how its weather tool differs from that of `tools.py`.

## Behaviour worth knowing

- **Array arguments are not truncated or padded to the lookup's arity.**
  - Python raises `TypeError` on an arity mismatch.
  - `handle_input` catches every exception of its first tier, so the comma fallback then runs.
  - The adapter therefore catches the lookup's own exceptions from that tier too, not only parse errors.
  - A lookup whose body raises on the structured call runs a second time on the comma pieces (`DispatchCalls.BodyRunsTwice`).
- **The vacation lookup matches a fragment of the nickname, ignoring case, and nothing else.**
  - Over the collection `load_mongo.py` seeds, the query `jo` matches `João P. Oliveira` and `Joãozinho`.
  - It does not match `J. da Silva`, whose nickname does not contain the text `jo`.
- **The two weather tools behave differently.**
  - The `server.py` tool uses the city as given. It returns no error tag when the reading is missing. Once the forecast answers 200 it never raises, within the response shapes modelled.
  - The `tools.py` tool strips the city and reports `Weather API failed or no data found` for a missing reading.
  - It raises when `daily` or the first reading is JSON `null`.
  - `Server.WeatherVariants` states where the two agree.

## Model

| member | source | states |
|---|---|---|
| Dispatch.HandleInput | app.py:20-30 | An object or array payload is tried first (by keyword or position). If that call returns, it is the answer. Any other payload, or a call that raised, leads to exactly one more call on the comma pieces of the raw text (`Dispatch.CallFallback`, app.py:29-30). At most two calls are made, every call but the last raised, and only the fallback call's error escapes. |
| Dispatch.Split | app.py:29 | `x.split(",")`: one piece more than there are commas, no piece contains a comma, and joining the pieces with commas gives back the text (empty pieces kept). |
| Dispatch.SplitJoin | app.py:29 | Splitting comma-free pieces joined by commas gives back exactly those pieces. |
| Dispatch.SplitNoSep | app.py:29 | Text without a comma is a single piece. |
| Dispatch.FallbackArgs | app.py:29 | One argument per comma piece, each the piece stripped of surrounding whitespace: no argument contains a comma or starts or ends with whitespace. |
| Dispatch.FallbackCall | app.py:29-30 | The fallback call passes the stripped pieces positionally, as strings, one per piece. |
| Dispatch.StructuredCall | app.py:22-26 | A JSON object gives a keyword call, a JSON array a positional call in list order, and anything else (including a failed parse or a scalar) no structured call. |
| Dispatch.BuildTool | app.py:33-38 | The tool carries the given name, the lookup's documentation as its description, and runs `handle_input` on the lookup for every input. |
| DispatchCalls.Bind | app.py:24-26 | Positional values bind exactly when there are as many as parameters. Keywords bind exactly when they name every parameter and nothing else, and each parameter then receives its keyword's value. |
| DispatchCalls.Invoke | app.py:24-30 | A call fails with a binding error exactly when the arguments do not bind. Arguments that bind run the body on the bound values: the body's value is returned, and its exception propagates as `Raised`. |
| DispatchCalls.KeywordsAsPositional | app.py:23-26 | An object naming each parameter binds to the same values as the array of those values in parameter order. |
| DispatchCalls.FallbackBinds | app.py:29-30 | The comma fallback binds exactly when the text has one comma fewer than the lookup has parameters. |
| DispatchCalls.MismatchedKeysFallBack | app.py:21-30 | An object whose keys differ from the parameters makes the adapter call twice: by keyword, then on the raw text's comma pieces. |
| DispatchCalls.BodyRunsTwice | app.py:21-30 | A structured call that binds but whose body raises is followed by a second call on the comma pieces. When the comma count fits, that second call reaches the body too. |
| DispatchExamples.TwoFieldFallback | app.py:29 | Two comma-free values without surrounding whitespace, written as `a, b`, reach the lookup as exactly the arguments `a` and `b`. |
| DispatchExamples.PlainTextExample | app.py:29 | `Alice Wonderland, 2025-05-10` becomes the arguments `Alice Wonderland` and `2025-05-10`. |
| DispatchExamples.EmptyPiecesExample | app.py:29 | `a, ,b` becomes three arguments, the middle one empty. |
| DispatchExamples.EmptyPayloadExample | app.py:29 | The empty text becomes one empty argument. |
| DispatchExamples.ScalarExample | app.py:22-30 | A JSON string payload is not unwrapped: the lookup receives the raw text, quotes included. |
| Text.Trim | tools.py:46 | `strip()`: the result is no longer than the input and neither starts nor ends with whitespace. Whitespace is `Text.IsSpace`, the exact set of characters Python's `str.isspace` accepts. |
| Text.TrimSpec | tools.py:46 | `strip()` returns the slice between a leading run and a trailing run that are whitespace throughout, so it removes whitespace only, and all of it at either end. |
| Text.TrimChars | tools.py:46 | Every character of the stripped text occurs in the original text. |
| Text.TrimNoop | tools.py:46 | Stripping text with no surrounding whitespace changes nothing. |
| Text.TrimIdempotent | tools.py:46-49 | Stripping twice is stripping once. |
| Text.Lower | tools.py:46-49 | `lower()`: the result has the same length, and each character is its lower-case form: the ASCII and Latin-1 capitals are mapped to their small letters, and every other character is kept. |
| Text.LowerIdempotent | tools.py:46 | Lower-casing twice is lower-casing once. |
| Text.LowerTrimCommute | tools.py:46-49 | Lower-casing then stripping equals stripping then lower-casing. |
| Text.Normalize | tools.py:46-49 | The comparison key of a name is lower-case and has no surrounding whitespace. |
| Text.NormalizeIdempotent | tools.py:49 | Normalising an already normalised name changes nothing. |
| Text.Title | tools.py:58 | `title()`: each character is upper-cased when the one before it is not cased, and lower-cased when it is. |
| Text.TitleLower | tools.py:58 | Title-casing only changes case: lower-casing the title gives the lower-cased original. |
| Text.TitleIdempotent | tools.py:58 | Title-casing twice is title-casing once. |
| Text.ContainsIff | tools.py:51 | The containment test holds exactly when the fragment occurs at some position of the name. |
| Text.ContainsEmpty | tools.py:51 | The empty fragment is contained in every name. |
| Dates.FormatIso | tools.py:59 | `strftime("%Y-%m-%d")` writes ten characters: digits, with dashes at positions 4 and 7. |
| Dates.ParseIso | server.py:52-56 | Reads back the ISO text a month-filter record carries: a string read as a date is exactly that date written back. |
| Dates.ParseFormat | server.py:52-56 | Reading back a written date gives the date, so a returned record names the month its row was selected by. |
| Dates.FormatIsoOrder | tools.py:160-170 | One ISO date sorts before another as text exactly when it is strictly earlier in time. |
| Lookups.NormalizeNames | tools.py:49 | The name column is replaced, row by row, by its normalised form, and nothing else changes. |
| Lookups.FirstMatch | tools.py:51-56 | No index exactly when no row matches. Otherwise the index of a matching row with no matching row before it. |
| Lookups.BuscarAniversarioPorNome | tools.py:31-61 | The sheet is left normalised. The reply is the not-found record (`Nome não encontrado`) exactly when no normalised name contains the normalised query. Otherwise it is the first matching row in storage order, with its name title-cased, its date in ISO form and its city. |
| Lookups.FirstMatchNormalized | tools.py:46-56 | Searching the normalised name column for the normalised query finds no row exactly when no original name matches, and otherwise the first row whose original name matches. |
| Lookups.BirthdayRepeatable | tools.py:46-51 | The column rewrite a call leaves behind does not change any later answer, and a repeated call leaves the sheet as the first did. |
| Lookups.BirthdayNameMatches | tools.py:51-58 | The name returned lower-cases back to a normalised name that contains the normalised query. |
| Lookups.FeriasPorNome | tools.py:130-147 | The reply is a subsequence of the collection in storage order, each document's three fields copied. Every returned nickname contains the fragment ignoring case, and every matching document is returned, as many as there are. |
| Lookups.FeriasDetermined | tools.py:139-147 | Any list with those properties is the reply: the order and the selection are fully determined. |
| Lookups.InsertByEnd | tools.py:159-161 | Inserting a row into a list sorted by end date descending keeps it sorted and adds exactly that row. |
| Lookups.SortByEndDesc | tools.py:159-161 | `ORDER BY data_fim DESC`: a permutation of the rows, with NULL end dates first and the other end dates never increasing. |
| Lookups.FormacoesPorNome | tools.py:149-173 | Exactly the rows whose name contains the fragment ignoring case, each once per occurrence, with dates as ISO text. Open courses come first, and the end dates that follow never increase as text. |
| Lookups.ShapedOrder | tools.py:163-173 | Writing the dates as text keeps the order of a sorted list: NULL end dates first, ISO end dates non-increasing. |
| Lookups.TemperaturaEmData | tools.py:65-127 | The stripped city is geocoded first. A failed geocoding ends the call with the `Geocoding failed` record and no forecast request. Otherwise the first place's forecast is requested for that date. A non-200 answer, or a 200 answer whose `daily` or `temperature_2m_max` is absent or whose reading list is empty (`Lookups.MaxTemps`, tools.py:113), gives `Weather API failed or no data found`. A `null` `daily` or first reading raises. A 200 answer whose first reading is not `null` returns that reading with no error. A temperature is the first daily reading, and a record carries an error exactly when it carries no temperature. |
| Lookups.GeocodingFailureIgnoresForecast | tools.py:88-94 | When geocoding fails, the forecast answer does not affect the result. |
| Server.AniversariantesMes | server.py:42-60 | The rows born in month `mes` in storage order: every returned record's ISO date names that month, every such row is returned with its stored name, and the reply is empty for a month outside 1 to 12. |
| Server.FeriasPorNome | server.py:117-135 | The same reply as the vacation lookup of `tools.py`: the matching documents in storage order, all of them. |
| Server.FormacoesPorNome | server.py:139-164 | The same reply as the training lookup of `tools.py`: the matching rows, open courses first, end dates non-increasing. |
| Server.TemperaturaEmData | server.py:64-113 | The city is used as given, and nothing raises. Geocoding failure gives `Geocoding failed` with no forecast request, and a non-200 forecast gives `Weather API failed`. A 200 forecast gives no error, with the first reading as the temperature, `null` when missing (`Server.FirstReading`, server.py:101-113). |
| Server.WeatherVariants | server.py:98-113 | For a city with no surrounding whitespace, both weather tools make the same requests and agree on the temperature whenever `tools.py` returns. On a 200 answer, `tools.py` reports an error, or raises, only where `server.py` returns no temperature and no error. |

## Left out

- Connections and I/O: opening the spreadsheet, the database and the document store, and the HTTP requests themselves. Each lookup takes the snapshot or the service answers as arguments.
- JSON: parsing and serialisation are parameters (`parse`, `dump`). Numbers keep their literal text, and an error raised while serialising an answer is not modelled.
- `inspect.getdoc`'s clean-up of the docstring: the description is the lookup's documentation as given.
- The `tool_list` registration, the language model, the agent loop and the Streamlit page: they only wire the tools together.
- The MCP server start-up in `server.py`.
- Dispatch.HandleInput: a lookup's failure is an abstract error value, so which Python exception class it is does not matter to the adapter.
- DispatchCalls.Bind: parameters with defaults, keyword-only parameters and `*args` are not modelled, because no lookup has them.
- Lookups.BuscarAniversarioPorNome: `str.contains` reads the query as a regular expression. The model treats it as literal text, so queries with regex metacharacters are not modelled.
- Lookups.BuscarAniversarioPorNome: the `astype(str)` of a non-text name cell (such as a missing value becoming `nan`) is not modelled, because names are text.
- Lookups.FeriasPorNome: Mongo's `$regex` reads the fragment as a regular expression. The model treats it as literal text.
- Lookups.FeriasPorNome: the order of the documents is taken to be their storage order, which Mongo returns when no sort is given and nothing has been deleted.
- Lookups.FormacoesPorNome: `%` and `_` in the fragment act as `ILIKE` wildcards, and `\` is the default `LIKE` escape: it escapes the next character, and a fragment ending in `\` escapes the closing `%`, so only names ending in the fragment followed by a literal `%` match. None of these is modelled; the fragment is matched as literal text.
- Lookups.FormacoesPorNome: rows with equal end dates may come in any order, as in PostgreSQL, so the contract fixes the multiset and the order of end dates only.
- Lookups.FormacoesPorNome: a NULL start date (`strftime` on `None` raises) is not modelled, because start dates are non-null in the model.
- Text.Lower: case mapping covers ASCII and Latin-1 (with `Ÿ`/`ÿ`). The characters `ß` and `µ` count as cased but upper-case to themselves, unlike Python, where `'ß'.upper()` is `SS` and `'µ'.upper()` is the Greek capital mu. Characters above U+00FF other than `Ÿ` are treated as uncased and unchanged. That includes Latin letters such as `Ł`, `Č` and `Ő`, and it also affects the letter after them in a title: the model title-cases `łukasz` as `łUkasz`, where Python gives `Łukasz`.
- Dates.ParseIso: birth dates are taken to be valid, already converted calendar dates. The `pd.to_datetime` conversion of the spreadsheet column (tools.py:16) is not modelled. That conversion also reads non-ISO text, raises on text it cannot read, and turns an empty cell into `NaT`. A `NaT` date's `strftime` raises at tools.py:59. `aniversariantes_mes` silently skips such rows, because their month is NaN and never equals `mes` at server.py:52.
- Dates.FormatIso: years are 1 to 9999 and always written with four digits. Spreadsheet dates are pandas timestamps, which cannot hold years before 1677. Training dates arrive from the database as `datetime.date`, which can hold years 1 to 999, and for those `%Y` may write fewer than four digits (it depends on the C library). Such years are not modelled.
- Lookups.TemperaturaEmData: `float(temp)` is not modelled: readings are an abstract type `R`, and a reading that is neither a number nor `null` is not considered.
- Lookups.TemperaturaEmData: a geocoding body that is not a JSON list, a place without `lat`/`lon`, and a forecast body that is not JSON are not modelled.
- Lookups.TemperaturaEmData: a `daily` value that is not an object is not modelled.
- Server.TemperaturaEmData: the same limits on response shapes apply.
