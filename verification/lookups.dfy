/** The lookup tools of tools.py, over in-memory snapshots of their sources:
    the spreadsheet of employees, the document collection of vacations and
    the table of trainings, plus the outcome decision of the weather tool over
    the answers of the two web services. */
module Lookups {
  import opened Wrappers
  import opened Seqs
  import opened Text
  import opened Dates

  // ---------------------------------------------------------------- birthdays

  /** A spreadsheet row: `id`, `name`, `birth_date` (already a date), `city`. */
  datatype Employee = Employee(id: int, name: string, birthDate: CalendarDate, city: string)

  /** The `{"name", "birth_date", "city"}` record a birthday tool returns. */
  datatype BirthdayRecord = BirthdayRecord(name: string, birthDate: string, city: string)

  /** The birthday lookup's answer: a record, or `{"error": ...}`. */
  datatype BirthdayReply = Found(record: BirthdayRecord) | NotFound(error: string)

  const NOT_FOUND_MESSAGE := "Nome não encontrado"

  /** The sheet after the name column has been replaced by its
      lower-cased, stripped form. */
  function NormalizeNames(sheet: seq<Employee>): (r: seq<Employee>)
    ensures |r| == |sheet|
    ensures forall k :: 0 <= k < |sheet| ==> r[k] == sheet[k].(name := Normalize(sheet[k].name))
  {
    Map(sheet, (e: Employee) => e.(name := Normalize(e.name)))
  }

  /** Whether the row's normalised name contains the normalised query. */
  predicate NameMatches(query: string, e: Employee)
  {
    Contains(Normalize(e.name), Normalize(query))
  }

  /** Index of the first row satisfying `p`, in storage order. */
  function FirstMatch(sheet: seq<Employee>, p: Employee -> bool): (r: Option<nat>)
    ensures r.None? <==> forall k :: 0 <= k < |sheet| ==> !p(sheet[k])
    ensures r.Some? ==> r.value < |sheet| && p(sheet[r.value])
                        && forall k :: 0 <= k < r.value ==> !p(sheet[k])
  {
    if sheet == [] then None
    else if p(sheet[0]) then Some(0)
    else match FirstMatch(sheet[1..], p)
         case None => None
         case Some(i) => Some(i + 1)
  }

  /** The test the lookup applies to a row whose name is already normalised. */
  function HoldsQuery(query: string): Employee -> bool
  {
    (e: Employee) => Contains(e.name, query)
  }

  /** Searching the normalised sheet for the normalised query finds the first
      row of the original sheet that `NameMatches`. */
  lemma FirstMatchNormalized(sheet: seq<Employee>, nome: string)
    ensures var m := FirstMatch(NormalizeNames(sheet), HoldsQuery(Normalize(nome)));
            && (m.None? <==> forall k :: 0 <= k < |sheet| ==> !NameMatches(nome, sheet[k]))
            && (m.Some? ==> && m.value < |sheet|
                            && NameMatches(nome, sheet[m.value])
                            && forall k :: 0 <= k < m.value ==> !NameMatches(nome, sheet[k]))
  {
    var normalized := NormalizeNames(sheet);
    var p := HoldsQuery(Normalize(nome));
    forall k | 0 <= k < |sheet|
      ensures p(normalized[k]) == NameMatches(nome, sheet[k])
    {
    }
  }

  /** `buscar_aniversario_por_nome(nome)`: returns the sheet as the call leaves
      it (its name column normalised) and the answer: the first row, in
      storage order, whose normalised name contains the normalised query,
      shown with a title-cased name, or the not-found record. */
  function BuscarAniversarioPorNome(sheet: seq<Employee>, nome: string): (r: (seq<Employee>, BirthdayReply))
    ensures r.0 == NormalizeNames(sheet)
    ensures r.1.NotFound? <==> forall k :: 0 <= k < |sheet| ==> !NameMatches(nome, sheet[k])
    ensures r.1.NotFound? ==> r.1.error == NOT_FOUND_MESSAGE
    ensures r.1.Found? ==>
              exists i :: && 0 <= i < |sheet|
                          && NameMatches(nome, sheet[i])
                          && (forall k :: 0 <= k < i ==> !NameMatches(nome, sheet[k]))
                          && r.1.record == BirthdayRecord(Title(Normalize(sheet[i].name)),
                                                          FormatIso(sheet[i].birthDate),
                                                          sheet[i].city)
  {
    var normalized := NormalizeNames(sheet);
    FirstMatchNormalized(sheet, nome);
    match FirstMatch(normalized, HoldsQuery(Normalize(nome)))
    case None => (normalized, NotFound(NOT_FOUND_MESSAGE))
    case Some(i) =>
      var row := normalized[i];
      (normalized, Found(BirthdayRecord(Title(row.name), FormatIso(row.birthDate), row.city)))
  }

  /** The normalisation a call performs does not change what any later call
      answers, and a second identical call leaves the sheet as the first did:
      repeated lookups agree. */
  lemma BirthdayRepeatable(sheet: seq<Employee>, first: string, next: string)
    ensures BuscarAniversarioPorNome(BuscarAniversarioPorNome(sheet, first).0, next).1
            == BuscarAniversarioPorNome(sheet, next).1
    ensures BuscarAniversarioPorNome(BuscarAniversarioPorNome(sheet, first).0, first).0
            == BuscarAniversarioPorNome(sheet, first).0
  {
    var once := NormalizeNames(sheet);
    var twice := NormalizeNames(once);
    forall k | 0 <= k < |sheet|
      ensures twice[k] == once[k]
    {
      NormalizeIdempotent(sheet[k].name);
    }
    assert twice == once;
  }

  /** The name shown lower-cases back to the stored normalised name, and that
      name contains the normalised query. */
  lemma BirthdayNameMatches(sheet: seq<Employee>, nome: string)
    requires BuscarAniversarioPorNome(sheet, nome).1.Found?
    ensures var shown := BuscarAniversarioPorNome(sheet, nome).1.record.name;
            Lower(shown) == Normalize(shown) && Contains(Lower(shown), Normalize(nome))
  {
    var i :| && 0 <= i < |sheet| && NameMatches(nome, sheet[i])
             && BuscarAniversarioPorNome(sheet, nome).1.record.name == Title(Normalize(sheet[i].name));
    var n := Normalize(sheet[i].name);
    TitleLower(n);
    NormalizeIdempotent(sheet[i].name);
    LowerTrimCommute(Title(n));
    TrimNoop(n);
  }

  // ---------------------------------------------------------------- vacations

  /** A document of the vacations collection. */
  datatype VacationDoc = VacationDoc(id: nat, nickname: string, start: string, end: string)

  /** The `{"nickname", "start", "end"}` record the vacation tool returns. */
  datatype Vacation = Vacation(nickname: string, start: string, end: string)

  function ShapeVacation(d: VacationDoc): Vacation
  {
    Vacation(d.nickname, d.start, d.end)
  }

  /** Case-insensitive containment of the fragment in a name field. */
  predicate FragmentIn(fragment: string, field: string)
  {
    Contains(Lower(field), Lower(fragment))
  }

  /** The `{"nickname": {"$regex": parcial, "$options": "i"}}` condition, as a
      selector. */
  function NicknameHas(parcial: string): VacationDoc -> bool
  {
    (d: VacationDoc) => FragmentIn(parcial, d.nickname)
  }

  /** `ferias_por_nome(parcial)`: every document whose nickname contains the
      fragment, ignoring case, in storage order, with its three fields copied. */
  function FeriasPorNome(docs: seq<VacationDoc>, parcial: string): (r: seq<Vacation>)
    ensures IsSubsequence(r, Map(docs, ShapeVacation))
    ensures forall k :: 0 <= k < |r| ==> FragmentIn(parcial, r[k].nickname)
    ensures |r| == Count(docs, NicknameHas(parcial))
    ensures forall i :: 0 <= i < |docs| && FragmentIn(parcial, docs[i].nickname) ==> ShapeVacation(docs[i]) in r
  {
    var q := (v: Vacation) => FragmentIn(parcial, v.nickname);
    MapFilter(docs, NicknameHas(parcial), ShapeVacation, q);
    CountMap(docs, NicknameHas(parcial), ShapeVacation, q);
    Map(Filter(docs, NicknameHas(parcial)), ShapeVacation)
  }

  /** The contract of `FeriasPorNome` leaves no freedom: any list with its
      three properties is the answer. */
  lemma FeriasDetermined(docs: seq<VacationDoc>, parcial: string, r: seq<Vacation>)
    requires IsSubsequence(r, Map(docs, ShapeVacation))
    requires forall k :: 0 <= k < |r| ==> FragmentIn(parcial, r[k].nickname)
    requires |r| == Count(docs, NicknameHas(parcial))
    ensures r == FeriasPorNome(docs, parcial)
  {
    var q := (v: Vacation) => FragmentIn(parcial, v.nickname);
    CountMap(docs, NicknameHas(parcial), ShapeVacation, q);
    FilterUnique(r, Map(docs, ShapeVacation), q);
    MapFilter(docs, NicknameHas(parcial), ShapeVacation, q);
  }

  // ---------------------------------------------------------------- trainings

  /** A row of the `formacoes` table; `end` is NULL while the course runs. */
  datatype TrainingRow = TrainingRow(name: string, course: string, status: string,
                                     start: CalendarDate, end: Option<CalendarDate>)

  /** The `{"name", "course", "status", "start", "end"}` record the training
      tool returns; `end` is `None` for a NULL end date. */
  datatype Training = Training(name: string, course: string, status: string, start: string, end: Option<string>)

  /** `a` may be listed before `b` under `ORDER BY data_fim DESC`, where
      PostgreSQL puts NULLs first in descending order. */
  predicate EndsNoEarlier(a: TrainingRow, b: TrainingRow)
  {
    a.end.None? || (b.end.Some? && OnOrBefore(b.end.value, a.end.value))
  }

  predicate SortedByEndDesc(rows: seq<TrainingRow>)
  {
    forall i, j :: 0 <= i < j < |rows| ==> EndsNoEarlier(rows[i], rows[j])
  }

  /** Places `x` before the first row it may precede. */
  function InsertByEnd(x: TrainingRow, rows: seq<TrainingRow>): (r: seq<TrainingRow>)
    requires SortedByEndDesc(rows)
    ensures SortedByEndDesc(r)
    ensures multiset(r) == multiset(rows) + multiset{x}
  {
    if rows == [] then [x]
    else if EndsNoEarlier(x, rows[0]) then
      InsertFront(x, rows);
      [x] + rows
    else
      var tail := InsertByEnd(x, rows[1..]);
      InsertBehind(x, rows, tail);
      [rows[0]] + tail
  }

  /** `EndsNoEarlier` is transitive. */
  lemma EndsNoEarlierTrans(a: TrainingRow, b: TrainingRow, c: TrainingRow)
    requires EndsNoEarlier(a, b) && EndsNoEarlier(b, c)
    ensures EndsNoEarlier(a, c)
  {
  }

  lemma InsertFront(x: TrainingRow, rows: seq<TrainingRow>)
    requires SortedByEndDesc(rows) && rows != [] && EndsNoEarlier(x, rows[0])
    ensures SortedByEndDesc([x] + rows)
  {
    var r := [x] + rows;
    forall i, j | 0 <= i < j < |r| ensures EndsNoEarlier(r[i], r[j]) {
      if i == 0 {
        assert r[j] == rows[j - 1];
        if j > 1 {
          EndsNoEarlierTrans(x, rows[0], rows[j - 1]);
        }
      } else {
        assert r[i] == rows[i - 1] && r[j] == rows[j - 1];
      }
    }
  }

  lemma InsertBehind(x: TrainingRow, rows: seq<TrainingRow>, tail: seq<TrainingRow>)
    requires SortedByEndDesc(rows) && rows != [] && !EndsNoEarlier(x, rows[0])
    requires SortedByEndDesc(tail) && multiset(tail) == multiset(rows[1..]) + multiset{x}
    ensures SortedByEndDesc([rows[0]] + tail)
    ensures multiset([rows[0]] + tail) == multiset(rows) + multiset{x}
  {
    assert rows == [rows[0]] + rows[1..];
    var r := [rows[0]] + tail;
    forall j | 0 < j < |r| ensures EndsNoEarlier(rows[0], r[j]) {
      assert r[j] == tail[j - 1];
      assert tail[j - 1] in multiset(tail);
      if r[j] != x {
        assert r[j] in multiset(rows[1..]);
        var k :| 0 <= k < |rows[1..]| && rows[1..][k] == r[j];
        assert rows[k + 1] == r[j];
      }
    }
    forall i, j | 0 <= i < j < |r| ensures EndsNoEarlier(r[i], r[j]) {
      if i > 0 {
        assert r[i] == tail[i - 1] && r[j] == tail[j - 1];
      }
    }
  }

  /** `ORDER BY data_fim DESC`: a reordering of `rows` in which rows with no
      end date come first, and the others go from the latest end date to the
      earliest. */
  function SortByEndDesc(rows: seq<TrainingRow>): (r: seq<TrainingRow>)
    ensures SortedByEndDesc(r)
    ensures multiset(r) == multiset(rows)
  {
    if rows == [] then []
    else
      assert rows == [rows[0]] + rows[1..];
      InsertByEnd(rows[0], SortByEndDesc(rows[1..]))
  }

  function FormatEnd(d: Option<CalendarDate>): Option<string>
  {
    match d
    case None => None
    case Some(e) => Some(FormatIso(e))
  }

  function ShapeTraining(t: TrainingRow): Training
  {
    Training(t.name, t.course, t.status, FormatIso(t.start), FormatEnd(t.end))
  }

  /** The `nome ILIKE '%parcial%'` condition, as a selector. */
  function NameHas(parcial: string): TrainingRow -> bool
  {
    (t: TrainingRow) => FragmentIn(parcial, t.name)
  }

  /** `formacoes_por_nome(parcial)`: the rows whose name contains the fragment,
      ignoring case, each with its dates written as ISO text, ordered by end
      date descending with open courses first. */
  function FormacoesPorNome(rows: seq<TrainingRow>, parcial: string): (r: seq<Training>)
    // exactly the matching rows, each once per occurrence, in some order
    ensures multiset(r) == multiset(Map(Filter(rows, NameHas(parcial)), ShapeTraining))
    ensures forall k :: 0 <= k < |r| ==> FragmentIn(parcial, r[k].name)
    ensures forall i :: 0 <= i < |rows| && FragmentIn(parcial, rows[i].name) ==> ShapeTraining(rows[i]) in r
    // open courses (NULL end date) come first
    ensures forall i, j :: 0 <= i < j < |r| && r[j].end.None? ==> r[i].end.None?
    // then end dates, as text, never increase
    ensures forall i, j :: 0 <= i < j < |r| && r[j].end.Some? ==>
              r[i].end.None? || !LexLess(r[i].end.value, r[j].end.value)
  {
    var matching := Filter(rows, NameHas(parcial));
    var sorted := SortByEndDesc(matching);
    MapPermutation(sorted, matching, ShapeTraining);
    ShapedMatch(rows, parcial, sorted);
    ShapedOrder(sorted);
    Map(sorted, ShapeTraining)
  }

  /** A reordering of the matching rows, shaped, holds every matching row and
      nothing else. */
  lemma ShapedMatch(rows: seq<TrainingRow>, parcial: string, sorted: seq<TrainingRow>)
    requires multiset(sorted) == multiset(Filter(rows, NameHas(parcial)))
    ensures var r := Map(sorted, ShapeTraining);
            && (forall k :: 0 <= k < |r| ==> FragmentIn(parcial, r[k].name))
            && (forall i :: 0 <= i < |rows| && FragmentIn(parcial, rows[i].name) ==> ShapeTraining(rows[i]) in r)
  {
    var matching := Filter(rows, NameHas(parcial));
    var r := Map(sorted, ShapeTraining);
    forall k | 0 <= k < |r|
      ensures FragmentIn(parcial, r[k].name)
    {
      assert sorted[k] in multiset(matching);
      assert NameHas(parcial)(sorted[k]);
    }
    forall i | 0 <= i < |rows| && FragmentIn(parcial, rows[i].name)
      ensures ShapeTraining(rows[i]) in r
    {
      assert NameHas(parcial)(rows[i]);
      assert rows[i] in multiset(sorted);
      var k :| 0 <= k < |sorted| && sorted[k] == rows[i];
      assert r[k] == ShapeTraining(rows[i]);
    }
  }

  /** Shaping keeps the order: NULL end dates first, then ISO end dates that
      never increase as text. */
  lemma ShapedOrder(sorted: seq<TrainingRow>)
    requires SortedByEndDesc(sorted)
    ensures var r := Map(sorted, ShapeTraining);
            && (forall i, j :: 0 <= i < j < |r| && r[j].end.None? ==> r[i].end.None?)
            && (forall i, j :: 0 <= i < j < |r| && r[j].end.Some? ==>
                  r[i].end.None? || !LexLess(r[i].end.value, r[j].end.value))
  {
    var r := Map(sorted, ShapeTraining);
    forall i, j | 0 <= i < j < |r| && r[j].end.Some? && r[i].end.Some?
      ensures !LexLess(r[i].end.value, r[j].end.value)
    {
      assert EndsNoEarlier(sorted[i], sorted[j]);
      FormatIsoOrder(sorted[i].end.value, sorted[j].end.value);
    }
  }

  // ---------------------------------------------------------------- weather

  /** One candidate place of the geocoding answer. */
  datatype Place = Place(lat: string, lon: string)

  /** The geocoding service's answer: its status and its JSON list of places. */
  datatype GeoResponse = GeoResponse(status: int, places: seq<Place>)

  /** A key of a JSON object: missing, present with `null`, or present. */
  datatype Field<+T> = Absent | Null | Present(value: T)

  /** The `daily` block of the forecast; each reading may be `null`. */
  datatype Daily<+R> = Daily(maxTemps: Field<seq<Option<R>>>)

  /** The forecast service's answer: its status and its `daily` key. */
  datatype ForecastResponse<+R> = ForecastResponse(status: int, daily: Field<Daily<R>>)

  /** An outbound request, with the parameters the model can observe. */
  datatype Request =
    | GeocodeRequest(query: string)
    | ForecastRequest(latitude: string, longitude: string, date: string)

  /** The `{"city", "date", "temperature", "error"?}` record. */
  datatype Report<+R> = Report(city: string, date: string, temperature: Option<R>, error: Option<string>)

  /** An exception escaping a tool: calling `.get` on `None`, or `float(None)`. */
  datatype Raised = AttributeError | TypeError

  /** Requests made, in order, and the record returned or the exception raised. */
  datatype Weather<+R> = Weather(requests: seq<Request>, outcome: Result<Report<R>, Raised>)

  const GEOCODING_FAILED := "Geocoding failed"
  const WEATHER_FAILED_OR_EMPTY := "Weather API failed or no data found"

  /** Python truthiness of `not geo.json()`: the place list is empty. */
  predicate GeocodingFailed(geo: GeoResponse)
  {
    geo.status != 200 || geo.places == []
  }

  /** `meteo.json().get("daily", {}).get("temperature_2m_max")` when `daily`
      is not `null`: the reading list, if there is a non-empty one. */
  function MaxTemps<R>(daily: Field<Daily<R>>): Option<seq<Option<R>>>
    requires !daily.Null?
  {
    match daily
    case Present(Daily(Present(temps))) => if temps == [] then None else Some(temps)
    case _ => None
  }

  /** `temperatura_em_data(cidade, data)` of tools.py, given what the two
      services answer. */
  function TemperaturaEmData<R>(cidade: string, data: string,
                                geo: GeoResponse, meteo: ForecastResponse<R>): (w: Weather<R>)
    ensures |w.requests| >= 1 && w.requests[0] == GeocodeRequest(Trim(cidade))
    // a failed geocoding ends the call: no forecast request, the error record
    ensures GeocodingFailed(geo) ==>
              w == Weather([GeocodeRequest(Trim(cidade))],
                           Success(Report(Trim(cidade), data, None, Some(GEOCODING_FAILED))))
    // otherwise the forecast is asked for the first place, on that one date
    ensures !GeocodingFailed(geo) ==>
              w.requests == [GeocodeRequest(Trim(cidade)),
                             ForecastRequest(geo.places[0].lat, geo.places[0].lon, data)]
    // a record carries an error exactly when it carries no temperature
    ensures w.outcome.Success? ==> (w.outcome.value.temperature.None? <==> w.outcome.value.error.Some?)
    ensures w.outcome.Success? ==> w.outcome.value.city == Trim(cidade) && w.outcome.value.date == data
    ensures !GeocodingFailed(geo) && meteo.status != 200 ==>
              w.outcome == Success(Report(Trim(cidade), data, None, Some(WEATHER_FAILED_OR_EMPTY)))
    // a 200 answer without a non-empty reading list is reported as no data
    ensures !GeocodingFailed(geo) && meteo.status == 200 && !meteo.daily.Null? && MaxTemps(meteo.daily).None? ==>
              w.outcome == Success(Report(Trim(cidade), data, None, Some(WEATHER_FAILED_OR_EMPTY)))
    // a 200 answer whose first reading is not null returns that reading
    ensures !GeocodingFailed(geo) && meteo.status == 200 && !meteo.daily.Null?
            && MaxTemps(meteo.daily).Some? && MaxTemps(meteo.daily).value[0].Some? ==>
              w.outcome == Success(Report(Trim(cidade), data, MaxTemps(meteo.daily).value[0], None))
    // a temperature is the first daily reading
    ensures w.outcome.Success? && w.outcome.value.temperature.Some? ==>
              && meteo.status == 200 && meteo.daily.Present? && meteo.daily.value.maxTemps.Present?
              && |meteo.daily.value.maxTemps.value| > 0
              && meteo.daily.value.maxTemps.value[0] == w.outcome.value.temperature
    // exceptions: a null `daily`, or a null first reading
    ensures w.outcome.Failure? <==>
              && !GeocodingFailed(geo) && meteo.status == 200
              && (|| meteo.daily.Null?
                  || (MaxTemps(meteo.daily).Some? && MaxTemps(meteo.daily).value[0].None?))
  {
    var city := Trim(cidade);
    if GeocodingFailed(geo) then
      Weather([GeocodeRequest(city)], Success(Report(city, data, None, Some(GEOCODING_FAILED))))
    else
      var loc := geo.places[0];
      var requests := [GeocodeRequest(city), ForecastRequest(loc.lat, loc.lon, data)];
      if meteo.status != 200 then
        Weather(requests, Success(Report(city, data, None, Some(WEATHER_FAILED_OR_EMPTY))))
      else if meteo.daily.Null? then
        Weather(requests, Failure(AttributeError))
      else
        match MaxTemps(meteo.daily)
        case None => Weather(requests, Success(Report(city, data, None, Some(WEATHER_FAILED_OR_EMPTY))))
        case Some(temps) =>
          match temps[0]
          case None => Weather(requests, Failure(TypeError))
          case Some(t) => Weather(requests, Success(Report(city, data, Some(t), None)))
  }

  /** When geocoding fails the forecast answer is never consulted. */
  lemma GeocodingFailureIgnoresForecast<R>(cidade: string, data: string, geo: GeoResponse,
                                           m1: ForecastResponse<R>, m2: ForecastResponse<R>)
    requires GeocodingFailed(geo)
    ensures TemperaturaEmData(cidade, data, geo, m1) == TemperaturaEmData(cidade, data, geo, m2)
  {
  }
}
