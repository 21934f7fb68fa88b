/** The tools of server.py. They read the same three sources as tools.py;
    the month filter is new, the weather tool decides its outcome
    differently, and the vacation and training lookups are the same code. */
module Server {
  import opened Wrappers
  import opened Seqs
  import opened Text
  import opened Dates
  import opened Lookups

  // ---------------------------------------------------------------- month filter

  /** A spreadsheet row as this server returns it: the stored name as it is. */
  function AsRecord(e: Employee): BirthdayRecord
  {
    BirthdayRecord(e.name, FormatIso(e.birthDate), e.city)
  }

  /** `birth_date.dt.month == mes`, as a selector. */
  function BornIn(mes: int): Employee -> bool
  {
    (e: Employee) => e.birthDate.month == mes
  }

  /** The month a returned record's ISO birth date names is `mes`. */
  predicate RecordBornIn(mes: int, b: BirthdayRecord)
  {
    ParseIso(b.birthDate).Some? && ParseIso(b.birthDate).value.month == mes
  }

  /** `aniversariantes_mes(mes)`: one record per row born in month `mes`, in
      storage order. */
  function AniversariantesMes(sheet: seq<Employee>, mes: int): (r: seq<BirthdayRecord>)
    ensures IsSubsequence(r, Map(sheet, AsRecord))
    ensures forall k :: 0 <= k < |r| ==> RecordBornIn(mes, r[k])
    ensures |r| == Count(sheet, BornIn(mes))
    ensures forall i :: 0 <= i < |sheet| && sheet[i].birthDate.month == mes ==> AsRecord(sheet[i]) in r
    ensures !(1 <= mes <= 12) ==> r == []
  {
    var q := (b: BirthdayRecord) => RecordBornIn(mes, b);
    forall i | 0 <= i < |sheet|
      ensures BornIn(mes)(sheet[i]) == q(AsRecord(sheet[i]))
    {
      ParseFormat(sheet[i].birthDate);
    }
    MapFilter(sheet, BornIn(mes), AsRecord, q);
    CountMap(sheet, BornIn(mes), AsRecord, q);
    var r := Map(Filter(sheet, BornIn(mes)), AsRecord);
    r
  }

  // ---------------------------------------------------------------- same as tools.py

  /** `ferias_por_nome(parcial)`, the same query and shaping as in tools.py. */
  function FeriasPorNome(docs: seq<VacationDoc>, parcial: string): (r: seq<Vacation>)
    ensures IsSubsequence(r, Map(docs, ShapeVacation))
    ensures forall k :: 0 <= k < |r| ==> FragmentIn(parcial, r[k].nickname)
    ensures |r| == Count(docs, NicknameHas(parcial))
    ensures forall i :: 0 <= i < |docs| && FragmentIn(parcial, docs[i].nickname) ==> ShapeVacation(docs[i]) in r
  {
    Lookups.FeriasPorNome(docs, parcial)
  }

  /** `formacoes_por_nome(parcial)`, the same query and shaping as in tools.py. */
  function FormacoesPorNome(rows: seq<TrainingRow>, parcial: string): (r: seq<Training>)
    ensures multiset(r) == multiset(Map(Filter(rows, NameHas(parcial)), ShapeTraining))
    ensures forall k :: 0 <= k < |r| ==> FragmentIn(parcial, r[k].name)
    ensures forall i :: 0 <= i < |rows| && FragmentIn(parcial, rows[i].name) ==> ShapeTraining(rows[i]) in r
    ensures forall i, j :: 0 <= i < j < |r| && r[j].end.None? ==> r[i].end.None?
    ensures forall i, j :: 0 <= i < j < |r| && r[j].end.Some? ==>
              r[i].end.None? || !LexLess(r[i].end.value, r[j].end.value)
  {
    Lookups.FormacoesPorNome(rows, parcial)
  }

  // ---------------------------------------------------------------- weather

  const WEATHER_FAILED := "Weather API failed"

  /** `json()["daily"]["temperature_2m_max"][0]` when every step succeeds and
      the reading is not `null` (so `float` accepts it). */
  function FirstReading<R>(daily: Field<Daily<R>>): Option<R>
  {
    match daily
    case Present(Daily(Present(temps))) => if temps == [] then None else temps[0]
    case _ => None
  }

  /** `temperatura_em_data(cidade, data)` of server.py, given what the two
      services answer. The city is used as given, and nothing after the
      forecast's status check can raise. */
  function TemperaturaEmData<R>(cidade: string, data: string,
                                geo: GeoResponse, meteo: ForecastResponse<R>): (w: Weather<R>)
    ensures w.outcome.Success?
    ensures w.outcome.value.city == cidade && w.outcome.value.date == data
    ensures |w.requests| >= 1 && w.requests[0] == GeocodeRequest(cidade)
    ensures GeocodingFailed(geo) ==>
              w == Weather([GeocodeRequest(cidade)],
                           Success(Report(cidade, data, None, Some(GEOCODING_FAILED))))
    ensures !GeocodingFailed(geo) ==>
              w.requests == [GeocodeRequest(cidade),
                             ForecastRequest(geo.places[0].lat, geo.places[0].lon, data)]
    ensures !GeocodingFailed(geo) && meteo.status != 200 ==>
              w.outcome.value == Report(cidade, data, None, Some(WEATHER_FAILED))
    // a successful forecast never carries an error; a missing reading is a null temperature
    ensures !GeocodingFailed(geo) && meteo.status == 200 ==>
              w.outcome.value.error.None? && w.outcome.value.temperature == FirstReading(meteo.daily)
  {
    if GeocodingFailed(geo) then
      Weather([GeocodeRequest(cidade)], Success(Report(cidade, data, None, Some(GEOCODING_FAILED))))
    else
      var loc := geo.places[0];
      var requests := [GeocodeRequest(cidade), ForecastRequest(loc.lat, loc.lon, data)];
      if meteo.status != 200 then
        Weather(requests, Success(Report(cidade, data, None, Some(WEATHER_FAILED))))
      else
        Weather(requests, Success(Report(cidade, data, FirstReading(meteo.daily), None)))
  }

  /** Where the two weather tools agree and where they part, for a city name
      with no surrounding whitespace: the same requests; the same temperature
      whenever tools.py returns; an error record from tools.py on a 200 answer
      only when server.py returns no temperature and no error. */
  lemma WeatherVariants<R>(cidade: string, data: string, geo: GeoResponse, meteo: ForecastResponse<R>)
    requires Trim(cidade) == cidade
    ensures Lookups.TemperaturaEmData(cidade, data, geo, meteo).requests
            == TemperaturaEmData(cidade, data, geo, meteo).requests
    ensures var t := Lookups.TemperaturaEmData(cidade, data, geo, meteo).outcome;
            var s := TemperaturaEmData(cidade, data, geo, meteo).outcome.value;
            && (t.Success? ==> t.value.temperature == s.temperature)
            && (t.Success? && t.value.error.Some? && !GeocodingFailed(geo) && meteo.status == 200 ==>
                  s.error.None? && s.temperature.None?)
            && (t.Failure? ==> s.temperature.None? && s.error.None?)
  {
  }
}
