/**
 * WeatherDataController.uploadWeatherData: the bulk CSV import of weather observations.
 * The pure part (ParseRow, ImportRows) says what the import is meant to produce; the
 * class method does it line by line and is proved to agree with it.
 */
module Controller {
  import opened Wrappers
  import opened Entities
  import opened JavaText
  import CityService
  import WeatherDataService

  /** Column separator of the upload format. */
  const Separator: char := ','

  /** Columns of a data line: cityId, date, temperature, humidity, weather, windDirection, windSpeed. */
  const FieldCount: nat := 7

  /**
   * The two parsers the import takes from the Java library, as total functions that
   * fail with None: LocalDate.parse with the pattern "yyyy-MM-dd", and Double.parseDouble.
   */
  datatype ValueParsers = ValueParsers(
    parseDate: string -> Option<LocalDate>,
    parseDouble: string -> Option<Double>)

  /**
   * An uploaded file: whether it has no content at all, the lines a reader delivers
   * (header first), whether reading raises an I/O error after those lines, and
   * whether closing the reader raises one.
   */
  datatype UploadFile = UploadFile(isEmpty: bool, lines: seq<string>, readFault: bool, closeFault: bool)

  /** The three ways an upload ends. */
  datatype Outcome =
    | NoFile              // the "please choose a file" error
    | ProcessingError     // "file processing failed": an I/O or persistence fault
    | Imported(count: nat) // "imported <count> records"

  /** The lines after the header, which is read and discarded whatever it holds. */
  function Rows(lines: seq<string>): (rows: seq<string>)
    ensures lines == [] ==> rows == []
    ensures lines != [] ==> lines == [lines[0]] + rows
  {
    if lines == [] then [] else lines[1..]
  }

  /**
   * The record the split fields of one data line yield, or None when the line is
   * skipped: fewer than seven fields, a city id that is not a long or names no
   * stored city, or a date or number that does not parse. Fields beyond the seventh
   * are not looked at.
   */
  function ParseFields(data: seq<string>, cities: map<int, City>, parsers: ValueParsers): (r: Option<WeatherData>)
    ensures r.Some? ==> |data| >= FieldCount
    ensures r.Some? ==> r.value.id.None? && r.value.city in cities.Values
    ensures r.Some? ==> IsTrimmed(r.value.weather) && IsTrimmed(r.value.windDirection)
  {
    if |data| < FieldCount then None
    else
      match ParseLong(Trim(data[0]))
      case None => None
      case Some(id) =>
        if id !in cities then None
        else
          match (parsers.parseDate(Trim(data[1])), parsers.parseDouble(Trim(data[2])),
                 parsers.parseDouble(Trim(data[3])), parsers.parseDouble(Trim(data[6])))
          case (Some(date), Some(temperature), Some(humidity), Some(windSpeed)) =>
            Some(WeatherData(None, cities[id], date, temperature, humidity, Trim(data[4]), Trim(data[5]), windSpeed))
          case _ => None
  }

  /** The record one data line yields: its comma-separated fields, as split, parsed. */
  function ParseRow(line: string, cities: map<int, City>, parsers: ValueParsers): (r: Option<WeatherData>)
    ensures r.Some? ==> r.value.id.None? && r.value.city in cities.Values
    ensures r.Some? ==> IsTrimmed(r.value.weather) && IsTrimmed(r.value.windDirection)
    ensures r.Some? ==> Separator !in r.value.weather && Separator !in r.value.windDirection
  {
    ParseFields(Split(line, Separator), cities, parsers)
  }

  /** ParseRow for a fixed table of cities and fixed value parsers. */
  function RowParser(cities: map<int, City>, parsers: ValueParsers): string -> Option<WeatherData>
  {
    line => ParseRow(line, cities, parsers)
  }

  /** The values `f` yields on the elements of `xs`, in order, skipping the elements it rejects. */
  function FilterMap<A, B>(xs: seq<A>, f: A -> Option<B>): (ys: seq<B>)
    ensures |ys| <= |xs|
  {
    if xs == [] then []
    else
      var rest := FilterMap(xs[1..], f);
      match f(xs[0])
      case Some(y) => [y] + rest
      case None => rest
  }

  /** Elements are filtered independently: FilterMap distributes over concatenation. */
  lemma {:induction false} FilterMapAppend<A, B>(a: seq<A>, b: seq<A>, f: A -> Option<B>)
    ensures FilterMap(a + b, f) == FilterMap(a, f) + FilterMap(b, f)
    decreases |a|
  {
    if a != [] {
      assert (a + b)[1..] == a[1..] + b;
      assert (a + b)[0] == a[0];
      FilterMapAppend(a[1..], b, f);
    } else {
      assert a + b == b;
    }
  }

  /** One more element adds its value, if `f` accepts it, at the end. */
  lemma FilterMapSnoc<A, B>(xs: seq<A>, x: A, f: A -> Option<B>)
    ensures FilterMap(xs + [x], f) == FilterMap(xs, f) + (if f(x).Some? then [f(x).value] else [])
  {
    FilterMapAppend(xs, [x], f);
    assert [x][1..] == [];
  }

  /**
   * The positions, from `from` on, of the elements `f` accepts: increasing, and
   * containing exactly the accepted positions.
   */
  function AcceptedFrom<A, B>(xs: seq<A>, f: A -> Option<B>, from: nat): (idx: seq<nat>)
    requires from <= |xs|
    ensures forall j | 0 <= j < |idx| :: from <= idx[j] < |xs| && f(xs[idx[j]]).Some?
    ensures forall j, k | 0 <= j < k < |idx| :: idx[j] < idx[k]
    ensures forall i | from <= i < |xs| && f(xs[i]).Some? :: i in idx
    decreases |xs| - from
  {
    if from == |xs| then []
    else
      var rest := AcceptedFrom(xs, f, from + 1);
      if f(xs[from]).Some? then [from] + rest else rest
  }

  /** Values matched to positions stay matched when an accepted position and its value go in front. */
  lemma MatchesCons<A, B>(xs: seq<A>, f: A -> Option<B>, i: nat, ys: seq<B>, idx: seq<nat>)
    requires i < |xs| && f(xs[i]).Some?
    requires |ys| == |idx| && forall j | 0 <= j < |idx| :: idx[j] < |xs| && f(xs[idx[j]]) == Some(ys[j])
    ensures var ys', idx' := [f(xs[i]).value] + ys, [i] + idx;
      |ys'| == |idx'| && forall j | 0 <= j < |idx'| :: idx'[j] < |xs| && f(xs[idx'[j]]) == Some(ys'[j])
  {
    var ys', idx' := [f(xs[i]).value] + ys, [i] + idx;
    forall j | 0 <= j < |idx'| ensures idx'[j] < |xs| && f(xs[idx'[j]]) == Some(ys'[j]) {
      if j > 0 {
        assert ys'[j] == ys[j - 1] && idx'[j] == idx[j - 1];
      }
    }
  }

  /** FilterMap keeps order and drops nothing accepted: its j-th value comes from the j-th accepted position. */
  lemma {:induction false} FilterMapMatchesAccepted<A, B>(xs: seq<A>, f: A -> Option<B>, from: nat)
    requires from <= |xs|
    ensures var ys, idx := FilterMap(xs[from..], f), AcceptedFrom(xs, f, from);
      |ys| == |idx| && forall j | 0 <= j < |ys| :: f(xs[idx[j]]) == Some(ys[j])
    decreases |xs| - from
  {
    if from < |xs| {
      var rest, restIdx := FilterMap(xs[from + 1..], f), AcceptedFrom(xs, f, from + 1);
      assert xs[from..][1..] == xs[from + 1..];
      assert xs[from..][0] == xs[from];
      FilterMapMatchesAccepted(xs, f, from + 1);
      if f(xs[from]).Some? {
        assert FilterMap(xs[from..], f) == [f(xs[from]).value] + rest;
        assert AcceptedFrom(xs, f, from) == [from] + restIdx;
        MatchesCons(xs, f, from, rest, restIdx);
      } else {
        assert FilterMap(xs[from..], f) == rest;
        assert AcceptedFrom(xs, f, from) == restIdx;
      }
    }
  }

  /** When `f` accepts every element, FilterMap yields one value per element, in order. */
  lemma {:induction false} FilterMapAll<A, B>(xs: seq<A>, f: A -> Option<B>)
    requires forall i | 0 <= i < |xs| :: f(xs[i]).Some?
    ensures |FilterMap(xs, f)| == |xs|
    ensures forall i | 0 <= i < |xs| :: f(xs[i]) == Some(FilterMap(xs, f)[i])
    decreases |xs|
  {
    if xs != [] {
      assert forall i | 0 <= i < |xs| - 1 :: xs[1..][i] == xs[i + 1];
      FilterMapAll(xs[1..], f);
    }
  }

  /** The records the import builds from the data lines: each accepted line's record, in line order. */
  function ImportRows(rows: seq<string>, cities: map<int, City>, parsers: ValueParsers): (batch: seq<WeatherData>)
    ensures |batch| <= |rows|
    ensures WeatherDataService.AllNew(batch)
  {
    var f := RowParser(cities, parsers);
    var batch := FilterMap(rows, f);
    assert WeatherDataService.AllNew(batch) by {
      assert rows[0..] == rows;
      FilterMapMatchesAccepted(rows, f, 0);
      var idx := AcceptedFrom(rows, f, 0);
      forall j | 0 <= j < |batch| ensures batch[j].id.None? {
        assert ParseRow(rows[idx[j]], cities, parsers) == Some(batch[j]);
      }
    }
    batch
  }

  /** Appending more fields to a line with seven or more fields does not change what it yields. */
  lemma ExtraFieldsIgnored(line: string, extra: string, cities: map<int, City>, parsers: ValueParsers)
    requires |Split(line, Separator)| >= FieldCount
    ensures ParseRow(line + [Separator] + extra, cities, parsers) == ParseRow(line, cities, parsers)
  {
    var data, data' := Split(line, Separator), Split(line + [Separator] + extra, Separator);
    SplitExtend(line, extra, Separator);
    assert forall k | 0 <= k < FieldCount :: data'[k] == data[k] by {
      forall k | 0 <= k < FieldCount ensures data'[k] == data[k] {
        assert data'[..|data|][k] == data'[k];
      }
    }
  }

  /**
   * What an accepted record is made of: its city is the stored city whose id is the
   * trimmed first column (and, the table being well keyed, carries that id), its
   * date and numbers are the parses of the trimmed columns 1, 2, 3 and 6, and its
   * weather and wind direction are the trimmed columns 4 and 5.
   */
  lemma AcceptedRecordFields(line: string, cities: map<int, City>, nextId: int, parsers: ValueParsers)
    requires CityService.WellKeyed(cities, nextId)
    requires ParseRow(line, cities, parsers).Some?
    ensures var data, w := Split(line, Separator), ParseRow(line, cities, parsers).value;
      && |data| >= FieldCount
      && ParseLong(Trim(data[0])).Some? && ParseLong(Trim(data[0])).value in cities
      && w.city == cities[ParseLong(Trim(data[0])).value]
      && w.city.id == ParseLong(Trim(data[0]))
      && parsers.parseDate(Trim(data[1])) == Some(w.date)
      && parsers.parseDouble(Trim(data[2])) == Some(w.temperature)
      && parsers.parseDouble(Trim(data[3])) == Some(w.humidity)
      && parsers.parseDouble(Trim(data[6])) == Some(w.windSpeed)
      && w.weather == Trim(data[4]) && w.windDirection == Trim(data[5])
  {
  }

  /** The header line never yields a record, whatever it holds. */
  lemma HeaderNeverImported(header: string, rest: seq<string>, cities: map<int, City>, parsers: ValueParsers)
    ensures ImportRows(Rows([header] + rest), cities, parsers) == ImportRows(rest, cities, parsers)
  {
    assert ([header] + rest)[1..] == rest;
  }

  /**
   * A line that yields nothing (too few fields, or a column that does not parse or
   * resolve) leaves the records of all the other lines exactly as they were.
   */
  lemma {:induction false} SkippedLineInert(before: seq<string>, line: string, after: seq<string>,
                                           cities: map<int, City>, parsers: ValueParsers)
    requires ParseRow(line, cities, parsers).None?
    ensures ImportRows(before + [line] + after, cities, parsers)
         == ImportRows(before, cities, parsers) + ImportRows(after, cities, parsers)
  {
    var f := RowParser(cities, parsers);
    FilterMapAppend(before + [line], after, f);
    FilterMapAppend(before, [line], f);
    assert [line][1..] == [];
    assert FilterMap([line], f) == [];
  }

  /**
   * Which field lists give a record: exactly those with at least seven fields whose
   * trimmed first field is a long naming a stored city and whose trimmed date and
   * three numbers parse.
   */
  lemma ParseFieldsAccepts(data: seq<string>, cities: map<int, City>, parsers: ValueParsers)
    ensures ParseFields(data, cities, parsers).Some? <==>
      && |data| >= FieldCount
      && ParseLong(Trim(data[0])).Some? && ParseLong(Trim(data[0])).value in cities
      && parsers.parseDate(Trim(data[1])).Some?
      && parsers.parseDouble(Trim(data[2])).Some? && parsers.parseDouble(Trim(data[3])).Some?
      && parsers.parseDouble(Trim(data[6])).Some?
  {
  }

  /** The same at line level: a line gives a record exactly when its split fields are accepted. */
  lemma ParseRowAccepts(line: string, cities: map<int, City>, parsers: ValueParsers)
    ensures var data := Split(line, Separator);
      ParseRow(line, cities, parsers).Some? <==>
      && |data| >= FieldCount
      && ParseLong(Trim(data[0])).Some? && ParseLong(Trim(data[0])).value in cities
      && parsers.parseDate(Trim(data[1])).Some?
      && parsers.parseDouble(Trim(data[2])).Some? && parsers.parseDouble(Trim(data[3])).Some?
      && parsers.parseDouble(Trim(data[6])).Some?
  {
    ParseFieldsAccepts(Split(line, Separator), cities, parsers);
  }

  /** ParseFields on seven fields whose first is a printed long in range. */
  lemma FormattedFieldsImport(fields: seq<string>, id: int, cities: map<int, City>, parsers: ValueParsers)
    requires |fields| == FieldCount && fields[0] == FormatLong(id) && LongMin <= id <= LongMax
    ensures var parsed := (parsers.parseDate(Trim(fields[1])), parsers.parseDouble(Trim(fields[2])),
                           parsers.parseDouble(Trim(fields[3])), parsers.parseDouble(Trim(fields[6])));
      ParseFields(fields, cities, parsers)
      == if id in cities && parsed.0.Some? && parsed.1.Some? && parsed.2.Some? && parsed.3.Some? then
           Some(WeatherData(None, cities[id], parsed.0.value, parsed.1.value, parsed.2.value,
                            Trim(fields[4]), Trim(fields[5]), parsed.3.value))
         else None
  {
    ParseFormatLong(id);
    assert Trim(FormatLong(id)) == FormatLong(id);
  }

  /**
   * A line written from seven separator-free fields, the city id in Long.toString form
   * and the last field non-empty, yields a record exactly when the city exists and the
   * date and the three numbers parse; the record then carries the looked-up city and
   * the trimmed text fields.
   */
  lemma FormattedRowImport(id: int, date: string, temperature: string, humidity: string,
                           weather: string, windDirection: string, windSpeed: string,
                           cities: map<int, City>, parsers: ValueParsers)
    requires LongMin <= id <= LongMax
    requires Separator !in date && Separator !in temperature && Separator !in humidity
    requires Separator !in weather && Separator !in windDirection && Separator !in windSpeed
    requires windSpeed != []
    ensures var parsed := (parsers.parseDate(Trim(date)), parsers.parseDouble(Trim(temperature)),
                           parsers.parseDouble(Trim(humidity)), parsers.parseDouble(Trim(windSpeed)));
      ParseRow(Join([FormatLong(id), date, temperature, humidity, weather, windDirection, windSpeed], Separator), cities, parsers)
      == if id in cities && parsed.0.Some? && parsed.1.Some? && parsed.2.Some? && parsed.3.Some? then
           Some(WeatherData(None, cities[id], parsed.0.value, parsed.1.value, parsed.2.value,
                            Trim(weather), Trim(windDirection), parsed.3.value))
         else None
  {
    var fields := [FormatLong(id), date, temperature, humidity, weather, windDirection, windSpeed];
    SplitJoin(fields, Separator);
    FormattedFieldsImport(fields, id, cities, parsers);
  }

  /**
   * A line that ends in a separator leaves its last field empty; split drops that
   * field, so six written fields and a trailing separator make a six-field line,
   * which yields nothing whatever the cities and the parsers.
   */
  lemma EmptyLastFieldSkipped(fields: seq<string>, cities: map<int, City>, parsers: ValueParsers)
    requires |fields| == FieldCount - 1 && fields[|fields| - 1] != []
    requires forall j | 0 <= j < |fields| :: Separator !in fields[j]
    ensures |Split(Join(fields, Separator) + [Separator], Separator)| == FieldCount - 1
    ensures ParseRow(Join(fields, Separator) + [Separator], cities, parsers).None?
  {
    SplitTrailingSeparator(fields, Separator);
  }

  class WeatherDataController {
    const weatherDataService: WeatherDataService.WeatherDataServiceImpl
    const cityService: CityService.CityServiceImpl

    constructor (weatherDataService: WeatherDataService.WeatherDataServiceImpl, cityService: CityService.CityServiceImpl)
      ensures this.weatherDataService == weatherDataService && this.cityService == cityService
    {
      this.weatherDataService := weatherDataService;
      this.cityService := cityService;
    }

    /**
     * The guarded block of uploadWeatherData for one line: too few fields, or any
     * lookup or parse that fails, and the line gives no record.
     */
    method ReadRecord(line: string, parsers: ValueParsers) returns (record: Option<WeatherData>)
      ensures record == ParseRow(line, cityService.cities, parsers)
    {
      var data := Split(line, Separator);
      if |data| < FieldCount {
        return None;
      }
      var id := ParseLong(Trim(data[0]));
      if id.None? {
        return None;
      }
      var city := cityService.GetCityById(id.value);
      if city.Err? {
        return None;
      }
      var date := parsers.parseDate(Trim(data[1]));
      var temperature := parsers.parseDouble(Trim(data[2]));
      var humidity := parsers.parseDouble(Trim(data[3]));
      var weather := Trim(data[4]);
      var windDirection := Trim(data[5]);
      var windSpeed := parsers.parseDouble(Trim(data[6]));
      if date.None? || temperature.None? || humidity.None? || windSpeed.None? {
        return None;
      }
      record := Some(WeatherData(None, city.value, date.value, temperature.value, humidity.value,
                                 weather, windDirection, windSpeed.value));
    }

    /** The read loop of uploadWeatherData: the records of the data lines, accumulated in line order. */
    method CollectRecords(rows: seq<string>, parsers: ValueParsers) returns (batch: seq<WeatherData>)
      ensures batch == ImportRows(rows, cityService.cities, parsers)
    {
      ghost var f := RowParser(cityService.cities, parsers);
      batch := [];
      for i := 0 to |rows|
        invariant batch == FilterMap(rows[..i], f)
      {
        var record := ReadRecord(rows[i], parsers);
        assert rows[..i + 1] == rows[..i] + [rows[i]];
        FilterMapSnoc(rows[..i], rows[i], f);
        assert f(rows[i]) == record;
        if record.Some? {
          batch := batch + [record.value];
        }
      }
      assert rows[..|rows|] == rows;
    }

    /**
     * uploadWeatherData. An empty file is refused before anything is read. Otherwise
     * the header is discarded, every further line is turned into a record or
     * skipped, the accepted records are handed to saveAll once, and the count of
     * accepted records is reported. `storeFault` stands for saveAll raising; an I/O
     * error while reading or such a fault gives ProcessingError and stores nothing.
     * The reader is closed on leaving the try-with-resources block: when closing
     * fails after a successful saveAll, the reply is ProcessingError although the
     * records are stored.
     */
    method UploadWeatherData(file: UploadFile, parsers: ValueParsers, storeFault: bool) returns (outcome: Outcome)
      requires weatherDataService.Valid()
      modifies weatherDataService
      ensures weatherDataService.Valid()
      ensures file.isEmpty ==> outcome == NoFile
      ensures !file.isEmpty && (file.readFault || storeFault) ==> outcome == ProcessingError
      ensures file.isEmpty || file.readFault || storeFault ==>
        weatherDataService.records == old(weatherDataService.records) && weatherDataService.nextId == old(weatherDataService.nextId)
      ensures !file.isEmpty && !file.readFault && !storeFault ==>
        var batch := ImportRows(Rows(file.lines), cityService.cities, parsers);
        && outcome == (if file.closeFault then ProcessingError else Imported(|batch|))
        && (weatherDataService.records, weatherDataService.nextId)
           == WeatherDataService.SaveAllRecords(old(weatherDataService.records), old(weatherDataService.nextId), batch)
        && |weatherDataService.records| == |old(weatherDataService.records)| + |batch|
      ensures outcome.Imported? ==> |weatherDataService.records| == |old(weatherDataService.records)| + outcome.count
    {
      if file.isEmpty {
        return NoFile;
      }
      var rows := Rows(file.lines);  // the header line is read and dropped
      var batch := CollectRecords(rows, parsers);
      if file.readFault {
        return ProcessingError;
      }
      var saved := weatherDataService.SaveAll(batch, storeFault);
      if saved.Err? {
        return ProcessingError;
      }
      WeatherDataService.SaveAllAddsBatch(old(weatherDataService.records), old(weatherDataService.nextId), batch);
      if file.closeFault {
        return ProcessingError;  // the records stay stored
      }
      outcome := Imported(|batch|);
    }
  }
}
