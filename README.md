# Weather data import and services, modelled in Dafny

This project models the core of a Spring Boot weather-records service:

- **The bulk CSV import** `WeatherDataController.uploadWeatherData`. An uploaded file's first line is a header and is discarded. Every further line is split on `,`. Lines with fewer than seven fields are skipped. Each remaining line becomes one weather record:
  - the city is looked up by the trimmed first column;
  - the date and three numbers are parsed;
  - the weather and wind direction are taken trimmed.

  A line on which anything fails is skipped whole. The accepted records are saved in one `saveAll` call, and the number imported is reported. An empty upload is refused. A fault while reading or saving gives one error result.
- **`CityServiceImpl`**: create, update, delete, look up by id and list all cities over a city repository.
- **`WeatherDataServiceImpl`**: the same operations for weather records, plus `saveAll` and `count`.

Each JPA repository is a map from id to entity, held in a class (`CityServiceImpl`, `WeatherDataServiceImpl`) together with the next id to generate. `save` does one of two things:
- it replaces the entry whose id the entity already carries;
- otherwise it inserts the entity under a freshly generated id.

Both services keep the invariant that every entity is stored under its own id, and that id is below the next generated one.

The import is modelled in two parts:
- a method, `Controller.WeatherDataController.UploadWeatherData`, that walks the lines in a loop the way the Java code does;
- a pure function, `Controller.ImportRows`, that states the intended result: a filter-map of `Controller.ParseRow` over the lines after the header.

The method is proved to build exactly that list and to hand it to `saveAll`.

Java's library behaviour that the import depends on is written out in `JavaText`:
- `String.split(",")`, including the dropping of trailing empty fields;
- `String.trim()`;
- `Long.parseLong`.

`Double.parseDouble` and `LocalDate.parse(…, "yyyy-MM-dd")` are parameters of the import (`Controller.ValueParsers`), as total functions that fail with `None`. Their results have the abstract types `Entities.Double` and `Entities.LocalDate`.

Files:
- `wrappers.dfy`: `Option` and `Result`.
- `java_text.dfy`: split, join, trim, and the parsing and printing of longs.
- `entities.dfy`: `City`, `WeatherData` and the service errors.
- `city_service.dfy`: the `CityServiceImpl` class.
- `weather_data_service.dfy`: the `WeatherDataServiceImpl` class and the `saveAll` fold.
- `controller.dfy`: the import specification, its lemmas and the `WeatherDataController` class.

## Model

| member | source | states |
|---|---|---|
| JavaText.Split | src/main/java/com/mdm/weather/controller/WeatherDataController.java:73 | No field contains the separator. A line without a comma is one field. Otherwise the fields are the comma-separated pieces with only empty pieces dropped at the end, and the last field kept is non-empty. |
| JavaText.JoinPieces | src/main/java/com/mdm/weather/controller/WeatherDataController.java:73 | Joining the pieces of a line with commas gives the line back. |
| JavaText.PiecesJoin | src/main/java/com/mdm/weather/controller/WeatherDataController.java:73 | Comma-free fields joined with commas split back into exactly those pieces. |
| JavaText.SplitJoin | src/main/java/com/mdm/weather/controller/WeatherDataController.java:73 | At least two comma-free fields joined with commas, the last one non-empty, split back into exactly those fields. |
| JavaText.SplitExtend | src/main/java/com/mdm/weather/controller/WeatherDataController.java:73 | Appending a comma and more text to a non-empty line keeps all of its fields at the same positions. |
| JavaText.SplitTrailingSeparator | src/main/java/com/mdm/weather/controller/WeatherDataController.java:73 | A trailing comma adds no field: split drops the empty piece it creates. |
| JavaText.DropTrailingEmpty | src/main/java/com/mdm/weather/controller/WeatherDataController.java:73 | The result is a prefix of the pieces, everything dropped is empty, and the last piece kept is non-empty. |
| JavaText.Trim | src/main/java/com/mdm/weather/controller/WeatherDataController.java:80-87 | The result is a contiguous part of the input. Everything before it and after it is a character at most U+0020, and it neither starts nor ends with one. So exactly the leading and trailing removable characters are stripped. Already-trimmed text is returned unchanged. |
| JavaText.TrimIdempotent | src/main/java/com/mdm/weather/controller/WeatherDataController.java:80-87 | Trimming an already trimmed field changes nothing. |
| JavaText.ParseLong | src/main/java/com/mdm/weather/controller/WeatherDataController.java:80 | A successful parse lies in the 64-bit range, and the text is an optional sign followed by at least one digit. A run of digits, with or without `+`, parses to its decimal value exactly when that value is at most 2^63 - 1. With `-` it parses to the negated value exactly when that value is at most 2^63. |
| JavaText.FormatNat | src/main/java/com/mdm/weather/controller/WeatherDataController.java:80 | Decimal printing yields a non-empty digit string whose value is the number printed. |
| JavaText.FormatLong | src/main/java/com/mdm/weather/controller/WeatherDataController.java:80 | A printed long is non-empty, trimmed and comma-free. |
| JavaText.ParseFormatLong | src/main/java/com/mdm/weather/controller/WeatherDataController.java:80 | Every long in range parses back from its printed form (a round trip). |
| CityService.SaveCity | src/main/java/com/mdm/weather/service/impl/CityServiceImpl.java:18-19 | Saving keeps the table well keyed. The saved city is stored under its id and no other entry changes. A stored id is replaced in place. A new city gets a fresh id and the table grows by one. |
| CityService.CityServiceImpl.Save | src/main/java/com/mdm/weather/service/impl/CityServiceImpl.java:19 | The new table, next id and saved city are those of `SaveCity`, and the invariant is kept. |
| CityService.CityServiceImpl.CreateCity | src/main/java/com/mdm/weather/service/impl/CityServiceImpl.java:18-19 | A city without an id is added under a fresh id and returned with it. Nothing else changes. |
| CityService.CityServiceImpl.GetCityById | src/main/java/com/mdm/weather/service/impl/CityServiceImpl.java:40-42 | A present id gives the stored city; an absent id gives NotFound. |
| CityService.CityServiceImpl.UpdateCity | src/main/java/com/mdm/weather/service/impl/CityServiceImpl.java:23-28 | An absent id gives NotFound and the table is unchanged. Otherwise only that entry changes: it takes the new name, province and description, and keeps its id. |
| CityService.CityServiceImpl.DeleteCity | src/main/java/com/mdm/weather/service/impl/CityServiceImpl.java:32-37 | An absent id gives NotFound and the table is unchanged. Otherwise exactly that entry is removed. |
| CityService.CityServiceImpl.GetAllCities | src/main/java/com/mdm/weather/service/impl/CityServiceImpl.java:46-47 | Every stored city is returned exactly once, each being the one stored under its own id. |
| CityService.DeleteThenGet | src/main/java/com/mdm/weather/service/impl/CityServiceImpl.java:36-42 | After a city is deleted, looking it up gives NotFound. |
| WeatherDataService.SaveRecord | src/main/java/com/mdm/weather/service/impl/WeatherDataServiceImpl.java:19-20 | Saving keeps the table well keyed. The saved record is stored under its id and no other entry changes. A stored id is replaced in place. A record without a stored id gets a key not yet in the table, and the table grows by one. |
| WeatherDataService.SaveAllRecords | src/main/java/com/mdm/weather/service/impl/WeatherDataServiceImpl.java:56-58 | Saving a batch record by record, front to back, never removes a stored id and never moves the next id backwards. |
| WeatherDataService.SaveAllWellKeyed | src/main/java/com/mdm/weather/service/impl/WeatherDataServiceImpl.java:56-58 | Saving a whole batch keeps the table well keyed. |
| WeatherDataService.SaveAllNextId | src/main/java/com/mdm/weather/service/impl/WeatherDataServiceImpl.java:56-58 | A batch of new records uses exactly one generated id per record. |
| WeatherDataService.StampedContents | src/main/java/com/mdm/weather/service/impl/WeatherDataServiceImpl.java:56-58 | The batch stamped with consecutive ids holds record i under key nextId + i, and nothing else. |
| WeatherDataService.SaveAllNewRecords | src/main/java/com/mdm/weather/service/impl/WeatherDataServiceImpl.java:56-58 | Saving a batch of new records leaves the old table plus the stamped batch. The next id advances by the batch length. |
| WeatherDataService.SaveAllAddsBatch | src/main/java/com/mdm/weather/service/impl/WeatherDataServiceImpl.java:56-58 | After a batch of new records is saved, every old record is still there, and record i of the batch sits under nextId + i with that id. Nothing else is added, and the table grows by the batch length. |
| WeatherDataService.WeatherDataServiceImpl.Save | src/main/java/com/mdm/weather/service/impl/WeatherDataServiceImpl.java:20 | The new table, next id and saved record are those of `SaveRecord`, and the invariant is kept. |
| WeatherDataService.WeatherDataServiceImpl.CreateWeatherData | src/main/java/com/mdm/weather/service/impl/WeatherDataServiceImpl.java:18-21 | A record without an id is added under a fresh id and returned with it. Nothing else changes. |
| WeatherDataService.WeatherDataServiceImpl.GetWeatherDataById | src/main/java/com/mdm/weather/service/impl/WeatherDataServiceImpl.java:44-48 | A present id gives the stored record; an absent id gives NotFound. |
| WeatherDataService.WeatherDataServiceImpl.UpdateWeatherData | src/main/java/com/mdm/weather/service/impl/WeatherDataServiceImpl.java:23-34 | An absent id gives NotFound and the table is unchanged. Otherwise that entry takes all seven observation fields of the input and keeps its id. No other entry changes. |
| WeatherDataService.WeatherDataServiceImpl.DeleteWeatherData | src/main/java/com/mdm/weather/service/impl/WeatherDataServiceImpl.java:36-42 | An absent id gives NotFound and the table is unchanged. Otherwise exactly that record is removed. |
| WeatherDataService.WeatherDataServiceImpl.SaveAll | src/main/java/com/mdm/weather/service/impl/WeatherDataServiceImpl.java:55-58 | The table and next id are those of saving each record of the batch in list order. On a repository fault the result is PersistenceFault and nothing is stored. |
| WeatherDataService.WeatherDataServiceImpl.Count | src/main/java/com/mdm/weather/service/impl/WeatherDataServiceImpl.java:60-63 | The count is the number of stored records. |
| WeatherDataService.DeleteThenGet | src/main/java/com/mdm/weather/service/impl/WeatherDataServiceImpl.java:41-47 | After a record is deleted, looking it up gives NotFound. |
| Controller.Rows | src/main/java/com/mdm/weather/controller/WeatherDataController.java:69-70 | The data lines are the lines after the first one; an empty file has none. |
| Controller.HeaderNeverImported | src/main/java/com/mdm/weather/controller/WeatherDataController.java:69-72 | The first line never yields a record, whatever it holds. |
| Controller.ParseFields | src/main/java/com/mdm/weather/controller/WeatherDataController.java:74-93 | Only a line of at least seven fields gives a record. That record is new (no id), its city is a stored city, and its weather and wind direction are trimmed. |
| Controller.ParseRow | src/main/java/com/mdm/weather/controller/WeatherDataController.java:73-93 | An accepted line gives a new record (no id) whose city is a stored city, and whose weather and wind direction are trimmed and comma-free. |
| Controller.ParseFieldsAccepts | src/main/java/com/mdm/weather/controller/WeatherDataController.java:74-93 | A list of fields gives a record if and only if it has at least seven fields, its trimmed first field parses as a long that names a stored city, its trimmed date parses, and its trimmed temperature, humidity and wind speed parse as doubles. |
| Controller.ParseRowAccepts | src/main/java/com/mdm/weather/controller/WeatherDataController.java:73-93 | A line gives a record if and only if its comma-split fields meet the same conditions: at least seven fields, a stored city id, and a parseable date and three parseable numbers. |
| Controller.FormattedFieldsImport | src/main/java/com/mdm/weather/controller/WeatherDataController.java:80-87 | Seven fields whose first is a printed long yield a record exactly when that id names a stored city and the date and three numbers parse. |
| Controller.AcceptedRecordFields | src/main/java/com/mdm/weather/controller/WeatherDataController.java:74-87 | An accepted line has at least seven fields. Its record's city is the stored city whose id is the trimmed first column, and that city carries that id. The date and the three numbers parse from trimmed columns 1, 2, 3 and 6. Weather and wind direction are trimmed columns 4 and 5. |
| Controller.FormattedRowImport | src/main/java/com/mdm/weather/controller/WeatherDataController.java:73-93 | Take seven comma-free fields whose first is `Long.toString(id)` for a long `id` and whose last (the wind speed) is non-empty, and join them with commas. The resulting line yields a record if and only if `id` names a stored city and the date and the three numbers parse. The record is then the looked-up city with the parsed and trimmed values. |
| Controller.ExtraFieldsIgnored | src/main/java/com/mdm/weather/controller/WeatherDataController.java:73-87 | Fields after the seventh do not change what a line yields. |
| Controller.EmptyLastFieldSkipped | src/main/java/com/mdm/weather/controller/WeatherDataController.java:73-74 | Six fields followed by a trailing comma make a six-field line, which is skipped: split drops the empty wind speed. |
| Controller.SkippedLineInert | src/main/java/com/mdm/weather/controller/WeatherDataController.java:74-93 | A line that yields nothing leaves the records of all the other lines exactly as they were. |
| Controller.FilterMap | src/main/java/com/mdm/weather/controller/WeatherDataController.java:72-94 | The filter-map never yields more values than it has inputs. |
| Controller.FilterMapAppend | src/main/java/com/mdm/weather/controller/WeatherDataController.java:72-94 | Lines are handled independently: the filter-map distributes over concatenation. |
| Controller.FilterMapSnoc | src/main/java/com/mdm/weather/controller/WeatherDataController.java:72-94 | One more line appends its record, if it has one, at the end and changes nothing before it. |
| Controller.AcceptedFrom | src/main/java/com/mdm/weather/controller/WeatherDataController.java:72-94 | The accepted positions are strictly increasing, and a position is among them exactly when its line is accepted. |
| Controller.FilterMapMatchesAccepted | src/main/java/com/mdm/weather/controller/WeatherDataController.java:72-94 | The j-th record is the record of the j-th accepted line: input order is kept and nothing accepted is dropped. |
| Controller.FilterMapAll | src/main/java/com/mdm/weather/controller/WeatherDataController.java:72-94 | When every line is accepted, there is one record per line, in line order. |
| Controller.ImportRows | src/main/java/com/mdm/weather/controller/WeatherDataController.java:72-94 | There are no more records than data lines, and every record is new (no id). |
| Controller.WeatherDataController.ReadRecord | src/main/java/com/mdm/weather/controller/WeatherDataController.java:73-93 | The record built step by step from one line, with a lookup in the city service, is exactly `ParseRow` of that line. |
| Controller.WeatherDataController.CollectRecords | src/main/java/com/mdm/weather/controller/WeatherDataController.java:72-94 | The list the read loop accumulates is exactly `ImportRows` of the data lines. |
| Controller.WeatherDataController.UploadWeatherData | src/main/java/com/mdm/weather/controller/WeatherDataController.java:58-103 | An empty file gives NoFile and stores nothing. A read or save fault gives ProcessingError and stores nothing. Otherwise the loop's list equals `ImportRows` of the data lines, that list is saved once, and the table grows by that length. The outcome carries that length, unless closing the reader fails: the outcome is then ProcessingError, although the records stay stored. |

## Left out

- HTTP wiring is not modelled: `MultipartFile`, the `BufferedReader` and the charset decoding. A file is its emptiness flag, the lines a reader delivers, whether reading then fails, and whether closing the reader fails.
- The reply texts are not modelled. The three outcomes stand for the success and error envelopes.
- `Double.parseDouble` and `LocalDate.parse` are parameters. Floating-point values and calendar rules are not modelled; only success or failure and the value returned matter to the import.
- JavaText.ParseLong: accepts only the ASCII digits `0`-`9`. `Long.parseLong` also accepts other Unicode decimal digits.
- Id generation by the database is modelled as a counter. Database constraints are not modelled: uniqueness, not-null, and the foreign key from a record to its city. `saveAll`'s failure is the `fault` parameter of `SaveAll` and the `storeFault` parameter of `UploadWeatherData`.
- The import's "try next line" on an exception is modelled by `ParseRow` returning `None` for the parse failures and for NotFound from `getCityById`. Any other exception `getCityById` might raise, such as a database failure, is not modelled: the per-row catch would swallow it too, and the row would be silently skipped even though its city exists.
- Each weather record holds a copy of its `City`, taken when the record is built. The source holds a reference through a foreign key, so a later `updateCity` is seen by stored records there. In this model it is not: `GetWeatherDataById` returns the city as it was when the record was saved.
- The controller's create/update/delete/get/count endpoints are not modelled separately: they only pass through to the service methods above. The same holds for `CityController` and `UserController`.
- `getWeatherDataByCityAndDateRange` is not modelled. The derived query `findByCityIdAndDateBetween` it forwards to is defined by Spring Data, which is not part of this model.
- The exception handler that turns `ResourceNotFoundException` into an error envelope is not modelled; NotFound is a `Result` error here.
- The web front end is not part of this model.
