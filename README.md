# mssql exporter metrics: a Dafny model

This project models `metrics.js` of a Prometheus exporter for Microsoft SQL Server. That
file declares the exporter's gauges: the liveness gauge `up` and the gauges of three query
definitions. Each query definition pairs a SQL query with a `collect` function, which turns
the rows the query returned into `set` calls on the definition's gauges. The file also lists
the three definitions in an ordered registry. When it is run on its own, it prints
documentation for the registry, including one `name{label,...}` signature per gauge.

The model has five modules:

- `Gauges` holds the gauge of the metrics client library, as the exporter relies on it.
  - A `Gauge` is a class with a table from label tuples to integer readings.
  - `Set` overwrites one label tuple and refuses a reading that is not a number.
  - `Apply` folds a list of `set` calls (observations) into such a table.
  - The lemmas about `Apply` say that readings are overwritten, never accumulated or reset. They also say that re-applying is idempotent and that an unwritten key keeps its reading.
- `Collection` holds the contract shared by the `collect` loops, in a function called `Collected`.
  - Rows are taken in order.
  - The first row that cannot be read ends the call with an error. The error is a missing row, a missing column, or a reading that is not a number.
  - The `set` calls made before that error stay made.
- `Collectors` holds the three `collect` functions.
  - Each one is a class owning its gauges, with a `Collect` method whose contract ties the gauge tables to `Apply` of the call's `set` calls: `LocalTimeRun` for the single local-time write, and the row projections `ConnectionsRow` and `IoStallRow` for the two loops, whose invariants carry that tie row by row.
  - The lemmas state which readings each gauge holds afterwards, that unnamed databases are untouched, and that a repeated run changes nothing.
  - Further lemmas state that every `set` call matches its gauge's declaration.
- `Metrics` holds the declarations, the registry, and the signature string of the documentation mode.
  - The signature comes with a parser, and the round trip is proved: parsing a signature gives back the gauge's name and label names.
  - The five gauge names are proved pairwise distinct.
- `Strings` holds JavaScript's `join`, its inverse `split`, and `String(n)` for integers.

Some behaviour is taken from the code:

- **Failing rows.** A `collect` loop that hits a bad row throws after the earlier rows' `set` calls, and those readings stay written. The model keeps this partial state. It does not roll back.
- **Repeated databases.** Nothing in the code removes duplicate databases from the rows. When a database repeats, the model states that the last row wins. It does not assume that database names are unique.

## Model

| member | source | states |
|---|---|---|
| Gauges.Gauge.constructor | metrics.js:14 | a declared gauge starts with its declaration and no readings |
| Gauges.Gauge.Set | metrics.js:38 | a number overwrites the reading of exactly the label tuple built from the label object in declared order; a non-number is refused and nothing changes; the labels must be exactly the declared names |
| Gauges.LabelTextSame | metrics.js:35 | two cells give the same label value exactly when they are equal or one is text spelling the other's integer in decimal; distinct integers never share a label value |
| Gauges.LabelTupleSame | metrics.js:38 | two label objects over the declared names give the same tuple, and so the same reading, exactly when their label values agree name by name |
| Gauges.Apply | metrics.js:33-39 | after a sequence of `set` calls the keys are the old keys plus the written label tuples; none is ever removed |
| Gauges.ApplyAppend | metrics.js:33-39 | applying two batches of `set` calls one after the other is applying their concatenation |
| Gauges.ApplyOverride | metrics.js:69-73 | the table after a batch is the old table overridden by what the batch alone writes: readings are neither summed nor reset |
| Gauges.ApplyIdempotent | metrics.js:69-73 | applying the same batch of `set` calls twice gives the table of applying it once |
| Gauges.ApplyUntouched | metrics.js:38 | a label tuple that no call writes keeps its presence and its reading |
| Gauges.ApplyWritten | metrics.js:38 | a label tuple all of whose writes carry one reading ends up holding that reading |
| Collection.Collected | metrics.js:33-39 | a pass over the rows finishes exactly when every row's projection finishes |
| Collection.CollectedStep | metrics.js:33-39 | one more iteration adds nothing after a failure, otherwise that row's calls and outcome |
| Collection.FailureSticks | metrics.js:60-74 | once a row fails, the later rows change neither the calls nor the outcome |
| Collection.StopsAt | metrics.js:60-74 | a pass that reached row i without error and fails there ends with that row's error and the calls made so far |
| Collection.FirstFailure | metrics.js:33-39 | the error is the first failing row's, and the calls kept are those of the rows before it plus the failing row's own calls before its error |
| Collection.CollectedFrom | metrics.js:33-39 | every call of a pass was made by one of the rows |
| Collection.CollectedUntouched | metrics.js:33-39 | a label tuple that no row writes keeps its reading whether the pass finished or failed |
| Collection.CollectedLastWins | metrics.js:33-39 | when row j writes a tuple and no later row does, a finished pass leaves row j's reading there |
| Collectors.LocalTimeRun | metrics.js:17-21 | the local-time call finishes exactly when there is a first row and its first cell is a number; later rows are not read |
| Collectors.LocalTimeCollector.constructor | metrics.js:14 | the local-time definition owns a fresh gauge with the local-time declaration and no readings |
| Collectors.LocalTimeCollector.Collect | metrics.js:17-21 | the unlabeled reading becomes the first cell of the first row; with no rows the call fails with the missing-row error; any failure leaves the gauge unchanged |
| Collectors.ConnectionsRow | metrics.js:34-38 | a row finishes exactly when it has a count that is a number, and a failing row makes no call |
| Collectors.ConnectionsCollector.constructor | metrics.js:26 | the connections definition owns a fresh gauge with labels database and state and no readings |
| Collectors.ConnectionsCollector.Collect | metrics.js:32-40 | the loop leaves the outcome and gauge table of the row-by-row fold of the connection rows over the old table |
| Collectors.ConnectionsCollector.SetCurrent | metrics.js:38 | the call supplies exactly the declared labels and writes the count under (database, "current") |
| Collectors.ConnectionsDone | metrics.js:32-40 | the call finishes exactly when every row has a count that is a number |
| Collectors.ConnectionsFirstError | metrics.js:32-40 | the first bad row decides the error, and only the rows before it are written |
| Collectors.ConnectionsReading | metrics.js:32-40 | after a finished call, each row's database reads that row's count unless a later row names the same database |
| Collectors.ConnectionsUntouched | metrics.js:32-40 | a label tuple that no row names keeps its reading; nothing is reset to zero |
| Collectors.IoStallRow | metrics.js:61-73 | a row finishes exactly when it has six cells and numbers in columns 1 to 5 |
| Collectors.IoStallRest | metrics.js:71-73 | the write, queued-read and queued-write calls finish exactly when those three cells are numbers |
| Collectors.IoStallRowReadDone | metrics.js:69-70 | once the total and the read stall are numbers, the row continues with the remaining three calls |
| Collectors.IoStallCollector.constructor | metrics.js:45-46 | the I/O stall definition owns two fresh gauges with labels (database, type) and (database) and no readings |
| Collectors.IoStallCollector.Collect | metrics.js:59-75 | the loop leaves the outcome and both gauge tables of the row-by-row fold of the stall rows over the old tables |
| Collectors.IoStallCollector.CollectRow | metrics.js:61-73 | one iteration reads all six cells, then makes the total and four kind calls in source order, stopping at the first non-number |
| Collectors.IoStallCollector.SetTotal | metrics.js:69 | the call supplies exactly the declared label and writes the total under (database) |
| Collectors.IoStallCollector.SetKind | metrics.js:70-73 | the call supplies exactly the declared labels and writes the reading under (database, kind) |
| Collectors.IoStallDone | metrics.js:59-75 | the call finishes exactly when every row has six cells and numbers in columns 1 to 5 |
| Collectors.IoStallFanOut | metrics.js:69-73 | a complete row makes exactly five calls: total, read, write, queued read, queued write, in that order, with the columns 3, 1, 2, 4, 5 |
| Collectors.IoStallRowDatabase | metrics.js:62 | every call a row makes is labeled with that row's database |
| Collectors.IoStallRowKeysDistinct | metrics.js:69-73 | within one row no two calls write the same tuple of the same gauge |
| Collectors.IoStallLastWins | metrics.js:59-75 | a call of row j survives a finished pass when no later row names its database |
| Collectors.IoStallReadings | metrics.js:59-75 | after a finished call, each row's database reads its total and its four kind readings unless a later row names the same database |
| Collectors.IoStallUntouched | metrics.js:59-75 | a database that no row names keeps its total and its readings of every kind, whether the call finished or failed |
| Collectors.CollectTwice | metrics.js:20 | each of the three calls run twice on the same rows leaves every gauge as one run does |
| Collectors.ObservationsDeclared | metrics.js:12-76 | every call of every `collect` goes to a gauge of its own definition with one label value per declared label name |
| Collectors.IoStallRowDeclared | metrics.js:45-46 | every call of an I/O stall row goes to one of the two declared gauges with the declared label count |
| Metrics.Registry | metrics.js:79-83 | the registry holds three query definitions |
| Metrics.Declared | metrics.js:104-106 | every gauge of every definition is listed, and nothing else |
| Metrics.RegistryNames | metrics.js:79-83 | the registry's definitions are local time, connections and I/O stall, in that order; with `up` the five gauge names are pairwise distinct |
| Metrics.Signature | metrics.js:107 | the bare name without label names, otherwise the name, an opening brace, the label names and a closing brace |
| Metrics.FirstIndex | metrics.js:107 | the position of the first occurrence of a character |
| Metrics.ParseSignature | metrics.js:107 | a parsed signature without a brace is the bare name; with one, the name is brace-free and the label list non-empty |
| Metrics.SignatureRoundTrip | metrics.js:107 | parsing a signature gives back the gauge's name and label names |
| Metrics.SignatureInjective | metrics.js:107 | two gauges with the same signature have the same name and label names |
| Metrics.SignaturesRoundTrip | metrics.js:107 | every signature of a list of documentable gauges parses back to that gauge's name and label names |
| Metrics.Documentation | metrics.js:104-110 | one line per declared gauge, in registry order; when the declarations are documentable, each line reads back as its own gauge's name and label names |
| Metrics.RegistryDocumentable | metrics.js:8-46 | no declared name contains a brace and no label name contains a comma |
| Metrics.DocumentationRecoversRegistry | metrics.js:104-110 | each of the four documentation lines reads back as its gauge's name and label names |
| Strings.Join | metrics.js:107 | when the joined string holds no separator, no element does |
| Strings.Split | metrics.js:107 | always at least one piece, and no piece holds the separator |
| Strings.SplitPrefix | metrics.js:107 | a separator-free prefix becomes part of the first piece |
| Strings.SplitJoin | metrics.js:107 | splitting undoes joining when no element contains the separator |
| Strings.JoinSplit | metrics.js:107 | joining undoes splitting for every string |
| Strings.JoinCons | metrics.js:107 | joining behind one more element adds exactly one separator |
| Strings.JoinHead | metrics.js:107 | a character put in front of the first element ends up in front of the whole join |
| Strings.Digits | metrics.js:35 | a non-empty string of decimal digits with no leading zero; zero is "0" |
| Strings.DigitsRoundTrip | metrics.js:35 | the digits of a natural number read back as that number |
| Strings.Decimal | metrics.js:35 | a non-empty string that starts with a minus sign exactly for negative numbers |
| Strings.DecimalRoundTrip | metrics.js:35 | the decimal string of an integer reads back as that integer |
| Strings.DecimalInjective | metrics.js:35 | two integers have the same decimal string exactly when they are equal |

## Left out

- The metrics client library is not part of this model. Registration, duplicate-name detection and exposition rendering are not modelled. The `Gauge` class states only the behaviour the exporter assumes of `set`: overwrite one tuple, and throw on a non-number.
- The library may throw on a label object with unknown or missing names. No call site here supplies such an object, so `Gauges.Gauge.Set` requires the labels to be exactly the declared names and does not model that error.
- The library keys its readings by a string built from the label values. There, a numeric and a textual label of the same digits share a reading. The model keys by the tuple of label texts, which gives the same result for this collision (`Gauges.LabelTextSame`), but it does not model other collisions of the library's key format.
- The SQL text of the three queries is not modelled. The queries run on the database server; here they are opaque, and `Collect` receives their rows as input.
- The database connection, the scrape loop that runs the queries and calls `collect`, and concurrency between scrapes are outside `metrics.js` and not modelled.
- `debug` logging is not modelled, because it only writes diagnostics.
- Documentation mode is modelled only through its signature expression. The console output is not modelled, nor are the help-text lines and the query block.
- The value of the `up` gauge is set by the caller of this file. Only its declaration is modelled, for the distinct-names property.
- Cell wrappers are not modelled: a row is a sequence of cells, standing for the cells' `.value`.
- SQL NULL is not modelled: a cell is text or an integer. A NULL database name would be the label `null`, and a NULL reading would be refused by `set`.
- All readings are integers. Floating-point numbers and integers beyond 2^53 are not modelled, because the queries return second counts, session counts and millisecond totals.
- Error messages are not modelled. The TypeError thrown on reading a row or cell that does not exist becomes the `MissingRow` or `MissingColumn` error. The library's error on a non-number reading becomes `NotANumber`.
