# Cogneato ask/tell client, modelled in Dafny

Cogneato is a service for experimental optimization. Its Python client has two
parts, and this project models both.

- `request` posts the measurements taken so far. It retries until the service
  answers 200, then checks the answer's message and decodes two tables from it:
  the analysis and the design.
- The `AskTell` session keeps the following:
  - a fixed schema of `"name:domain"` column specs;
  - an append-only list of measurement rows;
  - the favourite estimate from the last analysis;
  - the running best of the metrics told.

  `tell` turns parameter dictionaries into rows. `ask` sends the rows and turns
  the design rows back into dictionaries.

The project has four modules:

- `Common` (common.dfy) holds what the others share:
  - cell values (`Num` for a float, `Int` for an int, `Text` for anything else);
  - tables (`Frame`, a table whose rows all have one cell per column);
  - the errors the client can raise;
  - two sequence combinators. `Traverse` maps over a sequence and stops at the
    first failure. `Collect` builds a dictionary cell by cell.
- `Schema` (schema.dfy) is the string and row handling, which is pure:
  - `Split` is Python's `str.split`;
  - `ParseSpec` and `ColumnName` read column specs;
  - `Coerce` is the `float()`/`int()` conversion chosen by the domain's first
    character;
  - `Encode` builds the row `tell` stores;
  - `DecodeRow` is `_mk_param`;
  - `DecodeDesign` is `_clean_design`.

  The module proves that decoding an encoded row gives the dictionary back,
  restricted to the schema's names.
- `Transport` (transport.dfy) is `request`. The network is replaced by inputs:
  - the status code of each attempt;
  - the JSON body of the 200 answer;
  - the table reader (`pd.read_json`).

  The method `Request` keeps the retry loop. The functions `Attempts`, `Sleeps`
  and `RequestOutcome` say what the loop does.
- `Session` (session.dfy) is the class `AskTell`. Its fields are the Python
  object's fields. A ghost field `log` records every triple told. The invariant
  `Valid()` ties the state to the log:
  - the rows are the rows of the logged triples;
  - `phiBest` is their maximum metric (the `MaxPhi` function);
  - `best` is the first triple that reached that maximum (the `BestOf` function).

  `Tell`, `MkParam` and `CleanDesign` are methods with loops, proved against
  those functions. `Ask` has no loop of its own: it calls `Request`, then
  `MkParam` and `CleanDesign`. `TwoTells` is a worked example: two dictionaries
  told one at a time, and the one with the larger metric becomes the best.

## Model

| member | source | states |
|---|---|---|
| Transport.Attempts | cogneato.py:36-41 | At most `num_retries` posts are made, and at least one when it is positive. Every attempt before the last answered non-200. The loop ends early only on a 200. |
| Transport.Sleeps | cogneato.py:38-39 | One sleep follows every attempt that did not answer 200, the last attempt included. So there is one sleep fewer than attempts exactly when the last attempt answered 200. |
| Transport.ReadResponse | cogneato.py:45-52 | A body without "message" is an invalid-response error carrying the body. A message other than "Ok" is raised verbatim. The call succeeds exactly when the message is "Ok" and both "analysis" and "design" are present and readable. It then returns "Ok" and the two tables read. Otherwise the error is, in this order, a missing "analysis", an unreadable "analysis", a missing "design" or an unreadable "design". |
| Transport.RequestOutcome | cogneato.py:36-52 | A budget of zero or less never binds `res` and fails. When every attempt in the budget answers non-200, the call fails with the last status code. When any attempt answers 200, the result is that answer's decoded body. |
| Transport.Request | cogneato.py:26-52 | The loop posts the same envelope (the number of arms and the measurement table) to the given URL, or to the default one when none is given, `Attempts` times. It sleeps `Sleeps` times and returns `RequestOutcome`. |
| Transport.ThreeFailures | cogneato.py:36-43 | Three 500 answers under the default budget give three posts and three sleeps, and the call fails with code 500. |
| Transport.ServerMessageVerbatim | cogneato.py:48-49 | A 200 answer whose message is not "Ok" fails with exactly that message. |
| Schema.Split | cogneato.py:68 | `str.split` always gives at least one piece. No piece holds the separator. Joining the pieces with the separator gives back the string. |
| Schema.ColumnName | cogneato.py:106 | The name `tell` looks up holds no colon. It is the whole spec, or the prefix that ends at the first colon. |
| Schema.ColumnNameIsSplitHead | cogneato.py:106 | The name `tell` looks up is the first piece of the split `_mk_param` performs. |
| Schema.ParseSpec | cogneato.py:68-69 | A spec parses exactly when it splits into two pieces and the domain piece is non-empty. Otherwise it fails with an unpacking error or an index error, in that order. A parsed spec is its name, a colon and its domain, and the name is the one `tell` uses. |
| Schema.Truncate | cogneato.py:72 | `int()` of a float truncates toward zero, for both signs. |
| Schema.Coerce | cogneato.py:69-72 | A `[` domain yields a float and a `{` domain yields an int. Any other domain leaves the value alone. A value that already has the right type is unchanged. Text under a numeric domain fails. |
| Schema.DecodeCell | cogneato.py:68-73 | A cell decodes exactly when its spec parses and its value coerces to the spec's domain. It is then keyed by the column's name, and its value is the coerced value, which has the domain's type. Otherwise the spec's parse error is raised first, then the coercion error. |
| Schema.Cells | cogneato.py:67 | `_mk_param` looks at one cell per position below both the row length and the number of columns. Each cell decodes against its own column. |
| Schema.DecodeRow | cogneato.py:65-74 | `_mk_param` succeeds exactly when every cell it looks at decodes. |
| Schema.DecodeRowKeys | cogneato.py:66-73 | The keys of `_mk_param`'s dictionary are the names of the columns it looks at. |
| Schema.DecodeRowValues | cogneato.py:66-73 | Under a column's name, `_mk_param`'s dictionary holds the coerced cell of the last column it looks at with that name. |
| Schema.DecodeRowFailure | cogneato.py:67-73 | A failing `_mk_param` raises the error of the first cell that fails to decode. |
| Schema.DecodeIgnoresTail | cogneato.py:67 | Values past the first `len(columns)` do not change the decoded dictionary. |
| Schema.DecodeDesign | cogneato.py:76-80 | `_clean_design` gives one dictionary per design row, in order. It succeeds exactly when every row decodes. Otherwise it fails with the error of the first row that fails. |
| Schema.DecodeDesignStep | cogneato.py:78-79 | One more design row appends its decoded dictionary. A row that fails makes the whole design fail with that row's error. |
| Schema.Encode | cogneato.py:106 | The stored parameter part of a row has one value per column. |
| Schema.EncodeSpec | cogneato.py:106 | The row builds exactly when every column's name is a key of the dictionary. Its i-th value is then the value under column i's name. |
| Schema.EncodeFirstMissing | cogneato.py:106 | A row that fails to build fails with a key error for the first column, in schema order, whose name is missing. |
| Schema.EncodedCells | cogneato.py:67-73 | When the dictionary is typed for a well-formed schema, each cell of its encoded row decodes to its column's name and the dictionary's value. |
| Schema.DecodeEncoded | cogneato.py:65-74 | Take a well-formed schema (every spec parses and no two columns share a name) and a dictionary that holds every schema name with a value of its domain's type. Decoding its encoded row gives the dictionary restricted to the schema's names. |
| Schema.RoundTrip | cogneato.py:65-74 | Under the same conditions as DecodeEncoded (a well-formed schema, and a dictionary holding every schema name with a value of its domain's type), a stored measurement row decodes back to the told dictionary restricted to the schema. The metric and standard error in the row do not matter. |
| Common.CollectContents | cogneato.py:66-73 | The keys of the decoded dictionary are exactly the keys of its cells. A name repeated in the schema keeps the value of its last cell. |
| Common.CollectStops | cogneato.py:66-73 | Once a cell fails, `_mk_param` raises that cell's error, whatever follows. |
| Common.CollectFailure | cogneato.py:66-73 | A failed dictionary build reports the error of the first cell that fails. |
| Common.CollectLookups | cogneato.py:66-73 | When every cell carries a key and that key's value in a map, the dictionary built is the map restricted to those keys. |
| Common.Traverse | cogneato.py:77-80 | Mapping rows succeeds exactly when every row succeeds, and then gives one result per row, in order. |
| Common.TraverseFailure | cogneato.py:78-79 | A failed mapping reports the error of the first row that fails. |
| Common.TraverseStops | cogneato.py:78-79 | Once a row fails, `_clean_design` raises that row's error, whatever follows. |
| Session.MaxPhiBounds | cogneato.py:109-110 | The running maximum is at least -1e99 and at least every metric told. It is -1e99 or one of the metrics. |
| Session.BestOfSpec | cogneato.py:109-111 | The best is None exactly while no metric above -1e99 has been told. After that it is the first triple told whose metric equals the maximum. |
| Session.BestOfKeptByTies | cogneato.py:109 | Metrics that do not exceed the current maximum change neither the maximum nor the best, so a tie never replaces the best. |
| Session.AppendOne | cogneato.py:109-111 | One more triple moves the maximum and the best only when its metric is strictly larger than the current maximum. |
| Session.Batch | cogneato.py:103-105 | The triples are zipped to the shortest of the three lists. Every standard error is "none" when none are given. |
| Session.RowOf | cogneato.py:106-107 | A stored row is the encoded values, then the metric, then the standard error. Its first `len(columns)` cells are the encoded values. It fails exactly when the encoding fails. |
| Session.LoggedExtension | cogneato.py:108 | When the log grows, the stored rows keep their prefix, and one row per new triple follows in order. |
| Session.TellStep | cogneato.py:106-111 | One appended triple keeps the rows, the maximum and the best in step with the log. |
| Session.LoggedAppend | cogneato.py:107-108 | Appending a triple's row keeps row i as the row of triple i. |
| Session.AcceptedPrefix | cogneato.py:105-106 | `tell` accepts the triples before the first one whose dictionary lacks a schema name. The rejected one, if any, fails to encode. |
| Session.FavoriteOf | cogneato.py:97-99 | Reading the favourite fails first when the analysis has no "metric_est" column. Next, when the row does not decode, it fails with exactly the row's decode error. Otherwise it pairs the first "metric_est" cell with the decoded row. |
| Session.AskTell.constructor | cogneato.py:56-63 | A new session keeps the schema and the URL. It has no rows, no favourite and no best, and its running maximum is -1e99. |
| Session.AskTell.RowsMatchHeader | cogneato.py:106-107 | Every stored row has one value per column, then the metric and its standard error. Its values are the told dictionary's values in schema order. |
| Session.AskTell.MeasurementFrame | cogneato.py:89-92 | The posted table's header is exactly the schema followed by "metric:mean" and "metric:se". Its rows are the stored rows. |
| Session.AskTell.Best | cogneato.py:85-86 | `best()` is None exactly while no metric above -1e99 has been told. After that it is the first told triple with the largest metric, and that metric is `_phi_best`. |
| Session.AskTell.MkParam | cogneato.py:65-74 | The loop computes `DecodeRow`. |
| Session.AskTell.CleanDesign | cogneato.py:76-80 | The loop computes `DecodeDesign`. |
| Session.AskTell.Ask | cogneato.py:88-100 | `Attempts` posts are made. Each goes to the default URL, never the session's own, and carries the number of arms and the session's measurement table. The rows, the log and the best are unchanged. A failed request is raised. With an empty analysis, the favourite is kept and the design is decoded. Otherwise the favourite becomes the first analysis row's estimate and decoded parameters, or its error is raised and the favourite kept. |
| Session.AskTell.Record | cogneato.py:106-111 | One pass of the loop. It appends the triple's row and moves the best only on a strictly larger metric. A dictionary that lacks a schema name raises its key error and changes nothing. |
| Session.AskTell.Tell | cogneato.py:102-111 | The log grows by exactly the accepted prefix of the zip. One row per accepted triple is appended after the old rows, which are kept. The maximum and the best follow the new log. The error is the key error of the first rejected triple, if any. |
| Session.TellOne | cogneato.py:102-106 | A single triple whose dictionary holds every schema name is accepted, with "none" as its standard error. |
| Session.LargerSecondWins | cogneato.py:109-111 | Of two metrics above -1e99, a strictly larger second one becomes the best. |
| Session.ExampleEncodes | cogneato.py:106 | The worked example's dictionaries hold every name of its schema. |

## Left out

- The network, JSON serialisation and `time.sleep` are left out:
  - each attempt's status code is an input;
  - the 200 answer's body is an input map from field names to strings;
  - `pd.read_json` is a function parameter that gives a table or nothing;
  - sleeps are counted, not waited out.
- Transport.Request: a body that is not JSON, or whose fields are not strings, is not modelled.
- Transport.Request requires one status per attempt in the budget (`numRetries <= |statuses|`). A shorter list has no counterpart in the program, which always receives an answer or raises from `requests`.
- An exception raised by `requests` itself (a connection error) is not modelled.
- Sleeps: three failed attempts take three sleeps, one after the last attempt too. This follows the code: a sleep follows the last failed attempt, though no attempt comes after it.
- The budget: `num_retries <= 0` makes the `for`/`else` read an unbound `res`. The model reports this as its own error, `NoAttempt`.
- pandas DataFrames are modelled as tables with one cell per column (`Frame`). Index labels, dtypes and `iterrows` conversions are not modelled.
- Session.FavoriteOf: `row_fav["metric_est"]` on a Series with a repeated "metric_est" label gives a Series in pandas. The model takes the first such cell.
- Schema.Coerce: `float()` and `int()` of text are not parsed. Text under a `[` or `{` domain fails with `NotNumeric` even when Python would parse it, as in `float("0.5")`.
- Schema.Coerce: NaN and infinities are not modelled. Floats are exact reals, so the comparisons in `tell` and the truncation in `int()` ignore rounding.
- Sentinel: `-1e99` is taken as the exact real -10^99, not the nearest double.
- Dictionaries are maps, so insertion order is not modelled. The key order of `_mk_param`'s result and of a told dictionary is not modelled.
- Session.AskTell.Tell: the dictionaries the session keeps in `_best` are copies. Python keeps a reference, and a caller who mutates the dictionary later changes the stored best. That aliasing is not modelled.
- Session.AskTell.Ask: `ask` never passes the session's URL to `request`. The model stores `url`, and Ask's contract sends every post to the default URL, as the code does.
- Session.AskTell.Favorite: `favorite()` only returns the field. Its behaviour is stated by the constructor (no favourite at first) and by Ask (when and how it changes).
