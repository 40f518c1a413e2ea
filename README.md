# Fund manager: CSV upload and fund list, modelled in Dafny

This project models the core of a small Django fund manager and proves its
properties. There are two parts:

- the CSV upload `Fund.upload_funds` with `_clean_fund_data`, the `Strategy`
  enumeration and the Fund table's constraints (`funds/models.py`);
- the list page `IndexView` and the two outcomes of `UploadFileView.post`
  (`funds/views.py`).

Modules, in dependency order:

- `Base` (`base.dfy`): the `Option`, `Result` and `Outcome` wrappers.
- `CsvReading` (`csv_reading.dfy`): the part of Python's text and `csv` handling
  the upload relies on. This is `str.splitlines`, `csv.reader` on a line with no
  quote characters, `DictReader` skipping empty rows, and the `next(reader)` that
  throws the header away.
- `Funds` (`funds.dfy`): the strategies and the per-row pipeline. Each row goes to
  the reader's dict, is cleaned, becomes `Fund(**d)`, is coerced to SQL values and
  checked against the NOT NULL constraints. This module also holds the whole batch
  (`Batch`) and the upsert, stated on the values held per name (`ApplyBatch`).
- `FundStore` (`fund_store.dfy`): the Fund table as a class holding a map from
  name to row. The invariant is that names are unique (they are the map's keys)
  and ids are distinct. `UploadFunds` upserts the batch record by record into a
  working copy and commits it only at the end, so a failure changes nothing.
- `FundViews` (`fund_views.dfy`): the list query, the page's context and the
  upload handler.
- `UploadExample` (`upload_example.dfy`): the upload scenario of
  `funds/tests/tests.py`, done twice on an empty table.

Abstractions:

- UTF-8 decoding and the database's coercion of the `aum` and `inception_date`
  texts are code the core calls but does not define. Each is a function
  parameter (`Conversions`) that may fail.
- The UUID primary key is a natural number chosen fresh, meaning not held by any
  row.
- The form's validity is a boolean parameter of `Post`.

Behaviour of `upload_funds` worth knowing:

- A data row with fewer than four fields is not an error. The missing trailing
  fields become None (DictReader's `restval`). Only a row with more than four
  fields fails. It fails because the surplus fields go under the key None, and
  `Fund(**d)` rejects a key that is not a string.
- No strategy is checked against the enumeration during an upload. `choices` is
  only checked by form or model validation, and `bulk_create` runs neither. So an
  unknown strategy text is stored as it is.
- `upload_funds` returns nothing; `UploadFunds` returns `Pass` or the error.
- The header is not always the first line. It is the first line that is not
  empty, because empty lines are skipped before `next(reader)` sees them.

The order in which errors are found follows the code:

1. decoding;
2. a text with no non-empty line (`StopIteration` from `next`);
3. building the Fund objects, in row order (surplus fields);
4. preparing the SQL values, row by row, aum before inception date;
5. executing the statement (NOT NULL on name, then on strategy).

Two records with the same name in one file: the later one wins (last write wins).

## Model

| member | source | states |
|---|---|---|
| CsvReading.SplitLines | funds/models.py:40 | `str.splitlines`: no line it returns contains any of Python's line-break characters |
| CsvReading.SplitTerminated | funds/models.py:40 | Splitting text written as lines, each ended by "\n" or each by "\r\n" (one break), gives back exactly those lines, plus the last line without a break unless it is empty |
| CsvReading.SplitFirstLine | funds/models.py:40 | A line followed by "\n" or by "\r\n" is split off as exactly one line, and the rest is split on its own |
| CsvReading.ReadRow | funds/models.py:40 | `csv.reader` on one line: the row is empty exactly when the line is empty, and no field contains a comma |
| CsvReading.JoinReadRow | funds/models.py:40 | Parsing loses nothing: joining a line's fields with commas gives the line back |
| CsvReading.ReadRowJoin | funds/models.py:40 | Comma-free fields written as one line read back as the same fields, for every row except the single empty field |
| CsvReading.NonEmptyRows | funds/models.py:40-41 | DictReader skips empty rows: every row it yields is non-empty, and it yields none exactly when every line is empty |
| CsvReading.RowsAfterHeader | funds/models.py:42 | `next(reader)` fails (None) exactly when every line is empty; otherwise the rows left are all non-empty |
| CsvReading.HeaderDiscarded | funds/models.py:41-42 | After any number of empty lines, the first non-empty line is dropped whatever it holds, and every later non-empty line becomes a data row |
| Funds.StrategiesEnumerated | funds/models.py:10-13 | `Strategies` lists every strategy, and no two have the same value |
| Funds.RowDict | funds/models.py:41 | The reader's dict: field i goes under the i-th field name, a missing field is None, and the key None is present exactly when there are more than four fields, holding the surplus fields |
| Funds.Clean | funds/models.py:16-17 | `_clean_fund_data` keeps the same keys; a value becomes None exactly when it is falsy, and every other value is unchanged |
| Funds.CleanIdempotent | funds/models.py:17 | Cleaning a cleaned dict gives the same dict |
| Funds.CandidateOf | funds/models.py:41-45 | A row becomes name, strategy, aum and inception date by position, each None when missing or empty; more than four fields is the ExtraFields error |
| Funds.MapAll | funds/models.py:45 | The generator fed to `bulk_create` stops at the first failure: success exactly when every element succeeds, then the results pair up one to one and in order; on failure, the error is that of the first failing element |
| Funds.FromKwargs | funds/models.py:45 | `Fund(**d)`: fails with ExtraFields exactly when the dict has the key None; otherwise each field is set exactly when the dict holds a text under its name, to that text |
| Funds.Prepare | funds/models.py:35-36 | SQL coercion of one Fund: it succeeds exactly when every present aum and date text converts. A bad aum is reported as InvalidAum with its text, before any date error; with the aum good, a bad date is InvalidInceptionDate with its text. On success name and strategy are unchanged, a present aum is `toAum` of its text and a present date `toDate` of its text, and a NULL stays NULL |
| Funds.NotNull | funds/models.py:28-34 | The NOT NULL constraints: the row is stored exactly when name and strategy are both set; a NULL name is NullName, checked before strategy, then NullStrategy; a stored record carries the prepared values unchanged |
| Funds.Batch | funds/models.py:40-49 | Undecodable bytes fail with DecodeError; decoded text without a non-empty line fails with MissingHeader |
| Funds.BatchOfRows | funds/models.py:28-49 | Once the text is decoded and has a header, the upload succeeds exactly when every data row is accepted (at most four fields, non-empty name and strategy, and the aum and date texts convert); the batch is then one record per data row, in file order, built from that row's fields by position |
| Funds.EmptyNameOrStrategyFails | funds/models.py:17-34 | A data row with a missing or empty name or strategy makes the upload fail |
| Funds.ApplyBatch | funds/models.py:44-49 | The upsert never drops a name, and the last record of the batch always holds its values afterwards |
| Funds.LastFor | funds/models.py:44-48 | There is no value for a name exactly when no record of the batch has that name |
| Funds.LastForIsLast | funds/models.py:44-48 | The value found for a name is that of a record with that name, and no later record has that name |
| Funds.ApplyBatchValues | funds/models.py:44-49 | After the upsert, the names are the old names plus the batch's; a name of the batch holds its last record's values; every other name keeps its old values |
| Funds.UpsertedValues | funds/models.py:44-49 | Every name of the batch ends up with its last record's values, and a name outside the batch keeps its values |
| Funds.ApplyBatchIdempotent | funds/models.py:44-49 | Upserting the same batch a second time leaves the values the first upsert left |
| FundStore.UpsertedRows | funds/models.py:44-49 | After an upload the table's names are the old ones plus the file's. A name from the file holds that record's strategy, aum and date. A row whose name is not in the file is unchanged, id included |
| FundStore.UploadTwice | funds/tests/tests.py:134-142 | Uploading the same batch twice leaves exactly the rows the first upload left, ids included, so the count is the same |
| FundStore.FundTable.constructor | funds/models.py:20-36 | A new table is empty and satisfies the invariant |
| FundStore.FundTable.UploadFunds | funds/models.py:25-49 | Keeps the unique-name and distinct-id invariant. A failure returns the error and leaves the table unchanged. Success returns Pass, and the table then holds the upserted values: an old name keeps its id, and a new name gets an id no earlier row had |
| FundViews.WithStrategy | funds/views.py:47 | `filter(strategy=s)` keeps each fund with exactly that strategy as often as it occurs, and drops every other fund |
| FundViews.InsertByName | funds/views.py:49 | Inserting a fund adds exactly that fund |
| FundViews.InsertSorted | funds/views.py:49 | Inserting into a list sorted by name keeps it sorted |
| FundViews.OrderByName | funds/views.py:49 | `order_by("name")` returns the list sorted by name, with the same funds |
| FundViews.Queryset | funds/views.py:42-49 | `get_queryset` returns a list sorted by name. It holds each matching fund exactly as often as the table does, and no other fund. With a non-empty selection, a fund matches when its strategy equals the selection; otherwise every fund matches |
| FundViews.QuerysetMembers | funds/views.py:45-47 | With a non-empty selection, a fund is listed exactly when it is in the table with that strategy; with no selection or an empty one, a fund is listed exactly when it is in the table |
| FundViews.SortedPermutationUnique | funds/views.py:49 | With unique names, two name-sorted lists holding the same funds are equal, so the listed order is fully determined |
| FundViews.ListedNamesDistinct | funds/models.py:28 | Any list of a well-formed table's rows, each once, has distinct names |
| FundViews.QuerysetDetermined | funds/views.py:42-49 | For a list of a well-formed table's rows, the page's list is the only name-sorted list holding the funds the filter keeps |
| FundViews.NameLeTotal | funds/views.py:49 | Any two names are ordered one way or the other |
| FundViews.NameLeTransitive | funds/views.py:49 | The name order is transitive |
| FundViews.NameLeAntisymmetric | funds/views.py:49 | Two names ordered both ways are equal |
| FundViews.StrategyOptions | funds/views.py:55 | One entry per strategy in declaration order, each its value paired with whether it equals the selection |
| FundViews.OptionFlags | funds/views.py:55 | A selection equal to a strategy's value flags that entry and no other; a selection equal to no strategy's value flags none |
| FundViews.AumSum | funds/views.py:57 | A sum over funds that all have a NULL aum is 0 |
| FundViews.TotalAum | funds/views.py:56-58 | SQL `SUM(aum)` is NULL exactly when no fund has an aum, and otherwise the sum of the non-NULL values |
| FundViews.AumSumPermutation | funds/views.py:57 | The sum does not depend on the order of the funds |
| FundViews.IndexContextOf | funds/views.py:51-60 | The context holds the query's list and the strategy options. Its total is NULL exactly when no fund selected by the filter has an aum; otherwise it is the sum over those funds |
| FundViews.UnknownStrategyIsEmpty | funds/views.py:46-58 | Selecting a strategy no fund has gives an empty list and a NULL total |
| FundViews.Post | funds/views.py:69-81 | An invalid form shows the upload page without an error and leaves the table unchanged. A failed upload shows the page with the error and leaves the table unchanged. A successful upload redirects to "../list/" after the upsert |
| UploadExample.ThreeLineFile | funds/models.py:40-42 | A header line and two data lines of comma-free fields read back as the two data rows, field by field |
| UploadExample.ExampleRows | funds/tests/tests.py:122-124 | The test's file holds two data rows with the test's fields |
| UploadExample.ExampleBatch | funds/tests/tests.py:122-124 | The test's file becomes two records; the second has no aum and no inception date |
| UploadExample.ExampleCount | funds/tests/tests.py:126-132 | Uploading the file into an empty table leaves two rows, one named "Amazing Fund 1", and the other with a NULL aum |
| UploadExample.UploadExampleTwice | funds/tests/tests.py:126-142 | Both uploads succeed; after each there are two rows, and the second fund's aum is NULL |

## Left out

- UTF-8 decoding, and the coercion of aum and inception-date texts to integers
  and dates. These are parameters of the model (`Conversions`), not defined in
  it. The model only fixes where they may fail and which error is then raised.
- Python `csv` quoting, escaping, the NUL-character error and the field size
  limit (a field over 131072 characters raises `csv.Error`). A line is split at
  every comma, as if the file holds no quote characters, and a field of any
  length is accepted.
- The `max_length` limits on `name` and `strategy`. Whether a longer text is
  rejected or cut off depends on the database engine.
- Database engine details:
  - the batch splitting some backends do, which can change which of several row
    errors is reported first;
  - the error PostgreSQL raises when one statement upserts the same name twice.
    The model chooses last write wins.
- The collation used by `order_by("name")`. Names are compared by character
  code.
- The range of the `aum` column. `IntegerField` is a 32-bit integer column on
  PostgreSQL and MySQL, so an aum outside -2147483648..2147483647 makes the
  upload fail there; SQLite stores 64-bit values. The model leaves that check to
  `toAum`, which may reject such a text, and its integers are unbounded, so it
  does not model overflow of `SUM(aum)` either.
- UUID generation. An id is any number no row holds.
- Transactions, concurrent uploads and the database's atomicity. Atomicity is
  rebuilt by committing a working copy at the end.
- The DRF API (`FundSerializer`, `FundViewSet`, `StrategyFilter`), the admin,
  the URL configuration, templates, form handling and the `get` handler of the
  upload view.
- `Fund.objects.create`, used only by the API tests.
- The `strategy, name` index declared in `Meta`. It changes no result.
- FundViews.Post: the error is given as the error value, not as the text
  `str(e)`, because the exceptions' messages come from Python and the database.
