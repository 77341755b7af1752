# Hierarchical sheet flattener, modelled in Dafny

`main.py` converts a spreadsheet holding a hierarchy into one flat CSV row per
entry. Marker cells encode the hierarchy:

- a non-empty column 0 opens a new entry (its ID);
- a non-empty column 1 opens a new group inside the entry.

`flatten_data` scans the data rows and keeps these counters:

- the group counter `cnt_alpha`. Its label is a letter, so `A` is the first group of the entry;
- the row's position `cnt_num` within the group;
- the current ID;
- the open record `entry`;
- the table `highest`, the largest position seen under each label.

Every cell after column 0 is stored in the open record under a synthetic name (column 0 is stored only as the ID, under `ID`):

- `{headers[1]}_{L}` for the cell that names a group;
- `{headers[idx]}_{L}_{n}` for every other cell.

`write_data` then builds the column list `new_headers`: the ID header, then per label in ascending order the group name and the numbered columns up to `highest[L]`. It writes every record densified over that list, with `""` for the fields the record lacks.

The project models:

- `flatten_data`, the scan;
- the derivation of `new_headers`;
- the densification.

Together they model the converter from the cell matrix to the header row and the data rows of the CSV file.

The modules follow the program:

- `Table` holds the values: cells as `Option<V>`, rows, records as maps from field name to cell, and the dense output cells. It also holds `Writes`, a sequence of dictionary stores.
- `Keys` holds the label lookup `alphabet[cnt_alpha - 1]` and the synthetic field names.
- `Grouping` is a declarative reading of the marker columns. It states, for every row, its group counter, its sequence number, its label, and the IDs in order. It is the reference the scan is proved against.
- `Flattener` holds the scan.
  - `Step` is one iteration of the row loop, as a function on the scan state. `Run` folds it over the rows and `Flatten` adds the final seal.
  - `FlattenData` is the loop itself, an imperative method built from `OpenRow` (the marker handling), `ParseRow` (the inner cell loop) and `ScanRow`. It is proved equal to `Flatten`.
  - A group counter above 26, where the Python code raises `IndexError`, is the explicit outcome `TooManyGroups`.
- `ScanFacts` holds what the scan guarantees, proved against `Grouping`:
  - one record per ID row, carrying that ID;
  - failure exactly when some group counter exceeds 26;
  - `highest` as the maximum sequence number per label;
  - every stored field name accounted for by `highest`.
- `Contents` holds what each record contains, proved against `Grouping`. The `j`-th record gathers the cells of the rows from the `j`-th ID row up to the next ID row. Each cell is stored under its field name, a later cell replaces an earlier one of the same name, and the ID is stored under `ID`.
- `Columns` holds `sorted(highest.keys())` and the three nested loops that build `new_headers`, as methods proved against the functions `LabelColumns` and `Schema`. It also holds the layout and the membership of the column list.
- `Dense` holds the comprehension `{key: entry.get(key, "") for key in new_headers}`.
- `Pipeline` holds the whole conversion and the end-to-end consequences. These include which record fields reach the output, and that the ID reaches it only under a header named `ID`.

## Model

| member | source | states |
|---|---|---|
| Table.WritesKeys | main.py:77-80 | a run of dictionary stores adds exactly the stored names and leaves every other entry unchanged |
| Table.WritesValue | main.py:77-80 | a stored value is what the dictionary holds afterwards unless a later store in the run reuses the name |
| Table.FoldedKeys | main.py:74-80 | runs of stores into an empty dictionary hold exactly the keys that some run stores |
| Table.FoldedValue | main.py:74-80 | after runs of stores, a key holds the value of its last store |
| Keys.Label | main.py:75 | `alphabet[cnt_alpha - 1]` succeeds exactly for counters up to 26 and always yields an upper-case letter |
| Keys.LabelIsAlphabetLookup | main.py:40 | counter 0 reads the last letter `Z` through Python's negative index, counters 1..26 read `A`..`Z`, larger counters fail |
| Keys.AlphabetIsLetters | main.py:40 | `string.ascii_uppercase` has 26 letters, `A` to `Z` in order |
| Keys.LabelsAscend | main.py:67 | groups opened later in an entry get strictly later letters |
| Keys.Decimal | main.py:80 | `str(cnt_num)`: a non-empty run of decimal digits, one digit exactly below 10; that the digits spell `cnt_num` is `Keys.DecimalSpells` |
| Keys.DecimalSpells | main.py:80 | the rendering spells the number most significant digit first (`DecValue`), with a leading `0` only for zero |
| Keys.DecimalOfValue | main.py:80 | every digit string without a leading zero is the rendering of the number it spells, so the rendering is `str`'s canonical form |
| Keys.DecimalInjective | main.py:80 | distinct numbers render differently |
| Keys.NameKey | main.py:77 | a group-name field is the header, `_` and the label |
| Keys.NumKey | main.py:80 | a numbered field is the header, `_`, the label, `_` and digits |
| Keys.NameKeyInjective | main.py:77 | a group-name field determines its header and label |
| Keys.NumKeyInjective | main.py:80 | a numbered field determines its header, label and number, for any headers |
| Keys.NameKeyIsNotNumKey | main.py:77-80 | a group-name field never equals a numbered field |
| Keys.SyntheticKeysAreNotId | main.py:77-80 | no synthetic field is named `ID`, so the ID written at lines 56 and 86 overwrites none |
| Grouping.Extend | main.py:54-71 | one more row extends the ID list on an ID row, resets the group counter on an ID row, increments it on a group row, and restarts or increments the sequence number |
| Grouping.IdRows | main.py:54-62 | the positions of the rows with a non-empty column 0, one per ID, each inside the input |
| Grouping.IdRowsHoldIds | main.py:62 | the `k`-th listed row holds the `k`-th ID in column 0 |
| Grouping.IdRowsAscend | main.py:52-54 | the ID rows are listed in strictly ascending input order |
| Grouping.IdRowsComplete | main.py:54 | every row with a non-empty column 0 is listed |
| Grouping.IdRowsLast | main.py:59-63 | the rows of the current ID start at the last ID row |
| Grouping.RecordRows | main.py:52-63 | the rows of the `j`-th ID run from its ID row up to the next ID row or the end of the input, with no ID row in between |
| Flattener.CellKey | main.py:76-80 | the field name of cell `idx`: `{headers[1]}_{L}` for column 1 of a row that opens a group, `{headers[idx]}_{L}_{n}` otherwise; what these names promise is stated by `Keys.NameKeyInjective`, `Keys.NumKeyInjective`, `Keys.NameKeyIsNotNumKey` and `Keys.SyntheticKeysAreNotId` |
| Flattener.PutCells | main.py:74-80 | the stores of the inner loop for cells `1 .. k-1`; stated by `Flattener.PutCellsNext`, `Flattener.PutCellsKeys` and `Flattener.PutCellsValues` |
| Flattener.PutCellsNext | main.py:74-80 | storing the cells of a row is the stores of the inner loop taken one index at a time |
| Flattener.PutCellsKeys | main.py:74-80 | storing a row's cells adds exactly their field names and keeps every other entry |
| Flattener.PutCellsValues | main.py:74-80 | each cell is found under its field name unless a later cell of the row has the same name |
| Flattener.Sealed | main.py:85-87 | the sealed records, plus the open record stamped with the current ID when there is one; stated by `ScanFacts.SealedByNewId`, `Contents.LastRecord` and `ScanFacts.FlattenRecords` |
| Flattener.Step | main.py:54-82 | one iteration of the row loop on the scan state; stated by `Flattener.StepFacts`, `ScanFacts.IdRowStartsFresh`, `Contents.OpenRecordStep` and `Contents.SealedRecordsStep`, and computed by the method `Flattener.ScanRow` |
| Flattener.Run | main.py:52 | the row loop over a prefix of the rows; stated by `ScanFacts.RunCounters`, `ScanFacts.RunSealing`, `ScanFacts.RunHighest`, `ScanFacts.RunKeys`, `ScanFacts.RunOkIff` and `Contents.RunContents` |
| Flattener.Flatten | main.py:31-89 | `flatten_data`: the row loop, then the seal of the last record; stated by `ScanFacts.FlattenRecords`, `ScanFacts.FlattenFails`, `ScanFacts.FlattenHighest`, `ScanFacts.FlattenKeys`, `Contents.FlattenContents`, `Contents.RecordFields` and `Contents.RecordValue`, and computed by the method `Flattener.FlattenData` |
| Flattener.StepFacts | main.py:52-71 | one row fails exactly when its group counter exceeds 26; an ID row seals the open record and restarts both counters; a group row increments the group counter and restarts the sequence number at 1; any other row keeps the group counter and increments the sequence number |
| Flattener.StoreCellStep | main.py:74-82 | one pass of the inner loop keeps the invariant of `ParseRow` |
| Flattener.ParseRow | main.py:74-82 | the inner loop succeeds exactly when the label exists; it then leaves the row's cells stored and `highest` raised for the label |
| Flattener.OpenRow | main.py:54-71 | the marker handling yields the counters `NextAlpha` and `NextNum`, and the current ID, open record and sealed list of `Opened` |
| Flattener.ScanRow | main.py:52-82 | one iteration of the row loop computes `Step` |
| Flattener.FailureSticks | main.py:75 | once a prefix fails, the whole scan fails |
| Flattener.FlattenData | main.py:31-89 | the loop computes `Flatten`: the scan, then the seal of the last record |
| ScanFacts.RunCounters | main.py:59-71 | after any prefix, `cnt_alpha` and `cnt_num` are the declarative group counter and sequence number of its last row |
| ScanFacts.SealedByNewId | main.py:55-57 | a new ID appends the open record, stamped with the previous ID, to the sealed list |
| ScanFacts.SealingStep | main.py:54-63 | one step keeps "one sealed record per earlier ID, in order, with that ID" |
| ScanFacts.RunSealing | main.py:52-63 | after any prefix, the sealed records are one per ID row but the last, each with its ID, and the current ID is the last ID |
| ScanFacts.FitsSnoc | main.py:67 | a prefix stays within 26 groups exactly when the shorter prefix does and the new row's counter is at most 26 |
| ScanFacts.RunOkIff | main.py:75 | the scan succeeds exactly when no row's group counter exceeds 26 |
| ScanFacts.BoundsSnoc | main.py:82 | raising `highest` for the new row keeps every row's sequence number at most `highest` of its label |
| ScanFacts.AttainedSnoc | main.py:82 | raising `highest` for the new row keeps every entry attained by some row |
| ScanFacts.RunHighest | main.py:71-82 | `highest[L]` bounds the sequence number of every row labelled `L` and equals one of them |
| ScanFacts.KeyInGrows | main.py:82 | raising counts keeps every accounted-for field name accounted for |
| ScanFacts.CellKeysIn | main.py:77-82 | the field names a row stores are accounted for once `highest` covers the row |
| ScanFacts.StepEntryKeys | main.py:74-82 | after a step, every field of the open record is a group name of a label in `highest` or a numbered field within `highest` |
| ScanFacts.StepFlatKeys | main.py:54-57 | after a step, the same holds for every sealed record, except for its `ID` field |
| ScanFacts.RunKeys | main.py:52-87 | the scan keeps every field name of every record accounted for by `highest` |
| ScanFacts.FlattenRecords | main.py:54-87 | the records are one per ID row, in input order, each with `ID` set to that row's column 0 |
| ScanFacts.FlattenFails | main.py:75 | flattening fails exactly when some row's group counter exceeds 26 |
| ScanFacts.FlattenHighest | main.py:71-82 | every entry of `highest` is an upper-case label with a count of at least 1, and it is the largest sequence number of that label |
| ScanFacts.FlattenKeys | main.py:77-87 | every record field but `ID` has a column-derivable name within `highest` |
| ScanFacts.PrefixOk | main.py:52 | if the whole scan succeeds, every prefix scan succeeds |
| ScanFacts.HighestGrows | main.py:82 | `highest` never loses a label and never decreases during the scan |
| ScanFacts.IdRowStartsFresh | main.py:59-63 | an ID row never fails; it restarts the sequence number at 1, becomes the current ID, and leaves the open record holding that row's cells only |
| Columns.SortedLabels | main.py:103 | the sorted labels are drawn from the set |
| Columns.SortedLabelsSorted | main.py:103 | `sorted(highest.keys())` lists every label exactly once, in strictly ascending order |
| Columns.SortedLabelsLength | main.py:103 | the sorted list is as long as the set |
| Columns.SortedLabelsAscend | main.py:103 | the sorted list is strictly ascending |
| Columns.SortedLabelsMembers | main.py:103 | the sorted list holds exactly the set's labels |
| Columns.AppendSuffixed | main.py:106-107 | the innermost loop appends `headers[2:]`, each suffixed `_{L}_{i}`, in header order |
| Columns.AppendGroupColumns | main.py:105-107 | the middle loop appends the numbered columns for `i = 1..highest[L]` |
| Columns.AppendLabels | main.py:103-107 | the outer loop appends, per label, its group name and numbered columns |
| Columns.DeriveSchema | main.py:100-107 | `new_headers` is the ID header followed by the label columns in ascending label order |
| Columns.Suffixed | main.py:106-107 | the innermost loop's names `{h}_{L}_{i}`, one per header; stated by `Columns.SuffixedAt` and `Columns.SuffixedMembers`, and computed by `Columns.AppendSuffixed` |
| Columns.GroupColumns | main.py:105-107 | the middle loop's names for `i = 1..m`; stated by `Columns.GroupColumnsLength`, `Columns.GroupColumnsAt` and `Columns.GroupMembers`, and computed by `Columns.AppendGroupColumns` |
| Columns.LabelColumns | main.py:103-107 | the outer loop's names, label by label; stated by `Columns.LabelColumnsLength`, `Columns.LabelColumnsAt`, `Columns.LabelMembersSound`, `Columns.LabelMembersComplete`, `Columns.NameInLabelColumns` and `Columns.NumInLabelColumns`, and computed by `Columns.AppendLabels` |
| Columns.Schema | main.py:100-107 | `new_headers`; stated by `Columns.SchemaLayout`, `Columns.BlockAt` and `Columns.SchemaMembers`, and computed by `Columns.DeriveSchema` |
| Columns.SuffixedAt | main.py:106-107 | position `j` of a suffixed run is `{headers[j]}_{L}_{i}` |
| Columns.GroupColumnsLength | main.py:105-107 | a label has `highest[L] * len(headers[2:])` numbered columns |
| Columns.GroupColumnsAt | main.py:105-107 | numbered column `(n-1)*len(headers[2:]) + (j-2)` of a label is `{headers[j]}_{L}_{n}` |
| Columns.LabelColumnsLength | main.py:103-107 | the label columns have the summed width `Σ (1 + highest[L] * len(headers[2:]))` |
| Columns.LabelColumnsAt | main.py:103-107 | each label's block starts where the blocks of the earlier labels in the list end |
| Columns.SchemaLayout | main.py:100-107 | `new_headers` starts with `headers[0]`, has length `1 + Σ (1 + highest[L] * len(headers[2:]))`, and holds each label's block at its offset in ascending label order |
| Columns.BlockAt | main.py:104-107 | a label's block is its group name, then `{headers[j]}_{L}_{n}` at position `1 + (n-1)*len(headers[2:]) + (j-2)` |
| Columns.SuffixedMembers | main.py:106-107 | a name is in a suffixed run exactly when it is `{h}_{L}_{i}` for one of its headers |
| Columns.GroupMembers | main.py:105-107 | a name is among a label's numbered columns exactly when it is `{headers[j]}_{L}_{n}` with `j >= 2` and `1 <= n <= highest[L]` |
| Columns.LabelMembersSound | main.py:103-107 | every label column is a group name or a numbered column of one of the labels |
| Columns.NameInLabelColumns | main.py:104 | every label's group name is a label column |
| Columns.NumInLabelColumns | main.py:105-107 | every numbered column of every label within its count is a label column |
| Columns.LabelMembersComplete | main.py:103-107 | every group name and numbered column of the labels is a label column |
| Columns.SchemaMembers | main.py:100-107 | a name is in `new_headers` exactly when it is `headers[0]`, a group name of a label, or `{headers[j]}_{L}_{n}` with `j >= 2` and `n <= highest[L]` |
| Dense.Lookup | main.py:116 | `entry.get(key, "")`: the record's cell under the key, blank when the key is absent; stated by `Dense.DensifyColumns` and `Dense.DensifyRecovers` |
| Dense.Densify | main.py:116 | a densified record has one cell per column |
| Dense.Restrict | main.py:116 | restricting a record to the columns keeps exactly its fields that are columns |
| Dense.DensifyRecovers | main.py:116 | the fields read back off a dense row are exactly the record's fields that are columns, with their values |
| Dense.DensifyColumns | main.py:116 | cell `j` is column `j` of `new_headers`, blank exactly when the record lacks it; a name outside the columns is dropped; a field inside them appears with its value |
| Dense.DensifyIsDict | main.py:116 | a column name listed twice gets the same cell both times, as in a dictionary |
| Pipeline.Convert | main.py:114-117 | the header row and the dense rows of the CSV file, or `TooManyGroups`; stated by `Pipeline.ConvertRows`, `Pipeline.IdColumn` and `Pipeline.FieldsReachOutput` |
| Pipeline.DenseRows | main.py:114-117 | one dense row per record |
| Pipeline.ConvertRows | main.py:114-117 | the CSV has one data row per ID row, and the conversion fails exactly when some row's group counter exceeds 26 (rows before the first ID included) |
| Pipeline.IdColumn | main.py:116 | `ID` is a column exactly when `headers[0]` is `ID`, and then every row carries its ID there |
| Pipeline.ContinuationColumn | main.py:104-107 | column 1 of a row that does not open a group, stored as `{headers[1]}_{L}_{n}`, is a column only by a name coincidence |
| Pipeline.FieldReachesRow | main.py:116 | an accounted-for field whose name does not have the form `{headers[1]}_{L}_{n}` is a column and reaches the dense row with its value |
| Pipeline.FieldsReachOutput | main.py:114-117 | every record field other than `ID` whose name does not have the form `{headers[1]}_{L}_{n}` is a column of the output, and its value is in the record's row |
| Contents.RecordOf | main.py:54-87 | the record of the `j`-th ID: the cells of its rows stored in turn under their field names, then the ID under `ID`; stated by `Contents.FlattenContents`, `Contents.RecordFields` and `Contents.RecordValue` |
| Contents.GatherKeys | main.py:74-80 | the names stored from a run of rows are exactly the field names of their cells |
| Contents.GatherValue | main.py:74-80 | the value stored under a field name is the cell of the last cell in the run stored under that name |
| Contents.OpenRecordStep | main.py:54-80 | one row keeps the open record equal to the cells of the current ID's rows, stored in turn |
| Contents.SealedRecordsStep | main.py:54-63 | one row keeps the sealed list equal to the records of every earlier ID, in order |
| Contents.RunContents | main.py:52-82 | after any prefix that succeeds, the open record holds the stored cells of the current ID's rows and the sealed list holds the record of every earlier ID |
| Contents.FlattenContents | main.py:31-89 | `flatten_data` succeeds exactly when no group counter exceeds 26, and then returns one record per ID row, the `j`-th being the record of the `j`-th ID |
| Contents.RecordFields | main.py:52-87 | the `j`-th record's rows run from its ID row to the next ID row; `ID` holds its ID; any other name is present exactly when it is the field name of a cell `c >= 1` of one of those rows |
| Contents.RecordValue | main.py:74-80 | the `j`-th record's value under a field name is the cell of the last of its rows' cells stored under that name |
| Contents.FieldIsNotId | main.py:76-86 | no cell is stored under `ID`, so the ID stamped at line 86 replaces no cell |

## Left out

- Reading the workbook (`load_excel`, `main.py:7-29`) uses a foreign library. The model takes its result as its input: the header row `headers` and the data rows `lines`.
- Cells are an opaque type `V`, with an empty cell as `None`. Their string, number or date nature plays no part in the algorithm.
- Headers are taken as the strings the f-strings render. How Python renders a non-string header, such as `None` as `"None"`, is not modelled.
- Writing the CSV file (`open`, `csv.DictWriter`, quoting, `main.py:110-117` apart from line 116) is I/O. The model stops at the header row and the dense rows (`Pipeline.Convert`).
- Argument parsing and the `print` calls (`main.py:120-134`) are left out.
- Flattener.Run: requires every row to have between 2 and `len(headers)` cells. An empty row makes `row[0]` (line 54) raise `IndexError`; a one-cell row makes `row[1]` (line 66) raise it; a row longer than `headers` makes `headers[idx]` (lines 77 and 80) raise it. The model does not represent those crashes.
- Pipeline.Convert: requires a non-empty header row, because `headers[0]` raises otherwise.
- Flattener.FlattenData: the `IndexError` raised for a 27th group is the result `TooManyGroups`. The exception's propagation through the script is not modelled.
- Records are maps. The insertion order of a Python dictionary is not modelled. It does not affect the output, because the writer orders each row by `new_headers`.
- The row loop's body is split into the methods `OpenRow`, `ParseRow` and `ScanRow`. The schema loops are the three methods `AppendLabels`, `AppendGroupColumns` and `AppendSuffixed`, with one loop each.
- The writer's row loop (`main.py:114-117`) is the function `Pipeline.DenseRows`, since it only hands each row to the CSV writer.
- Record count: a repeated ID in column 0 gives one record per ID row, not one per distinct ID, because every row with a non-empty column 0 starts a new record (`main.py:54-63`). The model follows the code (`ScanFacts.FlattenRecords`, `Contents.FlattenContents`, `Pipeline.ConvertRows`).
