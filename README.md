# Stock-pool updater: a Dafny model of its table logic

The updater downloads the lists of companies listed on the two Taiwanese
exchanges (TWSE and TPEx). It merges them into one stock pool of
(code, short name) rows, sorted by code, and compares this pool with the one
stored by the previous run. When the pool changed, it writes the new pool to
`股票池.csv`, commits and pushes that file, and mails a dated notice that lists
the added and the removed companies. Otherwise it only reports "no change".

This project models the table logic between the downloads and the side
effects, and proves what that logic guarantees:

- `Tables` (`tables.dfy`): rows, tables, the canonical header `代號, 名稱`, and
  the code order. A cell is a value or the missing value `NaN`. `NaN` equals
  itself (as in `isin` and `equals`) and sorts after every code (as in
  `sort_values`).
- `Merger` (`merger.dfy`): concatenation of the two downloaded tables, selection
  of `公司代號`/`公司簡稱`, renaming, and sorting by code.
- `Differ` (`differ.dfy`): the stored table (an empty table with the canonical
  header when there is no file), the added and removed companies, and the
  order-sensitive change flag.
- `Publisher` (`publisher.dfy`): the mail text, built by successive appends,
  and the decision between `Publish(table, body)` (write, stage, commit, push,
  mail, in that order) and `NoChange`. It also holds a whole run and its
  idempotence.

Inputs that come from outside the script are parameters. The two downloaded
tables are `Frame` values. The stored file is `Option<seq<Row>>`: `None` when
no file exists. The date is a string. The text layout of a list of rows is a
`Renderer` function.

Details of the code that the model keeps:

- Concatenation takes the union of the two headers, and a table lacking a
  column contributes missing values in it. So selection fails only when
  neither downloaded table has the column.
- Header labels are matched exactly, and no whitespace is trimmed.
- A commit is always attempted on publish.
- Credentials are not checked before the downloads.

## Model

| member | source | states |
|---|---|---|
| `Tables.CodeLeIsTotalOrder` | update_stock.py:48 | the order the pool is sorted by is reflexive, total, antisymmetric and transitive |
| `Merger.FreshLabels` | update_stock.py:45 | the labels contributed by the second header are exactly those the first lacks |
| `Merger.Concat` | update_stock.py:45 | the concatenated header is the union of both headers; the records are the first table's, then the second's, each at its place, with the missing value under a column its own table lacks |
| `Merger.Select` | update_stock.py:46 | selection fails exactly when a selected column is absent, and names exactly the absent ones; otherwise the header is `公司代號, 公司簡稱` and row i holds record i's code and short name |
| `Merger.Insert` | update_stock.py:48 | inserting into a sorted table keeps it sorted and adds exactly that row |
| `Merger.SortByCode` | update_stock.py:48 | the result is sorted by code and is a permutation of the input |
| `Merger.Merge` | update_stock.py:45-48 | the merge fails exactly when a column is absent from both downloaded tables, listing those columns; on success the header is `代號, 名稱`, the rows are sorted by code, and they are a permutation of the two projections concatenated (nothing dropped, added or de-duplicated) |
| `Merger.SelectOfConcat` | update_stock.py:45-46 | selecting from the concatenation gives the first table's projection followed by the second's |
| `Merger.SortedPermutationUnique` | update_stock.py:48 | two sorted permutations of a table with distinct codes are equal |
| `Merger.MergeIsTheSortedTable` | update_stock.py:48 | with distinct codes, any sorted permutation of the projected rows is the merged table, so the order does not depend on how the sort breaks ties |
| `Differ.Without` | update_stock.py:61-62 | a row is kept exactly when it is in the table and its code is not among the given codes |
| `Differ.WithoutKeepsOrder` | update_stock.py:61-62 | the kept rows form a subsequence of the table, in its order |
| `Differ.WithoutCount` | update_stock.py:61-62 | every kept row keeps all its occurrences, and every removed row keeps none |
| `Differ.DiffCodes` | update_stock.py:61-62 | the added codes are the current codes minus the stored codes, and the removed codes are the reverse difference |
| `Differ.NoDiffIffSameCodes` | update_stock.py:61-62 | there are no additions and no removals exactly when both tables have the same set of codes |
| `Differ.UnchangedHasNoDiff` | update_stock.py:61-64 | when the tables are equal there are no additions and no removals |
| `Differ.RenameIsChangeWithoutDiff` | update_stock.py:61-64 | a company renamed under the same code sets the change flag but is neither added nor removed |
| `Differ.FirstRun` | update_stock.py:53-64 | without a stored file the stored table is the empty table with header `代號, 名稱`, every current row is an addition, none is a removal, and the pool counts as changed exactly when it has rows |
| `Publisher.ComposeBody` | update_stock.py:77-81 | the appended text equals the header followed by the additions block and then the removals block, each present only when its list is non-empty |
| `Publisher.HeaderCarriesDate` | update_stock.py:77 | the header is the alert title, then ` (`, then the date, then `)` and a blank line |
| `Publisher.HeaderInjective` | update_stock.py:77 | different dates give different headers |
| `Publisher.BodyLayout` | update_stock.py:77-81 | the text opens with the header; right after it comes the additions title exactly when there are additions, and otherwise the removals title exactly when there are removals; without removals the text is the header and the additions block only; a removals block ends the text; the text is the header alone exactly when both lists are empty |
| `Publisher.Decide` | update_stock.py:64-94 | the result is `NoChange` exactly when the tables are equal, and no step is taken then; otherwise it publishes the current table with the text listing its additions and removals |
| `Publisher.Run` | update_stock.py:45-94 | a run fails exactly when the merge fails, with the merge's error and before any step; otherwise it reports no change exactly when the merged table equals the stored one; what it publishes is the merged table (canonical header, sorted) with the text listing its additions and removals against the stored table |
| `Publisher.RunIsIdempotent` | update_stock.py:61-71 | a second run over the same downloads, with the file as the first run left it, reports no change |
| `Publisher.FirstRunPublishesEverything` | update_stock.py:53-81 | without a stored file a run publishes exactly when the merged table has rows, and its text lists the whole table as additions and has no removals block |
| `Publisher.FirstDecision` | update_stock.py:53-81 | for a table with the canonical header and no stored file: publishes exactly when the table has rows, and then publishes the table itself with the header followed by the whole table as additions |
| `Publisher.ReplacedCompanyExample` | update_stock.py:61-81 | stored 1101 A and 1102 B, current 1101 A and 1103 C: 1103 is added, 1102 is removed, and the publish text lists both |

## Left out

- Downloading the two tables (`requests.get` with a timeout, `raise_for_status`): network I/O. The tables are inputs, and a failed download is not modelled.
- CSV parsing and writing with `utf-8-sig`: library parsing. Codes are modelled as integers, the type they read back as. The stored file is taken to read back as the rows that were written. `RunIsIdempotent` rests on that.
- Column data types: `DataFrame.equals` also compares column types (for example an empty first-run table against an empty merged table). The model compares only headers and cells.
- Columns other than the two selected ones: they are dropped by the selection, and only their labels take part in the concatenation.
- Duplicate labels within one header: not modelled.
- Merger.SortByCode: the sort used is unstable, so the order among rows with the same code is unspecified. The model picks a stable order. `MergeIsTheSortedTable` shows that the choice is forced whenever codes are distinct.
- Git staging, commit and push: a foreign library. They are recorded only as the ordered `Effect` steps of a publish.
- Mail: SMTP over SSL, login, MIME headers, sender and recipient. These are network I/O. The subject is recorded in the `SendMail` step.
- Credentials from environment variables: process configuration.
- The current date (`datetime.now`, formatted as year-month-day): a parameter.
- `to_string` layout of a table: pandas formatting, modelled as the `Renderer` parameter.
- Console status lines: output only.
- Failures partway through publishing (file written but push or mail failing): not modelled. Every step is taken to succeed.
