# Textract result projections

This project models the core of `TextractController`, an ASP.NET controller
that sends a document to AWS Textract and turns the answer into a small JSON
shape. The service calls themselves are not modelled. The model covers the
pure projections applied to their results:

- **Document endpoint** (`GetDocumentResult`). It takes a flat list of
  `Block`s and first builds an id dictionary, which throws on a repeated id.
  It then projects:
  - the answer to the first QUERY block,
  - the form's key/value pairs (KEY_VALUE_SET blocks in the KEY role),
  - each TABLE's rows (cells sorted by row, then column, and grouped by row).
- **`CreateText`**. It renders a block as text: the words and check boxes
  named by its first CHILD relationship, joined with single spaces.
- **Expense endpoint** (`GetExpenseResult`). It takes AnalyzeExpense
  documents and projects:
  - summary label/value pairs,
  - the line items' rows, without the whole-row `EXPENSE_ROW` field.

Modules, in dependency order:

| file | module | contents |
|---|---|---|
| `wrappers.dfy` | `Wrappers` | `Option` (a C# `null`) and `Result` (an exception) |
| `seqs.dfy` | `Seqs` | LINQ `Where`, `FirstOrDefault` and a `Select` whose projection may throw, with their laws; `Flatten`, which reads a grouped table back row by row |
| `strings.dfy` | `Strings` | `string.Join`, its inverse `Split`, and ASCII case-insensitive equality |
| `blocks.dfy` | `Blocks` | The Textract block model, id-list lookups, and `ToDictionary` |
| `text_resolver.dfy` | `TextResolver` | `CreateText` |
| `cell_order.dfy` | `CellOrder` | `OrderBy(RowIndex).ThenBy(ColumnIndex)` as a stable sort, and `GroupBy(RowIndex)` |
| `document.dfy` | `Document` | Queries, Form, Tables, and the document endpoint |
| `expense.dfy` | `Expense` | Summaries, line-item rows, and the expense endpoint |
| `scenarios.dfy` | `Scenarios` | Two concrete block lists and their projections |

A C# `null` is `None`. A null dereference, or a `ToDictionary` on a
repeated key, is a `Failure` naming the cause. The model follows the
controller's code as written:

- **Ticked boxes read "false".** A selection element's status is compared
  with the block-type constant `SELECTION_ELEMENT`, not with `SELECTED`.
  The SDK's constant comparison ignores case, and a real status never
  equals that name. So `SELECTED` and `NOT_SELECTED` both render as
  `"false"` (`TextResolver.Fragment`, `Scenarios.SelectedBoxReadsFalse`).
- **Only the first query is returned.** `Queries` is the first QUERY
  block's projection, or `null` when there is none. It is not a list.
- **Collection order wins.** Every lookup by id scans the whole block
  collection and keeps the blocks whose id is listed. So text, answers and
  cells come in the collection's order. The order of the id list does not
  matter, and ids that name no block are skipped silently.
- **The id dictionary can fail.** It is never read, but building it still
  throws on a repeated id. That happens before anything else is projected.

## Model

| member | source | states |
|---|---|---|
| Blocks.RelatedIds | CSharp/TextractNet/Controllers/TextractController.cs:186-187 | The ids come from the first relationship of the requested type. Later relationships of that type are ignored. There is no list (null) exactly when no relationship has that type. |
| Blocks.Resolve | CSharp/TextractNet/Controllers/TextractController.cs:189-190 | Every block found is a block of the collection whose id is in the list. |
| Blocks.ResolveFindsAll | CSharp/TextractNet/Controllers/TextractController.cs:189-190 | A block is found if and only if it is in the collection and listed. It is found as often as it occurs in the collection. |
| Blocks.ResolveDependsOnlyOnIdSet | CSharp/TextractNet/Controllers/TextractController.cs:189-190 | Two id lists that agree on which of the collection's ids they hold find the same blocks, whatever their order, repetitions or dangling ids. |
| Blocks.ResolveFollowsCollection | CSharp/TextractNet/Controllers/TextractController.cs:189-190 | The lookup distributes over concatenation of the collection, so results follow collection order. |
| Blocks.FirstListed | CSharp/TextractNet/Controllers/TextractController.cs:140-142 | Gives null exactly when no block is listed. Otherwise gives the earliest listed block of the collection. |
| Blocks.FirstListedIsHeadOfResolve | CSharp/TextractNet/Controllers/TextractController.cs:140-142 | The first listed block is the first block of the same collection scan that finds a block's children. |
| Blocks.FirstDuplicate | CSharp/TextractNet/Controllers/TextractController.cs:106 | Gives no position exactly when the ids are distinct. Otherwise gives the first block whose id already occurred, with all earlier ids distinct. |
| Blocks.ToDictionary | CSharp/TextractNet/Controllers/TextractController.cs:106 | Succeeds if and only if the ids are distinct. On success, the keys are exactly the ids and each id maps to its block. On failure, it names the first repeated id, the one `FirstDuplicate` finds. |
| TextResolver.Fragment | CSharp/TextractNet/Controllers/TextractController.cs:192-205 | A WORD gives its text, null included. A selection element gives "true" exactly when it has a status equal to "SELECTION_ELEMENT" ignoring case, and "false" otherwise, so SELECTED, NOT_SELECTED and no status all give "false". Any other block type gives null. |
| TextResolver.FragmentIgnoresStatusCase | CSharp/TextractNet/Controllers/TextractController.cs:197 | Two selection elements whose statuses differ only in letter case give the same fragment. |
| TextResolver.CreateText | CSharp/TextractNet/Controllers/TextractController.cs:184-208 | With no matched children the text is empty. Its length is the fragments' total length plus one space between each pair. It is empty exactly when at most one child matched and that child's fragment is empty or null. |
| TextResolver.CreateTextWithoutChildRelationship | CSharp/TextractNet/Controllers/TextractController.cs:186-190 | A block without a CHILD relationship has empty text. |
| TextResolver.CreateTextAllDangling | CSharp/TextractNet/Controllers/TextractController.cs:189-190 | Ids that name no block are skipped. When none names a block, the text is empty. |
| TextResolver.CreateTextSplits | CSharp/TextractNet/Controllers/TextractController.cs:207 | If at least one child matched and no fragment contains a space, splitting the text at spaces gives back the matched children's fragments in collection order. The text then holds exactly one space fewer than there are children. |
| TextResolver.CreateTextIgnoresIdListOrder | CSharp/TextractNet/Controllers/TextractController.cs:186-190 | Two blocks whose CHILD lists agree on which of the collection's ids they hold have the same text, whatever their order, repetitions or dangling ids. |
| Strings.Join | CSharp/TextractNet/Controllers/TextractController.cs:207 | The joined length is the total part length plus one separator between each pair of parts. The result is empty exactly when there is at most one part and it is empty. |
| Strings.SplitJoin | CSharp/TextractNet/Controllers/TextractController.cs:207 | Splitting a join of one or more separator-free parts gives back the parts. |
| Strings.JoinSeparatorCount | CSharp/TextractNet/Controllers/TextractController.cs:207 | A join of n ≥ 1 separator-free parts holds n - 1 separators. |
| Document.AnswerText | CSharp/TextractNet/Controllers/TextractController.cs:115-127 | The answer is the raw text of the earliest block named by the query's first ANSWER relationship. It is null when no block is named. |
| Document.AnswerWithoutRelationship | CSharp/TextractNet/Controllers/TextractController.cs:118-125 | A query without an ANSWER relationship has no answer. |
| Document.FirstQuery | CSharp/TextractNet/Controllers/TextractController.cs:110-129 | Gives null exactly when there is no QUERY block. Fails exactly when the first QUERY block lacks its query object, naming that block. Otherwise gives that first block's question and answer. |
| Document.ValueText | CSharp/TextractNet/Controllers/TextractController.cs:137-149 | The value is null exactly when no block is named by the key's first VALUE relationship. Otherwise it is the text of the earliest such block. |
| Document.Form | CSharp/TextractNet/Controllers/TextractController.cs:131-156 | There is one entry per KEY block, in collection order. Each entry pairs the key's text with its value text. |
| Document.FormKeyBlocks | CSharp/TextractNet/Controllers/TextractController.cs:131-132 | The form's key blocks are exactly the collection's KEY_VALUE_SET blocks in the KEY role, with the same multiplicity and in collection order. |
| CellOrder.SortCells | CSharp/TextractNet/Controllers/TextractController.cs:169-170 | The cells come out ordered by row, then column, as a permutation of the input. |
| CellOrder.SortCellsStable | CSharp/TextractNet/Controllers/TextractController.cs:169-170 | Cells at the same position keep their input order. |
| CellOrder.SortCellsIsTheStableSort | CSharp/TextractNet/Controllers/TextractController.cs:169-170 | Any ordered arrangement that keeps input order per position equals the sort's output, so the sort is fully determined. |
| CellOrder.GroupByRow | CSharp/TextractNet/Controllers/TextractController.cs:171 | Every group is non-empty. The lemma rows below state how the groups relate to the input. |
| CellOrder.GroupsOnOneRow | CSharp/TextractNet/Controllers/TextractController.cs:171 | All cells of a group share one row index. |
| CellOrder.GroupRowsDistinct | CSharp/TextractNet/Controllers/TextractController.cs:171 | No two groups have the same row index. |
| CellOrder.GroupByRowOfSortedFlattens | CSharp/TextractNet/Controllers/TextractController.cs:169-171 | On sorted cells, the groups concatenated give back the input, so every cell lands in exactly one group, in order. |
| CellOrder.GroupByRowOfSortedAscends | CSharp/TextractNet/Controllers/TextractController.cs:169-171 | On sorted cells, the groups' row indices strictly ascend. |
| CellOrder.GroupByRowKeepsSorted | CSharp/TextractNet/Controllers/TextractController.cs:169-171 | On sorted cells, each group is sorted by column. |
| Document.CellGridShape | CSharp/TextractNet/Controllers/TextractController.cs:167-171 | A table's grid has no empty rows. Each row shares one row index and ascends by column. Row indices strictly ascend. Read row by row, the grid is the stable sort of the table's children. |
| Document.RenderRow | CSharp/TextractNet/Controllers/TextractController.cs:173-174 | There is one string per cell of the row: that cell's text. |
| Document.TableOf | CSharp/TextractNet/Controllers/TextractController.cs:160-180 | There is one rendered row per grid row, in grid order. |
| Document.Tables | CSharp/TextractNet/Controllers/TextractController.cs:158-180 | There is one entry per TABLE block, in collection order. |
| Document.GetDocumentResult | CSharp/TextractNet/Controllers/TextractController.cs:106-181 | A repeated id fails first, naming that id. With distinct ids, the result succeeds exactly when the first query can be projected, and then holds that query, the form and the tables. Otherwise it fails with the query's error. |
| Expense.SummaryOf | CSharp/TextractNet/Controllers/TextractController.cs:49-61 | The key is the label text when that is non-null, otherwise the type's text. The value is the value detection's text. It fails exactly when the value detection is missing, or when both label text and type are missing. The error is `MissingType` in the second case (the key is read first), otherwise `MissingValue`. |
| Expense.Summaries | CSharp/TextractNet/Controllers/TextractController.cs:48-61 | There is one summary per field, in order. It succeeds exactly when every field's summary does. Otherwise it fails with the error of the first failing field. |
| Expense.Kept | CSharp/TextractNet/Controllers/TextractController.cs:66 | The filter needs a type. When there is one, it keeps the field exactly when the type's text is not EXPENSE_ROW. |
| Expense.ColumnOf | CSharp/TextractNet/Controllers/TextractController.cs:67-71 | A column needs both a label and a value detection. It holds their texts. A missing label fails with `MissingLabel`; a present label with a missing value fails with `MissingValue`. |
| Expense.Rows | CSharp/TextractNet/Controllers/TextractController.cs:65-71 | The lazy filter-and-project pass succeeds exactly when every field has a type and every kept field has a label and a value. |
| Expense.RowsAreKeptColumns | CSharp/TextractNet/Controllers/TextractController.cs:65-71 | When the pass succeeds, its rows are exactly the kept fields' columns, in order. Filtering first and then projecting gives the same rows. |
| Expense.RowsFailAtFirstBadField | CSharp/TextractNet/Controllers/TextractController.cs:65-71 | When the pass fails, there is a field before which every field is fine; that field has no type and the error is `MissingType`, or it is kept and the error is its column's error. |
| Expense.LineItemOf | CSharp/TextractNet/Controllers/TextractController.cs:63-72 | A line item's rows can be built exactly when every field has a type and every kept field has a label and a value. They are then the rows of the lazy filter-and-project pass over its fields; otherwise the error is that pass's error. |
| Expense.LineItemTables | CSharp/TextractNet/Controllers/TextractController.cs:63-72 | There is one table per group and one entry per line item. It succeeds exactly when every line item does. Entry j of table i is then the rows of item j of group i. |
| Expense.LineItemTablesFailAtFirstBadItem | CSharp/TextractNet/Controllers/TextractController.cs:63-72 | When the projection fails, its error is that of the first line item, in group order and then item order, whose rows cannot be built. |
| Expense.DocumentOf | CSharp/TextractNet/Controllers/TextractController.cs:46-73 | A document's result succeeds exactly when both its summaries and its tables do, and then holds them. Otherwise the summaries' error wins, then the tables'. |
| Expense.GetExpenseResult | CSharp/TextractNet/Controllers/TextractController.cs:45-73 | There is one result per expense document, in order. It succeeds exactly when every document does. |
| Expense.GetExpenseResultFailsAtFirstBadDocument | CSharp/TextractNet/Controllers/TextractController.cs:45-73 | When the endpoint fails, its error is that of the first expense document whose result cannot be built; every earlier document succeeds. |
| Scenarios.NameAliceForm | CSharp/TextractNet/Controllers/TextractController.cs:131-156 | A KEY block with word "Name", whose VALUE block holds word "Alice", gives the single entry ("Name", "Alice"). |
| Scenarios.SelectedBoxReadsFalse | CSharp/TextractNet/Controllers/TextractController.cs:195-198 | A block whose children are a SELECTED box and the word "Married" reads "false Married". |

## Left out

- The AWS calls (`AnalyzeExpenseAsync`, `AnalyzeDocumentAsync`) are not modelled. Their responses are the inputs of the model.
- The constructor's file read, ASP.NET routing, `Ok(...)` and JSON serialisation are not modelled.
- `async`/`await` is not modelled.
- The TypeScript client `TS/app/main.ts` is not part of this model.
- LINQ's laziness is flattened into eager evaluation. A null dereference inside `Select`/`Where` is raised during serialisation in the source, except in `Queries`, whose `FirstOrDefault` (line 129) runs the projection inside the action; either way it is modelled as a `Failure` of the whole projection. The first failing element, in serialisation order, decides the error.
- A null list is not modelled: the response's `Blocks` (lines 106, 110, 131, 158), a block's `Relationships`, `EntityTypes` and a relationship's `Ids`, and on the expense side `ExpenseDocuments` (45), `SummaryFields` (48), `LineItemGroups` (63), `LineItems` (63) and `LineItemExpenseFields` (65). The model uses sequences, so each reads as a list, and the `NullReferenceException` a null one would raise is not modelled.
- Blocks.Listed: the id test is ordinary sequence membership. A `null` id is not modelled.
- Blocks.ToDictionary: a `null` block id, on which `ToDictionary` throws `ArgumentNullException`, is not modelled; ids are plain strings.
- Strings.EqualsIgnoreCase: folds ASCII letters only. .NET's ordinal case-insensitive comparison also folds non-ASCII letters. The only comparison it serves is with the all-ASCII constant `SELECTION_ELEMENT`.
- `RowIndex` and `ColumnIndex` are nullable in the SDK. They are modelled as plain integers, reading 0 when unset. The 32-bit width is not modelled, because the indices are only compared.
- Block fields the projections never read (geometry, confidence, page) are not modelled.
- The answer text, the key text, word text and selection status are taken as given strings. No Unicode handling is modelled.
