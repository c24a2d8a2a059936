# A Dafny model of the Nette Database data source for Ublaboo DataGrid

The data source wraps one hand-written SQL `SELECT` that holds positional `?` bind
placeholders, together with the bind values supplied alongside it. The grid then narrows,
sorts and pages that query. Each change goes through `QueryHelper`, which keeps the parsed
query and rewrites it clause by clause.

- **Adding a condition.** `applyWhere` appends `column operator marker` to WHERE. The marker is
  `_?` + a 13-character `uniqid()` + `?_`. The helper re-renders the query. The data source
  counts the `?` characters in front of the marker and inserts the bound value at that
  position in its value list.
- **Sending the query.** Before anything is sent, every marker is rewritten to a single `?`.

This model has the following parts:

- **`Strings`**: PHP string helpers. `substr_count`, `implode`, `explode` on one character,
  `trim`, and the text in front of the first occurrence of a needle.
- **`Markers`**: the marker and the `preg_replace('/_\?\w{13}\?_/', '?', …)` rewrite
  (`Resolve`). `Placeholders(s)` is the number of `?` that `s` holds once rewritten, which is
  what the database sees.
- **`Statements`**: the parsed query as a record. It has its SELECT and FROM text, the WHERE
  node list, the rest (GROUP BY, HAVING), ORDER and LIMIT. It also has the rendering the SQL
  creator makes of it, and the pure effect of each helper mutation.
- **`Helper`**: the class `QueryHelper`, whose methods update `query` in place and return the
  re-rendered text.
- **`Engine`**: bind values and the splice. `WhereStep` is one `applyWhere` on the pair of query
  and values. `Aligned` says that the rewritten SQL holds exactly as many `?` as there are
  values. The lemmas say when each operation keeps that count, and when each value also sits
  at its own placeholder.
- **`Filters`**: the conditions built by the range, date-range and text filters. It includes
  the `applyFilterText` loops as methods, proved against the predicate and argument functions
  they build.
- **`DataSource`**: the class `NetteDatabaseDataSource`. Its fields are `sql`, the value list
  and the helper. Every filter, sort, limit and count operation is a method. Each states the
  new state, what `sql` becomes, and when it keeps `InStep`: the values are aligned with the
  placeholders of the helper's query, and nothing after its WHERE clause holds a `?`. The
  constructor establishes `InStep` whenever the given query and values satisfy it.

The model follows the code where it departs from the behaviour one would expect:

- **Where the marker stays.** The marker is not turned into `?` in the stored statement. It
  stays in the helper's query and in `sql`, and is rewritten only on the way out, in
  `getQuery` and `query`.
- **Count and position after a condition.** Adding a condition with a fresh marker and a
  non-null value always keeps the count: one placeholder and one value more
  (`WhereStepKeepsCount`). The position is another matter. The code counts raw `?` characters
  in front of the new marker, and an earlier marker contributes two of them. So when an
  earlier condition's marker is followed by a placeholder, the value lands too far right, out
  of order with the placeholders (`WhereStepOvershoot`). When nothing after WHERE holds a `?`
  (`TailFree`), each new marker is the last placeholder and the splice appends
  (`WhereStepAligned`). Then, through any series of calls, the `j`-th value sits at the index
  of the `j`-th new marker's placeholder (`WhereAllPositions`).
- **Null values.** `array_splice` casts its replacement to an array, and `(array)null` is
  empty. So a null value is dropped whenever a `?` precedes its marker, although the SQL
  gains a placeholder (`WhereStepDropsNull`, `NullDroppedExample`). Only a null that goes
  first, by `array_unshift`, is kept. The alignment lemmas therefore assume non-null values.
- **Text filter.** There is no `=`/whole-value option for the text filter. The code always
  uses `LIKE ?` with `%word%` and splits the value on single spaces.
- **Single-column text filter.** When the text filter covers a single column, the code hands
  `whereSql` the PHP array of groups. PHP converts it to the string `Array`. The predicate
  then holds no placeholder, although the arguments are still appended
  (`SingleColumnPassesArray`).
- **Results that are not stored.** The text returned by `whereSql` (text filter) and by
  `limit` is not stored in `sql`.
- **Filters the code lacks.** There is no multi-select filter and no per-filter callback in
  this code.

## Model

| member | source | states |
|---|---|---|
| Helper.QueryHelper.constructor | src/QueryHelper.php:23-29 | the helper keeps the parsed query with its WHERE list folded as `prepare` folds it |
| Helper.QueryHelper.Prepare | src/QueryHelper.php:37-56 | a WHERE list of more than one node becomes a single bracket node. Its text is `(` + the trimmed, space-joined node texts + `)` and its sub-tree is the old list. Other clauses are unchanged |
| Statements.Folded | src/QueryHelper.php:37-56 | a list of at most one node is kept; otherwise one bracket node holding the list, with the trimmed joined text in brackets |
| Statements.FoldedIdempotent | src/QueryHelper.php:37-56 | folding an already folded WHERE list changes nothing |
| Statements.FoldedPlaceholders | src/QueryHelper.php:37-56 | folding keeps the number of placeholders WHERE renders to |
| Engine.PrepareAligned | src/QueryHelper.php:28 | folding WHERE at construction keeps the values aligned with the placeholders |
| Engine.WhereReplaced | src/QueryHelper.php:37-56 | replacing WHERE by a list with as many placeholders leaves the placeholders of the rendering unchanged |
| Strings.TrimLeadingSpace | src/QueryHelper.php:49-52 | the leading space the loop puts before the first node text is removed by `trim` |
| Strings.Trim | src/QueryHelper.php:52 | `trim` removes whitespace at both ends only, and what it keeps starts and ends with a non-whitespace character (`TrimSlice` gives the slice) |
| Statements.PlaceholdersTrim | src/QueryHelper.php:52 | `trim` neither adds nor removes a placeholder |
| Helper.QueryHelper.GetCountSelect | src/QueryHelper.php:59-83 | renders a copy whose projection is `COUNT(*) AS count`; the stored query is not changed |
| Statements.CountStatementTokens | src/QueryHelper.php:59-83 | the count query differs from the query only in its projection |
| Statements.CountStatementPlaceholders | src/QueryHelper.php:59-83 | the count query has the query's placeholders minus those in the replaced projection |
| Statements.CountProjectionPlaceholders | src/QueryHelper.php:63-80 | `COUNT(*) AS count` holds no placeholder |
| Statements.CountStatement | src/QueryHelper.php:61-80 | the count query has `COUNT(*) AS count` as its projection and is otherwise the stored query |
| Helper.QueryHelper.Limit | src/QueryHelper.php:86-94 | LIMIT becomes the given offset and row count, nothing else changes, and the rendering of the new query is returned |
| Helper.QueryHelper.OrderBy | src/QueryHelper.php:97-111 | ORDER becomes the single given column and direction, nothing else changes, and the new rendering is returned |
| Helper.QueryHelper.Where | src/QueryHelper.php:114-179 | WHERE gets `[AND,] column operator value` appended, nothing else changes, and the new rendering is returned |
| Statements.AddCondition | src/QueryHelper.php:114-176 | the old nodes are kept as a prefix, followed by AND only when WHERE was not empty, then the column reference, the operator and the constant |
| Statements.ColumnRefParts | src/QueryHelper.php:129-157 | a column reference has two parts when the name holds a dot and one otherwise; the parts hold no dot and joined by `.` give its text |
| Statements.ColumnRefPrefix | src/QueryHelper.php:133-137 | the reference text is a prefix of the column, and equal to it exactly when the column has at most one dot (`list` drops the rest) |
| Statements.ColumnRef | src/QueryHelper.php:129-157 | the node `where` builds for the column is a column reference (its parts and text are stated by `ColumnRefParts` and `ColumnRefPrefix`) |
| Helper.QueryHelper.WhereSql | src/QueryHelper.php:182-200 | WHERE gets `[AND,]` and the parsed node appended, nothing else changes, and the new rendering is returned |
| Statements.AddNode | src/QueryHelper.php:184-197 | the old nodes are kept as a prefix, followed by AND only when WHERE was not empty, then the node |
| Helper.HelperSql | src/QueryHelper.php:194 | the helper text is the 24-character `SELECT * FROM TEMP WHERE` directly followed by the fragment, with no space between |
| Engine.AddNodePlaceholders | src/QueryHelper.php:184-197 | appending a node adds exactly its placeholders to WHERE |
| Statements.RenderPlaceholders | src/QueryHelper.php:93 | the placeholders of a rendering are those of its head, WHERE and tail together |
| DataSource.NetteDatabaseDataSource.constructor | src/NetteDatabaseDataSource.php:53-63 | keeps the SQL and the arguments after the connection and the SQL; the helper holds the folded query; alignment and a placeholder-free tail carry over from the given query, so a data source built from such a query starts in step |
| DataSource.NetteDatabaseDataSource.GetQuery | src/NetteDatabaseDataSource.php:66-71 | returns the values as they are and the rewrite of `sql`, never longer than it; what the rewrite does to a marker and to the text around it is stated by `ResolveMarker`, `ResolveNoQuestion` and `PlaceholdersSep` |
| Markers.ResolveMarker | src/NetteDatabaseDataSource.php:68 | a marker made from a 13-character id is rewritten to one `?` |
| Markers.ResolveNoQuestion | src/NetteDatabaseDataSource.php:68 | a text without `?` is left as it is |
| Markers.ResolveCount | src/NetteDatabaseDataSource.php:68 | the rewrite never adds a `?` |
| Markers.PlaceholdersSep | src/NetteDatabaseDataSource.php:68 | a character that cannot be part of a marker splits the rewrite: placeholders of both sides add up |
| Markers.MarkerShape | src/NetteDatabaseDataSource.php:94 | a marker is 17 characters long, matches the rewrite's pattern, holds two `?` and no space |
| Markers.Marker | src/NetteDatabaseDataSource.php:94 | the marker is the id wrapped in `_?` and `?_`, four characters longer than the id |
| Markers.Resolve | src/NetteDatabaseDataSource.php:68 | `preg_replace` of `_\?\w{13}\?_` by `?`, matches taken left to right; the result is never longer than the text |
| DataSource.NetteDatabaseDataSource.AddParams | src/NetteDatabaseDataSource.php:74-81 | the SQL first, followed by the values in their order |
| DataSource.NetteDatabaseDataSource.QueryArgs | src/NetteDatabaseDataSource.php:84-89 | the connection receives the rewritten SQL followed by the values |
| DataSource.NetteDatabaseDataSource.ApplyWhere | src/NetteDatabaseDataSource.php:92-113 | the new state is one `WhereStep`, and `sql` is the new rendering. From an in-step state, with a fresh marker, a non-null value and no `?` in the column or operator, the state stays in step and the value is appended |
| Engine.WhereSplice | src/NetteDatabaseDataSource.php:108-112 | with a count of 0 the value goes first; otherwise a non-null value is inserted, never overwriting, at the count clipped to the list's end, and a null leaves the list as it was |
| Engine.Insert | src/NetteDatabaseDataSource.php:111 | `array_splice` with length 0 inserts the elements of the replacement array at the index and shifts the rest right |
| Engine.SpliceIndex | src/NetteDatabaseDataSource.php:101-103 | the count of `?` in the first piece of `explode` on the marker, at most the `?` of the whole text |
| Engine.WhereStep | src/NetteDatabaseDataSource.php:92-113 | one `applyWhere`: only WHERE changes, growing by 3 nodes when empty and by 4 otherwise and keeping its old nodes; one value is added when it is not null, and at most one otherwise |
| Engine.SpliceKeeps | src/NetteDatabaseDataSource.php:111 | values in front of the splice index keep their positions |
| Engine.SpliceAtEnd | src/NetteDatabaseDataSource.php:108-112 | a count at or past the end appends the value, except a null after a `?`, which leaves the list unchanged |
| Strings.Before | src/NetteDatabaseDataSource.php:101 | the first `explode` piece: a prefix of the text holding no occurrence of the needle, ending at the first one or at the end |
| Strings.Count | src/NetteDatabaseDataSource.php:103 | `substr_count` of one character: at most the length, and zero exactly when the character does not occur |
| Strings.BeforeFirst | src/NetteDatabaseDataSource.php:101 | `explode` on the marker yields the text up to its first occurrence |
| Engine.WhereStepIndex | src/NetteDatabaseDataSource.php:96-103 | for a call with a fresh marker and no `?` in column or operator, the text in front of the marker is the rendering of everything before the new constant. The count is that text's raw `?` count, and the new query's placeholders are those in front of the marker plus one plus the tail's |
| Engine.WhereStepCounts | src/NetteDatabaseDataSource.php:101-103 | from an aligned state with a placeholder-free tail, the placeholders in front of the marker number exactly the old values, and the raw `?` count there is at least that |
| Engine.PreSums | src/NetteDatabaseDataSource.php:101-103 | the `WHERE` keyword, the `AND` and the new column and operator add no `?` to the text in front of the marker |
| Engine.WhereStepAligned | src/NetteDatabaseDataSource.php:92-113 | from an aligned state with a placeholder-free tail and a non-null value, the new value goes last, its placeholder is preceded by all the old ones, and the state stays aligned |
| Engine.WhereStepOvershoot | src/NetteDatabaseDataSource.php:101-111 | when an earlier marker is followed by a placeholder in the tail, the splice index lies beyond the new placeholder's true position, so the value there is not the new one |
| Engine.WhereStepDropsNull | src/NetteDatabaseDataSource.php:108-112 | from an aligned state with values and a placeholder-free tail, a null value at a fresh marker is dropped: the values stay as they were while the SQL gains a placeholder, so the state is no longer aligned |
| Engine.InsertionOrderExample | src/NetteDatabaseDataSource.php:92-113 | for `WHERE (a = ?)` with values `[1]`, adding `b = 2` gives `[1, 2]` |
| Engine.NullDroppedExample | src/NetteDatabaseDataSource.php:92-113 | for `WHERE (a = ?)` with values `[1]`, adding `b = null` keeps `[1]` while the SQL holds two placeholders |
| Engine.WhereAllShape | src/NetteDatabaseDataSource.php:150-152 | after a series of conditions the WHERE list has grown by four nodes per condition (three for the first in an empty WHERE) keeping its prefix, and the other clauses are unchanged |
| Engine.WhereAll | src/NetteDatabaseDataSource.php:150-152 | `applyWhere` per condition in turn; a series of conditions never removes a value and adds at most one value per condition |
| Engine.AsArray | src/NetteDatabaseDataSource.php:111 | the `(array)` cast of the value: empty exactly for null, otherwise holding the value alone |
| Engine.WhereStepKeepsCount | src/NetteDatabaseDataSource.php:92-113 | from an aligned state, a call with a fresh marker, a non-null value and no `?` in column or operator keeps alignment, whatever follows WHERE |
| Engine.AnchoredBefore | src/NetteDatabaseDataSource.php:101 | when a marker follows a run of tokens holding none of it, the first `explode` piece is exactly those tokens' text and a space |
| Engine.AnchoredKept | src/QueryHelper.php:114-176 | appending to WHERE keeps a marker behind the same tokens |
| Engine.WhereStepAnchors | src/NetteDatabaseDataSource.php:92-103 | after a call, its marker follows exactly the tokens in front of the new constant |
| Engine.AnchoredLast | src/NetteDatabaseDataSource.php:150-152 | the last call of a series is anchored, with one placeholder per earlier value in front of it |
| Engine.AnchorsGrow | src/NetteDatabaseDataSource.php:150-152 | a later call keeps every earlier call anchored with the same text in front of its marker |
| Engine.WhereAllAnchored | src/NetteDatabaseDataSource.php:150-152 | through a series of admissible calls with a placeholder-free tail, every call's marker stays behind the text that was in front of it, which holds one placeholder per earlier value |
| Engine.AnchoredCount | src/NetteDatabaseDataSource.php:101-103 | an anchored call's marker has exactly as many placeholders in front of it as values came before it |
| Engine.AnchoredPositions | src/NetteDatabaseDataSource.php:150-152 | in a state laid out by the calls, the `j`-th call's value and marker both sit at position `|values before| + j` |
| Engine.WhereAllPositions | src/NetteDatabaseDataSource.php:150-152 | after a series of admissible calls with a placeholder-free tail, the `j`-th value is at index `|e.params| + j`, and exactly that many placeholders precede the `j`-th marker in the final SQL |
| Engine.WhereAllAligned | src/NetteDatabaseDataSource.php:150-152 | a series of admissible conditions (fresh markers, non-null values) keeps alignment and a placeholder-free tail, and appends their values in order |
| DataSource.Equalities | src/NetteDatabaseDataSource.php:150-152 | one `column = value` call per entry, in the entries' order |
| DataSource.EqualitiesValues | src/NetteDatabaseDataSource.php:150-152 | the values of those calls are the entries' values, in order |
| DataSource.NetteDatabaseDataSource.FilterOne | src/NetteDatabaseDataSource.php:148-155 | the state is the fold of the equality calls; `sql` is unchanged for an empty condition and is the new rendering otherwise; from an in-step state with admissible calls (so non-null values) the values are appended in order and the state stays in step |
| DataSource.NetteDatabaseDataSource.ApplyFilterSelect | src/NetteDatabaseDataSource.php:273-278 | the same calls and guarantees as `filterOne` |
| DataSource.NetteDatabaseDataSource.ApplyFilterDate | src/NetteDatabaseDataSource.php:163-170 | one `DATE(column) = day` call. From an in-step state the day is appended and the state stays in step |
| Filters.BoundsCalls | src/NetteDatabaseDataSource.php:185-197 | a `>=` call happens exactly when `from` is truthy, and it comes first with the from value; a `<=` call happens exactly when `to` is truthy, and it comes last with the to value |
| Filters.Truthy | src/NetteDatabaseDataSource.php:185-217 | the `if ($value_from)` / `if ($value_to)` tests: `null`, `""`, `"0"` and `0` are never truthy |
| Filters.Bounds | src/NetteDatabaseDataSource.php:185-197 | one call per truthy bound, each on the given column (which bound goes where is stated by `BoundsCalls`) |
| Filters.RangeConditions | src/NetteDatabaseDataSource.php:213-219 | every call of the range filter is on the filter's column and passes one of the raw bounds, never a null |
| Filters.DateRangeConditions | src/NetteDatabaseDataSource.php:185-197 | the date-range filter's calls are on `DATE(column)` with text days, and `"0"` bounds make none |
| Filters.DateColumn | src/NetteDatabaseDataSource.php:189 | `DATE({$column})` holds the column in the wrapping and has a `?` only when the column has one |
| DataSource.NetteDatabaseDataSource.ApplyBounds | src/NetteDatabaseDataSource.php:185-197 | the state is the fold of the bound calls; `sql` changes only when a bound is truthy; from an in-step state the bound values are appended and the state stays in step |
| DataSource.NetteDatabaseDataSource.ApplyFilterRange | src/NetteDatabaseDataSource.php:206-220 | as the bound calls, with the raw bounds as values |
| DataSource.NetteDatabaseDataSource.ApplyFilterDateRange | src/NetteDatabaseDataSource.php:178-198 | as the bound calls, on `DATE(column)` with the formatted days as values |
| Strings.Split | src/NetteDatabaseDataSource.php:237 | `explode(' ')` gives one more piece than there are spaces, and no piece holds a space |
| Strings.SplitJoin | src/NetteDatabaseDataSource.php:237 | joining the pieces of `explode` by the separator gives back the text |
| Filters.LikeTerm | src/NetteDatabaseDataSource.php:243 | a term holds one raw `?` more than its column (its placeholder count is stated by `LikeTermPlaceholders`) |
| Filters.LikeTermPlaceholders | src/NetteDatabaseDataSource.php:243 | a term over a column without `?` holds exactly one placeholder |
| Filters.Words | src/NetteDatabaseDataSource.php:237 | the words of a value are one more than its spaces, and joined by spaces they give the value back |
| Filters.Group | src/NetteDatabaseDataSource.php:239-247 | a column's group is bracketed (its placeholders are stated by `GroupPlaceholders`) |
| Filters.Groups | src/NetteDatabaseDataSource.php:236-251 | one bracketed group per column |
| Filters.TextArgs | src/NetteDatabaseDataSource.php:236-251 | all columns' arguments, at least one per column, each a text |
| Filters.PhpString | src/QueryHelper.php:194 | concatenation keeps a text and turns an array into `Array`, which holds no `?` |
| Filters.GroupArgs | src/NetteDatabaseDataSource.php:242-245 | one argument per word, that is one more than the number of spaces |
| Filters.GroupArgsWords | src/NetteDatabaseDataSource.php:237-245 | stripping the `%` wrapping from the arguments and joining them by spaces gives back the filter value |
| Filters.BuildGroup | src/NetteDatabaseDataSource.php:237-247 | the inner loop builds `(column LIKE ? OR …)` with one term per word, and `%word%` per word |
| Filters.BuildTextFilter | src/NetteDatabaseDataSource.php:230-258 | the outer loop yields the predicate: the group array for one column, the bracketed OR of the groups otherwise. The arguments are all groups' arguments in order when there are several columns, and the last group's otherwise |
| Filters.CloseGroup | src/NetteDatabaseDataSource.php:247 | cutting the trailing ` OR ` and closing the bracket gives the bracketed ` OR `-join of the terms |
| Filters.CloseBigOr | src/NetteDatabaseDataSource.php:254-255 | for several columns, cutting the trailing ` OR ` of the big OR gives the predicate text |
| Filters.TextPredicate | src/NetteDatabaseDataSource.php:254-260 | with several columns the predicate is bracketed text; with at most one it is the array of groups, one per column |
| Filters.SingleTextArgs | src/NetteDatabaseDataSource.php:236-258 | for one column the arguments are that column's word arguments |
| Filters.GroupPlaceholders | src/NetteDatabaseDataSource.php:237-247 | a group holds exactly one placeholder per argument, when the column name has no `?` |
| Filters.GroupsPlaceholders | src/NetteDatabaseDataSource.php:236-252 | all groups together hold as many placeholders as all their arguments |
| Filters.TextPredicatePlaceholders | src/NetteDatabaseDataSource.php:254-258 | with several columns the predicate is text and holds exactly one placeholder per appended argument |
| Filters.SingleColumnPassesArray | src/NetteDatabaseDataSource.php:236-260 | with one column the predicate is converted to `Array`, which holds no placeholder although at least one argument is appended |
| DataSource.NetteDatabaseDataSource.ApplyFilterText | src/NetteDatabaseDataSource.php:228-265 | the helper gets the parsed predicate node and the arguments are appended; `sql` is unchanged; with several columns and a parse that keeps the placeholders, an in-step state stays in step, and when `sql` was the rendering it falls behind by the arguments |
| DataSource.NetteDatabaseDataSource.WhereSqlAppend | src/NetteDatabaseDataSource.php:260-264 | the helper appends `[AND,]` and the node, `sql` is unchanged, and the arguments are appended to the values in their order |
| Engine.TextStep | src/NetteDatabaseDataSource.php:260-264 | the text filter's change: only WHERE changes, keeping its nodes and ending with the parsed node, and the arguments are appended after the old values |
| Engine.TextStepAligned | src/NetteDatabaseDataSource.php:260-264 | appending a node whose placeholders match the appended arguments keeps alignment and a placeholder-free tail |
| Filters.TextFilterAligned | src/NetteDatabaseDataSource.php:254-264 | with several columns, a parse that keeps the predicate's placeholders, and no `?` after WHERE, the text filter keeps alignment and a placeholder-free tail |
| DataSource.NetteDatabaseDataSource.Limit | src/NetteDatabaseDataSource.php:287-294 | LIMIT is replaced and the connection gets the rewritten new rendering with the values; `sql` is unchanged; from an aligned state the sent text holds as many `?` as values are sent |
| Engine.LimitAligned | src/QueryHelper.php:86-94 | a LIMIT without `?` keeps alignment and a placeholder-free tail |
| DataSource.NetteDatabaseDataSource.GetCount | src/NetteDatabaseDataSource.php:125-130 | the connection gets the rewritten count query with the current values |
| DataSource.NetteDatabaseDataSource.Sort | src/NetteDatabaseDataSource.php:302-323 | with a callback nothing changes; otherwise ORDER ends as the last entry alone and `sql` is its rendering; values never change; an in-step state stays in step |
| Engine.OrderByAligned | src/QueryHelper.php:97-111 | an ORDER without `?` keeps alignment and a placeholder-free tail |
| Engine.TailReplaced | src/QueryHelper.php:86-111 | replacing only the tail by one without `?` keeps alignment |

## Left out

- Database execution is not modelled. The connection's `query`, `fetch` and `fetchAll`, and
  the cached rows of `limit`/`getData` are I/O. `Limit` and `GetCount` return the arguments
  that would be sent instead.
- `getData` is left out: it only reads the cache or executes the query.
- The SQL parser and creator (PHPSQLParser/PHPSQLCreator) are not part of this model.
  - The parser's output is an input: the parsed statement for the constructor, and a `parse`
    function for the text filter's helper query.
  - The creator is modelled as `Render`: the clause texts joined by single spaces. Quoting and
    the parser's own handling of a `?` inside literals are not modelled.
- `uniqid()` is a parameter of each call. That the marker does not already occur in the query
  is a hypothesis of the alignment lemmas (`Fresh`, part of `Admissible`), not something the
  model enforces.
- Date parsing and formatting (`DateTime::createFromFormat`, `format('Y-m-d')`) are left out.
  The formatted day is a parameter, and a failed parse (`false`) is not modelled.
- The sort callback is a flag. The callback gets `sql` by value and its result is discarded,
  so it cannot change the data source; its own effects are not modelled.
- PHP arrays keyed by column are sequences of pairs in order; duplicate keys cannot arise in
  PHP and are not excluded here.
- `array_splice` with an array as the value (which inserts its elements) is not modelled:
  values are scalars, text, integers or null. A null is cast to the empty array and dropped, as
  in the code.
- LIMIT offset and row count are opaque text.
- Booleans and floats are not values of the model. So `false` and `0.0`, which PHP also
  treats as false in the bound tests, are not covered by `Truthy`.
- `tests/Files/ExportTestingPresenter.php` is a test fixture outside the modelled core.
- DataSource.NetteDatabaseDataSource.ApplyFilterText: alignment is stated for the helper's
  query only, and only for several columns. With a single column the predicate is `Array`, and
  alignment then fails (see `SingleColumnPassesArray`).
- Engine.WhereStepOvershoot: exhibits the misplacement for a marker followed by a tail
  placeholder. It does not characterise every misaligned outcome.
