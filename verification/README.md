# row, verified

`row` is a typed layer over Go's `database/sql`. This project models the parts
of it that are algorithms and proves what they are for:

- **Statements.** A scanner finds the parameters of a SQL statement, `compile`
  splits the statement into literals and slots, `render` fills the slots for a
  dialect. `Scanner`, `Automaton`, `Quoting`, `Binder`, `Layout` and `Relexing`
  show that the scanner finds exactly the parameters a byte-at-a-time automaton
  finds, what every stretch of the text sent is and which token it comes from, and
  exactly when a database reading that text sees the placeholders 1..k that go with
  the k arguments, and nothing else.
- **Transactions.** A function run inside `InTx` is a finite tree of writes and
  nested calls that branches on how each nested call ended. `Transactions` runs
  such trees against an engine with a stack of named savepoints whose commands
  may fail; `Retry` adds the backoff loop in 64-bit arithmetic.
- **Conditions.** `Conditions`, `ConditionWriter`, `ConditionReader` and
  `ConditionMeaning` follow an expression of the query builder to its text, scan
  and parse that text with SQL's precedence, and evaluate it in three-valued
  logic: the truth value is the expression's own. `ConditionErrors` says which
  expressions are refused, and why. `ConditionArguments`, `Queries`, `NameLists`,
  `QueryText`, `QueryArguments` and `QueryMeaning` do SELECT, INSERT, UPDATE and
  DELETE: which are built and what refuses the others, how each is spelled, which
  values are bound, in which order, how much of the text depends on the dialect,
  and what WHERE and HAVING mean where they stand.
- **Structs.** `Mapper` walks a possibly cyclic type graph; `MapperStructure` and
  `MapperColumns` say exactly which columns, clashes and groups come out, and how
  each column is spelled from the declarations on its path. `RowValues`, `RowReader`,
  `RowReads` and `RowRoundTrip` read rows into nested structs and prove the round
  trips, of a value through its row and of a row through its value, and say when
  reading panics.
- **Plan cache.** `Lru`, `PlanCache`, `Preparing` and `CacheRuns`: the map and
  list of each shard, what any history of `prepare` calls leaves in it, and every
  interleaving of goroutines.
- **Inserting.** `Inserting`, `InsertText` and `WriteBack`: `InsertMany`'s batches,
  the names in their statements and the values under them, where the rows of
  RETURNING go, and every way in which it can end.

Texts are sequences of characters; a byte at or above 0x80 is a character at or
above that code. An argument is `NULL`, a scalar or a list; a list stands for any
slice the program would expand. A row is a sequence of cells, a struct type a node
of a finite graph given as data, and the name mapper a function parameter. What
the database answers, whether a command fails, when a context ends and which wait
is drawn are parameters, so every result holds whatever they are.

Run `dafny verify dfyconfig.toml` to check everything.

## Where the code differs from its documentation

The model follows the code.

- A cache size of zero does not disable caching: every shard has room for one
  statement (`cache.go:34-37`, against `row.go:61-62`). `AgainAlwaysHits` shows it
  for every size.
- A retry delay doubles without being capped itself; only the wait is capped
  (`tx.go:232-242`). With a large policy the doubled delay overflows and drawing
  the wait panics: `BackoffSafeExactly` says for which policies.
- When RELEASE fails after a successful nested function, the call reports an
  error but does not roll back (`tx.go:189-191`), so an inner failure does not
  always undo the inner work. `AtomicityUnderFailure` says for whole call trees
  exactly when it does.
- A panic rolls back to the savepoint without releasing it (`tx.go:172-177`);
  `NestedAtomicity` holds all the same.
- A slice under any comparison but equality is written as NOT IN
  (`qb/expr.go:147`), `Lt` and `Like` included: `SliceReadsAsNotIn` says what the
  database computes for it.
- A struct may embed a pointer to a struct whose own type is not exported. The
  mapper maps its fields (`mapper.go:162`), but reflection refuses to set the
  pointer, so a read or a write-back that has to allocate it panics
  (`mapper.go:278-290`). `PanicsExactly` and `StuckExactly` say exactly when,
  `EmbeddedPointerPanics` gives such a type.
- A question mark beside named parameters is demoted to text, not refused
  (`bind.go:131-135`).
- An ordinal `?` with a digit right after it runs into the digits of the
  placeholder written for it (`bind.go:227`): `?5` is sent as `$15`
  (`DigitMerges`). `RelexesExactly` says that this is the only way a statement is
  misread that has no `??` or demoted `?`, whose slots nothing joins from the
  left, and whose empty lists, written NULL, run into no word.

## Model

| member | source | states |
|---|---|---|
| Scanner.Lex | lex.go:58-159 | the scanner's loop produces the token sequence that region ends define, for every input |
| Scanner.LexDollar | lex.go:164-197 | a dollar starts a numbered placeholder, a tagged string running to its closing tag or the end of input, or is plain text |
| Integers.Wrap64Exactly | lex.go:164-197 | digits are added up in 64-bit arithmetic: the one 64-bit number congruent to the sum |
| Scanner.SkipDoubled | lex.go:201-215 | the end of a quoted run is the first quote that is not doubled, or the end of input |
| Scanner.SkipEscapeString | lex.go:219-237 | backslashes and doubled quotes are passed over; a trailing backslash does not run past the end |
| Scanner.TokensTile | lex.go:58-159 | tokens tile the input with no gap or overlap, text tokens are never empty and never adjacent |
| Automaton.ScannerRefinesAutomaton | lex.go:58-237 | the scanner finds the same parameters and `??` as a byte-at-a-time automaton with modes for comments, strings, dollar tags and code; none is missed, none added |
| Automaton.ParametersLieInCode | lex.go:58-237 | no parameter touches a byte that lies in a string, quoted identifier, comment or dollar body |
| Quoting.QuoteWith | dialect.go:58-76 | the quoted name, in a buffer of exactly the size it needs |
| Quoting.UndoublingInverts | dialect.go:58-76 | undoubling the inside of a quoted name gives the name back |
| Quoting.QuotedInjective | dialect.go:58-76 | different names never quote to the same text |
| Quoting.ScanStopsAtClosingQuote | lex.go:201-215 | scanning a quoted name followed by anything but its quote stops exactly at its end |
| Quoting.QuotedNameIsOneToken | lex.go:100-101 | a quoted name is a single text token for each of the three quotes |
| Numerals.DigitsValueReadsDecimal | dialect.go:80-83 | the scanner reads a written placeholder number back as that number, up to the 64-bit bound |
| Binder.Compile | bind.go:64-144 | the plan of a statement: parts, distinct names in order of first appearance, slot count and literal size, or the refused mixture of styles |
| Binder.Render | bind.go:171-245 | text and arguments of a plan, or the error the arguments deserve |
| Binder.RenderNamed | bind.go:202-244 | a named statement renders exactly when every name is known; the result is the source with each slot substituted and the values in statement order, repeated as names repeat |
| Binder.RenderOrdinal | bind.go:193-244 | an ordinal statement renders exactly when it is given as many arguments as it has slots; the result is substitution in the source |
| Binder.RenderNative | bind.go:173-182 | statements without slots pass their arguments through and keep their text |
| Binder.PassThrough | bind.go:117-119 | a statement with no parameters of row's own and no `??` is sent as it is written |
| Layout.CompilesExactly | bind.go:64-95 | a statement compiles unless its tokens mix `$n` with names or with question marks, and which mixture is refused |
| Layout.NamesListed | bind.go:121-130 | the names of a plan are those of its tokens, each once, in order of first appearance |
| Layout.SentExactly | bind.go:97-245 | the text sent is laid out token by token: `??`, and a question mark beside names, is one question mark, a slot is one placeholder for each element of its value, numbered on, or NULL for an empty list, and all else is the source's own bytes; the arguments are what the slots bind |
| Layout.RendersExactly | bind.go:171-200 | rendering succeeds if and only if every name is supplied and no positions, or one position for each question mark and no names, or no names where there are no slots |
| Layout.RefusesExactly | bind.go:171-220 | each refusal and when it is given, down to the first name not supplied |
| Relexing.RelexesExactly | bind.go:171-245 | scanning what is sent to a `$n` database finds the placeholders 1..k in order, each spelled in full, and no other parameter, k being the number of arguments sent, if and only if no slot written as placeholders has a digit right after it; for statements without `??` or demoted `?`, with no identifier, dollar, colon or question mark right before a slot and no word right after an empty list |
| Relexing.NamedRelexes | bind.go:171-245 | what a named statement sends is always read back so, as nothing that ends a name is a digit |
| Relexing.DigitMerges | bind.go:224-228 | `?5` is sent as `$15`, which is read as one placeholder of another number |
| Relexing.PlaceholderReadBack | dialect.go:80-83 | a written placeholder is read back as itself exactly when no digit follows it |
| Relexing.LexemeCopied | lex.go:69-156 | a stretch of a statement scans the same wherever it is copied, as long as both go on alike |
| Transactions.Run | tx.go:109-193 | running a call tree against the engine has the tree's meaning, and leaves only its own savepoints on the stack |
| Transactions.InTx | tx.go:109-159 | what InTx returns, with which code, and what is committed, for every tree and every fault of begin, commit and rollback |
| Transactions.TxReports | tx.go:138-158 | a begin or commit that fails is reported with its own code; fn's error is reported as it is when the rollback succeeds, and with fn's code when it does not |
| Transactions.NestReports | tx.go:162-193 | the same for a nested call: which of savepoint, function and release decides the error, and its code |
| Transactions.AllOrNothing | tx.go:109-159 | success commits exactly the kept writes and takes a function, a begin and a commit that succeed; otherwise nothing is committed |
| Transactions.InTxNested | tx.go:121-131 | a nested call is refused with options or without savepoint support, and otherwise runs inside a savepoint |
| Transactions.RunNest | tx.go:162-193 | savepoint, function, then release, rollback and release, or rollback alone on a panic, each of which may fail |
| Transactions.SavepointNamesDiffer | tx.go:85-87 | names from different counter values differ, also once quoted |
| Transactions.FindOwn | tx.go:162-193 | a rollback or release finds the savepoint of its own call, whatever panics left above it |
| Transactions.NestedAtomicity | tx.go:162-193 | for every tree, a nested call that fails or panics contributes nothing and everything else applies in order |
| Transactions.AtomicityUnderFailure | tx.go:162-193 | with commands failing at any point, a tree's effect is the one where each call that does not succeed contributes nothing if and only if no call leaks: fails, has written, and the one command after its body failed |
| Transactions.ReleaseFailureKeepsWrites | tx.go:189-191 | a call that reports an error and keeps its write |
| Retry.InTxRetry | tx.go:220-254 | each listed outcome is that of a run of fn; at most max(1, Attempts) runs, again only after a retryable failure, each wait within the capped delay, and the end the last run, the context or the draw calls for |
| Retry.TriesExactly | tx.go:220-254 | it gives up exactly after Attempts runs, or after one when that is less than one; only a run that fails with a deadlock, a serialization failure or a busy database is followed by another, and every such run is, unless the attempts, the context or the draw end it |
| Retry.RunsReported | tx.go:220-254 | every failure it goes by is one that InTx reports, so a refused commit is retried by its own code |
| Retry.WaitsExactly | tx.go:229-243 | under a safe policy a wait may be drawn if and only if it is not negative and at most the base delay, doubled once for every wait before it, and the cap |
| Retry.OneRunOrNone | tx.go:228-253 | on success the committed state is that of exactly one run, which succeeded; otherwise it is as before |
| Retry.SafePolicy | tx.go:229-243 | under a safe policy no draw panics, and the waits together stay within the base delay's doublings and within the cap for each |
| Retry.BackoffSafeExactly | tx.go:232-242 | no draw of a wait panics if and only if the base delay is not negative and its doublings fit in 64 bits |
| Retry.TotalWait | tx.go:229-243 | safe waits add up to at most base times 2^waits less one, and to at most the cap for each |
| Conditions.SortedKeys | qb/expr.go:107-114 | the keys of a map, each once, in ascending order |
| Conditions.AtMostExactly | qb/expr.go:107-114 | the order of keys is byte by byte: a prefix comes first, else the smaller byte where two keys first differ |
| ConditionWriter.Writer.Bind | qb/expr.go:47-50 | a value is bound and its placeholder carries the number of arguments so far |
| ConditionWriter.Writer.WriteCompare | qb/expr.go:123-158 | a comparison map is written key by key in order, NULL and slices in their own forms, or refused |
| ConditionWriter.Writer.WriteIn | qb/expr.go:218-241 | a membership test, or a constant for the empty list |
| ConditionWriter.Writer.WriteGroup | qb/expr.go:333-354 | a group of two or more is parenthesised, one stands alone, none and nil are errors |
| ConditionWriter.Writer.WriteRaw | qb/expr.go:388-402 | raw text with its question marks replaced by placeholders in step with the arguments |
| ConditionWriter.Writer.Write | qb/expr.go:32-34 | every expression writes the pieces it stands for or the error it stands for, keeping placeholders and arguments in step |
| ConditionWriter.Writer.WriteClause | qb/query.go:221-238 | the members of a WHERE or HAVING list, joined by AND |
| ConditionErrors.WritesExactly | qb/expr.go:123-402 | an expression is written if and only if nothing refuses it; what does, in the order it is met: an empty map, nil under a comparison other than equality, an empty group, a nil or refused member, Not of nil, a wrong number of raw arguments |
| ConditionErrors.ComparisonWritten | qb/expr.go:166-214 | one comparison letter for letter, LIKE standing in for ILIKE where there is none |
| ConditionErrors.SplitExactly | qb/expr.go:59-74 | splitting a name cuts at every dot and nowhere else |
| ConditionErrors.IdentExactly | qb/expr.go:59-101 | a name is quoted part by part when every part is a star or a letter or underscore followed by letters, digits and underscores, and otherwise written as it stands |
| ConditionReader.ScanPieces | qb/expr.go:59-74 | what a database scans in the written text is the sequence of tokens the pieces stand for |
| ConditionMeaning.ConditionReadsBack | qb/expr.go:308-371 | wherever in a statement it is written, a condition's text parses, with NOT above AND above OR and BETWEEN's own AND, to something with the expression's truth value on every row |
| ConditionMeaning.ClauseReadsBack | qb/query.go:221-238 | a WHERE or HAVING list means the conjunction of its members, whatever is bound before it |
| QueryMeaning.SelectWhereMeans | qb/query.go:163-178 | the WHERE of a SELECT, numbered after its joins, is the conjunction of its conditions under the statement's own arguments |
| QueryMeaning.SelectHavingMeans | qb/query.go:163-192 | the HAVING of a SELECT, numbered after its joins and WHERE, likewise |
| QueryMeaning.UpdateWhereMeans | qb/query.go:447-467 | the WHERE of an UPDATE, numbered after the values its SET binds, likewise |
| QueryMeaning.DeleteWhereMeans | qb/query.go:509-514 | the WHERE of a DELETE, numbered from 1, likewise |
| ConditionMeaning.NotEqReadsAsNotOfEq | qb/expr.go:123-174 | for one key, the text of NotEq and the text of Not(Eq) have the same truth value on every row, whatever the value is |
| ConditionMeaning.SliceReadsAsNotIn | qb/expr.go:146-151 | on every row the text of any comparison of a slice, equality apart, says that the column is none of its elements |
| Queries.BuildSelect | qb/query.go:137-217 | a SELECT, clause by clause, or what refuses it: the first condition that cannot be written, among the joins, then WHERE, then HAVING |
| Queries.BuildInsert | qb/query.go:320-373 | an INSERT, or what refuses it, in this order: no table, no values, the first row of the wrong width, RETURNING without support |
| Queries.BuildUpdate | qb/query.go:430-472 | an UPDATE, or what refuses it, in this order: no table, nothing to set, no WHERE, an assigned expression, a condition, RETURNING without support |
| Queries.BuildDelete | qb/query.go:497-519 | a DELETE, or what refuses it, in this order: no table, no WHERE, a condition, RETURNING without support |
| Queries.DeleteBuilds | qb/query.go:497-519 | nothing refuses a DELETE if and only if it has a table and a condition, every condition can be written, and RETURNING is absent or supported |
| Queries.UpdateBuilds | qb/query.go:430-472 | nothing refuses an UPDATE if and only if it also assigns something and every assigned expression can be written |
| Queries.InsertBuilds | qb/query.go:320-373 | nothing refuses an INSERT if and only if it has a table and rows, each as wide as the columns named, and RETURNING is absent or supported |
| QueryText.SelectSpelled | qb/query.go:137-217 | the text of a SELECT from its first letter to its last: columns or a star, table, joins, WHERE, GROUP BY, HAVING, ORDER BY, LIMIT and OFFSET, conditions standing for themselves |
| QueryText.InsertSpelled | qb/query.go:320-373 | the text of an INSERT, its rows of placeholders numbered on |
| QueryText.UpdateSpelled | qb/query.go:430-472 | the text of an UPDATE, its assignments numbered before its conditions |
| QueryText.DeleteSpelled | qb/query.go:497-519 | the text of a DELETE |
| QueryText.InsertNamesReadBack | qb/query.go:334-371 | the table, the columns and the columns after RETURNING, part by part, are read back out of the text of an INSERT with named columns, for plain identifiers |
| QueryText.IntReadsBack | qb/query.go:205-214 | a written LIMIT or OFFSET reads back as its number, sign included |
| QueryText.RawSpelled | qb/expr.go:388-402 | around its placeholders a raw fragment is its own text between the question marks |
| ConditionArguments.ConditionBinds | qb/expr.go:123-402 | a condition binds exactly the values in it, left to right, those of raw fragments included |
| QueryArguments.SelectBinds | qb/query.go:163-192 | the arguments are those of the joins, then WHERE, then HAVING |
| QueryArguments.InsertBinds | qb/query.go:346-363 | the arguments are the rows' values, row after row, each row as wide as the named columns |
| QueryArguments.UpdateBinds | qb/query.go:451-467 | the arguments are the assigned values in order, then those of WHERE |
| QueryArguments.DeleteBinds | qb/query.go:512-514 | the arguments are those of WHERE |
| QueryArguments.PlaceholdersNumbered | qb/expr.go:47-50 | whatever is written, its placeholders read 1, 2, … from left to right, one for each argument |
| QueryArguments.StatementsAlike | qb/query.go:137-519 | two dialects that differ in their placeholders give the same pieces and arguments, or the same error |
| QueryArguments.TextsAlike | qb/query.go:137-519 | their texts are the same around the placeholders |
| Mapper.BuildStruct | mapper.go:147-258 | the walk ends on every finite graph, cyclic or not; it fails with the first clash, and otherwise holds what the walk enumerates with byName its inverse |
| Mapper.StructInfo.AddField | mapper.go:193-207 | a column claimed before is an error naming both paths; otherwise field, index, and primary keys are extended |
| Mapper.StructInfo.WalkType | mapper.go:159-251 | one type's fields in order, appended to what was there, until a clash |
| Mapper.NoClashExactly | mapper.go:194-198 | no clash is found if and only if no two fields have one column |
| MapperStructure.MappingIsExact | mapper.go:159-251 | the fields are exactly the reachable leaf paths, each once, with the columns their tags spell, no path a prefix of another |
| MapperColumns.MappedExactly | mapper.go:159-190 | from the declarations alone: a path is mapped if and only if no field on it is tagged away, unexported and not embedded, or the start of a cycle, and it ends in an exported leaf |
| MapperColumns.FieldsExactly | mapper.go:159-251 | each mapped field's column is, over the enclosing fields outermost first, the explicit prefix, nothing for an untagged embedding, or the tag name or mapped name and an underscore, and then the leaf's own; with its key and readonly marks, its Go path and its place in the order |
| MapperColumns.ClashReports | mapper.go:193-198 | the clash that is reported is the first, with the column and both Go paths |
| MapperColumns.KeysExactly | mapper.go:199-207 | the primary keys are the fields tagged so, in order |
| MapperStructure.ClashExactly | mapper.go:193-198 | mapping fails if and only if two leaf paths claim one column |
| MapperStructure.GroupsAreExact | mapper.go:237-241 | parents come before and enclose their groups; a field's chain of parents is exactly the pointer structs on its path |
| RowValues.FieldValue | write.go:110-122 | reading a field index by index, NULL behind a nil pointer |
| RowValues.SetAtAssembles | mapper.go:278-290 | writing a leaf that can be reached, allocating pointers on the way, is one more write of a value determined by the writes alone |
| RowValues.BlockedExactly | mapper.go:278-290 | on what writes made so far, the next one panics if and only if its path goes through a pointer that cannot be set |
| RowValues.AllocatedExactly | mapper.go:278-290 | a pointer is set if and only if something was written below it |
| RowReader.LookupColumn | mapper.go:325-342 | a column's value, or that the type has no such column |
| RowReader.BuildScanPlan | scan.go:105-134 | a plan is refused for an ambiguous type, or under strict reading for columns without a field, all of them named; otherwise columns and fields are paired by name |
| RowReader.UnmappedExactly | scan.go:108-134 | strict reading names every result column that no field has, and no other, in result order |
| RowReader.PlanSound | scan.go:112-125 | what a plan knows of its type: index paths lead to leaves and groups are their pointers |
| RowReader.GroupsDecide | scan.go:224-226 | the groups decide which columns are written: those where every pointer on the path has a non-NULL column at or below it |
| RowReader.Reader.Mark | scan.go:202-212 | after the first pass a group is null exactly when no column at or below it has data |
| RowReader.Reader.GroupIsNull | scan.go:244-251 | whether a group or an enclosing one is null; the group itself always decides |
| RowReader.Reader.Read | scan.go:174-241 | the outcome depends on the current row alone: the value its written columns assemble, or the first of them that does not fit or cannot be reached |
| RowReader.PanicsExactly | scan.go:219-233 | a read panics if and only if some written column lies behind an embedded pointer of an unexported type and every column written before it fits; it is rejected at a column if and only if that one does not fit and those before it do; it gives a value if and only if no written column is in either trouble |
| RowReader.LockedExactly | mapper.go:278-290 | a path is cut off if and only if some part of it leads to an embedded pointer whose type is not exported |
| RowReads.ColumnReadsBack | scan.go:174-241 | in the value a row is read into, every column reads back as the row's cell, unless a later column feeds the same field |
| RowReads.UnfedIsZero | scan.go:216-233 | a field that no column feeds is zero, or lies behind a pointer that stayed nil |
| RowRoundTrip.PointerSetExactly | scan.go:200-233 | in every row read, a nested pointer is set if and only if some mapped column at or below it is not NULL |
| RowRoundTrip.RoundTrip | scan.go:200-240 | a row made from a value's own columns panics if and only if a live column lies behind a pointer that cannot be set, is never rejected, and otherwise rebuilds the value, except that a pointer whose columns are all NULL becomes nil and unselected leaves are zero |
| RowRoundTrip.EmbeddedPointerPanics | mapper.go:278-290 | for a struct embedding a pointer to an unexported struct, reading any value into its column panics |
| RowRoundTrip.RebuiltReadsSame | mapper.go:325-342 | the rebuilt value reads like the original in every selected column |
| Lru.HeldExactly | cache.go:59-90 | a shard holds a key if and only if it was prepared and fewer others than the shard has room for were prepared since |
| Lru.RecentStep | cache.go:71-90 | one more prepare keeps a shard at the most recent keys, as many as fit |
| PlanCache.PerShard | cache.go:32-37 | slots per shard: the size divided by sixteen, and one when that is less |
| PlanCache.ShardFor | cache.go:50-57 | FNV-1a over 32 bits, modulo sixteen |
| PlanCache.FnvExactly | cache.go:50-57 | from the offset basis, each byte flips exactly the bits it has and the sum is multiplied by the prime; the shard is the sum modulo sixteen |
| PlanCache.Shard.Get | cache.go:59-69 | a hit returns the plan and moves it to the front, a miss changes nothing; map and list stay paired |
| PlanCache.Shard.Put | cache.go:71-90 | a present key is replaced and moved to the front, a new one pushes the last out when full; map and list stay paired |
| Preparing.Cache.Prepare | row.go:201-227 | the outcome is what it would be without a cache, one shard takes one step, the others are untouched |
| CacheRuns.PrepareAll | row.go:201-227 | a new cache that has prepared any list of statements: every shard is as the history says and every outcome as it is without a cache |
| CacheRuns.HoldsMostRecent | cache.go:59-90 | by that history every shard holds, in order, exactly the most recently prepared distinct compilable statements hashing to it |
| CacheRuns.HitsExactly | row.go:207-211 | a prepare hits if and only if fewer distinct others of its shard than fit were prepared since |
| CacheRuns.LargerKeepsHits | cache.go:32-46 | a larger cache never loses a hit |
| CacheRuns.AgainAlwaysHits | cache.go:34-37 | the same statement again is a hit for every size, zero included |
| CacheRuns.EveryInterleaving | row.go:201-227 | in every interleaving of lookups, compilations and stores, every finished call has the outcome it would have without a cache, shards hold no duplicates, and the total is within bounds |
| Inserting.WritableFields | write.go:127-139 | the fields an INSERT writes, in order |
| Inserting.BatchFits | write.go:318-326 | a batch stays within a positive limit, and is refused exactly when one row does not fit |
| Inserting.FewestStatements | write.go:316-322 | no split of whole rows within the limit takes fewer statements |
| Inserting.StatementsCarryRows | write.go:334-364 | the statements carry every row once, in order and whole |
| Inserting.BuildBatch | write.go:344-369 | one statement with its rows, placeholders and arguments in step, or the first nil element or missing support that stops it |
| WriteBack.ScanBack | write.go:162-220 | returned row r goes to element start+r; it ends at the first row that does not fit or cannot be reached, else as the number of rows calls for, and no other element changes |
| WriteBack.BackEndsWell | write.go:180-219 | that ends well if and only if there is one row for each element and each fits |
| WriteBack.PutExactly | write.go:194-209 | a returned column without a field is an error under strict reading and ignored otherwise; behind an unset sealed pointer it panics; NULL for a field that cannot hold it is an error; else it reads back |
| WriteBack.EndsExactly | write.go:180-219 | which error writing rows back ends with: that of the first row that does not fit, else too many or too few |
| WriteBack.StuckExactly | mapper.go:278-290 | a write into an element panics if and only if, on its path, an embedded pointer of an unexported type is not set |
| WriteBack.ReturnedReadsBack | write.go:194-209 | an element reads, in each returned column, what its row holds |
| Inserting.InsertMany | write.go:293-382 | for every way the database may answer: the statements sent, the error and the batch it comes from, the rows written back before it, and the elements left untouched |
| InsertText.WrittenExactly | write.go:127-139 | the columns written are, in field order, those not readonly that Only names, or without Only that Omit does not |
| InsertText.SentExactly | write.go:316-364 | out of every statement sent are read the table's parts, those columns, a row of placeholders for each element of its batch, and the columns after RETURNING; the value under each column is the element's own field of that name |
| Inserting.FinishReports | write.go:334-380 | what each error says: the first nil element, no RETURNING with nothing sent, the last statement refused, or its rows not fitting |
| Inserting.FinishesWellExactly | write.go:334-380 | past the first checks it succeeds if and only if no element is nil, RETURNING is supported where asked for, and every reply fits its batch |
| Inserting.InsertedExactly | write.go:293-382 | on success every element's values are sent once and in order, within the limit, in the fewest statements |

## Left out

- Destination structs: they are values here, not memory; the in-place update and the sharing of one struct through two pointers are not captured by `RowValues.SetAt` and `Inserting.InsertMany`.
- Conversions of single values (`convert.go`): a leaf takes any cell but NULL when its type is not nullable.
- `parseTag` and `SnakeCase`: tags are given parsed, the name mapper is a parameter.
- Struct and scan caches keyed by a function's code pointer, drivers, contexts, hooks, `Open`, `Ping`, `Conn` and iteration over `sql.Rows`.
- The scan kinds for maps and single values: one assignment each.
- The 64-bit savepoint counter never wraps here.
- Writes inside a transaction the database has already aborted: a write always applies; only savepoint commands, begin, rollback and commit may fail.
- `InTxRetry` inside a transaction already open: the model retries the outermost one.
- Raw fragments have no meaning in `ConditionMeaning.ConditionReadsBack`, and its columns are plain identifiers: other names are written through unquoted and could be anything. What raw fragments bind is proved.
- `writeTableRef` and `writeOrderTerm` receive their text already split into words.
- The builders' copy-on-write methods: they build values and change nothing.
- The quote bytes of `ConditionMeaning.ConditionReadsBack` are the double quote and the backquote, the two the dialects use.
- InsertText.SentExactly: the dialect's quote byte is any but a dot, a comma, a space and a closing parenthesis; the dialects use the double quote and the backquote.
- QueryText.InsertNamesReadBack: names that are not plain identifiers are written unquoted, so it does not read them back; `QueryText.InsertSpelled` still gives the text.
- Error texts, and the byte counts buffers are grown to apart from `QuoteWith`'s.
- A dialect's placeholders are `$n` or `?`; its name matters only to ILIKE and to cache keys.
- `ClassifyError`, `applyDefaults` and the other lookup tables of the engine adapters.
