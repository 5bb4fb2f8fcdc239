# Cassidy: a verified model of its hard parts

Cassidy is a web client for Cassandra: a Go backend that pools cluster sessions, classifies and runs CQL, introspects
schemas and compiles row edits to CQL, and a React front end with an editable data grid. This project models the parts
of it in which a small mistake loses a session, runs a write on a read-only connection, or edits the wrong row, and
proves what they do.

The code is followed branch by branch. Code that updates things in place is a class, an array or a method with loops;
each such method is proved equal to a function of its inputs or of the old state, and the theorems are about that
function. Texts are sequences of characters; the classifier reads its text byte by byte, so there a character stands
for a byte.

| Files | What they hold |
|---|---|
| `StatementLexer`, `Classifier`, `Trimming`, `ClassifierProperties`, `ReadOnlyGuard` | the in-place stripper against a lexer, classification, noninterference, the exact read-only guard |
| `EmptyStatements`, `QuotedNames`, `StatementKinds` | which texts are empty or unknown, when quoted identifiers make a difference, and the words that lead to each kind and refusal |
| `StatementParts`, `WhiteSpace` | stripping without a lexer, and white space and letters by code points |
| `PoolSteps`, `PoolProofs`, `PoolTheorems`, `PoolHistory`, `PoolFailures`, `PoolProgress` | the session pool under every interleaving of its lock regions: its accounting, failed connects, and that nobody is stuck in it |
| `RecencyList`, `PoolView`, `PoolEffects`, `SessionPool` | the session pool for one caller after another, refining a recency list, and its effect on each connection |
| `Quoting`, `CqlLexer`, `NameOrder`, `TableSchema`, `JsonNumbers`, `Coercion`, `ValueTypes` | identifiers and literals, a lexer of CQL, sorting, key columns, numbers, and values type by type |
| `Dml`, `DmlAcceptance`, `DmlReading`, `DmlRoundTrip`, `DmlFilling`, `DmlMeaning`, `EditService`, `ChangeSets` | the compiler of row edits: what it accepts, that its texts read back, what they do to a table, the preview, and changesets edit by edit |
| `CellKeys`, `GridEdits`, `KeyedRows`, `GridMeaning`, `GridTheorems`, `GridHandlers`, `GridFilter` | the grid's edit buffer and its changeset, up to the committed table, what each handler changes of what is shown, and the filter |
| `Ddl`, `DdlReading`, `DdlOptions` | the CREATE TABLE printer, its round trip, and the table read back field by field |
| `SchemaCache`, `QueryService` | the TTL cache against its trace, invalidation, and the run of a query |
| `Highlight`, `TokenClasses`, `Migrations` | the highlighter's tokenizer, what its tokens are, and the migration runner |
| `Options`, `Sequences`, `Texts` | what the others share |

`dafny verify dfyconfig.toml` checks all of it.

## What the proofs show about the code

Most promises hold as made. Where the code differs from what its comments or users would expect, the model keeps the
code, and a lemma states exactly when the promise holds:

- Stripping is said to leave double-quoted identifiers intact (internal/query/classifier.go:152). They are not tracked.
  An identifier is left intact exactly if no comment or literal opens inside it (`QuotedNames.NameKept`; `NameStripped`
  is one that is not). The stripper sees a text as a lexer that tracks them would exactly if, moreover, there is no
  semicolon inside one (`TrackingMakesNoDifference`), and then what passes the read-only guard is one statement
  (`PassedIsOneStatement`). Where that fails a second statement can hide behind a quote in an identifier
  (`QuoteHidesStatement`).
- A statement is said to be empty if there is nothing but white space, comments and semicolons. It is classified so
  exactly if, stripped, it is white space around one contiguous run of semicolons (`EmptyStatements.EmptyExactly`):
  `; ;` is unknown and accepted, `'abc'` is empty (`SpacedSemicolons`, `SpacedPair`, `LoneLiteral`).
- `firstKeyword` is said to skip EXPLAIN. Its first round always returns (`Classifier.FirstRoundReturns`), so that
  whatever follows EXPLAIN the statement is unknown (`EmptyStatements.ExplainIsUnknown`, `ExplainedRead`).
- A session is lost exactly if its entry is removed while its connect runs and the Close due after the removal comes
  before the connect has ended (`PoolHistory.LostExactly`; `PoolTheorems.SessionLost` is a run that loses one,
  `PoolHistory.RemovedEarlyYetClosed` one that does not). `PoolTheorems.Accounting` and `QuietMeansClosed` say what
  becomes of all others.
- A Get whose connect failed removes whatever entry is then under its connection's ID. It is the one that failed exactly
  if that is still in the map (`PoolFailures.RemovesOwnExactly`); else the entry another Get has made since goes, and its
  session is closed although that Get has returned it (`HealthySessionClosed`).
- The pool's cap holds for non-empty connection IDs (`PoolTheorems.CapHolds`). A Get exceeds it exactly if the pool is
  full, the ID is new and the entry to be evicted is that of the empty ID (`PoolHistory.ExceedsExactly`), and with the
  empty ID there is no bound at all (`EmptyIdUnbounded`). A Get whose connect fails may still have evicted another
  session (`PoolView.GotGood`).
- `BuildInsert` checks that key columns are present, not that they have a value (`DmlMeaning.InsertKeyComplete`,
  `NullKeyAccepted`).
- The preview does not always show what is bound. A JSON number in a text column is shown as it is bound exactly if its
  exponent is from -4 to 5 (`Coercion.TextShownAsBound`, `MillionInText`), one in an integer column exactly if it is
  whole and below a million (`IntegerShownAsBound`, `FractionInInteger`).
- The grid never lets a key cell be edited, not even that of a new row, so a changeset with a new row is always refused
  (`GridTheorems.NewRowsNeverCommit`).
- With a filter on, an edit is taken for one of the right row exactly if the filter hides no row up to it
  (`GridFilter.FilterMisaddresses`, `WrongRowEdited`); a colon in a column's name misaddresses its cells
  (`CellKeys.KeyRoundTrip`, `ColonMisleads`).
- Invalidating a connection also drops the cluster and keyspace-list entries of every connection whose ID its own ID is a
  prefix of (`SchemaCache.DropsExactly`, `NeighbourDropped`).
- Two tables of a connection share a cache key exactly if their names read alike with a colon between them
  (`SchemaCache.KeysExactly`, `SharedKey`); without colons in the names of keyspaces no two do (`KeysDiffer`).
- A column's line reads back exactly if the column is static or its type does not end in ` static`
  (`DdlReading.ColumnReadsExactly`).
- The highlighter never comes to an end on white space other than spaces, tabs and newlines, such as a carriage return,
  outside strings and comments (`Highlight.StopsExactly`, `NeverEnds`, `CarriageReturnHangs`).

## Modelling choices

- In the concurrent pool one step is one lock region, or one action outside the lock. Which entry is evicted and which
  entries are reaped is any choice, because `lastUsed` is written without the lock while the loops read it; writing an
  entry's session is one step.
- In the sequential pool the connect's outcome and the clock are parameters, and a ghost value says which entry was
  evicted. IDs and the clock are arbitrary; that the pool is in order of use and within its cap is claimed for non-empty
  IDs and a clock that rises between calls. Sessions are numbered in the order in which they are created.
- The parsers of dates, UUIDs, decimals, floats, addresses and base64 are unknown partial functions
  (`Coercion.Library`). All that is taken from them is that the decimal and float parsers accept nothing but signs,
  digits, points, letters and underscores starting like a number and without two dashes in a row, or the names of the
  special floats. Integers and booleans are parsed in the model.
- A JSON number is a shortest decimal, its digits and the place of its point, from which both texts of it are computed
  as the Go library prints floats: `%v` with an exponent below -4 or above 5, `'f'` without. What becomes of one outside
  of 64 bits when converted to an integer is a parameter. Types of columns are lower-cased as ASCII.
- An abstract table maps the values of the key columns to the other cells. INSERT and UPDATE need the full key and write
  that row; DELETE removes every row its clause matches.
- In the cache a `get` and a `set` are single steps, as they are under its mutex, and the clock does not go back.
- The `%g` text of the bloom-filter chance is part of the table's description; it is empty where the chance is zero.
- Lower-casing a keyword leaves bytes above 127 alone: no keyword contains one.

## Model

| member | source | states |
|---|---|---|
| StatementLexer.StripInPlace | internal/query/classifier.go:154-249 | the flag is set exactly if an ordinary byte other than space and semicolon follows an ordinary semicolon; otherwise the result is the text with every byte of comments and literals, and no other, made a space |
| StatementLexer.BlankLine | internal/query/classifier.go:162-180 | a line comment is wiped up to its newline or the end |
| StatementLexer.WipeBlock | internal/query/classifier.go:183-197 | the array part of a block comment: wiping two bytes behind the reader wipes exactly the comment |
| StatementLexer.BlankBlock | internal/query/classifier.go:182-207 | a block comment is wiped with both delimiters, also if it is not terminated |
| StatementLexer.BlankLiteral | internal/query/classifier.go:209-231 | a string literal is wiped with its quotes, doubled quotes not ending it |
| Classifier.Classify | internal/query/classifier.go:68-117 | the in-place classification is that of the lexer's text: multi-statement, empty, unsupported or a kind |
| Classifier.FirstKeyword | internal/query/classifier.go:122-147 | the word of the first attempt that yields one, whatever prefixes are to be looked through, each in turn skipped or passed over |
| Classifier.FirstRoundReturns | internal/query/classifier.go:122-146 | the attempt without a prefix always yields a word, so that no prefix listed behind it is ever looked through; in the list it is the first |
| ClassifierProperties.StripIdempotent | internal/query/classifier.go:154-249 | stripping twice is stripping once, and the stripped text is classified as the text was |
| ClassifierProperties.SliceKept | internal/query/classifier.go:149-157 | a piece of ordinary text is left as it is exactly if no comment or literal opens in it |
| ClassifierProperties.StripsNothing | internal/query/classifier.go:149-157 | exactly the texts in which no comment or literal opens are left as they are |
| ClassifierProperties.BodiesDoNotMatter | internal/query/classifier.go:68-117 | replacing the body of a comment or literal by any that closes alike changes neither kind nor error |
| StatementParts.StripsExactly | internal/query/classifier.go:149-249 | however a text is taken apart into plain characters, comments and literals that end where they are said to end or run to the end of the text, stripping keeps the characters and makes the others spaces, byte for byte |
| StatementParts.EveryTextHasParts | internal/query/classifier.go:149-249 | every text can be taken apart so |
| WhiteSpace.WhiteExactly | internal/query/classifier.go:73-75 | what is cut off the front is exactly encoded characters that are white space in Unicode |
| WhiteSpace.IgnorableExactly | internal/query/classifier.go:73-75 | what is ignored at the end is exactly white space around one contiguous run of semicolons |
| WhiteSpace.BytesExactly | internal/query/classifier.go:132-143 | a keyword goes on exactly at the code point of a letter, and a second statement begins exactly at a byte that is neither that of white space nor a semicolon |
| EmptyStatements.EmptyExactly | internal/query/classifier.go:68-78 | a statement is empty exactly if, stripped, it is white space around one contiguous run of semicolons |
| EmptyStatements.SpacedSemicolons | internal/query/classifier.go:73-78 | a text of nothing but white space and semicolons once stripped is empty exactly if no space stands between two semicolons, and else unknown and accepted |
| ReadOnlyGuard.FirstWordDecides | internal/query/classifier.go:80-117 | the kind is that of the first word, whatever follows it |
| StatementKinds.KindExactly | internal/query/classifier.go:80-117 | a text is of a kind, and accepted or refused as such, exactly if stripped it is a single statement that begins with one of the kind's words in any case |
| StatementKinds.UnknownExactly | internal/query/classifier.go:80-117 | a text is accepted as unknown exactly if it is a single statement, not empty, and begins with none of these words |
| StatementKinds.RefusedExactly | internal/query/classifier.go:68-117 | refused are exactly several statements, empty ones, and those that begin with grant, revoke or list |
| StatementKinds.DdlExactly | internal/query/classifier.go:52-61 | a statement counts as one that changes the schema exactly if it begins with create, alter, drop or truncate |
| EmptyStatements.ExplainIsUnknown | internal/query/classifier.go:119-146 | a single statement that starts with EXPLAIN is unknown, whatever follows |
| QuotedNames.NameKept | internal/query/classifier.go:149-153 | a quoted identifier is left intact exactly if no comment or literal opens inside it |
| QuotedNames.TrackingMakesNoDifference | internal/query/classifier.go:149-157 | every byte is seen as by a lexer that tracks quoted identifiers exactly if neither the beginning of a comment or literal nor a semicolon is inside one |
| QuotedNames.FlagIsTracked | internal/query/classifier.go:233-244 | then the multi-statement flag is the one that tracking would give |
| QuotedNames.PassedIsOneStatement | internal/query/service.go:89-93 | then what passes the read-only guard is one statement |
| QuotedNames.QuoteHidesStatement | internal/query/classifier.go:149-157 | texts in which a quote inside an identifier hides any second statement |
| ReadOnlyGuard.ReadOnlyExactly | internal/query/classifier.go:44-147 | a text passes the read-only guard exactly if, stripped, it is a single statement led by select, use, describe or desc in any case |
| QueryService.Service.Run | internal/query/service.go:74-186 | a request has the outcome, the rows and the record specified; its text is executed exactly if it is admitted and gets a session and a page state, and the schema cache is invalidated exactly if it is done and begins with create, alter, drop or truncate |
| QueryService.OutcomesExactly | internal/query/service.go:74-186 | each outcome exactly under its conditions: unknown connection, several statements, empty, refused, read-only, no session, bad page state, failed, done, in this order |
| QueryService.ExecutesExactly | internal/query/service.go:120-150 | the text is executed as it was sent, once, exactly if it is acceptable, reads if the connection is read-only, and there are a session and a valid page state |
| QueryService.RecordsExactly | internal/query/service.go:80-93 | the history is handed exactly the requests that are refused or executed, as successful exactly if the cluster reports success |
| QueryService.InvalidatesExactly | internal/query/service.go:178-181 | the schema cache is invalidated, for the request's own connection, exactly after a statement that begins with create, alter, drop or truncate, on a writable connection, and succeeds |
| QueryService.DoneKind | internal/query/service.go:161-169 | a request that is done reports the kind of its first word |
| QueryService.DoneRows | internal/query/service.go:102-148 | it reports as many rows as there are, up to the cap and to its page size, which is 100 unless it is from 1 to 1000 |
| QueryService.Service.Serve | internal/query/service.go:74-186 | any sequence of requests executes, invalidates and records what each of them does, in order |
| QueryService.ReadOnlyConnectionsOnlyRead | internal/query/service.go:89-93 | over any sequence of requests every statement executed on a read-only connection is a single one that reads |
| QueryService.ExecutionsAreRecorded | internal/query/service.go:83-181 | over any sequence of requests every executed statement is recorded, and every statement recorded as successful was executed |
| QueryService.ReadsAreServed | internal/query/service.go:83-105 | on a read-only connection a statement is executed exactly if it reads, given a session and a valid page state |
| QueryService.DdlClearsConnection | internal/query/service.go:178-181 | after a successful DDL statement nothing cached for its connection is visible, at any time |
| PoolProofs.StepCoherent | internal/cluster/manager.go:141-176 | every step of every thread keeps each entry at exactly one place: pooled, held for closing, closed or given up |
| PoolTheorems.Accounting | internal/cluster/manager.go:103-176 | in every reachable state a session is at most one of pooled, closed and awaiting its Close; it is none exactly if its entry's remover found no session, and then the entry left the map before its connect ended |
| PoolTheorems.NoDoubleClose | internal/cluster/manager.go:259-273 | no session is closed twice, and only created ones are closed |
| PoolTheorems.NeverReinserted | internal/cluster/manager.go:294-307 | an entry that left the map is never in it again |
| PoolTheorems.OrphanedForever | internal/cluster/manager.go:259-273 | an orphaned session is never closed, whatever happens later |
| PoolTheorems.EntriesSound | internal/cluster/session.go:18-25 | each key maps to an entry with that ID whose session is not closed, each entry connects at most once however many Gets share it, and has a session of its own exactly if that went well |
| PoolTheorems.GetReturns | internal/cluster/manager.go:145-176 | a Get that succeeds returns a session, which was created for the entry it looked up, under the ID it was asked for; what becomes of one that fails is stated by the lemmas of PoolFailures |
| PoolFailures.MapExactly | internal/cluster/manager.go:103-176 | step by step, an entry leaves the map exactly by the eviction for another new connection, a failed Get, an Invalidate, the reaper or Close, and comes into it exactly by a Get that finds none |
| PoolFailures.FailedGetRemoves | internal/cluster/manager.go:166-169 | in every reachable state the removal of a Get whose connect failed takes the entry of its connection out of the map, and no other |
| PoolFailures.FailureIsAttended | internal/cluster/manager.go:166-169 | in every reachable state an entry of the map whose connect failed has a Get that is still to remove it: once there is none, the next Get meets no failed entry |
| PoolFailures.NextGetConnects | internal/cluster/manager.go:166-169 | a Get of the connection right after that removal connects anew |
| PoolFailures.RemovesOwnExactly | internal/cluster/manager.go:259-273 | the entry removed is the one whose connect failed exactly if that is still in the map |
| PoolFailures.HealthySessionClosed | internal/cluster/manager.go:259-273 | a run in which a failed Get closes the session another Get has just returned |
| PoolProgress.NeverStuck | internal/cluster/manager.go:103-176 | in every reachable state every Get, Invalidate and Close under way can take its next step, or waits for a connect or for the reaper, which can |
| PoolProgress.ConnectEnds | internal/cluster/manager.go:146-170 | a connect that goes well makes exactly one session, for its entry, and its Get can return; one that goes badly makes none, and its Get must remove the entry |
| PoolTheorems.EarlyIsEarly | internal/cluster/manager.go:259-273 | the history of early removals is that of the run: the entry was in the map, its connect not ended, and then it was not in the map |
| PoolTheorems.CloseEmptiesPool | internal/cluster/manager.go:110-118 | the sweep of Close leaves nothing in the map |
| PoolTheorems.QuietMeansClosed | internal/cluster/manager.go:103-118 | once the pool is empty and at rest, every session is closed, except those of entries removed while connecting |
| PoolTheorems.SessionLost | internal/cluster/manager.go:259-273 | a run in which an Invalidate during the connect leaves a session open for ever |
| PoolHistory.LostExactly | internal/cluster/manager.go:259-273 | a session is lost exactly if at some step of the run the last holder of its entry let go of it before it had a session |
| PoolHistory.RemovedEarlyYetClosed | internal/cluster/manager.go:259-273 | a run in which an Invalidate during the connect loses nothing, because its Close comes after |
| PoolTheorems.CapHolds | internal/cluster/manager.go:294-307 | in every run with non-empty IDs the map stays within the cap |
| PoolHistory.ExceedsExactly | internal/cluster/manager.go:294-329 | a Get takes the pool over its cap exactly if the pool is full, the ID is new and the oldest entry is that of the empty ID |
| PoolHistory.EmptyIdUnbounded | internal/cluster/manager.go:310-329 | whatever the cap, there are runs with the empty ID that pool any number of entries |
| RecencyList.BoundedListIsLastDistinct | internal/cluster/manager.go:294-329 | a bounded recency list holds exactly the last so many distinct IDs requested |
| RecencyList.LastDistinctSound | internal/cluster/manager.go:294-329 | the distinct IDs are those requested, each once |
| RecencyList.LastDistinctOrdered | internal/cluster/manager.go:294-329 | they are listed by their last request |
| PoolView.GotGood | internal/cluster/manager.go:141-176 | a Get keeps list, map and accounting consistent and touches the list; if its connect fails it only leaves the room it made |
| PoolView.GotSound | internal/cluster/manager.go:141-176 | whatever the ID, the clock and the entry evicted, a Get keeps list, map and accounting consistent |
| PoolView.GotInOrder | internal/cluster/manager.go:310-329 | with non-empty IDs and a rising clock the entry evicted is the last of the list |
| PoolEffects.GotExactly | internal/cluster/manager.go:141-176 | a Get leaves every other connection as it is but the one it evicts, whose session is closed; its own is pooled afterwards, used just now, with the session it had or the next one, unless its connect failed |
| PoolEffects.RemovedExactly | internal/cluster/manager.go:259-273 | an Invalidate removes exactly its connection and closes exactly its session |
| PoolEffects.SweptExactly | internal/cluster/manager.go:345-360 | the reaper removes exactly what was last used before the cutoff and closes exactly the sessions of these |
| PoolView.RemoveAllGood | internal/cluster/manager.go:345-360 | removals keep the pool consistent, and the others their order |
| PoolView.RemoveStale | internal/cluster/manager.go:345-360 | removing what is older than a cutoff removes a suffix of the list |
| PoolView.RecentExactly | internal/cluster/manager.go:345-360 | what stays is exactly what was used at the cutoff or later |
| PoolView.PoolIsLastDistinct | internal/cluster/manager.go:141-176 | after any run of successful Gets the pool holds exactly the last MaxSessions distinct connections requested, by recency, and every session is pooled or closed |
| SessionPool.Manager.constructor | internal/cluster/manager.go:76-100 | a new pool is empty and consistent; a cap or TTL that is not positive stands for 50 sessions or fifteen minutes |
| SessionPool.Manager.FindOldest | internal/cluster/manager.go:311-321 | the scan, in any order, finds an entry that no other was used before |
| SessionPool.Manager.EvictOldest | internal/cluster/manager.go:310-329 | exactly such an entry is removed, its session closed, unless it is that of the empty ID |
| SessionPool.Manager.Entry | internal/cluster/manager.go:294-307 | an existing entry is returned untouched; for a new one room is made and a placeholder put in |
| SessionPool.Manager.Get | internal/cluster/manager.go:141-176 | for every ID and clock a Get has the effect specified, and returns the pooled session, the new one, or nothing if the connect failed; with non-empty IDs and a rising clock it refines the recency list |
| SessionPool.Manager.Invalidate | internal/cluster/manager.go:255-273 | exactly the connection's entry is removed, its session closed |
| SessionPool.Manager.Reap | internal/cluster/manager.go:345-360 | exactly what was idle for longer than the TTL is removed and closed, in the order found; in order of use it is a suffix of the list |
| SessionPool.Manager.Close | internal/cluster/manager.go:103-118 | the first Close leaves the pool empty with every created session closed once; later ones do nothing |
| SessionPool.Manager.Status | internal/cluster/manager.go:282-290 | reports exactly the pooled connections and their last use |
| Quoting.QuoteIdent | internal/dataedit/builder.go:242-261 | the loop with its flag prints the identifier bare or quoted as specified |
| Quoting.NeedsQuoting | internal/schema/ddl.go:156-169 | quotes are needed exactly if the identifier is not bare |
| Quoting.QuoteIdentDdl | internal/schema/ddl.go:149-154 | the other implementation prints every identifier alike |
| Quoting.ReplaceAll | internal/dataedit/builder.go:237 | the escaped text is the text with every quote doubled |
| Quoting.IdentReads | internal/dataedit/builder.go:242-261 | every identifier reads back in front of anything that does not continue it |
| Quoting.StringReads | internal/schema/ddl.go:142-144 | every string literal reads back |
| Quoting.QuotingInjective | internal/schema/ddl.go:142-154 | no two identifiers print alike, and no two strings do |
| Quoting.BareExactly | internal/dataedit/builder.go:240-261 | an identifier is printed as it is exactly if it is not empty, has only lower-case letters, digits and underscores, and does not begin with a digit |
| TableSchema.ColumnsOfKind | internal/schema/dto.go:124-138 | the filtered columns, sorted in place, are those sorted by position |
| TableSchema.SortInPlace | internal/schema/dto.go:132-136 | swapping neighbours sorts the array by insertion |
| TableSchema.SortIsStable | internal/schema/dto.go:132-136 | positions do not fall, and columns at one position keep their order |
| TableSchema.SortKeeps | internal/schema/dto.go:132-136 | the sorted columns are a permutation |
| TableSchema.KindHas | internal/schema/dto.go:124-138 | a column is among them exactly if it is of the kind and in the table |
| TableSchema.KindInOrder | internal/schema/dto.go:104-138 | the columns of a kind are those of the metadata, each as often as there, and their positions do not fall |
| DmlAcceptance.KeyColumnsExactly | internal/dataedit/builder.go:40-45 | the key columns are the partition columns followed by the clustering columns, both by position, each as often as in the metadata |
| TableSchema.KindIsCanonical | internal/schema/dto.go:104-111 | with distinct positions the key columns do not depend on the order of the metadata |
| NameOrder.SortedKeys | internal/dataedit/builder.go:217-224 | the sorted keys do not depend on the order in which the map yields them |
| NameOrder.SortedSetRises | internal/dataedit/builder.go:217-224 | they rise strictly and are exactly the keys |
| NameOrder.RisingUnique | internal/dataedit/builder.go:217-224 | a strictly rising list is determined by its elements |
| NameOrder.LessExactly | internal/dataedit/builder.go:217-224 | names are compared as strings: at the first difference one ends or has the smaller character |
| NameOrder.SortIsStable | internal/schema/ddl.go:27-29 | names do not fall, and elements of one name keep their order |
| Coercion.LiteralLexes | internal/dataedit/builder.go:228-238 | the literal shown for an accepted value is one token of CQL: no value can end its literal early or open a comment |
| Coercion.TextShownAsBound | internal/dataedit/coerce.go:133-144 | the text shown is the text bound exactly if it is no JSON number with an exponent below -4 or above 5 |
| Coercion.IntegerShownAsBound | internal/dataedit/coerce.go:146-167 | the integer shown is the integer bound exactly if the value is no JSON number with a fraction or of a million or more |
| ValueTypes.TypesByName | internal/dataedit/coerce.go:27-131 | a value is treated by the name of its type, in any case and without the spaces around it |
| ValueTypes.BooleanShownAsBound | internal/dataedit/coerce.go:45-52 | into a boolean column go booleans and twelve texts; what is bound is true exactly if what is shown is 1, t or true in any case, and false exactly if it is 0, f or false |
| ValueTypes.IntegersExactly | internal/dataedit/coerce.go:53-62 | an integer column accepts exactly the integers of its width, and binds them |
| ValueTypes.VarintsExactly | internal/dataedit/coerce.go:63-72 | a varint column accepts a text exactly if it is an integer of whatever size |
| ValueTypes.TextsExactly | internal/dataedit/coerce.go:33-34 | a text column accepts texts, numbers and booleans, and binds a text as it is |
| ValueTypes.LibraryExactly | internal/dataedit/coerce.go:35-44 | an identifier, time, date, blob or address is accepted exactly if its library takes the text, for all but identifiers without the spaces around it, and bound as what it makes of it |
| ValueTypes.RealsExactly | internal/dataedit/coerce.go:73-90 | a text goes into a decimal, float or double column exactly if, without the spaces around it, it is a number, or for the latter two a special float, and the library takes it |
| ValueTypes.ShownByName | internal/dataedit/builder.go:228-238 | numeric types and booleans are shown bare, null as null, all others quoted |
| ValueTypes.WritableTypes | internal/dataedit/builder.go:56-68 | of the known types all but the counter can be written; collections cannot, and of other types only null is accepted |
| ValueTypes.NeverWritten | internal/dataedit/builder.go:47-68 | an accepted edit writes no counter and no collection, and an update no column of the key |
| JsonNumbers.SameText | internal/dataedit/coerce.go:137-139 | %v and the text without an exponent agree exactly for the exponents that %v does not print |
| JsonNumbers.ShownAsInteger | internal/dataedit/builder.go:234-236 | the %v text of a number is an integer exactly for whole numbers below a million, and then it is the one truncated to |
| JsonNumbers.PlainDenotes | internal/dataedit/coerce.go:137-139 | the text without an exponent stands for the number: its digits with as many zeros behind them, or as many of them behind the point, as the power of ten says |
| JsonNumbers.ShownDenotes | internal/dataedit/builder.go:228-238 | so does the text with an exponent |
| JsonNumbers.TruncatesExactly | internal/dataedit/coerce.go:146-150 | converted to an integer a number loses exactly what is behind its point, whatever its sign |
| Dml.ColumnIndex | internal/dataedit/builder.go:32-38 | name to column, the last of one name counting |
| DmlAcceptance.IndexHas | internal/dataedit/builder.go:32-38 | a name is known exactly if some column has it |
| DmlAcceptance.IndexExactly | internal/dataedit/builder.go:32-38 | and it stands for the last column that has it |
| Dml.MergeRow | internal/dataedit/builder.go:206-215 | changes override the key's values, in whatever order the maps are read |
| Dml.BuildWhere | internal/dataedit/builder.go:190-204 | the clause, arguments and shown clause are those of the key columns in order, or the first value that does not convert is reported |
| Dml.BuildInsert | internal/dataedit/builder.go:71-112 | the statement is that of the plan of the edit, or its first error is reported |
| Dml.BuildUpdate | internal/dataedit/builder.go:116-159 | the statement is that of the plan of the edit, or its first error is reported; that the value bound is the one shown is stated type by type by the lemmas of ValueTypes |
| Dml.BuildDelete | internal/dataedit/builder.go:162-176 | the same for deletes |
| DmlAcceptance.InsertAcceptedExactly | internal/dataedit/builder.go:71-103 | an insert is accepted exactly if all key columns are present, null or not, and all its columns can be written; the incomplete key is reported first |
| DmlAcceptance.UpdateAcceptedExactly | internal/dataedit/builder.go:116-150 | an update is accepted exactly if the full key is given and not null, something changes, the changed columns are editable, and all values convert; errors in this order |
| DmlAcceptance.DeleteAcceptedExactly | internal/dataedit/builder.go:162-187 | a delete is accepted exactly if the full key is given, not null, and converts |
| DmlRoundTrip.ReadsBack | internal/dataedit/builder.go:105-111 | whatever the names and values, both texts of an accepted edit parse back to exactly its table, columns and literals |
| DmlFilling.DisplayIsFilledIn | internal/dataedit/builder.go:152-157 | there are as many placeholders as arguments and literals, and filling the literals in, in order, gives the shown text |
| DmlMeaning.WhereIsKey | internal/dataedit/builder.go:189-204 | the WHERE clause binds each key column exactly once, in key order, to the value given for it |
| DmlMeaning.UpdateHitsOneRow | internal/dataedit/builder.go:116-159 | read as CQL with its arguments bound, an accepted UPDATE changes only the row whose full key is the edit's, and in it exactly the changed columns |
| DmlMeaning.DeleteHitsOneRow | internal/dataedit/builder.go:162-176 | an accepted DELETE removes exactly the row whose full key is the edit's |
| DmlMeaning.InsertHitsOneRow | internal/dataedit/builder.go:71-112 | an accepted INSERT writes only the row of the key it gives, and in it exactly its other columns |
| DmlMeaning.KeyIsComplete | internal/dataedit/builder.go:178-187 | the key of an accepted update or delete has a value for every key column |
| DmlMeaning.InsertKeyComplete | internal/dataedit/builder.go:75-80 | the key of an accepted insert has one exactly if the edit gives no key column null |
| DmlMeaning.NullKeyAccepted | internal/dataedit/builder.go:75-80 | an insert of a null key that is accepted |
| EditService.BuildAll | internal/dataedit/service.go:219-244 | the statements of all edits in order and the number of deletes, or the first failure |
| EditService.Preview | internal/dataedit/service.go:128-150 | the text of the batch with its counts, or the first failure |
| EditService.Commit | internal/dataedit/service.go:153-215 | a batch is executed exactly if nothing is in the way: then it is that of the statements with their arguments, and the history is handed the preview's text and the outcome; else the first obstacle is reported |
| ChangeSets.PlansExactly | internal/dataedit/service.go:219-244 | a changeset compiles exactly if each of its edits does, to the plans of these, one for each, in order |
| ChangeSets.FailureExactly | internal/dataedit/service.go:219-244 | otherwise it fails with the failure of the first edit that does not compile |
| ChangeSets.PlanIsOfKind | internal/dataedit/service.go:226-241 | an edit compiles to a statement of its own kind; what is no insert, update or delete is refused |
| ChangeSets.BatchExactly | internal/dataedit/service.go:183-186 | the batch has one entry for each edit, in order: the text of the edit's own plan with its arguments |
| ChangeSets.DeletesExactly | internal/dataedit/service.go:231-233 | the number of deletes is that of the edits of this kind |
| ChangeSets.ObstacleExactly | internal/dataedit/service.go:153-176 | a commit goes ahead exactly if the connection is known and not read-only, the table is known, all edits compile, and there is a session if there is an edit; else the first of these that fails is reported |
| EditService.PreviewReadsBack | internal/dataedit/service.go:141-149 | split at the semicolons outside quotes, the preview is one statement for each edit, each reading back as its edit's table, columns and literals |
| EditService.HistoryReadsBack | internal/dataedit/service.go:190-208 | what the history is handed of a commit reads back as the edits that were executed |
| CellKeys.KeyRoundTrip | web/src/components/table-data.tsx:164-203 | a dirty cell's key leads back to the cell exactly if the column's name has no colon |
| GridEdits.TableData.OnCellChange | web/src/components/table-data.tsx:160-177 | an edited cell is remembered or, if it is as loaded, forgotten; a new row's cell is replaced |
| GridEdits.TableData.OnAddRow | web/src/components/table-data.tsx:179-185 | a row of empty cells is appended |
| GridEdits.TableData.OnToggleDelete | web/src/components/table-data.tsx:187-195 | an unmarked row is marked and a marked one unmarked, no other row, cell or new row changes; a new row is dropped |
| GridEdits.TableData.OnReset | web/src/components/table-data.tsx:99-104 | the buffer is empty |
| GridEdits.TableData.BuildChangeSet | web/src/components/table-data.tsx:197-236 | the updates collect exactly the dirty cells of rows that stay, by row; then the deletes, then the inserts |
| GridEdits.EventsKeepValid | web/src/components/table-data.tsx:160-195 | every event keeps dirty cells and deleted rows within the page, no row deleted twice |
| GridHandlers.EditShows | web/src/components/table-data.tsx:160-177 | after an edit the cell shows the text typed and every other cell what it did; no row comes, goes or changes its mark |
| GridHandlers.DirtyExactly | web/src/components/table-data.tsx:160-171 | a cell is dirty after an edit exactly if the text typed is not the one loaded, and every other cell exactly if it was |
| GridHandlers.RunsDiffer | web/src/components/table-data.tsx:160-171 | after any run of events only cells that show something else than what was loaded are dirty |
| GridHandlers.CellExactly | web/src/components/table-data.tsx:145-146 | the cell under a column's name is the one at the column's place, of columns with one name the last's |
| GridHandlers.ToggleMarks | web/src/components/table-data.tsx:187-195 | a toggle marks an unmarked row and takes a mark back; every other row keeps its mark, and all cells show what they did |
| GridHandlers.ToggleTwice | web/src/components/table-data.tsx:187-195 | two toggles of a row show what was shown before |
| GridHandlers.ToggleDrops | web/src/components/table-data.tsx:187-193 | toggling a new row drops exactly that one |
| GridHandlers.AddShows | web/src/components/table-data.tsx:179-185 | adding a row shows one more, empty row behind the others |
| GridHandlers.ResetShows | web/src/components/table-data.tsx:99-104 | a reset shows the page as loaded |
| GridHandlers.KeysAreComplete | web/src/components/table-data.tsx:197-222 | the updates and deletes of a changeset give the full key: with no key cell null on the page none is refused for an incomplete one |
| GridMeaning.CommitMakesItSo | web/src/components/table-data.tsx:197-236 | applying the changeset to the page gives exactly the grid as shown: the rows that stay, and each new row with its non-empty cells |
| GridMeaning.NewRowCommitted | web/src/components/table-data.tsx:223-233 | under the key of a new row the committed table has exactly that row's non-empty cells |
| GridHandlers.ShownIsCommitted | web/src/components/table-data.tsx:197-236 | the cell of a row that stays is committed with the text it shows if it was edited, and else as loaded |
| GridHandlers.NewShownIsCommitted | web/src/components/table-data.tsx:223-233 | a new row is committed with exactly the cells that show something |
| GridTheorems.RunsAreSound | web/src/components/table-data.tsx:160-195 | after any run of what the grid offers the buffer is valid, no key cell is dirty and no new row has a key |
| GridTheorems.EveryRunCommits | web/src/components/table-data.tsx:160-236 | from every state the grid can reach without new rows, committing makes the page what it shows; from every other the changeset is refused |
| GridTheorems.NewRowsNeverCommit | web/src/components/data-grid.tsx:70-73 | once the grid has a new row, its changeset is refused, whatever else is in it |
| GridTheorems.EditsAreOfDistinctRows | web/src/components/table-data.tsx:199-222 | the updates and deletes are of existing rows, no two of the same |
| GridTheorems.OrderDoesNotMatter | internal/dataedit/service.go:219-244 | edits of distinct rows may be applied in any order |
| GridTheorems.ChangesInAnyOrder | web/src/components/table-data.tsx:197-236 | a changeset whose new keys are distinct and not on the page gives the same table in any order |
| GridFilter.FilterMisaddresses | web/src/components/table-data.tsx:152-177 | under a filter an edit of the i-th row shown is, for every column and text, the edit of the row meant exactly if no row up to it is hidden |
| GridFilter.WrongRowEdited | web/src/components/table-data.tsx:152-177 | a page and a filter with which a hidden row is edited |
| Ddl.BuildCreateTable | internal/schema/ddl.go:15-68 | the printed statement is the text specified for the table, of which HeadReadsBack and OptionsReadBack state what it says of each field |
| Ddl.WithClause | internal/schema/ddl.go:70-114 | the clause is the text specified for the options, of which OptionsReadBack states what it says of each |
| Ddl.FormatStringMap | internal/schema/ddl.go:126-140 | the map's entries by key, quoted, in whatever order the map yields them |
| Ddl.HasNonDefaultClusteringOrder | internal/schema/ddl.go:116-124 | whether some clustering order is neither empty nor ascending |
| DdlReading.ReadsBack | internal/schema/ddl.go:15-140 | the statement reads back as its head and list of options; which field of the table each of these carries is stated by the next two |
| DdlOptions.HeadReadsBack | internal/schema/ddl.go:15-68 | the statement reads back with the table's names, exactly its columns with their types and static flags, the key first and the others by name, and exactly the columns of its key, in order |
| DdlOptions.OptionsReadBack | internal/schema/ddl.go:70-114 | each option is read back exactly if its own field is not empty, zero or default, and carries that field: numbers in decimal, texts, map entries by key, clustering orders; none occurs twice and there are no others |
| DdlReading.EveryColumnOnce | internal/schema/ddl.go:25-36 | the columns printed are those of the table, each as often as it is there |
| DdlReading.OrdersReadBack | internal/schema/ddl.go:73-84 | the clustering orders are recovered, ascending where none is printed |
| DdlReading.ColumnReadsExactly | internal/schema/ddl.go:30-36 | a column's line reads back exactly if the column is static or its type does not end in ` static` |
| DdlReading.Canonical | internal/schema/ddl.go:22-29 | with distinct names and positions the statement does not depend on the order of the columns in the metadata |
| SchemaCache.TtlCache.constructor | internal/schema/cache.go:25-30 | a cache starts empty, with thirty seconds where no lifetime is given |
| SchemaCache.TtlCache.Get | internal/schema/cache.go:32-44 | a read returns exactly what the trace makes visible at its time |
| SchemaCache.TtlCache.Put | internal/schema/cache.go:46-50 | a write appends to the trace |
| SchemaCache.TtlCache.InvalidatePrefix | internal/schema/cache.go:54-62 | the loop, in any order, drops exactly the keys with the prefix |
| SchemaCache.LastExactly | internal/schema/cache.go:32-62 | a value is the last under a key exactly if some event set it and none since set the key or invalidated a prefix of it |
| SchemaCache.VisibleExactly | internal/schema/cache.go:32-62 | a read returns a value exactly if it was the last set under the key, nothing invalidated it since, and it is no older than the lifetime |
| SchemaCache.InvalidationDrops | internal/schema/service.go:34-51 | after InvalidateConn no dropped key is visible and every other key is as it was |
| SchemaCache.DropsOwn | internal/schema/service.go:43-51 | all of a connection's own keys are dropped |
| SchemaCache.DropsExactly | internal/schema/service.go:43-51 | which keys of other connections are dropped: with IDs of one length none, else those kept under an ID that extends it |
| SchemaCache.KeysExactly | internal/schema/service.go:55-370 | with colon-free IDs two topics share a key exactly if they are the same topic of the same connection, or tables of it whose names read alike with a colon between them |
| SchemaCache.KeysDiffer | internal/schema/service.go:55-370 | without colons in the names of keyspaces no two topics of a connection share a key |
| SchemaCache.SchemaService.constructor | internal/schema/service.go:26-31 | the service starts with an empty cache of thirty seconds |
| SchemaCache.SchemaService.Fetch | internal/schema/service.go:55-90 | what is visible is returned; otherwise what the cluster answers, which is then cached |
| SchemaCache.SchemaService.InvalidateConn | internal/schema/service.go:34-41 | exactly the five prefixes of the connection are invalidated |
| Highlight.Tokenize | web/src/components/cql-highlight.tsx:19-77 | the tokens, round by round, of every source on which the loop ends |
| TokenClasses.OnlyTokenization | web/src/components/cql-highlight.tsx:19-77 | a source has a tokenization, in which every token is of its class and as long as it can be and nothing is left out, exactly if the loop ends, and then the loop's is the only one |
| Highlight.Lossless | web/src/components/cql-highlight.tsx:19-77 | the texts of the tokens put together are the source, also with unterminated strings |
| Highlight.StopsExactly | web/src/components/cql-highlight.tsx:29-35 | the loop ends exactly if there is no white space but spaces, tabs and newlines outside strings and comments |
| Highlight.NeverEnds | web/src/components/cql-highlight.tsx:22-35 | otherwise it is before the end of the source after however many rounds |
| Highlight.OrdinarySources | web/src/components/cql-highlight.tsx:19-77 | a source whose white space is spaces, tabs and newlines is tokenized without loss |
| Migrations.Database.ApplyMigrations | internal/metastore/db.go:93-131 | a run skips what is recorded and runs the others, each with its record, until it fails or is done |
| Migrations.EachOnceInOrder | internal/metastore/db.go:82-131 | however often it is interrupted and started again, the scripts run once each and in ascending order |

## Left out

- Non-ASCII input to the classifier is treated byte by byte as the code does, but lower-casing of such bytes is not modelled.
- Closing the manager from two goroutines at once, which closes a channel twice, is not modelled: the flag is set in one step.
- The throwaway sessions of the connection test, and the context timeouts of connects, are not part of the pool's accounting.
- SessionPool.Manager.Get: does not model a nil connection or the building of the cluster configuration; both are outcomes of the connect here.
- SessionPool.Manager.constructor: does not model the start of the reaper's loop or the default factory.
- Dml.BuildInsert: reserved words as bare identifiers, static-column rules, user-defined and vector types are as in the code, which does not treat them; quoting is stated at the level of the lexer.
- Coercion.LiteralLexes: does not model the parsers of dates, UUIDs, decimals, floats, addresses and base64, which are other packages' code.
- The JSON round trip of values is not claimed: a timestamp at midnight is printed as a date, which the timestamp parser refuses.
- EditService.Commit: does not model what the cluster does with the batch beyond its success, nor timeouts and durations.
- QueryService.Service.Run: does not model page cursors, consistency levels, timeouts or the contents of rows; a full history channel drops records.
- GridEdits.TableData.BuildChangeSet: does not model which of two dirty cells counts if a colon in a column's name makes their keys decode to the same cell; it is one of them.
- GridMeaning.CommitMakesItSo: static columns, whose cells rows share, are excluded; a new row with the key of another would write over it.
- Paging in the grid and in the workspace, cell selection and rendering.
- Ddl.BuildCreateTable: a table detail that is missing altogether prints nothing, and kinds of columns other than the four are not printed; neither is modelled.
- DdlReading.ReadsBack: excludes types that span lines or, unless the column is static, end in ` static`; a table without a partition key; and clustering orders with commas or parentheses.
- Migrations.Database.ApplyMigrations: the parsing of file names, and files with the same version, are not modelled beyond the refusal to record a version twice.
- Connection settings, users, cookies, encryption, password hashing, rate limiting, TLS and completion lists: their substance is in libraries, or the members would be easy.
