# debeasy: a Dafny model of its core

debeasy is a web front end for Postgres, MySQL and SQLite. This project models the parts of it that
are hard to get right and states what they promise as Dafny contracts and lemmas. `dafny verify
dfyconfig.toml` checks all of it. Line references are to the Go sources of debeasy.

## What is modelled

* **The driver pool** (`Pool.dfy`, `PoolProtocol.dfy`, `PoolCoherence.dfy`, `PoolAgreement.dfy`,
  `PoolIdle.dfy`). The class `DriverPool` has one method for each section that `internal/dbx/pool.go` runs
  under its mutex; a ghost multiset counts the `Close` calls. `PoolProtocol` turns those sections, the store
  accesses and the opening and pinging of drivers into a step relation over threads in flight, with the update
  and delete handlers of the web server beside them. Over every interleaving: each driver is cached once, held
  once, closed once or leaked; what `Get` returns is open and stays so for the idle time; idle eviction is
  exact; and it is stated exactly when a cached configuration is the stored one.
* **The SQL text pipeline** (`SqlScanner.dfy`, `Identifiers.dfy`, `DdlPrinter.dfy`, `DdlParser.dfy`,
  `IndexParser.dfy`, `SynthesisedDdl.dfy`, `SynthesisedReader.dfy`, `Refusals.dfy`): the quote-aware statement
  splitter, identifier and literal quoting, and the DDL printers that place commas while they stream.
  Identifiers, literals, CREATE TABLE, CREATE INDEX and the statements of the script that debeasy shows for a
  table have readers that undo the printing; the splitter cuts the script into these statements. `Refusals`
  has which definitions and row edits are refused, and with which error.
* **The login rate limiter** (`LoginLimiter.dfy`, `LoginGuarantee.dfy`): the truncating token bucket between
  exact buckets over the reals, one that admits all it admits and those of which it admits all.
* **Sessions** (`Rfc3339.dfy`, `Sessions.dfy`): `Get` compares instants, `PurgeExpired` compares texts; the
  calendar, the printer and the parser of RFC 3339 timestamps (sections 5.1 and 5.6) connect the two.
* **Row edits** (`Decimals.dfy`, `RowStatements.dfy`, `RowReader.dfy`, `RowEdits.dfy`, `RowForm.dfy`,
  `RowSave.dfy`): the statement builders of the three drivers for every order in which Go may range over a
  map, read back as a database reads them and given a meaning as changes of a database; and what the edit form
  does with them.
* **SQLite foreign keys** (`ForeignKeys.dfy`): a group-by written with a map of pointers.
* **Updates** (`Semver.dfy`, `SemverForm.dfy`, `UpdateChecker.dfy`): the tag parser, the version order, and
  the release that is kept in memory and in a cache file over restarts.
* **Paging** (`Paging.dfy`): the capped row reader and the walk over a table along the "next" links.

`Text.dfy` and `Catalog.dfy` hold shared string lemmas and table metadata.

## Findings

Where a property one would expect does not hold for every input, the model keeps the code as it is and
states exactly when it holds.

* An update of a connection whose store write and eviction both fall between a `Get`'s store read and its
  insertion leaves the old configuration in the pool for good (`UpdateInsideGetLeavesStaleEntry`). The
  delete handler evicts before it deletes, so a `Get` in between leaves an entry for an id that no longer
  exists (`GetInsideDeleteLeavesEntry`). `CachedAgreesExactly` has the exact condition: with no update of the
  id pending, an entry agrees with the store if and only if the row at its insertion was the one that its
  `Get` had read and no delete handler has removed the row since; one that has was past its eviction at the
  insertion.
* A `Get` that is past its lookup when `Stop` runs writes to a nil map and leaks its driver
  (`StopDuringGetLeaks`, `InsertLeaksIffStopped`).
* A column type that spells out `NOT NULL` prints like a shorter type with the flag; `RoundTrip` gives the
  exact condition for reading a CREATE TABLE back. A CREATE INDEX reads back whatever its unquoted method
  holds, but only Postgres keeps the method (`IndexRoundTrip`).
* A session that expires within the current second is refused by `Get` but not yet purged
  (`PurgedAreExpired`); a session answers until its expiry cut down to the second (`CreateThenGet`).
* An exact bucket of capacity 10 and one token per 10 s admits whatever the limiter admits, and a window of
  T seconds admits at most 10 + floor(T/10) calls; both are the best possible (`ExactBucketIsTight`,
  `WindowBoundReached`).
* A pause of k periods gives back k calls, up to ten (`PauseGivesCalls`). A refill is cut to whole periods and
  restarts the clock, so an IP that calls just short of every 20 s gets one token a call, half the rate.
  `GuaranteeIsExact` says which exact buckets of two tokens or more `Allow` keeps up with; ten and a half tokens
  and one token per 20 s are always admitted (`HalfTheRateIsGuaranteed`).
* The splitter does not know backticks, so a MySQL name is left whole only if it is itself balanced
  (`BacktickIdentClosed`).
* An update without values is not a statement (`UpdateMeaning`); "next" never ends for a limit of 0, which
  the data handler accepts (`WalkEndsIffPositive`).
* Saving an edit form without a change turns every NULL of the row into an empty text, and blanks all columns
  but the key when the row is outside the sample that fills the form (`UneditedSave`).
* `Newer` is a weak order on tags that parse, and not beyond them (`TiesCarryOver`).

## Model

| member | source | states |
|---|---|---|
| Pool.DriverPool.LookUp | internal/dbx/pool.go:51-58 | the first locked section of Get: a hit returns the cached driver and sets its time of use, a miss changes nothing (what the time is for is PoolIdle.ReturnedStays) |
| PoolIdle.ReturnedStays | internal/dbx/pool.go:51-82 | over all runs: a driver that Get returns, from the cache, as a new entry or after a lost race, when the clock is at n stays cached under the id and open until a handler evicts the id, the pool stops, or a sweep with a cutoff after n runs |
| PoolIdle.ReturnedStaysForIdleTime | internal/dbx/pool.go:51-120 | so it stays for the idle time after it was returned, whatever sweeps run |
| PoolIdle.IdleIsSwept | internal/dbx/pool.go:107-120 | a driver that Get no longer returns is gone after any sweep that starts later than the idle time after the last return |
| Pool.DriverPool.InsertOrYield | internal/dbx/pool.go:73-81 | the second locked section of Get: lost race, insertion, or write to the nil map after Stop |
| Pool.DriverPool.Evict | internal/dbx/pool.go:85-92 | the entry goes and its driver is closed once; without an entry nothing happens |
| Pool.DriverPool.EvictIdle | internal/dbx/pool.go:107-120 | exactly the entries used before the cutoff go, each driver closed once, and their number is returned |
| Pool.DriverPool.WithoutIdle | internal/dbx/pool.go:111-119 | the same for the loop, in whatever order the map is ranged over |
| Pool.DriverPool.Stop | internal/dbx/pool.go:41-49 | every cached driver is closed once and the map is gone |
| PoolProtocol.StepKeepsPlaces | internal/dbx/pool.go:41-120 | every step of Get, Test, Evict, evictIdle and Stop keeps each driver in one place, moved as the step says |
| PoolProtocol.DriversOwnedOnce | internal/dbx/pool.go:41-120 | over all interleavings each opened driver is in exactly one place: cached under one id, held by one call, closed once, or leaked; no other driver is anywhere |
| PoolProtocol.ReturnedIsOpen | internal/dbx/pool.go:51-82 | a driver that Get returns is open at that moment and cached under the id asked for |
| PoolProtocol.InsertLeaksIffStopped | internal/dbx/pool.go:73-81 | a Get fails on the nil map and leaks its driver if and only if Stop came before |
| PoolProtocol.NoLeakBeforeStop | internal/dbx/pool.go:51-82 | no driver leaks before Stop |
| PoolProtocol.CleanStopClosesAll | internal/dbx/pool.go:41-49 | when no Get is in flight at Stop or starts later, nothing leaks, and once no Test is in flight every driver ever opened has been closed once |
| PoolProtocol.StopDuringGetLeaks | internal/dbx/pool.go:48-80 | a run that shows why the hypothesis of the clean stop is needed |
| PoolProtocol.SweepIsExact | internal/dbx/pool.go:107-120 | idle eviction is exact under every interleaving although its cutoff is read before the lock; entries used within the idle time stay, and the count is that of entries removed and drivers closed |
| PoolCoherence.StepKeepsCoherent | internal/server/handlers_connections.go:74-108 | every step keeps: a cached or held configuration is the stored one or an overlap with a handler explains it |
| PoolCoherence.CachedAgreesOrExplained | internal/server/handlers_connections.go:74-101 | over all interleavings a cached configuration that differs from the stored one has an update's eviction pending or comes from a Get that a handler overlapped (one way; the exact condition is PoolAgreement.CachedAgreesExactly) |
| PoolCoherence.UpdateWritesRow | internal/store/connections.go:73-96 | an update writes the one row if it is there, with the old password where none is given, and no other row |
| PoolAgreement.CachedAgreesExactly | internal/server/handlers_connections.go:74-101 | over all interleavings that leave an entry and no update of its id pending: the entry agrees with the store if and only if at its insertion the stored row was the driver's configuration and no delete handler removed the row since, and one that did was past its eviction then |
| PoolAgreement.InsertedWasRead | internal/dbx/pool.go:60-80 | the configuration of an inserted driver is the row that its Get read from the store |
| PoolAgreement.KeptEntry | internal/dbx/pool.go:84-92 | while a driver stays cached, no update of its id completes, and its row changes by a delete under way from the start or not at all |
| PoolAgreement.ClosedForGood | internal/dbx/pool.go:41-120 | a closed driver is never cached again |
| PoolCoherence.SeparateRunAgrees | internal/server/handlers_connections.go:74-101 | when handlers and Gets of one id do not overlap, a cached configuration is the stored one but while an update is between its write and its eviction, and an id that is not stored has no entry at any time |
| PoolCoherence.StepKeepsStored | internal/server/handlers_connections.go:95-101 | every such step keeps: ids that are cached or about to be are stored, and an id being deleted is not cached |
| PoolCoherence.UpdateInsideGetLeavesStaleEntry | internal/server/handlers_connections.go:82-91 | an update inside a Get leaves a stale entry with nothing in flight |
| PoolCoherence.GetInsideDeleteLeavesEntry | internal/server/handlers_connections.go:95-101 | a Get between a delete's eviction and its store delete leaves an entry for a deleted id |
| SqlScanner.SplitSqlText | internal/dbx/exec.go:122-146 | the byte loop with its two flags, which are never both set, computes the split |
| SqlScanner.NoCutMeaning | internal/dbx/exec.go:131-141 | what "no cut inside" means: a semicolon stands only where a quote is open |
| SqlScanner.CutCharacterised | internal/dbx/exec.go:122-146 | the segments are the only list that rejoins to the text, has no unquoted semicolon inside a segment and ends every segment before a semicolon outside quotes |
| SqlScanner.RunStatements | internal/dbx/exec.go:14-28 | the statements that run, trimmed and without blanks, or the error for none |
| SqlScanner.StatementsHomomorphism | internal/dbx/exec.go:14-23 | list(a + ";" + b) = list(a) ++ list(b) if and only if a ends outside quotes |
| SqlScanner.StatementsFixpoint | internal/dbx/exec.go:14-23 | the statements joined by semicolons are the statements of the joined text |
| SqlScanner.ClosedIsOneStatement | internal/dbx/exec.go:122-146 | a closed text without white space around it is one statement |
| Text.SpaceCodes | internal/dbx/exec.go:14-23 | what counts as white space at the ends of a statement |
| Identifiers.ReadBackIdent | internal/dbx/identifier.go:10-26 | exactly the nonempty names without the quote character are accepted, and each is read back whatever follows it |
| Refusals.QuotedName | internal/dbx/identifier.go:10-26 | MySQL names go into backticks and the others into double quotes; refused are the empty name and names with that character, each with its error |
| Identifiers.ReadBackQualified | internal/dbx/identifier.go:37-50 | qualified has a left inverse over (schema, name), the form without schema included |
| Identifiers.QualifiedInjective | internal/dbx/identifier.go:37-50 | different (schema, name) pairs never print the same |
| Identifiers.ReadBackLiteral | internal/dbx/identifier.go:54-56 | quoteLiteral decodes to its input for every string |
| Identifiers.LiteralIsClosed | internal/dbx/identifier.go:54-56 | a literal takes the splitter from neutral to neutral without a cut, for every string |
| Identifiers.IdentIsClosed | internal/dbx/identifier.go:20-25 | so does a double-quoted identifier |
| Identifiers.BacktickIdentClosed | internal/dbx/identifier.go:15-19 | a backtick identifier does if and only if the bare name does |
| DdlPrinter.BuildCreateTable | internal/dbx/ddl.go:11-57 | the streamed text equals the separator-join of the column lines and the key line, with the errors in the order of the code |
| Refusals.TableAccepted | internal/dbx/ddl.go:11-46 | printed are exactly the definitions with a column, a table name, schema and column names that can be quoted, and types that are not blank |
| Refusals.TableRefused | internal/dbx/ddl.go:12-18 | having no columns comes before everything else, then the table name |
| Refusals.ColumnRefused | internal/dbx/ddl.go:27-36 | then the first bad column, its name before its type |
| DdlPrinter.StreamLine | internal/dbx/ddl.go:47-50 | a comma decided from "something follows" while streaming is the separator of the join |
| DdlPrinter.BuildCreateIndex | internal/dbx/ddl.go:59-89 | the loop over the columns and the parts added to the statement give the CREATE INDEX text or the first error, in the order of the code |
| IndexParser.IndexRoundTrip | internal/dbx/ddl.go:59-89 | a parser gives back every printed definition as its dialect keeps it, whatever the unquoted method holds, and the definition itself if and only if the dialect is Postgres or there is no method |
| IndexParser.IndexAccepted | internal/dbx/ddl.go:59-78 | exactly the definitions with columns and quotable names are printed |
| Refusals.IndexRefused | internal/dbx/ddl.go:60-70 | no columns, the name of the index, the table, in this order |
| Refusals.IndexColumnRefused | internal/dbx/ddl.go:71-78 | then the first bad column |
| IndexParser.IndexPrintInjective | internal/dbx/ddl.go:79-88 | two definitions that print the same are the same as far as the dialect keeps them |
| IndexParser.NoListInList | internal/dbx/ddl.go:84-87 | no column list ends in another one, because quotes come in pairs: that is where the method ends |
| DdlParser.RoundTrip | internal/dbx/ddl.go:11-57 | a parser gives back the printed definition, types trimmed, if and only if no column text contains the printer's own delimiters and equal names agree on the key flag |
| DdlParser.ParsedIsUnambiguous | internal/dbx/ddl.go:27-56 | whatever the parser reads satisfies that condition |
| DdlParser.PrintInjective | internal/dbx/ddl.go:11-57 | two such definitions that print the same are the same up to white space around types |
| DdlParser.SpelledOutSuffixIsAmbiguous | internal/dbx/ddl.go:37-43 | a type that spells out NOT NULL prints like the shorter type with the flag |
| SynthesisedDdl.SynthesisedCreateTable | internal/dbx/ddl.go:92-157 | the four loops print the table statement with separators between its items and one line per index that is not the primary key's |
| SynthesisedDdl.WriteColumns | internal/dbx/ddl.go:99-116 | the column loop, with a comma after the last line exactly if a key or foreign key follows |
| SynthesisedDdl.WriteForeignKeys | internal/dbx/ddl.go:124-139 | the foreign-key loop |
| SynthesisedDdl.WriteIndexes | internal/dbx/ddl.go:141-155 | the index loop, which skips primary indexes |
| SynthesisedDdl.TableStatementClosed | internal/dbx/ddl.go:92-140 | the table statement is closed when types and defaults are, whatever the names hold |
| SynthesisedDdl.ScriptAccepted | internal/dbx/ddl.go:92-97 | there is a script exactly for a table that can be named |
| SynthesisedReader.StatementCreatesTable | internal/dbx/ddl.go:92-140 | without foreign keys the table statement is the CREATE TABLE that buildCreateTable prints for the same columns, so that what DdlParser.RoundTrip says holds of it |
| SynthesisedReader.StatementReadsBack | internal/dbx/ddl.go:92-140 | with foreign keys a reader gives back the name, the columns with type, NOT NULL, default and key, and for every foreign key the columns, the table and its columns, if and only if the columns meet the condition of DdlParser.RoundTrip |
| SynthesisedReader.ReadBackForeignKey | internal/dbx/ddl.go:124-139 | a foreign-key line reads back before any text as which columns reference which columns of which table |
| SynthesisedReader.IndexStatementsReadBack | internal/dbx/ddl.go:141-155 | the i-th index statement reads back as the name, table, columns and uniqueness of the i-th index that is not primary |
| SynthesisedDdl.ScriptSplits | internal/dbx/ddl.go:92-157 | for Postgres and SQLite the splitter cuts the script into the table statement and the index statements, in order, if and only if the table statement is closed |
| SynthesisedDdl.IndexStatementCount | internal/dbx/ddl.go:141-144 | there are as many index statements as indexes that are not primary |
| LoginLimiter.IpBucket.Spend | internal/server/middleware.go:177-190 | the refill and the call on one bucket (what a refill gives: PauseGivesCalls at least, SimulatedByExactBucket at most) |
| LoginLimiter.LoginRateLimiter.Allow | internal/server/middleware.go:166-191 | the method on mutable buckets computes one call of the bucket and leaves the other buckets alone |
| LoginLimiter.IpsIndependent | internal/server/middleware.go:171-176 | what one IP gets in any run is what it would get alone |
| LoginLimiter.SimulatedByExactBucket | internal/server/middleware.go:177-190 | every run that Allow admits an exact bucket of 10 tokens and one token per 10 s admits |
| LoginLimiter.ExactBucketIsTight | internal/server/middleware.go:166-191 | an exact bucket does so if and only if it has at least that capacity and that rate |
| LoginLimiter.WindowBound | internal/server/middleware.go:166-191 | in any window of length T at most 10 + floor(T / 10 s) calls of one IP succeed |
| LoginLimiter.WindowBoundReached | internal/server/middleware.go:166-191 | that bound is reached for every number of periods |
| LoginLimiter.DenialsAreShort | internal/server/middleware.go:177-188 | consecutive denials of one IP lie within less than 10 s |
| LoginLimiter.TokensStayInRange | internal/server/middleware.go:177-190 | tokens stay between 0 and 10, and a denied call changes nothing |
| LoginGuarantee.PauseGivesCalls | internal/server/middleware.go:177-190 | at least: after a pause of k periods of one IP the first n calls at that moment succeed for every n up to k and ten, whatever came before |
| LoginGuarantee.GuaranteeIsExact | internal/server/middleware.go:166-191 | Allow admits every run that an exact bucket of two tokens or more admits if and only if that bucket gains at most one token in a pause one nanosecond short of two periods and reaches no eleventh token within a period |
| LoginGuarantee.HalfTheRateIsGuaranteed | internal/server/middleware.go:166-191 | ten and a half tokens and one per 20 s are always admitted |
| Rfc3339.CivilRoundTrip | internal/store/sessions.go:32-35 | the calendar conversion loses nothing |
| Rfc3339.CivilOrder | internal/store/sessions.go:32-35 | calendar order is order in time |
| Rfc3339.CivilBack | internal/store/sessions.go:32-35 | every date and time of the calendar is reached |
| Rfc3339.MonthLengths | internal/store/sessions.go:32-35 | the months have the lengths of the Gregorian calendar |
| Rfc3339.YearsCounted | internal/store/sessions.go:32-35 | leap years are every fourth, not every hundredth, but every four hundredth |
| Rfc3339.UnixEpoch | internal/store/sessions.go:32-35 | the second that Go counts from prints as the start of 1970 |
| Rfc3339.PaddedOrder | internal/store/sessions.go:71-72 | fields of fixed width compare as texts as they compare as numbers |
| Rfc3339.TextOrderIsTimeOrder | internal/store/sessions.go:71-72 | in years 0 to 9999 the order of the timestamps is the order of the instants |
| Rfc3339.ParseFormat | internal/store/sessions.go:54-58 | parsing undoes formatting in years 0 to 9999 and fails for all later ones |
| Sessions.SessionStore.Create | internal/store/sessions.go:23-40 | inserts the row with the expiry as text, or fails on an id that is there |
| Sessions.SessionStore.Get | internal/store/sessions.go:42-64 | missing, unreadable, expired (and then deleted) or found |
| Sessions.SessionStore.PurgeExpired | internal/store/sessions.go:71-74 | deletes the rows whose text is less than that of now |
| Sessions.Timestamps.PurgesExactly | internal/store/sessions.go:71-72 | the text comparison decides that the expiry second is over |
| Sessions.Timestamps.PurgedAreExpired | internal/store/sessions.go:58-72 | a purge takes only sessions that Get refuses, and leaves exactly those still in their expiry second |
| Sessions.Timestamps.PurgeThenGet | internal/store/sessions.go:42-74 | a purge changes the answer of a Get exactly when the Get's clock is behind |
| Sessions.Timestamps.CreateThenGet | internal/store/sessions.go:32-58 | a created session answers until its expiry cut down to the second |
| Sessions.Timestamps.CreateAnswers | internal/store/sessions.go:23-64 | Create answers with the session that Get will find, but for the part of the expiry below a second; an id that is there is refused and no row changes |
| Sessions.Timestamps.GetLeaves | internal/store/sessions.go:42-64 | a Get deletes the session it refuses for its expiry and nothing else, and when it answers with which error |
| Sessions.Timestamps.RunsAgree | internal/store/sessions.go:42-74 | two stores that agree up to refused sessions keep agreeing over any run, one with purges and one without |
| Sessions.PurgesInvisible | internal/store/sessions.go:42-74 | purges anywhere in a run change no answer; the purged store is a subset that lacks only sessions Get refuses |
| Decimals.ReadBackDecimal | internal/dbx/pg.go:441 | a printed number reads back |
| RowStatements.UpdateRow | internal/dbx/pg.go:365-398 | the loops build text and arguments for any order of the maps; the first bad column name is the error, the table's last |
| RowStatements.DeleteRow | internal/dbx/mysql.go:369-390 | the same for DELETE |
| RowStatements.InsertRow | internal/dbx/sqlite.go:267-279 | the same for INSERT |
| RowStatements.WriteAssigns | internal/dbx/pg.go:372-391 | one loop over a map: assignments numbered on from the arguments so far |
| Refusals.TableTexts | internal/dbx/sqlite.go:267-334 | two tables have one text if and only if name and schema are equal, the schema not counting for SQLite |
| Refusals.TableTextRefused | internal/dbx/identifier.go:37-50 | which tables cannot be named, and the name at fault |
| Refusals.UpdateRefused | internal/dbx/pg.go:365-398 | no key is the first error, then the first bad name of the columns set and the key columns as they come, then the table |
| Refusals.DeleteRefused | internal/dbx/mysql.go:369-390 | the same for DELETE |
| Refusals.InsertRefused | internal/dbx/sqlite.go:267-283 | the same for INSERT, which needs no key |
| RowReader.ReadBackAssigns | internal/dbx/pg.go:378-391 | a list of assignments reads back as its columns bound to consecutive arguments, numbered or positional |
| RowReader.ReadBackUpdate | internal/dbx/pg.go:393-395 | an UPDATE reads back if it sets something, and else is no statement |
| RowReader.ReadBackDelete | internal/dbx/sqlite.go:313-332 | a DELETE reads back |
| RowReader.ReadBackInsert | internal/dbx/mysql.go:323-333 | an INSERT reads back if it names a column |
| RowEdits.UpdateMeaning | internal/dbx/pg.go:365-398 | for every dialect and map order: refused exactly without a key or with an unquotable name, and otherwise the rows of the named table that match the key get exactly the given values, and its other rows and every other table are unchanged |
| RowEdits.DeleteMeaning | internal/dbx/sqlite.go:313-334 | for every dialect and map order the statement removes exactly the rows of the named table that match the key and leaves every other table alone |
| RowEdits.InsertMeaning | internal/dbx/mysql.go:323-335 | the new row of the named table gets exactly the given values |
| RowEdits.AssignedAt | internal/dbx/mysql.go:343-350 | assigning the bindings in any order gives each column its own value |
| RowEdits.DeleteConserves | internal/dbx/mysql.go:369-390 | rows left and rows matching add up to the rows before, and no row left matches |
| RowEdits.DeleteKeepsOthers | internal/dbx/mysql.go:369-390 | every other row stays as often as it was there |
| RowForm.RowMatches | internal/server/handlers_object.go:228-242 | the nested loops decide that every key column prints as wanted |
| RowForm.FetchRowByPK | internal/server/handlers_object.go:204-226 | the first matching row of the sample, printed, or the key values alone |
| RowForm.FormFollowsUpdate | internal/server/handlers_object.go:228-252 | the form matches a row if and only if the update will change it, but for NULL in a key column given as empty |
| RowForm.PrintedAt | internal/server/handlers_object.go:211-214 | the form has one value per column, NULL as the empty text |
| RowForm.FormShowsUpdatedRow | internal/server/handlers_object.go:204-226 | the form shows the first row of the sample that the update will change |
| RowSave.ReadRowForm | internal/server/handlers_object.go:140-147 | the loop takes a value for every column and a key value for every key column from the form |
| RowSave.KeyNamesAre | internal/server/handlers_object.go:140-145 | the key columns are those marked as part of the primary key |
| RowSave.KeySubmitted | web/templates/partials/row_form.html:17 | a form opened with a value for each key column submits that key |
| RowSave.SaveKeepsTable | internal/server/handlers_object.go:135-155 | saving a form leaves the table as it is if and only if every row that the key matches holds the texts of the form |
| RowSave.UneditedSave | internal/server/handlers_object.go:116-155 | opening the form of a row and saving it unchanged keeps the table if and only if the row is in the sample and holds no NULL, or is outside it and all its columns but the key are empty texts |
| ForeignKeys.GroupForeignKeys | internal/dbx/sqlite.go:133-157 | the loop over a map of pointers computes the group-by of the rows that could be scanned |
| ForeignKeys.GroupRow | internal/dbx/sqlite.go:145-152 | one more row changes its own key only |
| ForeignKeys.OneMoreRow | internal/dbx/sqlite.go:145-152 | one more row adds its column pair at the end of its key and leaves every other key alone |
| ForeignKeys.IdsInFirstSeenOrder | internal/dbx/sqlite.go:149-156 | one key per distinct id, in first-seen order |
| ForeignKeys.GroupingLosesNothing | internal/dbx/sqlite.go:136-156 | the rows of the keys together are the accepted rows |
| ForeignKeys.AcceptedConcat | internal/dbx/sqlite.go:136-144 | rows that cannot be scanned are skipped, the others kept in order |
| ForeignKeys.RowsOfInOrder | internal/dbx/sqlite.go:145-152 | the rows of a key are all the rows with its id, in their order |
| ForeignKeys.KeyAt | internal/dbx/sqlite.go:145-156 | the i-th key is that of the i-th id in first-seen order: its name, the table and actions of the first row with the id, and the column pairs of its rows in order |
| ForeignKeys.PairsConserved | internal/dbx/sqlite.go:151-156 | both column lists of a key are equally long and nonempty, and the pairs are as many as the accepted rows |
| Semver.ParseSemver | internal/updates/updates.go:226-249 | the loop computes the parse |
| Semver.ParsePrinted | internal/updates/updates.go:223-249 | any printed version in the range of int, with or without "v", suffix and white space, parses to itself |
| Semver.ParseNormalises | internal/updates/updates.go:223-249 | a tag that parses means the same as the plain print of its version |
| SemverForm.ParsesExactly | internal/updates/updates.go:223-249 | a tag parses to a version if and only if it is white space, an optional "v", three numbers in range with dots between them, an optional suffix and white space, and the version is those numbers |
| SemverForm.NoDotNoVersion | internal/updates/updates.go:204-249 | a tag without a dot, as "dev", is never newer and nothing is newer than it |
| Semver.NegativeUnreachable | internal/updates/updates.go:242-245 | the test for a negative number never decides |
| Semver.Newer | internal/updates/updates.go:209-221 | the loop decides the order of the triples (which is that of numbers: NewerInNumbers) |
| Semver.NewerInNumbers | internal/updates/updates.go:204-221 | for printed versions in the range of int, the newer one is the one with the greater number, in which major outweighs minor and minor outweighs patch |
| Semver.NewerIsStrictOrder | internal/updates/updates.go:204-221 | irreflexive, asymmetric and transitive on all tags |
| Semver.TiedIsEqual | internal/updates/updates.go:204-221 | total on tags that parse: ties are equal versions |
| Semver.TiesCarryOver | internal/updates/updates.go:209-213 | ties are transitive exactly but through a tag that does not parse |
| UpdateChecker.Checker.Load | internal/updates/updates.go:92-114 | all outcomes of reading the cache file |
| UpdateChecker.Checker.Check | internal/updates/updates.go:134-176 | all outcomes of a check, in memory, on disk and to the caller |
| UpdateChecker.Checker.Clear | internal/updates/updates.go:178-185 | memory is cleared even where the file cannot be removed |
| UpdateChecker.Checker.WriteCache | internal/updates/updates.go:189-202 | the file holds the old content or the new |
| UpdateChecker.LoadReports | internal/updates/updates.go:90-114 | a missing file is no error, an unreadable or malformed one is; the release in memory changes only for a newer one in the file |
| UpdateChecker.CheckReports | internal/updates/updates.go:126-176 | a release is returned if and only if the answer names one that is no draft or prerelease and is newer, and is then in memory; an error without one means no usable answer and no change, an error with one a file that could not be written |
| UpdateChecker.BannerIsNewer | internal/updates/updates.go:92-176 | over all runs, restarts, version changes, failures and damage to the file, the release in memory is none or newer than the running version |
| UpdateChecker.RestartsLoseNothing | internal/updates/updates.go:90-176 | with a working cache file the banner shows the finding of the last check that counts, if it is newer than the version now running, over any restarts, upgrades and downgrades |
| UpdateChecker.FailedWriteForgets | internal/updates/updates.go:126-133 | a failed write keeps the banner until the restart and then shows what the file held |
| Paging.ReadRows | internal/dbx/exec.go:64-98 | the rows up to the cap, cut if and only if there are more, or the error of the row or cursor |
| Paging.ReadSample | internal/dbx/pg.go:270-284 | the cap of limit + 1 never cuts a page |
| Paging.PageSize | internal/dbx/pg.go:270-284 | a page has as many rows as asked for, a hundred without a positive limit, or what is left |
| Paging.PrevAfterNext | web/templates/partials/object_data.html:14-24 | "prev" after "next" restores every offset that is not negative, for every limit |
| Paging.NextAfterPrev | web/templates/partials/object_data.html:14-24 | "next" after "prev" restores the offset if and only if it is at least the limit |
| Paging.WalkIsTable | internal/server/handlers_object.go:44-66 | for a positive limit the walk ends and its pages are the table, each row once; their number is exact |
| Paging.WalkEndsIffPositive | internal/server/handlers_object.go:44-66 | "next" comes to an end if and only if the limit is positive |
| Paging.NoEndWithoutLimit | internal/dbx/pg.go:270-274 | where each click leads for limits that are not positive, by dialect |

## Left out

- Pool.DriverPool.Stop: a second Stop panics on closing a closed channel; the protocol has Stop happen once.
- PoolProtocol.StepKeepsPlaces: drivers are ids with a configuration; contexts, timeouts and the kinds of failure of open, ping and store read are one failing branch each.
- PoolAgreement.CachedAgreesExactly: ids of connections are not reused, as AUTOINCREMENT in the store's schema has it (internal/store/schema.sql:24).
- PoolCoherence.SeparateRunAgrees: the trimming of the connection's name in the store and the encryption of the password are not modelled.
- SynthesisedDdl.SynthesisedCreateTable: for a table name that cannot be quoted the comment line with the error text is an error value without its text.
- DdlPrinter.BuildCreateTable: errors are values; their texts, with %q quoting, are not modelled.
- SynthesisedReader.StatementReadsBack: for keys with columns on both sides and quotable names, and for types without white space at their ends; the script prints neither names nor actions of foreign keys, and a name that cannot be quoted prints as nothing.
- LoginGuarantee.GuaranteeIsExact: for exact buckets that hold at least two tokens; with less than one nothing is admitted, and between one and two only the half is stated that slow buckets are kept up with.
- LoginLimiter.LoginRateLimiter.Allow: the float64 product is an exact division, so its rounding and the saturation of very long durations are not modelled.
- LoginLimiter.SimulatedByExactBucket: for a clock that does not go back, as Go's monotonic clock; the method itself is modelled for all clocks.
- Rfc3339.ParseFormat: the parser reads the UTC form with "Z" and without fractions, which is the only form the store writes; years before 0 are not representable.
- Sessions.PurgesInvisible: ids are assumed fresh and instants within years 0 to 9999; the deletion of a user's sessions with the user is not modelled.
- RowEdits.UpdateMeaning: values are texts or NULL and columns are compared by their exact names; type conversion, collation and case-insensitive names of the databases are not modelled.
- RowEdits.InsertMeaning: an INSERT without columns is outside the reader's grammar, though MySQL gives it a meaning.
- RowStatements.UpdateRow: one method stands for the copies in the three drivers, which differ in quoting, placeholder and table name only.
- RowSave.UneditedSave: the key is that of one row, as a primary key is, and its columns are all in the form; a browser that holds back an empty field marked as required is not modelled.
- RowForm.FetchRowByPK: a value is its printed text or NULL; the printing of numbers and booleans is not modelled.
- Paging.WalkIsTable: the table and its order do not change between pages, as SQL promises only with an ORDER BY on a unique key; overflow of the offset is not modelled.
- UpdateChecker.Checker.Check: the network, HTTP and JSON are a response value, and the temporary file that is renamed into place is not modelled.
- Text.Trim: white space is the ASCII white space; strings are sequences of bytes.
- Real drivers, catalogue queries, DSN building and database/sql are foreign code.
- HTTP routing, templates (but for the pager's two formulas), cookies, CSRF and the admin checks are single-branch code.
- Password hashing, encryption and random ids are library cryptography.
- The download of updates, the installer, configuration and the admin command line are input and output.
- looksLikeQuery, ParseKind, splitCSV and normaliseValue are each settled by reading one function.
