# masterslave-datasource in Dafny

A model of the core of a read/write-splitting JDBC router, with its properties proved. The router
is `MasterslaveDataSource` and the `MasterslaveConnection` sessions it hands out. It classifies
each SQL statement by its leading keyword once comments are stripped (`SqlType.atomOf` over
`StringUtils`). Reads go to the slave and writes to the master. A session binds backend
connections lazily, and once a write connection is bound it serves everything. A health checker
probes each backend and flips the data source's availability flags.

| file | module | models |
|---|---|---|
| `wrappers.dfy` | `Wrappers` | `Option` (Java `null`) and `Result` (a value or an exception) |
| `faults.dfy` | `Faults` | the exceptions the core raises: `SQLException`, `NullPointerException`, `UnsupportedOperationException` |
| `string_utils.dfy` | `StringUtils` | `regionMatches`, `equalsIgnoreCase`, `startsWithIgnoreCaseAndWs`, `String.trim`, and `stripComments` as a loop over a reader cursor, proved to compute the function `Strip` |
| `strip_lemmas.dfy` | `StripLemmas` | what `stripComments` keeps and drops: block, `#` and `--` comments, quoted literals, lone `/` and `-` |
| `sql_type.dfy` | `SqlTypes` | the `SqlType` enum, `value()`, `isRead()`, the select-for-update pattern as a predicate, and `atomOf` |
| `routing.dfy` | `Routing` | the four `readConnection`/`writeConnection` resolutions of `MasterslaveDataSource` over a snapshot of its fields |
| `call_log.dfy` | `Calls` | backend connections as opaque handles, the calls made on them with their answers, and the two ways the session issues a batch: stop at the first exception, or make every call and keep the last exception |
| `session.dfy` | `Session` | the state of a session (`AbstractConnection` plus `MasterslaveConnection`) as a value, each operation as a transition, and the router's promises as lemmas |
| `masterslave.dfy` | `Masterslave` | the classes `MasterslaveDataSource` and `MasterslaveConnection`; every method is proved to make the transition `Session` gives it |
| `health_checker.dfy` | `HealthChecker` | `check`, `ensureInitScheduler` and one run of a scheduled task, modelled as the trace of the calls it makes |

The backend is opaque. What a `getConnection` call grants is a parameter (`Calls.Acquire`). The
answer of the `i`-th call an operation makes is `ReplyAt(replies, i)`. Every call is recorded
in the session's log, so "touches only the write connection" and "acquires at most one
connection" are statements about that log. In the same way, a health-check tick takes the
probe outcomes of attempt `i` as `probe(i)`.

A session is valid when its log shows exactly one granted `getConnection` for each role it has
a connection bound to. The data source hands out valid sessions, and each public operation of
`MasterslaveConnection` that changes the session (`TargetConnection`, `SetTransactionIsolation`,
`SetAutoCommit`, `SetCatalog`, `Commit`, `Rollback`, `GetWarnings`, `ClearWarnings`,
`GetMetaData`, `Close`) requires and keeps validity. So over a session's whole lifetime, as its
clients use it, at most one read and one write connection are acquired. The other methods of
the class (`Issue`, `IssueNext`, `CloseCall`, `AcquireConnection`, `NormalizeConnection`,
`PushSetting`, `BindWriteConnection`, `OnEachBound`, `CloseStatements`, `CloseConnections`,
`CloseBound`) stand for private code and steps that only these operations run. Their contracts
state the exact transition they make, not validity.

Behaviour of the code that a reader might not expect, modelled as written:

- `--` starts a comment whatever follows it, and quoted text is kept rather than removed
  (`StripLemmas.DashDashCommentDropped`, `StripLemmas.QuotedLiteralKept`).
- The `escaped` flag of `stripComments` is dead (`false && ...`), so a backslash never
  escapes a quote (`StripLemmas.BackslashDoesNotEscape`).
- A lone `-` is followed by the decimal code of the next character: `StringBuilder.append(int)`
  is called on the `int` that `read()` returned, the character's code (`StripLemmas.LoneDashAppendsCode`). A line break
  right after a `-` thus becomes `10`, and `atomOf` answers `SELECT` (a read) for `select x-`,
  line feed, `for update`, but `SELECT_FOR_UPDATE` for the same statement without the `-`
  (`SqlTypes.DashHidesLineBreak`).
- `atomOf` turns `//` comments off, so a lone `/` is dropped and the next character is kept
  without quote tracking (`StripLemmas.LoneSlashDropped`).
- `setTransactionIsolation` only records the level. Unlike `setAutoCommit`, it pushes nothing
  to a bound write connection, and it is not a no-op for an unchanged value
  (`Session.IsolationIsOnlyRecorded`).
- `setCatalog` pushes the new catalog to the read connection as well as the write connection
  (`Session.SetCatalogTouchesEachBound`).
- `getMetaData` on a session with nothing bound binds a read connection and then runs
  `normalizeConnection`. With any non-default setting, that dereferences the null write
  connection (`Session.MetaDataNormalizesAbsentWrite`).
- `close` does not check whether the session is already closed. Closing twice closes the
  connections twice (`Session.CloseIsNotIdempotent`).
- `targetConnection` does not call `checkClosed`.
- Resolution dereferences a null `slave` field when the slave is still marked writable and up
  and the master is marked down: every plain write and read then raises
  (`Routing.UnwiredSlaveDereferencesNull`). The factory that wires the
  data source marks a missing slave down, and under that wiring no resolution reaches a null
  field (`Routing.WellWiredNeverDereferencesNull`).

## Model

| member | source | states |
|---|---|---|
| StringUtils.RegionMatches | src/main/java/cn/yxffcode/datasource/StringUtils.java:33-63 | answers exactly `RegionMatchesSpec`: false when either region leaves its string, else every pair of characters matches (equal, or equal after upper- or lower-casing when case is ignored); true for a non-positive length |
| StringUtils.EqualsIgnoreCase | src/main/java/cn/yxffcode/datasource/StringUtils.java:10-20 | two nulls are equal and a null equals nothing else; strings of different lengths differ; equal strings are equal; otherwise equal exactly when every pair of characters matches ignoring case |
| StringUtils.WhitespacePrefix | src/main/java/cn/yxffcode/datasource/StringUtils.java:93-99 | the scan stops at the first character that is not `Character.isWhitespace`, or at the end |
| StringUtils.StartsWithIgnoreCaseAndWs | src/main/java/cn/yxffcode/datasource/StringUtils.java:73-118 | a null `searchIn` answers whether `searchFor` is null; a null `searchFor` with a non-null `searchIn` raises `NullPointerException`; otherwise true exactly when, after the leading whitespace, the text begins with `searchFor` ignoring case |
| StringUtils.TrimmedHead | src/main/java/cn/yxffcode/datasource/SqlType.java:37 | `trim` drops exactly the leading characters up to U+0020 |
| StringUtils.TrimmedTail | src/main/java/cn/yxffcode/datasource/SqlType.java:37 | `trim` drops exactly the trailing characters up to U+0020 |
| StringUtils.Trim | src/main/java/cn/yxffcode/datasource/SqlType.java:37 | the result is the slice of the input after the dropped head, starts and ends above U+0020, and is empty exactly when every character is at most U+0020 |
| StringUtils.DigitChar | src/main/java/cn/yxffcode/datasource/StringUtils.java:218 | the digit character of a value below ten |
| StringUtils.Decimal | src/main/java/cn/yxffcode/datasource/StringUtils.java:218 | `append(int)` of a character code appends a non-empty run of decimal digits with no leading zero (its value is `DecimalRoundTrip`) |
| StringUtils.IndexOf | src/main/java/cn/yxffcode/datasource/StringUtils.java:169 | `stringOpens.indexOf(c)`: the first index holding `c`, or -1 when `c` does not occur |
| StringUtils.QuoteStep | src/main/java/cn/yxffcode/datasource/StringUtils.java:163-173 | quote tracking keeps `markerTypeFound` either -1 or an index of `stringOpens`, so `stringCloses.charAt(markerTypeFound)` stays in range |
| StringUtils.LineEnd | src/main/java/cn/yxffcode/datasource/StringUtils.java:207-209 | the first `\n` or `\r` of the text, or its end: no line break before it |
| StringUtils.SkipBlock | src/main/java/cn/yxffcode/datasource/StringUtils.java:178-197 | the block-comment loop never reads past the text (where it stops is `SkipBlockStopsAtFirstCloser`) |
| StringUtils.Step | src/main/java/cn/yxffcode/datasource/StringUtils.java:161-233 | one turn of the main loop reads at least one and at most all remaining characters and keeps the quote state well formed |
| StringUtils.Read | src/main/java/cn/yxffcode/datasource/StringUtils.java:161 | `StringReader.read`: the next character's code and one position on, or -1 at the end |
| StringUtils.SlurpLine | src/main/java/cn/yxffcode/datasource/StringUtils.java:207-209 | the slurp loop reads up to and including the first line break, leaving it in `currentChar`, or reads to the end and leaves -1 |
| StringUtils.SkipBlockComment | src/main/java/cn/yxffcode/datasource/StringUtils.java:178-198 | the block-comment loop stops where `SkipBlock` says |
| StringUtils.BlockCommentTurn | src/main/java/cn/yxffcode/datasource/StringUtils.java:180-196 | one pass of the block-comment loop, including the read-ahead after `\r` and `\n`, advances consistently with `SkipBlock` |
| StringUtils.TrackQuotes | src/main/java/cn/yxffcode/datasource/StringUtils.java:163-173 | the quote-tracking `if`/`else if` chain computes `QuoteStep`: the open quote's closer ends it, else an opener outside quotes opens one; the dead `escaped` flag never matters |
| StringUtils.Turn | src/main/java/cn/yxffcode/datasource/StringUtils.java:161-233 | one turn of the loop body (read, quote tracking, comment branches, final append) appends and reads exactly what `Step` says |
| StringUtils.AfterSlash | src/main/java/cn/yxffcode/datasource/StringUtils.java:175-203 | after a `/` outside quotes: a block comment is skipped with nothing appended; a line comment (when enabled) is slurped; any other character is appended without the slash; at the end nothing is appended |
| StringUtils.AfterDash | src/main/java/cn/yxffcode/datasource/StringUtils.java:210-228 | after a `-` outside quotes: a second `-` starts a line comment, slurped; any other character `c` appends `-` and the decimal code of `c`; at the end only `-` is appended |
| StringUtils.StripAt | src/main/java/cn/yxffcode/datasource/StringUtils.java:161-234 | stripping from a position is one turn of the loop followed by stripping what that turn left unread |
| StringUtils.Append | src/main/java/cn/yxffcode/datasource/StringUtils.java:161-233 | a turn preserves the loop invariant: builder plus the strip of the unread rest is unchanged, and the position strictly advances |
| StringUtils.StripComments | src/main/java/cn/yxffcode/datasource/StringUtils.java:133-240 | null in, null out; otherwise the builder holds exactly `Strip` of the whole text from the unquoted state |
| StripLemmas.DecimalRoundTrip | src/main/java/cn/yxffcode/datasource/StringUtils.java:218 | the digits appended for a lone `-` denote exactly the character code they were made from |
| StripLemmas.SkipBlockStopsAtFirstCloser | src/main/java/cn/yxffcode/datasource/StringUtils.java:178-197 | the block-comment loop stops right after the first `*` `/` pair and reads to the end when there is none; the line-break read-ahead never hides a closer |
| StripLemmas.SkipAhead | src/main/java/cn/yxffcode/datasource/StringUtils.java:182-196 | stopping at the first closer composes over a prefix that holds no closer |
| StripLemmas.BlockCommentRemoved | src/main/java/cn/yxffcode/datasource/StringUtils.java:175-198 | outside quotes a `/*...*/` comment is removed with its delimiters and stripping resumes after it as if it were absent |
| StripLemmas.UnterminatedBlockCommentDropsRest | src/main/java/cn/yxffcode/datasource/StringUtils.java:178-198 | an unterminated block comment outside quotes drops the rest of the input |
| StripLemmas.QuotedTextCopied | src/main/java/cn/yxffcode/datasource/StringUtils.java:163-173 | inside the quote opened by `stringOpens[i]`, every character but `stringCloses[i]` (comment markers, other quotes, backslashes) is copied unchanged, and the closer is copied and ends the quote |
| StripLemmas.QuotedStrip | src/main/java/cn/yxffcode/datasource/StringUtils.java:163-173 | inside a quote one character is read and copied per turn; only the matching closer returns to the unquoted state |
| StripLemmas.QuotedLiteralKept | src/main/java/cn/yxffcode/datasource/StringUtils.java:163-173 | outside quotes a quoted literal is copied whole, delimiters included |
| StripLemmas.BackslashDoesNotEscape | src/main/java/cn/yxffcode/datasource/StringUtils.java:163-166 | a backslash before the closer does not escape it: the literal still ends there |
| StripLemmas.LineEndAfter | src/main/java/cn/yxffcode/datasource/StringUtils.java:207-209 | the line comment ends at the line break that follows a single-line text |
| StripLemmas.HashCommentDropped | src/main/java/cn/yxffcode/datasource/StringUtils.java:204-209 | outside quotes a `#` comment is dropped up to the line break, which is still emitted |
| StripLemmas.DashDashCommentDropped | src/main/java/cn/yxffcode/datasource/StringUtils.java:210-228 | outside quotes `--` starts a comment whatever follows it; the comment is dropped up to the line break, which is still emitted |
| StripLemmas.TrailingLineCommentDropped | src/main/java/cn/yxffcode/datasource/StringUtils.java:204-228 | a `#` or `--` comment on the last line drops everything to the end |
| StripLemmas.LoneDashAppendsCode | src/main/java/cn/yxffcode/datasource/StringUtils.java:214-221 | a `-` outside quotes followed by `c` other than `-` emits `-` and the decimal code of `c`; a `-` at the end emits `-` alone |
| StripLemmas.LoneSlashDropped | src/main/java/cn/yxffcode/datasource/StringUtils.java:175-203 | with slash-slash comments off, a `/` outside quotes not followed by `*` is dropped and the next character is emitted; a final `/` is dropped |
| StripLemmas.PlainTextUnchanged | src/main/java/cn/yxffcode/datasource/StringUtils.java:161-233 | text without quote or comment characters passes through unchanged |
| StripLemmas.PlainPrefixCopied | src/main/java/cn/yxffcode/datasource/StringUtils.java:161-233 | a prefix without quote or comment characters is copied unchanged and stripping goes on after it from the unquoted state |
| SqlTypes.SqlType.Value | src/main/java/cn/yxffcode/datasource/SqlType.java:11-13 | `value()`: `DEFAULT_SQL_TYPE` alone has -100, `ALTER` alone has 111, every other kind a code in 0..10 |
| SqlTypes.ValueIdentifiesKind | src/main/java/cn/yxffcode/datasource/SqlType.java:72-74 | two kinds have the same code exactly when they are the same kind |
| SqlTypes.ReadKinds | src/main/java/cn/yxffcode/datasource/SqlType.java:23-32 | `isRead` holds exactly for `SELECT`, `SHOW` and `LOAD`; not for `SELECT_FOR_UPDATE` |
| SqlTypes.LowerAll | src/main/java/cn/yxffcode/datasource/SqlType.java:15-16 | ASCII lower-casing of every character, used for the case-insensitive pattern |
| SqlTypes.AtomOf | src/main/java/cn/yxffcode/datasource/SqlType.java:34-70 | a null statement raises `NullPointerException` (on `trim`); any other is classified on its comment-stripped, trimmed text |
| SqlTypes.Classify | src/main/java/cn/yxffcode/datasource/SqlType.java:39-68 | never answers `DEFAULT_SQL_TYPE`; a failure is the `SQLException` with the source's message; a select answer means the text starts with `select`, and it is `SELECT_FOR_UPDATE` exactly when the whole text matches the pattern |
| SqlTypes.FirstKeyword | src/main/java/cn/yxffcode/datasource/SqlType.java:39-64 | the first keyword, in the chain's order, that the text starts with after whitespace, none of the earlier ones matching |
| SqlTypes.ClassifyTakesFirstKeyword | src/main/java/cn/yxffcode/datasource/SqlType.java:39-68 | the first matching keyword of select, show, insert, update, delete, replace, truncate, create, drop, load, alter decides the kind; no match raises |
| SqlTypes.ClassifyRead | src/main/java/cn/yxffcode/datasource/SqlType.java:23-68 | a statement is a read exactly when its first keyword is `select` (not matching the pattern), `show` or `load` |
| SqlTypes.LeadingCommentIgnored | src/main/java/cn/yxffcode/datasource/SqlType.java:36-37 | a block comment in front of a statement does not change its kind |
| SqlTypes.StartsWithVerbatim | src/main/java/cn/yxffcode/datasource/StringUtils.java:87-118 | a text that holds a word verbatim at its head starts with it |
| SqlTypes.DiffersAt | src/main/java/cn/yxffcode/datasource/StringUtils.java:87-118 | a text that differs from a word at some position (ignoring case) does not start with it |
| SqlTypes.LowerAllOfLower | src/main/java/cn/yxffcode/datasource/SqlType.java:15-16 | lower-case text is unchanged by case folding |
| SqlTypes.ShortTextIsNoLockingSelect | src/main/java/cn/yxffcode/datasource/SqlType.java:15-16 | a text shorter than 18 characters cannot match the select-for-update pattern |
| SqlTypes.StrippedPlain | src/main/java/cn/yxffcode/datasource/SqlType.java:36-37 | text without quotes, comment markers or surrounding blanks is classified as it is |
| SqlTypes.CommentedUpdateIsUpdate | src/main/java/cn/yxffcode/datasource/SqlType.java:36-50 | `/* select */ update t set x=1` is an `UPDATE`: the keyword inside the comment is ignored |
| SqlTypes.UpdateAfterBlank | src/main/java/cn/yxffcode/datasource/SqlType.java:36-50 | ` update t set x=1` is an `UPDATE` |
| SqlTypes.UpdateStripped | src/main/java/cn/yxffcode/datasource/SqlType.java:36-37 | stripping and trimming ` update t set x=1` drops only the leading blank |
| SqlTypes.UpdateTrimmed | src/main/java/cn/yxffcode/datasource/SqlType.java:37 | trimming ` update t set x=1` drops its leading blank |
| SqlTypes.UpdateClassified | src/main/java/cn/yxffcode/datasource/SqlType.java:39-50 | the chain reads `update t set x=1` as an update |
| SqlTypes.LockingSelect | src/main/java/cn/yxffcode/datasource/SqlType.java:39-44 | `select * from t for update` is a `SELECT_FOR_UPDATE` |
| SqlTypes.LockingSelectClassified | src/main/java/cn/yxffcode/datasource/SqlType.java:39-44 | the chain reads `select * from t for update` as a locking select |
| SqlTypes.LockingSelectSplit | src/main/java/cn/yxffcode/datasource/SqlType.java:15-16 | `select * from t for update` matches `^select\s+.*\s+for\s+update.*$` with `* from t` as the first `.*` |
| SqlTypes.PlainSelect | src/main/java/cn/yxffcode/datasource/SqlType.java:39-44 | `select * from t` is a `SELECT` |
| SqlTypes.PlainSelectClassified | src/main/java/cn/yxffcode/datasource/SqlType.java:39-44 | the chain reads `select * from t` as a plain select |
| SqlTypes.PrefixNotWord | src/main/java/cn/yxffcode/datasource/SqlType.java:45-46 | keywords match as prefixes: `showcase` is a `SHOW` |
| SqlTypes.ShowcaseClassified | src/main/java/cn/yxffcode/datasource/SqlType.java:39-46 | the chain reads `showcase` as a show |
| SqlTypes.GrantRefused | src/main/java/cn/yxffcode/datasource/SqlType.java:65-68 | `grant all` raises the `SQLException` with the source's message |
| SqlTypes.GrantClassified | src/main/java/cn/yxffcode/datasource/SqlType.java:39-68 | the chain refuses `grant all` |
| SqlTypes.LineBrokenLockingSelect | src/main/java/cn/yxffcode/datasource/SqlType.java:15-16 | `select x`, line feed, `for update` is a `SELECT_FOR_UPDATE`: `\s` matches the line break |
| SqlTypes.LineBrokenClassified | src/main/java/cn/yxffcode/datasource/SqlType.java:39-44 | the chain reads `select x`, line feed, `for update` as a locking select |
| SqlTypes.DashHidesLineBreak | src/main/java/cn/yxffcode/datasource/StringUtils.java:214-221 | a `-` before the line break turns it into `10`: `select x-`, line feed, `for update` is a plain `SELECT`, while without the `-` it is a `SELECT_FOR_UPDATE` |
| SqlTypes.DashedAtom | src/main/java/cn/yxffcode/datasource/SqlType.java:36-44 | `atomOf` of `select x-`, line feed, `for update` is `SELECT` |
| SqlTypes.DashedClassified | src/main/java/cn/yxffcode/datasource/SqlType.java:39-44 | the chain reads `select x-10for update` as a plain select |
| SqlTypes.TrimKeepsTrimmed | src/main/java/cn/yxffcode/datasource/SqlType.java:37 | `trim` leaves a text that starts and ends above U+0020 unchanged |
| SqlTypes.DashedStrip | src/main/java/cn/yxffcode/datasource/StringUtils.java:214-221 | stripping `select x-`, line feed, `for update` gives `select x-10for update` |
| SqlTypes.DashBetweenPlainParts | src/main/java/cn/yxffcode/datasource/StringUtils.java:161-233 | between two comment-free texts a `-` and a line feed come out as `-10` |
| SqlTypes.NoBlankBeforeFor | src/main/java/cn/yxffcode/datasource/SqlType.java:15-16 | `select x-10for update` does not match the pattern: no `\s` precedes `for` |
| Routing.Call | src/main/java/cn/yxffcode/datasource/masterslave/MasterslaveDataSource.java:29 | calling `getConnection` on a null data-source field raises `NullPointerException`; otherwise the call is made as requested |
| Routing.WriteResolution | src/main/java/cn/yxffcode/datasource/masterslave/MasterslaveDataSource.java:42-47 | a plain write opens the slave exactly when the master is down and the slave is writable and up, else the master, even one marked down; never with credentials |
| Routing.ReadResolution | src/main/java/cn/yxffcode/datasource/masterslave/MasterslaveDataSource.java:25-30 | a plain read opens the slave when there is one and it is up; otherwise it is a plain write |
| Routing.EmptyCredentialsIgnored | src/main/java/cn/yxffcode/datasource/masterslave/MasterslaveDataSource.java:32-52 | with user name and password both null or empty, the credentialed overloads behave as the plain ones |
| Routing.CredentialedWrite | src/main/java/cn/yxffcode/datasource/masterslave/MasterslaveDataSource.java:49-57 | a credentialed write that fails over opens the slave without credentials; otherwise the master with them |
| Routing.CredentialedRead | src/main/java/cn/yxffcode/datasource/masterslave/MasterslaveDataSource.java:32-40 | a credentialed read opens the slave with the credentials when there is one and it is up, else resolves as a credentialed write |
| Routing.NoSlaveReadsMaster | src/main/java/cn/yxffcode/datasource/masterslave/MasterslaveDataSource.java:25-47 | with no slave and the slave marked down, every read goes to the master |
| Routing.WellWiredNeverDereferencesNull | src/main/java/cn/yxffcode/datasource/masterslave/MasterslaveDataSource.java:25-57 | with a master set and a missing slave marked down, no resolution reaches a null field |
| Routing.UnwiredSlaveDereferencesNull | src/main/java/cn/yxffcode/datasource/masterslave/MasterslaveDataSource.java:25-47 | with no slave, while the slave is marked writable and up and the master is marked down, every plain write and read dereferences the null slave; with a master present this is the only case in which a plain write raises |
| Calls.Rest | src/main/java/cn/yxffcode/datasource/masterslave/MasterslaveConnection.java:234-244 | the answers of a batch after its first call |
| Calls.InOrder | src/main/java/cn/yxffcode/datasource/masterslave/MasterslaveConnection.java:234-244 | statements issued one after another: each call is made only if all before it returned, so the first call that raises is the last made |
| Calls.InOrderOutcome | src/main/java/cn/yxffcode/datasource/masterslave/MasterslaveConnection.java:234-244 | such a batch returns exactly when every call returned, and otherwise raises what its first failing call raised |
| Calls.BestEffort | src/main/java/cn/yxffcode/datasource/masterslave/MasterslaveConnection.java:98-116 | every call is made, whatever the earlier ones answered |
| Calls.InOrderSingle | src/main/java/cn/yxffcode/datasource/masterslave/MasterslaveConnection.java:60-75 | a batch of one call makes it and answers what it answered |
| Calls.InOrderAllDone | src/main/java/cn/yxffcode/datasource/masterslave/MasterslaveConnection.java:234-244 | when every call returns, the in-order batch makes every call |
| Calls.InOrderFirstRaise | src/main/java/cn/yxffcode/datasource/masterslave/MasterslaveConnection.java:234-244 | the in-order batch stops right after the first call that raises, and raises that |
| Calls.LastFailureMeaning | src/main/java/cn/yxffcode/datasource/masterslave/MasterslaveConnection.java:97-119 | the failure `close` reports is none exactly when no call raised, else the last failure raised |
| Calls.BestEffortSnoc | src/main/java/cn/yxffcode/datasource/masterslave/MasterslaveConnection.java:98-116 | a best-effort batch with one more call makes that call last |
| Calls.LastFailureStep | src/main/java/cn/yxffcode/datasource/masterslave/MasterslaveConnection.java:101-105 | `last = e` keeps the most recent failure, one call at a time |
| Calls.NormalizePlan | src/main/java/cn/yxffcode/datasource/masterslave/MasterslaveConnection.java:234-244 | normalisation pushes `setAutoCommit(false)` iff autocommit is off, the isolation level iff it is not -1, the catalog iff one is set, each at most once, in that order (ranked by `PlanRank`), and nothing else |
| Calls.OnHandle | src/main/java/cn/yxffcode/datasource/masterslave/MasterslaveConnection.java:234-244 | the calls that carry the settings to the write connection, in order |
| Calls.GrantedAppend | src/main/java/cn/yxffcode/datasource/masterslave/MasterslaveConnection.java:221-232 | counting acquired connections splits over a log in two parts |
| Calls.NoConnectNoGrant | src/main/java/cn/yxffcode/datasource/masterslave/MasterslaveConnection.java:221-232 | calls on bound connections acquire no connection |
| Session.CheckClosed | src/main/java/cn/yxffcode/datasource/AbstractConnection.java:51-55 | `checkClosed` raises exactly when the session is closed, with the source's message |
| Session.GetAutoCommit | src/main/java/cn/yxffcode/datasource/AbstractConnection.java:32-35 | `getAutoCommit` raises exactly on a closed session, else answers the recorded value |
| Session.GetTransactionIsolation | src/main/java/cn/yxffcode/datasource/AbstractConnection.java:41-44 | `getTransactionIsolation` raises exactly on a closed session, else answers the recorded level |
| Session.OnBound | src/main/java/cn/yxffcode/datasource/masterslave/MasterslaveConnection.java:171-183 | the pushes go to bound connections only, at most two, each carrying the same operation |
| Session.StatementCloses | src/main/java/cn/yxffcode/datasource/masterslave/MasterslaveConnection.java:99-107 | `close` calls only on statements, at most one per tracked statement |
| Session.ConnectionCloses | src/main/java/cn/yxffcode/datasource/masterslave/MasterslaveConnection.java:108-116 | `close` calls only on connections that are bound |
| Session.RefusedFault | src/main/java/cn/yxffcode/datasource/AbstractConnection.java:57-111 | savepoint, callable-statement, type-map, holdability, `nativeSQL` and `getCatalog` calls raise `UnsupportedOperationException` with the source's messages, whatever the state |
| Session.NewSessionDefaults | src/main/java/cn/yxffcode/datasource/AbstractConnection.java:23-30 | a new session is open, in autocommit, with isolation -1, no catalog, no connection, nothing logged, and valid |
| Session.LoggedKeepsValid | src/main/java/cn/yxffcode/datasource/masterslave/MasterslaveConnection.java:28-32 | calls that acquire nothing keep at most one read and one write connection |
| Session.InOrderOnHandles | src/main/java/cn/yxffcode/datasource/masterslave/MasterslaveConnection.java:234-244 | calls issued in order on bound connections acquire nothing |
| Session.AcquiredKeepsValid | src/main/java/cn/yxffcode/datasource/masterslave/MasterslaveConnection.java:225-228 | acquiring for a role that has no connection keeps the session valid |
| Session.NormalizeKeepsValid | src/main/java/cn/yxffcode/datasource/masterslave/MasterslaveConnection.java:234-244 | normalisation keeps the session valid |
| Session.TargetKeepsValid | src/main/java/cn/yxffcode/datasource/masterslave/MasterslaveConnection.java:221-232 | whatever is requested and answered, a session never acquires more than one read and one write connection |
| Session.OnHandlesKeepsValid | src/main/java/cn/yxffcode/datasource/masterslave/MasterslaveConnection.java:28-32 | calls issued in order on bound connections acquire nothing and keep the session valid |
| Session.SetAutoCommitKeepsValid | src/main/java/cn/yxffcode/datasource/masterslave/MasterslaveConnection.java:49-58 | `setAutoCommit` calls at most the write connection and keeps the session valid |
| Session.SetCatalogKeepsValid | src/main/java/cn/yxffcode/datasource/masterslave/MasterslaveConnection.java:171-183 | `setCatalog` calls only bound connections and keeps the session valid |
| Session.EndTransactionKeepsValid | src/main/java/cn/yxffcode/datasource/masterslave/MasterslaveConnection.java:60-93 | `commit` and `rollback` call at most the write connection and keep the session valid |
| Session.GetWarningsKeepsValid | src/main/java/cn/yxffcode/datasource/masterslave/MasterslaveConnection.java:122-131 | `getWarnings` calls at most the preferred connection and keeps the session valid |
| Session.ClearWarningsKeepsValid | src/main/java/cn/yxffcode/datasource/masterslave/MasterslaveConnection.java:133-141 | `clearWarnings` calls only bound connections and keeps the session valid |
| Session.CloseKeepsValid | src/main/java/cn/yxffcode/datasource/masterslave/MasterslaveConnection.java:95-120 | `close` closes statements and bound connections, acquires nothing, and keeps the session valid |
| Session.WriteConnectionWins | src/main/java/cn/yxffcode/datasource/masterslave/MasterslaveConnection.java:221-224 | a bound write connection serves reads and writes alike; nothing is acquired or logged |
| Session.TargetConnectsOnlyWhenUnbound | src/main/java/cn/yxffcode/datasource/masterslave/MasterslaveConnection.java:221-232 | a connection is requested only when no write connection is bound and the role asked for has none, only for that role, and as the first call |
| Session.ConnectThenNone | src/main/java/cn/yxffcode/datasource/masterslave/MasterslaveConnection.java:225-229 | a log extended by at most one acquisition and then by other calls holds that acquisition at most |
| Session.AcquiredConnectsOnce | src/main/java/cn/yxffcode/datasource/masterslave/MasterslaveConnection.java:225-228 | an acquisition logs at most the one `getConnection` for the role |
| Session.NormalizeConnectsNothing | src/main/java/cn/yxffcode/datasource/masterslave/MasterslaveConnection.java:234-244 | normalisation calls the write connection only, never `getConnection` |
| Session.WriteBindingNormalizes | src/main/java/cn/yxffcode/datasource/masterslave/MasterslaveConnection.java:221-244 | binding a write connection is followed by exactly the settings of `NormalizePlan` pushed to it in order, stopping at the first failure, which the request raises; the connection stays bound |
| Session.IsolationIsOnlyRecorded | src/main/java/cn/yxffcode/datasource/AbstractConnection.java:41-49 | `setTransactionIsolation` fails on a closed session; otherwise it records the level and calls no connection, and `getTransactionIsolation` answers it |
| Session.SetAutoCommitTouchesOnlyWrite | src/main/java/cn/yxffcode/datasource/masterslave/MasterslaveConnection.java:49-58 | `setAutoCommit` fails when closed, is a no-op for the recorded value, and otherwise records it and pushes it to the write connection alone, if bound |
| Session.SetCatalogTouchesEachBound | src/main/java/cn/yxffcode/datasource/masterslave/MasterslaveConnection.java:171-183 | `setCatalog` fails when closed, raises on a null catalog, is a no-op for the recorded one, and otherwise records it and pushes it to the read, then the write connection, stopping at a failure |
| Session.EndTransactionGated | src/main/java/cn/yxffcode/datasource/masterslave/MasterslaveConnection.java:60-93 | `commit`/`rollback` fail when closed, do nothing in autocommit or with no write connection, else make one call on the write connection and raise what it raised |
| Session.QueriesPreferRead | src/main/java/cn/yxffcode/datasource/masterslave/MasterslaveConnection.java:122-165 | `getWarnings` and `getMetaData` ask the read connection when one is bound |
| Session.MetaDataNormalizesAbsentWrite | src/main/java/cn/yxffcode/datasource/masterslave/MasterslaveConnection.java:154-165 | `getMetaData` with nothing bound binds a read connection, then normalises the absent write connection: any non-default setting raises `NullPointerException`, the read connection staying bound |
| Session.StatementClosesExact | src/main/java/cn/yxffcode/datasource/masterslave/MasterslaveConnection.java:99-107 | `close` is called on a statement exactly when it is tracked and not yet closed |
| Session.CloseIsBestEffort | src/main/java/cn/yxffcode/datasource/masterslave/MasterslaveConnection.java:95-120 | `close` marks the session closed, makes every close call (statements, write, read) whatever each answers, and raises the last failure, if any |
| Session.CloseIsNotIdempotent | src/main/java/cn/yxffcode/datasource/masterslave/MasterslaveConnection.java:95-120 | closing a closed session closes its write connection again |
| Masterslave.MasterslaveDataSource.constructor | src/main/java/cn/yxffcode/datasource/masterslave/MasterslaveDataSource.java:18-23 | neither backend set, both flags up, slave not writable |
| Masterslave.MasterslaveDataSource.SetMaster | src/main/java/cn/yxffcode/datasource/masterslave/MasterslaveDataSource.java:71-73 | sets the master and nothing else |
| Masterslave.MasterslaveDataSource.SetSlave | src/main/java/cn/yxffcode/datasource/masterslave/MasterslaveDataSource.java:79-81 | sets the slave and nothing else |
| Masterslave.MasterslaveDataSource.SetMasterAvailable | src/main/java/cn/yxffcode/datasource/masterslave/MasterslaveDataSource.java:87-89 | changes only the master flag |
| Masterslave.MasterslaveDataSource.SetSlaveAvailable | src/main/java/cn/yxffcode/datasource/masterslave/MasterslaveDataSource.java:95-97 | changes only the slave flag |
| Masterslave.MasterslaveDataSource.SetSlaveWritable | src/main/java/cn/yxffcode/datasource/masterslave/MasterslaveDataSource.java:103-105 | changes only `slaveWritable` |
| Masterslave.MasterslaveDataSource.GetConnection | src/main/java/cn/yxffcode/datasource/masterslave/MasterslaveDataSource.java:59-61 | a fresh default session with no credentials; no backend call |
| Masterslave.MasterslaveDataSource.GetConnectionAs | src/main/java/cn/yxffcode/datasource/masterslave/MasterslaveDataSource.java:63-65 | a fresh default session carrying the credentials; no backend call |
| Masterslave.MasterslaveConnection.constructor | src/main/java/cn/yxffcode/datasource/masterslave/MasterslaveConnection.java:34-43 | the default session state, with the data source and credentials given |
| Masterslave.MasterslaveConnection.Issue | src/main/java/cn/yxffcode/datasource/masterslave/MasterslaveConnection.java:56 | one backend call is logged with its answer |
| Masterslave.MasterslaveConnection.IssueNext | src/main/java/cn/yxffcode/datasource/masterslave/MasterslaveConnection.java:234-244 | one call of an in-order batch: the batch stops here exactly when it raises |
| Masterslave.MasterslaveConnection.CloseCall | src/main/java/cn/yxffcode/datasource/masterslave/MasterslaveConnection.java:101-105 | one `close` inside `try`/`catch`: made whatever came before, its failure becoming the one to report |
| Masterslave.MasterslaveConnection.AcquireConnection | src/main/java/cn/yxffcode/datasource/masterslave/MasterslaveConnection.java:225-228 | `groupDataSource.readConnection(username, password)` (or write): binds the connection the data source grants, logs the call |
| Masterslave.MasterslaveConnection.NormalizeConnection | src/main/java/cn/yxffcode/datasource/masterslave/MasterslaveConnection.java:234-244 | makes the `Session.Normalize` transition |
| Masterslave.MasterslaveConnection.PushSetting | src/main/java/cn/yxffcode/datasource/masterslave/MasterslaveConnection.java:235-243 | one guarded push of `normalizeConnection`: a null write connection raises, a failure stops normalisation |
| Masterslave.MasterslaveConnection.TargetConnection | src/main/java/cn/yxffcode/datasource/masterslave/MasterslaveConnection.java:221-232 | makes the `Session.Target` transition and keeps the session valid |
| Masterslave.MasterslaveConnection.BindWriteConnection | src/main/java/cn/yxffcode/datasource/masterslave/MasterslaveConnection.java:227-229 | binds and normalises a write connection, as `Session.Target` for a write |
| Masterslave.MasterslaveConnection.SetTransactionIsolation | src/main/java/cn/yxffcode/datasource/AbstractConnection.java:46-49 | makes the `Session.SetTransactionIsolation` transition and keeps the session valid |
| Masterslave.MasterslaveConnection.SetAutoCommit | src/main/java/cn/yxffcode/datasource/masterslave/MasterslaveConnection.java:49-58 | makes the `Session.SetAutoCommit` transition and keeps the session valid |
| Masterslave.MasterslaveConnection.SetCatalog | src/main/java/cn/yxffcode/datasource/masterslave/MasterslaveConnection.java:171-183 | makes the `Session.SetCatalog` transition and keeps the session valid |
| Masterslave.MasterslaveConnection.OnEachBound | src/main/java/cn/yxffcode/datasource/masterslave/MasterslaveConnection.java:177-182 | pushes an operation to the read, then the write connection, when bound, stopping at a failure |
| Masterslave.MasterslaveConnection.Commit | src/main/java/cn/yxffcode/datasource/masterslave/MasterslaveConnection.java:60-75 | makes the `Session.EndTransaction` transition for `commit` and keeps the session valid |
| Masterslave.MasterslaveConnection.Rollback | src/main/java/cn/yxffcode/datasource/masterslave/MasterslaveConnection.java:77-93 | makes the `Session.EndTransaction` transition for `rollback` and keeps the session valid |
| Masterslave.MasterslaveConnection.GetWarnings | src/main/java/cn/yxffcode/datasource/masterslave/MasterslaveConnection.java:122-131 | makes the `Session.GetWarnings` transition and keeps the session valid |
| Masterslave.MasterslaveConnection.ClearWarnings | src/main/java/cn/yxffcode/datasource/masterslave/MasterslaveConnection.java:133-141 | makes the `Session.ClearWarnings` transition and keeps the session valid |
| Masterslave.MasterslaveConnection.GetMetaData | src/main/java/cn/yxffcode/datasource/masterslave/MasterslaveConnection.java:154-165 | makes the `Session.GetMetaData` transition and keeps the session valid |
| Masterslave.MasterslaveConnection.Close | src/main/java/cn/yxffcode/datasource/masterslave/MasterslaveConnection.java:95-120 | makes the `Session.Close` transition and keeps the session valid |
| Masterslave.MasterslaveConnection.CloseStatements | src/main/java/cn/yxffcode/datasource/masterslave/MasterslaveConnection.java:98-107 | the statement loop closes each open statement, whatever each answers, keeping the last failure |
| Masterslave.MasterslaveConnection.CloseConnections | src/main/java/cn/yxffcode/datasource/masterslave/MasterslaveConnection.java:108-116 | the connection loop closes the write, then the read connection, when bound, keeping the last failure |
| Masterslave.MasterslaveConnection.ConnectionClosesStep | src/main/java/cn/yxffcode/datasource/masterslave/MasterslaveConnection.java:108-116 | the loop's calls grow by one bound connection per turn |
| Masterslave.MasterslaveConnection.CloseBound | src/main/java/cn/yxffcode/datasource/masterslave/MasterslaveConnection.java:109-115 | one turn of the connection loop |
| Masterslave.ConnectionGetters | src/main/java/cn/yxffcode/datasource/AbstractConnection.java:32-71 | on a closed session `checkClosed` and the getters raise while `isClosed`, `isReadOnly` (false) and `getHoldability` (`CLOSE_CURSORS_AT_COMMIT`) answer; `hasWriteConnection` tells whether one is bound |
| Masterslave.MasterDownRedirectsOnlyUnboundWrites | src/main/java/cn/yxffcode/datasource/masterslave/MasterslaveConnection.java:221-232 | after the master is marked down, a session with no write connection binds the slave, and keeps it on the next write |
| HealthChecker.Kinds | src/main/java/cn/yxffcode/datasource/masterslave/ConcurrentDataSourceHealthChecker.java:48-86 | the kinds of a trace's steps, in order |
| HealthChecker.KindsAppend | src/main/java/cn/yxffcode/datasource/masterslave/ConcurrentDataSourceHealthChecker.java:48-86 | kinds of a trace in two parts |
| HealthChecker.TimesAppend | src/main/java/cn/yxffcode/datasource/masterslave/ConcurrentDataSourceHealthChecker.java:48-86 | counting splits over a trace in two parts |
| HealthChecker.AttemptTimes | src/main/java/cn/yxffcode/datasource/masterslave/ConcurrentDataSourceHealthChecker.java:51-85 | an attempt makes one `getConnection`; prepares only on an open connection and executes only when prepared; `onAvailable` iff it succeeds; after a failure a sleep if attempts remain, else `onUnavailable`; one close per resource opened |
| HealthChecker.NotConnectedTimes | src/main/java/cn/yxffcode/datasource/masterslave/ConcurrentDataSourceHealthChecker.java:52 | the counts of an attempt whose `getConnection` raised |
| HealthChecker.NotPreparedTimes | src/main/java/cn/yxffcode/datasource/masterslave/ConcurrentDataSourceHealthChecker.java:53 | the counts of an attempt whose `prepareStatement` raised |
| HealthChecker.NotExecutedTimes | src/main/java/cn/yxffcode/datasource/masterslave/ConcurrentDataSourceHealthChecker.java:54 | the counts of an attempt whose `execute` raised |
| HealthChecker.SucceededTimes | src/main/java/cn/yxffcode/datasource/masterslave/ConcurrentDataSourceHealthChecker.java:52-56 | the counts of a successful attempt, last or not |
| HealthChecker.AttemptOrder | src/main/java/cn/yxffcode/datasource/masterslave/ConcurrentDataSourceHealthChecker.java:70-85 | an attempt starts with `getConnection` and ends with the cleanup: statement closed before connection, nothing after |
| HealthChecker.LastFailedAttemptReports | src/main/java/cn/yxffcode/datasource/masterslave/ConcurrentDataSourceHealthChecker.java:59-69 | a failed last attempt reports `onUnavailable` after its `getConnection` |
| HealthChecker.AttemptVerdict | src/main/java/cn/yxffcode/datasource/masterslave/ConcurrentDataSourceHealthChecker.java:70-85 | only the three probing calls decide an attempt; close failures and interrupted sleeps do not |
| HealthChecker.NoRecheckNoAttempt | src/main/java/cn/yxffcode/datasource/masterslave/ConcurrentDataSourceHealthChecker.java:48 | with `recheckTimes <= 0` a tick does nothing |
| HealthChecker.TickTimesMeaning | src/main/java/cn/yxffcode/datasource/masterslave/ConcurrentDataSourceHealthChecker.java:48-86 | counting a tick adds up its attempts |
| HealthChecker.SucceedsAtCounts | src/main/java/cn/yxffcode/datasource/masterslave/ConcurrentDataSourceHealthChecker.java:48-63 | the counts of the attempts from `i` when attempt `k` is the first to succeed |
| HealthChecker.SucceedsAt | src/main/java/cn/yxffcode/datasource/masterslave/ConcurrentDataSourceHealthChecker.java:48-63 | if attempt `k < n` is the first to succeed: `k + 1` attempts, `k` sleeps, one `onAvailable`, no `onUnavailable` |
| HealthChecker.AllFailCounts | src/main/java/cn/yxffcode/datasource/masterslave/ConcurrentDataSourceHealthChecker.java:48-69 | the counts of the attempts from `i` when all fail |
| HealthChecker.AllFailEndsWithLast | src/main/java/cn/yxffcode/datasource/masterslave/ConcurrentDataSourceHealthChecker.java:48-86 | when all attempts fail the tick ends with the last one |
| HealthChecker.AllFail | src/main/java/cn/yxffcode/datasource/masterslave/ConcurrentDataSourceHealthChecker.java:57-69 | if all `n > 0` attempts fail: `n` attempts, `n - 1` sleeps, no `onAvailable`, one `onUnavailable` after the last `getConnection` |
| HealthChecker.AllFailReportsLast | src/main/java/cn/yxffcode/datasource/masterslave/ConcurrentDataSourceHealthChecker.java:59-69 | if all attempts fail, `onUnavailable` comes after every `getConnection` |
| HealthChecker.ReleasesFrom | src/main/java/cn/yxffcode/datasource/masterslave/ConcurrentDataSourceHealthChecker.java:70-85 | from any attempt on, each opened connection and prepared statement is closed |
| HealthChecker.TickReleases | src/main/java/cn/yxffcode/datasource/masterslave/ConcurrentDataSourceHealthChecker.java:70-85 | a tick closes as many connections and statements as it opens and prepares |
| HealthChecker.CleanupDoesNotDecide | src/main/java/cn/yxffcode/datasource/masterslave/ConcurrentDataSourceHealthChecker.java:57-85 | close failures and interrupted sleeps change neither the verdicts nor the number of attempts of a tick |
| HealthChecker.NonNull | src/main/java/cn/yxffcode/datasource/masterslave/ConcurrentDataSourceHealthChecker.java:41-44 | the data sources scheduled are exactly the non-null ones |
| HealthChecker.NonNullAppend | src/main/java/cn/yxffcode/datasource/masterslave/ConcurrentDataSourceHealthChecker.java:41-44 | filtering a list written in two parts filters each part and keeps their order |
| HealthChecker.NonNullSingle | src/main/java/cn/yxffcode/datasource/masterslave/ConcurrentDataSourceHealthChecker.java:42-43 | a single entry is kept, once, exactly when it is not null |
| HealthChecker.ConcurrentDataSourceHealthChecker.constructor | src/main/java/cn/yxffcode/datasource/masterslave/ConcurrentDataSourceHealthChecker.java:28-34 | no scheduler yet, nothing scheduled |
| HealthChecker.ConcurrentDataSourceHealthChecker.EnsureInitScheduler | src/main/java/cn/yxffcode/datasource/masterslave/ConcurrentDataSourceHealthChecker.java:96-116 | creates a scheduler only when there is none; an existing one is kept; at most one is ever created |
| HealthChecker.ConcurrentDataSourceHealthChecker.Check | src/main/java/cn/yxffcode/datasource/masterslave/ConcurrentDataSourceHealthChecker.java:36-90 | a null array raises before anything changes; otherwise one task per non-null data source is scheduled, in order, on the one scheduler |
| HealthChecker.ConcurrentDataSourceHealthChecker.ScheduleEach | src/main/java/cn/yxffcode/datasource/masterslave/ConcurrentDataSourceHealthChecker.java:41-44 | the loop of `check` schedules one task per non-null data source, in order, and changes nothing else |
| HealthChecker.ConcurrentDataSourceHealthChecker.Run | src/main/java/cn/yxffcode/datasource/masterslave/ConcurrentDataSourceHealthChecker.java:46-87 | the task's `run()` produces exactly the trace `Tick` |
| HealthChecker.ConcurrentDataSourceHealthChecker.TryOnce | src/main/java/cn/yxffcode/datasource/masterslave/ConcurrentDataSourceHealthChecker.java:51-85 | one pass of the loop body produces `Attempt` and reports whether it succeeded |

## Left out

- Threads and time: `scheduleWithFixedDelay`, the initial delay and period, and the sleep duration are left out. A sleep is a step of the trace that may be interrupted. So are the thread factory, the double-checked locking in `ensureInitScheduler` (modelled sequentially) and the `volatile` visibility of the flags.
- JDBC objects: `DataSource`, `Connection`, `PreparedStatement`, `SQLWarning` and `DatabaseMetaData` are opaque handles. Their answers are parameters. `getWarnings` and `getMetaData` answer the handle of the connection that was asked.
- `MasterslaveStatement` and `PreparedMasterslaveStatement` are not part of this model. `createStatement` and `prepareStatement` only construct them. `openedStatements` is a given sequence of statements with their closed flags, since no code in the core adds to it.
- `MasterslaveDataSourceFactoryBean` (configuration wiring, the default option values, the mapping of health-check callbacks to flags) is not part of this model. Its wiring assumption appears only as the precondition of `Routing.WellWiredNeverDereferencesNull`.
- `onAvailable` and `onUnavailable` are abstract in the checker. They appear as steps of the trace. Their effect on the flags is the setters of `MasterslaveDataSource`.
- The LOB, client-info, schema, network-timeout, `unwrap` and `isWrapperFor` stubs of `AbstractConnection` are not modelled. The `getMaster`/`getSlave`/`is...` getters are plain field reads, so they are left out too. `getCatalog` is modelled as refused.
- Logging through slf4j is left out.
- Exceptions other than `SQLException`, `NullPointerException` and `UnsupportedOperationException` are left out. This includes a runtime exception thrown by `onAvailable` or `onUnavailable` out of a tick.
- Case folding is ASCII only. `Character.toUpperCase`/`toLowerCase` beyond ASCII letters, and the `String instanceof` fast path of `regionMatches` (the same comparison), are not distinguished.
- The select-for-update regular expression is a predicate that states what a match is, not a regex engine.
- StringUtils.StripComments: requires every quote opener to have a closer at the same index. With fewer closers the source would raise `StringIndexOutOfBoundsException`; its one caller passes the same two quotes for both.
- StringUtils.Read, StringUtils.AfterDash: text is a sequence of Unicode scalar values, so `Read` yields a code point where `StringReader.read()` yields a UTF-16 code unit. After a lone `-`, a character outside the Basic Multilingual Plane gives here the digits of its code point; the Java code appends the digits of its high surrogate and then copies the low surrogate.
