# pgmux verification

A Dafny model of pgmux, a transaction-pooling PostgreSQL proxy, with proofs of what its protocols and
transformations guarantee. `dafny verify dfyconfig.toml` checks everything.

**Transaction pooling** (`Pool`, `Proxy`, `Pooling`, `PoolingTheorems`, `Borrows`, `ClientLoop`, `Reload`).
The connection pool is a class whose locked sections are proved against step functions. The proxy is a
state machine over these steps: any number of client sessions run the query loop over any number of
pools while pools are opened, swapped, health-checked and closed, and a scheduler picks any step.
One invariant counts, for every connection, the places it is in; mutual exclusion, exactly-once
return, capacity and wake-ups over whole runs are read off it. Where a guarantee fails (a failed dial
frees a slot and wakes nobody), the exact condition and a failing run are given. Every borrow keeps the
texts of the statements that ran in it, so that what becomes of its connection is told from them.

**Causal reads** (`Balancer`, `CausalReads`). The writer's log position, replicas that replay on their
own, polls that are delivered late and sessions that require a minimum position form a small
distributed protocol. A session's reads are causal in every run in which its own writes are recorded;
COMMIT records none, and a stale read can follow exactly when the recorded position is short.

**Result cache** (`Cache`, `CacheHistory`, `CacheViews`, `CacheInclusion`). A hash map, a recency list and a reverse
index that must agree, a specification by call history that hits are proved against, and the inclusion
property between capacities.

**Query text** (`SqlText`, `Statements`, `StatementCuts`, `Router`, `ParserLoops`, `ParserTexts`, `TxState`,
`Routing`, `Synthesizer`, `SqlLexer`, `LexerCopies`, `SynthesizedTokens`, `SynthesizedQuery`). The statement
splitter, the fast paths of the classifier and of the transaction tracker with the exact queries on which
they differ from the slow paths, the route of a query told from the calls of its session, and placeholder
substitution. The cuts of the splitter, the comments the classifier drops and the output of the
substitution are compared with a lexer written from the documentation of the server and not from the proxy (section 4.1 of the PostgreSQL 16 documentation: words, quoted
identifiers, plain, escape, bit and Unicode string constants and their continuation over lines, dollar
quotes, parameters, numbers, nested comments), which has no notion of the proxy's scan.

**Wire format** (`Wire`, `Codec`, `CodecLoops`, `Relay`). Frames, Bind and Parse payloads (section 55.7
of the PostgreSQL 16 documentation) with exact decoders, and the response relays as transducers.

**Limits** (`RateLimiter`, `Breaker`, `Lsn`). The token bucket and the circuit breaker over whole
histories, and the text form of log positions (section 8.20 of the PostgreSQL 16 documentation).

Conventions: clocks, dial results, reset results, health-check results and network bytes are arguments
of the steps. A character stands for one byte of ASCII text. Time in the token bucket is a real number.
Cache keys are natural numbers. A step of a state machine that is not enabled changes nothing.
Capturing the writer pool and starting to acquire from it is one step with respect to reload. The
invalidation loop of the cache removes while it iterates, as Go allows.

## Model
| member | source | states |
|---|---|---|
| `PoolingTheorems.HeldExclusively` | internal/pool/pool.go:96-262 | in every reachable state of any number of sessions, pools and reloads, a connection one session holds is held by no other session, is idle in no pool and is not closed |
| `PoolingTheorems.NothingLost` | internal/pool/pool.go:96-262 | every connection ever made is held, idle or closed; it is idle in at most one place, never idle once closed, and closed at most once |
| `PoolingTheorems.TransactionPinned` | internal/proxy/query.go:206-262 | while a session stays in a transaction and its client does not leave, every statement runs on the connection bound at its start, whatever other sessions, health checks and reloads do, and nobody else holds it |
| `PoolingTheorems.BoundStable` | internal/proxy/query.go:231-236 | no step of any session, pool or reload swaps a bound writer for another |
| `PoolingTheorems.StaysBound` | internal/proxy/query.go:231-262 | no step of any session, pool or reload unbinds the writer of a session that stays in its transaction |
| `PoolingTheorems.LoopHead` | internal/proxy/query.go:23-43 | at each loop head a writer is bound exactly when the session is in a transaction, and a dirty borrow implies a bound writer |
| `PoolingTheorems.BorrowsSettled` | internal/proxy/query.go:206-262 | every borrow is ended exactly once, on the pool that lent it; a writer borrow in which a session-modifying statement ran is released exactly if its reset succeeded and discarded exactly if it failed, any other is released as it is; a reader or fallback borrow is never reset |
| `Borrows.BorrowEnds` | internal/proxy/backend.go:47-60 | over every step of every run that ends a borrow: a connection whose reset failed after a session-modifying statement, or whose reader statement failed, is closed and no idle list gains it; any other becomes the last idle connection of the pool that lent it, last used now, unless that pool is closed |
| `Borrows.FailedResetIsFinal` | internal/proxy/backend.go:47-54 | in every continuation of every run, such a connection is held by nobody and idle nowhere |
| `Borrows.ClosedForGood` | internal/pool/pool.go:250-262 | a connection that has been closed is never held or idle again |
| `Borrows.EndedBy` | internal/proxy/query.go:226-262 | only the end of a statement and the end of the session end a borrow |
| `Borrows.BorrowStarts` | internal/pool/pool.go:112-175 | over every step by which a session comes to hold a connection, it is newly dialled, or it was idle in an open pool, within the maximum lifetime since its creation and within the idle timeout since its last use |
| `Borrows.TokenWakesOne` | internal/pool/pool.go:170-198 | a token wakes one waiter and is used up |
| `Borrows.ReaderFailureFallsBack` | internal/proxy/query_read.go:53-119 | a session on the reader path stays on it, is done, or tries the same statement on the writer, unless a response breaks off while it is relayed |
| `Borrows.SessionEndsBy` | internal/proxy/query.go:206-224 | a session ends only with its client, a refused or failed writer acquisition, or a response that breaks off |
| `PoolingTheorems.Accounting` | internal/pool/pool.go:112-262 | numOpen equals idle plus borrowed plus in-flight dials and is at most the maximum; on a closed pool it is zero exactly when the last borrow or dial has ended |
| `PoolingTheorems.ClampsNeverFire` | internal/pool/pool.go:250-262 | whoever gives a connection back is still counted, so the guards against a negative open count never act |
| `PoolingTheorems.NoHandOutAfterClose` | internal/pool/pool.go:224-239 | a closed pool stays closed and no step gives a session a connection or a dial of it |
| `PoolingTheorems.ClosedPoolDrains` | internal/pool/pool.go:202-262 | the open count of a closed pool never rises |
| `PoolingTheorems.NoLostWakeUp` | internal/pool/pool.go:112-199 | when dials succeed, while a session waits on an open pool the wake-ups under way are at least the free connections and slots; with none under way the pool is exhausted |
| `PoolingTheorems.WakeUpsLostToDialsOnly` | internal/pool/pool.go:142-199 | in every reachable state with a waiter on an open pool, the free connections and slots exceed the wake-ups under way by at most the dials that failed on the pool |
| `PoolingTheorems.DialErrorExact` | internal/pool/pool.go:142-147 | a failed dial keeps that bound if and only if nobody waits on the pool or a wake-up is to spare |
| `PoolingTheorems.DialErrorStrandsWaiter` | internal/pool/pool.go:142-147 | a run of seven steps that leaves a waiter on a pool with a free slot and no wake-up under way |
| `Pooling.StepKeepsInv` | internal/pool/pool.go:96-262 | every step of the machine keeps the placement, accounting, wake-up and session invariants together |
| `Pooling.RunKeepsInv` | internal/pool/pool.go:96-262 | so every run from a state with these invariants keeps them |
| `ConnPool.Pool.constructor` | internal/pool/pool.go:65-85 | a pool starts with its minimum of connections open and idle, or closed when a dial fails |
| `ConnPool.Pool.TryAcquire` | internal/pool/pool.go:112-199 | one locked round of Acquire: the connections dropped are those at the end of the list past the maximum lifetime or the idle timeout, the one handed out is the last that is within both, else a slot is taken to dial, else the caller waits; the whole new state |
| `ConnPool.AcquireDoes` | internal/pool/pool.go:28-40 | the same of the step function of the state machine |
| `ConnPool.Pool.DialFailed` | internal/pool/pool.go:142-147 | a failed dial gives its slot back and posts no token |
| `ConnPool.Pool.DialDone` | internal/pool/pool.go:149-165 | a connection dialled into a pool that was closed meanwhile is not handed out, and its slot is given back |
| `ConnPool.Pool.Signal` | internal/pool/pool.go:250-262 | one token is posted unless the channel is full |
| `ConnPool.Pool.Release` | internal/pool/pool.go:202-222 | the connection becomes idle, last used now, and a token is posted, or it is closed with its slot when the pool is closed |
| `ConnPool.Pool.DiscardLocked` | internal/pool/pool.go:250-262 | the slot of a discarded connection is given back, not below zero |
| `ConnPool.Pool.Close` | internal/pool/pool.go:224-239 | the first Close closes all idle connections and their slots; later ones change nothing |
| `ConnPool.Pool.HealthCheck` | internal/pool/pool.go:306-336 | on an open pool every idle connection is then within its limits, the old ones within them stay, in order, and no other; new ones come only up to the minimum, and the minimum is missed only if dials ran out |
| `ConnPool.LivePicks` | internal/pool/pool.go:28-40 | what is kept are exactly the connections within the maximum lifetime and the idle timeout, in order |
| `ClientLoop.Client.AfterWrite` | internal/proxy/query.go:226-262 | the lifecycle switch: BEGIN binds, COMMIT or ROLLBACK returns to the pool bound from, a single statement returns what it acquired; a dirty connection is released exactly if its reset succeeded and discarded exactly if it failed; the new variables in full |
| `ClientLoop.Client.Cleanup` | internal/proxy/query.go:34-42 | the deferred cleanup returns a bound writer to the pool it came from: released when clean or reset, discarded when the reset failed |
| `ClientLoop.Client.GiveTo` | internal/proxy/backend.go:47-60 | released after a reset exactly when dirty and the reset succeeded, discarded exactly when dirty and it failed, released as it is when clean |
| `ClientLoop.Client.FinishStatement` | internal/proxy/query.go:226-262 | the loop's variables, pool effects and closed connections after a statement are those of the state machine's step |
| `Reload.DatabaseGroup.Reload` | internal/proxy/dbgroup.go:123-242 | replaced and removed pools are closed, kept ones are untouched; the balancer has the new addresses in order, known ones with their backend; breakers exist exactly if enabled, for the writer and each address, and one that was there is kept |
| `Reload.LeftOpen` | internal/proxy/dbgroup.go:169-202 | over every reload, an open reader pool that is replaced is left open if and only if new credentials replaced the pool of an address that stays |
| `Reload.DatabaseGroup.ReloadPools` | internal/proxy/dbgroup.go:123-203 | closing, opening and removing together are the reload of the pools, and each role keeps a pool of its own |
| `Reload.DatabaseGroup.ReloadBreakers` | internal/proxy/dbgroup.go:207-241 | enabling creates exactly the missing breakers, closed, with empty counts and the settings of this reload; disabling drops all; a kept breaker keeps its old settings |
| `Reload.DatabaseGroup.constructor` | internal/proxy/dbgroup.go:28-108 | every address has an open pool, a healthy backend and, if enabled, a closed breaker |
| `Reload.DatabaseGroup.ReplaceWriter` | internal/proxy/dbgroup.go:136-161 | the old writer pool is closed, the new one is open and empty with the maximum and timeouts of the new configuration, no other pool changes |
| `Reload.DatabaseGroup.OpenReaders` | internal/proxy/dbgroup.go:163-194 | each new address has one pool: the old one when credentials did not change, else a new open one with the settings of the new configuration |
| `Reload.DatabaseGroup.CloseRemoved` | internal/proxy/dbgroup.go:196-203 | exactly the pools of removed addresses are closed |
| `CausalReads.ReadsAreCausal` | internal/proxy/backend.go:131-139 | over every interleaving of writes, replay, late polls, health changes, backend updates and reads of any sessions in which the reading session's own writes are recorded, a read served by a replica runs where all of that session's earlier writes have been replayed |
| `CausalReads.ServedReadsReachRecorded` | internal/proxy/query_read.go:42-56 | in every run at all, a replica that serves a read has replayed at least the position recorded for the session |
| `CausalReads.StaleReadExact` | internal/proxy/query_read.go:42-56 | from any state of any run, for a session idle outside a transaction, some continuation in which it only reads serves it a stale read if and only if its recorded position is short of its newest committed write |
| `CausalReads.StepKeepsInv` | internal/proxy/lsn.go:36-66 | recorded replay positions, including those of polls still under way, never exceed actual replay, which never falls |
| `CausalReads.ReadStartExact` | internal/proxy/query_read.go:42-56 | a read goes to a listed replica that is healthy at that step and reported at the session's position, exactly when there is one |
| `CausalReads.UnhealthyGetsNoReads` | internal/router/balancer.go:54-69 | an address marked unhealthy gets no new read, in any run, until a backend recovers or the backends are updated |
| `CausalReads.CommitIsNotCovered` | internal/proxy/backend.go:131-139 | COMMIT records no position: after a commit in any state of any run, some continuation in which the session only reads serves it a read that misses its own transaction |
| `CausalReads.TransactionIsNotCovered` | internal/proxy/backend.go:131-139 | from any state of any run, a whole transaction from BEGIN to COMMIT can be missed by the next read of its session |
| `CausalReads.NeedIsNewestCommit` | internal/proxy/backend.go:131-139 | what counts as a session's newest committed write moves exactly when it commits one, to the end of the log; a single write asks for its position, a COMMIT does not |
| `CausalReads.WriteInTransaction` | internal/proxy/backend.go:131-139 | a write inside a transaction moves the log and asks for its position but commits nothing |
| `CausalReads.TransactionKeepsToWriter` | internal/router/router.go:85-88 | from BEGIN to COMMIT or ROLLBACK no read of the session starts on a replica |
| `Balancer.FullRotation` | internal/router/balancer.go:36-53 | while eligibility is unchanged, as many calls as there are eligible backends return each of them exactly once, from any cursor |
| `Balancer.EmptyMeansNone` | internal/router/balancer.go:36-53 | a call returns empty if and only if no backend is eligible |
| `Balancer.RoundRobin.NextWithLSN` | internal/router/balancer.go:34-160 | the answer is the address of a backend that is healthy and, if a position is asked for, at or past it; it is empty if and only if there is none; the search advances as the cyclic choice |
| `Balancer.RoundRobin.SetReplayLSN` | internal/router/balancer.go:163-172 | the first backend with the address takes the position; no other backend changes |
| `Balancer.RoundRobin.MarkUnhealthy` | internal/router/balancer.go:56-68 | the first backend with the address leaves the rotation; no other backend changes |
| `Balancer.RoundRobin.constructor` | internal/router/balancer.go:24-32 | one healthy backend of its own for each address, in order |
| `Balancer.RoundRobin.UpdateBackends` | internal/router/balancer.go:106-134 | of the backends of a known address the last is kept, with health and position; unknown addresses get a healthy one at zero |
| `Balancer.ByAddress` | internal/router/balancer.go:112-117 | each known address maps to its last backend, and no other address is in the map |
| `CacheHistory.HitIsCurrent` | internal/cache/cache.go:74-132 | over every history, a hit returns the last accepted Set of its key, unexpired, and later than the last flush and the last invalidation of each table it named |
| `CacheHistory.HitIsLastSetExactly` | internal/cache/cache.go:97-104 | a hit returns the result of the last Set of its key, of whatever size, if and only if that Set was accepted |
| `CacheHistory.After` | internal/cache/cache.go:74-199 | after every history of calls map and list hold the same keys, each listed once, every live entry is indexed under all its tables, no index set is empty, and a positive capacity is respected |
| `CacheViews.UnboundedIsHistory` | internal/cache/cache.go:74-199 | without a capacity, over every history, a key is live with an entry if and only if its last accepted Set stored it and no call since was a flush, a look that found it expired, or the invalidation of a table the key was then listed under |
| `CacheViews.AfterIsView` | internal/cache/cache.go:74-199 | without a capacity, the live entry of a key and the tables it is listed under, stale listings included, are those told from the calls alone |
| `CacheHistory.OrderIsRecency` | internal/cache/cache.go:185-190 | after every history the recency list is sorted by the last call that used each key, so the evicted key is the one unused for longest |
| `CacheHistory.EvictedExactly` | internal/cache/cache.go:104-190 | after every history and for every capacity, a call that does not flush, invalidate or expire a live key removes it if and only if it stores a key that is not live while the list is full and every other live key has been used since this one |
| `CacheHistory.LiveIsCurrent` | internal/cache/cache.go:74-199 | every live entry is the one of the last accepted Set, not ended since |
| `CacheHistory.OversizeSetKeepsOld` | internal/cache/cache.go:102-104 | a look that returns the older result after a refused Set |
| `CacheHistory.SetThenGet` | internal/cache/cache.go:94-135 | from every valid state, a Set that is not over the size limit is what the next Get of its key returns until it expires, and one over the limit changes nothing |
| `CacheInclusion.Inclusion` | internal/cache/cache.go:74-199 | over every history with fixed tables per key, the smaller cache's recency list is a subsequence of the larger one's, with equal entries |
| `CacheInclusion.LargerNeverMisses` | internal/cache/cache.go:74-94 | a look that hits in the smaller cache hits in the larger one with the same result |
| `CacheInclusion.ChangedTablesBreakInclusion` | internal/cache/cache.go:107-114 | at every capacity and for every key, results and tables of which the first list names one the second does not, a look that hits in the small cache and misses in every larger one |
| `CacheInclusion.SameTablesNeeded` | internal/cache/cache.go:107-114 | the condition on tables is needed: whenever a key may be stored under two lists that name different tables, a history that stores it only under these breaks inclusion |
| `ResultCache.SetValid` | internal/cache/cache.go:97-132 | Set keeps map and list in bijection, every live entry indexed under all its tables, and a positive capacity respected |
| `ResultCache.GetValid` | internal/cache/cache.go:74-94 | so does Get, which may move or drop a key |
| `ResultCache.InvalidateValid` | internal/cache/cache.go:135-151 | so does InvalidateTable |
| `ResultCache.Cache.constructor` | internal/cache/cache.go:35-44 | a new cache is empty |
| `ResultCache.Cache.Get` | internal/cache/cache.go:74-94 | expired entries are removed, hits move to the front; the whole new state |
| `ResultCache.Cache.Set` | internal/cache/cache.go:97-132 | refuse, update in place, or evict and insert; the whole new state |
| `ResultCache.Cache.InvalidateTable` | internal/cache/cache.go:135-151 | the loop removes exactly the live keys listed under the table, one by one, with their index entries |
| `ResultCache.Cache.FlushAll` | internal/cache/cache.go:154-160 | everything goes |
| `ResultCache.Cache.RemoveElement` | internal/cache/cache.go:169-183 | the key leaves map, list and the index sets of its own tables |
| `ResultCache.Cache.CleanIndex` | internal/cache/cache.go:175-182 | the key leaves each listed table's set, and a set that becomes empty is dropped |
| `ResultCache.Cache.EvictOldest` | internal/cache/cache.go:185-190 | the last key of the list is removed, if there is one |
| `ResultCache.Cache.UpdateTableIndex` | internal/cache/cache.go:192-199 | the key joins each table's set |
| `SynthesizedQuery.OneStringPerPlaceholder` | internal/proxy/synthesizer.go:95-171 | for every template and all text parameters, the written query reads back as the template's tokens, with one string constant for each parameter that has a value and every other token unchanged, if and only if the scan replaces exactly the parameters the lexer sees, does not end on an opening dollar tag, and no parameter or constant meets a constant |
| `SynthesizedTokens.LiteralIsConstant` | internal/protocol/literal.go:229-247 | the literal of a parameter reads as one string constant whose value is the parameter without NUL bytes |
| `SynthesizedQuery.OrdinaryTemplates` | internal/proxy/synthesizer.go:95-171 | on templates without quotes or dollar signs in words, identifiers and comments, without prefixed or continued constants and without leading zeros, the query reads back as asked if and only if no parameter or constant meets a constant |
| `SynthesizedQuery.PlainIsFaithful` | internal/proxy/synthesizer.go:147-160 | a word, a blank and a placeholder always read back as asked |
| `SynthesizedQuery.TextExact` | internal/proxy/synthesizer.go:95-171 | the scan writes the text of the expected tokens if and only if it replaces exactly the parameters the lexer sees and does not end on an opening dollar tag |
| `SynthesizedQuery.OutIsReplaced` | internal/proxy/synthesizer.go:95-171 | what the scan writes is the template with literals in the places it replaces and a dangling dollar tag written twice; inserted text is never scanned again |
| `SynthesizedQuery.WordIsBroken` | internal/proxy/synthesizer.go:147-160 | for all parameters, a dollar sign with digits that belongs to a word is replaced although it is no parameter |
| `SynthesizedQuery.CommentIsBroken` | internal/proxy/synthesizer.go:147-160 | for all parameters, text in a comment is replaced |
| `SynthesizedQuery.LeadingZeroIsMissed` | internal/proxy/synthesizer.go:147-153 | for all parameters, a parameter with a leading zero is left in place |
| `SynthesizedQuery.IdentifierHides` | internal/proxy/synthesizer.go:103-123 | for all parameters, a quote in a quoted identifier hides the parameter behind it |
| `SynthesizedQuery.WordsHide` | internal/proxy/synthesizer.go:125-144 | for all parameters, doubled dollar signs that belong to words hide the parameter between them |
| `SynthesizedQuery.UnicodePrefix` | internal/proxy/synthesizer.go:147-160 | for all parameters, a parameter behind a word U and an ampersand becomes part of a Unicode constant |
| `SynthesizedTokens.RepReads` | internal/proxy/synthesizer.go:95-171 | the text of the expected tokens reads back as these tokens if and only if no parameter or constant touches a constant, or is separated from one only by white space and line comments with a line break, and no parameter or constant follows a word U and an ampersand |
| `SynthesizedTokens.TemplateReads` | internal/proxy/synthesizer.go:95-171 | without parameters the expected tokens are those of the template itself |
| `SqlLexer.LexIsLossless` | internal/proxy/synthesizer.go:95-171 | the tokens of a query, written out, are the query |
| `SynthesizedQuery.MeetingPlaceholders` | internal/proxy/synthesizer.go:147-160 | for all parameters, two placeholders that touch are read as one string constant with a quote between the values, and two on successive lines as one without |
| `SynthesizedTokens.BodyReads` | internal/protocol/literal.go:229-247 | inside a constant, an escaped parameter reads as the parameter without NUL bytes, whatever follows |
| `Synthesizer.NoParametersIdentity` | internal/proxy/synthesizer.go:95-171 | without parameters the template comes out unchanged if and only if its scan does not end on an opening dollar tag |
| `Synthesizer.DanglingTagDoubled` | internal/proxy/synthesizer.go:125-144 | a template that ends on an opening tag has it written twice |
| `Synthesizer.ReplacePlaceholders` | internal/proxy/synthesizer.go:95-171 | the builder loop writes, piece by piece, what the template asks for |
| `Synthesizer.WritePiece` | internal/proxy/synthesizer.go:100-165 | one round: quoted and dollar-quoted regions are copied, an in-range placeholder becomes its literal, anything else is one character |
| `Synthesizer.CopyQuoted` | internal/proxy/synthesizer.go:103-123 | the copied region ends at the first quote that is not doubled, or at the end of the text |
| `Synthesizer.CopyDollar` | internal/proxy/synthesizer.go:125-144 | the copied region ends with the first later occurrence of its tag, or at the end of the text |
| `Synthesizer.ReadNumber` | internal/proxy/synthesizer.go:147-153 | the digits of a placeholder and their value |
| `SqlText.NumberReads` | internal/proxy/synthesizer.go:147-153 | the decimal digits of every number read as that number |
| `Synthesizer.EscapeStringLiteral` | internal/protocol/literal.go:229-247 | the loop doubles quotes, drops NUL bytes and encloses the text in quotes |
| `Synthesizer.Registry.Synthesize` | internal/proxy/synthesizer.go:58-91 | an unknown statement or a parameter that cannot be converted is an error, and only these; otherwise the template with the literals of its parameters, types and formats written in |
| `Synthesizer.TextLiterals` | internal/protocol/literal.go:53-143 | with parameters in text format, not NULL and of no special type, every literal is an escaped string |
| `Synthesizer.LiteralExact` | internal/proxy/synthesizer.go:69-86 | NULL for a missing value; a conversion for binary values, where one format code stands for all parameters and a missing one for text, and for special types; an escaped string for all others |
| `Synthesizer.Registry.RegisterStatement` | internal/proxy/synthesizer.go:33-40 | the name gets this query and these parameter types, and no other name changes |
| `Synthesizer.Registry.CloseStatement` | internal/proxy/synthesizer.go:50-54 | only that name goes |
| `Statements.SplitStatements` | internal/router/router.go:154-257 | the scanning loop returns the trimmed non-empty segments between top-level semicolons |
| `StatementCuts.CutsAreSemicolonTokens` | internal/router/router.go:154-257 | on every text whose tokens the scan and the server read alike, the query is cut exactly at its semicolon tokens |
| `StatementCuts.SegmentsByRegion` | internal/router/router.go:160-251 | on every text: a semicolon at top level is a cut, and none inside single quotes, double quotes, dollar quotes, a line comment or a nested block comment is |
| `StatementCuts.WordHidesSemicolon` | internal/router/router.go:168-184 | for every word, two dollar signs at its end hide a semicolon from the scan that the server sees |
| `StatementCuts.EscapedQuoteCuts` | internal/router/router.go:225-239 | a quote behind a backslash in an escape constant makes the scan cut inside it |
| `StatementCuts.CarriageReturnHides` | internal/router/router.go:185-197 | a carriage return ends a line comment for the server only |
| `Statements.SplitIsLossless` | internal/router/router.go:154-257 | joining the segments with semicolons gives the query back, and no segment holds a further top-level semicolon, across quotes, dollar quotes, line comments and nested block comments |
| `Statements.StatementsAreAtoms` | internal/router/router.go:154-257 | every returned statement splits to just itself |
| `Statements.SingleMeansAtMostOne` | internal/router/router.go:349-357 | a query that isSingleStatement accepts has at most one statement, namely the text before its first top-level semicolon |
| `Statements.NextLexeme` | internal/router/router.go:160-251 | one round of the scanning loop moves to the end of the lexeme in the right quoting mode |
| `Statements.BlockComment` | internal/router/router.go:199-222 | nested block comments end where their depth returns to zero |
| `Statements.LineComment` | internal/router/router.go:185-197 | a line comment ends past its newline or with the text |
| `Router.FastClassifyExact` | internal/router/parser.go:33-107 | whenever classifyFast answers, it agrees with the hint-and-scan path if and only if the leading keyword is not one that only one of the two paths recognises |
| `Router.FastClassifyCounterexamples` | internal/router/parser.go:92-107 | DROP followed by a carriage return or by a parenthesis, on which the two paths differ in opposite directions |
| `Router.FastAnswer` | internal/router/parser.go:67-107 | what classifyFast answers, from the leading word alone |
| `ParserTexts.FastSeesExact` | internal/router/parser.go:67-97 | which leading words the fast path sees, by the characters around them |
| `Router.SlowAnswer` | internal/router/parser.go:33-62 | what the hint-and-scan path answers on a comment-free single statement, from the leading word and the keywords of a WITH query |
| `Router.ClassifyFast` | internal/router/parser.go:67-107 | the index loops compute the fast answer |
| `Router.NoHint` | internal/router/parser.go:134-168 | a text without comment openers has no routing hint, also after its literals are dropped |
| `ParserTexts.HintMatchExact` | internal/router/parser.go:29-29 | the search in a comment finds the leftmost hint, an opener, white space, the hint, white space and a closer, and tells writer from reader |
| `ParserTexts.HintHonoured` | internal/router/parser.go:134-168 | a comment with nothing but a hint in it decides the route when no comment opens before it |
| `ParserTexts.NestedHintIsHonoured` | internal/router/parser.go:136-161 | a hint in a nested comment decides the route after all when no opener in the comment has a blank behind it, against the comment in the source |
| `ParserTexts.LiteralsEmptied` | internal/router/parser.go:406-462 | on every text, what is inside single quotes, double quotes and dollar quotes goes, and everything else stays |
| `ParserTexts.CommentsGo` | internal/router/parser.go:180-213 | on every text whose comments open only where the server sees them, exactly the tokens that are not comments are left |
| `ParserTexts.SlowClassifyExact` | internal/router/parser.go:33-62 | a hint decides; without one a query is a write if and only if the first word of one of its statements is one of the nine write keywords, or is WITH and a write keyword stands alone in it |
| `ParserLoops.StripStringLiterals` | internal/router/parser.go:406-462 | the two-flag scan keeps quotes and tags and drops what is inside them |
| `ParserLoops.StripCommentsLoop` | internal/router/parser.go:180-213 | the scan drops line comments and nested block comments and nothing else |
| `ParserLoops.ExtractHintLoop` | internal/router/parser.go:134-168 | the scan finds the hint of the first block comment that carries one |
| `ParserLoops.ContainsWriteKeywordLoop` | internal/router/parser.go:111-132 | the search finds a write keyword if and only if one stands between word boundaries outside literals |
| `ParserTexts.ContainsExact` | internal/router/parser.go:111-132 | the literal-free text in upper case is some text, one of the nine write keywords and some text, with a blank, line feed, parenthesis or nothing on either side |
| `SqlText.ParseDollarTag` | internal/router/parser.go:466-491 | a tag is found exactly where one starts, and it is the text up to its second dollar sign |
| `SqlText.TagEndExact` | internal/router/parser.go:464-490 | a tag is found if and only if two dollar signs stand around nothing or around a name |
| `SqlText.UpperLetters` | internal/router/parser.go:177-177 | the twenty-six letters change case and nothing else does |
| `TxState.FastEffectExact` | internal/router/router.go:263-301 | on single statements hasTxPrefix moves the transaction flag as updateTransactionState does if and only if the query is not one of the misread ones |
| `TxState.TxCounterexample` | internal/router/router.go:294-298 | ENDED ends a transaction for the scan and not for the prefix test |
| `TxState.HasTxPrefix` | internal/router/router.go:263-301 | the prefix test with its bit-masked comparisons, from the characters it looks at |
| `TxState.EqFold` | internal/router/router.go:330-340 | equality up to bit 0x20 of each character, which also equates space and NUL |
| `TxState.UpdateTransactionState` | internal/router/router.go:123-135 | the flag after all statements of the query |
| `TxState.QueryEffectIs` | internal/router/router.go:123-135 | a single statement has the effect of the transaction keyword at its head |
| `Routing.Session.RouteWithTxState` | internal/router/router.go:40-119 | a query goes to a reader if and only if no transaction is open before or after it, it holds no transaction control, it is no write, and causal consistency is on or the last write outside transactions among the calls so far is not within the delay |
| `Routing.RouteExact` | internal/router/router.go:62-119 | the same of the route function of the state machine |
| `Routing.AnyRecentWrite` | internal/router/router.go:99-116 | with a clock that does not go back, it is enough that some write outside transactions is within the delay |
| `Routing.FlagIs` | internal/router/router.go:121-135 | the flag after a query is what its last transaction control says, or what it was |
| `Routing.ScanIsLastControl` | internal/router/router.go:121-135 | over the statements of a query the last BEGIN, START TRANSACTION, COMMIT, ROLLBACK or END decides |
| `Routing.MentionsIsControl` | internal/router/router.go:138-150 | a query mentions transaction control if and only if one of its statements is |
| `Routing.ModifyingExact` | internal/proxy/backend.go:162-226 | session-modifying are exactly a SET that is not LOCAL or TRANSACTION, PREPARE, DECLARE, DEALLOCATE, LISTEN, LOAD and UNLISTEN as whole words, and CREATE TEMP |
| `TxState.ModifyingIsRoutedToReader` | internal/proxy/backend.go:162-226 | every session-modifying query the fast path answers is answered write exactly when its leading word is seen as a write keyword, which only a CREATE TEMP is; every other one goes to a reader outside a transaction, and readers are never reset |
| `TxState.SetIsRoutedToReader` | internal/proxy/backend.go:162-226 | a SET is such a query |
| `Codec.BindExact` | internal/protocol/message.go:328-404 | a payload decodes to a Bind if and only if it starts with that Bind's encoding: both round trips, NULL apart from empty, prefix re-encoding |
| `Codec.BindPrefixFree` | internal/protocol/message.go:328-404 | no Bind's encoding is the start of another's |
| `Codec.ParseExact` | internal/protocol/message.go:265-295 | a payload decodes to a Parse if and only if it starts with its encoding, or the message has no parameter types and the payload ends less than two bytes after the query |
| `Codec.ReadParamsExact` | internal/protocol/message.go:363-386 | parameter values are read exactly when their encodings come next |
| `Codec.ReadCodesExact` | internal/protocol/message.go:348-361 | format codes are read exactly when their encodings come next |
| `CodecLoops.ParseBindMessageFull` | internal/protocol/message.go:328-404 | the position-advancing decoder computes the specified decoding, errors included, without reading out of bounds |
| `CodecLoops.ParseParseMessageFull` | internal/protocol/message.go:265-295 | the Parse decoder accepts exactly what decodes, and next to an error returns the name, query and whole parameter types it has read |
| `CodecLoops.GatheredIsDecoded` | internal/protocol/message.go:265-295 | on success what the decoder has read is the decoded message |
| `CodecLoops.ParseOids` | internal/protocol/message.go:286-293 | the loop over the parameter types stops at the first that is cut off |
| `CodecLoops.ParseShort` | internal/protocol/message.go:248-313 | both short parsers return the first two zero-terminated strings, empty ones for those missing, which is what the full parsers return wherever these accept |
| `CodecLoops.ParseParams` | internal/protocol/message.go:363-386 | the parameter loop |
| `CodecLoops.ParseParam` | internal/protocol/message.go:371-386 | a length of -1 is NULL, other negative or overlong lengths are errors |
| `CodecLoops.ParseCodes` | internal/protocol/message.go:348-361 | a count and its codes, as signed numbers |
| `Wire.WriteThenRead` | internal/protocol/message.go:88-160 | whatever was written, reading it returns the same messages in order if and only if none is over the size limit |
| `Wire.SixteenMegabytes` | internal/protocol/message.go:88-118 | a framed message is read if and only if its payload is at most 16777216 bytes |
| `Wire.WriteThenReadPrefix` | internal/protocol/message.go:88-160 | reading returns the written messages in order up to the first over the size limit |
| `Wire.ReadFrameExact` | internal/protocol/message.go:88-115 | a message is read if and only if its frame comes next and fits the limit |
| `Wire.BigEndian` | internal/protocol/message.go:88-160 | numbers are written with the most significant byte first |
| `Wire.WriteMessage` | internal/protocol/message.go:153-160 | the assembled buffer is the frame, for payloads of any length: the length field wraps around at 32 bits |
| `Wire.ReadMessageReuse` | internal/protocol/message.go:120-150 | for every prior buffer the answer is ReadMessage's, and the buffer holds the frame |
| `Relay.CollectExact` | internal/proxy/copy.go:196-256 | a buffer is returned if and only if the relay reaches ReadyForQuery without COPY and within the size limit, and it is exactly the bytes sent to the client |
| `Relay.RelayConserves` | internal/proxy/copy.go:36-143 | over every exchange, COPY included, the client gets exactly the bytes read from the backend and the backend exactly those read from the client |
| `Relay.RelayTurns` | internal/proxy/copy.go:74-92 | after CopyInResponse a COPY stream of the client goes to the backend, after CopyOutResponse one of the backend to the client, and the relay fails when there is none; ReadyForQuery and CopyBothResponse end it; anything else is passed on |
| `Relay.CopyExact` | internal/proxy/copy.go:94-143 | a COPY stream is CopyData messages and the first message that is none |
| `Relay.SameForClient` | internal/proxy/copy.go:36-91 | the collecting relay sends what relayUntilReady sends if and only if no relayed message is over the limit of ReadMessage; otherwise it stops with an error after a proper prefix |
| `Relay.CopyFreeIsStretch` | internal/proxy/copy.go:196-256 | without COPY the client gets a stretch of the backend's bytes and the backend gets nothing |
| `Relay.RelayUntilReady` | internal/proxy/copy.go:36-91 | the loop sends each way, reads and ends as specified |
| `Relay.RelayAndCollect` | internal/proxy/copy.go:196-256 | so does the collecting loop, with its buffer |
| `Relay.RelayCopy` | internal/proxy/copy.go:94-141 | COPY data is passed on up to and including the first message that is not CopyData |
| `RateLimit.AdmitsExactly` | internal/resilience/ratelimit.go:29-48 | over every history of calls, a call is admitted if and only if from creation and from every call so far the admissions since plus one fit into burst plus rate times the time since |
| `RateLimit.WindowBound` | internal/resilience/ratelimit.go:29-48 | no window of time admits more than burst plus rate times its length |
| `RateLimit.LevelIsLeastRoom` | internal/resilience/ratelimit.go:34-41 | the token level is the least room left by all windows |
| `RateLimit.RateLimiter.constructor` | internal/resilience/ratelimit.go:19-26 | a limiter starts full |
| `RateLimit.RateLimiter.Allow` | internal/resilience/ratelimit.go:29-48 | refill, cap, take; the whole new state |
| `Breaker.TripsExactly` | internal/resilience/breaker.go:146-156 | from the moment it closes, the breaker opens at the very call that completes the first tumbling window whose error rate reaches the threshold, and stays closed until then |
| `Breaker.ReachesExactly` | internal/resilience/breaker.go:146-156 | the threshold is reached if and only if the failures are at least that share of the outcomes |
| `Breaker.RefusedWhileOpen` | internal/resilience/breaker.go:74-92 | with a non-decreasing clock, after the breaker opens no Allow succeeds before OpenDuration has passed |
| `Breaker.HalfOpensExactly` | internal/resilience/breaker.go:74-142 | over every history, an open breaker becomes half-open exactly at the first Allow or State call for which the open time has passed since the call that opened it, and an Allow is refused exactly before that |
| `Breaker.ClosesExactly` | internal/resilience/breaker.go:95-129 | a half-open breaker closes at a call if and only if that call is the HalfOpenMax-th recorded success since it became half-open, with no failure in between; it closes from no other state |
| `Breaker.HalfOpenCount` | internal/resilience/breaker.go:95-112 | while half-open, the counter is the number of successes recorded since, and no failure was recorded |
| `Breaker.WindowIsFull` | internal/resilience/breaker.go:146-156 | a window that is evaluated holds exactly WindowSize outcomes |
| `Breaker.Edges` | internal/resilience/breaker.go:74-129 | closed leads only to open, and open only to half-open |
| `Breaker.CircuitBreaker.constructor` | internal/resilience/breaker.go:53-70 | defaults for settings that are not positive |
| `Breaker.CircuitBreaker.Allow` | internal/resilience/breaker.go:74-92 | refused exactly while open; the whole new state |
| `Breaker.CircuitBreaker.RecordSuccess` | internal/resilience/breaker.go:95-112 | the whole new state |
| `Breaker.CircuitBreaker.RecordFailure` | internal/resilience/breaker.go:115-129 | the whole new state |
| `Breaker.CircuitBreaker.Current` | internal/resilience/breaker.go:132-142 | State, with its automatic move to half-open |
| `Breaker.CircuitBreaker.EvaluateWindow` | internal/resilience/breaker.go:146-156 | a full window trips or is reset |
| `Lsn.FormatThenParse` | internal/router/lsn.go:16-38 | parsing the text of every 64-bit position returns it |
| `Lsn.HexDigits` | internal/router/lsn.go:22-27 | the digits are the sixteen hexadecimal ones in either case, with their values |
| `Lsn.ParseThenFormat` | internal/router/lsn.go:16-38 | the text of a parsed position is the parsed text in canonical form: upper case, no leading zeros |
| `Lsn.OrderByHalves` | internal/router/lsn.go:16-38 | positions compare as their halves do, high half first |

## Left out
- The extended query protocol, multiplexed describe and batches: the pooling machine runs simple-query sessions.
- The AST-based classifier and firewall, and table extraction: they rest on a foreign parser; tables of a query are an argument of the cache.
- Authentication, TLS, cancel forwarding, HTTP surfaces, metrics, audit, mirroring and file watching.
- relayCopyBoth: the relays stop where streaming replication takes over.
- Literals other than quoted strings (numbers, booleans, bytea, NULL) in the token theorem: an unparenthesised negative number can merge with a preceding minus.
- Startup, Close and simple-query payloads: short readers that would only add easy members.
- StatementCuts.CutsAreSemicolonTokens: the condition on the tokens is sufficient and not necessary, since a misread token need not move a cut; each kind of token it leaves out has a text on which the cuts differ, but for comments between the parts of a constant and doubled quotes in bit strings.
- ParserTexts.CommentsGo: covers texts whose comments open outside literals and identifiers, since the scan does not know those; nested hints are as the code has them, which the comment in internal/router/parser.go:136-137 denies.
- Lexical errors of the server: a number or a parameter with letters behind it reads as two tokens, a quoted identifier may be empty, and the settings are the defaults (standard_conforming_strings on).
- A block comment between two constants ends the first one, as the scanner of the server has it; the documentation only speaks of white space with a line break.
- Hash collisions of cache keys, wrap-around of the round-robin cursor, floating-point rounding of rates.
- Text outside ASCII: trimming and case folding of other characters.
- Synthesizer.Registry.Synthesize: does not model how values of special types and binary values are converted, which is an argument.
- Relay.RelayUntilReady: does not model failing writes to the client or the backend, and stops where streaming replication takes over.
- Relay.RelayAndCollect: does not model failing writes, and stops where streaming replication takes over.
- CausalReads.ReadsAreCausal: covers reads with the cache off, since a cache hit is served before the position is looked at, and simple-protocol reads, since the extended path ignores positions.
- PoolingTheorems.NoLostWakeUp: holds of runs without a failed dial; PoolingTheorems.WakeUpsLostToDialsOnly bounds what failed dials lose, and PoolingTheorems.DialErrorExact says exactly when one does.
- What a backend does with a connection released in an open transaction or after a broken write: the simple write path does not look.
