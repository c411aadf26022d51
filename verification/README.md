# Verified core of the collaboration backend

A Dafny model of the parts of the repository whose correctness rests on reasoning rather than on
examples, with proofs. `dafny verify dfyconfig.toml` checks everything. One module stands for one
source file or one part of it.

**Datetime formats** (`packages/formula`). A format goes through two lexers. The first expands localized
tokens and splits the format into tokens and literal characters, by longest match and with a rule that a
one-letter token must stand alone; its items are compiled to a chain of SQL operands through a literal
buffer, or to a PostgreSQL template. The second lexer, with another token table and without regard to
case, reads that template again and builds the regular expression that guards parsing. `DatetimeTokens`,
`LocalizedFormat`, `SqlLiteral` and `DatetimeSql` prove that the scanner loses nothing, that expansion is
idempotent and that the SQL chain evaluates to the rendered format. `DatetimeTemplates` compares the
tables of SQL and of templates, and `DatetimeLocalized` says what each localized token stands for.
`DatetimeQuotes`, `DatetimeRendering` and the `DatetimeGuard` modules prove that the guard accepts every
rendering of every datetime in a format of padded numeric tokens, meridiem markers and separators, exactly when
no quote is doubled in the format expression and no letter makes a skipped marker (`TH`, `TM`, `FM`) with the
token behind it; and, for formats with unpadded numbers as well, exactly which datetimes' renderings it
accepts.

**Escapers**. `RegexEscape` and `LikeEscape` prove the escapers exact against the decoders PostgreSQL
applies to their output, which are written out: the reader and matcher of regular expressions
(`PostgresRegex`), JSON path string literals, and a full LIKE matcher.

**The cache of live data-database resources**. `RuntimeCache` has the service as a class; what its
methods do between two awaits is one atomic step of a state machine. Over every interleaving the cache is
a bounded LRU, by the requests of the run, with single-flight creation (`RuntimeCacheRecency`), deletes take out
and hand over exactly what they name (`RuntimeCacheCalls`), and no entry is handed to `destroyEntry` twice
(`RuntimeCacheResources`). The rejection handler deletes by key: no resource, present or still to come,
is ever lost exactly when no creation rejects while another entry, one that has not resolved to null, has its
key; and at the end of a run the values lost are those of the entries such rejections displaced.

**The computed-update outbox**. `OutboxPages` iterates over a table that others change between any two
page queries, and `OutboxWakeups` says which rows that yields, by their states and pauses; `OutboxRecovery` interleaves the statements of any number of recovery transactions under a
row lock and the unique index over pending plans.

**Row locks**. `RecordLocks` proves that lock statements in a common order never deadlock, and that all
transactions finish.

**Synthesized ops**. `ShareDbOps` proves what a client that replays made-up ops ends up with, and that the
bulk form agrees with the single one.

**Events**. `OpEvents` proves when the one event kept for a record does what its raw ops did, in order, and
`OpEventKinds` of what kind the event kept for any document is. `EventGroups` proves that joining events by kind and table keeps every payload.

**The performance cache**. `PerformanceCache` bounds how often `wrap` runs its function, over every
interleaving of callers, by how often something went wrong, and proves which configuration that needs;
`PerformanceCacheOutcomes` proves how each call ends.

**Fractional order and connection counts**. `UpdateOrder` works with exact reals and the source's
threshold; `WsGateway` covers binds and closes in any order.

Where the code falls short of the obvious stronger statement, the exact condition is proved, and an input on
the failing side is shown:

- a quote in a format, or a token swallowed by a marker: `DatetimeGuardProof.GuardCompleteness`, with
  `DatetimeGuardInputs.DoubledQuoteIsRejected` and `DatetimeGuardInputs.IsoHoursAreRejected`;
- unpadded numbers of one digit: `DatetimeGuardDigits.GuardExact`, with
  `DatetimeGuardInputs.UnpaddedMonthNeedsTwoDigits`, `DatetimeLocalized.LocalTimeGuard`, and `DatetimeGuardInputs.MillisecondsLendDigits` on why
  the digits of a run count together;
- rejected creations: `RuntimeCacheResources.ResourceConservation`, with
  `RuntimeCacheResources.StrayRejectionLosesValue`;
- an empty outbox id under one-row pages: `OutboxPages.YieldedStrictlyIncreasing`, with
  `OutboxPages.EmptyIdIsRepeated`;
- a requested end of 0: `ShareDbOps.RangeLength`, which says what any such request gives;
- fields gone from a snapshot, empty lists, and what an op leaves out: `ShareDbOps.ReplayMeetsSnapshot`, with
  `ShareDbOps.ClearedCellStays`;
- a connection bound after it closed: `WsGateway.StaleExactlyLate`, with `WsGateway.ClosedBeforeBound`.

Two further conditions are stated for arbitrary inputs and met by this repository: a creating op with data
would leave cells untold (`OpEvents.NetEffect`), but record creation saves none
(`OpEvents.EmptyCreatesLoseNothing`); and two table events of one kind would lose a payload
(`EventGroups.EmitAll`), but a transaction never has two (`EventGroups.TablesNeverCollide`).

Two oddities of the code are kept. `normalizeDatetimeFormatExpression` doubles the quotes of a literal it
has not undoubled (`packages/formula/src/datetime-format-pg.ts:308-311`). The comment above `getOps`
promises the ops of `[from, to)` for any end that is not null, but the code takes an end of 0 for none
(`apps/nestjs-backend/src/share-db/share-db.adapter.ts:420`).

Strings are compared by code unit where the source leaves the order to JavaScript or to the database's
collation; the proofs use only that the order is strict, transitive and total, and that the empty id comes
first.

## Model

| member | source | states |
|---|---|---|
| DatetimeTokens.LongestPrefixIsLongest | packages/formula/src/datetime-format-pg.ts:106-112 | trying candidates by decreasing length finds a match at least as long as any other |
| DatetimeTokens.TokenAt | packages/formula/src/datetime-format-pg.ts:147-153 | a found token is in the table, starts the remaining text and is not empty |
| DatetimeTokens.ScanSpellsInput | packages/formula/src/datetime-format-pg.ts:183-213 | the items of a scan, put back together, are the scanned string, for every token table and string |
| DatetimeTokens.ScanFormat | packages/formula/src/datetime-format-pg.ts:192-212 | the index loop emits the items of the specification's scan |
| DatetimeTokens.ReplaceTokens | packages/formula/src/datetime-format-pg.ts:155-181 | the appending loop computes the scan rendered through the replacement table |
| LocalizedFormat.ExpandLocalizedDatetimeFormat | packages/formula/src/datetime-format-pg.ts:155-181 | the loop computes the expansion the lemmas are about |
| LocalizedFormat.ExpandIdempotent | packages/formula/src/datetime-format-pg.ts:7-18 | expanding an expanded format changes nothing, for every string: no expansion brings a localized token together with its neighbours, and a lone `L` stays lone |
| LocalizedFormat.LeftAloneAgain | packages/formula/src/datetime-format-pg.ts:147-181 | a character the isolation rule left alone is left alone again in front of the expanded rest |
| SqlLiteral.LiteralRoundTrip | packages/formula/src/datetime-format-pg.ts:136-145 | a written SQL literal reads back as itself, for every string |
| SqlLiteral.UndoubleCounts | packages/formula/src/datetime-format-pg.ts:144 | undoubling drops a quote exactly when one is doubled, and else changes nothing |
| SqlLiteral.TrimStrips | packages/formula/src/datetime-format-pg.ts:139-139 | trimming takes the white space at both ends and no more |
| SqlLiteral.WhitespaceExact | packages/formula/src/datetime-format-pg.ts:139-139 | what counts as white space is, one by one, the white space and the line terminators of ECMAScript |
| DatetimeSql.BuildDatetimeFormatSqlFromLiteral | packages/formula/src/datetime-format-pg.ts:215-249 | the loop with its literal buffer emits the operands of the specification, an empty chain as the empty literal |
| DatetimeSql.OperandsKeepMeaning | packages/formula/src/datetime-format-pg.ts:223-244 | the buffer loses, doubles and reorders nothing: any items behind any buffer evaluate to the buffer and the items, whatever the tokens' values |
| DatetimeSql.CompiledChainMeaning | packages/formula/src/datetime-format-pg.ts:215-249 | evaluating the chain, its literals read by the SQL reader, gives the format rendered item by item |
| DatetimeSql.FormatSqlMeaning | packages/formula/src/datetime-format-pg.ts:251-292 | quoting, resolving, expanding, scanning and compiling a user's format render that format, or the default for an empty one |
| DatetimeSql.NormalizeDatetimeFormatLiteral | packages/formula/src/datetime-format-pg.ts:264-277 | the loop computes the template text of the scanned, expanded format |
| DatetimeSql.BuildDatetimeFormatSql | packages/formula/src/datetime-format-pg.ts:279-292 | a readable format expression becomes the compiled chain of its (effective) literal, any other one a `TO_CHAR` over the expression as it was given |
| DatetimeGuard.BuildDatetimeParseGuardRegex | packages/formula/src/datetime-format-pg.ts:336-385 | the guard loop builds the pattern the lemmas are about; none for an expression that is no literal |
| DatetimeGuardPieces.GuardBodyReads | packages/formula/src/datetime-format-pg.ts:349-380 | for every string at all the guard is a readable regular expression, and reads as what its lexer meant, turn by turn |
| DatetimeGuardPieces.GuardReads | packages/formula/src/datetime-format-pg.ts:336-385 | so does the guard of any quoted format expression, anchored and with any trailing text |
| DatetimeGuardLexing.ScanKeepsYearsApart | packages/formula/src/datetime-format-pg.ts:183-213 | the first lexer never emits a year token right after a two-digit year, for every string |
| DatetimeGuardLexing.LexTemplate | packages/formula/src/datetime-format-pg.ts:114-128 | whatever follows, the second lexer finds each padded template again, but for `Y` after a two-digit year |
| DatetimeGuardLexing.ItemsAreLexed | packages/formula/src/datetime-format-pg.ts:349-380 | from the normalized text of a format of numbers, meridiem markers and separators in which no token is swallowed, the second lexer recovers every item |
| DatetimeGuardLexing.LexMeridiem | packages/formula/src/datetime-format-pg.ts:114-128 | the second lexer finds the meridiem marker again, in capitals or small letters, whatever follows |
| DatetimeGuardLetters.SwallowedTokenAsks | packages/formula/src/datetime-format-pg.ts:132-132 | where `T` or `F` makes `TH`, `TM` or `FM` with the template behind it, the guard asks for more letters than the format has meridiem markers to write them, however what is left over pairs up further on |
| DatetimeGuardProof.MatchRendering | packages/formula/src/datetime-format-pg.ts:114-128 | the pieces of the items accept the rendering of every in-range datetime |
| DatetimeRendering.AcceptedTextHoldsQuotes | packages/formula/src/datetime-format-pg.ts:373-378 | a text those pieces accept holds at least the quotes of the items |
| DatetimeRendering.AcceptedTextHoldsLetters | packages/formula/src/datetime-format-pg.ts:349-380 | a text that pieces accept holds as many of the letters they ask for as they ask for |
| DatetimeRendering.TemplateWritesToken | packages/formula/src/datetime-format-pg.ts:63-102 | the template that a number or a meridiem marker is normalized to writes what its SQL writes |
| DatetimeTemplates.TablesAgree | packages/formula/src/datetime-format-pg.ts:25-102 | for every token the SQL and the template write the same field, and they use the same template exactly but for `d`, `dd`, `a`, `Z` and `ZZ` |
| DatetimeTemplates.SupportedTokens | packages/formula/src/datetime-format-pg.ts:25-64 | the supported tokens are exactly those for hours, minutes and below, dates, names, the meridiem and the few special ones |
| DatetimeGuardProof.GuardCompleteness | packages/formula/src/datetime-format-pg.ts:264-277 | for padded numbers, meridiem markers and separators: the guard accepts every rendering of every datetime, with any trailing text, exactly when no quote is doubled between the quotes of the expression and no token is swallowed; otherwise it accepts no rendering |
| DatetimeQuotes.FormatItemsUndoubled | packages/formula/src/datetime-format-pg.ts:136-145 | undoubling the quotes of a format before the passes gives the items that undoubling them after gives, for every string |
| DatetimeGuardInputs.DoubledQuoteIsRejected | packages/formula/src/datetime-format-pg.ts:308-311 | the guard of a day followed by a quote, as SQL writes it, rejects the rendering of every datetime |
| DatetimeGuardInputs.IsoHoursAreRejected | packages/formula/src/datetime-format-pg.ts:367-371 | the guard of the hours of ISO 8601 behind their `T` rejects the rendering of every datetime |
| DatetimeGuardInputs.DefaultGuardAccepts | packages/formula/src/datetime-format-pg.ts:294-306 | an absent or blank expression stands for the default format, and its guard accepts every rendering of every datetime with any trailing text |
| DatetimeGuardDigits.GuardExact | packages/formula/src/datetime-format-pg.ts:349-380 | with unpadded numbers as well, and separators that are no digits: a rendering of a datetime is accepted exactly when no quote is doubled, no token is swallowed and every run of numbers has the digits its pieces ask for |
| DatetimeGuardDigits.EnoughWithoutMilliseconds | packages/formula/src/datetime-format-pg.ts:114-128 | without milliseconds that is: exactly when no unpadded number of the datetime has a single digit |
| DatetimeGuardInputs.UnpaddedMonthNeedsTwoDigits | packages/formula/src/datetime-format-pg.ts:349-380 | the guard of a month without leading zero accepts the renderings of October to December only |
| DatetimeGuardInputs.MillisecondsLendDigits | packages/formula/src/datetime-format-pg.ts:349-380 | with milliseconds in the same run (`SSSHH24M`) it accepts the rendering of every datetime, months of one digit included |
| DatetimeGuardInputs.YearLetterIsRejected | packages/formula/src/datetime-format-pg.ts:114-128 | a lone `Y` is a literal to the first lexer and a digit to the second: its guard rejects it |
| DatetimeLocalized.TimesStandFor | packages/formula/src/datetime-format-pg.ts:7-18 | `LT` and `LTS` stand for hours, minutes, with seconds or not, and the meridiem marker |
| DatetimeLocalized.NumericDatesStandFor | packages/formula/src/datetime-format-pg.ts:7-18 | `L` stands for a date in padded numbers, `l` for one in unpadded numbers |
| DatetimeLocalized.DatesStandFor | packages/formula/src/datetime-format-pg.ts:7-18 | `LL` and `ll` stand for dates with the month's name in full and short |
| DatetimeLocalized.DateTimesStandFor | packages/formula/src/datetime-format-pg.ts:7-18 | `LLL` and `lll` stand for such dates and `LT` behind them |
| DatetimeLocalized.WeekdaysStandFor | packages/formula/src/datetime-format-pg.ts:7-18 | `LLLL` and `llll` stand for `LLL` and `lll` behind the name of the day |
| DatetimeLocalized.TimeGuard | packages/formula/src/datetime-format-pg.ts:336-385 | the guard of a time of day with a meridiem marker accepts every rendering when the hour is padded, and otherwise exactly those whose hour has two digits |
| DatetimeLocalized.LocalTimeGuard | packages/formula/src/datetime-format-pg.ts:336-385 | the guard of `LT` accepts the times from ten to one, on either half of the day, and no others |
| DatetimeLocalized.PaddedTimeGuard | packages/formula/src/datetime-format-pg.ts:114-128 | the guard of `hh:mm A` accepts every time, before noon and after, with any trailing text |
| PostgresRegex.MatchOnce | apps/nestjs-backend/src/utils/postgres-regex-escape.ts:13-21 | a piece without quantifier takes exactly one character it accepts |
| RegexEscape.ReadEscaped | apps/nestjs-backend/src/utils/postgres-regex-escape.ts:13-21 | an escaped string is read back as its characters in order, whatever unquantified pattern follows |
| RegexEscape.EscapedSearchExact | apps/nestjs-backend/src/utils/postgres-regex-escape.ts:13-21 | the escaped string finds exactly the texts that contain the string |
| RegexEscape.EscapedAnchoredExact | apps/nestjs-backend/src/utils/postgres-regex-escape.ts:18-20 | between anchors it accepts exactly the string |
| RegexEscape.JsonPathLayer | apps/nestjs-backend/src/utils/postgres-regex-escape.ts:29-48 | decoding the JSON path literal leaves exactly the regex-layer escape |
| RegexEscape.JsonbRegexEscapeExact | apps/nestjs-backend/src/utils/postgres-regex-escape.ts:29-48 | through both layers the pattern finds exactly the texts that contain the string, and anchored accepts it alone |
| LikeEscape.LikeEscapeExact | apps/nestjs-backend/src/utils/sql-like-escape.ts:4-7 | the escaped value matches itself and nothing else |
| LikeEscape.LikeContainsExact | apps/nestjs-backend/src/utils/sql-like-escape.ts:4-7 | between two `%` it matches exactly the texts that contain the value |
| RuntimeCache.DataDbRuntimeCacheService.GetOrCreate | apps/nestjs-backend/src/global/data-db-runtime-cache.service.ts:30-65 | a request touches the entry of its key or inserts a new one and evicts, up to the first await |
| RuntimeCache.DataDbRuntimeCacheService.SettleCreate | apps/nestjs-backend/src/global/data-db-runtime-cache.service.ts:51-60 | a settled creation keeps its value, a rejected one drops whatever entry its key has |
| RuntimeCache.DataDbRuntimeCacheService.Delete | apps/nestjs-backend/src/global/data-db-runtime-cache.service.ts:67-74 | the entry of the key leaves the map and is handed over, an absent key changes nothing |
| RuntimeCache.DataDbRuntimeCacheService.DeleteByNamespace | apps/nestjs-backend/src/global/data-db-runtime-cache.service.ts:76-86 | each entry of the namespace leaves the map and is handed over, in map order |
| RuntimeCache.DataDbRuntimeCacheService.DeleteByKey | apps/nestjs-backend/src/global/data-db-runtime-cache.service.ts:88-96 | likewise for a key over all namespaces |
| RuntimeCache.DataDbRuntimeCacheService.EvictIfNeeded | apps/nestjs-backend/src/global/data-db-runtime-cache.service.ts:102-111 | one turn of the loop hands over the oldest entry of a map over its limit |
| RuntimeCache.DataDbRuntimeCacheService.DestroyEntry | apps/nestjs-backend/src/global/data-db-runtime-cache.service.ts:113-126 | an entry with a value is destroyed at once, any other waits for its promise |
| RuntimeCache.DataDbRuntimeCacheService.ResumeDestroyEntry | apps/nestjs-backend/src/global/data-db-runtime-cache.service.ts:115-118 | once the promise has settled a waiting call destroys the value, if there is one |
| RuntimeCache.DataDbRuntimeCacheService.OnModuleDestroy | apps/nestjs-backend/src/global/data-db-runtime-cache.service.ts:132-136 | every entry leaves the map and is handed over |
| RuntimeCacheCalls.CacheKeysMeet | apps/nestjs-backend/src/global/data-db-runtime-cache.service.ts:128-130 | two requests share a cache key exactly when they are the same or one namespace goes on, behind a colon, with what the other key begins with |
| RuntimeCacheCalls.NamespacesKeepApart | apps/nestjs-backend/src/global/data-db-runtime-cache.service.ts:4-6 | the three namespaces in use never share one |
| RuntimeCacheCalls.DeleteHandsOver | apps/nestjs-backend/src/global/data-db-runtime-cache.service.ts:67-74 | the entry of the cache key leaves the map, the others keep their order, and it is handed over: destroyed at once if its value is there, waited for if not; an absent key changes nothing |
| RuntimeCacheCalls.DeleteByNamespaceExact | apps/nestjs-backend/src/global/data-db-runtime-cache.service.ts:76-86 | exactly the entries of the namespace leave the map and are handed over, in map order, their values destroyed at once if they are there |
| RuntimeCacheCalls.DeleteByKeyExact | apps/nestjs-backend/src/global/data-db-runtime-cache.service.ts:88-96 | likewise for exactly the entries of a key |
| RuntimeCacheCalls.ShutdownExact | apps/nestjs-backend/src/global/data-db-runtime-cache.service.ts:132-136 | likewise for all entries |
| RuntimeCacheCalls.ResumeSettles | apps/nestjs-backend/src/global/data-db-runtime-cache.service.ts:113-118 | a waiting call goes on once the creation has settled, and then destroys a value that is there |
| RuntimeCacheResources.SegmentKeeps | apps/nestjs-backend/src/global/data-db-runtime-cache.service.ts:30-136 | every segment keeps the LRU and resource invariants; the entries that nobody owns grow by exactly what a rejection displaces and shrink by exactly what is rejected |
| RuntimeCacheResources.SegmentConserves | apps/nestjs-backend/src/global/data-db-runtime-cache.service.ts:30-136 | with nothing lost so far, a segment loses a resource, present or still to come, exactly when it is the rejection of a creation whose key is another entry's, one that has not resolved to null |
| RuntimeCacheResources.RunInv | apps/nestjs-backend/src/global/data-db-runtime-cache.service.ts:30-136 | at every await of every run: at most the limit of entries, one per key, none handed over twice or kept after it was |
| RuntimeCacheResources.ResourceConservation | apps/nestjs-backend/src/global/data-db-runtime-cache.service.ts:57-60 | over every run, no await finds a resource, present or still to come, in nobody's hands if and only if no segment is such a rejection |
| RuntimeCacheResources.UnownedAreDisplaced | apps/nestjs-backend/src/global/data-db-runtime-cache.service.ts:57-60 | at the end of any run the entries in nobody's hands are those that rejections displaced, but for the ones since rejected |
| RuntimeCacheResources.ValuesLostAtEnd | apps/nestjs-backend/src/global/data-db-runtime-cache.service.ts:57-60 | at the end of any run a created value is lost if and only if some displaced entry got one |
| RuntimeCacheResources.FateOfValue | apps/nestjs-backend/src/global/data-db-runtime-cache.service.ts:113-126 | a value any run creates is in the map and untouched; or was handed over once and destroyed once, but for a call still waiting; or was displaced by a rejection and is never handed over |
| RuntimeCacheResources.NoStrayNoLoss | apps/nestjs-backend/src/global/data-db-runtime-cache.service.ts:30-126 | a run without such rejections has every value it created in the map or handed over exactly once |
| RuntimeCacheResources.StrayRejectionLosesValue | apps/nestjs-backend/src/global/data-db-runtime-cache.service.ts:57-60 | such runs exist: a key deleted while its creation is pending and created again loses the second value when the first creation rejects |
| RuntimeCacheRecency.RecencyOrder | apps/nestjs-backend/src/global/data-db-runtime-cache.service.ts:36-42 | at every await of every run the entries are in the order in which their keys were last asked for, counted from the requests of the run |
| RuntimeCacheRecency.RequestKeepsEntries | apps/nestjs-backend/src/global/data-db-runtime-cache.service.ts:36-42 | a request for a key in the map takes nothing out of it, hands nothing over and makes nothing |
| RuntimeCacheRecency.EvictsLeastRecent | apps/nestjs-backend/src/global/data-db-runtime-cache.service.ts:44-111 | in any run, a request for an absent key puts the new entry last; when the map is full, exactly the entry whose key was asked for longest ago is handed over |
| RuntimeCacheRecency.KeyKeepsEntry | apps/nestjs-backend/src/global/data-db-runtime-cache.service.ts:36-42 | a key that is in the map before and after a segment has the same entry |
| RuntimeCacheRecency.SingleFlight | apps/nestjs-backend/src/global/data-db-runtime-cache.service.ts:36-55 | over any run that keeps a key in the map, requests for it meet one entry and start no other creation |
| OutboxPages.IterateComputedOutboxWakeupCandidates | apps/nestjs-backend/src/global/data-db-client-manager.service.ts:240-315 | the generator's loop yields the pages of the specification, over one database per query |
| OutboxPages.YieldedStrictlyIncreasing | apps/nestjs-backend/src/global/data-db-client-manager.service.ts:255-311 | however the tables change between queries, the yielded ids strictly increase, if and only if one-row pages do not meet the empty id in the first two queries |
| OutboxPages.EmptyIdIsRepeated | apps/nestjs-backend/src/global/computed-outbox-maintenance-query.ts:72-91 | a pending row under the empty id is yielded at every query of one-row pages, and the iteration does not end |
| OutboxPages.StableRowsExactlyOnce | apps/nestjs-backend/src/global/computed-outbox-maintenance-query.ts:53-94 | a row that meets the predicate at every query of a completed iteration is yielded, and once |
| OutboxPages.YieldedAreCandidates | apps/nestjs-backend/src/global/computed-outbox-maintenance-query.ts:11-51 | every yielded row met the query's predicate when its page was read |
| OutboxWakeups.YieldedAreReady | apps/nestjs-backend/src/global/computed-outbox-maintenance-query.ts:11-94 | whatever changes between queries, a yielded row waited for a time that had come or was in processing, past its lease when only actionable rows are asked for, and no pause without an end or with a later one was on its base, its tables or its space |
| OutboxWakeups.YieldsExactlyTheReady | apps/nestjs-backend/src/global/computed-outbox-maintenance-query.ts:11-94 | over an unchanging database a completed iteration yields exactly the rows in such a state with no such pause |
| OutboxWakeups.PagesAreBatches | apps/nestjs-backend/src/global/data-db-client-manager.service.ts:255-311 | every page but the last holds exactly a batch of rows, the last one at least one and at most a batch |
| OutboxPages.ActionableIsDue | apps/nestjs-backend/src/global/data-db-client-manager.service.ts:290-294 | an actionable row is reported as due by now, if and only if it is not a processing row without lock time and with a later next run |
| OutboxRecovery.ComputedOutboxStore.Recover | apps/nestjs-backend/src/global/data-db-client-manager.service.ts:603-648 | the transaction run alone does to both tables what its statements in a row do, and reports the same |
| OutboxRecovery.StepKeepsInv | apps/nestjs-backend/src/global/data-db-client-manager.service.ts:603-648 | every statement of every attempt keeps the locks, the unique plans and the reports consistent, and both tables' ids |
| OutboxRecovery.RecoveryConserves | apps/nestjs-backend/src/global/data-db-client-manager.service.ts:603-648 | over every interleaving, no id leaves outbox and dead letters together and none newly is in both |
| OutboxRecovery.AtMostOneRecovery | apps/nestjs-backend/src/global/data-db-client-manager.service.ts:603-648 | of any attempts on one dead letter at most one reports it recovered, and then it is in the outbox and gone from the dead letters |
| OutboxRecovery.OnlyRecoveryChangesTables | apps/nestjs-backend/src/global/data-db-client-manager.service.ts:643-647 | the committed tables change exactly with the commit of an attempt that reports recovery; conflict and not-found change nothing |
| OutboxRecovery.TransactionOutcome | apps/nestjs-backend/src/global/data-db-client-manager.service.ts:603-648 | not-found exactly without a dead row; conflict exactly when the id is taken or a pending row has the same base, seed table, plan hash and change type; and otherwise the row is moved with its plan kept, no attempts, no lock, no error, due now |
| RecordLocks.LockedRowsAscend | apps/nestjs-backend/src/db-provider/postgres.provider.ts:524-543 | each existing row with a requested, non-empty id is locked once, in strictly ascending order |
| RecordLocks.NoCyclicWait | apps/nestjs-backend/src/db-provider/postgres.provider.ts:537-542 | no chain of waits, of any length, returns to its start |
| RecordLocks.SomeoneCanStep | apps/nestjs-backend/src/db-provider/postgres.provider.ts:537-542 | while a transaction is unfinished some transaction can lock its next row or commit |
| RecordLocks.DeadlockFreedom | apps/nestjs-backend/src/db-provider/postgres.provider.ts:524-543 | in every reachable state of any number of lock statements: no cyclic wait, someone can go on, and no run is longer than the work there is |
| RecordLocks.OppositeOrdersDeadlock | apps/nestjs-backend/src/db-provider/postgres.provider.ts:537-540 | without the common order two transactions come to wait for each other |
| ShareDbOps.InternalGetOps | apps/nestjs-backend/src/share-db/share-db.adapter.ts:366-442 | the made-up ops: none without a gap, the snapshot as a create, or one edit per version with the snapshot in the last; not-found without a snapshot |
| ShareDbOps.RowsAnswered | apps/nestjs-backend/src/share-db/readonly/readonly.service.ts:21-41 | exactly a row that claims to have no op is rejected, and a missing document has no ops, whatever is asked for |
| ShareDbOps.OpsAreContiguous | apps/nestjs-backend/src/share-db/share-db.adapter.ts:419-430 | the ops of any stored document have versions from the requested one on, without gap, and only the last carries anything |
| ShareDbOps.RangeLength | apps/nestjs-backend/src/share-db/share-db.adapter.ts:420 | there are as many ops as the requested range has versions, if and only if the requested end is not 0, which is taken for an open end |
| ShareDbOps.ReplayEdits | apps/nestjs-backend/src/share-db/share-db.adapter.ts:421-430 | replaying the edits of a gap moves the version by the gap and sets what the last op carries |
| ShareDbOps.ReplayReachesEnd | apps/nestjs-backend/src/share-db/share-db.adapter.ts:366-442 | a client of an edited document reaches the requested end with its fields overridden by the snapshot's, or stays as it is |
| ShareDbOps.ReplayCatchesUp | apps/nestjs-backend/src/share-db/readonly/readonly.service.ts:21-41 | for an open end and any stored document, new, edited, deleted or already seen: what replaying leaves |
| ShareDbOps.ReplayComposes | apps/nestjs-backend/src/share-db/share-db.adapter.ts:419-430 | fetching a range in two parts gives the document that fetching it at once gives |
| ShareDbOps.OpCarriesSnapshot | apps/nestjs-backend/src/share-db/share-db.adapter.ts:547-580 | the op sets each carried entry to its value and nothing else: all entries of a record, an empty list as null; those of a field or table but the id and the empty ones; none of a view |
| ShareDbOps.ReplayMeetsSnapshot | apps/nestjs-backend/src/share-db/share-db.adapter.ts:366-442 | a client of an edited document that catches up holds exactly the snapshot if and only if: for a record, no field is gone from it and no cell of it is an empty list; for a field or table, no property is gone and the id and the empty ones are there already; for a view, it held it before |
| ShareDbOps.GoneFieldStays | apps/nestjs-backend/src/share-db/share-db.adapter.ts:547-580 | a field the client has and the snapshot lacks keeps the client's value |
| ShareDbOps.ClearedCellStays | apps/nestjs-backend/src/share-db/share-db.adapter.ts:366-442 | a client with a cell that was cleared on the server still has it after catching up |
| ShareDbOps.GetOpsBulk | apps/nestjs-backend/src/share-db/share-db.adapter.ts:470-545 | it succeeds exactly when the single form does for every id, then holds exactly the ids with the single form's ops, and else reports the first id's error |
| ShareDbOps.FetchedSuffices | apps/nestjs-backend/src/share-db/share-db.adapter.ts:499-537 | over the prefetched snapshots, and with a missing id taken for a deleted one, the single form gives what it gives over all of them |
| ShareDbOps.PrefetchExact | apps/nestjs-backend/src/share-db/share-db.adapter.ts:483-497 | the prefetched ids are exactly those whose ops cannot be made without a snapshot |
| OpEvents.EventManager.MergeEventsForUpdate | apps/nestjs-backend/src/event-emitter/event-emitter.service.ts:234-296 | the event of an id is stored, merged into a record's create or edit, or replaced; no other id changes |
| OpEvents.EventManager.GenerateEventsFromRawOps | apps/nestjs-backend/src/event-emitter/event-emitter.service.ts:178-209 | the nested loops put the events of all ops of an op map, in order |
| OpEvents.CollectEventsFromRawOpMap | apps/nestjs-backend/src/event-emitter/event-emitter.service.ts:167-176 | over several op maps the events are those of all their ops in a row |
| OpEvents.EventOfHistory | apps/nestjs-backend/src/event-emitter/event-emitter.service.ts:167-257 | however a document's ops are spread and mixed with others', its event is that of its own history |
| OpEventKinds.KindOfKept | apps/nestjs-backend/src/event-emitter/event-emitter.service.ts:167-257 | a document has an event exactly when some op of it is of a known kind; the event is a deletion when one is last, a creation when one is last but for edits of a record, and else an edit; it names the document and its table, and carries what its kind says, or outside records the last op |
| OpEventKinds.KeptInOrder | apps/nestjs-backend/src/event-emitter/event-emitter.service.ts:167-176 | the events are those of the documents with an op of a known kind, in the order of their first such ops |
| OpEventKinds.OldValuesTold | packages/core/src/op-builder/record/set-record.ts:15-42 | an edit of different fields, with faithful ops, tells for each what a reader saw before |
| OpEvents.ChangesMatchOps | packages/core/src/op-builder/record/set-record.ts:15-42 | an edit event's new values do to a record what its ops do, for what a reader sees |
| OpEvents.MergedTells | apps/nestjs-backend/src/event-emitter/event-emitter.service.ts:234-296 | after any well-formed history the event agrees with the record on every field but those still holding what the creating op carried |
| OpEvents.NetEffect | apps/nestjs-backend/src/event-emitter/event-emitter.service.ts:178-296 | the one event, taken by its kind, does to the record what its ops did, in order, if and only if no cell still holds what the creating op carried |
| OpEvents.CoalescingKeepsNetEffect | apps/nestjs-backend/src/event-emitter/event-emitter.service.ts:167-296 | so does the event kept for a record over any number of op maps that mix its ops with others' |
| OpEvents.EmptyCreatesLoseNothing | apps/nestjs-backend/src/features/record/record.service.ts:1383-1388 | creating ops without data, as record creation saves them, leave nothing untold |
| EventGroups.KeysTellKinds | apps/nestjs-backend/src/event-emitter/event-emitter.service.ts:93-96 | two events share a group key exactly when they are of one kind on one table |
| EventGroups.NamesAsListenedTo | apps/nestjs-backend/src/event-emitter/events/event.enum.ts:18-35 | the name of each kind of event is the one listeners subscribe to |
| EventGroups.KeysInOrder | apps/nestjs-backend/src/event-emitter/event-emitter.service.ts:91-98 | the groups come in the order of their first events |
| EventGroups.GroupInOrder | apps/nestjs-backend/src/event-emitter/event-emitter.service.ts:91-98 | the events of a group are in the order in which they came |
| EventGroups.MergePropertyIsPayload | apps/nestjs-backend/src/event-emitter/event-emitter.service.ts:129-149 | the joined property is the one a single event has its document under, or for a deletion, its id |
| EventGroups.GroupBy | apps/nestjs-backend/src/event-emitter/event-emitter.service.ts:91-98 | keys in order of first appearance, each with exactly its events in order |
| EventGroups.CombineEvents | apps/nestjs-backend/src/event-emitter/event-emitter.service.ts:114-160 | a single event passes, several become one with the list of their values of the merge property |
| EventGroups.EmitAll | apps/nestjs-backend/src/event-emitter/event-emitter.service.ts:85-127 | one event goes out per key, and all carry every payload of their group in order, if and only if no two table events share a key |
| EventGroups.TablesNeverCollide | apps/nestjs-backend/src/event-emitter/event-emitter.service.ts:211-225 | the events of a transaction, kept once per id and naming a table by its own id, never have two such |
| EventGroups.Ops2Event | apps/nestjs-backend/src/event-emitter/event-emitter.service.ts:84-102 | both passes together lose no payload of any kept event; every document with an op of a known kind is told of by an event of the kind its ops come down to; and events of one kind on one table go out together |
| PerformanceCache.PerformanceCacheService.Get | apps/nestjs-backend/src/performance-cache/service.ts:125-149 | finds the stored value unless reads are off or fail, and counts each read once, as hit, miss or error |
| PerformanceCache.PerformanceCacheService.Set | apps/nestjs-backend/src/performance-cache/service.ts:154-179 | stores under the key alone, swallows a failed write, throws without a ttl, and counts what it did |
| PerformanceCache.StepKeepsInv | apps/nestjs-backend/src/performance-cache/service.ts:309-392 | every step of every caller keeps the lock exclusive, each caller's runs single, values accounted for and the bound; how calls end is told below |
| PerformanceCache.RunsAreBounded | apps/nestjs-backend/src/performance-cache/service.ts:309-375 | over every interleaving, successful runs are at most one plus the callers that fell back, those that lost the lock and the cache's lapses; a value cached at first stands for a run |
| PerformanceCache.ReturnedAreFew | apps/nestjs-backend/src/performance-cache/service.ts:309-375 | no more different values are returned than that |
| PerformanceCache.AllReturnTheSame | apps/nestjs-backend/src/performance-cache/service.ts:309-375 | with no fallback, lost lock or lapse all callers that complete get the same value, null included |
| PerformanceCache.UnguardedRunsTwice | apps/nestjs-backend/src/performance-cache/service.ts:318-332 | in any other configuration there is a run with two executions in which nothing went wrong |
| PerformanceCache.BoundNeedsGuard | apps/nestjs-backend/src/performance-cache/service.ts:309-392 | the bound holds over every interleaving exactly with cache, reads, writes, a ttl and the lock in use |
| PerformanceCacheOutcomes.CallBegins | apps/nestjs-backend/src/performance-cache/service.ts:316-332 | a call returns what its first read hits, and otherwise waits for the lock, or runs the function where there is no lock to wait for |
| PerformanceCacheOutcomes.LockedReadHits | apps/nestjs-backend/src/performance-cache/service.ts:336-350 | a caller that has the lock returns what its second read hits, whatever others do in between |
| PerformanceCacheOutcomes.LockedRunCompletes | apps/nestjs-backend/src/performance-cache/service.ts:352-395 | without a hit it runs the function in the lock, caches the result and returns it, whatever others do in between; it fails if storing needs a ttl that is missing |
| PerformanceCacheOutcomes.LockTroubleFallsBack | apps/nestjs-backend/src/performance-cache/service.ts:361-369 | whatever goes wrong with the lock, the caller falls back instead of failing, and holds the lock no more |
| PerformanceCacheOutcomes.FallbackCompletes | apps/nestjs-backend/src/performance-cache/service.ts:364-369 | a caller that fell back returns what its read hits, and otherwise runs the function, caches the result and returns it |
| PerformanceCacheOutcomes.DirectRunCompletes | apps/nestjs-backend/src/performance-cache/service.ts:326-328 | without a lock the function is run, its result cached and returned |
| PerformanceCacheOutcomes.OwnThrowFails | apps/nestjs-backend/src/performance-cache/service.ts:361-374 | a function that throws, with the lock not to blame, fails its call and is not run again |
| PerformanceCacheOutcomes.ValueIsGiven | apps/nestjs-backend/src/performance-cache/service.ts:309-392 | over every run, what a call returns was given to it by a read of its own that hit or by its own run of the function |
| PerformanceCacheOutcomes.FailureIsOwn | apps/nestjs-backend/src/performance-cache/service.ts:309-392 | over every run, a call fails only because its own function threw or a ttl is missing, never through the cache or the lock |
| PerformanceCacheOutcomes.CallsMoveForward | apps/nestjs-backend/src/performance-cache/service.ts:309-392 | no event moves a call back, so each ends after at most nine steps of its own |
| PerformanceCacheOutcomes.CallsCanMove | apps/nestjs-backend/src/performance-cache/service.ts:309-392 | in every state an unfinished call has a step of its own that moves it on |
| UpdateOrder.Siblings.GetNextItem | apps/nestjs-backend/src/utils/update-order.ts:29-32 | finds the nearest sibling on one side, or that there is none |
| UpdateOrder.Siblings.UpdateOrder | apps/nestjs-backend/src/utils/update-order.ts:28-46 | stores the placed order, or asks for a shuffle and changes nothing |
| UpdateOrder.MovePlacesItem | apps/nestjs-backend/src/utils/update-order.ts:34-46 | the item comes to sit beside its anchor on the requested side with nothing between, no other order changes, and orders stay distinct |
| UpdateOrder.MoveMovesInList | apps/nestjs-backend/src/utils/update-order.ts:28-46 | on the list the orders stand for, a move takes the item out and puts it back beside the anchor |
| UpdateOrder.Siblings.UpdateMultipleOrders | apps/nestjs-backend/src/utils/update-order.ts:80-102 | the items come to sit in order on the requested side, evenly spaced, each nearer to the anchor than any sibling there was; a shuffle is asked for exactly when the spacing is under the threshold |
| UpdateOrder.NewOrdersFillGap | apps/nestjs-backend/src/utils/update-order.ts:88-101 | the new orders strictly rise and stay strictly inside the gap |
| UpdateOrder.SpacingOfGap | apps/nestjs-backend/src/utils/update-order.ts:88-97 | the spacing times one more than the items is the distance to the nearest sibling on that side, or 1 where there is none |
| UpdateOrder.MovesHalveGap | apps/nestjs-backend/src/utils/update-order.ts:34-46 | moves beside one anchor all go through if and only if the gap, halved once for each, stays at or over the threshold |
| UpdateOrder.MovesBeforeShuffle | apps/nestjs-backend/src/utils/update-order.ts:40-45 | from a gap of 1 exactly 51 moves beside one anchor go through, from an open side exactly 52 |
| WsGateway.Handlers.HandleConnection | apps/nestjs-backend/src/ws/ws.gateway.ts:59-97 | an opened connection is active and gets one timer, a failed one neither |
| WsGateway.Handlers.BindUser | apps/nestjs-backend/src/ws/ws.gateway.ts:102-112 | the timer binds the connection if the session has a user, active or not |
| WsGateway.Handlers.HandleUserConnect | apps/nestjs-backend/src/ws/ws.gateway.ts:114-126 | both indexes take the binding, a user's first connection begins a session |
| WsGateway.Handlers.HandleUserDisconnect | apps/nestjs-backend/src/ws/ws.gateway.ts:128-157 | both indexes drop the connection, a user's last one ends the session |
| WsGateway.ConnectKeepsAgreement | apps/nestjs-backend/src/ws/ws.gateway.ts:114-126 | binding keeps the indexes in agreement if and only if the connection has no other user |
| WsGateway.DisconnectKeepsAgreement | apps/nestjs-backend/src/ws/ws.gateway.ts:128-157 | unbinding always does, for connections never bound as well |
| WsGateway.IndexesAgree | apps/nestjs-backend/src/ws/ws.gateway.ts:59-157 | in every reachable state a connection maps to a user exactly when it is among the user's, no user has none, and sessions begun minus ended are the users |
| WsGateway.ActiveAreOpen | apps/nestjs-backend/src/ws/ws.gateway.ts:59-97 | over every run the active connections are exactly those that opened without failing and have not closed |
| WsGateway.StaleExactlyLate | apps/nestjs-backend/src/ws/ws.gateway.ts:102-112 | the connections counted though gone are exactly those bound after they closed |
| WsGateway.ClosedBeforeBound | apps/nestjs-backend/src/ws/ws.gateway.ts:102-112 | a connection that closes before its timer fires leaves nobody connected and its user counted |
| WsGateway.LateBindStays | apps/nestjs-backend/src/ws/ws.gateway.ts:128-157 | such a connection stays counted whatever happens next |

## Left out

- GuardCompleteness: covers padded numeric tokens, meridiem markers and literal characters other than the letters `A D H I M S Y` of the templates, in either case, and beyond ASCII only characters without upper case that are no white space; years go up to 9999. Formats with names of months and days or with time zones are not characterized, nor are those letters, of which `DatetimeGuardInputs.YearLetterIsRejected` shows one that the guard rejects.
- GuardExact: is limited likewise, and to separators other than digits.
- BuildDatetimeFormatSql: keeps the SQL text of a token abstract, told apart only by template, and the operands as a list, so the joining with `||` is not modelled.
- JsonPathLayer: the `\x` and `\u` escapes of JSON path literals are not read, since the escaper never writes them.
- EscapedSearchExact: regex groups, alternation, classes and the other escapes make a pattern unreadable in `PostgresRegex`, which the escaped patterns never contain.
- `hasDatetimeTimezoneToken` is a search over the same items.
- Strings are sequences of characters: surrogate pairs and UTF-16 indexing are not modelled, and `toUpperCase` beyond ASCII is a parameter.
- Inputs of the escapers that are not strings, and ids of `lockRecordsSql` that are not strings.
- GetOrCreate: entries are ids into a map of all entries ever made instead of references, creation and destroy functions are their outcomes, and errors of a destroy function, which are only logged, do not show.
- IterateComputedOutboxWakeupCandidates: the page's other columns, query timeouts and the connection's end are not modelled; a fractional batch size is taken as already truncated.
- Recover: workers that take or finish outbox rows during a recovery are not modelled, nor is the read-only check for stale rows; a row's remaining columns are one payload.
- DeadlockFreedom: the rows that exist and the order of ids do not change while statements lock, and the only locks are those of `lockRecordsSql`.
- InternalGetOps: random source ids, the `meta` field that snapshots of fields omit, and errors of the services are not modelled; an op component with neither value is taken to set nothing, and the json0 type, which decides that, is not part of this model.
- NetEffect: is about fields; old values in a merged edit are those of the last edit, and what fields, views and tables carry is their last op.
- EventOfHistory: takes a record's ops to come under one collection and its id to belong to no other document.
- CombineEvents: contexts, the `oldField` of the session and the values other than the merge property are those of the first event and are not modelled.
- RunsAreBounded: retries and timings of the lock are not modelled, only that a caller gets it, loses it or fails to; a `set` without ttl whose lock release fails as well counts as failed.
- Get: the per-type statistics and metrics are not modelled.
- UpdateOrder: orders are exact reals, so strictness for large floating-point orders is not claimed; what follows a shuffle, where the anchor's order may be stale, is not modelled.
- IndexesAgree: the graceful shutdown, which clears both indexes without ending sessions, is not modelled; a session without user id never binds.
- `listComputedOutboxMaintenanceTargets`, `inspectComputedOutboxMaintenanceTarget` and `listComputedOutboxMaintenanceAnomalies`, which list the connections and count and page the rows in trouble, the distributed lock service, which takes and frees single Redis keys, and the performance cache's `mget`, `mset` and `del`, which read, write and drop keys without a lock, are not modelled.
