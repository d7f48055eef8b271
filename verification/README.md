# Agentic QA: a Dafny model of its stateful and arithmetic cores

The model covers the parts of the platform whose behaviour spans many calls: the LRU cache with
TTLs, the SQL script guard, signed audit rows, secret redaction, the circuit breaker, the
retention sweep, LLM failover with cost and budget ledgers, human approval gates, the release-risk
score, prompt traffic splits, error budgets, and three ledgers (idempotency keys, external issues,
feedback cases). Objects that the source updates in place are classes whose methods are proved
against functions on values; the laws about whole runs are lemmas about those functions.

Times are integers, floats and decimals are exact reals with the source's rounding rules, and
providers, factories, hashes and clocks are parameters. Each module names its component:
`LruSpec`, `LruInclusion`, `LruCapacity`, `LruHistory`, `LruCache`, `EmbeddingCache`;
`Substitution`, `SqlText`, `SqlTokens`, `SqlSplit`, `SqlWith`, `SqlClassify`, `SqlVerdict`, `SqlOrigins`,
`SqlChunks`, `SqlLex`, `SqlMiscuts`, `SqlGuard`; `Json`, `JsonCanon`, `JsonText`, `Utf8`, `IsoTime`,
`AuditSigning`, `AuditText`; `Redactor`, `RedactorCompany`; `BreakerSpec`, `CircuitBreaker`;
`RetentionRules`, `RetentionSweep`, `RetentionWindows`; `Pricing`,
`LlmClient`, `Budget`; `ApprovalSpec`, `ApprovalService`, `ApprovalGate`; `RiskScore`;
`TrafficSplit`; `Slo`; `Idempotency`, `ExternalIssues`, `Promotion`. `Options`, `Sequences` and
`RealMath` hold small shared helpers. `dafny verify dfyconfig.toml` checks everything.

Where the code and its documentation differ, the model follows the code:

- `_iso_utc` is documented to render UTC but keeps the zone of an aware time
  (`IsoTime.ZoneShows`, `AuditSigning.OtherZoneIsTampering`).
- The SQL splitter slices the raw text with offsets of the cleaned text, whose length differs
  around literals and comments, and it strips comments before literals, so that a comment opener
  inside a literal counts. It cuts at the right semicolons if and only if the cleaned ones stand at
  the same places (`SqlLex.CutsAtLexTopIff`); for tidy scripts that means that everything in front
  of each of them keeps its length (`SqlLex.TidyCutsIff`). That the pieces rejoin is not enough
  (`SqlMiscuts.RejoinsButMiscut`), and a destructive statement can go unseen
  (`SqlMiscuts.DropPasses`, `SqlMiscuts.DashesHideStatement`).
- A WITH statement is judged by its main query alone (`SqlClassify.WritingBodyReads`).
- The WITH scan does not know column lists (`SqlWith.RightIffNoColumns`).
- The approval step is documented to pause again idempotently, but the runner replaces the stored
  output of a paused step by the empty output of the next pause, so the request id is lost
  (`ApprovalGate.LostIdsReopen`, `ApprovalGate.PendingTwice`).
- A cached-token rate of zero is treated as unset (`Pricing.BilledAsConfiguredIff`).
- An answer that reports more cached than sent tokens raises before its usage row is written
  (`LlmClient.OneRowPerAnswer`).

## Model

| member | source | states |
|---|---|---|
| LruInclusion.Inclusion | apps/api/src/aqao_api/caching/lru.py:81-136 | over every trace of the same calls, a cache of capacity k stays inside one of capacity k' >= k: subsequence with equal entries (any TTLs, no get_or_compute) or with never-expiring entries (all calls, no TTL); size gap at most k' - k; no more hits, no fewer misses in total, no fewer evictions |
| LruInclusion.SameAnswers | apps/api/src/aqao_api/caching/lru.py:81-95 | whatever the small cache would answer at any moment, the large one answers with the same value |
| LruInclusion.SameAnswersPure | apps/api/src/aqao_api/caching/lru.py:116-128 | with values that depend on the key alone and no TTL, get_or_compute included, every entry of the small cache is in the large one, and the large one gives every answer the small one gives |
| LruCapacity.ComputeWithTtlBreaksInclusion | apps/api/src/aqao_api/caching/lru.py:116-128 | for any capacities 1 <= k < k' a get_or_compute trace with a TTL after which the smaller cache has more hits and a key the larger one lacks |
| LruCapacity.HitsMonotoneIffEqual | apps/api/src/aqao_api/caching/lru.py:81-128 | with every call allowed, capacity k never hits more than k' >= k on any trace if and only if k = k' |
| LruHistory.HitIsLastWrite | apps/api/src/aqao_api/caching/lru.py:81-95 | a hit returns the value of the last write not invalidated, cleared or seen expired, and only while that write is unexpired |
| LruHistory.RecentKeysHit | apps/api/src/aqao_api/caching/lru.py:97-114 | a live write can be missed only after `capacity` other keys have been used since the key's last use |
| LruHistory.CachedIffRecent | apps/api/src/aqao_api/caching/lru.py:97-114 | without TTLs, invalidation and clearing a written key is cached if and only if fewer than `capacity` other keys were used since |
| LruHistory.CountersAddUp | apps/api/src/aqao_api/caching/lru.py:38-50 | hits plus misses are all gets, and hits are the gets that were answered |
| LruHistory.EvictionsAddUp | apps/api/src/aqao_api/caching/lru.py:109-114 | over every run, evictions are the writes of an absent key to a full cache: expiry, removal and clearing do not count |
| LruSpec.RunShape | apps/api/src/aqao_api/caching/lru.py:109-114 | in every reachable state keys are distinct and the size is at most the capacity |
| LruSpec.EvictShape | apps/api/src/aqao_api/caching/lru.py:112-114 | eviction cuts exactly the surplus from the least recently used end and counts it |
| LruCache.LruCache.Create | apps/api/src/aqao_api/caching/lru.py:67-79 | a capacity below one is refused; otherwise an empty cache |
| LruCache.LruCache.Get | apps/api/src/aqao_api/caching/lru.py:81-95 | answer and new state of a read: expired entries are removed and counted as misses, hits move to the recent end |
| LruCache.LruCache.Set | apps/api/src/aqao_api/caching/lru.py:97-114 | new state of a write: move to the recent end, replace the entry, evict from the old end; at any later time the value is answered while its own TTL, without one the default TTL, without either nothing, has not run out |
| LruCache.LruCache.GetOrCompute | apps/api/src/aqao_api/caching/lru.py:116-128 | the cached value after a hit that is not None, else the factory's value, stored with its own clock reading and answered from then on while its TTL, or the default one, lasts |
| LruCache.LruCache.Invalidate | apps/api/src/aqao_api/caching/lru.py:130-132 | the key is gone, nothing else moves |
| LruCache.LruCache.Clear | apps/api/src/aqao_api/caching/lru.py:134-136 | no entries are left, the counters stay |
| EmbeddingCache.Transparent | apps/api/src/aqao_api/caching/specialised.py:27-60 | for model names of which none runs into another and a hash without collisions: after any interleaving of other callers' lock-held reads and stores, get_or_compute hands back the factory's answer for its own request |
| EmbeddingCache.TransparentIff | apps/api/src/aqao_api/caching/specialised.py:27-60 | for a factory that answers every request differently the cache is transparent in all runs if and only if no two model names in use clash |
| EmbeddingCache.BlobsSeparateIff | apps/api/src/aqao_api/caching/specialised.py:27-29 | the key texts tell all requests over a set of models apart if and only if no two of the models clash |
| EmbeddingCache.BlobsCollideIffClash | apps/api/src/aqao_api/caching/specialised.py:27-29 | two different models can share a key for some texts if and only if one is the other followed by ':' or starts with the other followed by '::'; a single ':' as in llama3:8b is harmless |
| EmbeddingCache.EmbeddingCache.GetOrCompute | apps/api/src/aqao_api/caching/specialised.py:47-54 | a sequential caller gets the stored vector or the factory's answer; while the model names in use do not clash that is the factory's answer, and the stored vectors stay faithful |
| SqlClassify.ClassifyAfterPlain | packages/agents/src/aqao_agents/db_validator/parser.py:83-96 | a script without quote or comment opener can be put in front of any script: the statements are those of the first followed by those of the second, and the whole is destructive iff one of them is |
| SqlClassify.ClassifyAppend | packages/agents/src/aqao_agents/db_validator/parser.py:83-91 | the same for any two scripts whose cleaning works on each side of the semicolon separately and keeps the first one's length |
| SqlClassify.PiecesAppendIff | packages/agents/src/aqao_agents/db_validator/parser.py:213-233 | with text behind its last semicolon, the pieces of two scripts in a row are those of each if and only if cleaning keeps the length of the first |
| SqlClassify.ClassifySegments | packages/agents/src/aqao_agents/db_validator/parser.py:83-91 | a plain script is classified segment by segment, blank segments left out |
| SqlClassify.MoreVerbsStopMore | packages/agents/src/aqao_agents/db_validator/parser.py:98-148 | registering extra destructive verbs never makes a destructive script read-only |
| SqlVerdict.PieceVerdict | packages/agents/src/aqao_agents/db_validator/parser.py:83-148 | any piece, literals and comments included, with anything left after cleaning is one statement under its first word: destructive iff that is one of the sixteen names or an added verb, read-only iff it is SELECT, EXPLAIN, SHOW or VALUES and not added, unknown otherwise |
| SqlVerdict.VerdictOfPlain | packages/agents/src/aqao_agents/db_validator/parser.py:93-148 | a single plain statement not starting with WITH is stopped iff its verb is an added one or none of the four that read |
| SqlVerdict.WithVerdict | packages/agents/src/aqao_agents/db_validator/parser.py:113-138 | a WITH statement is destructive, read-only or unknown by the word behind its clause in the same way, a second WITH counting as reading |
| SqlVerdict.VerbReads | packages/agents/src/aqao_agents/db_validator/parser.py:159-164 | behind blanks, the verb is the whole run of ASCII letters, each as its capital |
| SqlClassify.BodiesUnseen | packages/agents/src/aqao_agents/db_validator/parser.py:98-148 | the verdict on a WITH statement is that of its main verb, or Unknown behind a column list, whatever the bodies of its expressions do |
| SqlClassify.WritingBodyReads | packages/agents/src/aqao_agents/db_validator/parser.py:98-148 | with any balanced body, a DELETE included, a WITH statement whose main verb reads counts as read-only |
| SqlLex.CutsAtLexTopIff | packages/agents/src/aqao_agents/db_validator/parser.py:200-233 | the pieces are the script cut at its own semicolons, those that one scan from left to right meets outside comments and literals, if and only if the cleaned text has its semicolons at the same places |
| SqlLex.TidyCutsIff | packages/agents/src/aqao_agents/db_validator/parser.py:200-233 | for a tidy script (no comment starts in a literal, no block comment in a line comment, no quote is left open) that is so if and only if everything in front of each surviving semicolon is cleaned to as many characters as it has |
| SqlLex.TidySurvivors | packages/agents/src/aqao_agents/db_validator/parser.py:200-210 | on a tidy script the three strip passes leave exactly the semicolons of the scan |
| SqlOrigins.SurvivorsExact | packages/agents/src/aqao_agents/db_validator/parser.py:205-210 | each semicolon of the cleaned text was made from one of the raw text, in order, and its cleaned place is the length of the cleaned text in front of that one |
| SqlOrigins.CutsAtSurvivorsIff | packages/agents/src/aqao_agents/db_validator/parser.py:205-233 | the pieces are the raw text cut at the semicolons that survive the passes if and only if the lengths in front of them are kept |
| SqlLex.ClassifiesLexTop | packages/agents/src/aqao_agents/db_validator/parser.py:83-91 | when the cleaned semicolons stand at the places of the scan, every statement is classified as it stands in the script |
| SqlOrigins.LengthsKeptRejoins | packages/agents/src/aqao_agents/db_validator/parser.py:213-233 | with those lengths kept, joining the pieces restores the script |
| SqlMiscuts.RejoinsButMiscut | packages/agents/src/aqao_agents/db_validator/parser.py:205-233 | the converse fails: a script whose pieces rejoin although it is cut inside a comment |
| SqlMiscuts.LiteralsHideStatement | packages/agents/src/aqao_agents/db_validator/parser.py:205-233 | a family of scripts whose empty literals push the semicolon past the end: one piece, judged by its first verb, whatever statement follows the semicolon that the scan finds |
| SqlMiscuts.DropPasses | packages/agents/src/aqao_agents/db_validator/parser.py:93-96 | one of them holds a DROP: the script counts as read-only, the statement alone and the correctly cut script as destructive |
| SqlMiscuts.DashesHideStatement | packages/agents/src/aqao_agents/db_validator/parser.py:205-210 | a family of scripts with two dashes in a literal: no semicolon survives, so every length is kept, and any statement behind the literal on that line goes unseen, although the scan finds its semicolon |
| SqlClassify.Classify | packages/agents/src/aqao_agents/db_validator/parser.py:83-91 | the loop over the split pieces computes the classification the laws are about |
| SqlSplit.SplitStatements | packages/agents/src/aqao_agents/db_validator/parser.py:213-233 | the one-pass scanner computes the split the laws are about |
| SqlSplit.Tiling | packages/agents/src/aqao_agents/db_validator/parser.py:213-233 | for any text, piece j is the raw slice between the places of the cleaned text's semicolons j-1 and j: consecutive, disjoint, one place skipped per semicolon |
| SqlSplit.RejoinsIffAligned | packages/agents/src/aqao_agents/db_validator/parser.py:205-233 | joining the pieces with ';' restores the script if and only if every semicolon of the cleaned text stands on one of the raw text |
| SqlSplit.PlainRejoins | packages/agents/src/aqao_agents/db_validator/parser.py:213-233 | scripts without quote or comment opener are always restored |
| SqlSplit.SplitTail | packages/agents/src/aqao_agents/db_validator/parser.py:230-233 | the split leaves out nothing but a blank tail after the last semicolon |
| SqlText.CleanAfterPlain | packages/agents/src/aqao_agents/db_validator/parser.py:200-210 | the three strip passes leave a plain statement in front of a semicolon as it is, whatever follows |
| SqlTokens.BlockExact | packages/agents/src/aqao_agents/db_validator/parser.py:202 | a block comment is what stands from an opener to the first closer behind it, and nothing when there is none |
| SqlTokens.LineExact | packages/agents/src/aqao_agents/db_validator/parser.py:201 | a line comment is what stands from two dashes to the end of the line |
| SqlTokens.LiteralExact | packages/agents/src/aqao_agents/db_validator/parser.py:200 | a literal is the longest text that quotes, doubled quotes and backslash pairs allow, and nothing when its quote stays open |
| SqlTokens.MatchGoes | packages/agents/src/aqao_agents/db_validator/parser.py:208-210 | a comment becomes one blank and a literal its stand-in |
| SqlWith.VerbAfterWith | packages/agents/src/aqao_agents/db_validator/parser.py:167-197 | the index-and-depth loop computes the scan the laws are about |
| SqlWith.WithAnswers | packages/agents/src/aqao_agents/db_validator/parser.py:167-197 | on every well-formed list of common table expressions the answer is the verb of the main query, or AS as soon as any expression has a column list |
| SqlWith.NeverCloses | packages/agents/src/aqao_agents/db_validator/parser.py:167-170 | parentheses that never balance leave the verb empty |
| SqlWith.StrayCloser | packages/agents/src/aqao_agents/db_validator/parser.py:177-197 | after a closing parenthesis too many the verb stays empty unless more are opened than were closed |
| SqlWith.RightIffNoColumns | packages/agents/src/aqao_agents/db_validator/parser.py:167-197 | for a main verb other than AS the answer is that verb if and only if no expression of the list has a column list |
| SqlGuard.MaybeBuildStep | packages/agents/src/aqao_agents/db_validator/guard.py:48-70 | a review step exactly when the script is destructive, listing the verbs of all offending statements |
| SqlGuard.AssertReadOnly | packages/agents/src/aqao_agents/db_validator/guard.py:72-77 | raises exactly when MaybeBuildStep asks for a review, with those statements |
| SqlGuard.BlockedAfterPlain | packages/agents/src/aqao_agents/db_validator/guard.py:79-81 | the statements held for review of a plain script followed by any other are those of each part |
| AuditSigning.CanonicalBytesSeparate | apps/api/src/aqao_api/audit/signing.py:43-79 | two events have equal canonical bytes iff all nine fields agree, payloads compared as dicts at every depth and an absent payload as an empty one |
| AuditText.SignedBytes | apps/api/src/aqao_api/audit/signing.py:43-79 | the signed bytes written out for every event: one object without blanks, its ten members by name in ascending order, absent values null, an absent payload {}, the payload's keys ascending at every depth, in UTF-8 |
| AuditText.OneArrangement | apps/api/src/aqao_api/audit/signing.py:74-79 | every payload has exactly one arrangement with its keys ascending at every depth |
| AuditSigning.SignedRowVerdict | apps/api/src/aqao_api/services/audit.py:61-81 | with a MAC that separates bodies, a signed row checks as intact iff its nine fields are as they were signed, and as tampered otherwise |
| AuditSigning.OnlySignatureAccepted | apps/api/src/aqao_api/audit/signing.py:90-111 | a stored text is accepted iff a key is configured and it is the service's own signature of the row |
| AuditSigning.StatusTable | apps/api/src/aqao_api/audit/signing.py:82-111 | for any MAC: what is stored is v1: and the MAC of the row, nothing without a key; exactly when a row is unsigned, cannot be checked, is accepted, or makes the comparison raise on text outside ASCII |
| AuditSigning.OtherZoneIsTampering | apps/api/src/aqao_api/audit/signing.py:114-118 | the same instant read back is accepted if and only if its offset is the signed one, and is reported as tampered otherwise |
| JsonCanon.DumpsSeparates | apps/api/src/aqao_api/audit/signing.py:74-79 | sorted compact JSON: equal text iff equal value, whatever the insertion order of members at any depth |
| JsonCanon.CanonKeeps | apps/api/src/aqao_api/audit/signing.py:74-79 | sorting keys in ascending order of code points at every depth changes no value and yields the canonical form |
| JsonCanon.CanonicalUnique | apps/api/src/aqao_api/audit/signing.py:74-79 | a value has only one canonical form |
| JsonCanon.BeforeExact | apps/api/src/aqao_api/audit/signing.py:74-79 | one name comes before another iff it is smaller at their first difference, by code point, or a proper prefix |
| Json.ValueReads | apps/api/src/aqao_api/audit/signing.py:74-79 | compact JSON text determines its value and where it ends |
| Json.StringReads | apps/api/src/aqao_api/audit/signing.py:74-79 | JSON string escapes, as in section 7 of RFC 8259, determine the string |
| JsonText.TextOf | apps/api/src/aqao_api/audit/signing.py:74-79 | the text of every value: literal names, tokens, strings in quotation marks, and items and members separated by single commas between their brackets |
| JsonText.EscapeMeans | apps/api/src/aqao_api/audit/signing.py:74-79 | a reader takes what is written for a character for that character; it is written as itself where section 7 of RFC 8259 allows that, else by its short escape, else by four lower-case digits |
| Utf8.EncodeInjective | apps/api/src/aqao_api/audit/signing.py:79 | UTF-8 encoding loses nothing |
| Utf8.CharMeans | apps/api/src/aqao_api/audit/signing.py:79 | each character's bytes are the well-formed, shortest sequence for it in RFC 3629, section 3 |
| IsoTime.IsoSeparates | apps/api/src/aqao_api/audit/signing.py:114-118 | two timestamps render alike iff clock reading and offset agree, a naive time counting as offset zero |
| IsoTime.IsoReads | apps/api/src/aqao_api/audit/signing.py:114-118 | the rendering has 32 characters with every part of the clock reading in its place, read back as a number, and then the offset with its sign |
| IsoTime.ZoneShows | apps/api/src/aqao_api/audit/signing.py:114-118 | two readings of one instant, local dates included, render alike if and only if their offsets agree: the code does not convert to UTC |
| Redactor.Redact | packages/redaction/src/aqao_redaction/redactor.py:76-87 | patterns first, then the secrets in some order; no non-empty secret that is clear of the placeholder occurs in the output |
| Redactor.PatternsInOrder | packages/redaction/src/aqao_redaction/redactor.py:81-82 | the patterns apply one after the other in their order |
| Redactor.SecretsInOrder | packages/redaction/src/aqao_redaction/redactor.py:84-86 | the secrets are replaced one after the other; one that does not occur changes nothing, and an empty one is spread |
| Redactor.ReplaceIs | packages/redaction/src/aqao_redaction/redactor.py:86 | text in front of the first copy stays, the copy becomes the placeholder, the rest is treated alike; without a copy nothing changes |
| Redactor.SpreadIs | packages/redaction/src/aqao_redaction/redactor.py:86 | for an empty secret the placeholder goes in front of every character and behind the last |
| Redactor.NothingLeft | packages/redaction/src/aqao_redaction/redactor.py:84-87 | for any order of the secrets no clear secret is left |
| Redactor.StaysAbsent | packages/redaction/src/aqao_redaction/redactor.py:84-87 | later replacements never bring back what is absent |
| Redactor.SecondPassIdle | packages/redaction/src/aqao_redaction/redactor.py:84-87 | a second exact-string pass, in any order, changes nothing |
| Redactor.SafeIffSealed | packages/redaction/src/aqao_redaction/redactor.py:85-86 | for every secret and every placeholder, empty ones included: no output shows the secret if and only if no copy of it can be made of the placeholder and the text kept around it |
| RedactorCompany.HiddenIffClear | packages/redaction/src/aqao_redaction/redactor.py:84-87 | a secret stays hidden in every text and order, whatever other strings are registered with it, if and only if it is clear of the placeholder, or one character long and the placeholder is empty |
| Redactor.SafeIffClear | packages/redaction/src/aqao_redaction/redactor.py:85-86 | for a secret without borders and a non-empty placeholder that condition is being clear of the placeholder |
| Redactor.SecretGone | packages/redaction/src/aqao_redaction/redactor.py:86 | leftmost non-overlapping replacement leaves no copy of a clear secret |
| Redactor.DisjointIsClear | packages/redaction/src/aqao_redaction/redactor.py:84-87 | sharing no character with the placeholder is enough to be clear |
| BreakerSpec.LoadBound | apps/api/src/aqao_api/reliability/circuit_breaker.py:66-125 | in an outage of calls that take any time, admitted at their start and failing at their end, the function runs at most threshold + floor((start of the last call - first opening) / timeout) times, and threshold times when that call is the one that opened |
| BreakerSpec.BoundIsTight | apps/api/src/aqao_api/reliability/circuit_breaker.py:66-125 | calls as early as the breaker allows reach that bound exactly |
| BreakerSpec.OneTrialPerEpisode | apps/api/src/aqao_api/reliability/circuit_breaker.py:75-93 | under any interleaving, once a half-open trial is admitted nothing more is until the breaker has left the half-open state |
| BreakerSpec.InterruptedTrialBlocks | apps/api/src/aqao_api/reliability/circuit_breaker.py:109-141 | a trial that is cancelled or interrupted reports nothing: from then on every call is refused, however late, until some earlier call reports |
| BreakerSpec.OpenShields | apps/api/src/aqao_api/reliability/circuit_breaker.py:66-84 | under any interleaving, an open breaker admits nobody before its timeout, late results included |
| BreakerSpec.RunFrom | apps/api/src/aqao_api/reliability/circuit_breaker.py:66-105 | for every interleaving of any number of callers: closed means fewer failures than the threshold, no opening time and no trial; open and half-open have an opening time; open has no trial |
| BreakerSpec.ClosedCounts | apps/api/src/aqao_api/reliability/circuit_breaker.py:88-105 | after any interleaving a closed breaker holds the number of failures reported since the last success, which is below the threshold |
| BreakerSpec.OpensAtThreshold | apps/api/src/aqao_api/reliability/circuit_breaker.py:95-105 | a closed breaker opens at a failure, with its time, iff that is the threshold-th since the last success |
| BreakerSpec.BeforeFirstTrial | apps/api/src/aqao_api/reliability/circuit_breaker.py:88-105 | until the first trial state, count and opening time can be read off the list of steps, late results included |
| BreakerSpec.CallIsSteps | apps/api/src/aqao_api/reliability/circuit_breaker.py:109-125 | a call is its check and, if admitted, what the end of its function reports |
| CircuitBreaker.CircuitBreaker.Create | apps/api/src/aqao_api/reliability/circuit_breaker.py:60-62 | a threshold below one is refused |
| CircuitBreaker.CircuitBreaker.CheckOrAdvance | apps/api/src/aqao_api/reliability/circuit_breaker.py:66-73 | open becomes half-open once the timeout has passed, nothing else changes |
| CircuitBreaker.CircuitBreaker.BeforeCall | apps/api/src/aqao_api/reliability/circuit_breaker.py:75-86 | refused, with the opening time, exactly when the breaker is open before its timeout or a trial is in flight; an admission that finds it half-open, or open past its timeout, puts the trial in flight |
| CircuitBreaker.CircuitBreaker.AfterSuccess | apps/api/src/aqao_api/reliability/circuit_breaker.py:88-93 | a half-open breaker becomes a fresh closed one; in any other state only the failure count is cleared, so a late success does not close an open breaker |
| CircuitBreaker.CircuitBreaker.AfterFailure | apps/api/src/aqao_api/reliability/circuit_breaker.py:95-105 | a half-open breaker opens again at this time and frees its trial; otherwise the count grows and the threshold opens it |
| CircuitBreaker.CircuitBreaker.Call | apps/api/src/aqao_api/reliability/circuit_breaker.py:109-125 | what the function did, or a refusal without running it exactly when the call is not admitted; an ordinary exception counts, a cancellation or interrupt changes nothing; admission and failure have their own clock readings |
| RetentionRules.BucketsAreTheRule | apps/api/src/aqao_api/services/retention.py:325-417 | the planned buckets together select a row, under three-valued NULL logic, iff it is older than its own workspace's window |
| RetentionRules.BucketsDisjoint | apps/api/src/aqao_api/services/retention.py:325-417 | no row falls into two buckets |
| RetentionRules.DeleteNext | apps/api/src/aqao_api/services/retention.py:419-431 | deleting bucket after bucket deletes and counts every selected row once |
| RetentionRules.BucketsSweepTheRule | apps/api/src/aqao_api/services/retention.py:389-400 | rows left and counts of a bucketed sweep are those of the per-row rule |
| RetentionRules.SurvivorsExact | apps/api/src/aqao_api/services/retention.py:354-400 | the rule keeps exactly the rows that are not due, and the counts add up to the rest |
| RetentionRules.SecondSweepIdle | apps/api/src/aqao_api/services/retention.py:354-400 | a second sweep at the same time finds nothing |
| RetentionSweep.Sweeper.CountAndDelete | apps/api/src/aqao_api/services/retention.py:419-431 | counts what the predicate selects and, unless dry, deletes exactly that |
| RetentionSweep.Sweeper.SweepBuckets | apps/api/src/aqao_api/services/retention.py:382-392 | sequential bucket deletes amount to one delete of what any bucket selects, and the counts agree in dry and real runs |
| RetentionSweep.Sweeper.SweepClass | apps/api/src/aqao_api/services/retention.py:354-400 | table and report of one class by the per-row rule; locked classes untouched; a misconfigured class raises |
| RetentionSweep.Sweeper.Sweep | apps/api/src/aqao_api/services/retention.py:255-281 | the classes before the first misconfigured one are swept and reported in order |
| RetentionSweep.SweepIsPerTable | apps/api/src/aqao_api/services/retention.py:255-281 | with one class per table every table ends as its own class's rule says |
| RetentionWindows.SweepInWords | apps/api/src/aqao_api/services/retention.py:255-281 | from the tenant's raw overrides: each table keeps, in order, the rows that are locked, without timestamp, or no older than their window, which is the override of their own workspace for an overridable class, else the default |
| RetentionWindows.SweptInWords | apps/api/src/aqao_api/services/retention.py:311-400 | the same for one class, with the count of the other rows |
| RetentionWindows.ReportsInWords | apps/api/src/aqao_api/services/retention.py:311-400 | the report of each class, dry run or not: cutoff, lock, deletions, predicted deletions and overriding workspaces |
| RetentionWindows.StopsIff | apps/api/src/aqao_api/services/retention.py:373-378 | a class stops the sweep iff it is unlocked and lacks its timestamp column, or has an override but no workspace column |
| RetentionSweep.OtherTablesKept | apps/api/src/aqao_api/services/retention.py:255-281 | tables of no class are untouched |
| RetentionSweep.DryRunPredicts | apps/api/src/aqao_api/services/retention.py:419-431 | a dry run changes nothing and predicts the counts of the real sweep of every class |
| RetentionSweep.SecondSweepDeletesNothing | apps/api/src/aqao_api/services/retention.py:354-400 | sweeping a class again at the same time deletes nothing, whatever the overrides |
| LlmClient.OneRowPerAnswer | packages/agents/src/aqao_agents/llm/client.py:126-147 | an answer ends the request, with one usage row of the model called and its bill iff its token counts can be billed, completed iff it conforms; without an answer there is no row and the last call's error is raised |
| LlmClient.CallsOrdered | packages/agents/src/aqao_agents/llm/client.py:82-99 | only configured candidates are called, in order; a candidate is called again only after a transient failure and nothing follows an answer |
| LlmClient.CallsBounded | packages/agents/src/aqao_agents/llm/client.py:105-124 | no candidate gets more than the allowed attempts |
| LlmClient.CallsAnswered | packages/agents/src/aqao_agents/llm/client.py:114-119 | each call of the request gets the provider's answer at its place in the call sequence |
| LlmClient.FailureIsExhaustive | packages/agents/src/aqao_agents/llm/client.py:82-99 | every configured candidate before the one that answered, and all of them without an answer, has used all its attempts or failed for good |
| LlmClient.NobodyToCall | packages/agents/src/aqao_agents/llm/client.py:84-85 | no call is made iff no candidate is configured |
| LlmClient.LLMClient.Run | packages/agents/src/aqao_agents/llm/client.py:105-147 | the calls, usage row and end of one candidate's retry loop |
| LlmClient.LLMClient.TryCandidates | packages/agents/src/aqao_agents/llm/client.py:82-103 | the failover loop makes exactly the calls the laws are about and ends as they say |
| LlmClient.LLMClient.Complete | packages/agents/src/aqao_agents/llm/client.py:78-103 | one request over the models of its tier, or of the mid tier when it has none; the code after the retry loop is reached only if no attempt is allowed |
| Pricing.CostAdds | packages/agents/src/aqao_agents/llm/pricing.py:30-43 | costs add up: the sum of recorded costs is the price of the summed token counts |
| Pricing.CostIs | packages/agents/src/aqao_agents/llm/pricing.py:30-43 | the bill per million tokens: fresh prompt tokens at the input rate, cached ones at theirs or a tenth of it, completion tokens at the output rate |
| Pricing.CachingSaves | packages/agents/src/aqao_agents/llm/pricing.py:36-43 | cached tokens never cost more than fresh ones, and no cost is negative, for rates in order |
| Pricing.BilledAsConfiguredIff | packages/agents/src/aqao_agents/llm/pricing.py:30-43 | a configured cached rate is billed as configured if and only if it is not zero, the input rate is zero, or no token is cached |
| Budget.CostConserved | apps/api/src/aqao_api/usage/budget.py:89-116 | over every sequential run, recorded cost is running total plus the cost of answers rejected by their schema |
| Budget.VerdictsExact | apps/api/src/aqao_api/usage/budget.py:92-116 | each request of every run is blocked iff its estimate takes what was spent over the cap, overruns iff its cost does, and returns or passes on the client's error otherwise |
| Budget.StatisticsExact | apps/api/src/aqao_api/usage/budget.py:92-108 | the statistics count the blocked and the answered requests |
| Budget.TotalIsSpent | apps/api/src/aqao_api/usage/budget.py:105-107 | the running total is the cost of the answers that were not blocked |
| Budget.StopAtFirstError | apps/api/src/aqao_api/usage/budget.py:92-114 | for every accepted budget and slack, stopping at the first budget error bounds the total by the cap plus that call's cost, and by the cap alone when the call was blocked |
| Budget.HonestEstimatesNeverOverrun | apps/api/src/aqao_api/usage/budget.py:92-98 | for every accepted budget and slack, with estimates that never fall short the total never passes the cap and no call overruns |
| Budget.WithinCap | apps/api/src/aqao_api/usage/budget.py:105-114 | for every accepted budget and slack, until a call overruns, the total is within the cap |
| Budget.ReturnMeansWithinCap | apps/api/src/aqao_api/usage/budget.py:105-116 | a call that returns leaves the total within the cap |
| Budget.CapClose | apps/api/src/aqao_api/usage/budget.py:69-71 | the quantized cap differs from budget times slack by at most 0.0000005 |
| Budget.CapExact | apps/api/src/aqao_api/usage/budget.py:69-71 | the cap is budget times slack to the nearest millionth, a tie going to the even one |
| Budget.BudgetEnforcer.Create | apps/api/src/aqao_api/usage/budget.py:61-67 | a budget that is not positive or a slack below one is refused |
| Budget.BudgetEnforcer.Complete | apps/api/src/aqao_api/usage/budget.py:76-116 | verdict and new statistics of one call, tied to the rows the client recorded |
| ApprovalGate.ProtocolSafe | apps/api/src/aqao_api/services/approval.py:64-291 | over every interleaving of requests, decisions, expiry, foreign writes to other slots and gate re-drives, with a slot per gate: rows, audit trail and gates stay sound and no decided row changes |
| ApprovalGate.GatesAreSafe | packages/agents/src/aqao_agents/runtime/approval.py:100-144 | a gate completes only on a request of its own that was approved before its expiry; with the id kept it opens at most one |
| ApprovalGate.ReviewDecides | packages/agents/src/aqao_agents/runtime/approval.py:100-144 | a whole review: the gate asks, somebody decides, the gate is driven again and is through iff the decision was an approval before the request ran out; the row tells who and when |
| ApprovalGate.DecidedDrive | packages/agents/src/aqao_agents/runtime/approval.py:100-144 | a drive with the request decided settles the gate for good and changes nothing else |
| ApprovalGate.LostIdsReopen | packages/agents/src/aqao_agents/runtime/runner.py:90-93 | with the id lost at each pending re-drive, as the runner does, a gate stays at one request iff it was never re-driven while pending, or once with no drive after |
| ApprovalGate.PendingTwice | packages/agents/src/aqao_agents/runtime/runner.py:148-165 | two drives while pending: nothing new if the id is kept, a second request if the paused step's output is overwritten |
| ApprovalGate.OwnReviewsIffOwnSlots | packages/agents/src/aqao_agents/runtime/runner.py:83-93 | every gate that is through, in any run from an empty world, was let through by a request of its own approved in time if and only if each gate has its own slot of the shared values and no other step or initial value writes it |
| ApprovalSpec.RequestingSound | apps/api/src/aqao_api/services/approval.py:64-113 | a new row starts pending with exactly one request entry in the audit trail |
| ApprovalSpec.DecidingSound | apps/api/src/aqao_api/services/approval.py:241-291 | a decision closes a pending row once, with one closing entry; a late approval expires it instead |
| ApprovalSpec.ExpiringSound | apps/api/src/aqao_api/services/approval.py:200-237 | expiry closes overdue pending rows, one closing entry each |
| ApprovalSpec.NothingOverdue | apps/api/src/aqao_api/services/approval.py:213-224 | after an expiry run with room to spare no pending row is overdue |
| ApprovalSpec.ExpiryRun | apps/api/src/aqao_api/services/approval.py:200-237 | each selected row was pending and overdue and keeps all but its state and decision time; every other row stays; one entry each, in order |
| ApprovalService.ApprovalService.Request | apps/api/src/aqao_api/services/approval.py:64-113 | for the six event types a pending row that expires its TTL, or the default one, from now, and its entry; otherwise an error and no change |
| ApprovalService.ApprovalService.Decide | apps/api/src/aqao_api/services/approval.py:241-291 | succeeds exactly for a pending row that is not too late; the row with its state, time and decider, its entry, and the states in the errors |
| ApprovalService.ApprovalService.SelectDue | apps/api/src/aqao_api/services/approval.py:213-224 | due pending rows only, earliest expiry first, as many as the limit allows |
| ApprovalService.ApprovalService.ExpireDue | apps/api/src/aqao_api/services/approval.py:200-237 | exactly the selected rows expire |
| RiskScore.ScoreMonotone | packages/agents/src/aqao_agents/release_risk/scorer.py:165-180 | with non-negative weights, worse inputs over the same totals never get a lower score, band or recommendation |
| RiskScore.BandMonotone | packages/agents/src/aqao_agents/release_risk/scorer.py:55-62 | bands and recommendations follow the score for any thresholds, ordered or not |
| RiskScore.ScoreAccurate | packages/agents/src/aqao_agents/release_risk/scorer.py:165-168 | the score is in 0..100 and, for a weighted sum of at most one, within 0.55 of a hundred times it despite per-driver rounding |
| RiskScore.NormalisedWeightsAccurate | packages/agents/src/aqao_agents/release_risk/scorer.py:157-163 | weights adding up to at most one give that accuracy for every feature set |
| RiskScore.RawIsUnit | packages/agents/src/aqao_agents/release_risk/features.py:89-117 | on every accepted feature set each driver is between 0 and 1, so the clamp never acts |
| RiskScore.SharesAre | packages/agents/src/aqao_agents/release_risk/scorer.py:212-243 | failed tests and uncovered criteria as shares of the whole, zero of nothing; flakiness as it is |
| RiskScore.SaturatedAre | packages/agents/src/aqao_agents/release_risk/scorer.py:244-268 | changed lines, incidents and defect density as shares of their saturation points, at most one |
| RiskScore.LevelsAre | packages/agents/src/aqao_agents/release_risk/scorer.py:219-301 | high and critical failures out of five, untested modules out of three, and the levels of ownership and sensitivity |
| RiskScore.ScoreIs | packages/agents/src/aqao_agents/release_risk/scorer.py:165-211 | contributions are weighted shares to the nearest ten-thousandth, the score is their sum to the nearest hundredth between 0 and 100, ties to even |
| RiskScore.RecommendationIs | packages/agents/src/aqao_agents/release_risk/scorer.py:306-311 | go, go with approval and no go as score ranges for any thresholds |
| RiskScore.ContributionMonotone | packages/agents/src/aqao_agents/release_risk/scorer.py:200-311 | each rounded contribution grows with its input |
| TrafficSplit.ChooseInterval | packages/agents/src/aqao_agents/prompts/experiment.py:120-131 | every one of the 2^64 buckets goes to exactly one arm, and each arm's buckets are one interval |
| TrafficSplit.CountsAddUp | packages/agents/src/aqao_agents/prompts/experiment.py:120-131 | the arms share all 2^64 buckets |
| TrafficSplit.CountCloseToWeight | packages/agents/src/aqao_agents/prompts/experiment.py:53-64 | each arm's count is within 1 + abs(1 - total weight) * 2^64 of weight * 2^64, the fall-through to the last arm included |
| TrafficSplit.MadeSelectorServes | packages/agents/src/aqao_agents/prompts/experiment.py:89-141 | a selector that passed the construction check serves registered versions only, and for its own agent fails exactly when the registry is empty |
| TrafficSplit.FallbackServesIff | packages/agents/src/aqao_agents/prompts/experiment.py:143-154 | any selector asked to fall back serves if and only if there are versions and the construction check would accept it |
| TrafficSplit.Select | packages/agents/src/aqao_agents/prompts/experiment.py:97-141 | error, fallback or the chosen arm's version: the loop over cumulative weights picks the arm whose bucket interval the counting laws describe |
| TrafficSplit.SelectedIs | packages/agents/src/aqao_agents/prompts/experiment.py:97-154 | every request: the hash of experiment id and key decides the arm that owns the bucket; the configured version or the latest otherwise; the errors |
| TrafficSplit.OneOwner | packages/agents/src/aqao_agents/prompts/experiment.py:120-131 | every bucket has exactly one owning arm |
| Slo.LevelExact | apps/api/src/aqao_api/slo/budget.py:113-145 | the freeze level as inequalities between bad samples and shares of the allowed ones; exhausted iff bad >= (1 - objective) * total |
| Slo.GoodSampleHelps | apps/api/src/aqao_api/slo/budget.py:113-145 | a good sample arriving anywhere in the stream never raises the level |
| Slo.BadSampleHurts | apps/api/src/aqao_api/slo/budget.py:113-145 | a good sample of the stream turned bad never lowers the level |
| Slo.OrderIrrelevant | apps/api/src/aqao_api/slo/calculator.py:75-97 | the evaluation depends only on the multiset of samples |
| Slo.CountsCover | apps/api/src/aqao_api/slo/calculator.py:83-85 | good and bad are all the samples of the objective in its window |
| Slo.CountsAre | apps/api/src/aqao_api/slo/types.py:82-96 | for every stream: the bad samples are those in the window with a status outside 1xx to 4xx, a latency above the threshold or a failure, the good ones the others there; a sample that lacks what the objective is about makes it raise |
| Slo.RemainingExact | apps/api/src/aqao_api/slo/budget.py:38-57 | remaining budget below a share, and exhausted budget, as inequalities between counts |
| Idempotency.AnswersFollowFirstWrite | apps/api/src/aqao_api/reliability/idempotency.py:97-134 | as long as what has expired stays expired, a remember is new iff no earlier write for its key is alive; retries and fetches get that first response, a different body a conflict |
| Idempotency.OneLiveWrite | apps/api/src/aqao_api/reliability/idempotency.py:100-120 | as long as what has expired stays expired, at most one write per key is alive at any moment |
| Idempotency.OneLiveIffNoBump | apps/api/src/aqao_api/reliability/idempotency.py:100-120 | with positive lifetimes and given clock readings, every run keeps at most one write per key alive if and only if no reading lies above both an earlier and a later one |
| Idempotency.InMemoryIdempotencyStore.Remember | apps/api/src/aqao_api/reliability/idempotency.py:80-120 | the first body of a key is stored and reported new; while it lives the same body is replayed and another one is a conflict, neither changing the store; an expired record is overwritten |
| Idempotency.InMemoryIdempotencyStore.Fetch | apps/api/src/aqao_api/reliability/idempotency.py:122-134 | the response of the live record, or nothing for an absent or expired one; nothing is written |
| ExternalIssues.NewLinkKeepsSpacing | apps/api/src/aqao_api/services/external_issue.py:92-126 | a link created when no recent one exists is more than the window apart from every other of its signal, whatever the clock does |
| ExternalIssues.RunSpaced | apps/api/src/aqao_api/services/external_issue.py:78-186 | after any run of creations and syncs with arbitrary times, any two links of one signal are more than the window apart |
| ExternalIssues.ExternalIssueService.CreateOrReuse | apps/api/src/aqao_api/services/external_issue.py:78-143 | an issue is filed, with an open link of this time, iff no link of the signal is in the window; otherwise nothing changes and the most recent link comes back |
| ExternalIssues.ExternalIssueService.LookupRecent | apps/api/src/aqao_api/services/external_issue.py:196-215 | the most recently opened link of the signal in the window |
| ExternalIssues.ExternalIssueService.SyncFromProvider | apps/api/src/aqao_api/services/external_issue.py:147-186 | one step of those runs: status and closing time of the found link change, nothing else |
| ExternalIssues.StatusIs | apps/api/src/aqao_api/services/external_issue.py:225-230 | what every report of every provider means, in any mixture of small and capital letters; open unless named |
| Promotion.RunGrows | packages/eval/src/aqao_eval/promotion.py:63-93 | over every interleaving of appends and promotions, existing lines stay a prefix and distinct ids stay distinct |
| Promotion.PromoteCovers | packages/eval/src/aqao_eval/promotion.py:71-84 | after a promotion the dataset's ids are its own and all feedback ids |
| Promotion.NewCasesAre | packages/eval/src/aqao_eval/promotion.py:71-77 | line by line: a promotion adds a line iff it is the first case with its id and the dataset does not have that id |
| Promotion.IdsAre | packages/eval/src/aqao_eval/feedback_cases.py:114-130 | the ids of a file are those that some object in it carries, valid case or not |
| Promotion.PromoteIdempotent | packages/eval/src/aqao_eval/promotion.py:56-62 | promoting again adds nothing |
| Promotion.AgentDatasets.AppendFeedbackCase | packages/eval/src/aqao_eval/feedback_cases.py:133-163 | one new line, or none when the id is there already; a line that is JSON but no object raises |
| Promotion.AgentDatasets.ExistingCaseIds | packages/eval/src/aqao_eval/feedback_cases.py:114-130 | the ids of the feedback file's objects, valid cases or not, passing over what is not JSON |
| Promotion.AgentDatasets.SelectNew | packages/eval/src/aqao_eval/promotion.py:71-77 | the first occurrence of each id the dataset lacks |
| Promotion.AgentDatasets.PromoteFeedbackCases | packages/eval/src/aqao_eval/promotion.py:50-93 | the dataset grows by exactly the new cases; promoted plus skipped is the total; a line that is neither skipped nor a valid case raises before any write |

## Left out

- Routers, schemas, migrations, sessions, SDKs, the web console, the GitHub Action: I/O and thin wrappers. Tables are sequences or maps of rows.
- PlanReuseCache: its methods only forward to the LRU cache under a tuple key.
- LruInclusion.Inclusion: claims nothing for get_or_compute with TTLs, because inclusion fails there (see `LruCapacity.HitsMonotoneIffEqual`); computed values are not None.
- LruCache.LruCache.Get: the hit rate, a quotient of the two counters, is left out.
- EmbeddingCache.Transparent: the hash is assumed without collisions, and stores are those of get_or_compute or of an explicit set that agrees with the factory.
- SqlText.CleanAfterPlain: upper-casing covers ASCII letters; the verb lists and the verb pattern are ASCII as well.
- SqlClassify.ClassifyAppend: one direction for statements; for pieces `SqlClassify.PiecesAppendIff` has both, except where nothing follows the last cleaned place of the second script and empty slices can agree by coincidence.
- Statement reasons (free text) of the SQL classifier and of the freeze decision are not part of this model.
- Json.ValueReads: numbers are their printed tokens, so the float formatting of Python is not part of this model; object keys are strings, and lone surrogates, which the UTF-8 encoder refuses, cannot be written as Dafny characters.
- IsoTime.IsoSeparates: zone offsets are whole minutes.
- AuditSigning.SignedRowVerdict: HMAC-SHA256 and base64 are a function that separates bodies and yields ASCII text; their internals are left out.
- Redactor.Redact: the compiled patterns are arbitrary rewrites of the text that run first.
- CircuitBreaker.CircuitBreaker.constructor: builds the default state; the source's dataclass would also take another starting state.
- The asynchronous variant of the breaker's call handles results and exceptions as the synchronous one does; its interleavings are those of `BreakerSpec.RunFrom`.
- RetentionSweep.Sweeper.Sweep: foreign-key cascades between tables are left out, so the dry-run law is per table; the audit event of the sweep is left out.
- RetentionSweep.Sweeper.SweepClass: the overriding workspaces are visited in any order; the source sorts them by id.
- Latency, timestamps and metadata of usage rows, logging, and the message formatting of LLM requests.
- Budget.BudgetEnforcer.Complete: concurrent calls are left out; the total is read before the await, so conservation is claimed for sequential calls.
- Budget.CapClose: decimals are exact; the 28-digit context precision is left out.
- Notifications of the approval service, which never affect its state, and listing queries.
- ApprovalGate.ProtocolSafe: of the workflow runner only the stored step outputs are modelled; a rollback by the HTTP layer after an automatic expiry is left out.
- RiskScore.ScoreMonotone: the weights are given for exactly the ten drivers, and the saturation knobs are positive; the source divides by them unchecked. Rationale texts are left out.
- TrafficSplit.CountCloseToWeight: buckets and weights are exact; the rounding of floats near bucket borders is left out.
- ExternalIssues.ExternalIssueService.SyncFromProvider: lower-casing covers ASCII letters; audit entries are left out.
- Promotion.AgentDatasets.PromoteFeedbackCases: files are newline-terminated, and creating directories and files is left out.
- Permission matrix, feature flags, incident routing, dead-letter queue, bulkhead, model lifecycle, percentiles: easy members.
