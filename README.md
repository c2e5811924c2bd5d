# BrainBolt quiz backend: a verified model of its core

BrainBolt is an adaptive quiz service written in TypeScript on Next.js, PostgreSQL and Redis. This project models five pieces of its server logic in Dafny and proves what each one promises:

- **Scoring** (`scoring.dfy`). The score delta for one answer is built from four factors: difficulty × 10, a streak multiplier eased by a square root, an accuracy multiplier, and a bonus for recent performance. The score is the rounded product of these factors; a wrong answer costs a fixed penalty instead.
- **Rate limiting** (`rate_limit.dfy`). A fixed-window counter lives in Redis. One atomic script increments it and arms the expiry on the first hit only. The limiter is bypassed in development and fails open when Redis throws.
- **Leaderboard** (`leaderboard.dfy`). This covers:
  - the durable score and streak tables;
  - the two Redis sorted sets that mirror them;
  - the update channel;
  - the upserts, the cache writes and the publish;
  - reading the top of a set and a member's rank;
  - the durable rank, computed as "1 + rows strictly above";
  - hydration, which rebuilds both sets from the top 200 rows through temporary keys and RENAME.
- **Next question** (`next_question.dfy`). The handler behind `GET /api/quiz/next` proceeds as follows:
  - it returns 401 without a user;
  - it runs a per-user and a per-IP limiter, and returns 429 if either refuses;
  - inside the user's transaction it updates the state in place: it decays an idle streak, adopts a requested session, copies the picker's cursor, and pushes the question onto the bounded recent list;
  - it saves the state with an optimistic version check, which maps a conflict to 409.
- **Client address** (`client_ip.dfy`). The client address comes from `x-forwarded-for` (first segment, trimmed), then `cf-connecting-ip`, then `x-real-ip`, then `127.0.0.1`.

Shared definitions live in two more files:

- `types.dfy` holds `Option`, the difficulty range 1..10 and JavaScript truthiness of an optional string.
- `decimal.dfy` holds `String(n)` and `Number(s)` for integers, which is how scores travel through Redis.

State the source changes in place is modelled as classes:

- `RateLimit.CounterStore`;
- `Leaderboard.LeaderboardStore`;
- `NextQuestion.UserState`;
- `NextQuestion.QuizStore`.

Each method of these classes names in its contract everything it may change and states the new state. The cache writes and the hydration steps state it through a ghost function of the old keyspace (`Leaderboard.CacheWritten`, `Leaderboard.Staged`), and lemmas beside them say what that function leaves in each key. Pure code is modelled as functions and lemmas.

Collaborators whose code is not in the model become parameters:

- the authenticated user id;
- the random session id a newly created state row gets;
- `decayStreakForInactivity`, with its clock;
- `pickQuestionCircular`;
- `Math.sqrt`, known only to be monotone on [0, 1] with sqrt(0) = 0 and sqrt(1) = 1;
- the rows the hydration queries return;
- which backend calls throw.

Two choices differ from a literal reading of the code:

- `getLeaderboard` asks Redis for `ZREVRANGE key 0 (limit - 1)`. Redis counts a negative stop index from the end, so `limit = 0` returns the whole set and a negative limit drops members from the end. The model keeps these cases (`Leaderboard.RangeLength`) rather than requiring `limit >= 1`, because the code accepts any limit.
- Redis breaks score ties by member name. The model takes the reply order as a caller-supplied permutation of the set's members by non-increasing score (`Leaderboard.IsRevOrder`). Ties are left unordered.

## Model

| member | source | states |
|---|---|---|
| Scoring.Round | src/lib/quiz/scoring.ts:65 | Math.round returns the integer within half a unit of its argument, with halves going up |
| Scoring.RoundMonotone | src/lib/quiz/scoring.ts:65 | rounding never reverses the order of two reals |
| Scoring.StreakMultiplier | src/lib/quiz/scoring.ts:10-14 | the streak multiplier lies in [1, 1.8]; a non-positive streak gives exactly 1 and a streak of 8 or more gives exactly 1.8 |
| Scoring.StreakMultiplierMonotone | src/lib/quiz/scoring.ts:10-14 | a longer streak never gives a smaller multiplier |
| Scoring.NormalizedAccuracy | src/lib/quiz/scoring.ts:16-18 | computeAccuracy is the identity on [0, 1] and clamps below to 0 and above to 1 |
| Scoring.AccuracyMultiplier | src/lib/quiz/scoring.ts:20-26 | the accuracy multiplier lies in [0.6, 1.1], is 0.6 at accuracy 0 or below and 1.1 at accuracy 1 or above |
| Scoring.AccuracyMultiplierMonotone | src/lib/quiz/scoring.ts:20-26 | a higher accuracy never gives a smaller multiplier |
| Scoring.RecentBonus | src/lib/quiz/scoring.ts:28-38 | no history gives a bonus of exactly 1; any history gives a bonus in [0.9, 1.1]; an average of 0.5 gives exactly 1 |
| Scoring.SumOfFlags | src/lib/quiz/scoring.ts:31-33 | over 0/1 flags, the sum the reduce computes is the number of correct answers |
| Scoring.RecentBonusOfFlags | src/lib/quiz/scoring.ts:28-38 | for a non-empty 0/1 history the clamp never applies: the bonus is 0.9 + 0.2 × the fraction correct, 1.1 when all are correct and 0.9 when none are |
| Scoring.WrongPenalty | src/lib/quiz/scoring.ts:53-63 | the wrong-answer penalty round(difficulty × 10 × 0.25) equals the integer (5 × difficulty + 1) / 2 and is positive |
| Scoring.RawScoreBounds | src/lib/quiz/scoring.ts:53-59 | the unrounded score of a correct answer lies between 5.4 × difficulty and 21.78 × difficulty, whatever the streak, accuracy and history |
| Scoring.ScoreDelta | src/lib/quiz/scoring.ts:40-66 | a wrong answer loses exactly the fixed penalty, whatever the other inputs, so the delta is negative; a correct answer earns between round(5.4 × difficulty) and round(21.78 × difficulty), so the delta is positive |
| Scoring.RawScoreMonotoneInStreak | src/lib/quiz/scoring.ts:55-59 | with the other inputs fixed, the unrounded score does not decrease as the streak grows |
| Scoring.ScoreDeltaMonotoneInStreak | src/lib/quiz/scoring.ts:55-65 | with the other inputs fixed, a correct answer's delta does not decrease as the streak grows |
| RateLimit.NamespacedKeyInjective | src/lib/cache/rateLimit.ts:28 | two rate-limit keys share a Redis counter exactly when they are the same key |
| RateLimit.Incremented | src/lib/cache/rateLimit.ts:4-10 | the script adds exactly one to the key's counter, treating an absent counter as 0, and leaves every other counter alone; an EXPIRE with non-positive seconds removes a fresh key |
| RateLimit.Decide | src/lib/cache/rateLimit.ts:38-41 | a request is allowed iff the new count is at most max; remaining is never negative, adds up to max with the count while allowed, and is 0 once the count reaches max |
| RateLimit.Outcome | src/lib/cache/rateLimit.ts:21-47 | a bypassed call is allowed with the full quota; otherwise a call is allowed iff fewer than max hits are already counted; a refused call has 0 remaining; an allowed counted call has max minus the new count remaining |
| RateLimit.CounterStore.IncrWithExpiry | src/lib/cache/rateLimit.ts:4-10 | returns the incremented count, which is 1 iff the key had no counter; arms the expiry only on that first hit, so later hits never extend the window; every counter stays at least 1 |
| RateLimit.CounterStore.ExpireWindow | src/lib/cache/rateLimit.ts:5-8 | when a window runs out, the key's counter and expiry are dropped and nothing else changes |
| RateLimit.RateLimit | src/lib/cache/rateLimit.ts:12-48 | in development or when Redis fails, the call allows with the full quota and leaves every counter and expiry untouched; otherwise it decides on the count after incrementing "ratelimit:" + key, and arms that key's expiry only if it had no counter |
| RateLimit.CallsInOneWindow | src/lib/cache/rateLimit.ts:31-41 | within one window starting from no counter, the i-th call (counting from 0) sees count i + 1 and is allowed iff i < max |
| RateLimit.ThreeCallsWithMaxTwo | src/lib/cache/rateLimit.ts:38-41 | with max 2, three calls on one key return (true, 1), (true, 0), (false, 0) |
| RateLimit.NewWindowAfterExpiry | src/lib/cache/rateLimit.ts:5-8 | after the window expires, a key that was refused is allowed again from count 1 |
| ClientIp.FirstSegment | src/lib/utils/ip.ts:10 | split(",")[0] is a comma-free prefix of the header, ending at the first comma or at the end |
| ClientIp.TrimStart | src/lib/utils/ip.ts:10 | trimStart removes only whitespace, and what is left does not begin with whitespace |
| ClientIp.TrimEnd | src/lib/utils/ip.ts:10 | trimEnd removes only whitespace, and what is left does not end with whitespace |
| ClientIp.TrimmedFirstSegment | src/lib/utils/ip.ts:7-11 | the trimmed first segment sits in the header right after its leading whitespace, holds no comma, is bounded by whitespace within the first segment, and neither starts nor ends with whitespace |
| ClientIp.GetClientIp | src/lib/utils/ip.ts:5-27 | headers are consulted in the order x-forwarded-for, cf-connecting-ip, x-real-ip, and each one only when every higher one is absent or empty; cf-connecting-ip and x-real-ip are returned as they are; with no usable header the result is "127.0.0.1" |
| ClientIp.LowerHeadersIgnored | src/lib/utils/ip.ts:7-17 | once a header wins, the headers below it do not affect the result |
| ClientIp.EmptyIpIff | src/lib/utils/ip.ts:7-11 | the address is empty exactly when x-forwarded-for is set and its first segment is all whitespace |
| Decimal.ParseIntToString | src/lib/db/leaderboard.ts:42-47 | Number(String(n)) == n: an integer score survives the trip through Redis's text reply |
| Leaderboard.KeysDistinct | src/lib/db/leaderboard.ts:4-5 | the live and temporary keys of the two sets are four different Redis keys |
| Leaderboard.RangeLength | src/lib/db/leaderboard.ts:42 | ZREVRANGE key 0 (limit - 1) returns min(limit, n) members for limit ≥ 1, and max(0, n + limit) for limit ≤ 0 |
| Leaderboard.FlatReply | src/lib/db/leaderboard.ts:42 | a WITHSCORES reply alternates member and score text: position 2k is the k-th member, position 2k + 1 its score |
| Leaderboard.ParseReply | src/lib/db/leaderboard.ts:43-51 | the pair loop yields one entry per pair: entry k has user raw[2k], score Number(raw[2k + 1]) and rank k + 1, so ranks run 1..n with no gaps |
| Leaderboard.ReplyScoresParse | src/lib/db/leaderboard.ts:47 | each score read back from a reply equals the score stored in the set |
| Leaderboard.IndexOf | src/lib/db/leaderboard.ts:56 | the position ZREVRANK reports is None iff the member is absent, and otherwise the first position holding the member |
| Leaderboard.RankedPrefix | src/lib/db/leaderboard.ts:40-52 | the entries of a reply read from the start of the order come in non-increasing score, and each entry's rank is one more than its member's position |
| Leaderboard.NoneAbove | src/lib/db/leaderboard.ts:104 | no row counts as strictly above a value iff no row holds more than that value |
| Leaderboard.RankAbove | src/lib/db/leaderboard.ts:103-107 | 1 + COUNT(value > v) lies in 1..(rows + 1), and is 1 exactly when no row beats v |
| Leaderboard.RankAboveMonotone | src/lib/db/leaderboard.ts:103-107 | a higher value never gets a worse durable rank |
| Leaderboard.RevRankBetween | src/lib/db/leaderboard.ts:54-58 | the cache rank of a member (position + 1) is at least 1 + the number of members strictly above it, and at most the number of members at or above its score |
| Leaderboard.RowsToSet | src/lib/db/leaderboard.ts:72-76 | ZADD of the rows' (value, user_id) pairs builds a set whose members are exactly the rows' user ids |
| Leaderboard.RowsToSetValues | src/lib/db/leaderboard.ts:72-76 | with distinct user ids, each row's member ends up with the row's own value |
| Leaderboard.HydratedSetIsTop | src/lib/db/leaderboard.ts:68-88 | the set built from the top-200 query rows mirrors the top of the table: it has min(rows, 200) members, each with its table value, and no row left out beats a member |
| Leaderboard.TopSetOfSmallTable | src/lib/db/leaderboard.ts:68-91 | for a table of at most 200 rows, the set hydration swaps in equals the table itself, so no stale member survives |
| Leaderboard.CacheWrittenSets | src/lib/db/leaderboard.ts:27-28 | the cache write sets the user's member in each live set whose ZADD ran, keeps every other member, and leaves all other keys alone |
| Leaderboard.StaleAtMostAt | src/lib/db/leaderboard.ts:8-28 | after the user's rows are upserted, a set that mirrored its table differs from it at most at that user, and not at all when its ZADD ran |
| Leaderboard.StagedKeys | src/lib/db/leaderboard.ts:68-88 | after staging into cleared keys, each temporary key holds its rows' set (absent when there are no rows) once its stage succeeded; the score key is absent when its own stage failed, the streak key when any stage failed; no other key moves |
| Leaderboard.LeaderboardStore.UpdateLeaderboardRows | src/lib/db/leaderboard.ts:8-20 | the upserts map the user to the new total score and max streak in the two tables; other users' rows, the cache and the channel do not change |
| Leaderboard.LeaderboardStore.ZAdd | src/lib/db/leaderboard.ts:27 | ZADD sets the member's score, parsed from its text, in the set at the key (creating it when absent) and leaves everything else alone |
| Leaderboard.LeaderboardStore.UpdateLeaderboardCache | src/lib/db/leaderboard.ts:22-38 | the two ZADDs and the PUBLISH run in order and the first that throws ends the call: the keyspace becomes CacheWritten of the old one, and exactly one event with the user, score and streak is appended iff all three calls succeed |
| Leaderboard.LeaderboardStore.RecordResult | src/lib/db/leaderboard.ts:8-38 | the tables always take the new values and the keyspace becomes CacheWritten of the old one; when the sets mirrored the tables and every cache call succeeds they still do; when a cache call throws they are stale at most at this user's member |
| Leaderboard.LeaderboardStore.GetLeaderboard | src/lib/db/leaderboard.ts:40-52 | returns RangeLength(n, limit) entries taken from the top of the set in reply order, entry k with the k-th member, its stored score and rank k + 1, in non-increasing score |
| Leaderboard.LeaderboardStore.GetUserRank | src/lib/db/leaderboard.ts:54-58 | null iff the member is not in the set; otherwise a 1-based rank naming the member's position in the reply order |
| Leaderboard.LeaderboardStore.RankOfListed | src/lib/db/leaderboard.ts:54-58 | the member listed k-th in the reply order has rank k + 1, matching the rank getLeaderboard gives it |
| Leaderboard.LeaderboardStore.ScoreRankFromDb | src/lib/db/leaderboard.ts:99-108 | the durable score rank lies in 1..(rows + 1) and is 1 exactly when no row has a higher total score |
| Leaderboard.LeaderboardStore.StreakRankFromDb | src/lib/db/leaderboard.ts:110-119 | the durable streak rank lies in 1..(rows + 1) and is 1 exactly when no row has a longer max streak |
| Leaderboard.LeaderboardStore.Rename | src/lib/db/leaderboard.ts:90-91 | RENAME succeeds iff the source key exists; on success it moves the set to the destination, replacing what was there, and removes the source; on failure nothing changes |
| Leaderboard.LeaderboardStore.DeleteTemporaries | src/lib/db/leaderboard.ts:65-66 | a failed first DEL changes nothing; a failed second DEL leaves only the score temporary key removed; two successful DELs remove both; no other key is touched |
| Leaderboard.LeaderboardStore.Stage | src/lib/db/leaderboard.ts:68-77 | a successful query with rows merges the set built from them into the temporary key, as ZADD does; with no rows ZADD is skipped and nothing changes; a failed query or ZADD reports failure and changes nothing |
| Leaderboard.LeaderboardStore.StageBoth | src/lib/db/leaderboard.ts:68-88 | succeeds iff both queries and the ZADDs they need succeed; the keyspace becomes Staged of the old one, the score stage first and the streak stage only after it |
| Leaderboard.LeaderboardStore.SwapIn | src/lib/db/leaderboard.ts:90-91 | the score set is swapped in iff its RENAME succeeds on an existing temporary key, and the streak set only after that; a set not swapped keeps both its live and its temporary key as they were |
| Leaderboard.LeaderboardStore.Rebuild | src/lib/db/leaderboard.ts:60-95 | never fails; a live set is replaced by the set built from its rows exactly when every step up to its own RENAME succeeded and its rows exist, and otherwise stays as it was; the temporary keys hold what the steps that ran left there (TemporariesAfter); only the four hydration keys change |
| Leaderboard.LeaderboardStore.Hydrate | src/lib/db/leaderboard.ts:60-95 | a live set that is swapped in mirrors the top 200 of its table (it keeps no stale member); one that is not swapped in is untouched; the temporary keys end as TemporariesAfter says; a full swap of tables of at most 200 rows leaves the cache in sync; tables, channel and other keys do not change |
| NextQuestion.UserAndIpKeysDiffer | src/app/api/quiz/next/route.ts:20-31 | the per-user and per-IP limiters never share a Redis counter |
| NextQuestion.MapError | src/app/api/quiz/next/route.ts:73-78 | the error "State version conflict" becomes 409, and any other error escapes unchanged |
| NextQuestion.PushRecent | src/app/api/quiz/next/route.ts:64 | the new recent list has min(old + 1, 10) ids, starts with the served id, and continues with a prefix of the old list |
| NextQuestion.PushRecentTwice | src/app/api/quiz/next/route.ts:64 | serving a and then b leaves b, a, then the first eight old ids |
| NextQuestion.AfterDecay | src/app/api/quiz/next/route.ts:44-48 | the streak becomes the decayed value; wrongStreak becomes 0 exactly when the decayed streak differs from the stored one; no other field changes |
| NextQuestion.AfterSession | src/app/api/quiz/next/route.ts:50-52 | the session becomes the requested one when that is non-empty and is otherwise kept; no other field changes |
| NextQuestion.AfterPick | src/app/api/quiz/next/route.ts:55-64 | the cursor fields are the picker's, lastQuestionId is the served id and the recent list gets the id pushed; no other field changes |
| NextQuestion.StepKeepsProgress | src/app/api/quiz/next/route.ts:42-72 | the whole step never changes the user, difficulty, score, max streak, confidence, accuracy, answer count, last answer time, performance history or version |
| NextQuestion.UserState.ApplyDecay | src/app/api/quiz/next/route.ts:44-48 | the in-place decay leaves the state equal to AfterDecay of the old state |
| NextQuestion.UserState.ApplySession | src/app/api/quiz/next/route.ts:50-52 | the in-place session update leaves the state equal to AfterSession of the old state |
| NextQuestion.UserState.ApplyPick | src/app/api/quiz/next/route.ts:58-64 | the in-place picker update leaves the state equal to AfterPick of the old state |
| NextQuestion.QuizStore.UpdateState | src/app/api/quiz/next/route.ts:66 | updateState (New folder/BrainBolt/src/lib/db/quiz.ts, lines 81-118): the write fails with a conflict iff the stored row's version differs from the state's, changing nothing; otherwise both the row and the in-memory state move to the next version, and the row holds the whole state |
| NextQuestion.QuizStore.LoadState | src/app/api/quiz/next/route.ts:42 | the locked read of withUserState (New folder/BrainBolt/src/lib/db/quiz.ts, lines 120-134, with getOrCreateState at lines 14-70): returns the user's row when there is one, and otherwise inserts and returns the initial row (difficulty 1, zero counters, version 0) |
| NextQuestion.QuizStore.Rollback | src/lib/db/index.ts:28-39 | a transaction whose callback throws restores the whole table |
| NextQuestion.AdmittedIff | src/app/api/quiz/next/route.ts:20-35 | a request passes both limiters iff each limiter that is not bypassed has seen fewer than its maximum (600 per user, 1000 per address) in the window; the user's hit does not count against the address |
| NextQuestion.AdmittedInDevelopment | src/app/api/quiz/next/route.ts:18-31 | in development every authenticated request passes both limiters |
| NextQuestion.NextStep | src/app/api/quiz/next/route.ts:41-78 | a picker error leaves the table as it was and is mapped by MapError; after a successful pick, a version mismatch gives 409 and changes nothing, and a match saves the decayed, re-sessioned, picked state at the next version, which the body reports |
| NextQuestion.ResponseReportsState | src/app/api/quiz/next/route.ts:86-95 | the body reports the state's own difficulty rather than the question's, the unchanged score, the decayed streak and the bumped version |
| NextQuestion.Serve | src/app/api/quiz/next/route.ts:40-78 | the transaction loads the user's row (or the initial one), and then a picker error escapes as MapError says with the table restored, while a successful pick saves the stepped state and answers 200 with it |
| NextQuestion.Get | src/app/api/quiz/next/route.ts:12-96 | no user gives 401 before any limiter or state is touched; a signed-in user never gets 401; both limiters always run, the user's first, leaving the counters and expiries two rateLimit calls leave (a window is armed only by the hit that creates its counter); 429 iff either refuses, leaving the state alone; an admitted request gets exactly what Serve gives on the loaded row |

## Left out

- I/O and transport are not modelled: JSON encoding of responses and of the published event, HTTP headers other than the three address headers, and logging (`console.log`, `console.error`).
- Concurrency is not modelled. Each Redis call, the Lua script, RENAME and each `withUserState` transaction is one atomic step. Row locks and interleaving requests are left out.
- Wall-clock time is not modelled. A rate-limit window ends through an explicit `ExpireWindow`. Streak decay is the `decay` parameter, with the clock inside it.
- Floating point is not modelled: scores, accuracy and bonuses are exact reals. Only integer scores travel through the cache (`Decimal`); non-integer JavaScript numbers are not covered.
- `Math.sqrt` is a parameter with three properties (0 ↦ 0, 1 ↦ 1, monotone on [0, 1]), not the real square root.
- `decayStreakForInactivity`, `pickQuestionCircular` and `getUserIdFromRequest` are not part of this model. They are parameters whose results are taken as given. The random session id of a newly created state row is a parameter too.
- `withUserState` is modelled as one atomic step (`NextQuestion.Serve`). `NextQuestion.QuizStore.LoadState` models its read of the user's row and `getOrCreateState`'s select-then-insert as one step: it returns the existing row, or inserts the initial row and returns that. Left out are the separate database round trips, the `FOR UPDATE` row lock and the `users` row that `ensureUser` inserts. Since no other writer runs in between, the 409 of a version conflict can only come from `NextStep` given a stale state, never from `Serve`.
- A PostgreSQL error inside `withUserState` other than the version conflict is not modelled: a failing `ensureUser`, a failing select or insert, or an `updateState` error other than the conflict. In the source, any of these rolls the transaction back and reaches the caller as a 500.
- The 500 "Unable to load question" branch (src/app/api/quiz/next/route.ts:80-82) is not modelled. It cannot be reached: the callback always returns an object or throws.
- A failure inside the rate limiter's Redis call is modelled as a script that never ran. A script that ran and then lost its reply is not modelled.
- A PUBLISH that throws is modelled as delivering nothing. The answer route's 500 response after a failed cache write is not part of this model; `RecordResult` states what that failure leaves in the cache.
- The tie order of ZREVRANGE/ZREVRANK is a caller-supplied order (`IsRevOrder`) rather than Redis's reverse lexicographic order of member names.
- Leaderboard.LeaderboardStore.GetLeaderboard: entries are stated against the caller-supplied reply order, not derived from Redis's own ordering of equal scores.
- Leaderboard.LeaderboardStore.Hydrate: the rows are required to be what the top-200 queries return (`IsTopRows`); the SQL itself is not modelled.
- The `remaining` field the limiter returns is computed (`RateLimit.Decide`), but the route ignores it, so nothing downstream is modelled.
