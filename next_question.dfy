/**
  GET /api/quiz/next (src/app/api/quiz/next/route.ts).

  The handler authenticates, applies a per-user and a per-IP rate limit,
  then, inside one transaction, advances the user's state in place: decays
  an idle streak, adopts a requested session, takes the next question from
  the circular picker, remembers it, and persists the state with an
  optimistic version check.

  Collaborators whose code is not part of this model are parameters: the
  authenticated user id, the random session id a newly created state row
  gets (`newSessionId`), the inactivity decay (`decay`, with the clock
  inside it) and the circular picker (`pick`). Their results are taken as
  given and never invented.
*/
module NextQuestion {
  import opened Types
  import RateLimit
  import ClientIp

  const UserLimit: int := 600
  const IpLimit: int := 1000
  const WindowSeconds: int := 60
  /** How many recent question ids the state keeps. */
  const RecentLimit: nat := 10
  const VersionConflict: string := "State version conflict"

  function UserKey(userId: string): string {
    "quiz-next:user:" + userId
  }

  function IpKey(ip: string): string {
    "quiz-next:ip:" + ip
  }

  /** The per-user and per-IP limiters never share a counter. */
  lemma UserAndIpKeysDiffer(userId: string, ip: string)
    ensures UserKey(userId) != IpKey(ip)
    ensures RateLimit.NamespacedKey(UserKey(userId)) != RateLimit.NamespacedKey(IpKey(ip))
  {
    assert UserKey(userId)[10] == 'u' && IpKey(ip)[10] == 'i';
    RateLimit.NamespacedKeyInjective(UserKey(userId), IpKey(ip));
  }

  datatype Question = Question(id: string, difficulty: Difficulty, prompt: string, choices: seq<string>)

  /** A row of user_state, as the handler sees it. */
  datatype StateRecord = StateRecord(
    userId: string,
    sessionId: string,
    currentDifficulty: Difficulty,
    streak: int,
    maxStreak: int,
    wrongStreak: int,
    totalScore: int,
    confidence: real,
    confidenceRaw: real,
    accuracy: real,
    answersCount: int,
    lastQuestionId: Option<string>,
    cyclePosition: int,
    queueDifficulty: Option<Difficulty>,
    difficultyQuestionQueue: seq<string>,
    recentQuestionIds: seq<string>,
    lastAnswerAt: Option<string>,
    recentPerformance: seq<real>,
    stateVersion: int)

  /** What pickQuestionCircular returns, or the message of the error it throws. */
  datatype PickResult = Picked(question: Question, updated: StateRecord) | PickFailed(message: string)

  /** The JSON body of a successful response. */
  datatype Body = Body(
    questionId: string,
    difficulty: Difficulty,
    prompt: string,
    choices: seq<string>,
    sessionId: string,
    stateVersion: int,
    currentScore: int,
    currentStreak: int)

  /** How the handler ends: a response it builds, or an error it lets escape. */
  datatype Response =
    | Unauthorized      // 401
    | RateLimited       // 429
    | Conflict          // 409
    | Ok(body: Body)    // 200
    | Thrown(message: string)

  /** The catch block: a version conflict becomes 409, any other error is re-thrown. */
  function MapError(message: string): (r: Response)
    ensures r.Conflict? <==> message == VersionConflict
    ensures message != VersionConflict ==> r == Thrown(message)
  {
    if message == VersionConflict then Conflict else Thrown(message)
  }

  /** [id, ...recent].slice(0, 10): the newest id first, at most ten kept. */
  function PushRecent(id: string, recent: seq<string>): (r: seq<string>)
    ensures |r| == (if |recent| + 1 < RecentLimit then |recent| + 1 else RecentLimit)
    ensures |r| <= RecentLimit
    ensures r[0] == id
    ensures r[1..] == recent[..|r| - 1]
  {
    var pushed := [id] + recent;
    var n := if |pushed| < RecentLimit then |pushed| else RecentLimit;
    assert pushed[1..] == recent;
    pushed[..n]
  }

  /** Serving a, then b, leaves b and a at the head, before what was kept from the old list. */
  lemma PushRecentTwice(a: string, b: string, recent: seq<string>)
    ensures PushRecent(b, PushRecent(a, recent)) ==
            ([b, a] + recent)[..(if |recent| + 2 < RecentLimit then |recent| + 2 else RecentLimit)]
  {
    var once := PushRecent(a, recent);
    var twice := PushRecent(b, once);
    var expected := ([b, a] + recent)[..|twice|];
    forall k | 0 <= k < |twice|
      ensures twice[k] == expected[k]
    {
      if k >= 2 {
        assert twice[k] == twice[1..][k - 1] == once[k - 1] == once[1..][k - 2];
      }
    }
  }

  /** Inactivity decay: the streak takes the decayed value; the wrong streak resets only when it moved. */
  function AfterDecay(r: StateRecord, decayed: int): (s: StateRecord)
    ensures s.streak == decayed
    ensures s.wrongStreak == (if decayed != r.streak then 0 else r.wrongStreak)
    ensures s.(streak := r.streak, wrongStreak := r.wrongStreak) == r
  {
    if decayed != r.streak then r.(streak := decayed, wrongStreak := 0) else r
  }

  /** A non-empty requested session replaces the stored one; otherwise it stays. */
  function AfterSession(r: StateRecord, requested: Option<string>): (s: StateRecord)
    ensures Truthy(requested) ==> s.sessionId == requested.value
    ensures !Truthy(requested) ==> s.sessionId == r.sessionId
    ensures s.(sessionId := r.sessionId) == r
  {
    if Truthy(requested) && requested.value != r.sessionId then r.(sessionId := requested.value) else r
  }

  /**
    After the pick: the three cursor fields are the picker's, the question
    is the last one served and heads the recent list; nothing else moves.
  */
  function AfterPick(r: StateRecord, question: Question, updated: StateRecord): (s: StateRecord)
    ensures s.cyclePosition == updated.cyclePosition
    ensures s.queueDifficulty == updated.queueDifficulty
    ensures s.difficultyQuestionQueue == updated.difficultyQuestionQueue
    ensures s.lastQuestionId == Some(question.id)
    ensures s.recentQuestionIds == PushRecent(question.id, r.recentQuestionIds)
    ensures s.(cyclePosition := r.cyclePosition, queueDifficulty := r.queueDifficulty,
               difficultyQuestionQueue := r.difficultyQuestionQueue, lastQuestionId := r.lastQuestionId,
               recentQuestionIds := r.recentQuestionIds) == r
  {
    r.(cyclePosition := updated.cyclePosition,
       queueDifficulty := updated.queueDifficulty,
       difficultyQuestionQueue := updated.difficultyQuestionQueue,
       lastQuestionId := Some(question.id),
       recentQuestionIds := PushRecent(question.id, r.recentQuestionIds))
  }

  /**
    The whole step leaves the user, the difficulty, the score, the best
    streak, the metrics, the answer history and the version alone.
  */
  lemma StepKeepsProgress(r: StateRecord, decayed: int, requested: Option<string>,
                          question: Question, updated: StateRecord)
    ensures var s := AfterPick(AfterSession(AfterDecay(r, decayed), requested), question, updated);
            && s.userId == r.userId && s.currentDifficulty == r.currentDifficulty
            && s.totalScore == r.totalScore && s.maxStreak == r.maxStreak
            && s.confidence == r.confidence && s.confidenceRaw == r.confidenceRaw
            && s.accuracy == r.accuracy && s.answersCount == r.answersCount
            && s.lastAnswerAt == r.lastAnswerAt && s.recentPerformance == r.recentPerformance
            && s.stateVersion == r.stateVersion
  {
    var d := AfterDecay(r, decayed);
    var e := AfterSession(d, requested);
    var s := AfterPick(e, question, updated);
    assert d.(streak := r.streak, wrongStreak := r.wrongStreak) == r;
    assert e.(sessionId := d.sessionId) == d;
  }

  /**
    The row getOrCreateState inserts for a user who has none: difficulty 1,
    every counter and score 0, no history, version 0. The session id is a
    fresh random UUID, taken as a parameter.
  */
  function InitialState(userId: string, sessionId: string): StateRecord {
    StateRecord(userId, sessionId, 1, 0, 0, 0, 0, 0.0, 0.0, 0.0, 0, None, 0, None, [], [], None, [], 0)
  }

  /** The state withUserState hands to its callback: the user's row, or the initial one. */
  function Loaded(rows: map<string, StateRecord>, userId: string, newSessionId: string): StateRecord {
    if userId in rows then rows[userId] else InitialState(userId, newSessionId)
  }

  /** The state the callback of withUserState receives, updated field by field. */
  class UserState {
    var userId: string
    var sessionId: string
    var currentDifficulty: Difficulty
    var streak: int
    var maxStreak: int
    var wrongStreak: int
    var totalScore: int
    var confidence: real
    var confidenceRaw: real
    var accuracy: real
    var answersCount: int
    var lastQuestionId: Option<string>
    var cyclePosition: int
    var queueDifficulty: Option<Difficulty>
    var difficultyQuestionQueue: seq<string>
    var recentQuestionIds: seq<string>
    var lastAnswerAt: Option<string>
    var recentPerformance: seq<real>
    var stateVersion: int

    /** The fields as one value. */
    function Snapshot(): StateRecord
      reads this
    {
      StateRecord(userId, sessionId, currentDifficulty, streak, maxStreak, wrongStreak, totalScore,
                  confidence, confidenceRaw, accuracy, answersCount, lastQuestionId, cyclePosition,
                  queueDifficulty, difficultyQuestionQueue, recentQuestionIds, lastAnswerAt,
                  recentPerformance, stateVersion)
    }

    constructor (r: StateRecord)
      ensures Snapshot() == r
    {
      userId := r.userId;
      sessionId := r.sessionId;
      currentDifficulty := r.currentDifficulty;
      streak := r.streak;
      maxStreak := r.maxStreak;
      wrongStreak := r.wrongStreak;
      totalScore := r.totalScore;
      confidence := r.confidence;
      confidenceRaw := r.confidenceRaw;
      accuracy := r.accuracy;
      answersCount := r.answersCount;
      lastQuestionId := r.lastQuestionId;
      cyclePosition := r.cyclePosition;
      queueDifficulty := r.queueDifficulty;
      difficultyQuestionQueue := r.difficultyQuestionQueue;
      recentQuestionIds := r.recentQuestionIds;
      lastAnswerAt := r.lastAnswerAt;
      recentPerformance := r.recentPerformance;
      stateVersion := r.stateVersion;
    }

    /** Stores the decayed streak; a streak that moved also clears the wrong streak. */
    method ApplyDecay(decayed: int)
      modifies this
      ensures Snapshot() == AfterDecay(old(Snapshot()), decayed)
    {
      if decayed != streak {
        streak := decayed;
        wrongStreak := 0;
      }
    }

    /** Adopts the requested session when it is non-empty and new. */
    method ApplySession(requested: Option<string>)
      modifies this
      ensures Snapshot() == AfterSession(old(Snapshot()), requested)
    {
      if Truthy(requested) && requested.value != sessionId {
        sessionId := requested.value;
      }
    }

    /** Copies the picker's cursor fields and records the question served. */
    method ApplyPick(question: Question, updated: StateRecord)
      modifies this
      ensures Snapshot() == AfterPick(old(Snapshot()), question, updated)
    {
      ghost var before := Snapshot();
      var recent := PushRecent(question.id, recentQuestionIds);
      cyclePosition, queueDifficulty, difficultyQuestionQueue, lastQuestionId, recentQuestionIds :=
        updated.cyclePosition, updated.queueDifficulty, updated.difficultyQuestionQueue, Some(question.id), recent;
      assert Snapshot() == AfterPick(before, question, updated);
    }
  }

  /** The user_state table. */
  class QuizStore {
    var rows: map<string, StateRecord>

    /** Each row is stored under its own user id. */
    ghost predicate Valid()
      reads this
    {
      forall u :: u in rows ==> rows[u].userId == u
    }

    constructor (rows: map<string, StateRecord>)
      ensures this.rows == rows
    {
      this.rows := rows;
    }

    /**
      The read withUserState makes under the row lock: the user's row when
      there is one; otherwise getOrCreateState inserts the initial row and
      returns it.
    */
    method LoadState(userId: string, newSessionId: string) returns (state: StateRecord)
      requires Valid()
      modifies this
      ensures Valid()
      ensures state == Loaded(old(rows), userId, newSessionId)
      ensures state.userId == userId
      ensures rows == old(rows)[userId := state]
    {
      if userId in rows {
        state := rows[userId];
        return;
      }
      state := InitialState(userId, newSessionId);
      rows := rows[userId := state];
    }

    /** A transaction whose callback throws rolls back: the table is restored whole. */
    method Rollback(snapshot: map<string, StateRecord>)
      modifies this
      ensures rows == snapshot
    {
      rows := snapshot;
    }

    /**
      updateState: writes the state back only if the stored row still has
      the version the state was read at, bumping the version on both;
      otherwise no row matches and the call fails with a version conflict.
    */
    method UpdateState(state: UserState) returns (conflict: bool)
      modifies this, state
      ensures conflict <==> !(state.userId in old(rows) && old(rows)[state.userId].stateVersion == old(state.stateVersion))
      ensures conflict ==> rows == old(rows) && unchanged(state)
      ensures !conflict ==> state.Snapshot() == old(state.Snapshot()).(stateVersion := old(state.stateVersion) + 1)
      ensures !conflict ==> rows == old(rows)[state.userId := state.Snapshot()]
    {
      if state.userId !in rows || rows[state.userId].stateVersion != state.stateVersion {
        return true;
      }
      state.stateVersion := state.stateVersion + 1;
      rows := rows[state.userId := state.Snapshot()];
      conflict := false;
    }
  }

  /**
    Whether both limiters let the request through: the user's counter is
    consulted first, then the address's, each on the counters the one
    before left behind.
  */
  function Admitted(counts: map<string, int>, userId: string, ip: string, nodeEnv: string,
                    userBackend: RateLimit.Backend, ipBackend: RateLimit.Backend): bool
  {
    var afterUser := RateLimit.CountsAfter(counts, UserKey(userId), WindowSeconds, nodeEnv, userBackend);
    && RateLimit.Outcome(counts, UserKey(userId), UserLimit, nodeEnv, userBackend).allowed
    && RateLimit.Outcome(afterUser, IpKey(ip), IpLimit, nodeEnv, ipBackend).allowed
  }

  /**
    The two limiters do not interfere: a request is admitted exactly when
    each limiter that is not bypassed sees its own count stay within its
    maximum, so 600 requests per user and 1000 per address fit in a window.
  */
  lemma AdmittedIff(counts: map<string, int>, userId: string, ip: string, nodeEnv: string,
                    userBackend: RateLimit.Backend, ipBackend: RateLimit.Backend)
    ensures Admitted(counts, userId, ip, nodeEnv, userBackend, ipBackend) <==>
              && (RateLimit.Bypassed(nodeEnv, userBackend)
                  || RateLimit.Count(counts, RateLimit.NamespacedKey(UserKey(userId))) < UserLimit)
              && (RateLimit.Bypassed(nodeEnv, ipBackend)
                  || RateLimit.Count(counts, RateLimit.NamespacedKey(IpKey(ip))) < IpLimit)
  {
    UserAndIpKeysDiffer(userId, ip);
    var userCounter := RateLimit.NamespacedKey(UserKey(userId));
    var ipCounter := RateLimit.NamespacedKey(IpKey(ip));
    var afterUser := RateLimit.CountsAfter(counts, UserKey(userId), WindowSeconds, nodeEnv, userBackend);
    assert RateLimit.Count(afterUser, ipCounter) == RateLimit.Count(counts, ipCounter) by {
      if !RateLimit.Bypassed(nodeEnv, userBackend) {
        assert ipCounter in afterUser - {userCounter} <==> ipCounter in counts - {userCounter};
        if ipCounter in counts {
          assert afterUser[ipCounter] == (afterUser - {userCounter})[ipCounter];
        }
      }
    }
  }

  /** In development both limiters are skipped, so every authenticated request is admitted. */
  lemma AdmittedInDevelopment(counts: map<string, int>, userId: string, ip: string,
                              userBackend: RateLimit.Backend, ipBackend: RateLimit.Backend)
    ensures Admitted(counts, userId, ip, RateLimit.Development, userBackend, ipBackend)
  {
  }

  /** The record the step persists: decay, session, pick, then the version bump. */
  function Saved(loaded: StateRecord, requestedSession: Option<string>, decayed: int,
                 question: Question, updated: StateRecord): StateRecord
  {
    AfterPick(AfterSession(AfterDecay(loaded, decayed), requestedSession), question, updated)
      .(stateVersion := loaded.stateVersion + 1)
  }

  /** What the picker is asked for: the state after decay and session, at its current difficulty. */
  function PickFor(loaded: StateRecord, requestedSession: Option<string>, decayed: int,
                   pick: (StateRecord, Difficulty) -> PickResult): PickResult
  {
    pick(AfterSession(AfterDecay(loaded, decayed), requestedSession), loaded.currentDifficulty)
  }

  /**
    The callback given to withUserState together with the catch block
    around it. The loaded state is advanced in place and persisted; a
    picker error or a version conflict leaves the table as it was and is
    mapped by MapError, so a conflict is answered with 409 and a picker
    error escapes.
  */
  method NextStep(store: QuizStore, loaded: StateRecord, requestedSession: Option<string>,
                  decay: (int, Option<string>) -> int, pick: (StateRecord, Difficulty) -> PickResult)
    returns (response: Response)
    modifies store
    ensures !response.Ok? ==> store.rows == old(store.rows)
    ensures !response.Ok? ==> response == Conflict || response.Thrown?
    ensures PickFor(loaded, requestedSession, decay(loaded.streak, loaded.lastAnswerAt), pick).PickFailed? ==>
              response == MapError(PickFor(loaded, requestedSession, decay(loaded.streak, loaded.lastAnswerAt), pick).message)
    ensures PickFor(loaded, requestedSession, decay(loaded.streak, loaded.lastAnswerAt), pick).Picked? ==>
              (response.Ok? <==> loaded.userId in old(store.rows) && old(store.rows)[loaded.userId].stateVersion == loaded.stateVersion)
    ensures PickFor(loaded, requestedSession, decay(loaded.streak, loaded.lastAnswerAt), pick).Picked? && !response.Ok? ==>
              response == Conflict
    ensures response.Ok? ==>
              var picked := PickFor(loaded, requestedSession, decay(loaded.streak, loaded.lastAnswerAt), pick);
              && picked.Picked?
              && var saved := Saved(loaded, requestedSession, decay(loaded.streak, loaded.lastAnswerAt), picked.question, picked.updated);
              && store.rows == old(store.rows)[loaded.userId := saved]
              && response.body == Body(picked.question.id, saved.currentDifficulty, picked.question.prompt,
                                       picked.question.choices, saved.sessionId, saved.stateVersion,
                                       saved.totalScore, saved.streak)
  {
    var decayed := decay(loaded.streak, loaded.lastAnswerAt);
    var state := new UserState(loaded);
    state.ApplyDecay(decayed);
    state.ApplySession(requestedSession);
    var picked := pick(state.Snapshot(), state.currentDifficulty);
    if picked.PickFailed? {
      return MapError(picked.message);
    }
    state.ApplyPick(picked.question, picked.updated);
    var conflict := store.UpdateState(state);
    if conflict {
      return MapError(VersionConflict);
    }
    assert state.Snapshot() == Saved(loaded, requestedSession, decayed, picked.question, picked.updated);
    response := Ok(Body(picked.question.id, state.currentDifficulty, picked.question.prompt, picked.question.choices,
                        state.sessionId, state.stateVersion, state.totalScore, state.streak));
  }

  /** What a successful response reports: the state's own difficulty, score and decayed streak, and the new version. */
  lemma ResponseReportsState(loaded: StateRecord, requestedSession: Option<string>, decayed: int,
                             question: Question, updated: StateRecord)
    ensures var saved := Saved(loaded, requestedSession, decayed, question, updated);
            && saved.userId == loaded.userId
            && saved.currentDifficulty == loaded.currentDifficulty
            && saved.totalScore == loaded.totalScore
            && saved.streak == decayed
            && saved.stateVersion == loaded.stateVersion + 1
            && saved.lastQuestionId == Some(question.id)
            && saved.recentQuestionIds == PushRecent(question.id, loaded.recentQuestionIds)
  {
    StepKeepsProgress(loaded, decayed, requestedSession, question, updated);
  }

  /**
    The transaction of withUserState around NextStep: the user's row is
    locked and loaded (created when absent), the step runs on it, and an
    error rolls the whole transaction back, the created row included.
  */
  method Serve(store: QuizStore, userId: string, newSessionId: string, requestedSession: Option<string>,
               decay: (int, Option<string>) -> int, pick: (StateRecord, Difficulty) -> PickResult)
    returns (response: Response)
    requires store.Valid()
    modifies store
    ensures store.Valid()
    ensures !response.Ok? ==> store.rows == old(store.rows)
    ensures var loaded := Loaded(old(store.rows), userId, newSessionId);
            var decayed := decay(loaded.streak, loaded.lastAnswerAt);
            var picked := PickFor(loaded, requestedSession, decayed, pick);
            && (picked.PickFailed? ==> response == MapError(picked.message))
            && (picked.Picked? ==>
                  var saved := Saved(loaded, requestedSession, decayed, picked.question, picked.updated);
                  && store.rows == old(store.rows)[userId := saved]
                  && response == Ok(Body(picked.question.id, loaded.currentDifficulty, picked.question.prompt,
                                         picked.question.choices, saved.sessionId, loaded.stateVersion + 1,
                                         loaded.totalScore, decayed)))
  {
    var before := store.rows;
    var loaded := store.LoadState(userId, newSessionId);
    response := NextStep(store, loaded, requestedSession, decay, pick);
    ghost var decayed := decay(loaded.streak, loaded.lastAnswerAt);
    ghost var picked := PickFor(loaded, requestedSession, decayed, pick);
    if response.Ok? {
      ResponseReportsState(loaded, requestedSession, decayed, picked.question, picked.updated);
    } else {
      store.Rollback(before);
    }
  }

  /**
    GET. Without a user id: 401, before any limiter or state is touched.
    Both limiters always run; if either refuses: 429 and the state is left
    alone. Otherwise Serve answers.
  */
  method Get(userId: Option<string>, headers: map<string, string>, requestedSession: Option<string>,
             nodeEnv: string, userBackend: RateLimit.Backend, ipBackend: RateLimit.Backend,
             limiter: RateLimit.CounterStore, store: QuizStore, newSessionId: string,
             decay: (int, Option<string>) -> int, pick: (StateRecord, Difficulty) -> PickResult)
    returns (response: Response)
    requires limiter.Valid() && store.Valid()
    modifies limiter, store
    ensures limiter.Valid() && store.Valid()
    ensures !Truthy(userId) ==> response == Unauthorized && unchanged(limiter) && unchanged(store)
    ensures Truthy(userId) ==> response != Unauthorized
    ensures Truthy(userId) ==>
              var afterUser := RateLimit.CountsAfter(old(limiter.counts), UserKey(userId.value), WindowSeconds, nodeEnv, userBackend);
              limiter.counts == RateLimit.CountsAfter(afterUser, IpKey(ClientIp.GetClientIp(headers)), WindowSeconds, nodeEnv, ipBackend)
    ensures Truthy(userId) ==>
              var afterUser := RateLimit.CountsAfter(old(limiter.counts), UserKey(userId.value), WindowSeconds, nodeEnv, userBackend);
              var expiryAfterUser := RateLimit.ExpiryAfter(old(limiter.counts), old(limiter.expiry), UserKey(userId.value),
                                                           WindowSeconds, nodeEnv, userBackend);
              limiter.expiry == RateLimit.ExpiryAfter(afterUser, expiryAfterUser, IpKey(ClientIp.GetClientIp(headers)),
                                                      WindowSeconds, nodeEnv, ipBackend)
    ensures response == RateLimited <==>
              Truthy(userId) && !Admitted(old(limiter.counts), userId.value, ClientIp.GetClientIp(headers), nodeEnv, userBackend, ipBackend)
    ensures response == RateLimited ==> unchanged(store)
    ensures !response.Ok? ==> store.rows == old(store.rows)
    ensures Truthy(userId) && Admitted(old(limiter.counts), userId.value, ClientIp.GetClientIp(headers), nodeEnv, userBackend, ipBackend) ==>
              var loaded := Loaded(old(store.rows), userId.value, newSessionId);
              var decayed := decay(loaded.streak, loaded.lastAnswerAt);
              var picked := PickFor(loaded, requestedSession, decayed, pick);
              && (picked.PickFailed? ==> response == MapError(picked.message))
              && (picked.Picked? ==>
                    var saved := Saved(loaded, requestedSession, decayed, picked.question, picked.updated);
                    && store.rows == old(store.rows)[userId.value := saved]
                    && response == Ok(Body(picked.question.id, loaded.currentDifficulty, picked.question.prompt,
                                           picked.question.choices, saved.sessionId, loaded.stateVersion + 1,
                                           loaded.totalScore, decayed)))
  {
    if !Truthy(userId) {
      return Unauthorized;
    }
    var ip := ClientIp.GetClientIp(headers);
    var userDecision := RateLimit.RateLimit(limiter, UserKey(userId.value), UserLimit, WindowSeconds, nodeEnv, userBackend);
    var ipDecision := RateLimit.RateLimit(limiter, IpKey(ip), IpLimit, WindowSeconds, nodeEnv, ipBackend);
    if !userDecision.allowed || !ipDecision.allowed {
      return RateLimited;
    }
    response := Serve(store, userId.value, newSessionId, requestedSession, decay, pick);
  }
}
