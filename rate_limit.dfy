/**
  The fixed-window rate limiter (src/lib/cache/rateLimit.ts).

  The Redis counters are a map from key to count held by a CounterStore
  object, together with the expiry armed on each key. The Lua script
  (INCR, then EXPIRE on the first hit) runs as one atomic step. A window
  ends when the environment performs ExpireWindow on the key; wall-clock
  time is not modelled.
*/
module RateLimit {

  /** What rateLimit returns to its caller. */
  datatype Decision = Decision(allowed: bool, remaining: int)

  /** Whether the Redis backend answers the script, or the call throws. */
  datatype Backend = Available | Unavailable

  const KeyPrefix: string := "ratelimit:"
  /** The NODE_ENV value under which limiting is bypassed. */
  const Development: string := "development"

  /** The Redis key that holds the counter of a rate-limit key. */
  function NamespacedKey(key: string): string {
    KeyPrefix + key
  }

  /** Distinct rate-limit keys never share a counter. */
  lemma NamespacedKeyInjective(k1: string, k2: string)
    ensures NamespacedKey(k1) == NamespacedKey(k2) <==> k1 == k2
  {
    if NamespacedKey(k1) == NamespacedKey(k2) {
      assert k1 == NamespacedKey(k1)[|KeyPrefix|..];
      assert k2 == NamespacedKey(k2)[|KeyPrefix|..];
    }
  }

  /** The value Redis holds for a key: an absent key counts as 0. */
  function Count(counts: map<string, int>, key: string): int {
    if key in counts then counts[key] else 0
  }

  /**
    The counters after the script has run on `key`: INCR adds one, and on
    the first hit EXPIRE arms the window; an EXPIRE with a non-positive
    number of seconds deletes the key at once, as Redis does.
  */
  function Incremented(counts: map<string, int>, key: string, windowSeconds: int): (after: map<string, int>)
    ensures after - {key} == counts - {key}
    ensures key in counts || windowSeconds > 0 ==> key in after && after[key] == Count(counts, key) + 1
    ensures key !in counts && windowSeconds <= 0 ==> key !in after
  {
    var current := Count(counts, key) + 1;
    if key !in counts && windowSeconds <= 0 then counts else counts[key := current]
  }

  /**
    The allow/remaining decision on the count after the increment. A
    request is allowed exactly when the count has not passed the maximum;
    the remaining quota is what is left of the maximum, never negative.
  */
  function Decide(count: int, max: int): (d: Decision)
    ensures d.allowed <==> count <= max
    ensures d.remaining >= 0
    ensures count <= max ==> count + d.remaining == max
    ensures count >= max ==> d.remaining == 0
  {
    Decision(count <= max, if max - count > 0 then max - count else 0)
  }

  /** The limiter is skipped in development and fails open when Redis is unavailable. */
  predicate Bypassed(nodeEnv: string, backend: Backend) {
    nodeEnv == Development || backend == Unavailable
  }

  /**
    The decision rateLimit returns for `key` against the counters it finds:
    a bypassed call is allowed without counting; otherwise the call is
    allowed exactly while fewer than `max` hits are already counted, and a
    refused call has nothing left.
  */
  function Outcome(counts: map<string, int>, key: string, max: int, nodeEnv: string, backend: Backend): (d: Decision)
    ensures Bypassed(nodeEnv, backend) ==> d == Decision(true, max)
    ensures d.allowed <==> Bypassed(nodeEnv, backend) || Count(counts, NamespacedKey(key)) < max
    ensures !d.allowed ==> d.remaining == 0
    ensures d.allowed && !Bypassed(nodeEnv, backend) ==> d.remaining == max - Count(counts, NamespacedKey(key)) - 1
  {
    if Bypassed(nodeEnv, backend) then Decision(true, max)
    else Decide(Count(counts, NamespacedKey(key)) + 1, max)
  }

  /** The counters rateLimit leaves behind. */
  function CountsAfter(counts: map<string, int>, key: string, windowSeconds: int,
                       nodeEnv: string, backend: Backend): map<string, int>
  {
    if Bypassed(nodeEnv, backend) then counts else Incremented(counts, NamespacedKey(key), windowSeconds)
  }

  /**
    The expiries rateLimit leaves behind: the window of "ratelimit:" + key
    is armed only by the hit that creates its counter.
  */
  function ExpiryAfter(counts: map<string, int>, expiry: map<string, int>, key: string, windowSeconds: int,
                       nodeEnv: string, backend: Backend): map<string, int>
  {
    if !Bypassed(nodeEnv, backend) && NamespacedKey(key) !in counts && windowSeconds > 0
    then expiry[NamespacedKey(key) := windowSeconds]
    else expiry
  }

  /** The Redis counters the limiter uses. */
  class CounterStore {
    /** The count of each key whose window is open. */
    var counts: map<string, int>
    /** The expiry, in seconds, armed on each key. */
    var expiry: map<string, int>

    /** Every counter holds at least one hit and has its window armed. */
    ghost predicate Valid()
      reads this
    {
      && counts.Keys == expiry.Keys
      && forall k :: k in counts ==> counts[k] >= 1
    }

    constructor ()
      ensures Valid()
      ensures counts == map[] && expiry == map[]
    {
      counts := map[];
      expiry := map[];
    }

    /**
      INCR_WITH_EXPIRY_SCRIPT. Returns the count after the increment. The
      expiry is armed only when the count goes from absent to 1, so later
      hits in the window never extend it.
    */
    method IncrWithExpiry(key: string, windowSeconds: int) returns (current: int)
      requires Valid()
      modifies this
      ensures Valid()
      ensures current == Count(old(counts), key) + 1
      ensures current == 1 <==> key !in old(counts)
      ensures counts == Incremented(old(counts), key, windowSeconds)
      ensures key in old(counts) ==> expiry == old(expiry)
      ensures key !in old(counts) && windowSeconds > 0 ==> expiry == old(expiry)[key := windowSeconds]
      ensures key !in old(counts) && windowSeconds <= 0 ==> expiry == old(expiry)
    {
      current := Count(counts, key) + 1;
      counts := counts[key := current];
      if current == 1 {
        if windowSeconds > 0 {
          expiry := expiry[key := windowSeconds];
        } else {
          counts := counts - {key};
        }
      }
    }

    /** The window of `key` runs out: Redis drops the key and its expiry. */
    method ExpireWindow(key: string)
      requires Valid()
      modifies this
      ensures Valid()
      ensures counts == old(counts) - {key} && expiry == old(expiry) - {key}
    {
      counts := counts - {key};
      expiry := expiry - {key};
    }
  }

  /**
    rateLimit. In development, or when Redis fails, the call allows the
    request with the full quota and touches no counter; otherwise it runs
    the script on "ratelimit:" + key and decides on the new count.
  */
  method RateLimit(store: CounterStore, key: string, max: int, windowSeconds: int,
                   nodeEnv: string, backend: Backend) returns (d: Decision)
    requires store.Valid()
    modifies store
    ensures store.Valid()
    ensures d == Outcome(old(store.counts), key, max, nodeEnv, backend)
    ensures store.counts == CountsAfter(old(store.counts), key, windowSeconds, nodeEnv, backend)
    ensures store.expiry == ExpiryAfter(old(store.counts), old(store.expiry), key, windowSeconds, nodeEnv, backend)
    ensures Bypassed(nodeEnv, backend) ==> unchanged(store)
  {
    if nodeEnv == Development {
      return Decision(true, max);
    }
    if backend == Unavailable {
      return Decision(true, max);
    }
    var count := store.IncrWithExpiry(NamespacedKey(key), windowSeconds);
    d := Decide(count, max);
  }

  /**
    Within one window, starting from no counter, the n-th call on a key sees
    count n: it is allowed exactly when n <= max, with max - n left.
  */
  method CallsInOneWindow(key: string, max: int, windowSeconds: int, n: nat) returns (decisions: seq<Decision>)
    requires windowSeconds > 0
    ensures |decisions| == n
    ensures forall i :: 0 <= i < n ==> decisions[i] == Decide(i + 1, max)
    ensures forall i :: 0 <= i < n ==> (decisions[i].allowed <==> i < max)
  {
    var store := new CounterStore();
    decisions := [];
    while |decisions| < n
      invariant store.Valid()
      invariant |decisions| <= n
      invariant Count(store.counts, NamespacedKey(key)) == |decisions|
      invariant forall i :: 0 <= i < |decisions| ==> decisions[i] == Decide(i + 1, max)
    {
      var d := RateLimit(store, key, max, windowSeconds, "production", Available);
      decisions := decisions + [d];
    }
  }

  /** With max = 2 and a 60-second window, three calls on one key: allowed, allowed, denied. */
  method ThreeCallsWithMaxTwo(key: string) returns (first: Decision, second: Decision, third: Decision)
    ensures first == Decision(true, 1)
    ensures second == Decision(true, 0)
    ensures third == Decision(false, 0)
  {
    var store := new CounterStore();
    first := RateLimit(store, key, 2, 60, "production", Available);
    second := RateLimit(store, key, 2, 60, "production", Available);
    third := RateLimit(store, key, 2, 60, "production", Available);
  }

  /** Once the window has expired, the same key starts again from count 1. */
  method NewWindowAfterExpiry(key: string) returns (denied: Decision, afterExpiry: Decision)
    ensures denied == Decision(false, 0)
    ensures afterExpiry == Decision(true, 0)
  {
    var store := new CounterStore();
    var first := RateLimit(store, key, 1, 60, "production", Available);
    denied := RateLimit(store, key, 1, 60, "production", Available);
    store.ExpireWindow(NamespacedKey(key));
    afterExpiry := RateLimit(store, key, 1, 60, "production", Available);
  }
}
