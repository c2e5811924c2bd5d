/**
  The leaderboard store (src/lib/db/leaderboard.ts).

  A LeaderboardStore holds three things the source keeps apart: the durable
  tables leaderboard_score and leaderboard_streak (user id to value), the
  Redis keyspace of sorted sets (key to a map from member to score), and
  the messages published on the updates channel. Scores travel to Redis as
  decimal text and come back through Number; only integer scores are
  modelled.

  ZREVRANGE and ZREVRANK list members by descending score; Redis breaks
  ties by member name in reverse byte order, which the model takes as a
  caller-supplied `order` that lists the set's members by non-increasing
  score (IsRevOrder).
*/
module Leaderboard {
  import opened Types
  import opened Decimal

  const ScoreSet: string := "leaderboard:score"
  const StreakSet: string := "leaderboard:streak"
  const ScoreTmp: string := "leaderboard:score:tmp"
  const StreakTmp: string := "leaderboard:streak:tmp"
  const UpdatesChannel: string := "leaderboard:updates"
  /** Hydration copies at most this many rows of each table. */
  const HydrateLimit: nat := 200

  /** The `setKey` argument: "score" or "streak". */
  datatype Board = Score | Streak

  function SetKey(board: Board): (key: string)
    ensures key == ScoreSet || key == StreakSet
  {
    if board == Score then ScoreSet else StreakSet
  }

  /** A Redis sorted set: member to score. Redis never keeps an empty one. */
  type SortedSet = map<string, int>

  /** One line of the leaderboard reply. */
  datatype Entry = Entry(userId: string, score: int, rank: int)

  /** The payload published on the updates channel (sent as JSON text). */
  datatype Event = Event(userId: string, totalScore: int, maxStreak: int)

  /** The backend calls updateLeaderboardCache makes, in order; each of them can throw. */
  datatype CacheStep = AddScore | AddStreak | PublishUpdate

  /** A row returned by the hydration query: user_id and its value. */
  datatype Row = Row(userId: string, value: int)

  /** The backend calls hydration makes, in order; each of them can throw. */
  datatype HydrateStep =
    | DeleteScoreTmp | DeleteStreakTmp
    | SelectScoreRows | FillScoreTmp
    | SelectStreakRows | FillStreakTmp
    | RenameScore | RenameStreak

  /** The keys hydration may touch; every other key is left alone. */
  function HydrateKeys(): set<string> {
    {ScoreSet, StreakSet, ScoreTmp, StreakTmp}
  }

  lemma KeysDistinct()
    ensures ScoreSet != StreakSet && ScoreSet != ScoreTmp && ScoreSet != StreakTmp
    ensures StreakSet != ScoreTmp && StreakSet != StreakTmp && ScoreTmp != StreakTmp
  {
    assert |ScoreSet| == 17 && |StreakSet| == 18 && |ScoreTmp| == 21 && |StreakTmp| == 22;
  }

  /** Two keyspaces that agree outside `drop` agree on every key outside it. */
  lemma KeptOutside(a: map<string, SortedSet>, b: map<string, SortedSet>, drop: set<string>, k: string)
    requires a - drop == b - drop && k !in drop
    ensures (k in a <==> k in b) && SetAt(a, k) == SetAt(b, k)
  {
    assert k in a <==> k in a - drop;
    assert k in b <==> k in b - drop;
    if k in a {
      assert a[k] == (a - drop)[k];
    }
  }

  lemma DropMore(a: map<string, SortedSet>, b: map<string, SortedSet>, drop: set<string>, more: set<string>)
    requires a - drop == b - drop && drop <= more
    ensures a - more == b - more
  {
    forall k | k in a - more
      ensures k in b - more && (a - more)[k] == (b - more)[k]
    {
      assert k in a - drop;
    }
    forall k | k in b - more
      ensures k in a - more
    {
      assert k in b - drop;
    }
  }

  lemma PutInside(a: map<string, SortedSet>, k: string, v: SortedSet, more: set<string>)
    requires k in more
    ensures a[k := v] - more == a - more
  {
  }

  lemma MoveInside(a: map<string, SortedSet>, src: string, dst: string, more: set<string>)
    requires src in a && src in more && dst in more
    ensures (a - {src})[dst := a[src]] - more == a - more
  {
  }

  /** The keyspace after staging both tables into cleared temporary keys. */
  ghost function Staged(keyspace: map<string, SortedSet>, scoreRows: seq<Row>, streakRows: seq<Row>,
                  faults: set<HydrateStep>): map<string, SortedSet>
  {
    var scoreOk := StageOk(scoreRows, SelectScoreRows, FillScoreTmp, faults);
    var afterScore := if scoreOk && |scoreRows| > 0 then keyspace[ScoreTmp := RowsToSet(scoreRows)] else keyspace;
    if scoreOk && StageOk(streakRows, SelectStreakRows, FillStreakTmp, faults) && |streakRows| > 0
    then afterScore[StreakTmp := RowsToSet(streakRows)]
    else afterScore
  }

  /** What staging leaves at each temporary key, and that no other key moves. */
  lemma StagedKeys(keyspace: map<string, SortedSet>, scoreRows: seq<Row>, streakRows: seq<Row>, faults: set<HydrateStep>)
    requires ScoreTmp !in keyspace && StreakTmp !in keyspace
    ensures var after := Staged(keyspace, scoreRows, streakRows, faults);
            && after - {ScoreTmp, StreakTmp} == keyspace - {ScoreTmp, StreakTmp}
            && (StageOk(scoreRows, SelectScoreRows, FillScoreTmp, faults) ==>
                  (ScoreTmp in after <==> |scoreRows| > 0) && SetAt(after, ScoreTmp) == RowsToSet(scoreRows))
            && (!StageOk(scoreRows, SelectScoreRows, FillScoreTmp, faults) ==> ScoreTmp !in after)
            && (StageOk(scoreRows, SelectScoreRows, FillScoreTmp, faults) && StageOk(streakRows, SelectStreakRows, FillStreakTmp, faults) ==>
                  (StreakTmp in after <==> |streakRows| > 0) && SetAt(after, StreakTmp) == RowsToSet(streakRows))
            && (!(StageOk(scoreRows, SelectScoreRows, FillScoreTmp, faults) && StageOk(streakRows, SelectStreakRows, FillStreakTmp, faults)) ==>
                  StreakTmp !in after)
  {
    KeysDistinct();
    var scoreOk := StageOk(scoreRows, SelectScoreRows, FillScoreTmp, faults);
    var afterScore := if scoreOk && |scoreRows| > 0 then keyspace[ScoreTmp := RowsToSet(scoreRows)] else keyspace;
    if scoreOk && |scoreRows| > 0 {
      PutInside(keyspace, ScoreTmp, RowsToSet(scoreRows), {ScoreTmp, StreakTmp});
    } else {
      assert scoreOk ==> RowsToSet(scoreRows) == map[];
    }
    assert StreakTmp !in afterScore;
    if scoreOk && StageOk(streakRows, SelectStreakRows, FillStreakTmp, faults) && |streakRows| > 0 {
      PutInside(afterScore, StreakTmp, RowsToSet(streakRows), {ScoreTmp, StreakTmp});
    } else {
      assert scoreOk && StageOk(streakRows, SelectStreakRows, FillStreakTmp, faults) ==> RowsToSet(streakRows) == map[];
    }
  }

  /**
    The keyspace after updateLeaderboardCache's two ZADDs, of which the
    first one that throws and all after it are not made.
  */
  function CacheWritten(keyspace: map<string, SortedSet>, userId: string, totalScore: int, maxStreak: int,
                        faults: set<CacheStep>): map<string, SortedSet>
  {
    var afterScore := if AddScore in faults then keyspace
                      else keyspace[ScoreSet := SetAt(keyspace, ScoreSet)[userId := totalScore]];
    if AddScore in faults || AddStreak in faults then afterScore
    else afterScore[StreakSet := SetAt(afterScore, StreakSet)[userId := maxStreak]]
  }

  /**
    The cache write sets the user's member in each live set whose ZADD
    ran, keeps every other member, and touches no other key.
  */
  lemma CacheWrittenSets(keyspace: map<string, SortedSet>, userId: string, totalScore: int, maxStreak: int,
                         faults: set<CacheStep>)
    ensures var after := CacheWritten(keyspace, userId, totalScore, maxStreak, faults);
            && after - {ScoreSet, StreakSet} == keyspace - {ScoreSet, StreakSet}
            && SetAt(after, ScoreSet) == (if AddScore in faults then SetAt(keyspace, ScoreSet)
                                          else SetAt(keyspace, ScoreSet)[userId := totalScore])
            && SetAt(after, StreakSet) == (if AddScore in faults || AddStreak in faults then SetAt(keyspace, StreakSet)
                                           else SetAt(keyspace, StreakSet)[userId := maxStreak])
  {
    KeysDistinct();
    var afterScore := if AddScore in faults then keyspace
                      else keyspace[ScoreSet := SetAt(keyspace, ScoreSet)[userId := totalScore]];
    if AddScore !in faults {
      PutInside(keyspace, ScoreSet, SetAt(keyspace, ScoreSet)[userId := totalScore], {ScoreSet, StreakSet});
    }
    assert SetAt(afterScore, StreakSet) == SetAt(keyspace, StreakSet);
    if AddScore !in faults && AddStreak !in faults {
      PutInside(afterScore, StreakSet, SetAt(afterScore, StreakSet)[userId := maxStreak], {ScoreSet, StreakSet});
    }
  }

  /**
    A set that mirrored a table, after the table's row for one user is
    upserted and the set's member perhaps with it, differs from the table
    at most at that member, and not at all when the set was written too.
  */
  lemma StaleAtMostAt(s: SortedSet, table: map<string, int>, oldTable: map<string, int>,
                      userId: string, value: int, written: bool)
    requires s == oldTable && table == oldTable[userId := value]
    ensures (if written then s[userId := value] else s) - {userId} == table - {userId}
    ensures written ==> s[userId := value] == table
  {
    assert s[userId := value] - {userId} == s - {userId};
    assert table - {userId} == oldTable - {userId};
  }

  /** ZADD into an absent key builds the set from the rows alone. */
  lemma StageIntoAbsent(a: map<string, SortedSet>, tmp: string, added: SortedSet)
    requires tmp !in a
    ensures a[tmp := SetAt(a, tmp) + added] == a[tmp := added]
  {
    var empty: SortedSet := map[];
    assert SetAt(a, tmp) == empty;
    assert (empty + added).Keys == added.Keys;
    assert empty + added == added;
  }

  /** The sorted set stored at a key; an absent key reads as the empty set. */
  function SetAt(keyspace: map<string, SortedSet>, key: string): SortedSet {
    if key in keyspace then keyspace[key] else map[]
  }

  // ---------------------------------------------------------------------
  // Sequences and their elements

  function Elements<T>(s: seq<T>): set<T> {
    set x | x in s
  }

  predicate Distinct<T(==)>(s: seq<T>) {
    forall i, j :: 0 <= i < j < |s| ==> s[i] != s[j]
  }

  lemma SubsetCard<T>(a: set<T>, b: set<T>)
    requires a <= b
    ensures |a| <= |b|
  {
    if a != {} {
      var x :| x in a;
      SubsetCard(a - {x}, b - {x});
    }
  }

  /** A sequence has at most as many elements as entries, exactly as many when they are distinct. */
  lemma {:induction false} ElementsCard<T>(s: seq<T>)
    ensures |Elements(s)| <= |s|
    ensures Distinct(s) ==> |Elements(s)| == |s|
  {
    if |s| > 0 {
      var init := s[..|s| - 1];
      ElementsCard(init);
      assert Elements(s) == Elements(init) + {s[|s| - 1]};
      if Distinct(s) {
        assert Distinct(init);
        assert s[|s| - 1] !in Elements(init);
      }
    }
  }

  // ---------------------------------------------------------------------
  // Reading the cache

  /**
    `order` lists every member of the set once, by non-increasing score:
    the order ZREVRANGE and ZREVRANK use.
  */
  ghost predicate IsRevOrder(s: SortedSet, order: seq<string>) {
    && Distinct(order)
    && (forall i :: 0 <= i < |order| ==> order[i] in s)
    && (forall m :: m in s ==> m in order)
    && (forall i, j :: 0 <= i < j < |order| ==> s[order[i]] >= s[order[j]])
  }

  /**
    How many members ZREVRANGE key 0 (limit - 1) returns from a set of n.
    Redis counts a negative stop index from the end, so a positive limit
    caps the reply at limit members, limit 0 returns the whole set and a
    negative limit drops that many members from the end.
  */
  function RangeLength(n: nat, limit: int): (count: nat)
    ensures count <= n
    ensures limit >= 1 ==> count == (if limit < n then limit else n)
    ensures limit <= 0 ==> count == (if n + limit > 0 then n + limit else 0)
  {
    var stop := if limit - 1 < 0 then limit - 1 + n else limit - 1;
    if stop < 0 || n == 0 then 0 else if stop >= n then n else stop + 1
  }

  /** The WITHSCORES reply for `members`: member and decimal score, pair after pair. */
  function FlatReply(s: SortedSet, members: seq<string>): (raw: seq<string>)
    requires forall i :: 0 <= i < |members| ==> members[i] in s
    ensures |raw| == 2 * |members|
    ensures forall k :: 0 <= k < |members| ==> raw[2 * k] == members[k]
    ensures forall k :: 0 <= k < |members| ==> raw[2 * k + 1] == IntToString(s[members[k]])
  {
    if |members| == 0 then []
    else
      var last := members[|members| - 1];
      FlatReply(s, members[..|members| - 1]) + [last, IntToString(s[last])]
  }

  /**
    The loop of getLeaderboard over a WITHSCORES reply: one entry per
    (member, score) pair, the score parsed with Number and the rank being
    the pair's 1-based position.
  */
  method ParseReply(raw: seq<string>) returns (entries: seq<Entry>)
    requires |raw| % 2 == 0
    requires forall k :: 0 <= k < |raw| / 2 ==> IsIntegerText(raw[2 * k + 1])
    ensures |entries| == |raw| / 2
    ensures forall k :: 0 <= k < |entries| ==> entries[k] == Entry(raw[2 * k], ParseInt(raw[2 * k + 1]), k + 1)
  {
    entries := [];
    var i := 0;
    while i < |raw|
      invariant 0 <= i <= |raw| && i % 2 == 0
      invariant |entries| == i / 2
      invariant forall k :: 0 <= k < |entries| ==> entries[k] == Entry(raw[2 * k], ParseInt(raw[2 * k + 1]), k + 1)
    {
      assert 2 * (i / 2) == i;
      entries := entries + [Entry(raw[i], ParseInt(raw[i + 1]), i / 2 + 1)];
      i := i + 2;
    }
  }

  /** Every score in a WITHSCORES reply reads back as the member's score. */
  lemma ReplyScoresParse(s: SortedSet, members: seq<string>)
    requires forall i :: 0 <= i < |members| ==> members[i] in s
    ensures forall k :: 0 <= k < |members| ==>
              IsIntegerText(FlatReply(s, members)[2 * k + 1]) && ParseInt(FlatReply(s, members)[2 * k + 1]) == s[members[k]]
  {
    forall k | 0 <= k < |members|
      ensures ParseInt(IntToString(s[members[k]])) == s[members[k]]
    {
      ParseIntToString(s[members[k]]);
    }
  }

  /** The position of the first occurrence of a member. */
  function IndexOf(order: seq<string>, userId: string): (i: Option<nat>)
    ensures i.None? <==> userId !in order
    ensures i.Some? ==> i.value < |order| && order[i.value] == userId && userId !in order[..i.value]
  {
    if |order| == 0 then None
    else if order[0] == userId then Some(0)
    else match IndexOf(order[1..], userId) {
      case None => None
      case Some(j) => assert order[1..][..j] == order[1..j + 1]; Some(j + 1)
    }
  }

  lemma IndexOfDistinct(order: seq<string>, k: nat)
    requires Distinct(order) && k < |order|
    ensures IndexOf(order, order[k]) == Some(k)
  {
  }

  /**
    Entries that list a prefix of the descending order with their 1-based
    positions have non-increasing scores, and each entry's rank is where
    ZREVRANK finds its member.
  */
  lemma RankedPrefix(s: SortedSet, order: seq<string>, entries: seq<Entry>)
    requires IsRevOrder(s, order) && |entries| <= |order|
    requires forall k :: 0 <= k < |entries| ==> entries[k] == Entry(order[k], s[order[k]], k + 1)
    ensures forall i, j :: 0 <= i < j < |entries| ==> entries[i].score >= entries[j].score
    ensures forall k :: 0 <= k < |entries| ==> IndexOf(order, entries[k].userId) == Some(entries[k].rank - 1)
  {
    forall k | 0 <= k < |entries|
      ensures IndexOf(order, entries[k].userId) == Some(entries[k].rank - 1)
    {
      IndexOfDistinct(order, k);
    }
  }

  /** The number of members scoring strictly above `value`. */
  function CountAbove(table: map<string, int>, value: int): (count: nat)
    ensures count <= |table|
  {
    var above := set u | u in table && table[u] > value;
    SubsetCard(above, table.Keys);
    |above|
  }

  /** The number of members scoring at least `value`. */
  function CountAtLeast(table: map<string, int>, value: int): (count: nat)
    ensures count <= |table|
  {
    var atLeast := set u | u in table && table[u] >= value;
    SubsetCard(atLeast, table.Keys);
    |atLeast|
  }

  /** No member scores above `value` exactly when none is counted. */
  lemma NoneAbove(table: map<string, int>, value: int)
    ensures CountAbove(table, value) == 0 <==> forall u :: u in table ==> table[u] <= value
  {
    var above := set u | u in table && table[u] > value;
    if exists u :: u in table && table[u] > value {
      var u :| u in table && table[u] > value;
      assert u in above;
    }
  }

  /** "SELECT 1 + COUNT(*) ... WHERE value > $1": the competition rank of a value. */
  function RankAbove(table: map<string, int>, value: int): (rank: int)
    ensures 1 <= rank <= |table| + 1
    ensures rank == 1 <==> forall u :: u in table ==> table[u] <= value
  {
    NoneAbove(table, value);
    1 + CountAbove(table, value)
  }

  /** A higher value never ranks worse. */
  lemma RankAboveMonotone(table: map<string, int>, v1: int, v2: int)
    requires v1 <= v2
    ensures RankAbove(table, v2) <= RankAbove(table, v1)
  {
    SubsetCard(set u | u in table && table[u] > v2, set u | u in table && table[u] > v1);
  }

  /**
    The rank ZREVRANK reports for a member lies between the competition rank
    of its score (1 + the members strictly above it) and the number of
    members scoring at least as much; with no tie on its score the two meet.
  */
  lemma {:induction false} RevRankBetween(s: SortedSet, order: seq<string>, userId: string)
    requires IsRevOrder(s, order) && userId in s
    ensures IndexOf(order, userId).Some?
    ensures RankAbove(s, s[userId]) <= IndexOf(order, userId).value + 1 <= CountAtLeast(s, s[userId])
  {
    var i := IndexOf(order, userId).value;
    AboveComeFirst(s, order, i);
    PrefixScoresAtLeast(s, order, i);
  }

  /** Every member scoring above the one at position i is listed before it. */
  lemma AboveComeFirst(s: SortedSet, order: seq<string>, i: nat)
    requires IsRevOrder(s, order) && i < |order|
    ensures CountAbove(s, s[order[i]]) <= i
  {
    var above := set u | u in s && s[u] > s[order[i]];
    var before := Elements(order[..i]);
    forall u | u in above
      ensures u in before
    {
      var j := IndexOf(order, u).value;
      assert order[..i][j] == u;
    }
    SubsetCard(above, before);
    ElementsCard(order[..i]);
  }

  /** The members listed up to position i all score at least as much as the one there. */
  lemma PrefixScoresAtLeast(s: SortedSet, order: seq<string>, i: nat)
    requires IsRevOrder(s, order) && i < |order|
    ensures i + 1 <= CountAtLeast(s, s[order[i]])
  {
    var prefix := order[..i + 1];
    var atLeast := set u | u in s && s[u] >= s[order[i]];
    assert Distinct(prefix);
    forall u | u in Elements(prefix)
      ensures u in atLeast
    {
      var j :| 0 <= j < i + 1 && prefix[j] == u;
      assert order[j] == u;
    }
    SubsetCard(Elements(prefix), atLeast);
    ElementsCard(prefix);
  }

  // ---------------------------------------------------------------------
  // Hydration

  function UserIds(rows: seq<Row>): (ids: seq<string>)
    ensures |ids| == |rows|
    ensures forall i :: 0 <= i < |rows| ==> ids[i] == rows[i].userId
  {
    if |rows| == 0 then [] else UserIds(rows[..|rows| - 1]) + [rows[|rows| - 1].userId]
  }

  /**
    The rows "SELECT user_id, value ... ORDER BY value DESC LIMIT 200"
    returns from a table: min(|table|, 200) distinct rows of the table, by
    non-increasing value, and no row left out beats one that was taken.
  */
  ghost predicate IsTopRows(table: map<string, int>, rows: seq<Row>) {
    && |rows| == (if |table| < HydrateLimit then |table| else HydrateLimit)
    && Distinct(UserIds(rows))
    && (forall i :: 0 <= i < |rows| ==> rows[i].userId in table && table[rows[i].userId] == rows[i].value)
    && (forall i, j :: 0 <= i < j < |rows| ==> rows[i].value >= rows[j].value)
    && (forall u, i :: u in table && u !in UserIds(rows) && 0 <= i < |rows| ==> table[u] <= rows[i].value)
  }

  /** The set ZADD builds from the rows' "value, user_id" argument pairs, added left to right. */
  function RowsToSet(rows: seq<Row>): (s: SortedSet)
    ensures s.Keys == Elements(UserIds(rows))
  {
    if |rows| == 0 then map[]
    else
      var last := rows[|rows| - 1];
      assert UserIds(rows) == UserIds(rows[..|rows| - 1]) + [last.userId];
      RowsToSet(rows[..|rows| - 1])[last.userId := ParseInt(IntToString(last.value))]
  }

  /** With distinct user ids, every row lands in the set with its own value. */
  lemma {:induction false} RowsToSetValues(rows: seq<Row>)
    requires Distinct(UserIds(rows))
    ensures forall i :: 0 <= i < |rows| ==> RowsToSet(rows)[rows[i].userId] == rows[i].value
  {
    if |rows| > 0 {
      var init := rows[..|rows| - 1];
      assert UserIds(rows) == UserIds(init) + [rows[|rows| - 1].userId];
      assert Distinct(UserIds(init));
      RowsToSetValues(init);
      var last := rows[|rows| - 1];
      ParseIntToString(last.value);
      forall i | 0 <= i < |rows| - 1
        ensures RowsToSet(rows)[rows[i].userId] == rows[i].value
      {
        assert UserIds(rows)[i] != UserIds(rows)[|rows| - 1];
        assert init[i] == rows[i];
      }
    }
  }

  /**
    A set that mirrors the top of a table: exactly min(|table|, 200)
    members, each with its value in the table, and no table row missing
    from it beats a member.
  */
  ghost predicate IsTopSet(table: map<string, int>, s: SortedSet) {
    && |s| == (if |table| < HydrateLimit then |table| else HydrateLimit)
    && (forall m :: m in s ==> m in table && s[m] == table[m])
    && (forall m, u :: m in s && u in table && u !in s ==> table[u] <= table[m])
  }

  /** ZADD of the top rows of a table builds a set that mirrors the top of the table. */
  lemma HydratedSetIsTop(table: map<string, int>, rows: seq<Row>)
    requires IsTopRows(table, rows)
    ensures IsTopSet(table, RowsToSet(rows))
  {
    var s := RowsToSet(rows);
    RowsToSetValues(rows);
    ElementsCard(UserIds(rows));
    assert |s.Keys| == |s|;
    forall m | m in s
      ensures exists i :: 0 <= i < |rows| && rows[i].userId == m
    {
      var i :| 0 <= i < |UserIds(rows)| && UserIds(rows)[i] == m;
      assert rows[i].userId == m;
    }
  }

  /**
    A table of at most 200 rows is mirrored whole: a live set that
    hydration swapped in is then equal to its table, so a member left
    stale by a failed cache write is repaired.
  */
  lemma TopSetOfSmallTable(table: map<string, int>, s: SortedSet)
    requires IsTopSet(table, s) && |table| <= HydrateLimit
    ensures s == table
  {
    if u :| u in table && u !in s {
      assert s.Keys <= table.Keys - {u};
      SubsetCard(s.Keys, table.Keys - {u});
      assert false;
    }
    assert s.Keys == table.Keys;
  }

  /** Both DELs of the temporary keys succeed. */
  predicate Cleared(faults: set<HydrateStep>) {
    DeleteScoreTmp !in faults && DeleteStreakTmp !in faults
  }

  /** One table's query succeeds, and so does its ZADD, which is made only when the query returned rows. */
  predicate StageOk(rows: seq<Row>, select: HydrateStep, fill: HydrateStep, faults: set<HydrateStep>) {
    select !in faults && (|rows| > 0 ==> fill !in faults)
  }

  /** The keys are cleared and the score table is staged. */
  predicate ScoreStaged(scoreRows: seq<Row>, faults: set<HydrateStep>) {
    Cleared(faults) && StageOk(scoreRows, SelectScoreRows, FillScoreTmp, faults)
  }

  /** The score stage succeeds, and so does the streak table's. */
  predicate BothStaged(scoreRows: seq<Row>, streakRows: seq<Row>, faults: set<HydrateStep>) {
    ScoreStaged(scoreRows, faults) && StageOk(streakRows, SelectStreakRows, FillStreakTmp, faults)
  }

  /**
    The score set is swapped in exactly when the score query returned rows
    and every call up to and including its RENAME succeeded. (With no rows
    the temporary key stays absent and RENAME fails with "no such key".)
  */
  predicate ScoreSwapped(scoreRows: seq<Row>, streakRows: seq<Row>, faults: set<HydrateStep>) {
    BothStaged(scoreRows, streakRows, faults) && |scoreRows| > 0 && RenameScore !in faults
  }

  /** The streak set is swapped in only after the score set, and only when its own rows exist. */
  predicate StreakSwapped(scoreRows: seq<Row>, streakRows: seq<Row>, faults: set<HydrateStep>) {
    ScoreSwapped(scoreRows, streakRows, faults) && |streakRows| > 0 && RenameStreak !in faults
  }

  /**
    What a hydration run leaves at the two temporary keys, going from
    `before` to `after`: a key whose DEL threw is as it was; a key that was
    cleared but whose stage did not complete is absent; a staged key that
    was not renamed holds its rows' set (absent when there were none); a
    renamed key is gone.
  */
  ghost predicate TemporariesAfter(before: map<string, SortedSet>, after: map<string, SortedSet>,
                                   scoreRows: seq<Row>, streakRows: seq<Row>, faults: set<HydrateStep>)
  {
    && (DeleteScoreTmp in faults ==>
          (ScoreTmp in after <==> ScoreTmp in before) && SetAt(after, ScoreTmp) == SetAt(before, ScoreTmp))
    && (DeleteScoreTmp !in faults && !ScoreStaged(scoreRows, faults) ==> ScoreTmp !in after)
    && (ScoreStaged(scoreRows, faults) && !ScoreSwapped(scoreRows, streakRows, faults) ==>
          (ScoreTmp in after <==> |scoreRows| > 0) && SetAt(after, ScoreTmp) == RowsToSet(scoreRows))
    && (ScoreSwapped(scoreRows, streakRows, faults) ==> ScoreTmp !in after)
    && (!Cleared(faults) ==>
          (StreakTmp in after <==> StreakTmp in before) && SetAt(after, StreakTmp) == SetAt(before, StreakTmp))
    && (Cleared(faults) && !BothStaged(scoreRows, streakRows, faults) ==> StreakTmp !in after)
    && (BothStaged(scoreRows, streakRows, faults) && !StreakSwapped(scoreRows, streakRows, faults) ==>
          (StreakTmp in after <==> |streakRows| > 0) && SetAt(after, StreakTmp) == RowsToSet(streakRows))
    && (StreakSwapped(scoreRows, streakRows, faults) ==> StreakTmp !in after)
  }

  class LeaderboardStore {
    /** The leaderboard_score table: user_id to total_score. */
    var scoreTable: map<string, int>
    /** The leaderboard_streak table: user_id to max_streak. */
    var streakTable: map<string, int>
    /** The Redis sorted sets, by key. */
    var keyspace: map<string, SortedSet>
    /** The messages published on the updates channel, oldest first. */
    var published: seq<Event>

    ghost predicate Valid()
      reads this
    {
      forall k :: k in keyspace ==> |keyspace[k]| > 0
    }

    /** Both live sets mirror their tables. */
    ghost predicate Synced()
      reads this
    {
      SetAt(keyspace, ScoreSet) == scoreTable && SetAt(keyspace, StreakSet) == streakTable
    }

    /** Both live sets mirror their tables, except perhaps at one member. */
    ghost predicate SyncedExcept(userId: string)
      reads this
    {
      && SetAt(keyspace, ScoreSet) - {userId} == scoreTable - {userId}
      && SetAt(keyspace, StreakSet) - {userId} == streakTable - {userId}
    }

    constructor ()
      ensures Valid() && Synced()
      ensures scoreTable == map[] && streakTable == map[] && keyspace == map[] && published == []
    {
      scoreTable := map[];
      streakTable := map[];
      keyspace := map[];
      published := [];
    }

    /** updateLeaderboardRows: upserts the user's total score and best streak. */
    method UpdateLeaderboardRows(userId: string, totalScore: int, maxStreak: int)
      modifies this
      ensures scoreTable == old(scoreTable)[userId := totalScore]
      ensures streakTable == old(streakTable)[userId := maxStreak]
      ensures keyspace == old(keyspace) && published == old(published)
    {
      scoreTable := scoreTable[userId := totalScore];
      streakTable := streakTable[userId := maxStreak];
    }

    /** ZADD key score member, the score given as decimal text. */
    method ZAdd(key: string, scoreText: string, member: string)
      requires Valid() && IsIntegerText(scoreText)
      modifies this
      ensures Valid()
      ensures keyspace == old(keyspace)[key := SetAt(old(keyspace), key)[member := ParseInt(scoreText)]]
      ensures scoreTable == old(scoreTable) && streakTable == old(streakTable) && published == old(published)
    {
      keyspace := keyspace[key := SetAt(keyspace, key)[member := ParseInt(scoreText)]];
    }

    /**
      updateLeaderboardCache: writes the user's total score and best streak
      into the two live sets, then publishes one update carrying both.
      `faults` names the calls that throw; the first one ends the call, so
      the writes before it stay and the ones after it are not made.
    */
    method UpdateLeaderboardCache(userId: string, totalScore: int, maxStreak: int, faults: set<CacheStep>)
      returns (ok: bool)
      requires Valid()
      modifies this
      ensures Valid()
      ensures ok <==> AddScore !in faults && AddStreak !in faults && PublishUpdate !in faults
      ensures keyspace == CacheWritten(old(keyspace), userId, totalScore, maxStreak, faults)
      ensures published == old(published) + (if ok then [Event(userId, totalScore, maxStreak)] else [])
      ensures scoreTable == old(scoreTable) && streakTable == old(streakTable)
    {
      ParseIntToString(totalScore);
      ParseIntToString(maxStreak);
      if AddScore in faults { return false; }
      ZAdd(ScoreSet, IntToString(totalScore), userId);
      if AddStreak in faults { return false; }
      ZAdd(StreakSet, IntToString(maxStreak), userId);
      if PublishUpdate in faults { return false; }
      published := published + [Event(userId, totalScore, maxStreak)];
      ok := true;
    }

    /**
      The answer path's two writes: the rows inside the transaction, then
      the cache after it commits. The rows always take the new values.
      When the cache mirrored the tables before and every cache call
      succeeds, it still does; when a cache call throws, the sets can be
      stale only at this user's member, until the next hydration.
    */
    method RecordResult(userId: string, totalScore: int, maxStreak: int, faults: set<CacheStep>)
      returns (cacheOk: bool)
      requires Valid()
      modifies this
      ensures Valid()
      ensures scoreTable == old(scoreTable)[userId := totalScore]
      ensures streakTable == old(streakTable)[userId := maxStreak]
      ensures cacheOk <==> AddScore !in faults && AddStreak !in faults && PublishUpdate !in faults
      ensures keyspace == CacheWritten(old(keyspace), userId, totalScore, maxStreak, faults)
      ensures cacheOk && old(Synced()) ==> Synced()
      ensures old(Synced()) ==> SyncedExcept(userId)
      ensures published == old(published) + (if cacheOk then [Event(userId, totalScore, maxStreak)] else [])
    {
      UpdateLeaderboardRows(userId, totalScore, maxStreak);
      ghost var before := keyspace;
      cacheOk := UpdateLeaderboardCache(userId, totalScore, maxStreak, faults);
      CacheWrittenSets(before, userId, totalScore, maxStreak, faults);
      if old(Synced()) {
        StaleAtMostAt(SetAt(before, ScoreSet), scoreTable, old(scoreTable), userId, totalScore, AddScore !in faults);
        StaleAtMostAt(SetAt(before, StreakSet), streakTable, old(streakTable), userId, maxStreak,
                      AddScore !in faults && AddStreak !in faults);
      }
    }

    /**
      getLeaderboard: the first RangeLength(n, limit) members in descending
      order, each with its score read back from the reply text and its
      1-based position as rank.
    */
    method GetLeaderboard(board: Board, limit: int, order: seq<string>) returns (entries: seq<Entry>)
      requires IsRevOrder(SetAt(keyspace, SetKey(board)), order)
      ensures |entries| == RangeLength(|order|, limit)
      ensures forall k :: 0 <= k < |entries| ==>
                entries[k] == Entry(order[k], SetAt(keyspace, SetKey(board))[order[k]], k + 1)
      ensures forall i, j :: 0 <= i < j < |entries| ==> entries[i].score >= entries[j].score
    {
      var s := SetAt(keyspace, SetKey(board));
      var members := order[..RangeLength(|order|, limit)];
      var raw := FlatReply(s, members);
      ReplyScoresParse(s, members);
      entries := ParseReply(raw);
      RankedPrefix(s, order, entries);
    }

    /** getUserRank: the 1-based position of the member in descending order, or null when absent. */
    function GetUserRank(userId: string, board: Board, order: seq<string>): (rank: Option<int>)
      reads this
      requires IsRevOrder(SetAt(keyspace, SetKey(board)), order)
      ensures rank.None? <==> userId !in SetAt(keyspace, SetKey(board))
      ensures rank.Some? ==> 1 <= rank.value <= |order| && order[rank.value - 1] == userId
    {
      match IndexOf(order, userId)
      case None => None
      case Some(i) => Some(i + 1)
    }

    /**
      getLeaderboard and getUserRank agree: the member listed at position k
      (0-based) of the descending order has rank k + 1.
    */
    lemma RankOfListed(board: Board, order: seq<string>, k: nat)
      requires IsRevOrder(SetAt(keyspace, SetKey(board)), order) && k < |order|
      ensures GetUserRank(order[k], board, order) == Some(k + 1)
    {
      IndexOfDistinct(order, k);
    }

    /** getScoreRankFromDb: 1 + the number of users whose total score is strictly higher. */
    function ScoreRankFromDb(totalScore: int): (rank: int)
      reads this
      ensures 1 <= rank <= |scoreTable| + 1
      ensures rank == 1 <==> forall u :: u in scoreTable ==> scoreTable[u] <= totalScore
    {
      RankAbove(scoreTable, totalScore)
    }

    /** getStreakRankFromDb: 1 + the number of users whose best streak is strictly higher. */
    function StreakRankFromDb(maxStreak: int): (rank: int)
      reads this
      ensures 1 <= rank <= |streakTable| + 1
      ensures rank == 1 <==> forall u :: u in streakTable ==> streakTable[u] <= maxStreak
    {
      RankAbove(streakTable, maxStreak)
    }

    /** RENAME src dst: moves the set, or fails with "no such key" when src is absent. */
    method Rename(src: string, dst: string) returns (ok: bool)
      requires Valid()
      modifies this
      ensures Valid()
      ensures ok <==> src in old(keyspace)
      ensures ok ==> keyspace == (old(keyspace) - {src})[dst := old(keyspace)[src]]
      ensures !ok ==> keyspace == old(keyspace)
      ensures scoreTable == old(scoreTable) && streakTable == old(streakTable) && published == old(published)
    {
      if src !in keyspace {
        return false;
      }
      keyspace := (keyspace - {src})[dst := keyspace[src]];
      ok := true;
    }

    /** The two DELs of the temporary keys; the first failure stops the rest. */
    method DeleteTemporaries(faults: set<HydrateStep>) returns (ok: bool)
      requires Valid()
      modifies this
      ensures Valid()
      ensures ok <==> Cleared(faults)
      ensures DeleteScoreTmp in faults ==> keyspace == old(keyspace)
      ensures DeleteScoreTmp !in faults && DeleteStreakTmp in faults ==> keyspace == old(keyspace) - {ScoreTmp}
      ensures ok ==> keyspace == old(keyspace) - {ScoreTmp, StreakTmp}
      ensures keyspace - {ScoreTmp, StreakTmp} == old(keyspace) - {ScoreTmp, StreakTmp}
      ensures scoreTable == old(scoreTable) && streakTable == old(streakTable) && published == old(published)
    {
      if DeleteScoreTmp in faults { return false; }
      keyspace := keyspace - {ScoreTmp};
      if DeleteStreakTmp in faults { return false; }
      keyspace := keyspace - {StreakTmp};
      ok := true;
    }

    /**
      One table's query and ZADD into its temporary key. ZADD merges the
      rows into whatever the key holds; it is skipped when the query
      returns no rows, so the key then stays as it was.
    */
    method Stage(tmp: string, rows: seq<Row>, selectFails: bool, fillFails: bool) returns (ok: bool)
      requires Valid()
      modifies this
      ensures Valid()
      ensures ok <==> !selectFails && (|rows| > 0 ==> !fillFails)
      ensures ok && |rows| > 0 ==> keyspace == old(keyspace)[tmp := SetAt(old(keyspace), tmp) + RowsToSet(rows)]
      ensures !(ok && |rows| > 0) ==> keyspace == old(keyspace)
      ensures scoreTable == old(scoreTable) && streakTable == old(streakTable) && published == old(published)
    {
      if selectFails { return false; }
      if |rows| > 0 {
        if fillFails { return false; }
        assert rows[0].userId in RowsToSet(rows);
        keyspace := keyspace[tmp := SetAt(keyspace, tmp) + RowsToSet(rows)];
      }
      ok := true;
    }

    /**
      The staging phase on freshly cleared temporary keys: each table's
      query and ZADD into its temporary key, the score table first; the
      first failure stops the rest.
    */
    method StageBoth(scoreRows: seq<Row>, streakRows: seq<Row>, faults: set<HydrateStep>) returns (ok: bool)
      requires Valid()
      requires ScoreTmp !in keyspace && StreakTmp !in keyspace
      modifies this
      ensures Valid()
      ensures ok <==> StageOk(scoreRows, SelectScoreRows, FillScoreTmp, faults)
                      && StageOk(streakRows, SelectStreakRows, FillStreakTmp, faults)
      ensures keyspace == Staged(old(keyspace), scoreRows, streakRows, faults)
      ensures scoreTable == old(scoreTable) && streakTable == old(streakTable) && published == old(published)
    {
      StageIntoAbsent(keyspace, ScoreTmp, RowsToSet(scoreRows));
      ok := Stage(ScoreTmp, scoreRows, SelectScoreRows in faults, FillScoreTmp in faults);
      if ok {
        KeysDistinct();
        ghost var staged := keyspace;
        assert StreakTmp !in staged;
        StageIntoAbsent(staged, StreakTmp, RowsToSet(streakRows));
        ok := Stage(StreakTmp, streakRows, SelectStreakRows in faults, FillStreakTmp in faults);
      }
    }

    /**
      The two RENAMEs, score set first. A rename fails when its temporary
      key is absent; a failure, or a fault, stops the rest.
    */
    method SwapIn(renameScoreFails: bool, renameStreakFails: bool) returns (scoreSwapped: bool, streakSwapped: bool)
      requires Valid()
      modifies this
      ensures Valid()
      ensures scoreSwapped <==> !renameScoreFails && ScoreTmp in old(keyspace)
      ensures streakSwapped <==> scoreSwapped && !renameStreakFails && StreakTmp in old(keyspace)
      ensures keyspace - HydrateKeys() == old(keyspace) - HydrateKeys()
      ensures !scoreSwapped ==> keyspace == old(keyspace)
      ensures scoreSwapped ==> ScoreSet in keyspace && keyspace[ScoreSet] == old(keyspace)[ScoreTmp] && ScoreTmp !in keyspace
      ensures streakSwapped ==> StreakSet in keyspace && keyspace[StreakSet] == old(keyspace)[StreakTmp] && StreakTmp !in keyspace
      ensures scoreSwapped && !streakSwapped ==>
                && (StreakSet in keyspace <==> StreakSet in old(keyspace)) && SetAt(keyspace, StreakSet) == SetAt(old(keyspace), StreakSet)
                && (StreakTmp in keyspace <==> StreakTmp in old(keyspace)) && SetAt(keyspace, StreakTmp) == SetAt(old(keyspace), StreakTmp)
      ensures scoreTable == old(scoreTable) && streakTable == old(streakTable) && published == old(published)
    {
      KeysDistinct();
      streakSwapped := false;
      if renameScoreFails {
        return false, false;
      }
      scoreSwapped := Rename(ScoreTmp, ScoreSet);
      if !scoreSwapped { return; }
      MoveInside(old(keyspace), ScoreTmp, ScoreSet, HydrateKeys());
      ghost var swapped := keyspace;
      assert StreakTmp in old(keyspace) <==> StreakTmp in swapped;
      assert SetAt(swapped, StreakTmp) == SetAt(old(keyspace), StreakTmp);
      if renameStreakFails { return; }
      streakSwapped := Rename(StreakTmp, StreakSet);
      assert keyspace[ScoreSet] == swapped[ScoreSet];
      if streakSwapped {
        MoveInside(swapped, StreakTmp, StreakSet, HydrateKeys());
        assert keyspace[StreakSet] == swapped[StreakTmp];
      }
    }

    /**
      The body of hydrateLeaderboardCache's try block: clear the temporary
      keys, fill them from `scoreRows` and `streakRows` (what the two
      queries return), then RENAME them over the live sets. `faults` names
      the calls that throw; the first failure ends the rebuild and is
      swallowed, so a live set is either untouched or wholly replaced, and
      the temporary keys hold what the steps that ran left there.
    */
    method Rebuild(scoreRows: seq<Row>, streakRows: seq<Row>, faults: set<HydrateStep>)
      requires Valid()
      modifies this
      ensures Valid()
      ensures scoreTable == old(scoreTable) && streakTable == old(streakTable) && published == old(published)
      ensures keyspace - HydrateKeys() == old(keyspace) - HydrateKeys()
      ensures ScoreSwapped(scoreRows, streakRows, faults) ==>
                ScoreSet in keyspace && keyspace[ScoreSet] == RowsToSet(scoreRows)
      ensures !ScoreSwapped(scoreRows, streakRows, faults) ==>
                (ScoreSet in keyspace <==> ScoreSet in old(keyspace)) && SetAt(keyspace, ScoreSet) == SetAt(old(keyspace), ScoreSet)
      ensures StreakSwapped(scoreRows, streakRows, faults) ==>
                StreakSet in keyspace && keyspace[StreakSet] == RowsToSet(streakRows)
      ensures !StreakSwapped(scoreRows, streakRows, faults) ==>
                (StreakSet in keyspace <==> StreakSet in old(keyspace)) && SetAt(keyspace, StreakSet) == SetAt(old(keyspace), StreakSet)
      ensures TemporariesAfter(old(keyspace), keyspace, scoreRows, streakRows, faults)
    {
      KeysDistinct();
      var ok := DeleteTemporaries(faults);
      KeptOutside(old(keyspace), keyspace, {ScoreTmp, StreakTmp}, ScoreSet);
      KeptOutside(old(keyspace), keyspace, {ScoreTmp, StreakTmp}, StreakSet);
      DropMore(old(keyspace), keyspace, {ScoreTmp, StreakTmp}, HydrateKeys());
      if !ok { return; }
      ghost var cleared := keyspace;
      ok := StageBoth(scoreRows, streakRows, faults);
      StagedKeys(cleared, scoreRows, streakRows, faults);
      KeptOutside(cleared, keyspace, {ScoreTmp, StreakTmp}, ScoreSet);
      KeptOutside(cleared, keyspace, {ScoreTmp, StreakTmp}, StreakSet);
      DropMore(cleared, keyspace, {ScoreTmp, StreakTmp}, HydrateKeys());
      if !ok { return; }
      var scoreSwapped, streakSwapped := SwapIn(RenameScore in faults, RenameStreak in faults);
    }

    /**
      hydrateLeaderboardCache, with the queries' rows being the top 200 rows
      of each table: a live set that is swapped in holds exactly the top
      min(n, 200) rows of its table, with their values; one that is not is
      left as it was; the temporary keys end as TemporariesAfter says; no
      other key changes. A full swap of tables of at most 200 rows leaves
      the cache in sync with them.
    */
    method Hydrate(scoreRows: seq<Row>, streakRows: seq<Row>, faults: set<HydrateStep>)
      requires Valid()
      requires IsTopRows(scoreTable, scoreRows) && IsTopRows(streakTable, streakRows)
      modifies this
      ensures Valid()
      ensures scoreTable == old(scoreTable) && streakTable == old(streakTable) && published == old(published)
      ensures keyspace - HydrateKeys() == old(keyspace) - HydrateKeys()
      ensures ScoreSwapped(scoreRows, streakRows, faults) ==> ScoreSet in keyspace && IsTopSet(scoreTable, keyspace[ScoreSet])
      ensures !ScoreSwapped(scoreRows, streakRows, faults) ==> SetAt(keyspace, ScoreSet) == SetAt(old(keyspace), ScoreSet)
      ensures StreakSwapped(scoreRows, streakRows, faults) ==> StreakSet in keyspace && IsTopSet(streakTable, keyspace[StreakSet])
      ensures !StreakSwapped(scoreRows, streakRows, faults) ==> SetAt(keyspace, StreakSet) == SetAt(old(keyspace), StreakSet)
      ensures TemporariesAfter(old(keyspace), keyspace, scoreRows, streakRows, faults)
      ensures StreakSwapped(scoreRows, streakRows, faults) && |scoreTable| <= HydrateLimit && |streakTable| <= HydrateLimit ==>
                Synced()
    {
      HydratedSetIsTop(scoreTable, scoreRows);
      HydratedSetIsTop(streakTable, streakRows);
      Rebuild(scoreRows, streakRows, faults);
      if StreakSwapped(scoreRows, streakRows, faults) && |scoreTable| <= HydrateLimit && |streakTable| <= HydrateLimit {
        TopSetOfSmallTable(scoreTable, keyspace[ScoreSet]);
        TopSetOfSmallTable(streakTable, keyspace[StreakSet]);
      }
    }
  }
}
