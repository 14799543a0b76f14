/**
  The rank engine (lib/leaderboard.ts) over an abstract population of users.

  The population is a sequence of members in storage order. A query sorted by
  points descending returns some `view` of it: a permutation whose points are
  non-increasing, with ties in whatever order storage yields. Every result that
  depends on the view is proved to depend only on the population's points.
*/
module Leaderboard {
  import opened Wrappers
  import Users

  /** The projection of a stored user the rank engine reads. */
  datatype Member = Member(privyDid: string, username: string, pfpUrl: Option<string>, points: int)

  datatype Entry = Entry(rank: int, username: string, pfpUrl: Option<string>, points: int)

  /** The projection of a stored record: the fields the rank queries read. */
  function MemberOf(u: Users.User): Member {
    Member(u.privyDid, u.username, u.pfpUrl, u.points)
  }

  /** `order` is how storage enumerates the store in `find({})`: every stored DID exactly once. */
  predicate IsStorageOrder(users: map<string, Users.User>, order: seq<string>) {
    && (forall i | 0 <= i < |order| :: order[i] in users)
    && (forall d | d in users :: d in order)
    && (forall i, j | 0 <= i < j < |order| :: order[i] != order[j])
  }

  /** The population of a store: one member per stored record, in the storage order `order`. */
  function Population(users: map<string, Users.User>, order: seq<string>): (pop: seq<Member>)
    requires IsStorageOrder(users, order)
    ensures |pop| == |order|
    ensures forall i | 0 <= i < |order| :: pop[i] == MemberOf(users[order[i]]) && pop[i].points == users[order[i]].points
  {
    seq(|order|, i requires 0 <= i < |order| => MemberOf(users[order[i]]))
  }

  /** In a store whose records carry their own DID, `getUserRank` finds exactly the stored
      users: 0 for a DID with no record, and otherwise one more than the number of users
      with more points than that record. */
  lemma RankedIffStored(users: map<string, Users.User>, order: seq<string>, did: string)
    requires IsStorageOrder(users, order)
    requires forall d | d in users :: users[d].privyDid == d
    ensures did !in users ==> FindMember(Population(users, order), did).None?
    ensures did in users ==> FindMember(Population(users, order), did) == Some(MemberOf(users[did]))
    ensures UserRank(Population(users, order), did) == 0 <==> did !in users
    ensures did in users ==>
      UserRank(Population(users, order), did) == CountAbove(Population(users, order), users[did].points) + 1
  {
  }

  /** A wallet update changes no field the rank queries read: the population, and with it
      every rank, cutoff and leaderboard, is the same before and after. */
  lemma WalletUpdateKeepsRanks(users: map<string, Users.User>, did: string, wallet: string, order: seq<string>)
    requires IsStorageOrder(users, order)
    ensures var users' := if did in users then users[did := users[did].(walletAddress := Some(wallet))] else users;
      && IsStorageOrder(users', order)
      && Population(users', order) == Population(users, order)
      && forall d :: UserRank(Population(users', order), d) == UserRank(Population(users, order), d)
  {
    var users' := if did in users then users[did := users[did].(walletAddress := Some(wallet))] else users;
    assert users'.Keys == users.Keys;
    assert forall i | 0 <= i < |order| :: MemberOf(users'[order[i]]) == MemberOf(users[order[i]]);
  }

  // ---------------------------------------------------------------------------
  // Counting
  // ---------------------------------------------------------------------------

  /** `countDocuments({ points: { $gt: v } })`: members with strictly more than `v` points.
      Members with at least `v` points are `CountAbove(s, v - 1)`. */
  function CountAbove(s: seq<Member>, v: int): (n: nat)
    ensures n <= |s|
    decreases |s|
  {
    if s == [] then 0 else (if s[0].points > v then 1 else 0) + CountAbove(s[1..], v)
  }

  lemma {:induction false} CountAboveAppend(s: seq<Member>, t: seq<Member>, v: int)
    ensures CountAbove(s + t, v) == CountAbove(s, v) + CountAbove(t, v)
    decreases |s|
  {
    if s == [] {
      assert s + t == t;
    } else {
      assert (s + t)[1..] == s[1..] + t;
      CountAboveAppend(s[1..], t, v);
    }
  }

  /** A higher threshold never counts more members. */
  lemma {:induction false} CountAboveAntitone(s: seq<Member>, lo: int, hi: int)
    ensures lo <= hi ==> CountAbove(s, hi) <= CountAbove(s, lo)
    decreases |s|
  {
    if s != [] {
      CountAboveAntitone(s[1..], lo, hi);
    }
  }

  /** A member with points in `(lo, hi]` is counted above `lo` but not above `hi`. */
  lemma {:induction false} CountAboveStrict(s: seq<Member>, lo: int, hi: int, i: int)
    requires 0 <= i < |s| && lo < s[i].points <= hi
    ensures CountAbove(s, hi) < CountAbove(s, lo)
    decreases |s|
  {
    if i == 0 {
      CountAboveAntitone(s[1..], lo, hi);
    } else {
      CountAboveStrict(s[1..], lo, hi, i - 1);
    }
  }

  lemma {:induction false} CountAboveNone(s: seq<Member>, v: int)
    requires forall i | 0 <= i < |s| :: s[i].points <= v
    ensures CountAbove(s, v) == 0
    decreases |s|
  {
    if s != [] {
      CountAboveNone(s[1..], v);
    }
  }

  lemma {:induction false} CountAboveAll(s: seq<Member>, v: int)
    requires forall i | 0 <= i < |s| :: s[i].points > v
    ensures CountAbove(s, v) == |s|
    decreases |s|
  {
    if s != [] {
      CountAboveAll(s[1..], v);
    }
  }

  /** A member with at most `v` points keeps the count below the population size. */
  lemma {:induction false} CountAboveMissesOne(s: seq<Member>, v: int, i: int)
    requires 0 <= i < |s| && s[i].points <= v
    ensures CountAbove(s, v) < |s|
    decreases |s|
  {
    if i > 0 {
      CountAboveMissesOne(s[1..], v, i - 1);
    }
  }

  /** Taking one member out of a sequence. */
  lemma RemoveAt(b: seq<Member>, j: int, v: int)
    requires 0 <= j < |b|
    ensures multiset(b) == multiset(b[..j] + b[j + 1..]) + multiset{b[j]}
    ensures CountAbove(b, v) == CountAbove(b[..j] + b[j + 1..], v) + (if b[j].points > v then 1 else 0)
  {
    assert b == b[..j] + [b[j]] + b[j + 1..];
    CountAboveAppend(b[..j] + [b[j]], b[j + 1..], v);
    CountAboveAppend(b[..j], [b[j]], v);
    CountAboveAppend(b[..j], b[j + 1..], v);
  }

  /** The count depends only on the multiset of members, not on their order. */
  lemma {:induction false} CountAbovePermutation(a: seq<Member>, b: seq<Member>, v: int)
    requires multiset(a) == multiset(b)
    ensures CountAbove(a, v) == CountAbove(b, v)
    decreases |a|
  {
    if a != [] {
      assert a == [a[0]] + a[1..];
      assert a[0] in multiset(b);
      var j :| 0 <= j < |b| && b[j] == a[0];
      var rest := b[..j] + b[j + 1..];
      RemoveAt(b, j, v);
      assert multiset(a) == multiset(a[1..]) + multiset{a[0]};
      assert multiset(a[1..]) == multiset(a) - multiset{a[0]};
      assert multiset(rest) == multiset(b) - multiset{b[j]};
      CountAbovePermutation(a[1..], rest, v);
    }
  }

  // ---------------------------------------------------------------------------
  // Sorted views and cutoffs
  // ---------------------------------------------------------------------------

  predicate NonIncreasing(s: seq<Member>) {
    forall i, j | 0 <= i < j < |s| :: s[i].points >= s[j].points
  }

  /** `find({}).sort({ points: -1 })`: a permutation of the population, highest first. */
  predicate SortedView(pop: seq<Member>, view: seq<Member>) {
    multiset(view) == multiset(pop) && NonIncreasing(view)
  }

  predicate NonNegativePoints(pop: seq<Member>) {
    forall m | m in pop :: m.points >= 0
  }

  /** `v` is the `rank`-th largest value among the population's points: fewer than `rank`
      members are above it and at least `rank` members reach it. */
  predicate IsRankValue(pop: seq<Member>, rank: int, v: int) {
    CountAbove(pop, v) < rank <= CountAbove(pop, v - 1)
  }

  lemma RankValueUnique(pop: seq<Member>, rank: int, v1: int, v2: int)
    requires IsRankValue(pop, rank, v1) && IsRankValue(pop, rank, v2)
    ensures v1 == v2
  {
    CountAboveAntitone(pop, v1, v2 - 1);
    CountAboveAntitone(pop, v2, v1 - 1);
  }

  lemma SortedViewLength(pop: seq<Member>, view: seq<Member>)
    requires SortedView(pop, view)
    ensures |view| == |pop|
  {
    assert |multiset(view)| == |multiset(pop)|;
  }

  /** In a non-increasing sequence, the value at position `k` has at most `k` members
      above it and at least `k + 1` members reaching it. */
  lemma SortedPosition(view: seq<Member>, k: int)
    requires NonIncreasing(view) && 0 <= k < |view|
    ensures CountAbove(view, view[k].points) <= k
    ensures CountAbove(view, view[k].points - 1) >= k + 1
  {
    var v := view[k].points;
    assert view == view[..k] + view[k..];
    CountAboveAppend(view[..k], view[k..], v);
    CountAboveNone(view[k..], v);
    assert view == view[..k + 1] + view[k + 1..];
    CountAboveAppend(view[..k + 1], view[k + 1..], v - 1);
    CountAboveAll(view[..k + 1], v - 1);
  }

  /** `getCutoffPoints(rank)`: the points at position `rank` of the sorted view, or 0. */
  function CutoffPoints(pop: seq<Member>, view: seq<Member>, rank: int): (c: int)
    requires SortedView(pop, view) && rank >= 1
    ensures rank <= |pop| ==> IsRankValue(pop, rank, c)
    ensures rank > |pop| ==> c == 0
  {
    SortedViewLength(pop, view);
    if rank - 1 < |view| then
      var v := view[rank - 1].points;
      SortedPosition(view, rank - 1);
      CountAbovePermutation(view, pop, v);
      CountAbovePermutation(view, pop, v - 1);
      v
    else 0
  }

  /** How storage breaks ties does not change any cutoff. */
  lemma CutoffIndependentOfTies(pop: seq<Member>, view1: seq<Member>, view2: seq<Member>, rank: int)
    requires SortedView(pop, view1) && SortedView(pop, view2) && rank >= 1
    ensures CutoffPoints(pop, view1, rank) == CutoffPoints(pop, view2, rank)
  {
    if rank <= |pop| {
      RankValueUnique(pop, rank, CutoffPoints(pop, view1, rank), CutoffPoints(pop, view2, rank));
    }
  }

  lemma SortedViewNonNegative(pop: seq<Member>, view: seq<Member>, i: int)
    requires SortedView(pop, view) && NonNegativePoints(pop) && 0 <= i < |view|
    ensures view[i].points >= 0
  {
    assert view[i] in multiset(view);
  }

  /** Lower ranks never have higher cutoffs (points being non-negative). */
  lemma CutoffNonIncreasing(pop: seq<Member>, view: seq<Member>, r1: int, r2: int)
    requires SortedView(pop, view) && NonNegativePoints(pop) && 1 <= r1 <= r2
    ensures CutoffPoints(pop, view, r1) >= CutoffPoints(pop, view, r2)
  {
    SortedViewLength(pop, view);
    if r1 <= |view| {
      SortedViewNonNegative(pop, view, r1 - 1);
    }
  }

  // ---------------------------------------------------------------------------
  // Ranks
  // ---------------------------------------------------------------------------

  /** `findOne({ privyDid })`: the first member with that DID. */
  function FindMember(pop: seq<Member>, did: string): (r: Option<Member>)
    ensures r.Some? <==> exists i | 0 <= i < |pop| :: pop[i].privyDid == did
    ensures r.Some? ==> r.value in pop && r.value.privyDid == did
    decreases |pop|
  {
    if pop == [] then None
    else if pop[0].privyDid == did then Some(pop[0])
    else
      var r := FindMember(pop[1..], did);
      assert forall i | 1 <= i < |pop| :: pop[i] == pop[1..][i - 1];
      r
  }

  /** The rank a member with `p` points holds: one more than the members above it. */
  function RankOfPoints(pop: seq<Member>, p: int): int {
    CountAbove(pop, p) + 1
  }

  /** `getUserRank`: 0 for an unknown user, else 1 + the number of users with more points. */
  function UserRank(pop: seq<Member>, did: string): (r: int)
    ensures r == 0 <==> FindMember(pop, did).None?
    ensures r != 0 ==> 1 <= r <= |pop|
  {
    match FindMember(pop, did)
    case None => 0
    case Some(u) =>
      var i :| 0 <= i < |pop| && pop[i] == u;
      CountAboveMissesOne(pop, u.points, i);
      RankOfPoints(pop, u.points)
  }

  /** Equal points give equal rank; strictly more points give a strictly better rank. */
  lemma RankAntitone(pop: seq<Member>, d1: string, d2: string)
    requires FindMember(pop, d1).Some? && FindMember(pop, d2).Some?
    ensures var p1 := FindMember(pop, d1).value.points;
      var p2 := FindMember(pop, d2).value.points;
      && (p1 == p2 ==> UserRank(pop, d1) == UserRank(pop, d2))
      && (p1 > p2 ==> UserRank(pop, d1) < UserRank(pop, d2))
  {
    var u1 := FindMember(pop, d1).value;
    var u2 := FindMember(pop, d2).value;
    if u1.points > u2.points {
      var i :| 0 <= i < |pop| && pop[i] == u1;
      CountAboveStrict(pop, u2.points, u1.points, i);
    }
  }

  /** Points {500, 500, 100} rank {1, 1, 3}. */
  lemma RankExample()
    ensures var pop := [Member("a", "a", None, 500), Member("b", "b", None, 500), Member("c", "c", None, 100)];
      UserRank(pop, "a") == 1 && UserRank(pop, "b") == 1 && UserRank(pop, "c") == 3
  {
  }

  /** The cutoff at a member's own rank is that member's points. */
  lemma CutoffAtOwnRank(pop: seq<Member>, view: seq<Member>, did: string)
    requires SortedView(pop, view) && FindMember(pop, did).Some?
    ensures CutoffPoints(pop, view, UserRank(pop, did)) == FindMember(pop, did).value.points
  {
    var u := FindMember(pop, did).value;
    var r := UserRank(pop, did);
    var i :| 0 <= i < |pop| && pop[i] == u;
    CountAboveStrict(pop, u.points - 1, u.points, i);
    RankValueUnique(pop, r, u.points, CutoffPoints(pop, view, r));
  }

  /** A member is within the top `n` exactly when their points reach the `n`-th cutoff
      (points being non-negative). */
  lemma RankWithinIffAtCutoff(pop: seq<Member>, view: seq<Member>, did: string, n: int)
    requires SortedView(pop, view) && NonNegativePoints(pop) && FindMember(pop, did).Some? && n >= 1
    ensures UserRank(pop, did) <= n <==> FindMember(pop, did).value.points >= CutoffPoints(pop, view, n)
  {
    var u := FindMember(pop, did).value;
    var c := CutoffPoints(pop, view, n);
    CountAboveAntitone(pop, u.points, c - 1);
    CountAboveAntitone(pop, c, u.points);
  }

  // ---------------------------------------------------------------------------
  // The leaderboard
  // ---------------------------------------------------------------------------

  /** `getLeaderboard(limit)`: the first `limit` members of the sorted view (all of them when
      `limit` is 0), ranked by position. */
  function GetLeaderboard(pop: seq<Member>, view: seq<Member>, limit: nat := 10): (r: seq<Entry>)
    requires SortedView(pop, view)
    ensures |r| == if limit == 0 || limit > |pop| then |pop| else limit
    ensures |r| <= |view|
    ensures forall i | 0 <= i < |r| ::
      && r[i].rank == i + 1
      && r[i].points == CutoffPoints(pop, view, i + 1)
      && r[i].username == view[i].username && r[i].pfpUrl == view[i].pfpUrl
    ensures forall i, j | 0 <= i < j < |r| :: r[i].points >= r[j].points
  {
    SortedViewLength(pop, view);
    var top := if limit == 0 || limit >= |view| then view else view[..limit];
    seq(|top|, i requires 0 <= i < |top| => Entry(i + 1, top[i].username, top[i].pfpUrl, top[i].points))
  }

  /** In a non-increasing sequence, the value at position `k` has exactly `k` members above
      it when the previous value is strictly larger, and fewer when it ties. */
  lemma SortedPositionAfter(view: seq<Member>, k: int)
    requires NonIncreasing(view) && 0 < k < |view|
    ensures view[k - 1].points > view[k].points ==> CountAbove(view, view[k].points) == k
    ensures view[k - 1].points == view[k].points ==> CountAbove(view, view[k].points) < k
  {
    var v := view[k].points;
    assert view == view[..k - 1] + [view[k - 1]] + view[k..];
    CountAboveAppend(view[..k - 1] + [view[k - 1]], view[k..], v);
    CountAboveAppend(view[..k - 1], [view[k - 1]], v);
    CountAboveNone(view[k..], v);
    if view[k - 1].points > v {
      CountAboveAll(view[..k - 1], v);
    }
  }

  /** A leaderboard position never shows a better rank than `getUserRank` gives for the same
      points, and shows the same rank exactly when the entry above has strictly more points. */
  lemma LeaderboardRankVsUserRank(pop: seq<Member>, view: seq<Member>, limit: nat, i: int)
    requires SortedView(pop, view)
    requires 0 <= i < |GetLeaderboard(pop, view, limit)|
    ensures var r := GetLeaderboard(pop, view, limit);
      && RankOfPoints(pop, r[i].points) <= r[i].rank
      && (RankOfPoints(pop, r[i].points) == r[i].rank <==> i == 0 || r[i - 1].points > r[i].points)
  {
    SortedViewLength(pop, view);
    var v := view[i].points;
    SortedPosition(view, i);
    CountAbovePermutation(view, pop, v);
    if i > 0 {
      SortedPositionAfter(view, i);
    }
  }

  // ---------------------------------------------------------------------------
  // Rewards
  // ---------------------------------------------------------------------------

  datatype Tier = Unranked | Pass25 | Pass5 | LotteryOnly

  function TierLabel(t: Tier): string {
    match t
    case Unranked => "Unranked"
    case Pass25 => "$25 Pass"
    case Pass5 => "$5 Pass"
    case LotteryOnly => "Lottery Only"
  }

  /** `getRewardTier`: rank 0 is unranked, then the bands up to 100, up to 500, beyond. */
  function RewardTier(rank: int): (t: Tier)
    ensures t.Unranked? <==> rank == 0
    ensures t.Pass25? <==> rank != 0 && rank <= 100
    ensures t.Pass5? <==> 100 < rank <= 500
    ensures t.LotteryOnly? <==> 500 < rank
  {
    if rank == 0 then Unranked
    else if rank <= 100 then Pass25
    else if rank <= 500 then Pass5
    else LotteryOnly
  }

  /** Better tiers have smaller values. */
  function TierOrder(t: Tier): nat {
    match t
    case Pass25 => 0
    case Pass5 => 1
    case LotteryOnly => 2
    case Unranked => 3
  }

  /** Among ranked users, a better rank never gives a worse tier. */
  lemma TierMonotone(r1: int, r2: int)
    requires 1 <= r1 <= r2
    ensures TierOrder(RewardTier(r1)) <= TierOrder(RewardTier(r2))
  {
  }

  /** The published cutoffs decide the tiers: a user holds the $25 pass exactly when their
      points reach the 100th cutoff, and at least the $5 pass exactly when they reach the
      500th (points being non-negative). */
  lemma TierAgreesWithCutoffs(pop: seq<Member>, view: seq<Member>, did: string)
    requires SortedView(pop, view) && NonNegativePoints(pop) && FindMember(pop, did).Some?
    ensures var p := FindMember(pop, did).value.points;
      var t := RewardTier(UserRank(pop, did));
      && (t == Pass25 <==> p >= CutoffPoints(pop, view, 100))
      && (t == Pass25 || t == Pass5 <==> p >= CutoffPoints(pop, view, 500))
  {
    RankWithinIffAtCutoff(pop, view, did, 100);
    RankWithinIffAtCutoff(pop, view, did, 500);
  }

  /** `getLotteryTickets`: one ticket per full 500 points (`Math.floor`, so rounding toward
      negative infinity). */
  function LotteryTickets(points: int): (t: int)
    ensures 500 * t <= points < 500 * (t + 1)
  {
    points / 500
  }

  lemma LotteryMonotone(p1: int, p2: int)
    requires p1 <= p2
    ensures LotteryTickets(p1) <= LotteryTickets(p2)
  {
  }

  lemma LotteryExamples()
    ensures LotteryTickets(0) == 0 && LotteryTickets(499) == 0
    ensures LotteryTickets(500) == 1 && LotteryTickets(1999) == 3
  {
  }
}
