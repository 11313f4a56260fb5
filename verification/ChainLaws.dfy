/** What the chains are: one for each head, pairwise disjoint, determined by the records; together
    all the records exactly when `follows` is injective, acyclic and points to present records. */
module ChainLaws {
  import opened Text
  import opened Chain

  /** What `BuildChains` promises. */
  predicate AreChains(records: seq<Record>, chains: seq<seq<Record>>) {
    && |chains| == |Heads(records)|
    && forall i :: 0 <= i < |chains| ==> IsChain(records, chains[i]) && chains[i][0] == Heads(records)[i]
  }

  lemma {:induction false} HeadsDistinct(records: seq<Record>)
    requires DistinctIds(records)
    ensures DistinctIds(Heads(records))
  {
    if records != [] {
      var k := |records| - 1;
      HeadsDistinct(records[..k]);
      var before := Heads(records[..k]);
      forall i | 0 <= i < |before| ensures before[i].jobId != records[k].jobId {
        assert before[i] in records[..k];
      }
    }
  }

  /** A record is in at most one chain, and there only once. */
  lemma ChainsDisjoint(records: seq<Record>, chains: seq<seq<Record>>, i: nat, x: nat, j: nat, y: nat)
    requires DistinctIds(records) && AreChains(records, chains)
    requires i < |chains| && x < |chains[i]| && j < |chains| && y < |chains[j]| && chains[i][x] == chains[j][y]
    ensures i == j && x == y
  {
    HeadsDistinct(records);
    hide Heads, Followers, IsPath;
    assert IsChain(records, chains[i]) && IsChain(records, chains[j]);
    PathsMeetAtHeads(records, chains[i], chains[j], x, y);
    assert Heads(records)[i] == Heads(records)[j];
  }

  /** The records determine the chains. */
  lemma ChainsUnique(records: seq<Record>, a: seq<seq<Record>>, b: seq<seq<Record>>)
    requires AreChains(records, a) && AreChains(records, b)
    ensures a == b
  {
    hide Heads, Followers, IsPath;
    forall i | 0 <= i < |a| ensures a[i] == b[i] {
      assert IsChain(records, a[i]) && IsChain(records, b[i]);
      PathsAgree(Followers(records), a[i], b[i]);
    }
  }

  lemma {:induction false} AgreeUpTo(followers: map<Text, Record>, a: seq<Record>, b: seq<Record>, n: nat)
    requires a != [] && b != [] && a[0] == b[0] && IsPath(followers, a) && IsPath(followers, b)
    requires n < |a| && n < |b|
    ensures a[n] == b[n]
  {
    if n > 0 {
      AgreeUpTo(followers, a, b, n - 1);
      assert IsStep(followers, a, n) && IsStep(followers, b, n);
    }
  }

  lemma PathsAgree(followers: map<Text, Record>, a: seq<Record>, b: seq<Record>)
    requires a != [] && b != [] && a[0] == b[0] && IsPath(followers, a) && IsPath(followers, b)
    requires a[|a| - 1].jobId !in followers && b[|b| - 1].jobId !in followers
    ensures a == b
  {
    NotLonger(followers, a, b);
    NotLonger(followers, b, a);
    forall n | 0 <= n < |a| ensures a[n] == b[n] {
      AgreeUpTo(followers, a, b, n);
    }
  }

  lemma NotLonger(followers: map<Text, Record>, a: seq<Record>, b: seq<Record>)
    requires a != [] && b != [] && a[0] == b[0] && IsPath(followers, a) && IsPath(followers, b)
    requires a[|a| - 1].jobId !in followers
    ensures |b| <= |a|
  {
    var n := |a| - 1;
    if n < |b| {
      AgreeUpTo(followers, a, b, n);
    }
    assert n + 1 < |b| ==> IsStep(followers, b, n + 1);
  }

  // ---------------------------------------------------------------- when the chains are all the records

  /** Every `follows` names a record that is there. */
  predicate Present(records: seq<Record>) {
    forall r :: r in records && IsFollower(r) ==> exists p :: p in records && Follows(r, p.jobId)
  }

  predicate Injective(records: seq<Record>) {
    forall a, b :: a in records && b in records && IsFollower(a) && IsFollower(b) && a.follows == b.follows ==> a == b
  }

  /** Job ids can be ranked so that every record ranks above the one it follows. */
  ghost predicate Acyclic(records: seq<Record>) {
    exists rank: map<Text, nat> :: Ranks(records, rank)
  }

  predicate Ranks(records: seq<Record>, rank: map<Text, nat>) {
    && (forall r :: r in records ==> r.jobId in rank)
    && (forall p, r :: p in records && r in records && Follows(r, p.jobId) ==> rank[p.jobId] < rank[r.jobId])
  }

  ghost predicate Covered(records: seq<Record>, chains: seq<seq<Record>>) {
    forall r :: r in records ==> Occurs(chains, r)
  }

  ghost predicate Occurs(chains: seq<seq<Record>>, r: Record) {
    exists i, x :: 0 <= i < |chains| && 0 <= x < |chains[i]| && chains[i][x] == r
  }

  /** Acyclic and present: every record is reached from the head it leads back to. */
  lemma {:induction false} RankedIsCovered(records: seq<Record>, chains: seq<seq<Record>>, rank: map<Text, nat>, r: Record)
    requires AreChains(records, chains) && Present(records) && Injective(records) && Ranks(records, rank) && r in records
    ensures Occurs(chains, r)
    decreases rank[r.jobId]
  {
    if IsFollower(r) {
      var p :| p in records && Follows(r, p.jobId);
      RankedIsCovered(records, chains, rank, p);
      var i, x :| 0 <= i < |chains| && 0 <= x < |chains[i]| && chains[i][x] == p;
      assert IsChain(records, chains[i]);
      NextInChain(records, chains[i], x, r);
    } else {
      assert r in Heads(records);
      var i :| 0 <= i < |Heads(records)| && Heads(records)[i] == r;
      assert IsChain(records, chains[i]) && chains[i][0] == r;
    }
  }

  lemma NextInChain(records: seq<Record>, chain: seq<Record>, x: nat, r: Record)
    requires IsChain(records, chain) && Injective(records) && x < |chain| && r in records && Follows(r, chain[x].jobId)
    ensures x + 1 < |chain| && chain[x + 1] == r
  {
    assert chain[x].jobId in Followers(records);
    assert IsStep(Followers(records), chain, x + 1);
  }

  /** A follower that is in a chain is the one the index kept, and the record it follows is there. */
  lemma FollowerIsKept(records: seq<Record>, chains: seq<seq<Record>>, r: Record) returns (p: Record)
    requires AreChains(records, chains) && Covered(records, chains) && r in records && IsFollower(r)
    ensures p in records && Follows(r, p.jobId)
    ensures r.follows.value in Followers(records) && Followers(records)[r.follows.value] == r
  {
    hide Followers, Heads, AreChains, Covered;
    var i, x := Whereabouts(records, chains, r);
    PathIsFromRecords(records, chains[i], x - 1);
    assert IsStep(Followers(records), chains[i], x);
    p := chains[i][x - 1];
  }

  lemma CoveredIsInjective(records: seq<Record>, chains: seq<seq<Record>>)
    requires AreChains(records, chains) && Covered(records, chains)
    ensures Injective(records) && Present(records)
  {
    hide Followers, Heads, AreChains, Covered;
    forall r | r in records && IsFollower(r)
      ensures exists p :: p in records && Follows(r, p.jobId)
      ensures r.follows.value in Followers(records) && Followers(records)[r.follows.value] == r
    {
      var p := FollowerIsKept(records, chains, r);
    }
  }

  lemma Whereabouts(records: seq<Record>, chains: seq<seq<Record>>, r: Record) returns (i: nat, x: nat)
    requires AreChains(records, chains) && Covered(records, chains) && r in records
    ensures i < |chains| && x < |chains[i]| && chains[i][x] == r && IsChain(records, chains[i])
    ensures IsFollower(r) <==> x > 0
    ensures x > 0 ==> Follows(r, chains[i][x - 1].jobId)
  {
    hide Followers, Heads;
    assert Occurs(chains, r);
    i, x :| 0 <= i < |chains| && 0 <= x < |chains[i]| && chains[i][x] == r;
    assert IsChain(records, chains[i]);
    PathIsFromRecords(records, chains[i], x);
  }

  /** The place of a record in its chain is a rank. */
  lemma CoveredIsAcyclic(records: seq<Record>, chains: seq<seq<Record>>)
    requires DistinctIds(records) && AreChains(records, chains) && Covered(records, chains)
    ensures Acyclic(records)
  {
    hide Followers, Heads, AreChains, Covered, PlaceOf, DistinctIds;
    var rank := map id | id in Ids(records) :: PlaceOf(chains, id);
    forall p, r | p in records && r in records && Follows(r, p.jobId) ensures rank[p.jobId] < rank[r.jobId] {
      PlacesAscend(records, chains, p, r);
    }
    assert Ranks(records, rank);
  }

  lemma PlacesAscend(records: seq<Record>, chains: seq<seq<Record>>, p: Record, r: Record)
    requires DistinctIds(records) && AreChains(records, chains) && Covered(records, chains)
    requires p in records && r in records && Follows(r, p.jobId)
    ensures PlaceOf(chains, p.jobId) < PlaceOf(chains, r.jobId)
  {
    hide Followers, Heads, AreChains, Covered, PlaceOf, DistinctIds, IsChain;
    var i, x := Whereabouts(records, chains, r);
    PlaceIs(records, chains, i, x);
    PlaceIs(records, chains, i, x - 1);
  }

  ghost predicate IsPlace(chains: seq<seq<Record>>, id: Text, x: nat) {
    exists i :: 0 <= i < |chains| && x < |chains[i]| && chains[i][x].jobId == id
  }

  ghost function PlaceOf(chains: seq<seq<Record>>, id: Text): nat {
    if x: nat :| IsPlace(chains, id, x) then x else 0
  }

  lemma PlaceIs(records: seq<Record>, chains: seq<seq<Record>>, i: nat, x: nat)
    requires DistinctIds(records) && AreChains(records, chains) && i < |chains| && x < |chains[i]|
    ensures PlaceOf(chains, chains[i][x].jobId) == x
  {
    hide Followers, Heads, IsPath;
    var id := chains[i][x].jobId;
    assert IsPlace(chains, id, x);
    var y := PlaceOf(chains, id);
    assert IsPlace(chains, id, y);
    var j :| 0 <= j < |chains| && y < |chains[j]| && chains[j][y].jobId == id;
    assert IsChain(records, chains[i]) && IsChain(records, chains[j]);
    PathIsFromRecords(records, chains[i], x);
    PathIsFromRecords(records, chains[j], y);
    SameIdSameRecord(records, chains[i][x], chains[j][y]);
    ChainsDisjoint(records, chains, i, x, j, y);
  }

  /** All the records are in the chains if and only if `follows` is injective, acyclic and points to
      present records. */
  lemma CoverageExact(records: seq<Record>, chains: seq<seq<Record>>)
    requires DistinctIds(records) && AreChains(records, chains)
    ensures Covered(records, chains) <==> Present(records) && Injective(records) && Acyclic(records)
  {
    if Covered(records, chains) {
      CoveredIsInjective(records, chains);
      CoveredIsAcyclic(records, chains);
    }
    if Present(records) && Injective(records) && Acyclic(records) {
      hide AreChains, Present, Injective, Acyclic;
      var rank := RankOf(records);
      forall r | r in records ensures Occurs(chains, r) {
        RankedIsCovered(records, chains, rank, r);
      }
    }
  }

  lemma RankOf(records: seq<Record>) returns (rank: map<Text, nat>)
    requires Acyclic(records)
    ensures Ranks(records, rank)
  {
    rank :| Ranks(records, rank);
  }

  // ---------------------------------------------------------------- permutation

  function Flatten(chains: seq<seq<Record>>): seq<Record> {
    if chains == [] then [] else Flatten(chains[..|chains| - 1]) + chains[|chains| - 1]
  }

  lemma {:induction false} FlattenMembers(chains: seq<seq<Record>>, r: Record)
    ensures r in Flatten(chains) <==> Occurs(chains, r)
  {
    if chains != [] {
      var k := |chains| - 1;
      FlattenMembers(chains[..k], r);
      if Occurs(chains[..k], r) {
        var i, x :| 0 <= i < k && 0 <= x < |chains[..k][i]| && chains[..k][i][x] == r;
        assert chains[i][x] == r;
      }
      if Occurs(chains, r) {
        var i, x :| 0 <= i < |chains| && 0 <= x < |chains[i]| && chains[i][x] == r;
        assert i < k ==> chains[..k][i][x] == r;
      }
      if r in chains[k] {
        var x :| 0 <= x < |chains[k]| && chains[k][x] == r;
      }
    }
  }

  /** No job id occurs twice in a family of chains. */
  predicate Apart(chains: seq<seq<Record>>) {
    forall i, x, j, y ::
      0 <= i < |chains| && 0 <= x < |chains[i]| && 0 <= j < |chains| && 0 <= y < |chains[j]| ==>
        (chains[i][x].jobId == chains[j][y].jobId ==> i == j && x == y)
  }

  lemma {:induction false} FlattenDistinct(chains: seq<seq<Record>>)
    requires Apart(chains)
    ensures DistinctIds(Flatten(chains))
  {
    if chains != [] {
      var k := |chains| - 1;
      var before := chains[..k];
      assert Apart(before) by {
        forall i, x, j, y | 0 <= i < k && 0 <= x < |before[i]| && 0 <= j < k && 0 <= y < |before[j]|
          && before[i][x].jobId == before[j][y].jobId ensures i == j && x == y {
          assert before[i] == chains[i] && before[j] == chains[j];
        }
      }
      FlattenDistinct(before);
      var flat := Flatten(before);
      forall m, y | 0 <= m < |flat| && 0 <= y < |chains[k]| ensures flat[m].jobId != chains[k][y].jobId {
        FlattenMembers(before, flat[m]);
        var i, x :| 0 <= i < |before| && 0 <= x < |before[i]| && before[i][x] == flat[m];
        assert chains[i][x] == flat[m];
      }
      assert forall x, y :: 0 <= x < y < |chains[k]| ==> chains[k][x].jobId != chains[k][y].jobId;
    }
  }

  lemma {:induction false} CountDistinct(records: seq<Record>, x: Record)
    requires DistinctIds(records)
    ensures multiset(records)[x] == if x in records then 1 else 0
  {
    if records != [] {
      var k := |records| - 1;
      CountDistinct(records[..k], x);
      assert records == records[..k] + [records[k]];
    }
  }

  /** Two lists of distinct ids: the same multiset if and only if the same members. */
  lemma SameMembers(a: seq<Record>, b: seq<Record>)
    requires DistinctIds(a) && DistinctIds(b)
    ensures multiset(a) == multiset(b) <==> forall r :: r in a <==> r in b
  {
    hide DistinctIds;
    if forall r :: r in a <==> r in b {
      forall r ensures multiset(a)[r] == multiset(b)[r] {
        CountDistinct(a, r);
        CountDistinct(b, r);
      }
    } else {
      var r :| (r in a) != (r in b);
      CountDistinct(a, r);
      CountDistinct(b, r);
      assert multiset(a)[r] != multiset(b)[r];
    }
  }

  /** The chains together are a permutation of the records if and only if `follows` is injective,
      acyclic and points to present records. */
  lemma PermutationExact(records: seq<Record>, chains: seq<seq<Record>>)
    requires DistinctIds(records) && AreChains(records, chains)
    ensures multiset(Flatten(chains)) == multiset(records)
       <==> Present(records) && Injective(records) && Acyclic(records)
  {
    hide Present, Injective, Acyclic, AreChains, Flatten, DistinctIds, Apart, Occurs;
    CoverageExact(records, chains);
    ChainsApart(records, chains);
    FlattenDistinct(chains);
    SameMembers(Flatten(chains), records);
    OccursFromRecords(records, chains);
    forall r ensures r in Flatten(chains) <==> Occurs(chains, r) {
      FlattenMembers(chains, r);
    }
  }

  lemma OccursFromRecords(records: seq<Record>, chains: seq<seq<Record>>)
    requires AreChains(records, chains)
    ensures forall r :: Occurs(chains, r) ==> r in records
  {
    hide Followers, Heads, IsPath;
    forall r | Occurs(chains, r) ensures r in records {
      var i, x :| 0 <= i < |chains| && 0 <= x < |chains[i]| && chains[i][x] == r;
      assert IsChain(records, chains[i]);
      PathIsFromRecords(records, chains[i], x);
    }
  }

  lemma ChainsApart(records: seq<Record>, chains: seq<seq<Record>>)
    requires DistinctIds(records) && AreChains(records, chains)
    ensures Apart(chains)
  {
    hide Followers, Heads, IsPath;
    forall i, x, j, y | 0 <= i < |chains| && 0 <= x < |chains[i]| && 0 <= j < |chains| && 0 <= y < |chains[j]|
      && chains[i][x].jobId == chains[j][y].jobId ensures i == j && x == y {
      PlaceIs(records, chains, i, x);
      assert IsChain(records, chains[i]) && IsChain(records, chains[j]);
      PathIsFromRecords(records, chains[i], x);
      PathIsFromRecords(records, chains[j], y);
      SameIdSameRecord(records, chains[i][x], chains[j][y]);
      ChainsDisjoint(records, chains, i, x, j, y);
    }
  }

  // ---------------------------------------------------------------- without distinct ids

  /** The walk meets some job id twice. */
  ghost predicate Repeats(followers: map<Text, Record>, start: Text) {
    exists i: nat, j: nat :: i < j && SameId(followers, start, i, j)
  }

  predicate SameId(followers: map<Text, Record>, start: Text, i: nat, j: nat) {
    IdAfter(followers, start, i).Some? && IdAfter(followers, start, i) == IdAfter(followers, start, j)
  }

  /** Walking on from where a walk has come to. */
  lemma {:induction false} WalkOn(followers: map<Text, Record>, start: Text, i: nat, m: nat)
    requires IdAfter(followers, start, i).Some?
    ensures IdAfter(followers, start, i + m) == IdAfter(followers, IdAfter(followers, start, i).value, m)
  {
    if m > 0 {
      WalkOn(followers, start, i, m - 1);
    }
  }

  /** A walk that comes back to its start goes on for ever. */
  lemma {:induction false} RoundAndRound(followers: map<Text, Record>, id: Text, period: nat, m: nat)
    requires period > 0 && IdAfter(followers, id, period) == Some(id)
    ensures IdAfter(followers, id, m).Some?
    decreases m
  {
    if m < period {
      if IdAfter(followers, id, m).None? {
        StaysStopped(followers, id, m, period);
      }
    } else {
      RoundAndRound(followers, id, period, m - period);
      WalkOn(followers, id, period, m - period);
      assert period + (m - period) == m;
    }
  }

  lemma RepeatNeverStops(followers: map<Text, Record>, start: Text, i: nat, j: nat, n: nat)
    requires i < j && SameId(followers, start, i, j)
    ensures IdAfter(followers, start, n).Some?
  {
    var id := IdAfter(followers, start, i).value;
    WalkOn(followers, start, i, j - i);
    assert i + (j - i) == j;
    if n < i {
      if IdAfter(followers, start, n).None? {
        StaysStopped(followers, start, n, i);
      }
    } else {
      RoundAndRound(followers, id, j - i, n - i);
      WalkOn(followers, start, i, n - i);
      assert i + (n - i) == n;
    }
  }

  /** The ids a walk has been at. */
  function Visited(followers: map<Text, Record>, start: Text, n: nat): (ids: set<Text>)
    requires IdAfter(followers, start, n).Some?
  {
    (if n == 0 then {} else Visited(followers, start, n - 1)) + {IdAfter(followers, start, n).value}
  }

  lemma {:induction false} VisitedAt(followers: map<Text, Record>, start: Text, n: nat, x: Text) returns (k: nat)
    requires IdAfter(followers, start, n).Some? && x in Visited(followers, start, n)
    ensures k <= n && IdAfter(followers, start, k) == Some(x)
  {
    if x == IdAfter(followers, start, n).value {
      k := n;
    } else {
      k := VisitedAt(followers, start, n - 1, x);
    }
  }

  lemma {:induction false} VisitedCount(followers: map<Text, Record>, start: Text, n: nat)
    requires IdAfter(followers, start, n).Some? && !Repeats(followers, start)
    ensures |Visited(followers, start, n)| == n + 1
  {
    if n > 0 {
      var id := IdAfter(followers, start, n).value;
      VisitedCount(followers, start, n - 1);
      if id in Visited(followers, start, n - 1) {
        var k := VisitedAt(followers, start, n - 1, id);
        assert SameId(followers, start, k, n);
        assert false;
      }
    }
  }

  lemma {:induction false} VisitedFromRecords(records: seq<Record>, head: Record, n: nat)
    requires head in records && IdAfter(Followers(records), head.jobId, n).Some?
    ensures Visited(Followers(records), head.jobId, n) <= Ids(records)
  {
    hide Followers;
    if n > 0 {
      VisitedFromRecords(records, head, n - 1);
      FollowerIsRecord(records, IdAfter(Followers(records), head.jobId, n - 1).value);
    }
  }

  lemma FollowerIsRecord(records: seq<Record>, id: Text)
    requires id in Followers(records)
    ensures Followers(records)[id].jobId in Ids(records)
  {
  }

  lemma {:induction false} IdsAreFew(records: seq<Record>)
    ensures |Ids(records)| <= |records|
  {
    if records != [] {
      var k := |records| - 1;
      IdsAreFew(records[..k]);
      assert records == records[..k] + [records[k]];
      assert Ids(records) == Ids(records[..k]) + {records[k].jobId};
    }
  }

  lemma RepeatsForever(followers: map<Text, Record>, start: Text, n: nat)
    requires Repeats(followers, start)
    ensures IdAfter(followers, start, n).Some?
  {
    hide SameId, IdAfter;
    var i: nat, j: nat :| i < j && SameId(followers, start, i, j);
    RepeatNeverStops(followers, start, i, j, n);
  }

  lemma NoRepeatStops(records: seq<Record>, head: Record)
    requires head in Heads(records) && !Repeats(Followers(records), head.jobId)
    ensures IdAfter(Followers(records), head.jobId, |records|).None?
  {
    hide Followers, Repeats, Visited, IdAfter;
    var f, n := Followers(records), |records|;
    if IdAfter(f, head.jobId, n).Some? {
      VisitedCount(f, head.jobId, n);
      VisitedFromRecords(records, head, n);
      IdsAreFew(records);
      IdsAtMost(Visited(f, head.jobId, n), Ids(records));
      assert false;
    }
  }

  /** The walk from a head stops if and only if it never meets a job id twice, and then it has
      stopped after as many turns as there are records; whatever the ids. */
  lemma WalkStopsExact(records: seq<Record>, head: Record)
    requires head in Heads(records)
    ensures var f := Followers(records);
      && ((exists n: nat :: IdAfter(f, head.jobId, n).None?) <==> !Repeats(f, head.jobId))
      && (IdAfter(f, head.jobId, |records|).None? <==> !Repeats(f, head.jobId))
  {
    hide Followers, Heads, Repeats, IdAfter;
    var f := Followers(records);
    if Repeats(f, head.jobId) {
      forall n: nat ensures IdAfter(f, head.jobId, n).Some? {
        RepeatsForever(f, head.jobId, n);
      }
    } else {
      NoRepeatStops(records, head);
    }
  }

  /** So chain building ends, exactly when no walk from a head meets a job id twice. */
  lemma BuildingEndsExact(records: seq<Record>)
    ensures WalksStop(records) <==> forall h :: h in Heads(records) ==> !Repeats(Followers(records), h.jobId)
  {
    hide Repeats, IdAfter, Followers;
    forall h | h in Heads(records)
      ensures IdAfter(Followers(records), h.jobId, |records|).None? <==> !Repeats(Followers(records), h.jobId)
    {
      WalkStopsExact(records, h);
    }
  }

  /** Two records that share a job id can make the loop run forever. */
  lemma {:induction false} SharedIdNeverStops(n: nat)
    ensures var records := [Record([1], None, []), Record([1], Some([1]), [])];
      && !DistinctIds(records) && Record([1], None, []) in Heads(records)
      && IdAfter(Followers(records), [1], n) == Some([1])
  {
    var head, follower := Record([1], None, []), Record([1], Some([1]), []);
    var records := [head, follower];
    assert records[..1] == [head] && [head][..0] == [];
    assert Heads([]) == [] && Followers([]) == map[];
    assert Heads([head]) == [head] && Followers([head]) == map[];
    assert [1] in Followers(records) && Followers(records)[[1]] == follower;
    assert records[0].jobId == records[1].jobId;
    if n > 0 {
      SharedIdNeverStops(n - 1);
    }
  }
}
