/** The chains as they read on the files and on the records themselves. */
module ChainRules {
  import opened Text
  import opened Chain
  import opened ChainLaws

  /** A record is read exactly when the file named after its job holds it. */
  lemma ReadExact(directory: seq<File>, r: Record)
    ensures r in AllRecords(directory) <==> File(r.jobId, Some(r)) in directory
  {
    if r in AllRecords(directory) {
      var i :| 0 <= i < |directory| && ReadRecord(directory[i]) == Some(r);
      assert directory[i] == File(r.jobId, Some(r));
    }
    if File(r.jobId, Some(r)) in directory {
      var i :| 0 <= i < |directory| && directory[i] == File(r.jobId, Some(r));
      assert ReadRecord(directory[i]) == Some(r);
    }
  }

  // ---------------------------------------------------------------- successors

  /** The record says that it follows this job; an empty name is no name. */
  predicate Names(r: Record, id: Text) {
    id != [] && r.follows == Some(id)
  }

  /** The k-th record is the last one that follows this job. */
  predicate IsLastFollower(records: seq<Record>, id: Text, k: nat) {
    k < |records| && Names(records[k], id) && forall j :: k < j < |records| ==> !Names(records[j], id)
  }

  lemma FollowersStep(records: seq<Record>, id: Text)
    requires records != []
    ensures var n := |records| - 1;
      var f, before := Followers(records), Followers(records[..n]);
      if Names(records[n], id) then id in f && f[id] == records[n]
      else (id in f <==> id in before) && (id in f ==> f[id] == before[id])
  {
  }

  lemma {:induction false} FollowersNone(records: seq<Record>, id: Text)
    requires forall k :: 0 <= k < |records| ==> !Names(records[k], id)
    ensures id !in Followers(records)
  {
    hide Followers, Names;
    if records != [] {
      FollowersStep(records, id);
      FollowersNone(records[..|records| - 1], id);
    } else {
      NoFollowers(id);
    }
  }

  lemma NoFollowers(id: Text)
    ensures id !in Followers([])
  {
  }

  lemma {:induction false} FollowersLast(records: seq<Record>, id: Text, k: nat)
    requires IsLastFollower(records, id, k)
    ensures id in Followers(records) && Followers(records)[id] == records[k]
  {
    hide Followers, Names;
    FollowersStep(records, id);
    if k < |records| - 1 {
      FollowersLast(records[..|records| - 1], id, k);
    }
  }

  /** The reverse index holds, for each job, the last record that follows it, and nothing else. */
  lemma FollowersExact(records: seq<Record>, id: Text)
    ensures id in Followers(records) <==> exists k :: 0 <= k < |records| && Names(records[k], id)
    ensures forall k: nat :: IsLastFollower(records, id, k) ==> id in Followers(records) && Followers(records)[id] == records[k]
  {
    hide Followers, Names;
    if exists k :: 0 <= k < |records| && Names(records[k], id) {
      var k := LastFollower(records, id, |records|);
      FollowersLast(records, id, k);
    } else {
      FollowersNone(records, id);
    }
    forall k: nat | IsLastFollower(records, id, k) ensures id in Followers(records) && Followers(records)[id] == records[k] {
      FollowersLast(records, id, k);
    }
  }

  lemma {:induction false} LastFollower(records: seq<Record>, id: Text, n: nat) returns (k: nat)
    requires n <= |records| && exists j :: 0 <= j < n && Names(records[j], id)
    requires forall j :: n <= j < |records| ==> !Names(records[j], id)
    ensures k < n && IsLastFollower(records, id, k)
  {
    if Names(records[n - 1], id) {
      k := n - 1;
    } else {
      k := LastFollower(records, id, n - 1);
    }
  }

  /** The next record of a chain after `a`: the last of all records that follow it. */
  ghost predicate IsNext(records: seq<Record>, a: Record, b: Record) {
    exists k: nat :: IsLastFollower(records, a.jobId, k) && records[k] == b
  }

  lemma NextExact(records: seq<Record>, a: Record, b: Record)
    ensures IsNext(records, a, b) <==> a.jobId in Followers(records) && Followers(records)[a.jobId] == b
  {
    FollowersExact(records, a.jobId);
    if a.jobId in Followers(records) {
      var k := LastFollower(records, a.jobId, |records|);
    }
  }

  /** What `follows` nothing: no name, or an empty one. */
  predicate StartsChain(r: Record) {
    r.follows == None || r.follows == Some([])
  }

  /** A chain on the records alone: from a record that follows nothing, each next one the last that
      follows the one before, until nothing follows. */
  ghost predicate IsWholeChain(records: seq<Record>, chain: seq<Record>) {
    && chain != [] && chain[0] in records && StartsChain(chain[0])
    && (forall i :: 0 < i < |chain| ==> IsNext(records, chain[i - 1], chain[i]))
    && (forall r :: r in records ==> !Names(r, chain[|chain| - 1].jobId))
  }

  lemma ChainExact(records: seq<Record>, chain: seq<Record>)
    ensures IsChain(records, chain) <==> IsWholeChain(records, chain)
  {
    hide Followers, Heads, IsNext;
    if chain != [] {
      HeadsAre(records, chain[0]);
      FollowersExact(records, chain[|chain| - 1].jobId);
      assert IsPath(Followers(records), chain) <==> forall i :: 0 < i < |chain| ==> IsNext(records, chain[i - 1], chain[i]) by {
        PathExact(records, chain);
      }
    }
  }

  lemma HeadsAre(records: seq<Record>, r: Record)
    ensures r in Heads(records) <==> r in records && StartsChain(r)
  {
  }

  lemma PathExact(records: seq<Record>, chain: seq<Record>)
    ensures IsPath(Followers(records), chain) <==> forall i :: 0 < i < |chain| ==> IsNext(records, chain[i - 1], chain[i])
  {
    hide Followers, IsNext;
    forall i | 0 < i < |chain| ensures IsStep(Followers(records), chain, i) <==> IsNext(records, chain[i - 1], chain[i]) {
      NextExact(records, chain[i - 1], chain[i]);
    }
  }

  // ---------------------------------------------------------------- heads

  /** The positions of the heads, in order, all of them. */
  ghost predicate AreHeadPositions(records: seq<Record>, at: seq<nat>) {
    && (forall i, j :: 0 <= i < j < |at| ==> at[i] < at[j])
    && (forall k: nat :: k in at <==> k < |records| && StartsChain(records[k]))
  }

  lemma HeadsStep(records: seq<Record>)
    requires records != []
    ensures var n := |records| - 1;
      Heads(records) == Heads(records[..n]) + (if StartsChain(records[n]) then [records[n]] else [])
  {
  }

  /** The chains come in the order of their heads, one for each head. */
  lemma {:induction false} HeadsInOrder(records: seq<Record>) returns (at: seq<nat>)
    ensures AreHeadPositions(records, at) && |at| == |Heads(records)|
    ensures forall i :: 0 <= i < |at| ==> at[i] < |records| && Heads(records)[i] == records[at[i]]
  {
    hide Heads, StartsChain;
    if records == [] {
      at := [];
      assert Heads([]) == [] by { NoHeads(); }
    } else {
      var n := |records| - 1;
      var before := HeadsInOrder(records[..n]);
      HeadsStep(records);
      at := before + (if StartsChain(records[n]) then [n] else []);
      PositionsGrow(records, before, at);
    }
  }

  lemma NoHeads()
    ensures Heads([]) == []
  {
  }

  lemma PositionsGrow(records: seq<Record>, before: seq<nat>, at: seq<nat>)
    requires records != [] && AreHeadPositions(records[..|records| - 1], before)
    requires at == before + (if StartsChain(records[|records| - 1]) then [|records| - 1] else [])
    ensures AreHeadPositions(records, at)
  {
    hide StartsChain;
    var n := |records| - 1;
    forall i | 0 <= i < |before| ensures before[i] < n {
      assert before[i] in before;
    }
    forall k: nat ensures k in at <==> k < |records| && StartsChain(records[k]) {
      assert k < n ==> records[..n][k] == records[k];
      assert k in at <==> k in before || (k == n && StartsChain(records[n]));
    }
  }

  /** What building returns, on the records alone. */
  lemma BuiltExact(records: seq<Record>, chains: seq<seq<Record>>) returns (at: seq<nat>)
    requires AreChains(records, chains)
    ensures AreHeadPositions(records, at) && |at| == |chains|
    ensures forall i :: 0 <= i < |chains| ==>
      at[i] < |records| && IsWholeChain(records, chains[i]) && chains[i][0] == records[at[i]]
  {
    hide IsChain, IsWholeChain, Heads, AreHeadPositions;
    at := HeadsInOrder(records);
    forall i | 0 <= i < |chains| ensures IsWholeChain(records, chains[i]) && chains[i] != [] && chains[i][0] == records[at[i]] {
      assert IsChain(records, chains[i]);
      ChainExact(records, chains[i]);
      ChainNotEmpty(records, chains[i]);
    }
  }

  lemma OneHead(a: Record, b: Record, c: Record)
    requires StartsChain(a) && !StartsChain(b) && !StartsChain(c)
    ensures Heads([a, b, c]) == [a]
  {
    hide Heads, StartsChain;
    HeadsStep([a, b, c]);
    HeadsStep([a, b]);
    HeadsStep([a]);
    NoHeads();
    assert [a, b, c][..2] == [a, b] && [a, b][..1] == [a] && [a][..0] == [];
  }

  lemma ForkIsWhole(a: Record, b: Record, c: Record)
    requires StartsChain(a) && c.jobId != a.jobId
    requires Names(b, a.jobId) && Names(c, a.jobId)
    ensures IsWholeChain([a, b, c], [a, c])
  {
    hide IsNext;
    var records := [a, b, c];
    assert IsNext(records, a, c) by {
      assert records[2] == c && IsLastFollower(records, a.jobId, 2);
      NextIs(records, a, 2);
    }
    assert a in records;
    var chain := [a, c];
    forall i | 0 < i < 2 ensures IsNext(records, chain[i - 1], chain[i]) {
      assert i == 1 && chain[i - 1] == a && chain[i] == c;
    }
    forall r | r in records ensures !Names(r, c.jobId) {
      assert r == a || r == b || r == c;
    }
  }

  lemma NextIs(records: seq<Record>, a: Record, k: nat)
    requires IsLastFollower(records, a.jobId, k)
    ensures IsNext(records, a, records[k])
  {
  }

  /** Two records that follow one job: the chain takes the later of the two, the other is in no chain. */
  lemma ForkExample()
    ensures var a, b, c := Record([1], None, []), Record([2], Some([1]), []), Record([3], Some([1]), []);
      forall chains :: AreChains([a, b, c], chains) ==> chains == [[a, c]]
  {
    hide Heads, AreChains, IsChain, Followers, IsWholeChain;
    var a, b, c := Record([1], None, []), Record([2], Some([1]), []), Record([3], Some([1]), []);
    OneHead(a, b, c);
    assert [3][0] != [1][0];
    ForkIsWhole(a, b, c);
    ChainExact([a, b, c], [a, c]);
    OnlyChain([a, b, c], [a, c]);
    forall chains | AreChains([a, b, c], chains) ensures chains == [[a, c]] {
      ChainsUnique([a, b, c], chains, [[a, c]]);
    }
  }

  lemma OnlyChain(records: seq<Record>, chain: seq<Record>)
    requires chain != [] && IsChain(records, chain) && Heads(records) == [chain[0]]
    ensures AreChains(records, [chain])
  {
    hide Heads, IsChain;
  }
}
