/** Job records read back from the dispatch directory, and the chains they form on `follows`. */
module Chain {
  import opened Text

  /** A job record, as far as chains look at it. */
  datatype Record = Record(jobId: Text, follows: Option<Text>, createdAt: Text)

  /** An absent and an empty `follows` mean the same. */
  predicate IsFollower(r: Record) {
    r.follows.Some? && r.follows.value != []
  }

  predicate Follows(r: Record, id: Text) {
    IsFollower(r) && r.follows.value == id
  }

  predicate DistinctIds(records: seq<Record>) {
    forall i, j :: 0 <= i < j < |records| ==> records[i].jobId != records[j].jobId
  }

  // ---------------------------------------------------------------- reading the directory

  /** A directory entry that looks like a record: the job id its name spells, and the record its
      content holds if it is valid. */
  datatype File = File(stem: Text, content: Option<Record>)

  /** `read_job_record`: the content must name the same job as the file. */
  function ReadRecord(f: File): Option<Record> {
    if f.content.Some? && f.content.value.jobId == f.stem then f.content else None
  }

  predicate DistinctNames(directory: seq<File>) {
    forall i, j :: 0 <= i < j < |directory| ==> directory[i].stem != directory[j].stem
  }

  /** Where a stable sort by creation time puts one more record. */
  function InsertByTime(records: seq<Record>, r: Record): (s: seq<Record>)
    ensures |s| == |records| + 1
    ensures forall x :: x in s <==> x == r || x in records
  {
    if records == [] || TextAtMost(records[|records| - 1].createdAt, r.createdAt) then records + [r]
    else
      var k := |records| - 1;
      assert records == records[..k] + [records[k]];
      InsertByTime(records[..k], r) + [records[k]]
  }

  function AllRecords(directory: seq<File>): (records: seq<Record>)
    ensures forall r :: r in records <==> exists i :: 0 <= i < |directory| && ReadRecord(directory[i]) == Some(r)
  {
    if directory == [] then []
    else
      var k := |directory| - 1;
      assert directory == directory[..k] + [directory[k]];
      var before := AllRecords(directory[..k]);
      match ReadRecord(directory[k])
      case None =>
        assert forall r :: r in before ==> exists i :: 0 <= i < k && ReadRecord(directory[..k][i]) == Some(r);
        before
      case Some(r) => InsertByTime(before, r)
  }

  /** `read_all_records`. */
  method ReadAllRecords(directory: seq<File>) returns (records: seq<Record>)
    ensures records == AllRecords(directory)
  {
    records := [];
    for i := 0 to |directory|
      invariant records == AllRecords(directory[..i])
    {
      assert directory[..i + 1][..i] == directory[..i];
      var r := ReadRecord(directory[i]);
      if r.Some? {
        records := InsertByTime(records, r.value);
      }
    }
    assert directory[..|directory|] == directory;
  }

  lemma {:induction false} InsertKeepsDistinct(records: seq<Record>, r: Record)
    requires DistinctIds(records) && forall x :: x in records ==> x.jobId != r.jobId
    ensures DistinctIds(InsertByTime(records, r))
  {
    if !(records == [] || TextAtMost(records[|records| - 1].createdAt, r.createdAt)) {
      var k := |records| - 1;
      assert forall x :: x in records[..k] ==> x in records;
      InsertKeepsDistinct(records[..k], r);
      var before := InsertByTime(records[..k], r);
      forall i | 0 <= i < |before| ensures before[i].jobId != records[k].jobId {
        assert before[i] in before;
        assert before[i] == r || before[i] in records[..k];
      }
    }
  }

  /** Records read from a directory have distinct job ids: each is filed under its own. */
  lemma {:induction false} ReadIdsDistinct(directory: seq<File>)
    requires DistinctNames(directory)
    ensures DistinctIds(AllRecords(directory))
  {
    if directory != [] {
      var k := |directory| - 1;
      ReadIdsDistinct(directory[..k]);
      var r := ReadRecord(directory[k]);
      if r.Some? {
        forall x | x in AllRecords(directory[..k]) ensures x.jobId != r.value.jobId {
          var i :| 0 <= i < k && ReadRecord(directory[..k][i]) == Some(x);
          assert directory[..k][i] == directory[i];
        }
        InsertKeepsDistinct(AllRecords(directory[..k]), r.value);
      }
    }
  }

  predicate Ordered(records: seq<Record>) {
    forall i, j :: 0 <= i < j < |records| ==> TextAtMost(records[i].createdAt, records[j].createdAt)
  }

  /** The records of one moment, in order. */
  function At(records: seq<Record>, time: Text): seq<Record> {
    if records == [] then []
    else
      var k := |records| - 1;
      At(records[..k], time) + (if records[k].createdAt == time then [records[k]] else [])
  }

  /** The records of the files that can be read, in the order of the directory. */
  function Readable(directory: seq<File>): seq<Record> {
    if directory == [] then []
    else
      var k := |directory| - 1;
      Readable(directory[..k]) + (if ReadRecord(directory[k]).Some? then [ReadRecord(directory[k]).value] else [])
  }

  lemma {:induction false} InsertKeepsOrder(records: seq<Record>, r: Record)
    requires Ordered(records)
    ensures Ordered(InsertByTime(records, r))
  {
    if records != [] {
      var k := |records| - 1;
      var last := records[k];
      if TextAtMost(last.createdAt, r.createdAt) {
        forall i | 0 <= i < |records| ensures TextAtMost(records[i].createdAt, r.createdAt) {
          if i < k {
            TextAtMostTrans(records[i].createdAt, last.createdAt, r.createdAt);
          }
        }
      } else {
        TextAtMostTotal(last.createdAt, r.createdAt);
        InsertKeepsOrder(records[..k], r);
        var before := InsertByTime(records[..k], r);
        forall i | 0 <= i < |before| ensures TextAtMost(before[i].createdAt, last.createdAt) {
          InsertedIsOld(records[..k], r, before[i]);
        }
      }
    }
  }

  lemma InsertedIsOld(records: seq<Record>, r: Record, x: Record)
    requires x in InsertByTime(records, r)
    ensures x == r || exists i :: 0 <= i < |records| && records[i] == x
  {
  }

  /** Inserting is stable: the new record comes last among those of its moment. */
  lemma {:induction false} InsertIsStable(records: seq<Record>, r: Record, time: Text)
    ensures At(InsertByTime(records, r), time) == At(records, time) + (if r.createdAt == time then [r] else [])
  {
    if records == [] || TextAtMost(records[|records| - 1].createdAt, r.createdAt) {
      AtAppend(records, r, time);
    } else {
      var k := |records| - 1;
      TextAtMostTotal(r.createdAt, r.createdAt);
      InsertIsStable(records[..k], r, time);
      AtAppend(InsertByTime(records[..k], r), records[k], time);
      AtAppend(records[..k], records[k], time);
      assert records == records[..k] + [records[k]];
      hide At, TextAtMost;
    }
  }

  lemma {:induction false} InsertLosesNothing(records: seq<Record>, r: Record)
    ensures multiset(InsertByTime(records, r)) == multiset(records) + multiset{r}
  {
    if !(records == [] || TextAtMost(records[|records| - 1].createdAt, r.createdAt)) {
      var k := |records| - 1;
      InsertLosesNothing(records[..k], r);
      assert records == records[..k] + [records[k]];
    }
  }

  /** The records come sorted by creation time, those of one moment in the order of the directory,
      and none is lost or doubled. */
  lemma {:induction false} AllRecordsSorted(directory: seq<File>, time: Text)
    ensures Ordered(AllRecords(directory))
    ensures At(AllRecords(directory), time) == At(Readable(directory), time)
    ensures multiset(AllRecords(directory)) == multiset(Readable(directory))
  {
    if directory != [] {
      var k := |directory| - 1;
      var before, readable := AllRecords(directory[..k]), Readable(directory[..k]);
      AllRecordsSorted(directory[..k], time);
      match ReadRecord(directory[k])
      case None =>
        assert Readable(directory) == readable;
      case Some(r) =>
        InsertKeepsOrder(before, r);
        InsertIsStable(before, r, time);
        InsertLosesNothing(before, r);
        AtAppend(readable, r, time);
        assert AllRecords(directory) == InsertByTime(before, r) && Readable(directory) == readable + [r];
        hide At, InsertByTime, Ordered, AllRecords, Readable;
    }
  }

  lemma AtAppend(records: seq<Record>, r: Record, time: Text)
    ensures At(records + [r], time) == At(records, time) + (if r.createdAt == time then [r] else [])
  {
    assert (records + [r])[..|records|] == records;
  }

  // ---------------------------------------------------------------- building chains

  /** The reverse index: of several records that follow one id, the last is kept. */
  function Followers(records: seq<Record>): (f: map<Text, Record>)
    ensures forall id :: id in f ==> f[id] in records && Follows(f[id], id)
    ensures forall r :: r in records && IsFollower(r) ==> r.follows.value in f
  {
    if records == [] then map[]
    else
      var k := |records| - 1;
      assert records == records[..k] + [records[k]];
      var before := Followers(records[..k]);
      if IsFollower(records[k]) then before[records[k].follows.value := records[k]] else before
  }

  function Heads(records: seq<Record>): (heads: seq<Record>)
    ensures forall r :: r in heads <==> r in records && !IsFollower(r)
  {
    if records == [] then []
    else
      var k := |records| - 1;
      assert records == records[..k] + [records[k]];
      if IsFollower(records[k]) then Heads(records[..k]) else Heads(records[..k]) + [records[k]]
  }

  /** Each record is the one the index gives for the record before it. */
  predicate IsPath(followers: map<Text, Record>, chain: seq<Record>) {
    forall k :: 0 < k < |chain| ==> IsStep(followers, chain, k)
  }

  predicate IsStep(followers: map<Text, Record>, chain: seq<Record>, k: nat)
    requires 0 < k < |chain|
  {
    chain[k - 1].jobId in followers && followers[chain[k - 1].jobId] == chain[k]
  }

  /** A path from a head that nothing in the index continues. */
  predicate IsChain(records: seq<Record>, chain: seq<Record>) {
    && chain != [] && chain[0] in Heads(records)
    && IsPath(Followers(records), chain)
    && chain[|chain| - 1].jobId !in Followers(records)
  }

  /** The id the inner loop is at after `n` turns; None when it has stopped. */
  function IdAfter(followers: map<Text, Record>, start: Text, n: nat): Option<Text> {
    if n == 0 then Some(start)
    else
      match IdAfter(followers, start, n - 1)
      case None => None
      case Some(id) => if id in followers then Some(followers[id].jobId) else None
  }

  /** Every walk from a head has stopped after as many turns as there are records. */
  predicate WalksStop(records: seq<Record>) {
    forall h :: h in Heads(records) ==> IdAfter(Followers(records), h.jobId, |records|).None?
  }

  lemma {:induction false} StaysStopped(followers: map<Text, Record>, start: Text, n: nat, m: nat)
    requires IdAfter(followers, start, n).None? && n <= m
    ensures IdAfter(followers, start, m).None?
  {
    if n < m {
      StaysStopped(followers, start, n, m - 1);
    }
  }

  /** The inner loop: the chain from one head. */
  method WalkFrom(records: seq<Record>, followers: map<Text, Record>, head: Record) returns (chain: seq<Record>)
    requires followers == Followers(records) && head in Heads(records) && WalksStop(records)
    ensures IsChain(records, chain) && chain[0] == head
  {
    hide Followers, Heads, WalksStop;
    chain := [head];
    var currentId := head.jobId;
    StoppedInTime(records, head, 0);
    while currentId in followers
      invariant chain != [] && chain[0] == head && currentId == chain[|chain| - 1].jobId
      invariant IsPath(followers, chain) && |chain| <= |records|
      invariant IdAfter(followers, head.jobId, |chain| - 1) == Some(currentId)
      decreases |records| - |chain|
    {
      var successor := followers[currentId];
      PathGoesOn(followers, chain, successor);
      assert IdAfter(followers, head.jobId, |chain|) == Some(successor.jobId);
      StoppedInTime(records, head, |chain|);
      chain := chain + [successor];
      currentId := successor.jobId;
    }
  }

  lemma StoppedInTime(records: seq<Record>, head: Record, n: nat)
    requires WalksStop(records) && head in Heads(records) && IdAfter(Followers(records), head.jobId, n).Some?
    ensures n < |records|
  {
    if |records| <= n {
      StaysStopped(Followers(records), head.jobId, |records|, n);
    }
  }

  /** `build_chain_from_records`, wherever it ends. */
  method BuildChains(records: seq<Record>) returns (chains: seq<seq<Record>>)
    requires WalksStop(records)
    ensures |chains| == |Heads(records)|
    ensures forall i :: 0 <= i < |chains| ==> IsChain(records, chains[i]) && chains[i][0] == Heads(records)[i]
  {
    if records == [] {
      return [];
    }
    var followers, heads := IndexRecords(records);
    hide WalksStop, IsChain;
    chains := [];
    for i := 0 to |heads|
      invariant |chains| == i
      invariant forall k :: 0 <= k < i ==> IsChain(records, chains[k]) && chains[k] != [] && chains[k][0] == heads[k]
    {
      var chain := WalkFrom(records, followers, heads[i]);
      ChainNotEmpty(records, chain);
      chains := chains + [chain];
    }
  }

  lemma ChainNotEmpty(records: seq<Record>, chain: seq<Record>)
    requires IsChain(records, chain)
    ensures chain != []
  {
  }

  /** The reverse index and the heads. */
  method IndexRecords(records: seq<Record>) returns (followers: map<Text, Record>, heads: seq<Record>)
    ensures followers == Followers(records) && heads == Heads(records)
  {
    followers, heads := map[], [];
    for i := 0 to |records|
      invariant followers == Followers(records[..i]) && heads == Heads(records[..i])
    {
      assert records[..i + 1][..i] == records[..i];
      if IsFollower(records[i]) {
        followers := followers[records[i].follows.value := records[i]];
      } else {
        heads := heads + [records[i]];
      }
    }
    assert records[..|records|] == records;
  }

  // ---------------------------------------------------------------- why it terminates

  lemma PathGoesOn(followers: map<Text, Record>, chain: seq<Record>, r: Record)
    requires chain != [] && IsPath(followers, chain)
    requires chain[|chain| - 1].jobId in followers && followers[chain[|chain| - 1].jobId] == r
    ensures IsPath(followers, chain + [r])
  {
    forall k | 0 < k <= |chain| ensures IsStep(followers, chain + [r], k) {
      assert k < |chain| ==> IsStep(followers, chain, k);
    }
  }

  lemma SameIdSameRecord(records: seq<Record>, a: Record, b: Record)
    requires DistinctIds(records) && a in records && b in records && a.jobId == b.jobId
    ensures a == b
  {
  }

  lemma PathIsFromRecords(records: seq<Record>, chain: seq<Record>, k: nat)
    requires chain != [] && chain[0] in Heads(records) && IsPath(Followers(records), chain) && k < |chain|
    ensures chain[k] in records && (IsFollower(chain[k]) <==> k > 0)
    ensures k > 0 ==> Follows(chain[k], chain[k - 1].jobId)
  {
    if k > 0 {
      assert IsStep(Followers(records), chain, k);
    }
  }

  /** No record occurs twice, on one path from a head or on two: going back from it both ways the
      records agree until one way reaches its head, and a head follows nothing. */
  lemma {:induction false} PathsMeetAtHeads(records: seq<Record>, a: seq<Record>, b: seq<Record>, i: nat, j: nat)
    requires DistinctIds(records)
    requires a != [] && a[0] in Heads(records) && IsPath(Followers(records), a) && i < |a|
    requires b != [] && b[0] in Heads(records) && IsPath(Followers(records), b) && j < |b|
    requires a[i] == b[j]
    ensures i == j && a[0] == b[0]
  {
    hide Followers, Heads, IsPath, DistinctIds;
    PathIsFromRecords(records, a, i);
    PathIsFromRecords(records, b, j);
    if i > 0 {
      assert j > 0 && a[i - 1].jobId == b[j - 1].jobId;
      PathIsFromRecords(records, a, i - 1);
      PathIsFromRecords(records, b, j - 1);
      SameIdSameRecord(records, a[i - 1], b[j - 1]);
      PathsMeetAtHeads(records, a, b, i - 1, j - 1);
    }
  }

  function Ids(records: seq<Record>): (ids: set<Text>) {
    set r | r in records :: r.jobId
  }

  lemma {:induction false} CountIds(records: seq<Record>)
    requires DistinctIds(records)
    ensures |Ids(records)| == |records|
  {
    if records != [] {
      var k := |records| - 1;
      CountIds(records[..k]);
      assert records == records[..k] + [records[k]];
      assert Ids(records) == Ids(records[..k]) + {records[k].jobId};
    }
  }

  lemma {:induction false} IdsAtMost(a: set<Text>, b: set<Text>)
    requires a <= b
    ensures |a| <= |b|
  {
    if a != {} {
      var x :| x in a;
      IdsAtMost(a - {x}, b - {x});
    }
  }

  /** Pigeonhole: a path from a head is never longer than the list of records. */
  lemma PathIsShort(records: seq<Record>, chain: seq<Record>)
    requires DistinctIds(records)
    requires chain != [] && chain[0] in Heads(records) && IsPath(Followers(records), chain)
    ensures |chain| <= |records|
  {
    forall i, j | 0 <= i < j < |chain| ensures chain[i].jobId != chain[j].jobId {
      PathIsFromRecords(records, chain, i);
      PathIsFromRecords(records, chain, j);
      if chain[i].jobId == chain[j].jobId {
        SameIdSameRecord(records, chain[i], chain[j]);
        PathsMeetAtHeads(records, chain, chain, i, j);
      }
    }
    forall k | 0 <= k < |chain| ensures chain[k].jobId in Ids(records) {
      PathIsFromRecords(records, chain, k);
    }
    CountIds(chain);
    CountIds(records);
    IdsAtMost(Ids(chain), Ids(records));
  }

  /** The path a walk has taken so far. */
  lemma {:induction false} PathSoFar(followers: map<Text, Record>, head: Record, n: nat) returns (chain: seq<Record>)
    requires IdAfter(followers, head.jobId, n).Some?
    ensures |chain| == n + 1 && chain[0] == head && IsPath(followers, chain)
    ensures IdAfter(followers, head.jobId, n) == Some(chain[n].jobId)
  {
    if n == 0 {
      chain := [head];
    } else {
      var before := PathSoFar(followers, head, n - 1);
      PathGoesOn(followers, before, followers[before[n - 1].jobId]);
      chain := before + [followers[before[n - 1].jobId]];
    }
  }

  /** With distinct job ids every walk stops in time, cycles or not. */
  lemma DistinctIdsStop(records: seq<Record>)
    requires DistinctIds(records)
    ensures WalksStop(records)
  {
    hide DistinctIds, Heads, Followers, IdAfter;
    forall h | h in Heads(records) ensures IdAfter(Followers(records), h.jobId, |records|).None? {
      if IdAfter(Followers(records), h.jobId, |records|).Some? {
        var chain := PathSoFar(Followers(records), h, |records|);
        PathIsShort(records, chain);
        assert false;
      }
    }
  }
}
