/** The filesystem primitives on their own: what each does to the bytes of the lock file and of the
    marker when nothing else runs. The step system uses the same calls with anything in between;
    its lock file (absent, torn, held) is what `LockReading` makes of these bytes. */
module Filesystem {
  import opened Text
  import opened RawGuard
  import opened LockMetadata

  // ---------------------------------------------------------------- short writes

  datatype WriteOutcome = Complete | ZeroWrite | Interrupted

  /** How much of a payload of `size` bytes reaches the file when `os.write` offers to take these
      amounts one after the other; it ends early on an amount of zero or less, and when there are
      no more (the process died or the call raised). */
  function Taken(size: nat, writes: seq<int>): (n: nat)
    ensures n <= size
  {
    if size == 0 || writes == [] || writes[0] <= 0 then 0
    else if writes[0] >= size then size
    else writes[0] + Taken(size - writes[0], writes[1..])
  }

  /** The loop on `view = view[written:]`. */
  method WriteAll(payload: Bytes, writes: seq<int>) returns (content: Bytes, outcome: WriteOutcome)
    ensures content == payload[..Taken(|payload|, writes)]
    ensures outcome == Complete <==> content == payload
    ensures outcome == ZeroWrite <==> content != payload && exists i :: 0 <= i < |writes| && writes[i] <= 0
  {
    var view := payload;
    var call := 0;
    content := [];
    outcome := Complete;
    while view != []
      invariant call <= |writes| && content + view == payload
      invariant forall i :: 0 <= i < call ==> writes[i] > 0
      invariant |content| + Taken(|view|, writes[call..]) == Taken(|payload|, writes)
    {
      if call == |writes| {
        return content, Interrupted;
      }
      assert writes[call..][0] == writes[call] && writes[call..][1..] == writes[call + 1..];
      if writes[call] <= 0 {
        return content, ZeroWrite;
      }
      var written := if writes[call] <= |view| then writes[call] else |view|;
      content := content + view[..written];
      view := view[written..];
      call := call + 1;
    }
  }

  /** Writes that take something each time and have enough turns complete the payload. */
  lemma {:induction false} EnoughWritesComplete(size: nat, writes: seq<int>)
    requires |writes| >= size && forall i :: 0 <= i < |writes| ==> writes[i] > 0
    ensures Taken(size, writes) == size
  {
    if size > 0 && writes[0] < size {
      EnoughWritesComplete(size - writes[0], writes[1..]);
    }
  }

  function Total(writes: seq<int>): (t: int) {
    if writes == [] then 0 else Total(writes[..|writes| - 1]) + writes[|writes| - 1]
  }

  lemma {:induction false} TotalFromFront(writes: seq<int>)
    requires writes != []
    ensures Total(writes) == writes[0] + Total(writes[1..])
    decreases |writes|
  {
    var k := |writes| - 1;
    if k > 0 {
      TotalFromFront(writes[..k]);
      assert writes[..k][1..] == writes[1..][..k - 1];
    }
  }

  /** What reaches the file is all that was taken before the first empty write, up to the payload. */
  lemma {:induction false} TakenExact(size: nat, writes: seq<int>, i: nat)
    requires i <= |writes| && (forall j :: 0 <= j < i ==> writes[j] > 0) && (i < |writes| ==> writes[i] <= 0)
    ensures Taken(size, writes) == if Total(writes[..i]) < size then Total(writes[..i]) else size
  {
    if i > 0 {
      TotalFromFront(writes[..i]);
      assert writes[..i][1..] == writes[1..][..i - 1];
      if size > 0 && writes[0] < size {
        TakenExact(size - writes[0], writes[1..], i - 1);
      } else {
        TotalIsPositive(writes[1..][..i - 1]);
      }
    }
  }

  lemma {:induction false} TotalIsPositive(writes: seq<int>)
    requires forall j :: 0 <= j < |writes| ==> writes[j] > 0
    ensures Total(writes) >= 0
  {
    if writes != [] {
      TotalIsPositive(writes[..|writes| - 1]);
    }
  }

  // ---------------------------------------------------------------- the lock file

  datatype Acquired = Mine | InUse | WriteError

  /** What one attempt meets. `coerced` is what Python makes of metadata entries of other JSON
      types; `stale` is the lease clock together with the liveness check. */
  datatype Attempt = Attempt(
    mkdirFails: bool, openFails: bool, coerced: Option<Metadata>, stale: bool, tempFails: bool,
    writes: seq<int>, replaceFails: bool)

  /** `_read_lock_metadata` on these bytes. */
  function LockReading(raw: Bytes, coerced: Option<Metadata>): Option<Metadata> {
    match FromBytes(raw)
    case Unreadable => None
    case Coerced => coerced
    case Read(m) => Some(m)
  }

  /** The attempt may replace a lock with this content. */
  predicate Replaceable(content: Bytes, mine: Metadata, a: Attempt) {
    var existing := LockReading(content, a.coerced);
    existing.Some? && existing.value.handle.workspace == mine.handle.workspace && a.stale && !a.tempFails
  }

  /** `_acquire_lock_once` with `recover_stale`: the result and the lock file afterwards. */
  function AcquireOnce(lock: Option<Bytes>, mine: Metadata, a: Attempt): (Acquired, Option<Bytes>)
    requires IsPlain(mine)
  {
    var payload := ToBytes(mine);
    var n := Taken(|payload|, a.writes);
    if a.mkdirFails || a.openFails then (InUse, lock)
    else
      match lock
      case None => (if n == |payload| then Mine else WriteError, Some(payload[..n]))
      case Some(content) =>
        if !Replaceable(content, mine, a) then (InUse, lock)
        else if n < |payload| then (WriteError, lock)
        else if a.replaceFails then (InUse, lock)
        else (Mine, Some(payload))
  }

  /** `acquire_lock`: attempts until one does not find the lock in use, or the deadline. */
  function Acquire(lock: Option<Bytes>, mine: Metadata, attempts: seq<Attempt>): (Acquired, Option<Bytes>)
    requires IsPlain(mine)
  {
    if attempts == [] then (InUse, lock)
    else if AcquireOnce(lock, mine, attempts[0]).0 != InUse then AcquireOnce(lock, mine, attempts[0])
    else Acquire(lock, mine, attempts[1..])
  }

  /** `release_lock`. */
  function Release(lock: Option<Bytes>, owner: Text, coerced: Option<Metadata>, fails: bool): Option<Bytes> {
    match lock
    case None => None
    case Some(content) =>
      match LockReading(content, coerced)
      case None => lock
      case Some(m) => if m.owner == owner && !fails then None else lock
  }

  class Workspace {
    var parent: bool
    var lock: Option<Bytes>
    var marker: Option<Bytes>

    constructor (parent: bool)
      ensures this.parent == parent && lock == None && marker == None
    {
      this.parent := parent;
      lock := None;
      marker := None;
    }

    method TryAcquire(mine: Metadata, a: Attempt) returns (r: Acquired)
      requires IsPlain(mine)
      modifies this`parent, this`lock
      ensures (r, lock) == AcquireOnce(old(lock), mine, a)
      ensures parent == (old(parent) || !a.mkdirFails)
    {
      if a.mkdirFails {
        return InUse;
      }
      parent := true;
      if a.openFails {
        return InUse;
      }
      var payload := ToBytes(mine);
      if lock == None {
        var content, outcome := WriteAll(payload, a.writes);
        lock := Some(content);
        return if outcome == Complete then Mine else WriteError;
      }
      var existing := LockReading(lock.value, a.coerced);
      if existing == None || existing.value.handle.workspace != mine.handle.workspace || !a.stale {
        return InUse;
      }
      if a.tempFails {
        return InUse;
      }
      var content, outcome := WriteAll(payload, a.writes);
      if outcome != Complete {
        return WriteError;
      }
      if a.replaceFails {
        return InUse;
      }
      lock := Some(content);
      r := Mine;
    }

    /** The retry loop: as many attempts as the deadline leaves room for. */
    method AcquireLock(mine: Metadata, attempts: seq<Attempt>) returns (r: Acquired)
      requires IsPlain(mine)
      modifies this`parent, this`lock
      ensures (r, lock) == Acquire(old(lock), mine, attempts)
    {
      r := InUse;
      var i := 0;
      while i < |attempts|
        invariant i <= |attempts| && lock == old(lock)
        invariant Acquire(old(lock), mine, attempts) == Acquire(old(lock), mine, attempts[i..])
      {
        assert attempts[i..][0] == attempts[i] && attempts[i..][1..] == attempts[i + 1..];
        r := TryAcquire(mine, attempts[i]);
        InUseChangesNothing(old(lock), mine, attempts[i]);
        if r != InUse {
          return;
        }
        i := i + 1;
      }
      r := InUse;
    }

    method ReleaseLock(owner: Text, coerced: Option<Metadata>, fails: bool)
      modifies this`lock
      ensures lock == Release(old(lock), owner, coerced, fails)
    {
      if lock == None {
        return;
      }
      var m := LockReading(lock.value, coerced);
      if m.Some? && m.value.owner == owner && !fails {
        lock := None;
      }
    }

    // -------------------------------------------------------------- the marker

    /** Create-only: an existing marker is never overwritten, and what a failed write leaves is a
        strict prefix. */
    method WriteMarkerCreateOnly(bytes: Bytes, fails: bool, writes: seq<int>) returns (r: MarkerWrite)
      modifies this`marker
      ensures r == CollisionFound <==> |bytes| <= 262145 && !fails && old(marker).Some?
      ensures r == CollisionFound ==> marker == old(marker)
      ensures r == Refused ==> marker == old(marker) && (|bytes| > 262145 || fails)
      ensures r == Written || r == Partial ==>
        old(marker) == None && marker == Some(bytes[..Taken(|bytes|, writes)])
      ensures r == Written <==>
        |bytes| <= 262145 && !fails && old(marker) == None && Taken(|bytes|, writes) == |bytes|
      ensures r == Partial ==> marker.Some? && marker.value < bytes
    {
      if |bytes| > MAX_READ_BYTES + 1 || fails {
        return Refused;
      }
      if marker.Some? {
        return CollisionFound;
      }
      var content, outcome := WriteAll(bytes, writes);
      marker := Some(content);
      r := if outcome == Complete then Written else Partial;
    }

    method ReadMarker(fails: bool) returns (r: Option<Bytes>)
      ensures r.Some? <==> marker.Some? && !fails
      ensures r.Some? ==> r.value == if |marker.value| <= 262145 then marker.value else marker.value[..262145]
    {
      if fails || marker == None {
        return None;
      }
      var limit := MAX_READ_BYTES + 1;
      r := Some(if |marker.value| <= limit then marker.value else marker.value[..limit]);
    }

    /** Deletes exactly the bound bytes, when they are within the bound. */
    method ConditionalDelete(expected: Bytes, readFails: bool, unlinkFails: bool) returns (deleted: bool)
      modifies this`marker
      ensures |expected| <= 262144 ==>
        (deleted <==> old(marker) == Some(expected) && !readFails && !unlinkFails)
      ensures deleted ==> old(marker).Some? && expected <= old(marker).value && !readFails && !unlinkFails
      ensures marker == if deleted then None else old(marker)
    {
      var raw := ReadMarker(readFails);
      if raw == None || raw.value != expected || unlinkFails {
        return false;
      }
      marker := None;
      deleted := true;
    }
  }

  datatype MarkerWrite = Written | Partial | CollisionFound | Refused

  // ---------------------------------------------------------------- laws

  lemma InUseChangesNothing(lock: Option<Bytes>, mine: Metadata, a: Attempt)
    requires IsPlain(mine)
    ensures AcquireOnce(lock, mine, a).0 == InUse ==> AcquireOnce(lock, mine, a).1 == lock
  {
  }

  /** The attempt gets the lock. */
  predicate Gets(lock: Option<Bytes>, mine: Metadata, a: Attempt)
    requires IsPlain(mine)
  {
    && !a.mkdirFails && !a.openFails && Taken(|ToBytes(mine)|, a.writes) == |ToBytes(mine)|
    && (lock.None? || (Replaceable(lock.value, mine, a) && !a.replaceFails))
  }

  /** The attempt finds the lock in use, or cannot get at it. */
  predicate Misses(lock: Option<Bytes>, mine: Metadata, a: Attempt)
    requires IsPlain(mine)
  {
    || a.mkdirFails || a.openFails
    || (lock.Some? && !Replaceable(lock.value, mine, a))
    || (lock.Some? && Taken(|ToBytes(mine)|, a.writes) == |ToBytes(mine)| && a.replaceFails)
  }

  /** Some attempt gets the lock after all before it have missed. */
  predicate Wins(lock: Option<Bytes>, mine: Metadata, attempts: seq<Attempt>, i: nat)
    requires IsPlain(mine)
  {
    i < |attempts| && Gets(lock, mine, attempts[i]) && forall j :: 0 <= j < i ==> Misses(lock, mine, attempts[j])
  }

  /** What the lock file is after a result. */
  predicate LeftBehind(r: Acquired, lock: Option<Bytes>, mine: Metadata, after: Option<Bytes>)
    requires IsPlain(mine)
  {
    match r
    case Mine => after == Some(ToBytes(mine))
    case InUse => after == lock
    case WriteError => if lock.Some? then after == lock else after.Some? && after.value < ToBytes(mine)
  }

  lemma AcquireOnceExact(lock: Option<Bytes>, mine: Metadata, a: Attempt)
    requires IsPlain(mine)
    ensures var (r, after) := AcquireOnce(lock, mine, a);
      (r == Mine <==> Gets(lock, mine, a)) && (r == InUse <==> Misses(lock, mine, a)) && LeftBehind(r, lock, mine, after)
  {
    hide ToBytes, Replaceable, IsPlain;
    var payload := ToBytes(mine);
    assert payload[..|payload|] == payload;
  }

  /** A lock is had if and only if some attempt gets it, from its absence or from a stale owner of the
      same workspace, and all attempts before that one miss. Otherwise the lock file is as it was,
      except that a failed write on a free lock leaves it torn. */
  lemma {:induction false} AcquireExact(lock: Option<Bytes>, mine: Metadata, attempts: seq<Attempt>)
    requires IsPlain(mine)
    ensures var (r, after) := Acquire(lock, mine, attempts);
      && LeftBehind(r, lock, mine, after)
      && (r == Mine <==> exists i: nat :: Wins(lock, mine, attempts, i))
  {
    if attempts != [] {
      var rest := attempts[1..];
      AcquireOnceExact(lock, mine, attempts[0]);
      AcquireExact(lock, mine, rest);
      hide ToBytes, Replaceable, IsPlain, AcquireOnce, Gets, Misses, LeftBehind;
      if AcquireOnce(lock, mine, attempts[0]).0 == InUse {
        FirstMisses(lock, mine, attempts);
      } else {
        FirstDecides(lock, mine, attempts);
      }
    }
  }

  lemma FirstMisses(lock: Option<Bytes>, mine: Metadata, attempts: seq<Attempt>)
    requires IsPlain(mine) && attempts != [] && Misses(lock, mine, attempts[0]) && !Gets(lock, mine, attempts[0])
    ensures (exists i: nat :: Wins(lock, mine, attempts, i)) <==> (exists i: nat :: Wins(lock, mine, attempts[1..], i))
  {
    hide IsPlain, Gets, Misses;
    if i: nat :| Wins(lock, mine, attempts, i) {
      assert i > 0;
      assert forall j :: 0 <= j < i - 1 ==> attempts[1..][j] == attempts[j + 1];
      assert Wins(lock, mine, attempts[1..], i - 1);
    }
    if i: nat :| Wins(lock, mine, attempts[1..], i) {
      assert forall j :: 0 < j <= i + 1 ==> attempts[j] == attempts[1..][j - 1];
      assert Wins(lock, mine, attempts, i + 1);
    }
  }

  lemma FirstDecides(lock: Option<Bytes>, mine: Metadata, attempts: seq<Attempt>)
    requires IsPlain(mine) && attempts != [] && !Misses(lock, mine, attempts[0])
    ensures (exists i: nat :: Wins(lock, mine, attempts, i)) <==> Gets(lock, mine, attempts[0])
  {
    hide IsPlain, Gets, Misses;
    if Gets(lock, mine, attempts[0]) {
      assert Wins(lock, mine, attempts, 0);
    }
  }

  /** A torn lock file cannot be acquired, however often, whatever the clock and the liveness check
      say; nobody can release it either. */
  lemma TornLockStays(owner: Metadata, n: nat, mine: Metadata, attempts: seq<Attempt>, id: Text)
    requires IsPlain(owner) && IsPlain(mine) && n < |ToBytes(owner)|
    ensures var torn := Some(ToBytes(owner)[..n]);
      && Acquire(torn, mine, attempts) == (InUse, torn)
      && Release(torn, id, None, false) == torn
  {
    TornMetadataUnreadable(owner, n);
    var torn := ToBytes(owner)[..n];
    assert forall coerced :: LockReading(torn, coerced) == None;
    hide ToBytes, FromBytes, IsPlain;
    TornStays(torn, mine, attempts);
  }

  lemma {:induction false} TornStays(torn: Bytes, mine: Metadata, attempts: seq<Attempt>)
    requires IsPlain(mine) && forall coerced :: LockReading(torn, coerced) == None
    ensures Acquire(Some(torn), mine, attempts) == (InUse, Some(torn))
  {
    if attempts != [] {
      assert LockReading(torn, attempts[0].coerced) == None;
      TornStays(torn, mine, attempts[1..]);
    }
  }

  /** Acquire and release are inverse exactly when the metadata is within the bound and names an
      owner and a process; otherwise the owner cannot release its own lock. */
  lemma ReleaseUndoesAcquire(mine: Metadata)
    requires IsPlain(mine)
    ensures Release(Some(ToBytes(mine)), mine.owner, None, false) == None
       <==> |ToBytes(mine)| <= 4096 && mine.owner != [] && mine.pid > 0
    ensures forall id :: id != mine.owner ==> Release(Some(ToBytes(mine)), id, None, false) == Some(ToBytes(mine))
  {
    MetadataReadsBack(mine);
    hide ToBytes, FromBytes, IsPlain;
  }

  /** The metadata the operations themselves write always reads back, so they can release it. */
  lemma OwnLockIsReleased(mine: Metadata)
    requires IsOwn(mine)
    ensures FromBytes(ToBytes(mine)) == Read(mine)
    ensures Release(Some(ToBytes(mine)), mine.owner, None, false) == None
  {
    OwnMetadataFits(mine);
    MetadataReadsBack(mine);
    hide ToBytes, FromBytes, IsPlain;
    ReleaseUndoesAcquire(mine);
  }

  /** An owner id that a caller of `acquire_lock` made too long: its lock can be acquired and not
      released. */
  lemma OversizedLockStays()
    ensures IsPlain(Oversized()) && |ToBytes(Oversized())| > 4096
    ensures Release(Some(ToBytes(Oversized())), Oversized().owner, None, false) == Some(ToBytes(Oversized()))
  {
    OversizedIsTooLong();
    hide ToBytes, FromBytes, IsPlain, Oversized;
    ReleaseUndoesAcquire(Oversized());
  }

  // ---------------------------------------------------------------- a written lock

  /** What it takes to replace the lock that `m` wrote: nothing fails, the owner is stale, the
      workspace is the same and the new metadata is written in full. */
  predicate TakesOver(m: Metadata, mine: Metadata, a: Attempt)
    requires IsPlain(mine)
  {
    && !a.mkdirFails && !a.openFails && !a.tempFails && !a.replaceFails
    && a.stale && m.handle.workspace == mine.handle.workspace
    && Taken(|ToBytes(mine)|, a.writes) == |ToBytes(mine)|
  }

  /** What leaves that lock in use. */
  predicate StandsOff(m: Metadata, mine: Metadata, a: Attempt)
    requires IsPlain(mine)
  {
    || a.mkdirFails || a.openFails || a.tempFails
    || !a.stale || m.handle.workspace != mine.handle.workspace
    || (Taken(|ToBytes(mine)|, a.writes) == |ToBytes(mine)| && a.replaceFails)
  }

  lemma WrittenLockReads(m: Metadata, coerced: Option<Metadata>)
    requires IsOwn(m)
    ensures LockReading(ToBytes(m), coerced) == Some(m)
  {
    OwnLockIsReleased(m);
    hide ToBytes, FromBytes, IsPlain;
  }

  /** Such a lock is released exactly by its owner, when the unlink works; otherwise it stays. */
  lemma WrittenLockReleased(m: Metadata, id: Text, coerced: Option<Metadata>, fails: bool)
    requires IsOwn(m)
    ensures Release(Some(ToBytes(m)), id, coerced, fails) == if id == m.owner && !fails then None else Some(ToBytes(m))
    ensures Release(None, id, coerced, fails) == None
  {
    WrittenLockReads(m, coerced);
    hide ToBytes, LockReading, IsPlain, IsOwn;
  }

  /** A lock that an operation wrote is replaced by an attempt if and only if its owner is stale, its
      workspace is the same one and everything works; otherwise its bytes are as they were. */
  lemma WrittenLockExact(m: Metadata, mine: Metadata, a: Attempt)
    requires IsOwn(m) && IsPlain(mine)
    ensures var (r, after) := AcquireOnce(Some(ToBytes(m)), mine, a);
      && (r == Mine <==> TakesOver(m, mine, a)) && (r == InUse <==> StandsOff(m, mine, a))
      && after == Some(if r == Mine then ToBytes(mine) else ToBytes(m))
  {
    WrittenLockReads(m, a.coerced);
    hide ToBytes, LockReading, IsPlain, IsOwn;
  }

  /** The lock of a running owner, or of another workspace, is never taken, however often it is tried. */
  lemma {:induction false} LiveLockStays(m: Metadata, mine: Metadata, attempts: seq<Attempt>)
    requires IsOwn(m) && IsPlain(mine)
    requires forall i :: 0 <= i < |attempts| ==> !attempts[i].stale || m.handle.workspace != mine.handle.workspace
    ensures Acquire(Some(ToBytes(m)), mine, attempts) == (InUse, Some(ToBytes(m)))
  {
    hide ToBytes, IsPlain, IsOwn, AcquireOnce;
    if attempts != [] {
      WrittenLockExact(m, mine, attempts[0]);
      LiveLockStays(m, mine, attempts[1..]);
    }
  }

  /** The attempt takes the lock over after all before it have found it in use. */
  predicate TakesAt(m: Metadata, mine: Metadata, attempts: seq<Attempt>, i: nat)
    requires IsPlain(mine)
  {
    i < |attempts| && TakesOver(m, mine, attempts[i]) && forall j :: 0 <= j < i ==> StandsOff(m, mine, attempts[j])
  }

  /** So whoever gets it has found its owner stale, in its own workspace; all others leave it as it was. */
  lemma WrittenLockTaken(m: Metadata, mine: Metadata, attempts: seq<Attempt>)
    requires IsOwn(m) && IsPlain(mine)
    ensures var (r, after) := Acquire(Some(ToBytes(m)), mine, attempts);
      && (r == Mine <==> exists i: nat :: TakesAt(m, mine, attempts, i))
      && after == Some(if r == Mine then ToBytes(mine) else ToBytes(m))
  {
    var lock := Some(ToBytes(m));
    AcquireExact(lock, mine, attempts);
    forall i: nat | i < |attempts|
      ensures Gets(lock, mine, attempts[i]) <==> TakesOver(m, mine, attempts[i])
      ensures Misses(lock, mine, attempts[i]) <==> StandsOff(m, mine, attempts[i])
    {
      AcquireOnceExact(lock, mine, attempts[i]);
      WrittenLockExact(m, mine, attempts[i]);
    }
    hide ToBytes, IsPlain, IsOwn, Acquire, AcquireOnce, Gets, Misses, TakesOver, StandsOff;
    if i: nat :| Wins(lock, mine, attempts, i) {
      assert TakesAt(m, mine, attempts, i);
    }
    if i: nat :| TakesAt(m, mine, attempts, i) {
      assert Wins(lock, mine, attempts, i);
    }
  }
}
