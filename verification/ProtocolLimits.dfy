/** Where the lock stops protecting: a harmful replacement ends with two live calls inside the
    block, and neither half of careful recovery can be dropped. */
module ProtocolLimits {
  import opened Text
  import opened Marker
  import opened Protocol
  import opened ProtocolLock
  import opened ProtocolPlaces
  import opened ProtocolPaths
  import opened ProtocolMarker
  import DraftLaws

  lemma TwoInside(s: State, p: Pid, q: Pid)
    requires Live(s, p) && Live(s, q) && p != q && InBlock(s.procs[p].pc) && InBlock(s.procs[q].pc)
    ensures !Exclusive(s)
  {
  }

  // ---------------------------------------------------------------- somebody new

  lemma {:induction false} Bound(numbers: set<nat>) returns (n: nat)
    ensures forall x :: x in numbers ==> x < n
  {
    if numbers == {} {
      n := 0;
    } else {
      var x :| x in numbers;
      var m := Bound(numbers - {x});
      assert forall y :: y in numbers ==> y == x || y in numbers - {x};
      n := if m > x then m else x + 1;
    }
  }

  /** A task whose steps before the lock succeed as things are. */
  function SuitedTask(s: State): Task {
    if s.marker.None? || ReadMarker(s, false).None? then Register(DraftLaws.Example(), !s.parent)
    else Resolve(ReadMarker(s, false).value)
  }

  /** A new call, with a new confirmation, for such a task. */
  lemma NewCall(s: State) returns (p: Pid, call: Call)
    requires s.marker.Some? ==> ReadMarker(s, false).Some?
    ensures IsFresh(s, p, call) && Suits(s, call.task)
  {
    hide Accepted, DraftLaws.Example, BoundedRead;
    DraftLaws.ExampleIsAccepted();
    p := Bound(s.procs.Keys);
    var c := Bound(s.consumed);
    call := Call(SuitedTask(s), Some(c), true);
  }

  lemma MarkerIsRead(s: State)
    requires AllLocal(s)
    ensures s.marker.Some? ==> ReadMarker(s, false).Some?
  {
    hide Local;
  }

  /** A new call takes over the complete lock of a dead owner and enters the block; nobody else
      moves. */
  lemma NewCallEnters(from: State, s: State, q: Pid) returns (p: Pid, t: State)
    requires Reach(Unrestricted, from, s) && s.lock == Held(q) && Dead(s, q)
    requires s.marker.Some? ==> ReadMarker(s, false).Some?
    ensures Reach(Unrestricted, from, t) && t.lock == Held(p)
    ensures p !in s.procs && Live(t, p) && InBlock(t.procs[p].pc)
    ensures forall x :: x in s.procs ==> x in t.procs && t.procs[x] == s.procs[x]
  {
    hide Reach, Suits, ReadMarker, WellFormed;
    var call;
    p, call := NewCall(s);
    ReachMkdir(Unrestricted, from, s, p, call);
    var s1 := Put(Consumed(s, call), p, Worker(call, Acquiring(Mkdir)));
    ReachCheck(Unrestricted, from, s1, p, call);
    var s2 := Put(s1.(parent := true), p, Worker(call, Acquiring(CheckStale(q))));
    ReachTemp(Unrestricted, from, s2, p, q, s2.procs[p]);
    var s3 := Put(s2, p, Worker(call, Acquiring(CreateTemp(q))));
    ReachRecovered(Unrestricted, from, s3, p, q, s3.procs[p]);
    t := Put(s3.(lock := Held(p)), p, Worker(call, EnterPc(call.task)));
  }

  // ---------------------------------------------------------------- harm done is two in the block

  /** The owner of a lock, left to itself, is inside the block after two steps, and the lock is what
      it was if it has been taken over. */
  lemma OwnerEnters(from: State, s: State, r: Pid) returns (t: State)
    requires Reach(Unrestricted, from, s) && OwnsLock(s, r) && Fits(s.procs[r].call.task, s.procs[r].pc)
    ensures Reach(Unrestricted, from, t) && Live(t, r) && InBlock(t.procs[r].pc)
    ensures s.lock != Torn(r) ==> t.lock == s.lock
    ensures forall x :: x != r && x in s.procs ==> x in t.procs && t.procs[x] == s.procs[x]
  {
    hide Reach, WorkMove, StartMove, PrepareMove, ReleaseMove;
    t := s;
    if t.procs[r].pc == Acquiring(WriteLock) {
      ReachNext(Unrestricted, from, t, Good(r));
      t := Next(t, Good(r));
    }
    if t.procs[r].pc == Acquiring(SyncLock) {
      ReachNext(Unrestricted, from, t, Good(r));
      t := Next(t, Good(r));
    }
  }

  /** A replacement that is not harmless, whoever makes it, leads to two live calls inside the
      block: the one that was robbed, and the one that robbed it or a new one that takes over the
      lock of a `recover_lock` process that has ended. */
  lemma HarmIsTwoInBlock(parent: bool, actions: seq<Action>, a: Action)
    requires var s := Run(Initial(parent), actions); Owned(s) && !Harmless(s, a)
    ensures exists more :: !Exclusive(Run(Initial(parent), actions + [a] + more))
  {
    var s := Run(Initial(parent), actions);
    var r :| OwnsLock(s, r) && r != a.pid;
    AfterReplacement(s, a, r);
    AlwaysFits(parent, actions);
    assert (actions + [a])[..|actions|] == actions;
    var from := Run(Initial(parent), actions + [a]);
    assert from == Next(s, a);
    hide Next, Run, Owned, Harmless;
    ReachStart(Unrestricted, from);
    var t := HarmDone(parent, actions + [a], r, a.pid);
    MoreOf(from, t);
    var more :| Run(from, more) == t;
    RunConcat(Initial(parent), actions + [a], more);
  }

  lemma MoreOf(from: State, t: State)
    requires Reach(Unrestricted, from, t)
    ensures exists more :: Run(from, more) == t
  {
    var more :| Throughout(Unrestricted, from, more) && Run(from, more) == t;
  }

  lemma HarmDone(parent: bool, actions: seq<Action>, r: Pid, p: Pid) returns (t: State)
    requires var s := Run(Initial(parent), actions);
      && OwnsLock(s, r) && r != p && s.lock == Held(p) && Fits(s.procs[r].call.task, s.procs[r].pc)
      && Live(s, p) && s.procs[p].pc == EnterPc(s.procs[p].call.task)
    ensures Reach(Unrestricted, Run(Initial(parent), actions), t) && !Exclusive(t)
  {
    var s := Run(Initial(parent), actions);
    hide Reach, AllLocal, Local, Exclusive;
    ReachStart(Unrestricted, s);
    t := OwnerEnters(s, s, r);
    if s.procs[p].call.task.RecoverLock? {
      ReachDead(Unrestricted, s, t, p);
      t := Put(t, p, t.procs[p].(alive := false));
      StillLocal(parent, actions, t);
      MarkerIsRead(t);
      var x;
      x, t := NewCallEnters(s, t, p);
      TwoInside(t, x, r);
    } else {
      TwoInside(t, p, r);
    }
  }

  lemma StillLocal(parent: bool, actions: seq<Action>, t: State)
    requires Reach(Unrestricted, Run(Initial(parent), actions), t)
    ensures AllLocal(t)
  {
    hide AllLocal;
    MoreOf(Run(Initial(parent), actions), t);
    var more :| Run(Run(Initial(parent), actions), more) == t;
    RunConcat(Initial(parent), actions, more);
    AlwaysLocal(parent, actions + more);
  }

  // ---------------------------------------------------------------- neither half can be dropped

  function Asker(c: ConfirmationId): Call {
    Call(Register(DraftLaws.Example(), false), Some(c), true)
  }

  predicate Quietly(s: State) {
    s.parent && s.marker.None?
  }

  lemma AskerSuits(s: State, p: Pid, c: ConfirmationId)
    requires Quietly(s) && p !in s.procs && c !in s.consumed
    ensures IsFresh(s, p, Asker(c)) && Suits(s, Asker(c).task)
  {
    hide Accepted, DraftLaws.Example;
    DraftLaws.ExampleIsAccepted();
  }

  /** A register call that gets into the block. */
  lemma Entering(h: Habit, s: State, p: Pid) returns (t: State)
    requires IsLoose(h) && Reach(h, Initial(true), s) && Quietly(s) && s.lock == NoLock
    requires p !in s.procs && p !in s.consumed
    ensures Reach(h, Initial(true), t)
    ensures t == Put(s.(lock := Held(p), consumed := s.consumed + {p}), p, Worker(Asker(p), Working(RegConfirm)))
  {
    hide Reach, Suits, WellFormed, DraftLaws.Example;
    var call := Asker(p);
    AskerSuits(s, p, p);
    ReachMkdir(h, Initial(true), s, p, call);
    var s1 := Put(Consumed(s, call), p, Worker(call, Acquiring(Mkdir)));
    ReachInside(h, Initial(true), s1, p, call);
    t := Put(s1.(parent := true, lock := Held(p)), p, Worker(call, Working(RegConfirm)));
  }

  /** A register call that has read the metadata of call 0. */
  lemma WaitingFor0(h: Habit, s: State, p: Pid) returns (t: State)
    requires IsLoose(h) && Reach(h, Initial(true), s) && Quietly(s) && s.lock == Held(0)
    requires p !in s.procs && p !in s.consumed
    ensures Reach(h, Initial(true), t)
    ensures t == Put(s.(consumed := s.consumed + {p}), p, Worker(Asker(p), Acquiring(CheckStale(0))))
  {
    hide Reach, Suits, WellFormed, DraftLaws.Example;
    var call := Asker(p);
    AskerSuits(s, p, p);
    ReachMkdir(h, Initial(true), s, p, call);
    var s1 := Put(Consumed(s, call), p, Worker(call, Acquiring(Mkdir)));
    ReachCheck(h, Initial(true), s1, p, call);
    t := Put(s1.(parent := true), p, Worker(call, Acquiring(CheckStale(0))));
  }

  /** It replaces the lock. */
  lemma Recovering0(h: Habit, s: State, p: Pid) returns (t: State)
    requires IsLoose(h) && Reach(h, Initial(true), s)
    requires p in s.procs && s.procs[p] == Worker(Asker(p), Acquiring(CreateTemp(0)))
    ensures Reach(h, Initial(true), t) && t == Put(s.(lock := Held(p)), p, Worker(Asker(p), Working(RegConfirm)))
  {
    hide Reach, DraftLaws.Example;
    ReachRecovered(h, Initial(true), s, p, 0, s.procs[p]);
    t := Put(s.(lock := Held(p)), p, Worker(Asker(p), Working(RegConfirm)));
  }

  /** Two recoveries that overlap, each finding the dead owner's lock as it read it, end with both
      calls inside the block. */
  lemma OverlappingRecoveries()
    ensures exists s :: Reach(FoundAsReadOnly, Initial(true), s) && !Exclusive(s)
  {
    hide Reach, Exclusive, DraftLaws.Example;
    var h, from := FoundAsReadOnly, Initial(true);
    ReachStart(h, from);
    var s := Entering(h, from, 0);
    s := WaitingFor0(h, s, 1);
    s := WaitingFor0(h, s, 2);
    ReachDead(h, from, s, 0);
    s := Put(s, 0, s.procs[0].(alive := false));
    ReachTemp(h, from, s, 1, 0, s.procs[1]);
    s := Put(s, 1, Worker(Asker(1), Acquiring(CreateTemp(0))));
    ReachTemp(h, from, s, 2, 0, s.procs[2]);
    s := Put(s, 2, Worker(Asker(2), Acquiring(CreateTemp(0))));
    s := Recovering0(h, s, 1);
    s := Recovering0(h, s, 2);
    TwoInside(s, 1, 2);
  }

  /** One recovery is enough: its check comes after the owner has released, another call has taken
      the lock and the first owner's process has gone. */
  lemma LateCheck()
    ensures exists s :: Reach(SoleRecoveryOnly, Initial(true), s) && !Exclusive(s)
  {
    hide Reach, Exclusive, DraftLaws.Example;
    var h, from := SoleRecoveryOnly, Initial(true);
    ReachStart(h, from);
    var s := Entering(h, from, 0);
    s := WaitingFor0(h, s, 1);
    ReachReleasing(h, from, s, 0, Asker(0));
    s := Put(s, 0, Worker(Asker(0), ReleaseRead(Stop(WriteFailed))));
    ReachReleased(h, from, s, 0, s.procs[0], Stop(WriteFailed));
    s := Put(s.(lock := NoLock), 0, Worker(Asker(0), Done(Stop(WriteFailed))));
    s := Entering(h, s, 2);
    ReachDead(h, from, s, 0);
    s := Put(s, 0, s.procs[0].(alive := false));
    ReachTemp(h, from, s, 1, 0, s.procs[1]);
    s := Put(s, 1, Worker(Asker(1), Acquiring(CreateTemp(0))));
    s := Recovering0(h, s, 1);
    TwoInside(s, 1, 2);
  }
}
