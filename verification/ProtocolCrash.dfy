/** What a crashed owner's lock file means for everybody else: complete metadata can be taken over,
    a torn file stays for good, exactly when nobody is poised to touch it. */
module ProtocolCrash {
  import opened Text
  import opened Marker
  import opened Protocol
  import opened ProtocolLock
  import opened ProtocolPlaces
  import opened ProtocolPaths
  import opened ProtocolMarker
  import opened ProtocolLimits

  // ---------------------------------------------------------------- stuck

  /** The lock file is partly written and its writer is gone. */
  predicate Abandoned(s: State, p: Pid) {
    s.lock == Torn(p) && !(Live(s, p) && RoleOf(s.procs[p].pc) == Writing)
  }

  /** Steps from which a call can change the lock file without looking at it again. */
  predicate IsPoised(pc: Pc) {
    pc.ReleaseUnlink? || RoleOf(pc).Recovering? || (pc.Acquiring? && pc.acquire.CheckStale?)
  }

  /** Abandoned, and no live call is poised. */
  ghost predicate Stuck(s: State, p: Pid) {
    Abandoned(s, p) && forall r :: Live(s, r) ==> !IsPoised(s.procs[r].pc)
  }

  /** The move makes nobody poised and nobody an owner. */
  predicate MakesNoOwner(pc: Pc, m: Move) {
    && !IsPoised(m.pc)
    && !m.effect.LockCreated? && !m.effect.LockReplaced? && !m.effect.LockRemoved?
    && (m.effect.LockCompleted? ==> RoleOf(pc) == Writing)
    && (RoleOf(m.pc) == Writing ==> RoleOf(pc) == Writing)
    && (RoleOf(m.pc) == Holding ==> RoleOf(pc) == Writing || RoleOf(pc) == Holding)
  }

  /** While the lock is torn nobody becomes poised, and nobody else comes to own a lock. */
  lemma NobodyPoised(s: State, p: Pid, call: Call, pc: Pc, o: Oracle)
    requires s.lock.Torn? && !IsPoised(pc)
    ensures MakesNoOwner(pc, Decide(s, p, call, pc, o))
  {
    if pc.Working? {
      hide AcquireMove, StartMove, PrepareMove, ReleaseMove, WorkMove;
      WorkStaysInside(s, p, call, pc.inside, o);
    } else if pc.Acquiring? {
      hide AcquireMove, StartMove, PrepareMove, ReleaseMove, WorkMove, MakesNoOwner;
      NobodyPoisedAcquiring(s, call.task, pc.acquire, o);
    } else if pc.Start? || pc.Preparing? {
      hide AcquireMove, StartMove, PrepareMove, ReleaseMove, WorkMove, MakesNoOwner;
      NobodyPoisedPreparing(s, call, pc, o);
    } else {
      hide AcquireMove, StartMove, PrepareMove, WorkMove;
    }
  }

  lemma NobodyPoisedPreparing(s: State, call: Call, pc: Pc, o: Oracle)
    requires pc.Start? || pc.Preparing?
    ensures MakesNoOwner(pc, if pc.Start? then StartMove(s, call) else PrepareMove(s, call, pc.before, o))
  {
    if pc.Preparing? {
      hide PrepareMove, MakesNoOwner;
      PreparingLeavesLock(s, call, pc.before, o);
      NoLockNoOwner(pc, PrepareMove(s, call, pc.before, o));
    } else {
      hide PrepareMove;
    }
  }

  /** Before the lock: preparing, on the way to it, or done. */
  predicate IsBeforeLock(m: Move) {
    && (m.effect.Quiet? || m.effect.ConfirmationConsumed?)
    && (m.pc.Preparing? || m.pc.Done? || m.pc == Acquiring(Mkdir) || m.pc == Acquiring(ReadLock))
  }

  lemma PreparingLeavesLock(s: State, call: Call, before: Before, o: Oracle)
    ensures IsBeforeLock(PrepareMove(s, call, before, o))
  {
    hide ReadMarker, Believes;
  }

  lemma NoLockNoOwner(pc: Pc, m: Move)
    requires IsBeforeLock(m)
    ensures MakesNoOwner(pc, m)
  {
  }

  lemma NobodyPoisedAcquiring(s: State, task: Task, a: Acquire, o: Oracle)
    requires s.lock.Torn? && !IsPoised(Acquiring(a))
    ensures MakesNoOwner(Acquiring(a), AcquireMove(s, task, a, o))
  {
  }

  lemma WorkStaysInside(s: State, p: Pid, call: Call, i: Inside, o: Oracle)
    ensures var m := WorkMove(s, p, call, i, o); m.pc.Working? || m.pc.ReleaseRead?
    ensures var e := WorkMove(s, p, call, i, o).effect;
      !e.LockCreated? && !e.LockReplaced? && !e.LockRemoved? && !e.LockCompleted?
  {
    hide BoundedRead, Believes, DraftBytes, ReadBackVerified, ReadBackReason, OccupiedReason, MismatchReason;
    hide Classify, ReadMarker;
  }

  lemma StuckAct(s: State, p: Pid, a: Pid, m: Move, o: Oracle)
    requires Stuck(s, p) && Live(s, a) && m == MoveOf(s, a, o)
    ensures Stuck(Apply(s, a, m), p)
    ensures OwnsLock(Apply(s, a, m), a) ==> OwnsLock(s, a)
  {
    NobodyPoised(s, a, s.procs[a].call, s.procs[a].pc, o);
    hide MoveOf, IsPoised, RoleOf;
    var t := Apply(s, a, m);
    assert t.lock == s.lock;
    assert forall r :: Live(t, r) ==> Live(s, r) && (r != a ==> t.procs[r] == s.procs[r]);
    assert t.procs[a].pc == m.pc;
    hide Apply;
    forall r | Live(t, r) ensures !IsPoised(t.procs[r].pc) {
      assert Live(s, r);
    }
  }

  /** A stuck lock stays stuck, and nobody comes to own a lock, whatever happens next. */
  lemma StuckStep(s: State, a: Action, p: Pid)
    requires Stuck(s, p)
    ensures Stuck(Next(s, a), p)
    ensures forall r :: OwnsLock(Next(s, a), r) ==> OwnsLock(s, r)
  {
    hide MoveOf;
    var t := Next(s, a);
    if a.step.Take? && Live(s, a.pid) {
      StuckAct(s, p, a.pid, MoveOf(s, a.pid, a.step.oracle), a.step.oracle);
    } else {
      assert t.lock == s.lock;
      forall r | Live(t, r) ensures !IsPoised(t.procs[r].pc) {
        assert Live(s, r) || t.procs[r].pc == Start;
      }
    }
  }

  lemma {:induction false} StuckForever(s: State, actions: seq<Action>, p: Pid)
    requires Stuck(s, p)
    ensures Stuck(Run(s, actions), p)
    ensures forall r :: OwnsLock(Run(s, actions), r) ==> OwnsLock(s, r)
    decreases |actions|
  {
    hide Next, Stuck;
    if actions != [] {
      var k := |actions| - 1;
      StuckForever(s, actions[..k], p);
      StuckStep(Run(s, actions[..k]), actions[k], p);
    }
  }

  // ---------------------------------------------------------------- who is named by a lock

  /** The call has completed its lock file some time ago. */
  predicate IsPast(s: State, q: Pid) {
    q in s.procs && HasBeenOwner(s.procs[q].pc)
  }

  predicate HasBeenOwner(pc: Pc) {
    pc == Acquiring(SyncLock) || InBlock(pc) || pc.Done?
  }

  /** The owner a call has read from the lock file. */
  function ReadOwner(pc: Pc): Option<Pid> {
    match pc
    case Acquiring(CheckStale(q)) => Some(q)
    case Acquiring(CreateTemp(q)) => Some(q)
    case Acquiring(WriteTemp(q)) => Some(q)
    case Acquiring(SyncTemp(q)) => Some(q)
    case Acquiring(ReplaceLock(q)) => Some(q)
    case _ => None
  }

  /** Complete metadata, at the lock path or read from it, names a call that has completed it. */
  ghost predicate OwnersKnown(s: State) {
    && (s.lock.Held? ==> IsPast(s, s.lock.owner))
    && (forall r :: r in s.procs && ReadOwner(s.procs[r].pc).Some? ==> IsPast(s, ReadOwner(s.procs[r].pc).value))
  }

  lemma OwnersMove(s: State, p: Pid, call: Call, pc: Pc, o: Oracle)
    requires Fits(call.task, pc)
    ensures var m := Decide(s, p, call, pc, o);
      && (HasBeenOwner(pc) ==> HasBeenOwner(m.pc))
      && (m.effect.LockCompleted? || m.effect.LockReplaced? ==> HasBeenOwner(m.pc))
      && (ReadOwner(m.pc).Some? ==> ReadOwner(m.pc) == ReadOwner(pc) || s.lock == Held(ReadOwner(m.pc).value))
  {
    hide WorkMove, ReadMarker, Believes;
    if pc.Working? {
      WorkStaysInside(s, p, call, pc.inside, o);
    }
  }

  lemma OwnersAct(s: State, p: Pid, m: Move)
    requires OwnersKnown(s) && p in s.procs
    requires HasBeenOwner(s.procs[p].pc) ==> HasBeenOwner(m.pc)
    requires m.effect.LockCompleted? || m.effect.LockReplaced? ==> HasBeenOwner(m.pc)
    requires ReadOwner(m.pc).Some? ==>
      ReadOwner(m.pc) == ReadOwner(s.procs[p].pc) || s.lock == Held(ReadOwner(m.pc).value)
    ensures OwnersKnown(Apply(s, p, m))
  {
    hide HasBeenOwner, ReadOwner;
    var t := Apply(s, p, m);
    forall q | IsPast(s, q) ensures IsPast(t, q) {
    }
    forall r | r in t.procs && ReadOwner(t.procs[r].pc).Some? ensures IsPast(t, ReadOwner(t.procs[r].pc).value) {
      assert r != p ==> t.procs[r] == s.procs[r];
    }
  }

  lemma OwnersStep(s: State, a: Action)
    requires OwnersKnown(s) && AllFit(s)
    ensures OwnersKnown(Next(s, a))
  {
    hide Decide, HasBeenOwner, Fits;
    if a.step.Take? && Live(s, a.pid) {
      OwnersMove(s, a.pid, s.procs[a.pid].call, s.procs[a.pid].pc, a.step.oracle);
      OwnersAct(s, a.pid, MoveOf(s, a.pid, a.step.oracle));
    } else {
      hide MoveOf;
      var t := Next(s, a);
      assert forall q :: IsPast(s, q) ==> IsPast(t, q);
    }
  }

  lemma {:induction false} AlwaysKnown(parent: bool, actions: seq<Action>)
    ensures OwnersKnown(Run(Initial(parent), actions))
    decreases |actions|
  {
    hide Next;
    if actions != [] {
      var k := |actions| - 1;
      AlwaysKnown(parent, actions[..k]);
      AlwaysFits(parent, actions[..k]);
      OwnersStep(Run(Initial(parent), actions[..k]), actions[k]);
    }
  }

  // ---------------------------------------------------------------- not stuck

  /** A poised call can go through with it, if the owner it has read is dead by then. */
  lemma PoisedActs(from: State, s: State, r: Pid) returns (t: State)
    requires Reach(Unrestricted, from, s) && Live(s, r) && IsPoised(s.procs[r].pc) && OwnersKnown(s)
    ensures Reach(Unrestricted, from, t) && !t.lock.Torn?
  {
    hide Reach, OwnersKnown;
    var pc := s.procs[r].pc;
    if pc.ReleaseUnlink? {
      ReachNext(Unrestricted, from, s, Good(r));
      t := Next(s, Good(r));
    } else if pc.acquire.CheckStale? {
      var q := pc.acquire.owner;
      OwnerIsAnother(s, r, q);
      ReachDead(Unrestricted, from, s, q);
      t := Put(s, q, s.procs[q].(alive := false));
      ReachTemp(Unrestricted, from, t, r, q, t.procs[r]);
      t := Put(t, r, t.procs[r].(pc := Acquiring(CreateTemp(q))));
      t := RecoveryEnds(from, t, r, q);
    } else {
      t := RecoveryEnds(from, s, r, pc.acquire.owner);
    }
  }

  lemma OwnerIsAnother(s: State, r: Pid, q: Pid)
    requires OwnersKnown(s) && r in s.procs && s.procs[r].pc == Acquiring(CheckStale(q))
    ensures q in s.procs && q != r
  {
    assert IsPast(s, ReadOwner(s.procs[r].pc).value);
  }

  lemma RecoveryStep(from: State, s: State, r: Pid, q: Pid) returns (t: State)
    requires Reach(Unrestricted, from, s) && Live(s, r) && RoleOf(s.procs[r].pc) == Recovering(q)
    ensures Reach(Unrestricted, from, t) && Live(t, r)
    ensures match s.procs[r].pc.acquire
            case CreateTemp(_) => t.procs[r].pc == Acquiring(WriteTemp(q))
            case WriteTemp(_) => t.procs[r].pc == Acquiring(SyncTemp(q))
            case SyncTemp(_) => t.procs[r].pc == Acquiring(ReplaceLock(q))
            case _ => t.lock == Held(r)
  {
    hide Reach, WorkMove, StartMove, PrepareMove, ReleaseMove, EnterPc;
    ReachNext(Unrestricted, from, s, Good(r));
    t := Next(s, Good(r));
  }

  lemma RecoveryEnds(from: State, s: State, r: Pid, q: Pid) returns (t: State)
    requires Reach(Unrestricted, from, s) && Live(s, r) && RoleOf(s.procs[r].pc) == Recovering(q)
    ensures Reach(Unrestricted, from, t) && t.lock == Held(r)
  {
    hide Reach, Next;
    t := s;
    if t.procs[r].pc == Acquiring(CreateTemp(q)) {
      t := RecoveryStep(from, t, r, q);
    }
    if t.procs[r].pc == Acquiring(WriteTemp(q)) {
      t := RecoveryStep(from, t, r, q);
    }
    if t.procs[r].pc == Acquiring(SyncTemp(q)) {
      t := RecoveryStep(from, t, r, q);
    }
    t := RecoveryStep(from, t, r, q);
  }

  /** A writer that is still there can complete its metadata. */
  lemma WriterCompletes(from: State, s: State, p: Pid) returns (t: State)
    requires Reach(Unrestricted, from, s) && s.lock == Torn(p) && Live(s, p) && RoleOf(s.procs[p].pc) == Writing
    ensures Reach(Unrestricted, from, t) && t.lock == Held(p)
  {
    hide Reach, WorkMove, StartMove, PrepareMove, ReleaseMove;
    ReachNext(Unrestricted, from, s, Good(p));
    t := Next(s, Good(p));
  }

  /** A torn lock stays for good, whatever happens, if and only if its writer is gone and no live
      call is poised; and then nobody comes to own a lock any more. */
  lemma TornForeverExact(parent: bool, actions: seq<Action>, p: Pid)
    requires Run(Initial(parent), actions).lock == Torn(p)
    ensures var s := Run(Initial(parent), actions);
      (forall more :: Run(s, more).lock == Torn(p)) <==> Stuck(s, p)
  {
    var s := Run(Initial(parent), actions);
    if Stuck(s, p) {
      forall more ensures Run(s, more).lock == Torn(p) {
        StuckForever(s, more, p);
      }
    } else {
      AlwaysKnown(parent, actions);
      var t := NotStuck(s, p);
      MoreOf(s, t);
    }
  }

  lemma NotStuck(s: State, p: Pid) returns (t: State)
    requires s.lock == Torn(p) && !Stuck(s, p) && OwnersKnown(s)
    ensures Reach(Unrestricted, s, t) && t.lock != Torn(p)
  {
    hide Reach, OwnersKnown, IsPoised;
    ReachStart(Unrestricted, s);
    if Abandoned(s, p) {
      var r :| Live(s, r) && IsPoised(s.procs[r].pc);
      t := PoisedActs(s, s, r);
    } else {
      t := WriterCompletes(s, s, p);
    }
  }

  /** In harmless runs nobody is inside the block while the lock is torn: so a stuck lock keeps
      everybody out for good. */
  lemma StuckKeepsOut(parent: bool, before: seq<Action>, after: seq<Action>, p: Pid)
    requires Throughout(HarmlessRecovery, Initial(parent), before) && Stuck(Run(Initial(parent), before), p)
    ensures var t := Run(Initial(parent), before + after);
      t.lock == Torn(p) && forall r :: Live(t, r) ==> !InBlock(t.procs[r].pc)
  {
    var s := Run(Initial(parent), before);
    OwnedThroughout(parent, before);
    RunConcat(Initial(parent), before, after);
    StuckForever(s, after, p);
    assert Owned(s) by { OwnedNow(parent, before); }
    hide Run, IsPoised;
    var t := Run(Initial(parent), before + after);
    forall r | Live(t, r) ensures !InBlock(t.procs[r].pc) {
      assert InBlock(t.procs[r].pc) ==> OwnsLock(t, r);
      assert !OwnsLock(s, r) by { assert Live(s, r) ==> (RoleOf(s.procs[r].pc) == Holding ==> s.lock == Held(r)); }
    }
  }

  lemma OwnedNow(parent: bool, actions: seq<Action>)
    requires AlwaysOwned(Initial(parent), actions)
    ensures Owned(Run(Initial(parent), actions))
  {
  }

  /** There are stuck locks: a register call whose process dies after it has created the lock file. */
  lemma StuckIsReachable()
    ensures exists actions :: Stuck(Run(Initial(true), actions), 0)
  {
    hide Reach, Suits, WellFormed;
    var h, from, call := Unrestricted, Initial(true), Asker(0);
    ReachStart(h, from);
    AskerSuits(from, 0, 0);
    ReachMkdir(h, from, from, 0, call);
    var s1 := Put(Consumed(from, call), 0, Worker(call, Acquiring(Mkdir)));
    ReachTorn(h, from, s1, 0, call);
    var s2 := Put(s1.(parent := true, lock := Torn(0)), 0, Worker(call, Acquiring(WriteLock)));
    ReachDead(h, from, s2, 0);
    var s3 := Put(s2, 0, s2.procs[0].(alive := false));
    MoreOf(from, s3);
    assert Stuck(s3, 0);
  }

  // ---------------------------------------------------------------- recoverable

  /** A crashed owner's lock can be taken over by a new call if and only if its metadata is
      complete. */
  lemma CrashedLockExact(parent: bool, actions: seq<Action>, q: Pid)
    requires var s := Run(Initial(parent), actions);
      && (s.lock == Torn(q) || s.lock == Held(q)) && Dead(s, q)
      && forall r :: Live(s, r) ==> !IsPoised(s.procs[r].pc)
    ensures var s := Run(Initial(parent), actions);
      (exists more, r :: r !in s.procs && Run(s, more).lock == Held(r)) <==> s.lock == Held(q)
  {
    var s := Run(Initial(parent), actions);
    if s.lock == Held(q) {
      AlwaysLocal(parent, actions);
      MarkerIsRead(s);
      ReachStart(Unrestricted, s);
      var r, t := NewCallEnters(s, s, q);
      MoreOf(s, t);
    } else {
      assert Stuck(s, q);
      forall more ensures Run(s, more).lock == Torn(q) {
        StuckForever(s, more, q);
      }
    }
  }

  // ---------------------------------------------------------------- careful runs

  /** In careful runs an abandoned torn lock stays even with calls that have read an older one. */
  lemma AbandonedStep(s: State, a: Action, p: Pid)
    requires Careful(s) && Keeps(CarefulRecovery, s, a) && Abandoned(s, p) && p in s.procs
    ensures Abandoned(Next(s, a), p) && p in Next(s, a).procs
  {
    LockChangesHands(s, a);
    if a.step.Take? && Live(s, a.pid) {
      hide Decide;
      DecideMovesLock(s, a.pid, s.procs[a.pid].call, s.procs[a.pid].pc, a.step.oracle);
    }
  }

  lemma {:induction false} TornLockBlocksCarefulRuns(parent: bool, before: seq<Action>, after: seq<Action>, p: Pid)
    requires Throughout(CarefulRecovery, Initial(parent), before + after)
    requires Abandoned(Run(Initial(parent), before), p) && p in Run(Initial(parent), before).procs
    ensures Abandoned(Run(Initial(parent), before + after), p) && p in Run(Initial(parent), before + after).procs
    ensures forall r :: Live(Run(Initial(parent), before + after), r) ==>
              !InBlock(Run(Initial(parent), before + after).procs[r].pc)
    decreases |after|
  {
    hide Next, Careful, Abandoned, Exclusive, Keeps;
    var all := before + after;
    CarefulRunsAreExclusive(parent, all);
    if after == [] {
      assert all == before;
    } else {
      var k := |after| - 1;
      assert all[..|all| - 1] == before + after[..k];
      TornLockBlocksCarefulRuns(parent, before, after[..k], p);
      var s := Run(Initial(parent), before + after[..k]);
      CarefulRunsAreExclusive(parent, before + after[..k]);
      AbandonedStep(s, all[|all| - 1], p);
    }
    NobodyInside(Run(Initial(parent), all), p);
  }

  lemma NobodyInside(t: State, p: Pid)
    requires Careful(t) && Abandoned(t, p)
    ensures forall r :: Live(t, r) ==> !InBlock(t.procs[r].pc)
  {
    forall r | Live(t, r) ensures !InBlock(t.procs[r].pc) {
      assert RoleOf(t.procs[r].pc) == Holding ==> t.lock == Held(r);
    }
  }
}
