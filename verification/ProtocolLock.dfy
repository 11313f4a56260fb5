/** What the lock protects: at most one live call inside the lock block, and no live call's lock
    taken away, in every run where stale recovery is as careful as it needs to be. */
module ProtocolLock {
  import opened Marker
  import opened Protocol

  // ---------------------------------------------------------------- what one step changes

  /** A call's part in the lock protocol. `Holding` starts with its metadata complete. */
  datatype Role = Outside | Writing | Holding | Recovering(owner: Pid)

  function RoleOf(pc: Pc): Role {
    match pc
    case Acquiring(WriteLock) => Writing
    case Acquiring(SyncLock) => Holding
    case Acquiring(CreateTemp(q)) => Recovering(q)
    case Acquiring(WriteTemp(q)) => Recovering(q)
    case Acquiring(SyncTemp(q)) => Recovering(q)
    case Acquiring(ReplaceLock(q)) => Recovering(q)
    case Working(_) => Holding
    case ReleaseRead(_) => Holding
    case ReleaseUnlink(_) => Holding
    case _ => Outside
  }

  /** Inside a `registration_lock` block, leaving it included. */
  predicate InBlock(pc: Pc) {
    pc.Working? || pc.ReleaseRead? || pc.ReleaseUnlink?
  }

  predicate Live(s: State, p: Pid) {
    p in s.procs && s.procs[p].alive
  }

  predicate AtReplace(pc: Pc) {
    pc.Acquiring? && pc.acquire.ReplaceLock?
  }

  /** The action is a successful replacement of the lock file. */
  predicate Replaces(s: State, a: Action) {
    a.step.Take? && Live(s, a.pid) && AtReplace(s.procs[a.pid].pc) && !a.step.oracle.fail
  }

  /** What a step of a call can do to the lock, given the call's role before and after. */
  predicate LockMove(s: State, p: Pid, call: Call, pc: Pc, o: Oracle, m: Move) {
    var r, r' := RoleOf(pc), RoleOf(m.pc);
    match m.effect
    case LockCreated => r == Outside && r' == Writing && s.lock == NoLock
    case LockCompleted => r == Writing && r' == Holding
    case LockReplaced => AtReplace(pc) && !o.fail && r' == (if call.task.RecoverLock? then Outside else Holding)
    case LockRemoved => pc.ReleaseUnlink? && r' == Outside
    case _ => !(AtReplace(pc) && !o.fail) && (r' == r || r' == Outside || (r == Outside && r'.Recovering? && Dead(s, r'.owner)))
  }

  lemma WorkKeepsLock(s: State, p: Pid, call: Call, i: Inside, o: Oracle)
    ensures LockMove(s, p, call, Working(i), o, WorkMove(s, p, call, i, o))
  {
    hide BoundedRead, Believes, DraftBytes, ReadBackVerified, ReadBackReason, OccupiedReason, MismatchReason;
    hide Classify, ReadMarker;
  }

  lemma DecideMovesLock(s: State, p: Pid, call: Call, pc: Pc, o: Oracle)
    ensures LockMove(s, p, call, pc, o, Decide(s, p, call, pc, o))
  {
    hide WorkMove, BoundedRead, Believes, ReadMarker;
    if pc.Working? {
      WorkKeepsLock(s, p, call, pc.inside, o);
    }
  }

  // ---------------------------------------------------------------- the exact condition

  /** Every live call that has created or completed a lock still finds it at the lock path. */
  ghost predicate Owned(s: State) {
    forall p :: Live(s, p) ==>
      && (RoleOf(s.procs[p].pc) == Writing ==> s.lock == Torn(p))
      && (RoleOf(s.procs[p].pc) == Holding ==> s.lock == Held(p))
  }

  predicate OwnsLock(s: State, p: Pid) {
    Live(s, p) && (RoleOf(s.procs[p].pc) == Writing || RoleOf(s.procs[p].pc) == Holding)
  }

  /** If the action replaces the lock, no other live call owns it at that moment. */
  ghost predicate Harmless(s: State, a: Action) {
    Replaces(s, a) ==> forall r :: OwnsLock(s, r) ==> r == a.pid
  }

  ghost predicate Exclusive(s: State) {
    forall p, q :: Live(s, p) && Live(s, q) && InBlock(s.procs[p].pc) && InBlock(s.procs[q].pc) ==> p == q
  }

  lemma OwnedIsExclusive(s: State)
    requires Owned(s)
    ensures Exclusive(s)
  {
    forall p, q | Live(s, p) && Live(s, q) && InBlock(s.procs[p].pc) && InBlock(s.procs[q].pc) ensures p == q {
      assert RoleOf(s.procs[p].pc) == Holding && RoleOf(s.procs[q].pc) == Holding;
    }
  }

  lemma OwnedAfterMove(s: State, p: Pid, o: Oracle, m: Move, r: Pid)
    requires Owned(s) && Live(s, p) && Harmless(s, Action(p, Take(o)))
    requires LockMove(s, p, s.procs[p].call, s.procs[p].pc, o, m) && Live(Apply(s, p, m), r)
    ensures RoleOf(Apply(s, p, m).procs[r].pc) == Writing ==> Apply(s, p, m).lock == Torn(r)
    ensures RoleOf(Apply(s, p, m).procs[r].pc) == Holding ==> Apply(s, p, m).lock == Held(r)
  {
    assert Live(s, r);
    if r != p && OwnsLock(s, r) {
      assert !OwnsLock(s, p);
      assert m.effect == LockReplaced ==> Replaces(s, Action(p, Take(o)));
      assert LockAfter(s.lock, p, m.effect) == s.lock;
    }
  }

  lemma OwnedAfterHarmless(s: State, a: Action)
    requires Owned(s) && a.step.Take? && Live(s, a.pid) && Harmless(s, a)
    ensures Owned(Next(s, a))
  {
    hide Decide, LockMove, Apply;
    var p, o := a.pid, a.step.oracle;
    DecideMovesLock(s, p, s.procs[p].call, s.procs[p].pc, o);
    assert a == Action(p, Take(o));
    var t := Apply(s, p, MoveOf(s, p, o));
    forall r | Live(t, r)
      ensures RoleOf(t.procs[r].pc) == Writing ==> t.lock == Torn(r)
      ensures RoleOf(t.procs[r].pc) == Holding ==> t.lock == Held(r)
    {
      OwnedAfterMove(s, p, o, MoveOf(s, p, o), r);
    }
  }

  /** After a replacement the lock names the call that made it, whoever owned it before. */
  lemma AfterReplacement(s: State, a: Action, r: Pid)
    requires Replaces(s, a) && OwnsLock(s, r) && r != a.pid
    ensures var t := Next(s, a); t.lock == Held(a.pid) && Live(t, r) && t.procs[r] == s.procs[r]
    ensures Live(Next(s, a), a.pid) && Next(s, a).procs[a.pid].pc == EnterPc(s.procs[a.pid].call.task)
  {
  }

  /** A step keeps every live call's lock where it is if and only if it is harmless. */
  lemma OwnedStep(s: State, a: Action)
    requires Owned(s)
    ensures Owned(Next(s, a)) <==> Harmless(s, a)
  {
    if a.step.Take? && Live(s, a.pid) {
      if Harmless(s, a) {
        OwnedAfterHarmless(s, a);
      } else {
        hide Next;
        var r :| OwnsLock(s, r) && r != a.pid;
        AfterReplacement(s, a, r);
      }
    } else {
      var t := Next(s, a);
      assert t.lock == s.lock;
      assert forall r :: Live(t, r) ==> (Live(s, r) && t.procs[r] == s.procs[r]) || t.procs[r].pc == Start;
    }
  }

  // ---------------------------------------------------------------- whole runs

  /** What a run may be asked to do: keep to a habit at every step. */
  datatype Habit = HarmlessRecovery | CarefulRecovery | FoundAsReadOnly | SoleRecoveryOnly | Unrestricted

  /** The action is a stale check that passes, on metadata that named `owner`. */
  predicate Passes(s: State, a: Action, owner: Pid) {
    && a.step.Take? && Live(s, a.pid) && s.procs[a.pid].pc == Acquiring(CheckStale(owner))
    && a.step.oracle.yes && Dead(s, owner)
  }

  predicate IsRecovering(s: State, p: Pid) {
    Live(s, p) && RoleOf(s.procs[p].pc).Recovering?
  }

  /** When a stale check passes, the metadata it looked at is still at the lock path. */
  ghost predicate FoundAsRead(s: State, a: Action) {
    forall q :: Passes(s, a, q) ==> s.lock == Held(q)
  }

  /** When a stale check passes, nobody else is between check and replacement. */
  ghost predicate SoleRecovery(s: State, a: Action) {
    forall q :: Passes(s, a, q) ==> forall r :: IsRecovering(s, r) ==> r == a.pid
  }

  ghost predicate Keeps(h: Habit, s: State, a: Action) {
    match h
    case HarmlessRecovery => Harmless(s, a)
    case CarefulRecovery => FoundAsRead(s, a) && SoleRecovery(s, a)
    case FoundAsReadOnly => FoundAsRead(s, a)
    case SoleRecoveryOnly => SoleRecovery(s, a)
    case Unrestricted => true
  }

  ghost predicate Throughout(h: Habit, s: State, actions: seq<Action>)
    decreases |actions|
  {
    if actions == [] then true
    else
      var k := |actions| - 1;
      Throughout(h, s, actions[..k]) && Keeps(h, Run(s, actions[..k]), actions[k])
  }

  /** Every live call's lock is where it left it at every point of the run. */
  ghost predicate AlwaysOwned(s: State, actions: seq<Action>)
    decreases |actions|
  {
    Owned(Run(s, actions)) && (actions == [] || AlwaysOwned(s, actions[..|actions| - 1]))
  }

  /** No live call loses its lock at any point of a run if and only if every replacement in it is
      harmless. */
  lemma {:induction false} OwnedThroughout(parent: bool, actions: seq<Action>)
    ensures AlwaysOwned(Initial(parent), actions) <==> Throughout(HarmlessRecovery, Initial(parent), actions)
    decreases |actions|
  {
    if actions != [] {
      var k := |actions| - 1;
      OwnedThroughout(parent, actions[..k]);
      if AlwaysOwned(Initial(parent), actions[..k]) {
        OwnedStep(Run(Initial(parent), actions[..k]), actions[k]);
      }
    }
  }

  // ---------------------------------------------------------------- careful recovery

  /** What careful recovery keeps: locks stay with their live owners, a recovery in progress has
      the dead owner's lock in front of it, and there is at most one. */
  ghost predicate Careful(s: State) {
    && Owned(s)
    && (forall p :: IsRecovering(s, p) ==>
          var q := RoleOf(s.procs[p].pc).owner; s.lock == Held(q) && Dead(s, q))
    && (forall p, r :: IsRecovering(s, p) && IsRecovering(s, r) ==> p == r)
  }

  lemma CarefulIsHarmless(s: State, a: Action)
    requires Careful(s)
    ensures Harmless(s, a)
  {
    if Replaces(s, a) {
      assert IsRecovering(s, a.pid);
    }
  }

  lemma RecoveringAfterMove(s: State, p: Pid, o: Oracle, m: Move, r: Pid)
    requires Careful(s) && Live(s, p) && Keeps(CarefulRecovery, s, Action(p, Take(o)))
    requires LockMove(s, p, s.procs[p].call, s.procs[p].pc, o, m) && m == MoveOf(s, p, o)
    requires IsRecovering(Apply(s, p, m), r)
    ensures var q := RoleOf(Apply(s, p, m).procs[r].pc).owner; Apply(s, p, m).lock == Held(q) && Dead(s, q)
    ensures IsRecovering(s, r) || (r == p && forall x :: IsRecovering(s, x) ==> x == p)
    ensures Dead(Apply(s, p, m), RoleOf(Apply(s, p, m).procs[r].pc).owner)
  {
    hide Decide;
    if r != p {
      assert IsRecovering(s, r);
      assert AtReplace(s.procs[p].pc) ==> IsRecovering(s, p);
      assert s.lock.Held? && s.lock.owner != p;
      assert LockAfter(s.lock, p, m.effect) == s.lock;
    } else if !IsRecovering(s, p) {
      PassedCheck(s, p, o);
    }
  }

  lemma PassedCheck(s: State, p: Pid, o: Oracle)
    requires Live(s, p) && RoleOf(s.procs[p].pc) == Outside && RoleOf(MoveOf(s, p, o).pc).Recovering?
    ensures Passes(s, Action(p, Take(o)), RoleOf(MoveOf(s, p, o).pc).owner)
  {
  }

  /** Careful recovery stays careful. */
  lemma CarefulStep(s: State, a: Action)
    requires Careful(s) && Keeps(CarefulRecovery, s, a)
    ensures Careful(Next(s, a))
  {
    CarefulIsHarmless(s, a);
    OwnedStep(s, a);
    var t := Next(s, a);
    if a.step.Take? && Live(s, a.pid) {
      var p, o := a.pid, a.step.oracle;
      var m := MoveOf(s, p, o);
      assert a == Action(p, Take(o)) && t == Apply(s, p, m);
      hide Next, Apply, Decide, Owned, Harmless;
      DecideMovesLock(s, p, s.procs[p].call, s.procs[p].pc, o);
      forall r | IsRecovering(t, r)
        ensures t.lock == Held(RoleOf(t.procs[r].pc).owner) && Dead(t, RoleOf(t.procs[r].pc).owner)
        ensures IsRecovering(s, r) || (r == p && forall x :: IsRecovering(s, x) ==> x == p)
      {
        RecoveringAfterMove(s, p, o, m, r);
      }
    } else {
      assert t.lock == s.lock;
      assert forall r :: IsRecovering(t, r) ==> IsRecovering(s, r) && t.procs[r] == s.procs[r];
      assert forall q :: Dead(s, q) ==> Dead(t, q);
    }
  }

  /** With processes dying at any step: while stale recovery is careful, at most one live call is
      inside the block. */
  lemma {:induction false} CarefulRunsAreExclusive(parent: bool, actions: seq<Action>)
    requires Throughout(CarefulRecovery, Initial(parent), actions)
    ensures Careful(Run(Initial(parent), actions)) && Exclusive(Run(Initial(parent), actions))
    decreases |actions|
  {
    if actions != [] {
      var k := |actions| - 1;
      CarefulRunsAreExclusive(parent, actions[..k]);
      CarefulStep(Run(Initial(parent), actions[..k]), actions[k]);
    }
    OwnedIsExclusive(Run(Initial(parent), actions));
  }

  /** Careful recovery is harmless throughout. */
  lemma {:induction false} CarefulRunsAreHarmless(parent: bool, actions: seq<Action>)
    requires Throughout(CarefulRecovery, Initial(parent), actions)
    ensures Throughout(HarmlessRecovery, Initial(parent), actions)
    decreases |actions|
  {
    if actions != [] {
      var k := |actions| - 1;
      CarefulRunsAreHarmless(parent, actions[..k]);
      CarefulRunsAreExclusive(parent, actions[..k]);
      CarefulIsHarmless(Run(Initial(parent), actions[..k]), actions[k]);
    }
  }

  ghost predicate AllAlive(s: State) {
    forall p :: p in s.procs ==> s.procs[p].alive
  }

  lemma DeathFreeStep(s: State, a: Action)
    requires AllAlive(s) && !a.step.Die?
    ensures AllAlive(Next(s, a)) && Keeps(CarefulRecovery, s, a)
  {
    hide MoveOf;
  }

  /** Nobody dying: at most one call is inside the block, whatever else happens. */
  lemma {:induction false} DeathFreeRunsAreExclusive(parent: bool, actions: seq<Action>)
    requires DeathFree(actions)
    ensures Throughout(CarefulRecovery, Initial(parent), actions) && AllAlive(Run(Initial(parent), actions))
    ensures Exclusive(Run(Initial(parent), actions))
    decreases |actions|
  {
    if actions != [] {
      var k := |actions| - 1;
      DeathFreeRunsAreExclusive(parent, actions[..k]);
      DeathFreeStep(Run(Initial(parent), actions[..k]), actions[k]);
    }
    CarefulRunsAreExclusive(parent, actions);
  }

  /** How the lock changes hands: created in its absence, completed or removed by its owner, and
      taken over only from the dead. */
  lemma LockChangesHands(s: State, a: Action)
    requires Careful(s) && Keeps(CarefulRecovery, s, a)
    ensures var t := Next(s, a);
      || t.lock == s.lock
      || (s.lock == NoLock && t.lock == Torn(a.pid))
      || (s.lock == Torn(a.pid) && t.lock == Held(a.pid))
      || (s.lock == Held(a.pid) && t.lock == NoLock)
      || (s.lock.Held? && Dead(s, s.lock.owner) && t.lock == Held(a.pid))
  {
    if a.step.Take? && Live(s, a.pid) {
      hide Decide;
      DecideMovesLock(s, a.pid, s.procs[a.pid].call, s.procs[a.pid].pc, a.step.oracle);
      assert AtReplace(s.procs[a.pid].pc) ==> IsRecovering(s, a.pid);
    }
  }
}
