/** Ways through the step system: what a call reaches when the environment answers kindly, as
    states written out, each step allowed by a habit. */
module ProtocolPaths {
  import opened Text
  import opened Protocol
  import opened ProtocolLock

  const GOOD := Oracle(false, true, 0, true, NoHook)
  const BAD := Oracle(true, false, 0, true, NoHook)

  function Good(p: Pid): Action {
    Action(p, Take(GOOD))
  }

  /** Some run from `from` that keeps the habit ends in `s`. */
  ghost predicate Reach(h: Habit, from: State, s: State) {
    exists actions :: Throughout(h, from, actions) && Run(from, actions) == s
  }

  lemma ReachStart(h: Habit, from: State)
    ensures Reach(h, from, from)
  {
    assert Throughout(h, from, []) && Run(from, []) == from;
  }

  lemma ReachNext(h: Habit, from: State, s: State, a: Action)
    requires Reach(h, from, s) && Keeps(h, s, a)
    ensures Reach(h, from, Next(s, a))
  {
    hide Next, Keeps;
    var actions :| Throughout(h, from, actions) && Run(from, actions) == s;
    assert (actions + [a])[..|actions|] == actions;
    assert Throughout(h, from, actions + [a]) && Run(from, actions + [a]) == Next(s, a);
  }

  /** A habit that restricts stale checks only. */
  predicate IsLoose(h: Habit) {
    h.FoundAsReadOnly? || h.SoleRecoveryOnly? || h.Unrestricted?
  }

  /** A step that is not a stale check, with its outcome. */
  lemma ReachMove(h: Habit, from: State, s: State, p: Pid, o: Oracle, t: State)
    requires IsLoose(h) && Reach(h, from, s) && Live(s, p)
    requires s.procs[p].pc.Acquiring? ==> !s.procs[p].pc.acquire.CheckStale?
    requires t == Apply(s, p, MoveOf(s, p, o))
    ensures Reach(h, from, t)
  {
    hide Apply, MoveOf, Reach;
    ReachNext(h, from, s, Action(p, Take(o)));
  }

  function Put(s: State, p: Pid, proc: Proc): State {
    s.(procs := s.procs[p := proc])
  }

  /** A step that only moves the call on. */
  lemma ReachQuiet(h: Habit, from: State, s: State, p: Pid, o: Oracle, proc: Proc, pc: Pc)
    requires IsLoose(h) && Reach(h, from, s) && Live(s, p) && s.procs[p] == proc
    requires proc.pc.Acquiring? ==> !proc.pc.acquire.CheckStale?
    requires Decide(s, p, proc.call, proc.pc, o) == Go(pc)
    ensures Reach(h, from, Put(s, p, proc.(pc := pc)))
  {
    hide Reach, Decide;
    var t := Put(s, p, proc.(pc := pc));
    assert Apply(s, p, Go(pc)) == t;
    ReachMove(h, from, s, p, o, t);
  }

  /** A call that has not consumed its confirmation. */
  function Asking(call: Call, pc: Pc): Proc {
    Proc(call, pc, true, false, false, false, false)
  }

  /** A call past its confirmation checks that has not touched the marker. */
  function Worker(call: Call, pc: Pc): Proc {
    Proc(call, pc, true, true, false, false, false)
  }

  /** A new call with a good confirmation that nobody has consumed. */
  predicate IsFresh(s: State, p: Pid, call: Call) {
    && p !in s.procs && WellFormed(call) && !call.task.RecoverLock?
    && call.confirmation.Some? && call.matches && call.confirmation.value !in s.consumed
  }

  function Consumed(s: State, call: Call): State
    requires call.confirmation.Some?
  {
    s.(consumed := s.consumed + {call.confirmation.value})
  }

  function FirstPc(task: Task): Pc {
    Preparing(if task.Register? then RegCapture else if task.Unregister? then UnrCapture else ResCapture)
  }

  lemma ReachCapture(h: Habit, from: State, s: State, p: Pid, call: Call)
    requires IsLoose(h) && Reach(h, from, s) && IsFresh(s, p, call)
    ensures Reach(h, from, Put(s, p, Asking(call, FirstPc(call.task))))
  {
    hide Reach, WellFormed, WorkMove, AcquireMove, PrepareMove, ReadMarker;
    ReachNext(h, from, s, Action(p, Begin(call)));
    ReachMove(h, from, Put(s, p, Asking(call, Start)), p, GOOD, Put(s, p, Asking(call, FirstPc(call.task))));
  }

  /** What the steps before the lock look for. */
  predicate Suits(s: State, task: Task) {
    match task
    case Register(_, parentAbsent) => s.marker.None? && s.parent != parentAbsent
    case Unregister(bound) => s.marker.Some? && ReadMarker(s, false) == Some(bound) && Believes(bound)
    case Resolve(bound) => s.marker.Some? && ReadMarker(s, false) == Some(bound)
    case RecoverLock => false
  }

  /** The steps before the lock, whose last consumes the confirmation. */
  lemma ReachMkdir(h: Habit, from: State, s: State, p: Pid, call: Call)
    requires IsLoose(h) && Reach(h, from, s) && IsFresh(s, p, call) && Suits(s, call.task)
    ensures Reach(h, from, Put(Consumed(s, call), p, Worker(call, Acquiring(Mkdir))))
  {
    ReachCapture(h, from, s, p, call);
    hide Reach, WellFormed;
    match call.task
    case Register(_, _) => RegisterPrepares(h, from, s, p, call);
    case Unregister(_) => UnregisterPrepares(h, from, s, p, call);
    case Resolve(_) => ResolvePrepares(h, from, s, p, call);
  }

  lemma ReachConsumed(h: Habit, from: State, s: State, p: Pid, call: Call, before: Before)
    requires IsLoose(h) && call.confirmation.Some? && Reach(h, from, Put(s, p, Asking(call, Preparing(before))))
    requires PrepareMove(Put(s, p, Asking(call, Preparing(before))), call, before, GOOD) == Consume()
    ensures Reach(h, from, Put(Consumed(s, call), p, Worker(call, Acquiring(Mkdir))))
  {
    hide Reach, PrepareMove;
    var s3 := Put(s, p, Asking(call, Preparing(before)));
    ReachMove(h, from, s3, p, GOOD, Put(Consumed(s, call), p, Worker(call, Acquiring(Mkdir))));
  }

  lemma RegisterPrepares(h: Habit, from: State, s: State, p: Pid, call: Call)
    requires IsLoose(h) && call.task.Register? && call.confirmation.Some? && Suits(s, call.task)
    requires Reach(h, from, Put(s, p, Asking(call, Preparing(RegCapture))))
    ensures Reach(h, from, Put(Consumed(s, call), p, Worker(call, Acquiring(Mkdir))))
  {
    hide Reach, WorkMove, AcquireMove, ReadMarker, StartMove;
    var s1 := Put(s, p, Asking(call, Preparing(RegCapture)));
    ReachQuiet(h, from, s1, p, GOOD, Asking(call, Preparing(RegCapture)), Preparing(RegStat));
    var s2 := Put(s, p, Asking(call, Preparing(RegStat)));
    assert Put(s1, p, Asking(call, Preparing(RegStat))) == s2;
    ReachQuiet(h, from, s2, p, GOOD, Asking(call, Preparing(RegStat)), Preparing(RegParent));
    var s3 := Put(s, p, Asking(call, Preparing(RegParent)));
    assert Put(s2, p, Asking(call, Preparing(RegParent))) == s3;
    ReachConsumed(h, from, s, p, call, RegParent);
  }

  lemma UnregisterPrepares(h: Habit, from: State, s: State, p: Pid, call: Call)
    requires IsLoose(h) && call.task.Unregister? && call.confirmation.Some? && Suits(s, call.task)
    requires Reach(h, from, Put(s, p, Asking(call, Preparing(UnrCapture))))
    ensures Reach(h, from, Put(Consumed(s, call), p, Worker(call, Acquiring(Mkdir))))
  {
    hide Reach, WorkMove, AcquireMove, StartMove, Believes, BoundedRead;
    var s1 := Put(s, p, Asking(call, Preparing(UnrCapture)));
    ReachQuiet(h, from, s1, p, GOOD, Asking(call, Preparing(UnrCapture)), Preparing(UnrStat));
    var s2 := Put(s, p, Asking(call, Preparing(UnrStat)));
    assert Put(s1, p, Asking(call, Preparing(UnrStat))) == s2;
    ReachQuiet(h, from, s2, p, GOOD, Asking(call, Preparing(UnrStat)), Preparing(UnrRead));
    var s3 := Put(s, p, Asking(call, Preparing(UnrRead)));
    assert Put(s2, p, Asking(call, Preparing(UnrRead))) == s3;
    ReachConsumed(h, from, s, p, call, UnrRead);
  }

  lemma ResolvePrepares(h: Habit, from: State, s: State, p: Pid, call: Call)
    requires IsLoose(h) && call.task.Resolve? && call.confirmation.Some? && Suits(s, call.task)
    requires Reach(h, from, Put(s, p, Asking(call, Preparing(ResCapture))))
    ensures Reach(h, from, Put(Consumed(s, call), p, Worker(call, Acquiring(Mkdir))))
  {
    hide Reach, WorkMove, AcquireMove, StartMove, Believes, BoundedRead;
    var s1 := Put(s, p, Asking(call, Preparing(ResCapture)));
    ReachQuiet(h, from, s1, p, GOOD, Asking(call, Preparing(ResCapture)), Preparing(ResStat));
    var s2 := Put(s, p, Asking(call, Preparing(ResStat)));
    assert Put(s1, p, Asking(call, Preparing(ResStat))) == s2;
    ReachQuiet(h, from, s2, p, GOOD, Asking(call, Preparing(ResStat)), Preparing(ResRead));
    var s3 := Put(s, p, Asking(call, Preparing(ResRead)));
    assert Put(s2, p, Asking(call, Preparing(ResRead))) == s3;
    ReachConsumed(h, from, s, p, call, ResRead);
  }

  // ---------------------------------------------------------------- the lock

  lemma ReachCreate(h: Habit, from: State, s: State, p: Pid, call: Call)
    requires IsLoose(h) && Reach(h, from, s) && p in s.procs && s.procs[p] == Worker(call, Acquiring(Mkdir))
    ensures Reach(h, from, Put(s.(parent := true), p, Worker(call, Acquiring(CreateLock))))
  {
    hide Reach, WorkMove, StartMove, PrepareMove, ReleaseMove;
    ReachMove(h, from, s, p, GOOD, Put(s.(parent := true), p, Worker(call, Acquiring(CreateLock))));
  }

  /** The lock is free: the call makes the lock file. */
  lemma ReachTorn(h: Habit, from: State, s: State, p: Pid, call: Call)
    requires IsLoose(h) && Reach(h, from, s) && s.lock == NoLock
    requires p in s.procs && s.procs[p] == Worker(call, Acquiring(Mkdir))
    ensures Reach(h, from, Put(s.(parent := true, lock := Torn(p)), p, Worker(call, Acquiring(WriteLock))))
  {
    hide Reach, WorkMove, StartMove, PrepareMove, ReleaseMove;
    ReachCreate(h, from, s, p, call);
    var s1 := Put(s.(parent := true), p, Worker(call, Acquiring(CreateLock)));
    ReachMove(h, from, s1, p, GOOD, Put(s.(parent := true, lock := Torn(p)), p, Worker(call, Acquiring(WriteLock))));
  }

  /** It gets into the block. */
  lemma ReachInside(h: Habit, from: State, s: State, p: Pid, call: Call)
    requires IsLoose(h) && Reach(h, from, s) && s.lock == NoLock
    requires p in s.procs && s.procs[p] == Worker(call, Acquiring(Mkdir))
    ensures Reach(h, from, Put(s.(parent := true, lock := Held(p)), p, Worker(call, EnterPc(call.task))))
  {
    hide Reach, WorkMove, StartMove, PrepareMove, ReleaseMove, EnterPc;
    ReachTorn(h, from, s, p, call);
    var s2 := Put(s.(parent := true, lock := Torn(p)), p, Worker(call, Acquiring(WriteLock)));
    var s3 := Put(s.(parent := true, lock := Held(p)), p, Worker(call, Acquiring(SyncLock)));
    ReachMove(h, from, s2, p, GOOD, s3);
    ReachMove(h, from, s3, p, GOOD, Put(s.(parent := true, lock := Held(p)), p, Worker(call, EnterPc(call.task))));
  }

  /** The lock is held: the call reads its metadata. */
  lemma ReachCheck(h: Habit, from: State, s: State, p: Pid, call: Call)
    requires IsLoose(h) && Reach(h, from, s) && s.lock.Held?
    requires p in s.procs && s.procs[p] == Worker(call, Acquiring(Mkdir))
    ensures Reach(h, from, Put(s.(parent := true), p, Worker(call, Acquiring(CheckStale(s.lock.owner)))))
  {
    hide Reach, WorkMove, StartMove, PrepareMove, ReleaseMove, EnterPc;
    ReachCreate(h, from, s, p, call);
    var s1 := Put(s.(parent := true), p, Worker(call, Acquiring(CreateLock)));
    var s2 := Put(s.(parent := true), p, Worker(call, Acquiring(ReadLock)));
    ReachMove(h, from, s1, p, GOOD, s2);
    ReachMove(h, from, s2, p, GOOD, Put(s.(parent := true), p, Worker(call, Acquiring(CheckStale(s.lock.owner)))));
  }

  /** A stale check that passes. */
  lemma ReachTemp(h: Habit, from: State, s: State, p: Pid, q: Pid, proc: Proc)
    requires IsLoose(h) && Reach(h, from, s) && Dead(s, q)
    requires p in s.procs && s.procs[p] == proc && proc.alive && proc.pc == Acquiring(CheckStale(q))
    requires h.FoundAsReadOnly? ==> s.lock == Held(q)
    requires h.SoleRecoveryOnly? ==> forall r :: IsRecovering(s, r) ==> r == p
    ensures Reach(h, from, Put(s, p, proc.(pc := Acquiring(CreateTemp(q)))))
  {
    hide Reach, WorkMove, StartMove, PrepareMove, ReleaseMove, EnterPc;
    ReachNext(h, from, s, Good(p));
    assert Next(s, Good(p)) == Put(s, p, proc.(pc := Acquiring(CreateTemp(q))));
  }

  lemma ReachReplace(h: Habit, from: State, s: State, p: Pid, q: Pid, proc: Proc)
    requires IsLoose(h) && Reach(h, from, s)
    requires p in s.procs && s.procs[p] == proc && proc.alive && proc.pc == Acquiring(CreateTemp(q))
    ensures Reach(h, from, Put(s, p, proc.(pc := Acquiring(ReplaceLock(q)))))
  {
    hide Reach, WorkMove, StartMove, PrepareMove, ReleaseMove, EnterPc;
    ReachQuiet(h, from, s, p, GOOD, proc, Acquiring(WriteTemp(q)));
    var s1 := Put(s, p, proc.(pc := Acquiring(WriteTemp(q))));
    ReachQuiet(h, from, s1, p, GOOD, s1.procs[p], Acquiring(SyncTemp(q)));
    var s2 := Put(s, p, proc.(pc := Acquiring(SyncTemp(q))));
    assert Put(s1, p, s2.procs[p]) == s2;
    ReachQuiet(h, from, s2, p, GOOD, s2.procs[p], Acquiring(ReplaceLock(q)));
    assert Put(s2, p, proc.(pc := Acquiring(ReplaceLock(q)))) == Put(s, p, proc.(pc := Acquiring(ReplaceLock(q))));
  }

  /** The rest of a stale recovery. */
  lemma ReachRecovered(h: Habit, from: State, s: State, p: Pid, q: Pid, proc: Proc)
    requires IsLoose(h) && Reach(h, from, s)
    requires p in s.procs && s.procs[p] == proc && proc.alive && proc.pc == Acquiring(CreateTemp(q))
    ensures Reach(h, from, Put(s.(lock := Held(p)), p, proc.(pc := EnterPc(proc.call.task))))
  {
    hide Reach, WorkMove, StartMove, PrepareMove, ReleaseMove, EnterPc;
    ReachReplace(h, from, s, p, q, proc);
    var t := Put(s, p, proc.(pc := Acquiring(ReplaceLock(q))));
    ReachMove(h, from, t, p, GOOD, Put(s.(lock := Held(p)), p, proc.(pc := EnterPc(proc.call.task))));
  }

  lemma ReachReleasing(h: Habit, from: State, s: State, p: Pid, call: Call)
    requires IsLoose(h) && Reach(h, from, s) && call.task.Register? && !call.task.parentAbsent
    requires p in s.procs && s.procs[p] == Worker(call, Working(RegConfirm))
    ensures Reach(h, from, Put(s, p, Worker(call, ReleaseRead(Stop(WriteFailed)))))
  {
    hide Reach, UnregisterMove, ResolveMove, StartMove, PrepareMove, AcquireMove, ReadMarker, DraftBytes;
    var s1 := Put(s, p, Worker(call, Working(RegCreate)));
    ReachMove(h, from, s, p, GOOD, s1);
    ReachMove(h, from, s1, p, BAD, Put(s, p, Worker(call, ReleaseRead(Stop(WriteFailed)))));
  }

  /** The owner of the lock leaves the block and releases. */
  lemma ReachReleased(h: Habit, from: State, s: State, p: Pid, proc: Proc, ret: Return)
    requires IsLoose(h) && Reach(h, from, s) && s.lock == Held(p)
    requires p in s.procs && s.procs[p] == proc && proc.alive && proc.pc == ReleaseRead(ret)
    ensures Reach(h, from, Put(s.(lock := NoLock), p, proc.(pc := Done(ret))))
  {
    hide Reach, WorkMove, StartMove, PrepareMove, AcquireMove;
    ReachQuiet(h, from, s, p, GOOD, proc, ReleaseUnlink(ret));
    var s3 := Put(s, p, proc.(pc := ReleaseUnlink(ret)));
    assert MoveOf(s3, p, GOOD) == Move(Done(ret), LockRemoved);
    hide MoveOf;
    var t := Put(s.(lock := NoLock), p, proc.(pc := Done(ret)));
    assert t.procs == s3.procs[p := ProcAfter(s3.procs[p], Move(Done(ret), LockRemoved))];
    ReachMove(h, from, s3, p, GOOD, t);
  }

  lemma ReachDead(h: Habit, from: State, s: State, p: Pid)
    requires IsLoose(h) && Reach(h, from, s) && p in s.procs
    ensures Reach(h, from, Put(s, p, s.procs[p].(alive := false)))
  {
    hide Reach;
    ReachNext(h, from, s, Action(p, Die));
  }
}
