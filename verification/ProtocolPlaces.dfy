/** Every call is only ever at steps of its own operation. */
module ProtocolPlaces {
  import opened Marker
  import opened Protocol
  import opened ProtocolLock

  predicate IsRegisterBefore(b: Before) {
    b.RegCapture? || b.RegStat? || b.RegParent?
  }

  predicate IsUnregisterBefore(b: Before) {
    b.UnrCapture? || b.UnrStat? || b.UnrRead?
  }

  /** A call is only ever at steps of its own task; `recover_lock` never creates the lock file. */
  predicate Fits(task: Task, pc: Pc) {
    match pc
    case Preparing(b) =>
      if b.RecCapture? then task.RecoverLock?
      else if IsRegisterBefore(b) then task.Register?
      else if IsUnregisterBefore(b) then task.Unregister?
      else task.Resolve?
    case Acquiring(a) => task.RecoverLock? ==> !(a.Mkdir? || a.CreateLock? || a.WriteLock? || a.SyncLock?)
    case Working(i) =>
      if IsRegisterStep(i) then task.Register? else if IsResolveStep(i) then task.Resolve? else task.Unregister?
    case ReleaseRead(_) => !task.RecoverLock?
    case ReleaseUnlink(_) => !task.RecoverLock?
    case _ => true
  }

  lemma WorkFits(s: State, p: Pid, call: Call, i: Inside, o: Oracle)
    requires Fits(call.task, Working(i))
    ensures Fits(call.task, WorkMove(s, p, call, i, o).pc)
  {
    hide BoundedRead, Believes, DraftBytes, ReadBackVerified, ReadBackReason, OccupiedReason, MismatchReason;
    hide Classify, ReadMarker;
  }

  lemma DecideFits(s: State, p: Pid, call: Call, pc: Pc, o: Oracle)
    requires Fits(call.task, pc)
    ensures Fits(call.task, Decide(s, p, call, pc, o).pc)
  {
    hide WorkMove, BoundedRead, Believes, ReadMarker;
    if pc.Working? {
      WorkFits(s, p, call, pc.inside, o);
    }
  }

  ghost predicate AllFit(s: State) {
    forall p :: p in s.procs ==> Fits(s.procs[p].call.task, s.procs[p].pc)
  }

  lemma FitStep(s: State, a: Action)
    requires AllFit(s)
    ensures AllFit(Next(s, a))
  {
    if a.step.Take? && Live(s, a.pid) {
      DecideFits(s, a.pid, s.procs[a.pid].call, s.procs[a.pid].pc, a.step.oracle);
      hide Decide, Fits;
    }
  }

  lemma {:induction false} AlwaysFits(parent: bool, actions: seq<Action>)
    ensures AllFit(Run(Initial(parent), actions))
    decreases |actions|
  {
    if actions != [] {
      var k := |actions| - 1;
      AlwaysFits(parent, actions[..k]);
      FitStep(Run(Initial(parent), actions[..k]), actions[k]);
    }
  }
}
