/** What a call may rely on inside the lock block, in every run where no live call loses its lock:
    the marker does not change under it. */
module ProtocolExclusion {
  import opened Text
  import opened RawGuard
  import opened Marker
  import opened Protocol
  import opened ProtocolLock
  import opened ProtocolPlaces
  import opened ProtocolMarker
  import opened ProtocolHistory
  import MarkerLaws

  // ---------------------------------------------------------------- the bounded read

  /** Reading one byte more than the limit decides equality with the bound bytes exactly when they
      are within the limit. */
  lemma BoundedReadDecides(bound: Bytes)
    ensures (forall content: Bytes :: BoundedRead(content) == bound <==> content == bound) <==> |bound| <= 262144
  {
    if |bound| == MAX_READ_BYTES + 1 {
      var longer := bound + [0];
      assert BoundedRead(longer) == bound;
    } else if |bound| > MAX_READ_BYTES {
      assert BoundedRead(bound) != bound;
    }
  }

  lemma BelievedIsShort(raw: Bytes)
    requires Believes(raw)
    ensures |raw| <= MAX_READ_BYTES
  {
  }

  // ---------------------------------------------------------------- bound bytes

  /** An unregister call past its pre-lock inspection is bound to a valid marker. */
  predicate BoundIsBelieved(proc: Proc) {
    proc.spent && proc.call.task.Unregister? ==> Believes(proc.call.task.bound)
  }

  ghost predicate AllBelieved(s: State) {
    forall p :: p in s.procs ==> BoundIsBelieved(s.procs[p])
  }

  lemma ConsumedIsBelieved(s: State, p: Pid, call: Call, pc: Pc, o: Oracle)
    requires Fits(call.task, pc) && call.task.Unregister?
    requires Decide(s, p, call, pc, o).effect.ConfirmationConsumed?
    ensures Believes(call.task.bound)
  {
    hide Believes, ReadMarker;
    MarkerEffects(s, p, call, pc, o);
  }

  lemma BelievedStep(s: State, a: Action)
    requires AllLocal(s) && AllBelieved(s)
    ensures AllBelieved(Next(s, a))
  {
    hide Believes, Decide, WellFormed;
    if a.step.Take? && Live(s, a.pid) {
      var p, o := a.pid, a.step.oracle;
      assert LocalAt(s, p);
      if s.procs[p].call.task.Unregister? && MoveOf(s, p, o).effect.ConfirmationConsumed? {
        ConsumedIsBelieved(s, p, s.procs[p].call, s.procs[p].pc, o);
      }
      hide MoveOf, Local, AllLocal;
      assert BoundIsBelieved(s.procs[p]);
    } else {
      hide MoveOf, AllLocal;
    }
  }

  // ---------------------------------------------------------------- the marker under the lock

  /** What a live call inside the block knows about the marker path. */
  predicate Reliable(s: State, p: Pid)
    requires p in s.procs
  {
    match s.procs[p].pc
    case Working(i) =>
      (match i
       case RegWrite => s.marker == Some(p)
       case RegSync => s.marker == Some(p)
       case RegReadBack => s.marker == Some(p)
       case RegRecapture => s.marker == Some(p)
       case RegProject(link, _) => !link ==> s.marker == Some(p)
       case UnrPreRead => BoundIsThere(s, s.procs[p].call.task)
       case UnrLastRead => BoundIsThere(s, s.procs[p].call.task)
       case UnrUnlink => BoundIsThere(s, s.procs[p].call.task)
       case UnrVerify(_) => s.marker.None?
       case ResVerify => s.marker.None?
       case _ => true)
    case ReleaseRead(ret) => Reported(s, p, ret)
    case ReleaseUnlink(ret) => Reported(s, p, ret)
    case _ => true
  }

  predicate BoundIsThere(s: State, task: Task) {
    task.Unregister? && ReadMarker(s, false) == Some(task.bound)
  }

  /** A result that claims the marker written or gone is right when it is made. */
  predicate Reported(s: State, p: Pid, ret: Return) {
    ret.Returned? ==>
      && (ret.result.outcome.Unregistered? || ret.result.outcome.InvalidMarkerResolved? ==> s.marker.None?)
      && (ret.result.markerWritten ==> s.marker == Some(p))
  }

  ghost predicate Guarded(s: State) {
    forall p :: Live(s, p) ==> Reliable(s, p)
  }

  lemma RegisterIsReliable(s: State, p: Pid, call: Call, i: Inside, o: Oracle)
    requires p in s.procs && s.procs[p].pc == Working(i) && IsRegisterStep(i) && s.procs[p].call == call
    requires Reliable(s, p)
    ensures Reliable(Apply(s, p, RegisterMove(s, p, call, i, o)), p)
  {
    hide Believes, DraftBytes, ReadBackVerified, ReadBackReason, OccupiedReason, MismatchReason, Classify;
    hide DraftIdentity, BoundedRead, WellFormed, ReadMarker, BoundIsThere;
    hide FilesAfter, LockAfter, ConsumedAfter, LogAfter;
  }

  lemma UnregisterIsReliable(s: State, p: Pid, call: Call, i: Inside, o: Oracle)
    requires p in s.procs && s.procs[p].pc == Working(i) && !IsRegisterStep(i) && !IsResolveStep(i)
    requires s.procs[p].call == call && Reliable(s, p)
    ensures Reliable(Apply(s, p, UnregisterMove(s, call.task, i, o)), p)
  {
    hide BoundedRead, WellFormed, LockAfter, ConsumedAfter, LogAfter;
  }

  lemma ResolveIsReliable(s: State, p: Pid, call: Call, i: Inside, o: Oracle)
    requires p in s.procs && s.procs[p].pc == Working(i) && IsResolveStep(i)
    ensures Reliable(Apply(s, p, ResolveMove(s, i, o)), p)
  {
    hide ReadMarker, BoundIsThere, WellFormed, LockAfter, ConsumedAfter, LogAfter;
  }

  lemma OutsideIsReliable(s: State, p: Pid, o: Oracle)
    requires p in s.procs && !s.procs[p].pc.Working? && Reliable(s, p)
    ensures Reliable(Apply(s, p, MoveOf(s, p, o)), p)
  {
    OutsideGoes(s, p, s.procs[p].call, s.procs[p].pc, o);
    hide MoveOf, ReadMarker, BoundIsThere, FilesAfter, ConsumedAfter, LogAfter, LockAfter;
  }

  /** Outside the block the marker is not touched; the next step is outside too, the first inside, or
      on the way out with the same result. */
  lemma OutsideGoes(s: State, p: Pid, call: Call, pc: Pc, o: Oracle)
    requires !pc.Working?
    ensures var m := Decide(s, p, call, pc, o);
      && !m.effect.MarkerMade? && !m.effect.MarkerGone?
      && (m.pc.Working? ==> m.pc == EnterPc(call.task))
      && !m.pc.ReleaseRead?
      && (m.pc.ReleaseUnlink? ==> pc == ReleaseRead(m.pc.ret))
  {
    hide WorkMove, ReadMarker, Believes, WellFormed;
  }

  lemma OwnStepIsReliable(s: State, p: Pid, o: Oracle)
    requires p in s.procs && Reliable(s, p)
    ensures Reliable(Apply(s, p, MoveOf(s, p, o)), p)
  {
    hide Reliable, Apply, RegisterMove, UnregisterMove, ResolveMove;
    var pc, call := s.procs[p].pc, s.procs[p].call;
    if !pc.Working? { OutsideIsReliable(s, p, o); }
    else if IsRegisterStep(pc.inside) { RegisterIsReliable(s, p, call, pc.inside, o); }
    else if IsResolveStep(pc.inside) { ResolveIsReliable(s, p, call, pc.inside, o); }
    else { UnregisterIsReliable(s, p, call, pc.inside, o); }
  }

  lemma OtherStepIsReliable(s: State, p: Pid, o: Oracle, r: Pid)
    requires Live(s, p) && Live(s, r) && r != p && Reliable(s, r) && Exclusive(s)
    ensures Reliable(Apply(s, p, MoveOf(s, p, o)), r)
  {
    hide Decide, BoundedRead;
    MarkerEffects(s, p, s.procs[p].call, s.procs[p].pc, o);
    if InBlock(s.procs[r].pc) {
      assert !InBlock(s.procs[p].pc);
    }
  }

  lemma GuardedStep(s: State, a: Action)
    requires Guarded(s) && Exclusive(s)
    ensures Guarded(Next(s, a))
  {
    hide MoveOf, Apply, Reliable;
    var t := Next(s, a);
    match a.step
    case Take(o) =>
      if Live(s, a.pid) {
        GuardedAct(s, a.pid, o);
      }
    case Begin(call) =>
      if a.pid !in s.procs && WellFormed(call) {
        GuardedProcs(s, a.pid, Proc(call, Start, true, false, false, false, false));
      }
    case Die =>
      if a.pid in s.procs {
        GuardedProcs(s, a.pid, s.procs[a.pid].(alive := false));
      }
  }

  lemma GuardedAct(s: State, p: Pid, o: Oracle)
    requires Guarded(s) && Exclusive(s) && Live(s, p)
    ensures Guarded(Apply(s, p, MoveOf(s, p, o)))
  {
    hide MoveOf, Reliable, Exclusive;
    var t := Apply(s, p, MoveOf(s, p, o));
    forall r | Live(t, r) ensures Reliable(t, r) {
      assert Live(s, r) && Reliable(s, r);
      if r == p {
        OwnStepIsReliable(s, p, o);
      } else {
        OtherStepIsReliable(s, p, o, r);
      }
    }
  }

  /** Calls that begin or die. */
  lemma GuardedProcs(s: State, p: Pid, proc: Proc)
    requires Guarded(s) && (proc.pc.Start? || !proc.alive)
    ensures Guarded(s.(procs := s.procs[p := proc]))
  {
    hide BoundedRead;
    var t := s.(procs := s.procs[p := proc]);
    forall r | Live(t, r) ensures Reliable(t, r) {
      if r != p {
        assert Live(s, r);
      }
    }
  }

  /** What holds after every run in which replacements are harmless. */
  lemma {:induction false} AlwaysGuarded(parent: bool, actions: seq<Action>)
    requires Throughout(HarmlessRecovery, Initial(parent), actions)
    ensures var s := Run(Initial(parent), actions);
      Owned(s) && Exclusive(s) && Guarded(s) && AllLocal(s) && AllBelieved(s)
    decreases |actions|
  {
    AlwaysLocal(parent, actions);
    if actions != [] {
      var k := |actions| - 1;
      AlwaysGuarded(parent, actions[..k]);
      var s := Run(Initial(parent), actions[..k]);
      hide AllLocal, AllBelieved, Guarded, Owned, Harmless, Next;
      OwnedStep(s, actions[k]);
      GuardedStep(s, actions[k]);
      BelievedStep(s, actions[k]);
    }
    OwnedIsExclusive(Run(Initial(parent), actions));
  }

  /** The step `a` of a live call with this task has this effect. */
  predicate Does(s: State, a: Action, m: Move) {
    a.step.Take? && Live(s, a.pid) && m == MoveOf(s, a.pid, a.step.oracle)
  }

  /** Unregister only ever deletes a marker whose whole content is what its confirmation is bound
      to, and that is the complete marker of a confirmed draft. */
  lemma UnregisterDeletesBound(parent: bool, actions: seq<Action>, a: Action, m: Move)
    requires Throughout(HarmlessRecovery, Initial(parent), actions)
    requires var s := Run(Initial(parent), actions);
      Does(s, a, m) && m.effect.MarkerGone? && s.procs[a.pid].call.task.Unregister?
    ensures var s := Run(Initial(parent), actions);
      && MarkerContent(s) == Some(s.procs[a.pid].call.task.bound)
      && s.marker.Some? && ConfirmedDraft(s, s.marker.value)
      && s.procs[a.pid].call.task.bound == MarkerBytes(s.procs[s.marker.value].call.task.draft)
  {
    AlwaysGuarded(parent, actions);
    var s := Run(Initial(parent), actions);
    var p := a.pid;
    DeletionIsBound(s, a, m);
    MarkerIsDraftPrefix(parent, actions);
    MarkerLaws.BelievedIsComplete(s.procs[s.marker.value].call.task.draft, s.procs[p].call.task.bound);
  }

  lemma DeletionIsBound(s: State, a: Action, m: Move)
    requires Guarded(s) && AllLocal(s) && AllBelieved(s)
    requires Does(s, a, m) && m.effect.MarkerGone? && s.procs[a.pid].call.task.Unregister?
    ensures MarkerContent(s) == Some(s.procs[a.pid].call.task.bound) && Believes(s.procs[a.pid].call.task.bound)
  {
    hide Decide, DraftBytes, WellFormed, Believes, Truthful;
    var p := a.pid;
    MarkerEffects(s, p, s.procs[p].call, s.procs[p].pc, a.step.oracle);
    assert LocalAt(s, p) && Reliable(s, p) && BoundIsBelieved(s.procs[p]);
    BelievedIsShort(s.procs[p].call.task.bound);
    BoundedReadDecides(s.procs[p].call.task.bound);
  }

  /** Unregistered, and invalid-marker-resolved from inside the block, are reported only while the
      marker is absent; a result that says the marker was written, only while it is there. */
  lemma ReportedWhileTrue(parent: bool, actions: seq<Action>, p: Pid, ret: Return)
    requires Throughout(HarmlessRecovery, Initial(parent), actions)
    requires var s := Run(Initial(parent), actions);
      Live(s, p) && (s.procs[p].pc == ReleaseRead(ret) || s.procs[p].pc == ReleaseUnlink(ret)) && ret.Returned?
    ensures var s := Run(Initial(parent), actions);
      && (ret.result.outcome.Unregistered? || ret.result.outcome.InvalidMarkerResolved? ==> s.marker.None?)
      && (ret.result.markerWritten ==>
            s.marker == Some(p) && MarkerContent(s) == Some(DraftBytes(s.procs[p].call)))
  {
    AlwaysGuarded(parent, actions);
    var s := Run(Initial(parent), actions);
    assert LocalAt(s, p) && Reliable(s, p);
  }

  /** Under exclusion the read-back of a completed write finds the draft: it goes on to the target
      check unless the read itself fails. */
  lemma ReadBackSucceeds(parent: bool, actions: seq<Action>, p: Pid, o: Oracle)
    requires Throughout(HarmlessRecovery, Initial(parent), actions)
    requires var s := Run(Initial(parent), actions);
      Live(s, p) && s.procs[p].pc == Working(RegReadBack) && !o.fail
    ensures MoveOf(Run(Initial(parent), actions), p, o) == Go(Working(RegRecapture))
  {
    AlwaysGuarded(parent, actions);
    var s := Run(Initial(parent), actions);
    assert LocalAt(s, p) && Reliable(s, p);
    var d := s.procs[p].call.task.draft;
    MarkerLaws.WriteReadBackInverse(d);
    assert ReadMarker(s, false) == Some(MarkerBytes(d));
  }
}
