/** What holds of the marker in every run, with or without the lock: what its bytes can be, what
    a result may claim about it, and which confirmation each change is charged to. */
module ProtocolMarker {
  import opened Text
  import opened Marker
  import opened Protocol
  import opened ProtocolLock
  import opened ProtocolPlaces
  import MarkerLaws

  // ---------------------------------------------------------------- what one call knows

  /** What a returned result says about the call's own effects. */
  predicate Truthful(proc: Proc, ret: Return) {
    var task := proc.call.task;
    match ret
    case Raised => !proc.completed && !proc.deleted
    case Recovered => !proc.created && !proc.completed && !proc.deleted
    case Returned(r) =>
      && (r.markerWritten <==> proc.completed)
      && (proc.created && !proc.completed ==> r.outcome.Stopped? && r.reason.WriteFailed?)
      && (r.outcome.Cancelled? || r.outcome.OccupiedByInvalid? || r.outcome.LinkedExistingMarker? ==>
            !proc.created && !proc.deleted)
      && (r.outcome.Registered? || r.outcome.RegisteredUnlinked? || r.outcome.WrittenUnverified? ==> proc.completed)
      && (r.markerWritten && r.identity.Some? ==> r.identity.value == DraftIdentity(proc.call))
      && (task.Register? ==> !r.markerDeleted && !proc.deleted)
      && (task.Unregister? ==>
            && (r.markerDeleted <==> r.outcome.Unregistered?)
            && (proc.deleted <==> r.outcome.Unregistered? || r.reason.AbsenceReadBackFailed?))
      && (task.Resolve? ==>
            && (proc.deleted ==> r.markerDeleted)
            && (r.markerDeleted <==> r.outcome.InvalidMarkerResolved? || r.outcome.InvalidDeletedUnverified?))
      && (task.RecoverLock? ==> !proc.deleted)
  }

  predicate NoEffect(proc: Proc) {
    !proc.created && !proc.completed && !proc.deleted
  }

  predicate MayAct(call: Call) {
    call.task.RecoverLock? || (call.confirmation.Some? && call.matches)
  }

  /** What a call has done by the time it is at a step. */
  predicate DoneSoFar(proc: Proc, file: Option<Bytes>) {
    match proc.pc
    case Start => NoEffect(proc) && !proc.spent
    case Preparing(_) => NoEffect(proc) && !proc.spent && MayAct(proc.call)
    case Acquiring(_) => NoEffect(proc) && (proc.spent || proc.call.task.RecoverLock?)
    case Working(i) =>
      && proc.spent
      && (match i
          case RegProject(link, identity) =>
            if link then NoEffect(proc) else proc.completed && identity == DraftIdentity(proc.call)
          case RegWrite => proc.created && !proc.completed
          case RegSync => proc.created && !proc.completed && file == Some(DraftBytes(proc.call))
          case RegReadBack => proc.completed
          case RegRecapture => proc.completed
          case UnrVerify(_) => proc.deleted
          case ResVerify => true
          case _ => NoEffect(proc))
    case ReleaseRead(ret) => Truthful(proc, ret) && proc.spent
    case ReleaseUnlink(ret) => Truthful(proc, ret) && proc.spent
    case Done(ret) => Truthful(proc, ret)
  }

  /** `file` is the content of the marker file the call created, if it did. */
  predicate Local(proc: Proc, file: Option<Bytes>) {
    && Fits(proc.call.task, proc.pc)
    && WellFormed(proc.call)
    && (proc.created <==> file.Some?)
    && (proc.created ==> proc.call.task.Register? && file.value <= DraftBytes(proc.call))
    && (proc.completed ==> proc.created && file.value == DraftBytes(proc.call))
    && (proc.deleted ==> proc.call.task.Unregister? || proc.call.task.Resolve?)
    && (proc.spent ==> proc.call.confirmation.Some? && proc.call.matches)
    && (proc.created || proc.deleted ==> proc.spent)
    && DoneSoFar(proc, file)
  }

  function FileOf(files: map<Pid, Bytes>, p: Pid): Option<Bytes> {
    if p in files then Some(files[p]) else None
  }

  predicate LocalAfter(s: State, p: Pid, m: Move)
    requires p in s.procs
  {
    Local(ProcAfter(s.procs[p], m), FileOf(FilesAfter(s.files, p, m.effect), p))
  }

  predicate LocalAt(s: State, p: Pid) {
    p in s.procs && Local(s.procs[p], FileOf(s.files, p))
  }

  lemma PrepareKeepsLocal(s: State, p: Pid, o: Oracle)
    requires LocalAt(s, p) && (s.procs[p].pc.Start? || s.procs[p].pc.Preparing?)
    ensures LocalAfter(s, p, MoveOf(s, p, o))
  {
    hide WorkMove, AcquireMove, ReleaseMove, ReadMarker, Believes, DraftBytes, WellFormed, DraftIdentity;
    var call, pc := s.procs[p].call, s.procs[p].pc;
    DecideFits(s, p, call, pc, o);
    if pc.Start? {
      hide PrepareMove;
    } else {
      hide StartMove, Fits;
      assert MoveOf(s, p, o) == PrepareMove(s, call, pc.before, o);
      PrepareEnds(s, call, pc.before, o);
      hide PrepareMove;
    }
  }

  /** A call that is still preparing goes on preparing, goes for the lock, or returns having done
      nothing. */
  lemma PrepareEnds(s: State, call: Call, before: Before, o: Oracle)
    requires Fits(call.task, Preparing(before))
    ensures var m := PrepareMove(s, call, before, o);
      || (m.pc.Preparing? && m.effect.Quiet?)
      || (m.effect.ConfirmationConsumed? && m.pc == Acquiring(Mkdir) && !call.task.RecoverLock?)
      || (m.effect.Quiet? && m.pc == Acquiring(ReadLock) && call.task.RecoverLock?)
      || (m.effect.Quiet? && m.pc.Done? && Truthful(Proc(call, m.pc, true, false, false, false, false), m.pc.ret))
  {
    hide ReadMarker, Believes;
  }

  lemma AcquireKeepsLocal(s: State, p: Pid, o: Oracle)
    requires LocalAt(s, p) && s.procs[p].pc.Acquiring?
    ensures LocalAfter(s, p, MoveOf(s, p, o))
  {
    hide WorkMove, StartMove, PrepareMove, ReleaseMove, ReadMarker, DraftBytes, WellFormed, DraftIdentity;
  }

  lemma ReleaseKeepsLocal(s: State, p: Pid, o: Oracle)
    requires LocalAt(s, p) && (s.procs[p].pc.ReleaseRead? || s.procs[p].pc.ReleaseUnlink? || s.procs[p].pc.Done?)
    ensures LocalAfter(s, p, MoveOf(s, p, o))
  {
    hide WorkMove, StartMove, PrepareMove, AcquireMove, ReadMarker, DraftBytes, WellFormed, DraftIdentity;
  }

  lemma WriteKeepsLocal(s: State, p: Pid, o: Oracle)
    requires LocalAt(s, p) && s.procs[p].pc == Working(RegWrite)
    ensures LocalAfter(s, p, MoveOf(s, p, o))
  {
    hide ReadMarker, Believes, DraftBytes, WellFormed, DraftIdentity;
    hide StartMove, PrepareMove, AcquireMove, UnregisterMove, ResolveMove, ReleaseMove;
    var have, bytes := s.files[p], DraftBytes(s.procs[p].call);
    if |have| >= |bytes| {
      assert have == bytes;
    } else {
      assert have + bytes[|have|..] == bytes;
      if |have| + o.count < |bytes| {
        assert have + bytes[|have|..|have| + o.count] == bytes[..|have| + o.count];
      }
    }
  }

  lemma RegisterKeepsLocal(s: State, p: Pid, o: Oracle)
    requires LocalAt(s, p) && s.procs[p].pc.Working? && IsRegisterStep(s.procs[p].pc.inside)
    requires s.procs[p].pc.inside != RegWrite
    ensures LocalAfter(s, p, MoveOf(s, p, o))
  {
    hide ReadMarker, Believes, DraftBytes, WellFormed, DraftIdentity, ReadBackVerified, ReadBackReason;
    hide OccupiedReason, MismatchReason, Classify, WriteMove;
    hide StartMove, PrepareMove, AcquireMove, UnregisterMove, ResolveMove, ReleaseMove, IsResolveStep;
    var i := s.procs[p].pc.inside;
    assert MoveOf(s, p, o) == RegisterMove(s, p, s.procs[p].call, i, o);
    if i.RegConfirm? || i.RegCreate? || i.RegSync? {
    } else if i.RegProject? {
    } else {
    }
  }

  lemma DeletersKeepLocal(s: State, p: Pid, o: Oracle)
    requires LocalAt(s, p) && s.procs[p].pc.Working? && !IsRegisterStep(s.procs[p].pc.inside)
    ensures LocalAfter(s, p, MoveOf(s, p, o))
  {
    hide ReadMarker, DraftBytes, WellFormed, DraftIdentity, RegisterMove;
    hide StartMove, PrepareMove, AcquireMove, ReleaseMove;
  }

  lemma MoveKeepsLocal(s: State, p: Pid, o: Oracle)
    requires LocalAt(s, p)
    ensures LocalAfter(s, p, MoveOf(s, p, o))
  {
    hide MoveOf, LocalAfter, Local;
    match s.procs[p].pc
    case Start => PrepareKeepsLocal(s, p, o);
    case Preparing(_) => PrepareKeepsLocal(s, p, o);
    case Acquiring(_) => AcquireKeepsLocal(s, p, o);
    case Working(i) =>
      if i == RegWrite { WriteKeepsLocal(s, p, o); }
      else if IsRegisterStep(i) { RegisterKeepsLocal(s, p, o); }
      else { DeletersKeepLocal(s, p, o); }
    case _ => ReleaseKeepsLocal(s, p, o);
  }

  // ---------------------------------------------------------------- the marker, in every run

  /** Every call is where `Local` says, and every marker file was created by one of them. */
  ghost predicate AllLocal(s: State) {
    && (forall p :: p in s.procs ==> LocalAt(s, p))
    && (forall p :: p in s.files ==> p in s.procs)
    && (s.marker.Some? ==> s.marker.value in s.files)
  }

  lemma LocalFrame(s: State, p: Pid, m: Move, r: Pid)
    requires LocalAt(s, r) && p in s.procs && r != p
    ensures LocalAt(Apply(s, p, m), r)
  {
    hide Local;
  }

  lemma AllLocalAct(s: State, p: Pid, o: Oracle)
    requires AllLocal(s) && p in s.procs
    ensures AllLocal(Apply(s, p, MoveOf(s, p, o)))
  {
    hide MoveOf, Local;
    var m := MoveOf(s, p, o);
    MoveKeepsLocal(s, p, o);
    forall r | r in s.procs ensures LocalAt(Apply(s, p, m), r) {
      if r != p {
        LocalFrame(s, p, m, r);
      }
    }
  }

  lemma NewIsLocal(call: Call)
    requires WellFormed(call)
    ensures Local(Proc(call, Start, true, false, false, false, false), None)
  {
  }

  lemma DeathIsLocal(proc: Proc, file: Option<Bytes>)
    requires Local(proc, file)
    ensures Local(proc.(alive := false), file)
  {
    hide WellFormed, DraftBytes, DraftIdentity, Fits;
  }

  lemma AllLocalOther(s: State, a: Action)
    requires AllLocal(s) && !a.step.Take?
    ensures AllLocal(Next(s, a))
  {
    hide Local;
    var t := Next(s, a);
    forall r | r in t.procs ensures LocalAt(t, r) {
      if r in s.procs {
        assert LocalAt(s, r);
        DeathIsLocal(s.procs[r], FileOf(s.files, r));
      } else {
        NewIsLocal(a.step.call);
      }
    }
  }

  lemma AllLocalStep(s: State, a: Action)
    requires AllLocal(s)
    ensures AllLocal(Next(s, a))
  {
    hide Apply, MoveOf, AllLocal;
    if !a.step.Take? {
      AllLocalOther(s, a);
    } else if Live(s, a.pid) {
      AllLocalAct(s, a.pid, a.step.oracle);
    }
  }

  lemma {:induction false} AlwaysLocal(parent: bool, actions: seq<Action>)
    ensures AllLocal(Run(Initial(parent), actions))
    decreases |actions|
  {
    if actions != [] {
      var k := |actions| - 1;
      AlwaysLocal(parent, actions[..k]);
      AllLocalStep(Run(Initial(parent), actions[..k]), actions[k]);
    }
  }

  /** The content of the marker, if there is one. */
  function MarkerContent(s: State): Option<Bytes> {
    if s.marker.None? then None else FileOf(s.files, s.marker.value)
  }

  /** The call that created a marker file was given a confirmation that matches its draft. */
  predicate ConfirmedDraft(s: State, p: Pid) {
    && p in s.procs && s.procs[p].call.task.Register? && Accepted(s.procs[p].call.task.draft)
    && s.procs[p].call.confirmation.Some? && s.procs[p].call.matches && s.procs[p].spent
  }

  lemma PrefixOfDraft(s: State)
    requires AllLocal(s) && s.marker.Some?
    ensures ConfirmedDraft(s, s.marker.value) && MarkerContent(s).Some?
    ensures MarkerContent(s).value <= MarkerBytes(s.procs[s.marker.value].call.task.draft)
  {
    assert LocalAt(s, s.marker.value);
  }

  /** In every run, with or without the lock, with deaths and short writes anywhere: the marker
      path is free, or what is there is a prefix of exactly one confirmed draft's bytes. */
  lemma MarkerIsDraftPrefix(parent: bool, actions: seq<Action>)
    ensures var s := Run(Initial(parent), actions);
      s.marker.Some? ==>
        && ConfirmedDraft(s, s.marker.value)
        && MarkerContent(s).Some?
        && MarkerContent(s).value <= MarkerBytes(s.procs[s.marker.value].call.task.draft)
  {
    AlwaysLocal(parent, actions);
    var s := Run(Initial(parent), actions);
    if s.marker.Some? {
      PrefixOfDraft(s);
    }
  }

  /** The bytes of the marker, read and classified. */
  lemma ReadIsClassified(s: State)
    requires AllLocal(s) && s.marker.Some?
    ensures ConfirmedDraft(s, s.marker.value) && ReadMarker(s, false).Some?
    ensures var d := s.procs[s.marker.value].call.task.draft;
      Classify(ReadMarker(s, false).value)
      == if MarkerContent(s) == Some(MarkerBytes(d)) then LinkedExisting(d.identity) else OccupiedInvalid(Partial)
  {
    PrefixOfDraft(s);
    hide Local, AllLocal, Classify, Accepted, MarkerBytes;
    var d, content := s.procs[s.marker.value].call.task.draft, MarkerContent(s).value;
    MarkerLaws.DraftFits(d);
    assert BoundedRead(content) == content;
    if content == MarkerBytes(d) {
      MarkerLaws.WriteReadBackInverse(d);
    } else {
      assert content == MarkerBytes(d)[..|content|];
      MarkerLaws.InterruptedWrite(d, |content|);
    }
  }

  /** What an inspection says in any run: linked-existing exactly when the draft is completely
      there, and then with the identity of that draft; otherwise a partial marker. */
  lemma InspectionNamesConfirmedDraft(parent: bool, actions: seq<Action>)
    ensures var s := Run(Initial(parent), actions);
      s.marker.Some? ==>
        && ConfirmedDraft(s, s.marker.value)
        && ReadMarker(s, false).Some?
        && var d := s.procs[s.marker.value].call.task.draft;
           Classify(ReadMarker(s, false).value)
           == if MarkerContent(s) == Some(MarkerBytes(d)) then LinkedExisting(d.identity) else OccupiedInvalid(Partial)
  {
    AlwaysLocal(parent, actions);
    var s := Run(Initial(parent), actions);
    if s.marker.Some? {
      ReadIsClassified(s);
    }
  }

  /** A call that was handed no confirmation, or one for another draft, envelope or workspace, is at
      its first step or has returned, at any point of any run; it has consumed and changed nothing,
      and its next step leaves lock, parent, marker and confirmations as they are. */
  lemma UnconfirmedDoesNothing(parent: bool, actions: seq<Action>, p: Pid, o: Oracle)
    requires p in Run(Initial(parent), actions).procs && !MayAct(Run(Initial(parent), actions).procs[p].call)
    ensures var s := Run(Initial(parent), actions);
      && NoEffect(s.procs[p]) && !s.procs[p].spent && (s.procs[p].pc.Start? || s.procs[p].pc.Done?)
      && Next(s, Action(p, Take(o))) == s.(procs := Next(s, Action(p, Take(o))).procs)
  {
    AlwaysLocal(parent, actions);
    var s := Run(Initial(parent), actions);
    assert LocalAt(s, p);
    hide Run, PrepareMove, AcquireMove, WorkMove, ReleaseMove;
    assert MoveOf(s, p, o).effect.Quiet?;
  }

  /** Every returned result tells the truth about the call's own effects. */
  lemma ResultsAreTruthful(parent: bool, actions: seq<Action>, p: Pid)
    requires p in Run(Initial(parent), actions).procs && Run(Initial(parent), actions).procs[p].pc.Done?
    ensures var proc := Run(Initial(parent), actions).procs[p]; Truthful(proc, proc.pc.ret)
  {
    AlwaysLocal(parent, actions);
    assert LocalAt(Run(Initial(parent), actions), p);
  }
}
