/** What a call answers, step by step and for good: each check lets it go on or ends it with a result
    written out here, whatever happens before and after; and a confirmation is consumed only when
    every check before the lock has said yes. */
module ProtocolVerdicts {
  import opened Text
  import opened Json
  import opened RawGuard
  import opened Marker
  import opened Protocol
  import opened ProtocolLock
  import opened ProtocolPlaces
  import opened ProtocolMarker
  import MarkerLaws

  // ---------------------------------------------------------------- results stand

  function ReturnOf(pc: Pc): Option<Return> {
    match pc
    case ReleaseRead(ret) => Some(ret)
    case ReleaseUnlink(ret) => Some(ret)
    case Done(ret) => Some(ret)
    case _ => None
  }

  lemma MoveKeepsReturn(s: State, p: Pid, call: Call, pc: Pc, o: Oracle)
    requires ReturnOf(pc).Some?
    ensures ReturnOf(Decide(s, p, call, pc, o).pc) == ReturnOf(pc)
  {
    hide StartMove, PrepareMove, AcquireMove, WorkMove;
  }

  lemma ReturnStep(s: State, a: Action, p: Pid)
    requires p in s.procs && ReturnOf(s.procs[p].pc).Some?
    ensures p in Next(s, a).procs && ReturnOf(Next(s, a).procs[p].pc) == ReturnOf(s.procs[p].pc)
  {
    hide Decide;
    if a.step.Take? && Live(s, a.pid) && a.pid == p {
      MoveKeepsReturn(s, p, s.procs[p].call, s.procs[p].pc, a.step.oracle);
    }
  }

  /** What a call has come to return stays so, whatever happens next. */
  lemma {:induction false} ReturnStands(s: State, more: seq<Action>, p: Pid)
    requires p in s.procs && ReturnOf(s.procs[p].pc).Some?
    ensures p in Run(s, more).procs && ReturnOf(Run(s, more).procs[p].pc) == ReturnOf(s.procs[p].pc)
    decreases |more|
  {
    hide Next;
    if more != [] {
      var k := |more| - 1;
      ReturnStands(s, more[..k], p);
      ReturnStep(Run(s, more[..k]), more[k], p);
    }
  }

  /** What the call returns, sooner or later in this continuation, after this step. */
  function Answer(s: State, p: Pid, o: Oracle, more: seq<Action>): Option<Return> {
    var t := Run(Next(s, Action(p, Take(o))), more);
    if p in t.procs then ReturnOf(t.procs[p].pc) else None
  }

  /** The step ends the call with this result, for good. */
  predicate Ends(s: State, p: Pid, o: Oracle, more: seq<Action>, ret: Return) {
    Answer(s, p, o, more) == Some(ret)
  }

  /** The step takes the call to this one. */
  predicate GoesOn(s: State, p: Pid, o: Oracle, pc: Pc) {
    var t := Next(s, Action(p, Take(o)));
    p in t.procs && t.procs[p].pc == pc
  }

  lemma StepEnds(s: State, p: Pid, o: Oracle, more: seq<Action>)
    requires Live(s, p)
    ensures ReturnOf(MoveOf(s, p, o).pc).Some? ==> Answer(s, p, o, more) == ReturnOf(MoveOf(s, p, o).pc)
    ensures GoesOn(s, p, o, MoveOf(s, p, o).pc)
  {
    hide MoveOf;
    if ReturnOf(MoveOf(s, p, o).pc).Some? {
      ReturnStands(Next(s, Action(p, Take(o))), more, p);
    }
  }

  function Plain(outcome: Outcome, reason: Reason): Return {
    Returned(Result(outcome, reason, false, false, None))
  }

  // ---------------------------------------------------------------- the start

  /** A call without a confirmation is cancelled as rejected; one with a spent or foreign confirmation
      as expired. Recovering a lock is confirmed outside and starts with its capture. */
  lemma StartVerdict(s: State, p: Pid, o: Oracle, more: seq<Action>)
    requires Live(s, p) && s.procs[p].pc == Start
    ensures s.procs[p].call.task.RecoverLock? ==> GoesOn(s, p, o, Preparing(RecCapture))
    ensures var call := s.procs[p].call; !call.task.RecoverLock? ==>
      && (call.confirmation == None ==> Ends(s, p, o, more, Plain(Cancelled, ConfirmationRejected)))
      && (call.confirmation.Some? && (call.confirmation.value in s.consumed || !call.matches) ==>
            Ends(s, p, o, more, Plain(Cancelled, ConfirmationExpired)))
      && (call.confirmation.Some? && call.confirmation.value !in s.consumed && call.matches ==>
            && (call.task.Register? ==> GoesOn(s, p, o, Preparing(RegCapture)))
            && (call.task.Unregister? ==> GoesOn(s, p, o, Preparing(UnrCapture)))
            && (call.task.Resolve? ==> GoesOn(s, p, o, Preparing(ResCapture))))
  {
    hide Answer, GoesOn, PrepareMove, AcquireMove, WorkMove, ReleaseMove;
    StepEnds(s, p, o, more);
  }

  // ---------------------------------------------------------------- register

  /** The checks of a register call before it takes the lock. */
  lemma RegisterPreparingVerdict(s: State, p: Pid, o: Oracle, more: seq<Action>)
    requires Live(s, p) && s.procs[p].pc.Preparing? && s.procs[p].call.task.Register?
    ensures var absent := s.procs[p].call.task.parentAbsent;
      match s.procs[p].pc.before
      case RegCapture =>
        if o.fail then Ends(s, p, o, more, Plain(Stopped, CaptureFailed))
        else if !o.yes then Ends(s, p, o, more, Plain(Cancelled, ConfirmationExpired))
        else GoesOn(s, p, o, Preparing(RegStat))
      case RegStat =>
        if s.marker.Some? || o.fail then Ends(s, p, o, more, Plain(Cancelled, ConfirmationExpired))
        else GoesOn(s, p, o, Preparing(RegParent))
      case RegParent =>
        if s.parent && absent then Ends(s, p, o, more, Plain(Cancelled, ConfirmationExpired))
        else if !s.parent && !absent then Ends(s, p, o, more, Plain(Cancelled, ConfirmationExpired))
        else if !absent && o.fail then Ends(s, p, o, more, Plain(Stopped, CaptureFailed))
        else if !absent && !o.yes then Ends(s, p, o, more, Plain(Cancelled, ConfirmationExpired))
        else GoesOn(s, p, o, Acquiring(Mkdir))
      case _ => true
  {
    hide Answer, GoesOn, StartMove, AcquireMove, WorkMove, ReleaseMove, ReadMarker;
    StepEnds(s, p, o, more);
  }

  /** Inside the block: the recapture after a created parent, and the create-only open. */
  lemma RegisterCreatingVerdict(s: State, p: Pid, o: Oracle, more: seq<Action>)
    requires Live(s, p) && s.procs[p].pc.Working? && s.procs[p].call.task.Register?
    ensures var call := s.procs[p].call;
      match s.procs[p].pc.inside
      case RegConfirm =>
        if !call.task.parentAbsent then GoesOn(s, p, o, Working(RegCreate))
        else if o.fail then Ends(s, p, o, more, Plain(Stopped, CaptureFailed))
        else if !s.parent || !o.yes then Ends(s, p, o, more, Plain(Cancelled, ConfirmationExpired))
        else GoesOn(s, p, o, Working(RegCreate))
      case RegCreate =>
        if o.fail || |DraftBytes(call)| > 262145 then Ends(s, p, o, more, Plain(Stopped, WriteFailed))
        else if s.marker == None then GoesOn(s, p, o, Working(RegWrite))
        else GoesOn(s, p, o, Working(RegCollide))
      case _ => true
  {
    hide Answer, GoesOn, StartMove, PrepareMove, AcquireMove, ReleaseMove, ReadMarker, DraftBytes, Believes;
    hide ReadBackVerified, ReadBackReason, OccupiedReason, MismatchReason, Classify, WriteMove;
    StepEnds(s, p, o, more);
  }

  /** The short writes and the synchronisation. */
  lemma RegisterWritingVerdict(s: State, p: Pid, o: Oracle, more: seq<Action>)
    requires Live(s, p) && s.procs[p].pc.Working? && s.procs[p].call.task.Register?
    requires p in s.files
    ensures var have, all := |s.files[p]|, |DraftBytes(s.procs[p].call)|;
      match s.procs[p].pc.inside
      case RegWrite =>
        if o.fail then Ends(s, p, o, more, Raised)
        else if have < all && o.count == 0 then Ends(s, p, o, more, Plain(Stopped, WriteFailed))
        else GoesOn(s, p, o, Working(if have + o.count < all then RegWrite else RegSync))
      case RegSync =>
        if o.fail then Ends(s, p, o, more, Raised) else GoesOn(s, p, o, Working(RegReadBack))
      case _ => true
  {
    hide Answer, GoesOn, StartMove, PrepareMove, AcquireMove, ReleaseMove, UnregisterMove, ResolveMove;
    hide ReadMarker, DraftBytes, Believes, ReadBackVerified, ReadBackReason, OccupiedReason, MismatchReason, Classify;
    StepEnds(s, p, o, more);
  }

  /** After the write: the read-back and the recapture of the target. */
  lemma ReadBackVerdict(s: State, p: Pid, o: Oracle, more: seq<Action>)
    requires Live(s, p) && s.procs[p].pc.Working? && s.procs[p].call.task.Register?
    ensures var d := s.procs[p].call.task.draft;
      match s.procs[p].pc.inside
      case RegReadBack =>
        if ReadMarker(s, o.fail).Some? && Classify(ReadMarker(s, o.fail).value) == LinkedExisting(d.identity)
        then GoesOn(s, p, o, Working(RegRecapture))
        else Ends(s, p, o, more, Unverified(BlamedReadBack(ReadMarker(s, o.fail))))
      case RegRecapture =>
        if o.fail || !o.yes then Ends(s, p, o, more, Unverified(ReadBackTargetMismatch))
        else GoesOn(s, p, o, Working(RegProject(false, d.identity)))
      case _ => true
  {
    hide Answer, GoesOn, StartMove, PrepareMove, AcquireMove, ReleaseMove, ReadMarker, DraftBytes, Believes;
    hide ReadBackVerified, ReadBackReason, OccupiedReason, MismatchReason, Classify, WriteMove, BlamedReadBack;
    StepEnds(s, p, o, more);
    if s.procs[p].pc == Working(RegReadBack) {
      var call, raw := s.procs[p].call, ReadMarker(s, o.fail);
      if raw.Some? {
        VerifiedIsLinked(call, raw.value);
      }
      if raw == None || Classify(raw.value) != LinkedExisting(call.task.draft.identity) {
        ReadBackBlamed(call, raw);
      }
    }
  }

  function Unverified(reason: Reason): Return {
    Returned(Result(WrittenUnverified, reason, true, false, None))
  }

  /** What is wrong with bytes that do not say linked with the draft's identity: they could not be read;
      they fail the guard, with its code; they are no object; they are an object of another version, or
      against the schema; or they are the marker of another identity. */
  function BlamedReadBack(raw: Option<Bytes>): Reason {
    if raw == None then ReadBackFailed
    else if Guard(raw.value) != Passed then GuardRejected(Guard(raw.value).code)
    else if LoadBytes(raw.value) == None || !LoadBytes(raw.value).value.Object? then ReadBackFailed
    else
      match Classify(raw.value)
      case OccupiedInvalid(Unsupported) => VersionUnsupported
      case OccupiedInvalid(_) => SchemaRejected
      case LinkedExisting(_) => IdentityDiffers
  }

  lemma ReadBackBlamed(call: Call, raw: Option<Bytes>)
    requires call.task.Register?
    requires raw.Some? ==> Classify(raw.value) != LinkedExisting(call.task.draft.identity)
    ensures ReadBackReason(call, raw) == BlamedReadBack(raw)
  {
    hide Guard, LoadBytes, Validate;
  }

  /** The same for what an inspection or a collision meets and does not believe. */
  function BlamedOccupied(raw: Option<Bytes>): Reason {
    if raw == None then ReadBackFailed
    else if Guard(raw.value) != Passed then GuardRejected(Guard(raw.value).code)
    else if Classify(raw.value) == OccupiedInvalid(MarkerState.Unsupported) then VersionUnsupported
    else SchemaRejected
  }

  lemma OccupiedBlamed(raw: Option<Bytes>)
    ensures OccupiedReason(raw) == BlamedOccupied(raw)
  {
    hide Guard, LoadBytes, Validate;
  }

  /** What a comparison with the bound bytes of a draft blames: the identity if the marker is a complete
      draft with another one, otherwise the marker; a marker still being written included. */
  lemma MismatchExact(bound: DraftInput, found: DraftInput, n: nat)
    requires Accepted(bound) && Accepted(found) && n <= |MarkerBytes(found)|
    ensures MismatchReason(MarkerBytes(bound), MarkerBytes(found)[..n]) ==
      if n == |MarkerBytes(found)| && found.identity != bound.identity then IdentityDiffers else MarkerChanged
  {
    hide Accepted, MarkerBytes, LoadBytes;
    DraftLoads(bound);
    if n == |MarkerBytes(found)| {
      DraftLoads(found);
      assert MarkerBytes(found)[..n] == MarkerBytes(found);
    } else {
      MarkerLaws.CutDoesNotDecode(found, n);
    }
  }

  lemma DraftLoads(d: DraftInput)
    requires Accepted(d)
    ensures LoadedIdentity(MarkerBytes(d)) == Some(Some(String(d.identity)))
  {
    hide Accepted, MarkerBytes, LoadBytes, Guard, Position, Lit;
    MarkerLaws.WriteReadBackInverse(d);
    MarkerLaws.DraftFields(d);
  }

  lemma VerifiedIsLinked(call: Call, raw: Bytes)
    requires call.task.Register?
    ensures ReadBackVerified(call, raw) <==> Classify(raw) == LinkedExisting(call.task.draft.identity)
  {
    MarkerLaws.ReadersAgree(call.task.draft, raw);
    hide Classify, CheckReadBack;
  }

  /** A collision: what is there is linked if it is valid, and never overwritten otherwise. */
  lemma CollisionVerdict(s: State, p: Pid, o: Oracle, more: seq<Action>)
    requires Live(s, p) && s.procs[p].pc == Working(RegCollide)
    ensures
      var raw := ReadMarker(s, o.fail);
      if raw.None? then Ends(s, p, o, more, Plain(OccupiedByInvalid, ReadBackFailed))
      else
        match Classify(raw.value)
        case OccupiedInvalid(_) => Ends(s, p, o, more, Plain(OccupiedByInvalid, BlamedOccupied(raw)))
        case LinkedExisting(identity) => GoesOn(s, p, o, Working(RegProject(true, identity)))
  {
    hide Answer, GoesOn, StartMove, PrepareMove, AcquireMove, ReleaseMove, ReadMarker, DraftBytes;
    hide ReadBackVerified, ReadBackReason, OccupiedReason, MismatchReason, Classify, WriteMove, BlamedOccupied;
    StepEnds(s, p, o, more);
    OccupiedBlamed(ReadMarker(s, o.fail));
    NothingRead();
  }

  lemma NothingRead()
    ensures BlamedOccupied(None) == ReadBackFailed
  {
  }

  /** In every run, whatever follows: a register call whose projection was answered linked returns
      registered after its own write and linked-existing after a collision; a conflict is a conflict
      in both cases; any other answer gives registered-unlinked after its own write, and stops the
      call after a collision. */
  lemma ProjectionVerdict(parent: bool, before: seq<Action>, p: Pid, o: Oracle, more: seq<Action>)
    requires var s := Run(Initial(parent), before);
      Live(s, p) && s.procs[p].pc.Working? && s.procs[p].pc.inside.RegProject?
    ensures var s := Run(Initial(parent), before);
      var identity := s.procs[p].pc.inside.identity;
      if s.procs[p].completed then
        && s.procs[p].call.task.Register? && identity == s.procs[p].call.task.draft.identity
        && Ends(s, p, o, more,
             match o.hook
             case HookLinked => Returned(Result(Registered, NoReason, true, false, Some(identity)))
             case HookConflict => Returned(Result(ConflictFound, ProjectionConflict, true, false, Some(identity)))
             case HookFailed => Returned(Result(RegisteredUnlinked, ProjectionLinkFailed, true, false, Some(identity)))
             case NoHook => Returned(Result(RegisteredUnlinked, ProjectionLinkFailed, true, false, Some(identity))))
      else
        Ends(s, p, o, more,
             match o.hook
             case HookLinked => Returned(Result(LinkedExistingMarker, NoReason, false, false, Some(identity)))
             case HookConflict => Returned(Result(ConflictFound, ProjectionConflict, false, false, Some(identity)))
             case HookFailed => Plain(Stopped, ProjectionLinkFailed)
             case NoHook => Plain(Stopped, ProjectionLinkFailed))
  {
    AlwaysLocal(parent, before);
    var s := Run(Initial(parent), before);
    assert LocalAt(s, p);
    ProjectionStep(s, p, o, more);
    hide Run, Ends;
  }

  lemma ProjectionStep(s: State, p: Pid, o: Oracle, more: seq<Action>)
    requires Live(s, p) && s.procs[p].pc.Working? && s.procs[p].pc.inside.RegProject?
    ensures var identity := s.procs[p].pc.inside.identity;
      if !s.procs[p].pc.inside.link then
        Ends(s, p, o, more,
             match o.hook
             case HookLinked => Returned(Result(Registered, NoReason, true, false, Some(identity)))
             case HookConflict => Returned(Result(ConflictFound, ProjectionConflict, true, false, Some(identity)))
             case HookFailed => Returned(Result(RegisteredUnlinked, ProjectionLinkFailed, true, false, Some(identity)))
             case NoHook => Returned(Result(RegisteredUnlinked, ProjectionLinkFailed, true, false, Some(identity))))
      else
        Ends(s, p, o, more,
             match o.hook
             case HookLinked => Returned(Result(LinkedExistingMarker, NoReason, false, false, Some(identity)))
             case HookConflict => Returned(Result(ConflictFound, ProjectionConflict, false, false, Some(identity)))
             case HookFailed => Plain(Stopped, ProjectionLinkFailed)
             case NoHook => Plain(Stopped, ProjectionLinkFailed))
  {
    hide Answer, GoesOn, StartMove, PrepareMove, AcquireMove, ReleaseMove, ReadMarker, DraftBytes, Believes;
    hide ReadBackVerified, ReadBackReason, OccupiedReason, MismatchReason, Classify, WriteMove;
    StepEnds(s, p, o, more);
  }

  // ---------------------------------------------------------------- unregister

  lemma UnregisterPreparingVerdict(s: State, p: Pid, o: Oracle, more: seq<Action>)
    requires Live(s, p) && s.procs[p].pc.Preparing? && s.procs[p].call.task.Unregister?
    ensures var bound := s.procs[p].call.task.bound;
      match s.procs[p].pc.before
      case UnrCapture =>
        if o.fail then Ends(s, p, o, more, Plain(Stopped, CaptureFailed)) else GoesOn(s, p, o, Preparing(UnrStat))
      case UnrStat =>
        if s.marker == None && !o.fail then Ends(s, p, o, more, Plain(Stopped, MarkerInvalid))
        else GoesOn(s, p, o, Preparing(UnrRead))
      case UnrRead =>
        var raw := ReadMarker(s, o.fail);
        if raw.None? then Ends(s, p, o, more, Plain(OccupiedByInvalid, ReadBackFailed))
        else if Classify(raw.value).OccupiedInvalid? then
          Ends(s, p, o, more, Plain(OccupiedByInvalid, BlamedOccupied(raw)))
        else if !o.yes then Ends(s, p, o, more, Plain(ChangedMarkerStopped, TargetChanged))
        else if raw.value != bound then
          Ends(s, p, o, more, Plain(ChangedMarkerStopped, MismatchReason(bound, raw.value)))
        else GoesOn(s, p, o, Acquiring(Mkdir))
      case _ => true
  {
    hide Answer, GoesOn, StartMove, AcquireMove, WorkMove, ReleaseMove, ReadMarker, Classify, OccupiedReason;
    hide MismatchReason, BlamedOccupied;
    StepEnds(s, p, o, more);
    OccupiedBlamed(ReadMarker(s, o.fail));
    NothingRead();
  }

  /** Under the lock: target, two comparisons, and the conditional delete with a third. */
  lemma UnregisterWorkingVerdict(s: State, p: Pid, o: Oracle, more: seq<Action>)
    requires Live(s, p) && s.procs[p].pc.Working? && s.procs[p].call.task.Unregister?
    ensures var raw, bound := ReadMarker(s, o.fail), s.procs[p].call.task.bound;
      var same := raw == Some(bound);
      var changed := Plain(ChangedMarkerStopped, MarkerChanged);
      var differs := Plain(ChangedMarkerStopped,
                           if raw.None? then ReadBackFailed else MismatchReason(bound, raw.value));
      match s.procs[p].pc.inside
      case UnrConfirm =>
        if o.fail then Ends(s, p, o, more, Plain(ChangedMarkerStopped, CaptureFailed))
        else if !o.yes then Ends(s, p, o, more, Plain(ChangedMarkerStopped, TargetChanged))
        else GoesOn(s, p, o, Working(UnrPostRead))
      case UnrPostRead => if same then GoesOn(s, p, o, Working(UnrPreRead)) else Ends(s, p, o, more, differs)
      case UnrPreRead => if same then GoesOn(s, p, o, Working(UnrLastRead)) else Ends(s, p, o, more, differs)
      case UnrLastRead => if same then GoesOn(s, p, o, Working(UnrUnlink)) else Ends(s, p, o, more, changed)
      case UnrUnlink =>
        if s.marker.Some? && !o.fail then GoesOn(s, p, o, Working(UnrVerify(3))) else Ends(s, p, o, more, changed)
      case UnrVerify(tries) =>
        if tries == 0 then Ends(s, p, o, more, Plain(ChangedMarkerStopped, AbsenceReadBackFailed))
        else if s.marker == None && !o.fail then
          Ends(s, p, o, more, Returned(Result(Unregistered, NoReason, false, true, None)))
        else GoesOn(s, p, o, Working(UnrVerify(tries - 1)))
      case _ => true
  {
    hide Answer, GoesOn, StartMove, PrepareMove, AcquireMove, RegisterMove, ResolveMove, ReleaseMove, ReadMarker;
    hide MismatchReason;
    StepEnds(s, p, o, more);
  }

  // ---------------------------------------------------------------- resolve-invalid

  lemma ResolveVerdict(s: State, p: Pid, o: Oracle, more: seq<Action>)
    requires Live(s, p) && s.procs[p].call.task.Resolve?
    ensures var resolved := Returned(Result(InvalidMarkerResolved, NoReason, false, true, None));
      match s.procs[p].pc
      case Preparing(ResCapture) =>
        if o.fail then Ends(s, p, o, more, Plain(Stopped, CaptureFailed))
        else if !o.yes then Ends(s, p, o, more, Plain(Cancelled, TargetChanged))
        else GoesOn(s, p, o, Preparing(ResStat))
      case Preparing(ResStat) =>
        if s.marker == None && !o.fail then Ends(s, p, o, more, resolved) else GoesOn(s, p, o, Preparing(ResRead))
      case Preparing(ResRead) =>
        if ReadMarker(s, o.fail) == Some(s.procs[p].call.task.bound) then GoesOn(s, p, o, Acquiring(Mkdir))
        else Ends(s, p, o, more, Plain(Cancelled, MarkerChanged))
      case Working(ResUnlink) =>
        if s.marker == None then GoesOn(s, p, o, Working(ResVerify))
        else if o.fail then Ends(s, p, o, more, Plain(Stopped, DeleteFailed))
        else GoesOn(s, p, o, Working(ResVerify)) && Next(s, Action(p, Take(o))).marker == None
      case Working(ResVerify) =>
        if s.marker == None && !o.fail then Ends(s, p, o, more, resolved)
        else Ends(s, p, o, more, Returned(Result(InvalidDeletedUnverified, AbsenceReadBackFailed, false, true, None)))
      case _ => true
  {
    hide Answer, GoesOn, StartMove, AcquireMove, RegisterMove, UnregisterMove, ReleaseMove, ReadMarker, Believes;
    StepEnds(s, p, o, more);
  }

  // ---------------------------------------------------------------- the lock

  /** A call that cannot have the lock ends at the deadline, as its operation says, and tries again
      before it; `recover_lock` does not try again. */
  predicate Denied(s: State, p: Pid, o: Oracle, more: seq<Action>)
    requires p in s.procs
  {
    match s.procs[p].call.task
    case Register(_, _) =>
      if o.timeUp then Ends(s, p, o, more, Plain(Stopped, LockUnavailable)) else GoesOn(s, p, o, Acquiring(Mkdir))
    case Resolve(_) =>
      if o.timeUp then Ends(s, p, o, more, Plain(Stopped, LockUnavailable)) else GoesOn(s, p, o, Acquiring(Mkdir))
    case Unregister(_) =>
      if o.timeUp then Ends(s, p, o, more, Plain(ChangedMarkerStopped, LockUnavailable))
      else GoesOn(s, p, o, Acquiring(Mkdir))
    case RecoverLock => Ends(s, p, o, more, Raised)
  }

  /** The way into the block: a lock is made in its absence, looked at otherwise, and replaced only
      after its owner was found dead and its lease over. */
  lemma LockVerdict(s: State, p: Pid, o: Oracle, more: seq<Action>)
    requires Live(s, p) && s.procs[p].pc.Acquiring?
    ensures var recover := s.procs[p].call.task.RecoverLock?;
      match s.procs[p].pc.acquire
      case Mkdir => if o.fail then Denied(s, p, o, more) else GoesOn(s, p, o, Acquiring(CreateLock))
      case CreateLock =>
        if o.fail then Denied(s, p, o, more)
        else if s.lock == NoLock then GoesOn(s, p, o, Acquiring(WriteLock))
        else GoesOn(s, p, o, Acquiring(ReadLock))
      case WriteLock =>
        if o.fail then Ends(s, p, o, more, Raised)
        else GoesOn(s, p, o, Acquiring(if o.yes then SyncLock else WriteLock))
      case ReadLock =>
        if s.lock.Held? && !o.fail then GoesOn(s, p, o, Acquiring(CheckStale(s.lock.owner)))
        else if recover then Ends(s, p, o, more, Recovered)
        else Denied(s, p, o, more)
      case CheckStale(q) =>
        if o.yes && q in s.procs && !s.procs[q].alive then GoesOn(s, p, o, Acquiring(CreateTemp(q)))
        else Denied(s, p, o, more)
      case CreateTemp(q) =>
        if o.fail then Denied(s, p, o, more) else GoesOn(s, p, o, Acquiring(WriteTemp(q)))
      case WriteTemp(q) =>
        if o.fail then Ends(s, p, o, more, Raised)
        else GoesOn(s, p, o, Acquiring(if o.yes then SyncTemp(q) else WriteTemp(q)))
      case SyncTemp(q) =>
        if o.fail then Ends(s, p, o, more, Raised) else GoesOn(s, p, o, Acquiring(ReplaceLock(q)))
      case ReplaceLock(_) => if o.fail then Denied(s, p, o, more) else Enters(s, p, o, more)
      case SyncLock => if o.fail then Ends(s, p, o, more, Raised) else Enters(s, p, o, more)
  {
    hide Answer, GoesOn, StartMove, PrepareMove, WorkMove, ReleaseMove;
    StepEnds(s, p, o, more);
  }

  /** The first step inside the block; `recover_lock` has none and returns. */
  predicate Enters(s: State, p: Pid, o: Oracle, more: seq<Action>)
    requires p in s.procs
  {
    match s.procs[p].call.task
    case Register(_, _) => GoesOn(s, p, o, Working(RegConfirm))
    case Unregister(_) => GoesOn(s, p, o, Working(UnrConfirm))
    case Resolve(_) => GoesOn(s, p, o, Working(ResUnlink))
    case RecoverLock => Ends(s, p, o, more, Recovered)
  }

  /** Leaving the block: the lock is unlinked only if it is read as the call's own. */
  lemma ReleaseVerdict(s: State, p: Pid, o: Oracle)
    requires Live(s, p)
    ensures match s.procs[p].pc
      case ReleaseRead(ret) =>
        GoesOn(s, p, o, if s.lock == Held(p) && !o.fail then ReleaseUnlink(ret) else Done(ret))
      case ReleaseUnlink(ret) =>
        GoesOn(s, p, o, Done(ret)) && Next(s, Action(p, Take(o))).lock == if o.fail then s.lock else NoLock
      case Preparing(RecCapture) =>
        GoesOn(s, p, o, if o.fail || !o.yes then Done(Raised) else Acquiring(ReadLock))
      case _ => true
  {
    StepEnds(s, p, o, []);
    hide Answer, GoesOn, StartMove, AcquireMove, WorkMove, ReadMarker;
  }

  // ---------------------------------------------------------------- checks before the lock

  /** The answers handed to a call so far, while it is there and alive. */
  function Heard(from: State, p: Pid, actions: seq<Action>): seq<Oracle>
    decreases |actions|
  {
    if actions == [] then []
    else
      var k := |actions| - 1;
      var before := Heard(from, p, actions[..k]);
      if actions[k].pid == p && actions[k].step.Take? && Live(Run(from, actions[..k]), p)
      then before + [actions[k].step.oracle]
      else before
  }

  /** What the answers say about the checks before the lock: the capture of the target worked and, for
      register and resolve-invalid, gave the confirmed workspace or target; the marker could be looked
      for and read; the parent, for register, or the target, for unregister, is the confirmed one. */
  predicate SaidYes(task: Task, heard: seq<Oracle>, checks: nat) {
    && checks <= |heard|
    && (checks > 1 ==> !heard[1].fail && (task.Register? || task.Resolve? ==> heard[1].yes))
    && (checks > 2 && task.Register? ==> !heard[2].fail)
    && (checks > 3 ==>
          match task
          case Register(_, parentAbsent) => !parentAbsent ==> !heard[3].fail && heard[3].yes
          case Unregister(_) => !heard[3].fail && heard[3].yes
          case Resolve(_) => !heard[3].fail
          case RecoverLock => true)
  }

  /** How many answers a call has heard at a step before the lock. */
  function CheckNumber(before: Before): nat {
    match before
    case RegCapture => 1
    case RegStat => 2
    case RegParent => 3
    case UnrCapture => 1
    case UnrStat => 2
    case UnrRead => 3
    case ResCapture => 1
    case ResStat => 2
    case ResRead => 3
    case RecCapture => 1
  }

  predicate HasBeenChecked(proc: Proc, heard: seq<Oracle>) {
    match proc.pc
    case Start => heard == []
    case Preparing(before) => |heard| == CheckNumber(before) && SaidYes(proc.call.task, heard, |heard|)
    case _ => proc.spent ==> SaidYes(proc.call.task, heard, 4)
  }

  lemma SaidYesStays(task: Task, heard: seq<Oracle>, o: Oracle, checks: nat)
    requires SaidYes(task, heard, checks)
    ensures SaidYes(task, heard + [o], checks)
  {
    assert forall i :: 0 <= i < |heard| ==> (heard + [o])[i] == heard[i];
  }

  lemma CheckedMove(s: State, p: Pid, o: Oracle, heard: seq<Oracle>)
    requires LocalAt(s, p) && HasBeenChecked(s.procs[p], heard)
    ensures HasBeenChecked(ProcAfter(s.procs[p], MoveOf(s, p, o)), heard + [o])
  {
    var proc := s.procs[p];
    var all := heard + [o];
    assert forall i :: 0 <= i < |heard| ==> all[i] == heard[i];
    assert all[|heard|] == o;
    assert proc.spent ==> !proc.pc.Start? && !proc.pc.Preparing?;
    assert Fits(proc.call.task, proc.pc);
    hide LocalAt, Local;
    if proc.pc.Preparing? {
      CheckedPreparing(s, p, o, proc.pc.before, heard);
    } else if proc.pc.Start? {
      hide PrepareMove, AcquireMove, WorkMove, ReleaseMove;
    } else {
      if proc.spent {
        SaidYesStays(proc.call.task, heard, o, 4);
      }
      NotPreparing(s, p, proc.call, proc.pc, o);
      hide MoveOf, SaidYes;
    }
  }

  lemma NotPreparing(s: State, p: Pid, call: Call, pc: Pc, o: Oracle)
    requires !pc.Start? && !pc.Preparing?
    ensures var m := Decide(s, p, call, pc, o);
      !m.pc.Start? && !m.pc.Preparing? && !m.effect.ConfirmationConsumed?
  {
    hide StartMove, PrepareMove, WorkMove;
    if pc.Working? {
      WorkNotPreparing(s, p, call, pc.inside, o);
    }
  }

  lemma WorkNotPreparing(s: State, p: Pid, call: Call, i: Inside, o: Oracle)
    ensures var m := WorkMove(s, p, call, i, o);
      !m.pc.Start? && !m.pc.Preparing? && !m.effect.ConfirmationConsumed?
  {
    hide Believes, ReadMarker, DraftBytes, ReadBackVerified, ReadBackReason, OccupiedReason, MismatchReason;
    hide Classify, DraftIdentity;
  }

  lemma CheckedPreparing(s: State, p: Pid, o: Oracle, before: Before, heard: seq<Oracle>)
    requires p in s.procs && s.procs[p].pc == Preparing(before) && !s.procs[p].spent
    requires Fits(s.procs[p].call.task, Preparing(before))
    requires |heard| == CheckNumber(before) && SaidYes(s.procs[p].call.task, heard, |heard|)
    requires forall i :: 0 <= i < |heard| ==> (heard + [o])[i] == heard[i]
    ensures HasBeenChecked(ProcAfter(s.procs[p], MoveOf(s, p, o)), heard + [o])
  {
    hide StartMove, AcquireMove, WorkMove, ReleaseMove, Believes, ReadMarker;
    ReadNeedsAnswer(s, o);
  }

  lemma ReadNeedsAnswer(s: State, o: Oracle)
    ensures ReadMarker(s, o.fail).Some? ==> !o.fail
  {
  }

  /** In every run: a call has consumed its confirmation only if every check before the lock has been
      answered in its favour. */
  lemma {:induction false} ConsumedOnlyChecked(parent: bool, actions: seq<Action>, p: Pid)
    ensures var s := Run(Initial(parent), actions);
      if p in s.procs then HasBeenChecked(s.procs[p], Heard(Initial(parent), p, actions))
      else Heard(Initial(parent), p, actions) == []
    decreases |actions|
  {
    if actions != [] {
      var k := |actions| - 1;
      ConsumedOnlyChecked(parent, actions[..k], p);
      AlwaysLocal(parent, actions[..k]);
      var s := Run(Initial(parent), actions[..k]);
      hide Decide, HasBeenChecked, AllLocal;
      CheckedStep(s, actions[k], p, Heard(Initial(parent), p, actions[..k]));
    }
  }

  lemma CheckedStep(s: State, a: Action, p: Pid, heard: seq<Oracle>)
    requires AllLocal(s) && (if p in s.procs then HasBeenChecked(s.procs[p], heard) else heard == [])
    ensures var t := Next(s, a);
      var more := if a.pid == p && a.step.Take? && Live(s, p) then heard + [a.step.oracle] else heard;
      if p in t.procs then HasBeenChecked(t.procs[p], more) else more == []
  {
    if a.pid == p && a.step.Take? && Live(s, p) {
      assert LocalAt(s, p);
      hide AllLocal, LocalAt, MoveOf, HasBeenChecked;
      CheckedMove(s, p, a.step.oracle, heard);
    } else {
      UncheckedStep(s, a, p, heard);
    }
  }

  lemma UncheckedStep(s: State, a: Action, p: Pid, heard: seq<Oracle>)
    requires !(a.pid == p && a.step.Take? && Live(s, p))
    requires if p in s.procs then HasBeenChecked(s.procs[p], heard) else heard == []
    ensures var t := Next(s, a); if p in t.procs then HasBeenChecked(t.procs[p], heard) else heard == []
  {
    hide Decide, SaidYes, Apply;
    if a.step.Take? && Live(s, a.pid) {
      OthersStand(s, a.pid, MoveOf(s, a.pid, a.step.oracle), p);
    }
  }

  lemma OthersStand(s: State, q: Pid, m: Move, p: Pid)
    requires q in s.procs && p != q
    ensures var t := Apply(s, q, m); (p in t.procs <==> p in s.procs) && (p in t.procs ==> t.procs[p] == s.procs[p])
  {
  }

  /** The answers a call gets, from now on. */
  function AnswersTo(p: Pid, actions: seq<Action>): seq<Oracle>
    decreases |actions|
  {
    if actions == [] then []
    else
      var k := |actions| - 1;
      var before := AnswersTo(p, actions[..k]);
      if actions[k].pid == p && actions[k].step.Take? then before + [actions[k].step.oracle] else before
  }
}
