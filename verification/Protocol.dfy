/** The marker lifecycle as a step system: any number of `register`, `unregister`,
    `resolve_invalid` and `recover_lock` calls on one workspace, one step per filesystem call.
    Everything the code cannot control is an oracle: failing calls, short writes, what the
    identity captures say, the lease clock, the deadline, the projection hook. */
module Protocol {
  import opened Text
  import opened Json
  import opened RawGuard
  import opened Marker

  type Pid = nat
  type ConfirmationId = nat

  /** What a call is asked to do. `draft` is the accepted draft and `parentAbsent` what its handle
      recorded; `bound` are the bytes bound in an unregister or resolution envelope. */
  datatype Task =
    | Register(draft: DraftInput, parentAbsent: bool)
    | Unregister(bound: Bytes)
    | Resolve(bound: Bytes)
    | RecoverLock

  /** A call with the confirmation it was handed, if any, and whether that confirmation is bound
      to this very draft or envelope and workspace. */
  datatype Call = Call(task: Task, confirmation: Option<ConfirmationId>, matches: bool)

  datatype Outcome =
    | Registered | RegisteredUnlinked | WrittenUnverified | LinkedExistingMarker | ConflictFound
    | Cancelled | Stopped | OccupiedByInvalid | InvalidMarkerResolved | InvalidDeletedUnverified
    | Unregistered | ChangedMarkerStopped

  /** The diagnostic code of a result. `CaptureFailed` stands for the three codes of a failing capture,
      `SchemaRejected` for those of the schema. */
  datatype Reason =
    | NoReason | ConfirmationRejected | ConfirmationExpired
    | CaptureFailed | TargetChanged | MarkerChanged | IdentityDiffers | MarkerInvalid
    | LockUnavailable | WriteFailed | DeleteFailed
    | ReadBackFailed | ReadBackTargetMismatch | AbsenceReadBackFailed
    | GuardRejected(code: Code) | VersionUnsupported | SchemaRejected
    | ProjectionConflict | ProjectionLinkFailed

  /** The effects a result claims, and the identity it carries. */
  datatype Result = Result(
    outcome: Outcome, reason: Reason, markerWritten: bool, markerDeleted: bool, identity: Option<Text>)

  datatype Return = Returned(result: Result) | Recovered | Raised

  datatype Before =
    | RegCapture | RegStat | RegParent
    | UnrCapture | UnrStat | UnrRead
    | ResCapture | ResStat | ResRead
    | RecCapture

  datatype Acquire =
    | Mkdir | CreateLock | WriteLock | SyncLock
    | ReadLock | CheckStale(owner: Pid)
    | CreateTemp(owner: Pid) | WriteTemp(owner: Pid) | SyncTemp(owner: Pid) | ReplaceLock(owner: Pid)

  datatype Inside =
    | RegConfirm | RegCreate | RegWrite | RegSync | RegReadBack | RegRecapture | RegProject(link: bool, identity: Text) | RegCollide
    | UnrConfirm | UnrPostRead | UnrPreRead | UnrLastRead | UnrUnlink | UnrVerify(tries: nat)
    | ResUnlink | ResVerify

  datatype Pc =
    | Start
    | Preparing(before: Before)
    | Acquiring(acquire: Acquire)
    | Working(inside: Inside)
    | ReleaseRead(ret: Return)
    | ReleaseUnlink(ret: Return)
    | Done(ret: Return)

  /** A call in progress. The last four fields record what it has done: it consumed its
      confirmation, created the marker file, completed the create-only write, deleted a marker. */
  datatype Proc = Proc(call: Call, pc: Pc, alive: bool, spent: bool, created: bool, completed: bool, deleted: bool)

  /** The lock file: absent, partly written, or holding complete metadata of its owner. */
  datatype Lock = NoLock | Torn(owner: Pid) | Held(owner: Pid)

  datatype Event = MarkerCreated(pid: Pid) | MarkerDeleted(pid: Pid)

  /** `marker` is the file the marker path points to, named after the call that created it;
      `files` holds the content of every such file, unlinked ones included. */
  datatype State = State(
    parent: bool,
    lock: Lock,
    marker: Option<Pid>,
    files: map<Pid, Bytes>,
    consumed: set<ConfirmationId>,
    procs: map<Pid, Proc>,
    log: seq<Event>)

  datatype Hook = NoHook | HookLinked | HookConflict | HookFailed

  /** `fail`: the filesystem call fails with an error other than exists or not-found. `yes`: the
      answer of a capture comparison, of the lease clock with the liveness check, or whether a
      short write was the last one. `count`: bytes taken by a marker write. */
  datatype Oracle = Oracle(fail: bool, yes: bool, count: nat, timeUp: bool, hook: Hook)

  // ---------------------------------------------------------------- results

  function Cancel(reason: Reason): Return {
    Returned(Result(Cancelled, reason, false, false, None))
  }

  function Stop(reason: Reason): Return {
    Returned(Result(Stopped, reason, false, false, None))
  }

  function Changed(reason: Reason): Return {
    Returned(Result(ChangedMarkerStopped, reason, false, false, None))
  }

  function Occupied(reason: Reason): Return {
    Returned(Result(OccupiedByInvalid, reason, false, false, None))
  }

  function UnverifiedReturn(reason: Reason): Return {
    Returned(Result(WrittenUnverified, reason, true, false, None))
  }

  function ResolvedReturn(): Return {
    Returned(Result(InvalidMarkerResolved, NoReason, false, true, None))
  }

  /** `_project`, given whether it links an existing marker or follows a write. */
  function ProjectReturn(link: bool, identity: Text, hook: Hook): Return {
    match hook
    case HookLinked =>
      Returned(Result(if link then LinkedExistingMarker else Registered, NoReason, !link, false, Some(identity)))
    case HookConflict => Returned(Result(ConflictFound, ProjectionConflict, !link, false, Some(identity)))
    case _ =>
      if link then Stop(ProjectionLinkFailed)
      else Returned(Result(RegisteredUnlinked, ProjectionLinkFailed, true, false, Some(identity)))
  }

  function UnavailableReturn(task: Task): Return {
    match task
    case Unregister(_) => Changed(LockUnavailable)
    case RecoverLock => Raised
    case _ => Stop(LockUnavailable)
  }

  // ---------------------------------------------------------------- reading

  /** `read_marker` on a file with this content. */
  function BoundedRead(content: Bytes): Bytes {
    if |content| <= MAX_READ_BYTES + 1 then content else content[..MAX_READ_BYTES + 1]
  }

  /** What reading the marker path returns; None when the file is not there or the call fails. */
  function ReadMarker(s: State, fail: bool): Option<Bytes> {
    if fail || s.marker.None? || s.marker.value !in s.files then None
    else Some(BoundedRead(s.files[s.marker.value]))
  }

  predicate Believes(raw: Bytes) {
    Classify(raw).LinkedExisting?
  }

  predicate WellFormed(call: Call) {
    call.task.Register? ==> Accepted(call.task.draft)
  }

  /** The bytes a register call is to write. */
  function DraftBytes(call: Call): Bytes {
    if call.task.Register? && WellFormed(call) then MarkerBytes(call.task.draft) else []
  }

  function DraftIdentity(call: Call): Text {
    if call.task.Register? then call.task.draft.identity else []
  }

  predicate ReadBackVerified(call: Call, raw: Bytes) {
    call.task.Register? && CheckReadBack(call.task.draft, Some(raw), true) == Verified
  }

  /** The code for what an inspection or a collision finds at the marker path and does not believe. */
  function OccupiedReason(raw: Option<Bytes>): Reason {
    match raw
    case None => ReadBackFailed
    case Some(b) =>
      match Guard(b)
      case Rejected(code) => GuardRejected(code)
      case Passed =>
        if Classify(b) == OccupiedInvalid(MarkerState.Unsupported) then VersionUnsupported else SchemaRejected
  }

  /** The code for a read-back that is not verified. */
  function ReadBackReason(call: Call, raw: Option<Bytes>): Reason {
    if !call.task.Register? then NoReason
    else
      match CheckReadBack(call.task.draft, raw, true)
      case Unverified(GuardFault(code)) => GuardRejected(code)
      case Unverified(SchemaFault(validity)) => if validity.UnsupportedVersion? then VersionUnsupported else SchemaRejected
      case Unverified(IdentityMismatch) => IdentityDiffers
      case _ => ReadBackFailed
  }

  /** `.get("identity")` of a loaded marker; None when it is no object. */
  function LoadedIdentity(raw: Bytes): Option<Option<Json>> {
    match LoadBytes(raw)
    case None => None
    case Some(v) =>
      if !v.Object? then None
      else Some(if Has(v.members, "identity") then Some(Get(v.members, "identity")) else None)
  }

  /** `_mismatch_code`. */
  function MismatchReason(expected: Bytes, observed: Bytes): Reason {
    var a, b := LoadedIdentity(expected), LoadedIdentity(observed);
    if a.Some? && b.Some? && a != b then IdentityDiffers else MarkerChanged
  }

  predicate Dead(s: State, p: Pid) {
    p in s.procs && !s.procs[p].alive
  }

  // ---------------------------------------------------------------- effects

  /** What one step does to the shared state, apart from moving the call on. */
  datatype Effect =
    | Quiet | ParentMade | ConfirmationConsumed
    | LockCreated | LockCompleted | LockReplaced | LockRemoved
    | MarkerMade | MarkerGrown(more: Bytes) | WriteCompleted | MarkerGone

  datatype Move = Move(pc: Pc, effect: Effect)

  function Go(pc: Pc): Move {
    Move(pc, Quiet)
  }

  function Finish(ret: Return): Move {
    Go(Done(ret))
  }

  /** Leaving the block of the lock, on normal and on exceptional exit. */
  function Leave(ret: Return): Move {
    Go(ReleaseRead(ret))
  }

  function ProcAfter(proc: Proc, m: Move): Proc {
    Proc(proc.call, m.pc, proc.alive,
         proc.spent || m.effect.ConfirmationConsumed?,
         proc.created || m.effect.MarkerMade?,
         proc.completed || m.effect.WriteCompleted?,
         proc.deleted || m.effect.MarkerGone?)
  }

  /** Writing to the lock file goes to the file this call created, which may have been replaced
      at the lock path since. */
  function LockAfter(lock: Lock, p: Pid, e: Effect): Lock {
    match e
    case LockCreated => Torn(p)
    case LockCompleted => if lock == Torn(p) then Held(p) else lock
    case LockReplaced => Held(p)
    case LockRemoved => NoLock
    case _ => lock
  }

  function MarkerAfter(marker: Option<Pid>, p: Pid, e: Effect): Option<Pid> {
    match e
    case MarkerMade => Some(p)
    case MarkerGone => None
    case _ => marker
  }

  function FilesAfter(files: map<Pid, Bytes>, p: Pid, e: Effect): map<Pid, Bytes> {
    match e
    case MarkerMade => files[p := []]
    case MarkerGrown(more) => if p in files then files[p := files[p] + more] else files
    case _ => files
  }

  function ConsumedAfter(consumed: set<ConfirmationId>, call: Call, e: Effect): set<ConfirmationId> {
    if e.ConfirmationConsumed? && call.confirmation.Some? then consumed + {call.confirmation.value} else consumed
  }

  function LogAfter(log: seq<Event>, p: Pid, e: Effect): seq<Event> {
    match e
    case MarkerMade => log + [MarkerCreated(p)]
    case MarkerGone => log + [MarkerDeleted(p)]
    case _ => log
  }

  function Apply(s: State, p: Pid, m: Move): State
    requires p in s.procs
  {
    State(s.parent || m.effect.ParentMade?,
          LockAfter(s.lock, p, m.effect),
          MarkerAfter(s.marker, p, m.effect),
          FilesAfter(s.files, p, m.effect),
          ConsumedAfter(s.consumed, s.procs[p].call, m.effect),
          s.procs[p := ProcAfter(s.procs[p], m)],
          LogAfter(s.log, p, m.effect))
  }

  // ---------------------------------------------------------------- steps

  function StartMove(s: State, call: Call): Move {
    if call.task.RecoverLock? then Go(Preparing(RecCapture))
    else if call.confirmation.None? then Finish(Cancel(ConfirmationRejected))
    else if call.confirmation.value in s.consumed || !call.matches then Finish(Cancel(ConfirmationExpired))
    else
      Go(Preparing(match call.task
                   case Register(_, _) => RegCapture
                   case Unregister(_) => UnrCapture
                   case _ => ResCapture))
  }

  /** Consume the confirmation and go for the lock. */
  function Consume(): Move {
    Move(Acquiring(Mkdir), ConfirmationConsumed)
  }

  function PrepareMove(s: State, call: Call, before: Before, o: Oracle): Move {
    var present := s.marker.Some? || o.fail;
    match before
    case RegCapture =>
      if o.fail then Finish(Stop(CaptureFailed))
      else if !o.yes then Finish(Cancel(ConfirmationExpired))
      else Go(Preparing(RegStat))
    case RegStat =>
      if present then Finish(Cancel(ConfirmationExpired)) else Go(Preparing(RegParent))
    case RegParent =>
      if !call.task.Register? || s.parent == call.task.parentAbsent then Finish(Cancel(ConfirmationExpired))
      else if s.parent && o.fail then Finish(Stop(CaptureFailed))
      else if s.parent && !o.yes then Finish(Cancel(ConfirmationExpired))
      else Consume()
    case UnrCapture =>
      if o.fail then Finish(Stop(CaptureFailed)) else Go(Preparing(UnrStat))
    case UnrStat =>
      if !present then Finish(Stop(MarkerInvalid)) else Go(Preparing(UnrRead))
    case UnrRead =>
      var raw := ReadMarker(s, o.fail);
      if raw.None? || !Believes(raw.value) || !call.task.Unregister? then Finish(Occupied(OccupiedReason(raw)))
      else if !o.yes then Finish(Changed(TargetChanged))
      else if raw.value != call.task.bound then Finish(Changed(MismatchReason(call.task.bound, raw.value)))
      else Consume()
    case ResCapture =>
      if o.fail then Finish(Stop(CaptureFailed))
      else if !o.yes then Finish(Cancel(TargetChanged))
      else Go(Preparing(ResStat))
    case ResStat =>
      if !present then Finish(ResolvedReturn()) else Go(Preparing(ResRead))
    case ResRead =>
      var raw := ReadMarker(s, o.fail);
      if raw.None? || !call.task.Resolve? || raw.value != call.task.bound then Finish(Cancel(MarkerChanged))
      else Consume()
    case RecCapture =>
      if o.fail || !o.yes then Finish(Raised) else Go(Acquiring(ReadLock))
  }

  /** The first step inside the block; `recover_lock` has no block and returns. */
  function EnterPc(task: Task): Pc {
    match task
    case Register(_, _) => Working(RegConfirm)
    case Unregister(_) => Working(UnrConfirm)
    case Resolve(_) => Working(ResUnlink)
    case RecoverLock => Done(Recovered)
  }

  /** LockUnavailableError: raised at the deadline, retried before it. `recover_lock` does
      not retry. */
  function Unavailable(task: Task, o: Oracle): Move {
    if o.timeUp || task.RecoverLock? then Finish(UnavailableReturn(task)) else Go(Acquiring(Mkdir))
  }

  function AcquireMove(s: State, task: Task, acquire: Acquire, o: Oracle): Move {
    match acquire
    case Mkdir =>
      if o.fail then Unavailable(task, o) else Move(Acquiring(CreateLock), ParentMade)
    case CreateLock =>
      if o.fail then Unavailable(task, o)
      else if s.lock.NoLock? then Move(Acquiring(WriteLock), LockCreated)
      else Go(Acquiring(ReadLock))
    case WriteLock =>
      if o.fail then Finish(Raised)
      else if !o.yes then Go(Acquiring(WriteLock))
      else Move(Acquiring(SyncLock), LockCompleted)
    case SyncLock =>
      if o.fail then Finish(Raised) else Go(EnterPc(task))
    case ReadLock =>
      if s.lock.Held? && !o.fail then Go(Acquiring(CheckStale(s.lock.owner)))
      else if task.RecoverLock? then Finish(Recovered)
      else Unavailable(task, o)
    case CheckStale(q) =>
      if o.yes && Dead(s, q) then Go(Acquiring(CreateTemp(q))) else Unavailable(task, o)
    case CreateTemp(q) =>
      if o.fail then Unavailable(task, o) else Go(Acquiring(WriteTemp(q)))
    case WriteTemp(q) =>
      if o.fail then Finish(Raised)
      else if !o.yes then Go(Acquiring(WriteTemp(q)))
      else Go(Acquiring(SyncTemp(q)))
    case SyncTemp(q) =>
      if o.fail then Finish(Raised) else Go(Acquiring(ReplaceLock(q)))
    case ReplaceLock(q) =>
      if o.fail then Unavailable(task, o) else Move(EnterPc(task), LockReplaced)
  }

  /** One `os.write` on the marker file: at most `count` bytes of what is left. */
  function WriteMove(have: Bytes, bytes: Bytes, count: nat): Move {
    if |have| >= |bytes| then Go(Working(RegSync))
    else if count == 0 then Leave(Stop(WriteFailed))
    else if |have| + count < |bytes| then Move(Working(RegWrite), MarkerGrown(bytes[|have|..|have| + count]))
    else Move(Working(RegSync), MarkerGrown(bytes[|have|..]))
  }

  function RegisterMove(s: State, p: Pid, call: Call, inside: Inside, o: Oracle): Move {
    match inside
    case RegConfirm =>
      if !call.task.Register? || !call.task.parentAbsent then Go(Working(RegCreate))
      else if o.fail then Leave(Stop(CaptureFailed))
      else if !s.parent || !o.yes then Leave(Cancel(ConfirmationExpired))
      else Go(Working(RegCreate))
    case RegCreate =>
      if |DraftBytes(call)| > MAX_READ_BYTES + 1 || o.fail then Leave(Stop(WriteFailed))
      else if s.marker.Some? then Go(Working(RegCollide))
      else Move(Working(RegWrite), MarkerMade)
    case RegWrite =>
      if o.fail || p !in s.files then Leave(Raised) else WriteMove(s.files[p], DraftBytes(call), o.count)
    case RegSync =>
      if o.fail then Leave(Raised) else Move(Working(RegReadBack), WriteCompleted)
    case RegReadBack =>
      var raw := ReadMarker(s, o.fail);
      if raw.None? || !ReadBackVerified(call, raw.value) then Leave(UnverifiedReturn(ReadBackReason(call, raw)))
      else Go(Working(RegRecapture))
    case RegRecapture =>
      if o.fail || !o.yes then Leave(UnverifiedReturn(ReadBackTargetMismatch))
      else Go(Working(RegProject(false, DraftIdentity(call))))
    case RegProject(link, identity) =>
      Leave(ProjectReturn(link, identity, o.hook))
    case _ =>
      var raw := ReadMarker(s, o.fail);
      if raw.None? || !Believes(raw.value) then Leave(Occupied(OccupiedReason(raw)))
      else Go(Working(RegProject(true, Classify(raw.value).identity)))
  }

  /** One of the comparisons of the marker with the bytes bound in the confirmation. */
  function CompareMove(s: State, task: Task, o: Oracle, next: Inside): Move {
    var raw := ReadMarker(s, o.fail);
    if raw.None? || !task.Unregister? then Leave(Changed(ReadBackFailed))
    else if raw.value != task.bound then Leave(Changed(MismatchReason(task.bound, raw.value)))
    else Go(Working(next))
  }

  /** The comparison of the conditional delete, which gives no reason for its refusal. */
  function LastCompareMove(s: State, task: Task, o: Oracle): Move {
    var raw := ReadMarker(s, o.fail);
    if raw.None? || !task.Unregister? || raw.value != task.bound then Leave(Changed(MarkerChanged))
    else Go(Working(UnrUnlink))
  }

  const ABSENCE_RETRY_ATTEMPTS := 3

  function UnregisterMove(s: State, task: Task, inside: Inside, o: Oracle): Move {
    match inside
    case UnrConfirm =>
      if o.fail then Leave(Changed(CaptureFailed))
      else if !o.yes then Leave(Changed(TargetChanged))
      else Go(Working(UnrPostRead))
    case UnrPostRead => CompareMove(s, task, o, UnrPreRead)
    case UnrPreRead => CompareMove(s, task, o, UnrLastRead)
    case UnrLastRead => LastCompareMove(s, task, o)
    case UnrUnlink =>
      if o.fail || s.marker.None? then Leave(Changed(MarkerChanged))
      else Move(Working(UnrVerify(ABSENCE_RETRY_ATTEMPTS)), MarkerGone)
    case UnrVerify(tries) =>
      if tries == 0 then Leave(Changed(AbsenceReadBackFailed))
      else if s.marker.None? && !o.fail then Leave(Returned(Result(Unregistered, NoReason, false, true, None)))
      else Go(Working(UnrVerify(tries - 1)))
    case _ => Go(Working(inside))
  }

  function ResolveMove(s: State, inside: Inside, o: Oracle): Move {
    match inside
    case ResUnlink =>
      if s.marker.None? then Go(Working(ResVerify))
      else if o.fail then Leave(Stop(DeleteFailed))
      else Move(Working(ResVerify), MarkerGone)
    case _ =>
      if s.marker.None? && !o.fail then Leave(ResolvedReturn())
      else Leave(Returned(Result(InvalidDeletedUnverified, AbsenceReadBackFailed, false, true, None)))
  }

  predicate IsRegisterStep(i: Inside) {
    i.RegConfirm? || i.RegCreate? || i.RegWrite? || i.RegSync? || i.RegReadBack? || i.RegRecapture? ||
    i.RegProject? || i.RegCollide?
  }

  predicate IsResolveStep(i: Inside) {
    i.ResUnlink? || i.ResVerify?
  }

  function WorkMove(s: State, p: Pid, call: Call, inside: Inside, o: Oracle): Move {
    if IsRegisterStep(inside) then RegisterMove(s, p, call, inside, o)
    else if IsResolveStep(inside) then ResolveMove(s, inside, o)
    else UnregisterMove(s, call.task, inside, o)
  }

  /** `release_lock`: read the metadata, and unlink the lock only if it is this call's own. */
  function ReleaseMove(s: State, p: Pid, pc: Pc, o: Oracle): Move
    requires pc.ReleaseRead? || pc.ReleaseUnlink?
  {
    if pc.ReleaseUnlink? then Move(Done(pc.ret), if o.fail then Quiet else LockRemoved)
    else if s.lock == Held(p) && !o.fail then Go(ReleaseUnlink(pc.ret))
    else Finish(pc.ret)
  }

  /** One filesystem call of a call in progress. */
  function Decide(s: State, p: Pid, call: Call, pc: Pc, o: Oracle): Move {
    match pc
    case Start => StartMove(s, call)
    case Preparing(before) => PrepareMove(s, call, before, o)
    case Acquiring(acquire) => AcquireMove(s, call.task, acquire, o)
    case Working(inside) => WorkMove(s, p, call, inside, o)
    case ReleaseRead(_) => ReleaseMove(s, p, pc, o)
    case ReleaseUnlink(_) => ReleaseMove(s, p, pc, o)
    case Done(_) => Go(pc)
  }

  function MoveOf(s: State, p: Pid, o: Oracle): Move
    requires p in s.procs
  {
    Decide(s, p, s.procs[p].call, s.procs[p].pc, o)
  }

  // ---------------------------------------------------------------- runs

  datatype Step = Begin(call: Call) | Take(oracle: Oracle) | Die

  datatype Action = Action(pid: Pid, step: Step)

  /** A call begins, takes a step, or its process dies. What is not possible changes nothing. */
  function Next(s: State, a: Action): State {
    match a.step
    case Begin(call) =>
      if a.pid in s.procs || !WellFormed(call) then s
      else s.(procs := s.procs[a.pid := Proc(call, Start, true, false, false, false, false)])
    case Take(o) =>
      if a.pid in s.procs && s.procs[a.pid].alive then Apply(s, a.pid, MoveOf(s, a.pid, o)) else s
    case Die =>
      if a.pid in s.procs then s.(procs := s.procs[a.pid := s.procs[a.pid].(alive := false)]) else s
  }

  function Run(s: State, actions: seq<Action>): State
    decreases |actions|
  {
    if actions == [] then s else Next(Run(s, actions[..|actions| - 1]), actions[|actions| - 1])
  }

  lemma {:induction false} RunConcat(s: State, a: seq<Action>, b: seq<Action>)
    ensures Run(s, a + b) == Run(Run(s, a), b)
    decreases |b|
  {
    if b == [] {
      assert a + b == a;
    } else {
      var k := |b| - 1;
      assert (a + b)[..|a + b| - 1] == a + b[..k];
      RunConcat(s, a, b[..k]);
    }
  }

  /** Nobody's process dies. */
  predicate DeathFree(actions: seq<Action>) {
    forall k :: 0 <= k < |actions| ==> !actions[k].step.Die?
  }

  /** No marker, no lock, nobody at work. */
  function Initial(parent: bool): State {
    State(parent, NoLock, None, map[], {}, map[], [])
  }
}
