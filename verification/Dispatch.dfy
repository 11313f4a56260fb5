/** Dispatch as a step system: any number of dispatch calls, replays of one draft included, one step
    for each filesystem call, agent spawn and binding. The record is written first, create-only;
    nothing else keeps a replay from spawning again, for a confirmation is made afresh each time. */
module Dispatch {
  import opened Text

  type Pid = nat
  type JobId = Text

  const MAX_RECORD_BYTES := 262144

  /** One call: the job id of its draft, whether the confirmation text matches (or, without
      confirmation, whether the draft is accepted), the bytes of its record, which carry the time
      of the call, and whether those bytes are a valid record of this job. */
  datatype Request = Request(job: JobId, confirmed: bool, accepted: bool, bytes: Bytes, valid: bool)

  datatype Outcome = Dispatched | PartialSuccess | Cancelled | StoppedByDraft | StoppedByRecord(RecordStatus) | InvalidWorkspace | Raised

  datatype RecordStatus = Collision | WriteFailed | WrittenUnverified

  datatype Pc =
    | Confirming | Resolving | Drafting
    | Making | Creating | Writing | Syncing | ReadingBack
    | Spawning | Binding
    | Finished(outcome: Outcome)

  datatype Proc = Proc(request: Request, pc: Pc, alive: bool)

  /** A record file, with the call that created it. */
  datatype File = File(owner: Pid, content: Bytes)

  datatype Spawn = Spawn(job: JobId, pid: Pid)

  /** `spawns` is the history of spawn attempts, `bindings` the calls that bound a job. */
  datatype State = State(files: map<JobId, File>, spawns: seq<Spawn>, bindings: map<JobId, Pid>, procs: map<Pid, Proc>)

  /** What the environment answers: whether the call fails, yes or no, and how much a write takes. */
  datatype Oracle = Oracle(fail: bool, yes: bool, count: nat)

  datatype Effect = Quiet | Created | Grown(more: Bytes) | Spawned | Bound

  datatype Move = Move(pc: Pc, effect: Effect)

  function Stop(status: RecordStatus): Move {
    Move(Finished(StoppedByRecord(status)), Quiet)
  }

  /** One `os.write` of what is left of the record. */
  function WriteMove(have: Bytes, bytes: Bytes, count: nat): Move {
    if |have| >= |bytes| then Move(Syncing, Quiet)
    else if count == 0 then Stop(WriteFailed)
    else if |have| + count < |bytes| then Move(Writing, Grown(bytes[|have|..|have| + count]))
    else Move(Syncing, Grown(bytes[|have|..]))
  }

  function ContentOf(files: map<JobId, File>, job: JobId): Bytes {
    if job in files then files[job].content else []
  }

  function Decide(s: State, r: Request, pc: Pc, o: Oracle): Move {
    match pc
    case Confirming => Move(if r.confirmed && !r.accepted then Finished(Cancelled) else Resolving, Quiet)
    case Resolving => Move(if o.fail || !o.yes then Finished(InvalidWorkspace) else Drafting, Quiet)
    case Drafting => Move(if !r.confirmed && !r.accepted then Finished(StoppedByDraft) else Making, Quiet)
    case Making => Move(if o.fail then Finished(Raised) else Creating, Quiet)
    case Creating =>
      if |r.bytes| > MAX_RECORD_BYTES || (o.fail && r.job !in s.files) then Stop(WriteFailed)
      else if r.job in s.files then Stop(Collision)
      else Move(Writing, Created)
    case Writing =>
      if o.fail then Move(Finished(Raised), Quiet) else WriteMove(ContentOf(s.files, r.job), r.bytes, o.count)
    case Syncing => Move(if o.fail then Finished(Raised) else ReadingBack, Quiet)
    case ReadingBack =>
      if o.fail || r.job !in s.files || s.files[r.job].content != r.bytes || !r.valid then Stop(WrittenUnverified)
      else Move(Spawning, Quiet)
    case Spawning => Move(if o.yes then Binding else Finished(PartialSuccess), Spawned)
    case Binding => Move(Finished(Dispatched), if o.fail then Quiet else Bound)
    case Finished(_) => Move(pc, Quiet)
  }

  function FilesAfter(files: map<JobId, File>, p: Pid, job: JobId, e: Effect): map<JobId, File> {
    match e
    case Created => files[job := File(p, [])]
    case Grown(more) => if job in files then files[job := files[job].(content := files[job].content + more)] else files
    case _ => files
  }

  function Apply(s: State, p: Pid, m: Move): State
    requires p in s.procs
  {
    var job := s.procs[p].request.job;
    State(FilesAfter(s.files, p, job, m.effect),
          if m.effect.Spawned? then s.spawns + [Spawn(job, p)] else s.spawns,
          if m.effect.Bound? then s.bindings[job := p] else s.bindings,
          s.procs[p := s.procs[p].(pc := m.pc)])
  }

  datatype Step = Begin(request: Request) | Take(oracle: Oracle) | Die

  datatype Action = Action(pid: Pid, step: Step)

  function Next(s: State, a: Action): State {
    match a.step
    case Begin(request) =>
      if a.pid in s.procs then s else s.(procs := s.procs[a.pid := Proc(request, Confirming, true)])
    case Take(o) =>
      if a.pid in s.procs && s.procs[a.pid].alive then
        Apply(s, a.pid, Decide(s, s.procs[a.pid].request, s.procs[a.pid].pc, o))
      else s
    case Die =>
      if a.pid in s.procs then s.(procs := s.procs[a.pid := s.procs[a.pid].(alive := false)]) else s
  }

  function Run(s: State, actions: seq<Action>): State
    decreases |actions|
  {
    if actions == [] then s else Next(Run(s, actions[..|actions| - 1]), actions[|actions| - 1])
  }

  const INITIAL := State(map[], [], map[], map[])

  // ---------------------------------------------------------------- what every run keeps

  /** A call that has created its record. */
  predicate HasCreated(pc: Pc) {
    pc.Writing? || pc.Syncing? || pc.ReadingBack? || pc.Spawning? || pc.Binding?
  }

  predicate HasSpawned(pc: Pc) {
    pc.Binding? || (pc.Finished? && (pc.outcome.Dispatched? || pc.outcome.PartialSuccess?))
  }

  /** A call that is about to spawn or has done so. */
  predicate IsVerified(pc: Pc) {
    pc.Spawning? || HasSpawned(pc)
  }

  /** The record of this call is complete at its path. */
  predicate RecordStands(s: State, p: Pid)
    requires p in s.procs
  {
    var r := s.procs[p].request;
    r.job in s.files && s.files[r.job] == File(p, r.bytes) && r.valid
  }

  predicate FileFits(s: State, job: JobId)
    requires job in s.files
  {
    var f := s.files[job];
    f.owner in s.procs && s.procs[f.owner].request.job == job && f.content <= s.procs[f.owner].request.bytes
  }

  predicate SpawnFits(s: State, x: Spawn) {
    && x.pid in s.procs && s.procs[x.pid].request.job == x.job
    && HasSpawned(s.procs[x.pid].pc) && RecordStands(s, x.pid)
  }

  predicate ProcFits(s: State, p: Pid)
    requires p in s.procs
  {
    var pc, r := s.procs[p].pc, s.procs[p].request;
    && (HasCreated(pc) ==> r.job in s.files && s.files[r.job].owner == p)
    && (pc.Syncing? || pc.ReadingBack? ==> r.job in s.files && s.files[r.job].content == r.bytes)
    && (IsVerified(pc) ==> RecordStands(s, p))
    && (HasSpawned(pc) ==> Spawn(r.job, p) in s.spawns)
    && (r.job in s.files && s.files[r.job].owner == p ==>
          HasCreated(pc) || pc.Finished?)
  }

  ghost predicate Sound(s: State) {
    && (forall job :: job in s.files ==> FileFits(s, job))
    && (forall p :: p in s.procs ==> ProcFits(s, p))
    && (forall i :: 0 <= i < |s.spawns| ==> SpawnFits(s, s.spawns[i]))
    && (forall i, j :: 0 <= i < j < |s.spawns| ==> s.spawns[i].job != s.spawns[j].job)
    && (forall job :: job in s.bindings ==> Spawn(job, s.bindings[job]) in s.spawns)
  }

  /** No record is ever replaced: each keeps its creator and only grows, and one that stands stays. */
  ghost predicate NoneReplaced(s: State, t: State) {
    && (forall job :: job in s.files ==>
          job in t.files && t.files[job].owner == s.files[job].owner && s.files[job].content <= t.files[job].content)
    && (forall p :: p in s.procs ==> p in t.procs && t.procs[p].request == s.procs[p].request)
    && (forall p :: p in s.procs && RecordStands(s, p) ==> RecordStands(t, p))
  }
}
