/** One call at a time: the calls as the caller sees them, and what an undisturbed one achieves.
    A register call completes its write whatever the short writes, an unregister call undoes it,
    and both leave the lock free. */
module ProtocolAlone {
  import opened Text
  import opened RawGuard
  import opened Marker
  import opened Protocol
  import opened ProtocolLock
  import opened ProtocolPlaces
  import opened ProtocolMarker
  import opened ProtocolVerdicts
  import MarkerLaws

  function CallActions(p: Pid, call: Call, oracles: seq<Oracle>): (actions: seq<Action>)
    ensures |actions| == 1 + |oracles|
  {
    [Action(p, Begin(call))] + seq(|oracles|, i requires 0 <= i < |oracles| => Action(p, Take(oracles[i])))
  }

  /** The shared filesystem and the calls made on it. */
  class Workspace {
    var state: State

    constructor (parent: bool)
      ensures state == Initial(parent)
    {
      state := Initial(parent);
    }

    /** Make a call and take its steps, as many as the environment has answers for. */
    method Perform(p: Pid, call: Call, oracles: seq<Oracle>) returns (taken: nat)
      requires p !in state.procs && WellFormed(call)
      modifies this
      ensures taken <= |oracles|
      ensures state == Run(old(state), CallActions(p, call, oracles[..taken]))
      ensures p in state.procs && (taken == |oracles| || state.procs[p].pc.Done?)
    {
      hide MoveOf, Apply;
      ghost var before := state;
      state := Next(state, Action(p, Begin(call)));
      taken := 0;
      while taken < |oracles| && !state.procs[p].pc.Done?
        invariant taken <= |oracles| && p in state.procs && state.procs[p].alive
        invariant state == Run(before, CallActions(p, call, oracles[..taken]))
      {
        var a := Action(p, Take(oracles[taken]));
        ghost var so := CallActions(p, call, oracles[..taken]);
        assert CallActions(p, call, oracles[..taken + 1]) == so + [a];
        assert (so + [a])[..|so|] == so;
        TakeKeepsCall(state, a);
        state := Next(state, a);
        taken := taken + 1;
      }
    }
  }

  lemma TakeKeepsCall(s: State, a: Action)
    requires a.step.Take? && Live(s, a.pid)
    ensures Live(Next(s, a), a.pid) && Next(s, a).procs[a.pid].call == s.procs[a.pid].call
  {
    hide MoveOf;
  }

  // ---------------------------------------------------------------- a register call on its own

  /** Nothing fails, every capture agrees, every write takes something. */
  predicate Kind(o: Oracle) {
    !o.fail && o.yes && o.count > 0
  }

  /** How many steps an undisturbed register call still has to take at most. */
  function StepsLeft(pc: Pc, unwritten: nat): nat {
    match pc
    case Start => unwritten + 30
    case Preparing(RegCapture) => unwritten + 29
    case Preparing(RegStat) => unwritten + 28
    case Preparing(RegParent) => unwritten + 27
    case Acquiring(a) => unwritten + 11 + StepsToLock(a)
    case Working(RegConfirm) => unwritten + 12
    case Working(RegCreate) => unwritten + 11
    case Working(RegWrite) => unwritten + 10
    case Working(RegSync) => 9
    case Working(RegReadBack) => 8
    case Working(RegRecapture) => 7
    case Working(RegProject(_, _)) => 6
    case ReleaseRead(_) => 5
    case ReleaseUnlink(_) => 4
    case _ => 0
  }

  /** The lock can be had: nobody has it, or a dead owner left it complete. */
  predicate IsFree(s: State) {
    s.lock.NoLock? || (s.lock.Held? && Dead(s, s.lock.owner))
  }

  /** How far an undisturbed call is from the block. */
  function StepsToLock(a: Acquire): (n: nat)
    ensures 2 <= n <= 15
  {
    match a
    case Mkdir => 15
    case CreateLock => 14
    case ReadLock => 13
    case CheckStale(_) => 12
    case CreateTemp(_) => 11
    case WriteTemp(_) => 10
    case SyncTemp(_) => 9
    case ReplaceLock(_) => 8
    case WriteLock => 3
    case SyncLock => 2
  }

  /** What the lock file is to an undisturbed call on its way into the block. */
  predicate AtLock(s: State, p: Pid, a: Acquire) {
    match a
    case Mkdir => IsFree(s)
    case CreateLock => IsFree(s)
    case WriteLock => s.lock == Torn(p)
    case SyncLock => s.lock == Held(p)
    case ReadLock => s.lock.Held? && Dead(s, s.lock.owner)
    case CheckStale(q) => s.lock == Held(q) && Dead(s, q)
    case CreateTemp(q) => s.lock == Held(q) && Dead(s, q)
    case WriteTemp(q) => s.lock == Held(q) && Dead(s, q)
    case SyncTemp(q) => s.lock == Held(q) && Dead(s, q)
    case ReplaceLock(q) => s.lock == Held(q) && Dead(s, q)
  }

  /** The way into the block: by a lock file of its own, or by replacing a dead owner's. */
  function LockScript(lock: Lock, task: Task, a: Acquire): Move {
    match a
    case Mkdir => Move(Acquiring(CreateLock), ParentMade)
    case CreateLock => if lock.NoLock? then Move(Acquiring(WriteLock), LockCreated) else Go(Acquiring(ReadLock))
    case WriteLock => Move(Acquiring(SyncLock), LockCompleted)
    case SyncLock => Go(EnterPc(task))
    case ReadLock => if lock.Held? then Go(Acquiring(CheckStale(lock.owner))) else Go(Acquiring(a))
    case CheckStale(q) => Go(Acquiring(CreateTemp(q)))
    case CreateTemp(q) => Go(Acquiring(WriteTemp(q)))
    case WriteTemp(q) => Go(Acquiring(SyncTemp(q)))
    case SyncTemp(q) => Go(Acquiring(ReplaceLock(q)))
    case ReplaceLock(q) => Move(EnterPc(task), LockReplaced)
  }

  lemma FollowsLockScript(s: State, p: Pid, task: Task, a: Acquire, o: Oracle)
    requires Kind(o) && AtLock(s, p, a) && !task.RecoverLock?
    ensures AcquireMove(s, task, a, o) == LockScript(s.lock, task, a)
  {
  }

  /** One step nearer to the block, or in it with the lock held. */
  lemma NearerToLock(s: State, p: Pid, a: Acquire, m: Move)
    requires p in s.procs && s.procs[p].alive && AtLock(s, p, a) && !s.procs[p].call.task.RecoverLock?
    requires m == LockScript(s.lock, s.procs[p].call.task, a)
    ensures var t := Apply(s, p, m);
      if m.pc.Acquiring? then AtLock(t, p, m.pc.acquire) && StepsToLock(m.pc.acquire) < StepsToLock(a)
      else m.pc == EnterPc(s.procs[p].call.task) && t.lock == Held(p)
    ensures !m.effect.MarkerMade? && !m.effect.MarkerGone? && !m.effect.MarkerGrown?
    ensures !a.Mkdir? ==> !m.effect.ParentMade? && (m.pc.Acquiring? ==> !m.pc.acquire.Mkdir?)
    ensures a.Mkdir? ==> m.effect.ParentMade? && m.pc == Acquiring(CreateLock)
  {
    hide ProcAfter;
    var t := Apply(s, p, m);
    assert forall q :: Dead(s, q) && q != p ==> Dead(t, q);
  }

  /** Where an undisturbed register call can be, and what the workspace looks like then. */
  predicate RegisterOnTrack(s: State, p: Pid) {
    && p in s.procs && s.procs[p].alive && s.procs[p].call.task.Register? && MayAct(s.procs[p].call)
    && Stage(s, p, s.procs[p].call, s.procs[p].pc)
  }

  predicate Stage(s: State, p: Pid, call: Call, pc: Pc)
    requires call.task.Register? && MayAct(call)
  {
    match pc
    case Start => RegisterReady(s, call)
    case Preparing(b) => RegisterReady(s, call) && IsRegisterBefore(b)
    case Acquiring(a) =>
      s.marker.None? && AtLock(s, p, a) && (s.parent || a.Mkdir?)
    case Working(i) => s.lock == Held(p) && s.parent && StageInside(s, p, call, i)
    case ReleaseRead(ret) => RegisterReturns(s, p, call, ret) && s.lock == Held(p)
    case ReleaseUnlink(ret) => RegisterReturns(s, p, call, ret) && s.lock == Held(p)
    case Done(ret) => RegisterReturns(s, p, call, ret) && s.lock == NoLock
  }

  predicate StageInside(s: State, p: Pid, call: Call, i: Inside) {
    if i.RegConfirm? || i.RegCreate? then s.marker.None?
    else
      && s.marker == Some(p) && IsRegisterStep(i) && !i.RegCollide?
      && (i.RegWrite? ==> p in s.files)
      && (i.RegProject? ==> !i.link && i.identity == DraftIdentity(call))
  }

  predicate RegisterReady(s: State, call: Call)
    requires call.task.Register? && MayAct(call)
  {
    && call.confirmation.value !in s.consumed && s.parent != call.task.parentAbsent
    && s.marker.None? && IsFree(s)
  }

  /** The marker is there and the result is what the projection made of it. */
  predicate RegisterReturns(s: State, p: Pid, call: Call, ret: Return) {
    s.marker == Some(p) && exists hook :: ret == ProjectReturn(false, DraftIdentity(call), hook)
  }

  function Unwritten(s: State, p: Pid, call: Call, pc: Pc): nat {
    var all := |DraftBytes(call)|;
    if pc == Working(RegWrite) && p in s.files then
      if |s.files[p]| < all then all - |s.files[p]| else 0
    else all
  }

  function Left(s: State, p: Pid): nat
    requires p in s.procs
  {
    StepsLeft(s.procs[p].pc, Unwritten(s, p, s.procs[p].call, s.procs[p].pc))
  }

  /** After the move the call is still on track and closer to the end. */
  predicate Advances(s: State, p: Pid, m: Move)
    requires p in s.procs
  {
    var t := Apply(s, p, m);
    RegisterOnTrack(t, p) && Left(t, p) < Left(s, p)
  }

  /** The script of an undisturbed register call, apart from its writes. */
  function Script(lock: Lock, call: Call, pc: Pc, hook: Hook): Move {
    match pc
    case Start => Go(Preparing(RegCapture))
    case Preparing(RegCapture) => Go(Preparing(RegStat))
    case Preparing(RegStat) => Go(Preparing(RegParent))
    case Preparing(_) => Move(Acquiring(Mkdir), ConfirmationConsumed)
    case Acquiring(a) => LockScript(lock, call.task, a)
    case Working(RegConfirm) => Go(Working(RegCreate))
    case Working(RegCreate) => Move(Working(RegWrite), MarkerMade)
    case Working(RegSync) => Move(Working(RegReadBack), WriteCompleted)
    case Working(RegReadBack) => Go(Working(RegRecapture))
    case Working(RegRecapture) => Go(Working(RegProject(false, DraftIdentity(call))))
    case Working(RegProject(link, identity)) => Leave(ProjectReturn(link, identity, hook))
    case ReleaseRead(ret) => Go(ReleaseUnlink(ret))
    case ReleaseUnlink(ret) => Move(Done(ret), LockRemoved)
    case _ => Go(pc)
  }

  lemma PreparingFollowsScript(s: State, p: Pid, o: Oracle)
    requires RegisterOnTrack(s, p) && Kind(o) && (s.procs[p].pc.Start? || s.procs[p].pc.Preparing?)
    ensures MoveOf(s, p, o) == Script(s.lock, s.procs[p].call, s.procs[p].pc, o.hook)
  {
    hide WorkMove, AcquireMove, ReleaseMove, ReadMarker, Believes;
  }

  lemma AcquiringFollowsScript(s: State, p: Pid, o: Oracle)
    requires RegisterOnTrack(s, p) && Kind(o) && s.procs[p].pc.Acquiring?
    ensures MoveOf(s, p, o) == Script(s.lock, s.procs[p].call, s.procs[p].pc, o.hook)
  {
    hide WorkMove, StartMove, PrepareMove, ReleaseMove, AcquireMove, LockScript, AtLock;
    FollowsLockScript(s, p, s.procs[p].call.task, s.procs[p].pc.acquire, o);
  }

  lemma ReleasingFollowsScript(s: State, p: Pid, o: Oracle)
    requires RegisterOnTrack(s, p) && Kind(o) && (s.procs[p].pc.ReleaseRead? || s.procs[p].pc.ReleaseUnlink?)
    ensures MoveOf(s, p, o) == Script(s.lock, s.procs[p].call, s.procs[p].pc, o.hook)
  {
    hide WorkMove, StartMove, PrepareMove, AcquireMove, RegisterReturns;
  }

  lemma WorkFollowsScript(s: State, p: Pid, o: Oracle)
    requires LocalAt(s, p)
    requires RegisterOnTrack(s, p) && Kind(o) && s.procs[p].pc.Working? && !s.procs[p].pc.inside.RegWrite?
    ensures MoveOf(s, p, o) == Script(s.lock, s.procs[p].call, s.procs[p].pc, o.hook)
  {
    hide LocalAt, RegisterOnTrack, WorkMove, DraftBytes, ReadBackVerified, ReadBackReason, OccupiedReason;
    hide MismatchReason, ReadMarker, WellFormed;
    hide StartMove, PrepareMove, AcquireMove, ReleaseMove, Script, StageInside, Kind;
    InsideIsStaged(s, p);
    var call, i := s.procs[p].call, s.procs[p].pc.inside;
    LocalDraft(s, p);
    if i.RegReadBack? {
      ReadsOwnMarker(s, p);
    }
    InsideFollowsScript(s, p, call, i, o);
  }

  lemma InsideIsStaged(s: State, p: Pid)
    requires RegisterOnTrack(s, p) && s.procs[p].pc.Working?
    ensures p in s.procs
    ensures StageInside(s, p, s.procs[p].call, s.procs[p].pc.inside) && s.parent && s.procs[p].call.task.Register?
    ensures s.procs[p].pc.inside.RegReadBack? ==> s.marker == Some(p)
  {
  }

  /** What a call on track knows about its draft. */
  lemma LocalDraft(s: State, p: Pid)
    requires LocalAt(s, p) && s.procs[p].call.task.Register?
    ensures WellFormed(s.procs[p].call) && |DraftBytes(s.procs[p].call)| <= MAX_READ_BYTES
    ensures s.procs[p].pc == Working(RegReadBack) ==> s.procs[p].completed
    ensures ReadBackVerified(s.procs[p].call, DraftBytes(s.procs[p].call))
  {
    hide Truthful, Fits, WellFormed, DraftBytes, ReadBackVerified, ReadBackReason, OccupiedReason, MismatchReason;
    DraftIsVerified(s.procs[p].call);
  }

  lemma DraftIsVerified(call: Call)
    requires call.task.Register? && WellFormed(call)
    ensures |DraftBytes(call)| <= MAX_READ_BYTES && ReadBackVerified(call, DraftBytes(call))
  {
    MarkerLaws.WriteReadBackInverse(call.task.draft);
    hide Accepted, MarkerBytes, CheckReadBack;
  }

  lemma InsideFollowsScript(s: State, p: Pid, call: Call, i: Inside, o: Oracle)
    requires call.task.Register? && Kind(o) && s.parent && StageInside(s, p, call, i) && !i.RegWrite?
    requires |DraftBytes(call)| <= MAX_READ_BYTES && ReadBackVerified(call, DraftBytes(call))
    requires i.RegReadBack? ==> ReadMarker(s, false) == Some(DraftBytes(call))
    ensures WorkMove(s, p, call, i, o) == Script(s.lock, call, Working(i), o.hook)
  {
    hide DraftBytes, ReadBackVerified, ReadBackReason, OccupiedReason, MismatchReason, ReadMarker, Believes;
    hide ProjectReturn, DraftIdentity, WriteMove;
  }

  lemma ReadsOwnMarker(s: State, p: Pid)
    requires LocalAt(s, p) && s.procs[p].completed && s.marker == Some(p)
    ensures ReadMarker(s, false) == Some(DraftBytes(s.procs[p].call))
  {
    hide Accepted, MarkerBytes, Truthful, Fits, DraftBytes, WellFormed;
    DraftIsVerified(s.procs[p].call);
  }

  /** Where the script leads. */
  lemma ScriptAdvances(s: State, p: Pid, m: Move, hook: Hook)
    requires RegisterOnTrack(s, p) && !s.procs[p].pc.Done? && s.procs[p].pc != Working(RegWrite)
    requires m == Script(s.lock, s.procs[p].call, s.procs[p].pc, hook)
    ensures Advances(s, p, m)
  {
    hide DraftBytes, ProjectReturn, DraftIdentity;
    var t := Apply(s, p, m);
    var call, pc := s.procs[p].call, s.procs[p].pc;
    assert t.procs[p].pc == m.pc && t.procs[p].call == call && t.procs[p].alive;
    if pc.Working? {
      InsideAdvances(s, p, call, pc.inside, m, hook, t);
    } else {
      OutsideAdvances(s, p, call, pc, m, hook, t);
    }
    hide Apply, Script, StepsLeft;
  }

  predicate Closer(s: State, t: State, p: Pid, call: Call, pc: Pc, pc': Pc) {
    && call.task.Register? && MayAct(call) && Stage(t, p, call, pc')
    && StepsLeft(pc', Unwritten(t, p, call, pc')) < StepsLeft(pc, Unwritten(s, p, call, pc))
  }

  lemma InsideAdvances(s: State, p: Pid, call: Call, i: Inside, m: Move, hook: Hook, t: State)
    requires call.task.Register? && MayAct(call) && Stage(s, p, call, Working(i)) && !i.RegWrite?
    requires m == Script(s.lock, call, Working(i), hook) && p in s.procs && t == Apply(s, p, m)
    ensures Closer(s, t, p, call, Working(i), m.pc)
  {
    hide DraftBytes, ProjectReturn, DraftIdentity, ConsumedAfter, LogAfter, ProcAfter, MayAct;
  }

  lemma OutsideAdvances(s: State, p: Pid, call: Call, pc: Pc, m: Move, hook: Hook, t: State)
    requires call.task.Register? && MayAct(call) && Stage(s, p, call, pc) && !pc.Working? && !pc.Done?
    requires m == Script(s.lock, call, pc, hook) && p in s.procs && s.procs[p].call == call && s.procs[p].alive
    requires t == Apply(s, p, m)
    ensures Closer(s, t, p, call, pc, m.pc)
  {
    hide DraftBytes, ProjectReturn, DraftIdentity, LogAfter, ProcAfter, AtLock, StepsToLock;
    if pc.Acquiring? {
      hide LockScript;
      NearerToLock(s, p, pc.acquire, m);
    } else if m.pc.Acquiring? {
      MkdirIsFirst(s, p, m);
      hide IsFree;
    } else {
      hide LockScript;
      if m.effect.Quiet? && IsFree(s) {
        StaysFree(s, p, m);
      }
    }
  }

  lemma StaysFree(s: State, p: Pid, m: Move)
    requires p in s.procs && s.procs[p].alive && (m.effect.Quiet? || m.effect.ConfirmationConsumed?) && IsFree(s)
    ensures IsFree(Apply(s, p, m))
  {
  }

  lemma MkdirIsFirst(s: State, p: Pid, m: Move)
    requires p in s.procs && s.procs[p].alive && IsFree(s) && m == Consume()
    ensures AtLock(Apply(s, p, m), p, Mkdir) && StepsToLock(Mkdir) == 15
  {
    StaysFree(s, p, m);
  }

  lemma WriteAdvances(s: State, p: Pid, m: Move, count: nat)
    requires RegisterOnTrack(s, p) && count > 0 && s.procs[p].pc == Working(RegWrite)
    requires m == WriteMove(s.files[p], DraftBytes(s.procs[p].call), count)
    ensures Advances(s, p, m)
  {
    hide DraftBytes, LogAfter, ConsumedAfter, ProjectReturn, MayAct;
  }

  /** An undisturbed register call stays on track and gets closer to the end. */
  lemma RegisterAdvances(s: State, p: Pid, o: Oracle)
    requires LocalAt(s, p) && RegisterOnTrack(s, p) && Kind(o) && !s.procs[p].pc.Done?
    ensures Advances(s, p, MoveOf(s, p, o))
  {
    var m := MoveOf(s, p, o);
    if s.procs[p].pc == Working(RegWrite) {
      assert m == WriteMove(s.files[p], DraftBytes(s.procs[p].call), o.count);
      WriteAdvances(s, p, m, o.count);
    } else {
      hide MoveOf, Advances, Stage;
      if s.procs[p].pc.Working? {
        WorkFollowsScript(s, p, o);
      } else if s.procs[p].pc.Start? || s.procs[p].pc.Preparing? {
        PreparingFollowsScript(s, p, o);
      } else if s.procs[p].pc.Acquiring? {
        AcquiringFollowsScript(s, p, o);
      } else {
        ReleasingFollowsScript(s, p, o);
      }
      ScriptAdvances(s, p, m, o.hook);
    }
  }

  predicate AllKind(oracles: seq<Oracle>) {
    forall i :: 0 <= i < |oracles| ==> Kind(oracles[i])
  }

  lemma CallActionsSplit(p: Pid, call: Call, oracles: seq<Oracle>)
    requires oracles != []
    ensures var k := |oracles| - 1; var actions := CallActions(p, call, oracles);
      actions[..|actions| - 1] == CallActions(p, call, oracles[..k])
      && actions[|actions| - 1] == Action(p, Take(oracles[k]))
  {
  }

  lemma BeginsAt(s: State, p: Pid, call: Call)
    requires p !in s.procs && WellFormed(call)
    ensures Run(s, CallActions(p, call, []))
         == s.(procs := s.procs[p := Proc(call, Start, true, false, false, false, false)])
  {
    hide MoveOf, WellFormed;
    var actions := CallActions(p, call, []);
    assert actions[..0] == [];
    assert Run(s, []) == s;
  }

  lemma TakesStep(s: State, p: Pid, o: Oracle)
    requires AllLocal(s) && Live(s, p)
    ensures Next(s, Action(p, Take(o))) == Apply(s, p, MoveOf(s, p, o)) && AllLocal(Next(s, Action(p, Take(o))))
  {
    hide MoveOf, Apply, AllLocal;
    AllLocalStep(s, Action(p, Take(o)));
  }

  /** The marker path free, the lock to be had, and a confirmation that is good for the draft. */
  predicate CanRegister(s: State, p: Pid, call: Call) {
    && p !in s.procs && call.task.Register? && WellFormed(call) && !call.task.RecoverLock? && MayAct(call)
    && RegisterReady(s, call)
  }

  lemma RegisterBegins(s: State, p: Pid, call: Call)
    requires AllLocal(s) && CanRegister(s, p, call)
    ensures var t := Run(s, CallActions(p, call, []));
      && AllLocal(t) && RegisterOnTrack(t, p) && t.procs[p].call == call && t.procs[p].pc == Start
      && Left(t, p) == 30 + |DraftBytes(call)|
  {
    hide Local, MoveOf, WellFormed, DraftBytes, Run, CallActions;
    BeginsAt(s, p, call);
    AllLocalStep(s, Action(p, Begin(call)));
    hide AllLocal;
  }

  lemma {:induction false} RegisterStaysOnTrack(s: State, p: Pid, call: Call, oracles: seq<Oracle>)
    requires AllLocal(s) && CanRegister(s, p, call) && AllKind(oracles)
    ensures var t := Run(s, CallActions(p, call, oracles));
      && AllLocal(t) && RegisterOnTrack(t, p) && t.procs[p].call == call
      && (t.procs[p].pc.Done? || Left(t, p) + |oracles| <= 30 + |DraftBytes(call)|)
    decreases |oracles|
  {
    if oracles == [] {
      assert [] == oracles;
      RegisterBegins(s, p, call);
    } else {
      var k := |oracles| - 1;
      RegisterStaysOnTrack(s, p, call, oracles[..k]);
      CallActionsSplit(p, call, oracles);
      var t := Run(s, CallActions(p, call, oracles[..k]));
      TakesStep(t, p, oracles[k]);
      hide MoveOf, WellFormed, CanRegister, CallActions;
      assert LocalAt(t, p);
      hide AllLocal, Local;
      if t.procs[p].pc.Done? {
        DoneStays(t, p, oracles[k]);
      } else {
        hide Apply, Left, Stage;
        RegisterAdvances(t, p, oracles[k]);
        TakeKeepsCall(t, Action(p, Take(oracles[k])));
      }
    }
  }

  lemma DoneStays(s: State, p: Pid, o: Oracle)
    requires p in s.procs && s.procs[p].pc.Done?
    ensures Apply(s, p, MoveOf(s, p, o)) == s
  {
    assert MoveOf(s, p, o) == Go(s.procs[p].pc);
    hide MoveOf;
    assert s.procs[p := s.procs[p]] == s.procs;
  }

  /** On track, only the projection's answer ends the call. */
  lemma OnlyProjectionReturns(s: State, p: Pid, o: Oracle)
    requires LocalAt(s, p) && RegisterOnTrack(s, p) && Kind(o)
    requires ReturnOf(s.procs[p].pc) == None && ReturnOf(MoveOf(s, p, o).pc).Some?
    ensures s.procs[p].pc == Working(RegProject(false, s.procs[p].call.task.draft.identity))
  {
    hide MoveOf, LocalAt, ProjectReturn;
    OnTrackNotDone(s, p);
    if s.procs[p].pc == Working(RegWrite) {
      WritesDoNotReturn(s, p, o);
    } else if s.procs[p].pc.Working? {
      WorkFollowsScript(s, p, o);
    } else if s.procs[p].pc.Acquiring? {
      AcquiringFollowsScript(s, p, o);
      hide RegisterOnTrack;
    } else {
      PreparingFollowsScript(s, p, o);
      hide RegisterOnTrack;
    }
  }

  lemma OnTrackNotDone(s: State, p: Pid)
    requires RegisterOnTrack(s, p) && ReturnOf(s.procs[p].pc) == None
    ensures p in s.procs && (s.procs[p].pc.Start? || s.procs[p].pc.Preparing? || s.procs[p].pc.Acquiring? || s.procs[p].pc.Working?)
    ensures s.procs[p].call.task.Register?
  {
  }

  lemma WritesDoNotReturn(s: State, p: Pid, o: Oracle)
    requires RegisterOnTrack(s, p) && Kind(o) && s.procs[p].pc == Working(RegWrite)
    ensures ReturnOf(MoveOf(s, p, o).pc) == None
  {
    hide DraftBytes, StartMove, PrepareMove, AcquireMove, ReleaseMove;
  }

  /** What a register call that follows its own write returns for an answer of the projection. */
  predicate IsOutcome(ret: Return, identity: Text, hook: Hook) {
    match hook
    case HookLinked => ret == Returned(Result(Registered, NoReason, true, false, Some(identity)))
    case HookConflict => ret == Returned(Result(ConflictFound, ProjectionConflict, true, false, Some(identity)))
    case HookFailed => ret == Returned(Result(RegisteredUnlinked, ProjectionLinkFailed, true, false, Some(identity)))
    case NoHook => ret == Returned(Result(RegisteredUnlinked, ProjectionLinkFailed, true, false, Some(identity)))
  }

  /** The answer of the projection that an undisturbed call's result comes from. */
  lemma {:induction false} OutcomeOfHook(s: State, p: Pid, call: Call, oracles: seq<Oracle>) returns (i: nat)
    requires AllLocal(s) && CanRegister(s, p, call) && AllKind(oracles)
    requires var t := Run(s, CallActions(p, call, oracles)); p in t.procs && ReturnOf(t.procs[p].pc).Some?
    ensures i < |oracles|
    ensures var b := Run(s, CallActions(p, call, oracles[..i]));
      p in b.procs && b.procs[p].pc == Working(RegProject(false, call.task.draft.identity))
    ensures var t := Run(s, CallActions(p, call, oracles));
      IsOutcome(ReturnOf(t.procs[p].pc).value, call.task.draft.identity, oracles[i].hook)
    decreases |oracles|
  {
    hide AllLocal, RegisterOnTrack, WellFormed, Next, CallActions, IsOutcome, RegisterReady;
    if oracles == [] {
      assert [] == oracles;
      RegisterBegins(s, p, call);
      assert false;
    } else {
      var k := |oracles| - 1;
      var t := Run(s, CallActions(p, call, oracles[..k]));
      RegisterStaysOnTrack(s, p, call, oracles[..k]);
      CallActionsSplit(p, call, oracles);
      TrackIsLocal(t, p);
      var a := Action(p, Take(oracles[k]));
      NotEmpty(p, call, oracles);
      assert Run(s, CallActions(p, call, oracles)) == Next(t, a);
      if ReturnOf(t.procs[p].pc).Some? {
        i := OutcomeOfHook(s, p, call, oracles[..k]);
        assert oracles[..k][..i] == oracles[..i] && oracles[..k][i] == oracles[i];
        ReturnStep(t, a, p);
      } else {
        i := k;
        StepEnds(t, p, oracles[k], []);
        assert GoesOn(t, p, oracles[k], MoveOf(t, p, oracles[k]).pc);
        OnlyProjectionReturns(t, p, oracles[k]);
        ProjectionStep(t, p, oracles[k], []);
        LastAnswer(t, p, oracles[k]);
        OutcomeIs(ReturnOf(Next(t, a).procs[p].pc).value, call.task.draft.identity, oracles[k].hook);
      }
    }
  }

  lemma NotEmpty(p: Pid, call: Call, oracles: seq<Oracle>)
    ensures CallActions(p, call, oracles) != []
  {
  }

  lemma TrackIsLocal(t: State, p: Pid)
    requires AllLocal(t) && RegisterOnTrack(t, p)
    ensures LocalAt(t, p) && Live(t, p)
  {
  }

  lemma LastAnswer(s: State, p: Pid, o: Oracle)
    ensures Answer(s, p, o, []) ==
      if p in Next(s, Action(p, Take(o))).procs then ReturnOf(Next(s, Action(p, Take(o))).procs[p].pc) else None
  {
    hide Next;
  }

  lemma OutcomeIs(ret: Return, identity: Text, hook: Hook)
    requires ret == match hook
      case HookLinked => Returned(Result(Registered, NoReason, true, false, Some(identity)))
      case HookConflict => Returned(Result(ConflictFound, ProjectionConflict, true, false, Some(identity)))
      case HookFailed => Returned(Result(RegisteredUnlinked, ProjectionLinkFailed, true, false, Some(identity)))
      case NoHook => Returned(Result(RegisteredUnlinked, ProjectionLinkFailed, true, false, Some(identity)))
    ensures IsOutcome(ret, identity, hook)
  {
  }

  /** An undisturbed register call completes whatever the short writes: it returns, the marker holds
      the whole draft, the result carries the draft's identity, and the lock is free. */
  lemma RegisterAloneCompletes(s: State, p: Pid, call: Call, oracles: seq<Oracle>)
    requires AllLocal(s) && CanRegister(s, p, call) && AllKind(oracles)
    requires |oracles| > 30 + |DraftBytes(call)|
    ensures var t := Run(s, CallActions(p, call, oracles));
      && AllLocal(t) && t.lock == NoLock
      && t.marker == Some(p) && MarkerContent(t) == Some(MarkerBytes(call.task.draft))
      && p in t.procs && t.procs[p].pc.Done? && t.procs[p].pc.ret.Returned?
      && t.procs[p].pc.ret.result.markerWritten
      && t.procs[p].pc.ret.result.identity == Some(call.task.draft.identity)
      && exists i: nat :: IsAnswered(s, p, call, oracles, i)
           && IsOutcome(t.procs[p].pc.ret, call.task.draft.identity, oracles[i].hook)
  {
    RegisterStaysOnTrack(s, p, call, oracles);
    var t := Run(s, CallActions(p, call, oracles));
    hide MoveOf, AllLocal, LocalAt, Run, RegisterOnTrack, WellFormed, Accepted, IsOutcome, RegisterReady;
    TrackIsLocal(t, p);
    OnTrackThere(t, p);
    ReturnedRegister(t, p);
    var i := OutcomeOfHook(s, p, call, oracles);
    assert IsAnswered(s, p, call, oracles, i);
  }

  lemma OnTrackThere(t: State, p: Pid)
    requires RegisterOnTrack(t, p)
    ensures p in t.procs
  {
  }

  /** This answer of the environment is the one to the call's projection. */
  predicate IsAnswered(s: State, p: Pid, call: Call, oracles: seq<Oracle>, i: nat) {
    && i < |oracles|
    && var b := Run(s, CallActions(p, call, oracles[..i]));
       p in b.procs && b.procs[p].pc.Working? && b.procs[p].pc.inside.RegProject?
  }

  lemma ReturnedRegister(t: State, p: Pid)
    requires LocalAt(t, p) && RegisterOnTrack(t, p) && t.procs[p].pc.Done?
    ensures var call := t.procs[p].call;
      && t.lock == NoLock && t.marker == Some(p) && WellFormed(call)
      && MarkerContent(t) == Some(MarkerBytes(call.task.draft))
      && t.procs[p].pc.ret.Returned?
      && t.procs[p].pc.ret.result.markerWritten
      && t.procs[p].pc.ret.result.identity == Some(call.task.draft.identity)
  {
    hide Accepted, MarkerBytes, Fits;
  }
}
