/** Undisturbed unregister and resolve-invalid calls, and the round trip: unregister undoes register. */
module ProtocolUndo {
  import opened Text
  import opened Marker
  import opened Protocol
  import opened ProtocolPlaces
  import opened ProtocolMarker
  import opened ProtocolAlone
  import MarkerLaws

  const UNREGISTERED := Returned(Result(Unregistered, NoReason, false, true, None))

  /** What an undisturbed unregister or resolve-invalid call returns. */
  function DeletedReturn(task: Task): Return {
    if task.Resolve? then ResolvedReturn() else UNREGISTERED
  }

  /** The script of an undisturbed unregister or resolve-invalid call. */
  function DeleteScript(lock: Lock, task: Task, pc: Pc): Move {
    match pc
    case Start => Go(Preparing(if task.Resolve? then ResCapture else UnrCapture))
    case Preparing(UnrCapture) => Go(Preparing(UnrStat))
    case Preparing(UnrStat) => Go(Preparing(UnrRead))
    case Preparing(ResCapture) => Go(Preparing(ResStat))
    case Preparing(ResStat) => Go(Preparing(ResRead))
    case Preparing(_) => Move(Acquiring(Mkdir), ConfirmationConsumed)
    case Acquiring(a) => LockScript(lock, task, a)
    case Working(UnrConfirm) => Go(Working(UnrPostRead))
    case Working(UnrPostRead) => Go(Working(UnrPreRead))
    case Working(UnrPreRead) => Go(Working(UnrLastRead))
    case Working(UnrLastRead) => Go(Working(UnrUnlink))
    case Working(UnrUnlink) => Move(Working(UnrVerify(ABSENCE_RETRY_ATTEMPTS)), MarkerGone)
    case Working(ResUnlink) => Move(Working(ResVerify), MarkerGone)
    case Working(_) => Leave(DeletedReturn(task))
    case ReleaseRead(ret) => Go(ReleaseUnlink(ret))
    case ReleaseUnlink(ret) => Move(Done(ret), LockRemoved)
    case Done(_) => Go(pc)
  }

  function StepsToGo(pc: Pc): nat {
    match pc
    case Start => 26
    case Preparing(UnrCapture) => 25
    case Preparing(UnrStat) => 24
    case Preparing(UnrRead) => 23
    case Preparing(ResCapture) => 25
    case Preparing(ResStat) => 24
    case Preparing(ResRead) => 23
    case Acquiring(a) => 7 + StepsToLock(a)
    case Working(UnrConfirm) => 8
    case Working(UnrPostRead) => 7
    case Working(UnrPreRead) => 6
    case Working(UnrLastRead) => 5
    case Working(UnrUnlink) => 4
    case Working(ResUnlink) => 4
    case Working(_) => 3
    case ReleaseRead(_) => 2
    case ReleaseUnlink(_) => 1
    case _ => 0
  }

  predicate IsDeleter(task: Task) {
    task.Unregister? || task.Resolve?
  }

  /** The marker is the one the confirmation is bound to, and for unregister it is valid. */
  predicate BoundMarker(s: State, call: Call) {
    && IsDeleter(call.task) && ReadMarker(s, false) == Some(call.task.bound)
    && (call.task.Unregister? ==> Believes(call.task.bound))
  }

  predicate UndoStage(s: State, p: Pid, call: Call, pc: Pc)
    requires IsDeleter(call.task) && MayAct(call)
  {
    match pc
    case Start => BoundMarker(s, call) && IsFree(s) && call.confirmation.value !in s.consumed
    case Preparing(b) => BoundMarker(s, call) && IsFree(s) && Fits(call.task, pc)
    case Acquiring(a) => BoundMarker(s, call) && AtLock(s, p, a)
    case Working(i) =>
      && s.lock == Held(p) && Fits(call.task, pc)
      && (if i.UnrVerify? then s.marker.None? && i.tries > 0
          else if i.ResVerify? then s.marker.None?
          else BoundMarker(s, call))
    case ReleaseRead(ret) => s.marker.None? && ret == DeletedReturn(call.task) && s.lock == Held(p)
    case ReleaseUnlink(ret) => s.marker.None? && ret == DeletedReturn(call.task) && s.lock == Held(p)
    case Done(ret) => s.marker.None? && ret == DeletedReturn(call.task) && s.lock == NoLock
  }

  predicate UndoOnTrack(s: State, p: Pid) {
    && p in s.procs && s.procs[p].alive && IsDeleter(s.procs[p].call.task) && MayAct(s.procs[p].call)
    && UndoStage(s, p, s.procs[p].call, s.procs[p].pc)
    && (HasUnlinked(s.procs[p].pc) ==> s.procs[p].deleted)
  }

  predicate HasUnlinked(pc: Pc) {
    pc == Working(ResVerify) || (pc.Working? && pc.inside.UnrVerify?) || pc.ReleaseRead? || pc.ReleaseUnlink? || pc.Done?
  }

  lemma PreparingFollowsUndo(s: State, p: Pid, o: Oracle)
    requires UndoOnTrack(s, p) && Kind(o) && (s.procs[p].pc.Start? || s.procs[p].pc.Preparing?)
    ensures MoveOf(s, p, o) == DeleteScript(s.lock, s.procs[p].call.task, s.procs[p].pc)
  {
    hide WorkMove, AcquireMove, ReleaseMove, Believes, BoundedRead;
  }

  lemma OutsideFollowsUndo(s: State, p: Pid, o: Oracle)
    requires UndoOnTrack(s, p) && Kind(o) && !s.procs[p].pc.Start? && !s.procs[p].pc.Preparing?
    requires !s.procs[p].pc.Working?
    ensures MoveOf(s, p, o) == DeleteScript(s.lock, s.procs[p].call.task, s.procs[p].pc)
  {
    hide WorkMove, StartMove, PrepareMove, AcquireMove, BoundMarker, LockScript, AtLock;
    if s.procs[p].pc.Acquiring? {
      FollowsLockScript(s, p, s.procs[p].call.task, s.procs[p].pc.acquire, o);
    }
  }

  lemma WorkFollowsUndo(s: State, p: Pid, o: Oracle)
    requires UndoOnTrack(s, p) && Kind(o) && s.procs[p].pc.Working?
    ensures MoveOf(s, p, o) == DeleteScript(s.lock, s.procs[p].call.task, s.procs[p].pc)
  {
    hide StartMove, PrepareMove, AcquireMove, ReleaseMove, RegisterMove, Believes, BoundedRead;
  }

  lemma UndoAdvances(s: State, p: Pid, call: Call, pc: Pc, m: Move, t: State)
    requires IsDeleter(call.task) && MayAct(call) && UndoStage(s, p, call, pc) && !pc.Done?
    requires p in s.procs && s.procs[p].alive && s.procs[p].call == call
    requires m == DeleteScript(s.lock, call.task, pc) && t == Apply(s, p, m)
    ensures UndoStage(t, p, call, m.pc) && StepsToGo(m.pc) < StepsToGo(pc)
    ensures HasUnlinked(m.pc) ==> HasUnlinked(pc) || m.effect.MarkerGone?
  {
    hide Believes, BoundedRead, LogAfter, ProcAfter;
    if pc.Working? {
      WorkUndoAdvances(s, p, call, pc.inside, m, t);
    } else if pc.Acquiring? {
      hide LockScript, AtLock, IsFree;
      NearerToLock(s, p, pc.acquire, m);
      assert ReadMarker(t, false) == ReadMarker(s, false);
      hide Apply, ReadMarker;
    } else {
      hide LockScript;
      if pc.Start? || pc.Preparing? {
        StaysFree(s, p, m);
        hide IsFree;
      }
    }
  }

  lemma WorkUndoAdvances(s: State, p: Pid, call: Call, i: Inside, m: Move, t: State)
    requires IsDeleter(call.task) && MayAct(call) && UndoStage(s, p, call, Working(i))
    requires m == DeleteScript(s.lock, call.task, Working(i)) && p in s.procs && t == Apply(s, p, m)
    ensures UndoStage(t, p, call, m.pc) && StepsToGo(m.pc) < StepsToGo(Working(i))
    ensures HasUnlinked(m.pc) ==> HasUnlinked(Working(i)) || m.effect.MarkerGone?
  {
    if i.UnrUnlink? || i.ResUnlink? || i.UnrVerify? || i.ResVerify? {
      UnlinkAdvances(s, p, call, i, m, t);
    } else {
      CompareAdvances(s, p, call, i, m, t);
    }
  }

  lemma CompareAdvances(s: State, p: Pid, call: Call, i: Inside, m: Move, t: State)
    requires IsDeleter(call.task) && MayAct(call) && UndoStage(s, p, call, Working(i))
    requires i.UnrConfirm? || i.UnrPostRead? || i.UnrPreRead? || i.UnrLastRead?
    requires m == DeleteScript(s.lock, call.task, Working(i)) && p in s.procs && t == Apply(s, p, m)
    ensures UndoStage(t, p, call, m.pc) && StepsToGo(m.pc) < StepsToGo(Working(i))
    ensures HasUnlinked(m.pc) ==> HasUnlinked(Working(i)) || m.effect.MarkerGone?
  {
    hide Believes, BoundedRead, LockScript;
    assert t.marker == s.marker && t.files == s.files && t.lock == s.lock;
    hide Apply;
  }

  lemma UnlinkAdvances(s: State, p: Pid, call: Call, i: Inside, m: Move, t: State)
    requires IsDeleter(call.task) && MayAct(call) && UndoStage(s, p, call, Working(i))
    requires i.UnrUnlink? || i.ResUnlink? || i.UnrVerify? || i.ResVerify?
    requires m == DeleteScript(s.lock, call.task, Working(i)) && p in s.procs && t == Apply(s, p, m)
    ensures UndoStage(t, p, call, m.pc) && StepsToGo(m.pc) < StepsToGo(Working(i))
    ensures HasUnlinked(m.pc) ==> HasUnlinked(Working(i)) || m.effect.MarkerGone?
  {
    hide BoundMarker, LogAfter, ProcAfter, ConsumedAfter, FilesAfter, LockScript;
  }

  lemma UndoStep(s: State, p: Pid, o: Oracle)
    requires UndoOnTrack(s, p) && Kind(o) && !s.procs[p].pc.Done?
    ensures var t := Apply(s, p, MoveOf(s, p, o));
      UndoOnTrack(t, p) && t.procs[p].call == s.procs[p].call && StepsToGo(t.procs[p].pc) < StepsToGo(s.procs[p].pc)
  {
    hide MoveOf, StepsToGo, DeleteScript;
    if s.procs[p].pc.Working? {
      WorkFollowsUndo(s, p, o);
    } else if s.procs[p].pc.Start? || s.procs[p].pc.Preparing? {
      PreparingFollowsUndo(s, p, o);
    } else {
      OutsideFollowsUndo(s, p, o);
    }
    var m := MoveOf(s, p, o);
    UndoAdvances(s, p, s.procs[p].call, s.procs[p].pc, m, Apply(s, p, m));
    hide UndoStage;
  }

  /** The lock to be had, and a confirmation that is good for the marker that is there. */
  predicate CanDelete(s: State, p: Pid, call: Call) {
    && p !in s.procs && BoundMarker(s, call) && MayAct(call)
    && IsFree(s) && call.confirmation.value !in s.consumed
  }

  lemma UndoBegins(s: State, p: Pid, call: Call)
    requires AllLocal(s) && CanDelete(s, p, call)
    ensures var t := Run(s, CallActions(p, call, []));
      && AllLocal(t) && UndoOnTrack(t, p) && t.procs[p].call == call && t.procs[p].pc == Start
  {
    hide Local, MoveOf, Believes, Classify, Run, CallActions;
    BeginsAt(s, p, call);
    AllLocalStep(s, Action(p, Begin(call)));
    hide AllLocal;
  }

  lemma CallIsLonger(p: Pid, call: Call, oracles: seq<Oracle>)
    ensures CallActions(p, call, oracles) != []
  {
  }

  lemma {:induction false} DeleteStaysOnTrack(s: State, p: Pid, call: Call, oracles: seq<Oracle>)
    requires AllLocal(s) && CanDelete(s, p, call) && AllKind(oracles)
    ensures var t := Run(s, CallActions(p, call, oracles));
      && AllLocal(t) && UndoOnTrack(t, p) && t.procs[p].call == call
      && (t.procs[p].pc.Done? || StepsToGo(t.procs[p].pc) + |oracles| <= 26)
    decreases |oracles|
  {
    if oracles == [] {
      assert [] == oracles;
      UndoBegins(s, p, call);
    } else {
      var k := |oracles| - 1;
      hide MoveOf, CanDelete, AllLocal, Apply, StepsToGo, UndoStage, Next, CallActions;
      DeleteStaysOnTrack(s, p, call, oracles[..k]);
      CallActionsSplit(p, call, oracles);
      var t := Run(s, CallActions(p, call, oracles[..k]));
      TakesStep(t, p, oracles[k]);
      CallIsLonger(p, call, oracles);
      hide Run;
      if t.procs[p].pc.Done? {
        DoneStays(t, p, oracles[k]);
      } else {
        UndoStep(t, p, oracles[k]);
      }
    }
  }

  /** An undisturbed unregister or resolve-invalid call completes: unregistered or
      invalid-marker-resolved, the marker gone, the lock free. */
  lemma DeleteAloneCompletes(s: State, p: Pid, call: Call, oracles: seq<Oracle>)
    requires AllLocal(s) && CanDelete(s, p, call) && AllKind(oracles) && |oracles| > 26
    ensures var t := Run(s, CallActions(p, call, oracles));
      && AllLocal(t) && t.lock == NoLock && t.marker == None
      && p in t.procs && t.procs[p].pc == Done(DeletedReturn(call.task)) && t.procs[p].deleted
  {
    hide Run, AllLocal, BoundMarker, Believes, MayAct, CallActions, Kind;
    DeleteStaysOnTrack(s, p, call, oracles);
    hide CanDelete, StepsToGo;
    var t := Run(s, CallActions(p, call, oracles));
    assert t.procs[p].pc.Done?;
  }

  /** The second call is to undo the first, with a confirmation of its own. */
  predicate Undoes(s: State, p: Pid, call: Call, q: Pid, undo: Call) {
    && call.task.Register? && WellFormed(call)
    && undo.task == Unregister(MarkerBytes(call.task.draft)) && MayAct(undo)
    && q !in s.procs && q != p && undo.confirmation.value !in s.consumed && undo.confirmation != call.confirmation
  }

  lemma DraftIsAccepted(s: State, p: Pid, call: Call)
    requires CanRegister(s, p, call)
    ensures call.task.Register? && WellFormed(call) && Accepted(call.task.draft) && p !in s.procs
  {
    hide Accepted;
  }

  lemma ReadyToUndo(s: State, p: Pid, call: Call, oracles: seq<Oracle>, q: Pid, undo: Call)
    requires AllLocal(s) && CanRegister(s, p, call) && Undoes(s, p, call, q, undo)
    requires AllKind(oracles) && |oracles| > 30 + |DraftBytes(call)|
    ensures var t := Run(s, CallActions(p, call, oracles)); AllLocal(t) && CanDelete(t, q, undo)
    ensures undo.task.Unregister?
  {
    hide Run, AllLocal, CallActions, WellFormed, Accepted, MarkerBytes, DraftBytes, BoundMarker, Kind, CanRegister;
    DraftIsAccepted(s, p, call);
    RegisterAloneCompletes(s, p, call, oracles);
    OwnCallOnly(s, p, call, oracles);
    CompleteIsBound(Run(s, CallActions(p, call, oracles)), call.task.draft, undo);
  }

  /** Unregister undoes register: bound to the bytes the draft wrote, with another confirmation, it
      leaves the marker path as it was, and the lock free. */
  lemma RegisterThenUnregister(
      s: State, p: Pid, call: Call, oracles: seq<Oracle>, q: Pid, undo: Call, more: seq<Oracle>)
    requires AllLocal(s) && CanRegister(s, p, call) && Undoes(s, p, call, q, undo)
    requires AllKind(oracles) && |oracles| > 30 + |DraftBytes(call)| && AllKind(more) && |more| > 26
    ensures var t := Run(s, CallActions(p, call, oracles) + CallActions(q, undo, more));
      && t.marker == s.marker && t.lock == NoLock
      && q in t.procs && t.procs[q].pc == Done(UNREGISTERED)
  {
    hide Run, AllLocal, CallActions, Undoes, CanDelete, DraftBytes, Kind;
    ReadyToUndo(s, p, call, oracles, q, undo);
    DeleteAloneCompletes(Run(s, CallActions(p, call, oracles)), q, undo, more);
    RunConcat(s, CallActions(p, call, oracles), CallActions(q, undo, more));
  }

  lemma CompleteIsBound(t: State, d: DraftInput, undo: Call)
    requires Accepted(d) && MarkerContent(t) == Some(MarkerBytes(d)) && undo.task == Unregister(MarkerBytes(d))
    ensures BoundMarker(t, undo)
  {
    MarkerLaws.WriteReadBackInverse(d);
    hide Accepted, MarkerBytes, Classify;
  }

  /** A call on its own adds no other call and consumes no other confirmation. */
  lemma {:induction false} OwnCallOnly(s: State, p: Pid, call: Call, oracles: seq<Oracle>)
    requires p !in s.procs && WellFormed(call)
    ensures var t := Run(s, CallActions(p, call, oracles));
      && t.procs.Keys == s.procs.Keys + {p} && t.procs[p].call == call
      && forall c :: c in t.consumed ==> c in s.consumed || call.confirmation == Some(c)
    decreases |oracles|
  {
    if oracles == [] {
      hide MoveOf;
      BeginsAt(s, p, call);
      assert [] == oracles;
    } else {
      var k := |oracles| - 1;
      OwnCallOnly(s, p, call, oracles[..k]);
      CallActionsSplit(p, call, oracles);
      hide MoveOf;
    }
  }
}
