/** What the results of unregister and resolve-invalid say about deletion, exactly. */
module ProtocolReports {
  import opened Text
  import opened Marker
  import opened Protocol
  import opened ProtocolLock
  import opened ProtocolPaths
  import opened ProtocolMarker
  import opened ProtocolLimits
  import opened ProtocolExclusion
  import opened ProtocolAlone
  import opened ProtocolUndo
  import opened ProtocolVerdicts
  import DraftLaws

  // ---------------------------------------------------------------- resolve-invalid

  /** What the steps before the lock return when they do not go on to it. */
  function EarlyReturn(s: State): Return {
    if s.marker.None? then ResolvedReturn() else Cancel(MarkerChanged)
  }

  /** Where such a call is after `n` steps. */
  function EarlyPc(s: State, n: nat): Pc {
    if n == 0 then Start
    else if n == 1 then Preparing(ResCapture)
    else if n == 2 then Preparing(ResStat)
    else if n == 3 && s.marker.Some? then Preparing(ResRead)
    else Done(EarlyReturn(s))
  }

  /** The marker is not what the resolution is bound to, or not there. */
  predicate ReturnsEarly(s: State, call: Call) {
    call.task.Resolve? && (s.marker.Some? ==> ReadMarker(s, false) != Some(call.task.bound))
  }

  lemma EarlyStep(s: State, p: Pid, call: Call, n: nat, o: Oracle)
    requires ReturnsEarly(s, call) && IsFresh(s, p, call) && Kind(o)
    ensures Next(Put(s, p, Asking(call, EarlyPc(s, n))), Action(p, Take(o))) == Put(s, p, Asking(call, EarlyPc(s, n + 1)))
  {
    hide AcquireMove, WorkMove, ReleaseMove, WellFormed, BoundedRead;
    var t := Put(s, p, Asking(call, EarlyPc(s, n)));
    assert ReadMarker(t, false) == ReadMarker(s, false);
    hide ReadMarker;
    EarlyMove(t, p, call, n, o, s);
    hide EarlyPc, MoveOf;
  }

  lemma EarlyMove(t: State, p: Pid, call: Call, n: nat, o: Oracle, s: State)
    requires ReturnsEarly(s, call) && IsFresh(s, p, call) && Kind(o) && t == Put(s, p, Asking(call, EarlyPc(s, n)))
    requires ReadMarker(t, false) == ReadMarker(s, false)
    ensures MoveOf(t, p, o) == Go(EarlyPc(s, n + 1))
  {
    hide AcquireMove, WorkMove, ReleaseMove, WellFormed, ReadMarker;
  }

  lemma {:induction false} EarlyRun(s: State, p: Pid, call: Call, oracles: seq<Oracle>)
    requires ReturnsEarly(s, call) && IsFresh(s, p, call) && AllKind(oracles)
    ensures Run(s, CallActions(p, call, oracles)) == Put(s, p, Asking(call, EarlyPc(s, |oracles|)))
    decreases |oracles|
  {
    hide Next, WellFormed, EarlyPc, CallActions, ReturnsEarly;
    if oracles == [] {
      assert [] == oracles;
      BeginsAt(s, p, call);
      EarlyStart(s);
    } else {
      var k := |oracles| - 1;
      EarlyRun(s, p, call, oracles[..k]);
      CallActionsSplit(p, call, oracles);
      CallIsLonger(p, call, oracles);
      EarlyStep(s, p, call, k, oracles[k]);
    }
  }

  lemma EarlyStart(s: State)
    ensures EarlyPc(s, 0) == Start
  {
  }

  /** An undisturbed resolve-invalid call, exactly: with the bound marker there it deletes it and says
      so; with another one there it is cancelled; with none there it says it deleted one and has not.
      So what it says about deletion is true if and only if there is a marker when it begins. */
  lemma ResolveAloneExact(s: State, p: Pid, call: Call, oracles: seq<Oracle>)
    requires AllLocal(s) && IsFresh(s, p, call) && call.task.Resolve? && IsFree(s)
    requires AllKind(oracles) && |oracles| > 26
    ensures var t := Run(s, CallActions(p, call, oracles));
      && p in t.procs && t.procs[p].pc.Done? && t.procs[p].pc.ret.Returned?
      && var proc, result := t.procs[p], t.procs[p].pc.ret.result;
         && (result.markerDeleted <==> s.marker.None? || ReadMarker(s, false) == Some(call.task.bound))
         && (proc.deleted <==> s.marker.Some? && ReadMarker(s, false) == Some(call.task.bound))
         && ((result.markerDeleted <==> proc.deleted) <==> s.marker.Some?)
         && (proc.deleted ==> t.marker.None?)
  {
    hide Run, CallActions, WellFormed, AllLocal;
    if ReturnsEarly(s, call) {
      EarlyRun(s, p, call, oracles);
    } else {
      DeleteAloneCompletes(s, p, call, oracles);
      MarkerToRead(s);
    }
  }

  lemma MarkerToRead(s: State)
    ensures ReadMarker(s, false).Some? ==> s.marker.Some?
  {
  }

  /** A run in which resolve-invalid finds the marker path free and reports a deletion. */
  lemma ResolvedWithoutDeleting(parent: bool, bound: Bytes)
    ensures exists actions :: var t := Run(Initial(parent), actions);
      && 0 in t.procs && t.procs[0].pc == Done(ResolvedReturn()) && ResolvedReturn().result.markerDeleted
      && !t.procs[0].deleted && t.log == []
  {
    var call := Call(Resolve(bound), Some(0), true);
    EarlyRun(Initial(parent), 0, call, KindAnswers(3));
    hide Run;
    assert EarlyPc(Initial(parent), 3) == Done(ResolvedReturn());
    assert Run(Initial(parent), CallActions(0, call, KindAnswers(3))).log == [];
  }

  /** Enough kind answers. */
  function KindAnswers(n: nat): (oracles: seq<Oracle>)
    ensures |oracles| == n && AllKind(oracles)
  {
    seq(n, i => Oracle(false, true, 1, true, NoHook))
  }

  // ---------------------------------------------------------------- unregister

  /** One of the three absence checks does not fail. */
  predicate Sees(answers: seq<Oracle>) {
    exists i :: 0 <= i < |answers| && i < ABSENCE_RETRY_ATTEMPTS && !answers[i].fail
  }

  function Verdict(answers: seq<Oracle>): Return {
    if Sees(answers) then UNREGISTERED else Changed(AbsenceReadBackFailed)
  }

  /** Where a call is that began its absence checks `answers` ago. */
  predicate Verifying(proc: Proc, answers: seq<Oracle>) {
    if ReturnOf(proc.pc).Some? then
      ReturnOf(proc.pc).value == Verdict(answers) && (Sees(answers) || |answers| > ABSENCE_RETRY_ATTEMPTS)
    else
      && proc.pc.Working? && proc.pc.inside.UnrVerify?
      && (proc.alive ==> !Sees(answers) && proc.pc.inside.tries + |answers| == ABSENCE_RETRY_ATTEMPTS)
  }

  lemma SeesMore(answers: seq<Oracle>, o: Oracle)
    ensures Sees(answers + [o]) <==> Sees(answers) || (|answers| < ABSENCE_RETRY_ATTEMPTS && !o.fail)
  {
    var more := answers + [o];
    if Sees(answers) {
      var i :| 0 <= i < |answers| && i < ABSENCE_RETRY_ATTEMPTS && !answers[i].fail;
      assert !more[i].fail;
    }
    assert more[|answers|] == o;
  }

  lemma VerifyMove(s: State, p: Pid, o: Oracle, answers: seq<Oracle>)
    requires Live(s, p) && Verifying(s.procs[p], answers)
    requires s.procs[p].pc.Working? ==> s.marker.None?
    ensures Verifying(ProcAfter(s.procs[p], MoveOf(s, p, o)), answers + [o])
  {
    SeesMore(answers, o);
    hide Sees, StartMove, PrepareMove, AcquireMove, RegisterMove, ResolveMove;
  }

  lemma VerifyStep(s: State, a: Action, p: Pid, answers: seq<Oracle>)
    requires p in s.procs && Verifying(s.procs[p], answers)
    requires Live(s, p) && s.procs[p].pc.Working? ==> s.marker.None?
    ensures p in Next(s, a).procs
    ensures Verifying(Next(s, a).procs[p],
                      if a.pid == p && a.step.Take? then answers + [a.step.oracle] else answers)
  {
    if a.pid == p && a.step.Take? {
      SeesMore(answers, a.step.oracle);
      if Live(s, p) {
        VerifyMove(s, p, a.step.oracle, answers);
      }
    }
    hide MoveOf, Sees;
  }

  lemma {:induction false} VerifyRun(parent: bool, actions: seq<Action>, more: seq<Action>, p: Pid)
    requires Throughout(HarmlessRecovery, Initial(parent), actions + more)
    requires var s := Run(Initial(parent), actions);
      Live(s, p) && s.procs[p].pc == Working(UnrVerify(ABSENCE_RETRY_ATTEMPTS))
    ensures var t := Run(Initial(parent), actions + more); p in t.procs && Verifying(t.procs[p], AnswersTo(p, more))
    decreases |more|
  {
    hide Next, Verifying;
    if more == [] {
      assert actions + more == actions;
      VerifyBegins(Run(Initial(parent), actions), p);
    } else {
      var k := |more| - 1;
      assert (actions + more)[..|actions + more| - 1] == actions + more[..k];
      VerifyRun(parent, actions, more[..k], p);
      var s := Run(Initial(parent), actions + more[..k]);
      AlwaysGuarded(parent, actions + more[..k]);
      StillAbsent(s, p, AnswersTo(p, more[..k]));
      hide AllLocal, AllBelieved, Guarded, Owned, Exclusive;
      VerifyStep(s, more[k], p, AnswersTo(p, more[..k]));
    }
  }

  lemma VerifyBegins(s: State, p: Pid)
    requires p in s.procs && s.procs[p].pc == Working(UnrVerify(ABSENCE_RETRY_ATTEMPTS))
    ensures Verifying(s.procs[p], [])
  {
  }

  lemma StillAbsent(s: State, p: Pid, answers: seq<Oracle>)
    requires Guarded(s) && p in s.procs && Verifying(s.procs[p], answers)
    ensures Live(s, p) && s.procs[p].pc.Working? ==> s.marker.None?
  {
    if Live(s, p) {
      assert Reliable(s, p);
    }
  }

  /** In harmless runs, a call that has deleted the marker and begins its absence checks ends
      unregistered if and only if one of its three checks does not fail; otherwise it reports
      changed-marker-stopped, and no deletion. */
  lemma UnregisterReportsExact(parent: bool, actions: seq<Action>, more: seq<Action>, p: Pid)
    requires Throughout(HarmlessRecovery, Initial(parent), actions + more)
    requires var s := Run(Initial(parent), actions);
      Live(s, p) && s.procs[p].pc == Working(UnrVerify(ABSENCE_RETRY_ATTEMPTS))
    requires var t := Run(Initial(parent), actions + more); p in t.procs && ReturnOf(t.procs[p].pc).Some?
    ensures var ret := ReturnOf(Run(Initial(parent), actions + more).procs[p].pc).value;
      && (ret == UNREGISTERED <==> Sees(AnswersTo(p, more)))
      && (ret == Changed(AbsenceReadBackFailed) <==> !Sees(AnswersTo(p, more)))
  {
    VerifyRun(parent, actions, more, p);
    hide Run, Sees;
  }

  /** A workspace in which the example draft has been registered and nobody is at work. */
  lemma Registered0(h: Habit) returns (t: State)
    requires h.Unrestricted?
    ensures Accepted(DraftLaws.Example())
    ensures Reach(h, Initial(true), t) && AllLocal(t) && t.lock == NoLock && 1 !in t.procs && 1 !in t.consumed
    ensures t.marker == Some(0) && MarkerContent(t) == Some(MarkerBytes(DraftLaws.Example()))
  {
    hide Accepted, MarkerBytes, DraftLaws.Example, WellFormed, Run, Throughout, AllLocal, CallActions;
    var s, call := Initial(true), Asker(0);
    DraftLaws.ExampleIsAccepted();
    AskerSuits(s, 0, 0);
    NothingIsLocal();
    var oracles := KindAnswers(31 + |DraftBytes(call)|);
    RegisterAloneCompletes(s, 0, call, oracles);
    OwnCallOnly(s, 0, call, oracles);
    t := Run(s, CallActions(0, call, oracles));
    AnyRun(s, CallActions(0, call, oracles));
    hide Reach;
  }

  lemma NothingIsLocal()
    ensures AllLocal(Initial(true))
  {
    AlwaysLocal(true, []);
    assert Run(Initial(true), []) == Initial(true);
  }

  lemma {:induction false} AnyHabit(s: State, actions: seq<Action>)
    ensures Throughout(Unrestricted, s, actions)
    decreases |actions|
  {
    if actions != [] {
      AnyHabit(s, actions[..|actions| - 1]);
    }
  }

  lemma AnyRun(s: State, actions: seq<Action>)
    ensures Reach(Unrestricted, s, Run(s, actions))
  {
    AnyHabit(s, actions);
  }

  /** Call 1 is to unregister the example draft. */
  function Undoer(): Call
    requires Accepted(DraftLaws.Example())
  {
    Call(Unregister(MarkerBytes(DraftLaws.Example())), Some(1), true)
  }

  lemma UndoerSuits(s: State)
    requires Accepted(DraftLaws.Example()) && 1 !in s.procs && 1 !in s.consumed
    requires s.marker == Some(0) && MarkerContent(s) == Some(MarkerBytes(DraftLaws.Example()))
    ensures IsFresh(s, 1, Undoer()) && Suits(s, Undoer().task)
  {
    hide Accepted, DraftLaws.Example, MarkerBytes, Classify;
    CompleteIsBound(s, DraftLaws.Example(), Undoer());
  }

  /** The three comparisons under the lock. */
  lemma ReachUnlink(from: State, s: State, call: Call) returns (t: State)
    requires Reach(Unrestricted, from, s) && call.task.Unregister? && Suits(s, call.task)
    requires 1 in s.procs && s.procs[1] == Worker(call, Working(UnrConfirm))
    ensures Reach(Unrestricted, from, t) && t == Put(s, 1, Worker(call, Working(UnrUnlink)))
  {
    hide Reach, Believes, BoundedRead;
    hide StartMove, PrepareMove, AcquireMove, ReleaseMove, RegisterMove, ResolveMove;
    ReachQuiet(Unrestricted, from, s, 1, GOOD, s.procs[1], Working(UnrPostRead));
    var s1 := Put(s, 1, Worker(call, Working(UnrPostRead)));
    ReachQuiet(Unrestricted, from, s1, 1, GOOD, s1.procs[1], Working(UnrPreRead));
    var s2 := Put(s1, 1, Worker(call, Working(UnrPreRead)));
    ReachQuiet(Unrestricted, from, s2, 1, GOOD, s2.procs[1], Working(UnrLastRead));
    var s3 := Put(s2, 1, Worker(call, Working(UnrLastRead)));
    ReachQuiet(Unrestricted, from, s3, 1, GOOD, s3.procs[1], Working(UnrUnlink));
    t := Put(s3, 1, Worker(call, Working(UnrUnlink)));
  }

  /** The marker is unlinked, and every absence check fails. */
  lemma ReachUnverified(from: State, s: State, call: Call) returns (t: State)
    requires Reach(Unrestricted, from, s) && s.marker.Some?
    requires 1 in s.procs && s.procs[1] == Worker(call, Working(UnrUnlink))
    ensures Reach(Unrestricted, from, t) && t.lock == s.lock && 1 in t.procs
    ensures t.procs[1] == Worker(call, ReleaseRead(Changed(AbsenceReadBackFailed))).(deleted := true)
  {
    hide Reach, StartMove, PrepareMove, AcquireMove, ReleaseMove, RegisterMove, ResolveMove, Apply, MoveOf;
    var gone := Worker(call, Working(UnrVerify(3))).(deleted := true);
    t := ReachUnlinked(from, s, call);
    ReachQuiet(Unrestricted, from, t, 1, BAD, gone, Working(UnrVerify(2)));
    t := Put(t, 1, gone.(pc := Working(UnrVerify(2))));
    ReachQuiet(Unrestricted, from, t, 1, BAD, t.procs[1], Working(UnrVerify(1)));
    t := Put(t, 1, gone.(pc := Working(UnrVerify(1))));
    ReachQuiet(Unrestricted, from, t, 1, BAD, t.procs[1], Working(UnrVerify(0)));
    t := Put(t, 1, gone.(pc := Working(UnrVerify(0))));
    ReachQuiet(Unrestricted, from, t, 1, BAD, t.procs[1], ReleaseRead(Changed(AbsenceReadBackFailed)));
    t := Put(t, 1, gone.(pc := ReleaseRead(Changed(AbsenceReadBackFailed))));
  }

  lemma ReachUnlinked(from: State, s: State, call: Call) returns (t: State)
    requires Reach(Unrestricted, from, s) && s.marker.Some?
    requires 1 in s.procs && s.procs[1] == Worker(call, Working(UnrUnlink))
    ensures Reach(Unrestricted, from, t) && t.lock == s.lock && t.marker.None? && 1 in t.procs
    ensures t.procs[1] == Worker(call, Working(UnrVerify(3))).(deleted := true)
  {
    hide Reach, StartMove, PrepareMove, AcquireMove, ReleaseMove, RegisterMove, ResolveMove;
    t := Apply(s, 1, MoveOf(s, 1, GOOD));
    ReachMove(Unrestricted, from, s, 1, GOOD, t);
  }

  /** A run in which unregister deletes the marker, reports changed-marker-stopped and claims no
      deletion. */
  lemma DeletedButDenied()
    ensures exists actions :: var t := Run(Initial(true), actions);
      && 1 in t.procs && t.procs[1].deleted && t.procs[1].pc == Done(Changed(AbsenceReadBackFailed))
      && !t.procs[1].pc.ret.result.markerDeleted
  {
    hide Reach, Suits, WellFormed, Accepted, DraftLaws.Example, MarkerBytes, AllLocal;
    var h, from := Unrestricted, Initial(true);
    var s := Registered0(h);
    var call := Undoer();
    UndoerSuits(s);
    ReachMkdir(h, from, s, 1, call);
    var s1 := Put(Consumed(s, call), 1, Worker(call, Acquiring(Mkdir)));
    ReachInside(h, from, s1, 1, call);
    var s2 := Put(s1.(parent := true, lock := Held(1)), 1, Worker(call, Working(UnrConfirm)));
    StillSuits(s, s2, call.task);
    var s3 := ReachUnlink(from, s2, call);
    var s4 := ReachUnverified(from, s3, call);
    ReachReleased(h, from, s4, 1, s4.procs[1], Changed(AbsenceReadBackFailed));
    var t := Put(s4.(lock := NoLock), 1, s4.procs[1].(pc := Done(Changed(AbsenceReadBackFailed))));
    MoreOf(from, t);
    hide Run;
  }

  lemma StillSuits(s: State, t: State, task: Task)
    requires Suits(s, task) && task.Unregister? && t.marker == s.marker && t.files == s.files
    ensures Suits(t, task)
  {
  }
}
