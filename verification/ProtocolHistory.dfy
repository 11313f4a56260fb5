/** The history of the marker path: creations and deletions alternate, each is charged to one call
    and one confirmation, and every identity a result carries is that of a confirmed draft whose
    marker was written completely. */
module ProtocolHistory {
  import opened Text
  import opened Marker
  import opened Protocol
  import opened ProtocolLock
  import opened ProtocolPlaces
  import opened ProtocolMarker

  // ---------------------------------------------------------------- creations and deletions

  /** Where the effects on the marker come from. */
  lemma MarkerEffects(s: State, p: Pid, call: Call, pc: Pc, o: Oracle)
    ensures var e := Decide(s, p, call, pc, o).effect;
      && (e.MarkerMade? ==> s.marker.None? && pc == Working(RegCreate))
      && (e.MarkerGone? ==> s.marker.Some? && (pc == Working(UnrUnlink) || pc == Working(ResUnlink)))
      && (e.MarkerGrown? ==> pc == Working(RegWrite))
      && (e.WriteCompleted? ==> pc == Working(RegSync))
      && (e.ConfirmationConsumed? ==> pc.Preparing?)
  {
    hide WorkMove, ReadMarker, Believes;
    if pc.Working? {
      WorkEffects(s, p, call, pc.inside, o);
    }
  }

  lemma WorkEffects(s: State, p: Pid, call: Call, i: Inside, o: Oracle)
    ensures var e := WorkMove(s, p, call, i, o).effect;
      && (e.MarkerMade? ==> s.marker.None? && i == RegCreate)
      && (e.MarkerGone? ==> s.marker.Some? && (i == UnrUnlink || i == ResUnlink))
      && (e.MarkerGrown? ==> i == RegWrite)
      && (e.WriteCompleted? ==> i == RegSync)
      && !e.ConfirmationConsumed?
  {
    hide Believes, ReadMarker, DraftBytes, ReadBackVerified, ReadBackReason, OccupiedReason, MismatchReason;
    hide Classify, DraftIdentity;
  }

  /** Creations and deletions alternate, the marker path agrees with the last of them, and each
      event is what its call records, no call having two. */
  ghost predicate Chronicle(s: State) {
    && (forall i :: 0 <= i < |s.log| ==> (s.log[i].MarkerCreated? <==> i % 2 == 0))
    && s.marker == (if |s.log| % 2 == 1 then Some(s.log[|s.log| - 1].pid) else None)
    && (forall i :: 0 <= i < |s.log| ==> Charged(s, s.log[i]))
    && (forall i, j :: 0 <= i < j < |s.log| ==> s.log[i].pid != s.log[j].pid)
    && (forall p :: p in s.procs && s.procs[p].created ==> MarkerCreated(p) in s.log)
    && (forall p :: p in s.procs && s.procs[p].deleted ==> MarkerDeleted(p) in s.log)
  }

  predicate Charged(s: State, e: Event) {
    && e.pid in s.procs
    && s.procs[e.pid].call.confirmation.Some? && s.procs[e.pid].call.matches
    && s.procs[e.pid].spent
    && (if e.MarkerCreated? then s.procs[e.pid].created else s.procs[e.pid].deleted)
  }

  /** A call that is about to change the marker has the right to, and has not done so before. */
  predicate Entitled(s: State, p: Pid, e: Effect)
    requires p in s.procs
  {
    && (e.MarkerMade? ==> s.marker.None?)
    && (e.MarkerGone? ==> s.marker.Some?)
    && (e.MarkerMade? || e.MarkerGone? ==>
          && NoEffect(s.procs[p]) && s.procs[p].spent
          && s.procs[p].call.confirmation.Some? && s.procs[p].call.matches)
  }

  lemma MovesAreEntitled(s: State, p: Pid, o: Oracle)
    requires LocalAt(s, p)
    ensures Entitled(s, p, MoveOf(s, p, o).effect)
  {
    hide Decide, WellFormed, DraftBytes, Truthful, Fits;
    MarkerEffects(s, p, s.procs[p].call, s.procs[p].pc, o);
  }

  lemma ChronicleQuiet(s: State, p: Pid, m: Move)
    requires Chronicle(s) && p in s.procs && !m.effect.MarkerMade? && !m.effect.MarkerGone?
    ensures Chronicle(Apply(s, p, m))
  {
    var t := Apply(s, p, m);
    assert t.log == s.log;
    forall i | 0 <= i < |t.log| ensures Charged(t, t.log[i]) {
      assert Charged(s, s.log[i]);
    }
  }

  function EventOf(p: Pid, e: Effect): Event {
    if e.MarkerMade? then MarkerCreated(p) else MarkerDeleted(p)
  }

  lemma EventsCharged(s: State, p: Pid, m: Move)
    requires Chronicle(s) && p in s.procs && (m.effect.MarkerMade? || m.effect.MarkerGone?)
    requires Entitled(s, p, m.effect)
    ensures Apply(s, p, m).log == s.log + [EventOf(p, m.effect)]
    ensures forall i :: 0 <= i < |s.log| ==> Charged(Apply(s, p, m), s.log[i]) && s.log[i].pid != p
    ensures Charged(Apply(s, p, m), EventOf(p, m.effect))
  {
    forall i | 0 <= i < |s.log| ensures Charged(Apply(s, p, m), s.log[i]) && s.log[i].pid != p {
      assert Charged(s, s.log[i]);
    }
  }

  lemma EventsRecorded(s: State, p: Pid, m: Move)
    requires Chronicle(s) && p in s.procs && (m.effect.MarkerMade? || m.effect.MarkerGone?)
    requires Entitled(s, p, m.effect)
    ensures var t := Apply(s, p, m); forall r :: r in t.procs && t.procs[r].created ==> MarkerCreated(r) in t.log
    ensures var t := Apply(s, p, m); forall r :: r in t.procs && t.procs[r].deleted ==> MarkerDeleted(r) in t.log
  {
    var t := Apply(s, p, m);
    assert t.log == s.log + [EventOf(p, m.effect)];
    assert t.log[|s.log|] == EventOf(p, m.effect);
    hide Chronicle;
    assert forall x :: x in s.log ==> x in t.log;
    assert forall r :: r in t.procs && r != p ==> t.procs[r] == s.procs[r];
  }

  lemma ChronicleEvent(s: State, p: Pid, m: Move)
    requires Chronicle(s) && p in s.procs && (m.effect.MarkerMade? || m.effect.MarkerGone?)
    requires Entitled(s, p, m.effect)
    ensures Chronicle(Apply(s, p, m))
  {
    EventsCharged(s, p, m);
    EventsRecorded(s, p, m);
    EventsAlternate(s, p, m);
    hide Charged, Entitled, Apply;
    ChronicleOf(s, Apply(s, p, m), EventOf(p, m.effect));
  }

  /** One more event of a new call. */
  lemma ChronicleOf(s: State, t: State, e: Event)
    requires Chronicle(s) && t.log == s.log + [e]
    requires e.MarkerCreated? <==> |s.log| % 2 == 0
    requires t.marker == if e.MarkerCreated? then Some(e.pid) else None
    requires Charged(t, e) && forall i :: 0 <= i < |s.log| ==> Charged(t, s.log[i]) && s.log[i].pid != e.pid
    requires forall r :: r in t.procs && t.procs[r].created ==> MarkerCreated(r) in t.log
    requires forall r :: r in t.procs && t.procs[r].deleted ==> MarkerDeleted(r) in t.log
    ensures Chronicle(t)
  {
    hide Charged;
    assert forall i :: 0 <= i < |t.log| ==> t.log[i] == if i < |s.log| then s.log[i] else e;
  }

  lemma EventsAlternate(s: State, p: Pid, m: Move)
    requires Chronicle(s) && p in s.procs && (m.effect.MarkerMade? || m.effect.MarkerGone?)
    requires Entitled(s, p, m.effect)
    ensures EventOf(p, m.effect).MarkerCreated? <==> |s.log| % 2 == 0
    ensures Apply(s, p, m).marker == if EventOf(p, m.effect).MarkerCreated? then Some(p) else None
  {
    hide Charged, NoEffect;
  }

  lemma ChronicleStep(s: State, a: Action)
    requires AllLocal(s) && Chronicle(s)
    ensures Chronicle(Next(s, a))
  {
    if a.step.Take? && Live(s, a.pid) {
      var m := MoveOf(s, a.pid, a.step.oracle);
      assert LocalAt(s, a.pid);
      MovesAreEntitled(s, a.pid, a.step.oracle);
      hide MoveOf, Apply, Chronicle, Entitled, LocalAt;
      if m.effect.MarkerMade? || m.effect.MarkerGone? {
        ChronicleEvent(s, a.pid, m);
      } else {
        ChronicleQuiet(s, a.pid, m);
      }
    } else {
      ChronicleOther(s, a);
    }
  }

  /** Calls that begin or die leave the history as it is. */
  predicate SameDeeds(a: Proc, b: Proc) {
    a.call == b.call && a.spent == b.spent && a.created == b.created && a.deleted == b.deleted
  }

  lemma ChronicleProcs(s: State, p: Pid, proc: Proc)
    requires Chronicle(s) && (if p in s.procs then SameDeeds(proc, s.procs[p]) else NoEffect(proc))
    ensures Chronicle(s.(procs := s.procs[p := proc]))
  {
    var t := s.(procs := s.procs[p := proc]);
    forall i | 0 <= i < |t.log| ensures Charged(t, t.log[i]) {
      assert Charged(s, s.log[i]);
    }
  }

  lemma ChronicleOther(s: State, a: Action)
    requires Chronicle(s) && !(a.step.Take? && Live(s, a.pid))
    ensures Chronicle(Next(s, a))
  {
    hide MoveOf, Apply, Chronicle, WellFormed;
    match a.step
    case Begin(call) =>
      if a.pid !in s.procs {
        ChronicleProcs(s, a.pid, Proc(call, Start, true, false, false, false, false));
      }
    case Die =>
      if a.pid in s.procs {
        ChronicleProcs(s, a.pid, s.procs[a.pid].(alive := false));
      }
    case _ =>
  }

  /** In every run creations and deletions of the marker alternate, beginning with a creation, and
      no call accounts for two of them. */
  lemma {:induction false} AlwaysChronicle(parent: bool, actions: seq<Action>)
    ensures Chronicle(Run(Initial(parent), actions))
    decreases |actions|
  {
    if actions != [] {
      var k := |actions| - 1;
      AlwaysChronicle(parent, actions[..k]);
      AlwaysLocal(parent, actions[..k]);
      ChronicleStep(Run(Initial(parent), actions[..k]), actions[k]);
    }
  }

  // ---------------------------------------------------------------- confirmations

  /** Sequential reuse: a confirmation is handed to a new call only when every call that has it
      has returned. */
  ghost predicate InTurn(s: State, a: Action) {
    a.step.Begin? && a.step.call.confirmation.Some? ==>
      forall p :: p in s.procs && s.procs[p].call.confirmation == a.step.call.confirmation ==> s.procs[p].pc.Done?
  }

  ghost predicate AlwaysInTurn(s: State, actions: seq<Action>)
    decreases |actions|
  {
    actions == [] ||
    (var k := |actions| - 1; AlwaysInTurn(s, actions[..k]) && InTurn(Run(s, actions[..k]), actions[k]))
  }

  predicate SameConfirmation(s: State, p: Pid, r: Pid) {
    p in s.procs && r in s.procs && p != r
    && s.procs[p].call.confirmation.Some? && s.procs[p].call.confirmation == s.procs[r].call.confirmation
  }

  /** The consumed flag at work. */
  ghost predicate SpentOnce(s: State) {
    && (forall p, r :: SameConfirmation(s, p, r) ==>
          && (s.procs[p].pc.Done? || s.procs[r].pc.Done?)
          && !(s.procs[p].spent && s.procs[r].spent))
    && (forall p :: p in s.procs && s.procs[p].call.confirmation.Some? ==> Flagged(s, p))
  }

  predicate Flagged(s: State, p: Pid)
    requires p in s.procs && s.procs[p].call.confirmation.Some?
  {
    var proc, c := s.procs[p], s.procs[p].call.confirmation.value;
    && (proc.spent ==> c in s.consumed)
    && (proc.pc.Preparing? && !proc.call.task.RecoverLock? ==> c !in s.consumed)
  }

  /** How a step treats the confirmation. */
  lemma MovesWithConfirmation(s: State, p: Pid, call: Call, pc: Pc, o: Oracle)
    requires Fits(call.task, pc)
    ensures var m := Decide(s, p, call, pc, o);
      && (m.effect.ConfirmationConsumed? ==> pc.Preparing? && m.pc.Acquiring? && !call.task.RecoverLock?)
      && (m.pc.Preparing? ==>
            && !m.effect.ConfirmationConsumed?
            && (pc.Preparing? || call.task.RecoverLock? ||
                (pc.Start? && call.confirmation.Some? && call.confirmation.value !in s.consumed)))
      && (pc.Done? ==> m.pc == pc && m.effect.Quiet?)
  {
    MarkerEffects(s, p, call, pc, o);
    match pc
    case Preparing(before) =>
      PrepareEnds(s, call, before, o);
      hide PrepareMove;
    case Working(i) =>
      assert StaysAtWork(WorkMove(s, p, call, i, o).pc) by { WorkStays(s, p, call, i, o); }
      hide WorkMove;
    case _ =>
  }

  predicate StaysAtWork(pc: Pc) {
    pc.Working? || pc.ReleaseRead?
  }

  lemma WorkStays(s: State, p: Pid, call: Call, i: Inside, o: Oracle)
    ensures StaysAtWork(WorkMove(s, p, call, i, o).pc)
  {
    hide Believes, ReadMarker, DraftBytes, ReadBackVerified, ReadBackReason, OccupiedReason, MismatchReason;
    hide Classify, DraftIdentity;
  }

  lemma SpentOnceAct(s: State, p: Pid, o: Oracle)
    requires AllLocal(s) && SpentOnce(s) && p in s.procs
    ensures SpentOnce(Apply(s, p, MoveOf(s, p, o)))
  {
    hide Decide, Fits, WellFormed, DraftBytes, Truthful;
    var m := MoveOf(s, p, o);
    assert LocalAt(s, p);
    MovesWithConfirmation(s, p, s.procs[p].call, s.procs[p].pc, o);
    hide MoveOf, Local, AllLocal;
    var t := Apply(s, p, m);
    forall a, b | SameConfirmation(t, a, b)
      ensures (t.procs[a].pc.Done? || t.procs[b].pc.Done?) && !(t.procs[a].spent && t.procs[b].spent)
    {
      assert SameConfirmation(s, a, b);
      assert Flagged(s, a) && Flagged(s, b);
    }
    forall a | a in t.procs && t.procs[a].call.confirmation.Some? ensures Flagged(t, a) {
      assert Flagged(s, a);
      if a != p && t.procs[a].call.confirmation == t.procs[p].call.confirmation {
        assert SameConfirmation(s, a, p);
      }
    }
  }

  lemma SpentOnceBegin(s: State, p: Pid, call: Call)
    requires SpentOnce(s) && InTurn(s, Action(p, Begin(call))) && p !in s.procs
    ensures SpentOnce(s.(procs := s.procs[p := Proc(call, Start, true, false, false, false, false)]))
  {
    var t := s.(procs := s.procs[p := Proc(call, Start, true, false, false, false, false)]);
    forall a, b | SameConfirmation(t, a, b)
      ensures (t.procs[a].pc.Done? || t.procs[b].pc.Done?) && !(t.procs[a].spent && t.procs[b].spent)
    {
      assert a != p && b != p ==> SameConfirmation(s, a, b);
    }
    forall a | a in t.procs && t.procs[a].call.confirmation.Some? ensures Flagged(t, a) {
      assert a != p ==> Flagged(s, a);
    }
  }

  lemma SpentOnceDie(s: State, p: Pid)
    requires SpentOnce(s) && p in s.procs
    ensures SpentOnce(s.(procs := s.procs[p := s.procs[p].(alive := false)]))
  {
    var t := s.(procs := s.procs[p := s.procs[p].(alive := false)]);
    forall a, b | SameConfirmation(t, a, b)
      ensures (t.procs[a].pc.Done? || t.procs[b].pc.Done?) && !(t.procs[a].spent && t.procs[b].spent)
    {
      assert SameConfirmation(s, a, b);
    }
    forall a | a in t.procs && t.procs[a].call.confirmation.Some? ensures Flagged(t, a) {
      assert Flagged(s, a);
    }
  }

  lemma SpentOnceStep(s: State, a: Action)
    requires AllLocal(s) && SpentOnce(s) && InTurn(s, a)
    ensures SpentOnce(Next(s, a))
  {
    hide MoveOf, Apply, AllLocal, SpentOnce, WellFormed;
    match a.step
    case Take(o) =>
      if Live(s, a.pid) {
        SpentOnceAct(s, a.pid, o);
      }
    case Begin(call) =>
      if a.pid !in s.procs {
        SpentOnceBegin(s, a.pid, call);
      }
    case Die =>
      if a.pid in s.procs {
        SpentOnceDie(s, a.pid);
      }
  }

  lemma {:induction false} AlwaysSpentOnce(parent: bool, actions: seq<Action>)
    requires AlwaysInTurn(Initial(parent), actions)
    ensures SpentOnce(Run(Initial(parent), actions))
    decreases |actions|
  {
    if actions != [] {
      var k := |actions| - 1;
      AlwaysSpentOnce(parent, actions[..k]);
      AlwaysLocal(parent, actions[..k]);
      SpentOnceStep(Run(Initial(parent), actions[..k]), actions[k]);
    }
  }

  /** However often a confirmation is reused by calls that follow one another, it accounts for at
      most one creation or deletion; and every change is charged to a confirmation that matches. */
  lemma OneChangePerConfirmation(parent: bool, actions: seq<Action>, i: nat, j: nat)
    requires AlwaysInTurn(Initial(parent), actions)
    requires i < j < |Run(Initial(parent), actions).log|
    ensures var s := Run(Initial(parent), actions);
      && Charged(s, s.log[i]) && Charged(s, s.log[j])
      && s.procs[s.log[i].pid].call.confirmation != s.procs[s.log[j].pid].call.confirmation
  {
    AlwaysChronicle(parent, actions);
    AlwaysSpentOnce(parent, actions);
    var s := Run(Initial(parent), actions);
    assert Charged(s, s.log[i]) && Charged(s, s.log[j]);
    assert s.log[i].pid != s.log[j].pid;
    hide Chronicle;
    assert !SameConfirmation(s, s.log[i].pid, s.log[j].pid);
  }

  // ---------------------------------------------------------------- identities

  /** The identity belongs to a confirmed draft whose marker has been written completely. */
  ghost predicate Backed(s: State, identity: Text) {
    exists q :: IsBacking(s, q, identity)
  }

  predicate IsBacking(s: State, q: Pid, identity: Text) {
    && ConfirmedDraft(s, q)
    && FileOf(s.files, q) == Some(MarkerBytes(s.procs[q].call.task.draft))
    && s.procs[q].call.task.draft.identity == identity
  }

  /** The identity a call is about to report or has reported. */
  function Carried(pc: Pc): Option<Text> {
    match pc
    case Working(RegProject(_, identity)) => Some(identity)
    case ReleaseRead(Returned(r)) => r.identity
    case ReleaseUnlink(Returned(r)) => r.identity
    case Done(Returned(r)) => r.identity
    case _ => None
  }

  ghost predicate AllBacked(s: State) {
    forall p :: p in s.procs && Carried(s.procs[p].pc).Some? ==> Backed(s, Carried(s.procs[p].pc).value)
  }

  /** Only linking, or projecting after a read-back, brings in an identity. */
  predicate CarriesOver(s: State, call: Call, pc: Pc, after: Pc) {
    Carried(after).Some? ==>
      || Carried(pc) == Carried(after)
      || (pc == Working(RegRecapture) && Carried(after) == Some(DraftIdentity(call)))
      || (pc == Working(RegCollide) && ReadMarker(s, false).Some?
          && Classify(ReadMarker(s, false).value) == LinkedExisting(Carried(after).value))
  }

  lemma RegisterCarries(s: State, p: Pid, call: Call, i: Inside, o: Oracle)
    requires IsRegisterStep(i)
    ensures CarriesOver(s, call, Working(i), RegisterMove(s, p, call, i, o).pc)
  {
    hide BoundedRead, DraftBytes, ReadBackVerified, ReadBackReason, OccupiedReason, MismatchReason, Classify;
    hide DraftIdentity;
  }

  lemma MovesCarry(s: State, p: Pid, call: Call, pc: Pc, o: Oracle)
    ensures CarriesOver(s, call, pc, Decide(s, p, call, pc, o).pc)
  {
    hide ReadMarker, Believes, RegisterMove, DraftIdentity, Classify;
    if pc.Working? && IsRegisterStep(pc.inside) {
      RegisterCarries(s, p, call, pc.inside, o);
    }
  }

  lemma BackingStays(s: State, p: Pid, o: Oracle, q: Pid, identity: Text)
    requires AllLocal(s) && p in s.procs && IsBacking(s, q, identity)
    ensures IsBacking(Apply(s, p, MoveOf(s, p, o)), q, identity)
  {
    hide Truthful, Fits, Accepted, MarkerBytes;
    assert LocalAt(s, q);
    if p == q {
      hide StartMove, PrepareMove, AcquireMove, ReleaseMove, UnregisterMove, ResolveMove;
      MarkerEffects(s, p, s.procs[p].call, s.procs[p].pc, o);
    } else {
      hide MoveOf, Local;
    }
  }

  lemma AllBackedAct(s: State, p: Pid, o: Oracle)
    requires AllLocal(s) && AllBacked(s) && p in s.procs
    ensures AllBacked(Apply(s, p, MoveOf(s, p, o)))
  {
    var m := MoveOf(s, p, o);
    var t := Apply(s, p, m);
    hide Decide, Local, Carried, Classify, IsBacking, FilesAfter, LockAfter, LogAfter, MarkerAfter;
    forall r | r in t.procs && Carried(t.procs[r].pc).Some? ensures Backed(t, Carried(t.procs[r].pc).value) {
      var q := Backer(s, p, o, r);
      BackingStays(s, p, o, q, Carried(t.procs[r].pc).value);
    }
  }

  /** Whose marker stands behind the identity a call carries after a step. */
  lemma Backer(s: State, p: Pid, o: Oracle, r: Pid) returns (q: Pid)
    requires AllLocal(s) && AllBacked(s) && p in s.procs && r in s.procs
    requires Carried(Apply(s, p, MoveOf(s, p, o)).procs[r].pc).Some?
    ensures IsBacking(s, q, Carried(Apply(s, p, MoveOf(s, p, o)).procs[r].pc).value)
  {
    hide Decide, Classify, Truthful, Fits;
    var pc' := Apply(s, p, MoveOf(s, p, o)).procs[r].pc;
    MovesCarry(s, p, s.procs[p].call, s.procs[p].pc, o);
    if Carried(s.procs[r].pc) == Carried(pc') {
      q :| IsBacking(s, q, Carried(pc').value);
    } else if s.procs[r].pc == Working(RegRecapture) {
      assert LocalAt(s, r);
      q := r;
    } else {
      ReadIsClassified(s);
      q := s.marker.value;
    }
  }

  lemma AllBackedProcs(s: State, p: Pid, proc: Proc)
    requires AllBacked(s)
    requires if p in s.procs then proc == s.procs[p].(alive := false) else proc.pc.Start?
    ensures AllBacked(s.(procs := s.procs[p := proc]))
  {
    hide Accepted, MarkerBytes;
    var t := s.(procs := s.procs[p := proc]);
    forall r | r in t.procs && Carried(t.procs[r].pc).Some? ensures Backed(t, Carried(t.procs[r].pc).value) {
      assert r in s.procs && Carried(s.procs[r].pc) == Carried(t.procs[r].pc);
      var q :| IsBacking(s, q, Carried(s.procs[r].pc).value);
      assert IsBacking(t, q, Carried(t.procs[r].pc).value);
    }
  }

  lemma AllBackedStep(s: State, a: Action)
    requires AllLocal(s) && AllBacked(s)
    ensures AllBacked(Next(s, a))
  {
    hide MoveOf, Apply, AllLocal, AllBacked, WellFormed;
    match a.step
    case Take(o) =>
      if Live(s, a.pid) {
        AllBackedAct(s, a.pid, o);
      }
    case Begin(call) =>
      if a.pid !in s.procs {
        AllBackedProcs(s, a.pid, Proc(call, Start, true, false, false, false, false));
      }
    case Die =>
      if a.pid in s.procs {
        AllBackedProcs(s, a.pid, s.procs[a.pid].(alive := false));
      }
  }

  /** In every run, the identity in any returned result, linked-existing included, is that of a
      confirmed draft whose marker was written completely. */
  lemma {:induction false} ReportedIdentities(parent: bool, actions: seq<Action>)
    ensures AllBacked(Run(Initial(parent), actions))
    decreases |actions|
  {
    if actions != [] {
      var k := |actions| - 1;
      ReportedIdentities(parent, actions[..k]);
      AlwaysLocal(parent, actions[..k]);
      AllBackedStep(Run(Initial(parent), actions[..k]), actions[k]);
    }
  }
}
