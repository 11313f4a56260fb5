/** What a dispatch call answers and leaves, step by step and over whole runs: nothing is written,
    spawned or bound for a call that was not accepted or whose workspace was not resolved. */
module DispatchVerdicts {
  import opened Text
  import opened Dispatch
  import opened DispatchLaws

  // ---------------------------------------------------------------- outcomes stand

  lemma {:induction false} OutcomeStands(s: State, more: seq<Action>, p: Pid)
    requires p in s.procs && s.procs[p].pc.Finished?
    ensures p in Run(s, more).procs && Run(s, more).procs[p].pc == s.procs[p].pc
    decreases |more|
  {
    hide WriteMove;
    if more != [] {
      OutcomeStands(s, more[..|more| - 1], p);
    }
  }

  function After(s: State, p: Pid, o: Oracle): State {
    Next(s, Action(p, Take(o)))
  }

  /** The step ends the call with this outcome, for good. */
  predicate Ends(s: State, p: Pid, o: Oracle, more: seq<Action>, outcome: Outcome) {
    var t := Run(After(s, p, o), more);
    p in t.procs && t.procs[p].pc == Finished(outcome)
  }

  /** The step takes the call to this one. */
  predicate GoesOn(s: State, p: Pid, o: Oracle, pc: Pc) {
    var t := After(s, p, o);
    p in t.procs && t.procs[p].pc == pc
  }

  lemma StepEnds(s: State, p: Pid, o: Oracle, more: seq<Action>)
    requires Live(s, p)
    ensures GoesOn(s, p, o, MoveOf(s, p, o).pc)
    ensures MoveOf(s, p, o).pc.Finished? ==> Ends(s, p, o, more, MoveOf(s, p, o).pc.outcome)
  {
    hide Decide;
    if MoveOf(s, p, o).pc.Finished? {
      OutcomeStands(After(s, p, o), more, p);
    }
  }

  /** The checks before anything is written. */
  lemma DraftingVerdict(s: State, p: Pid, o: Oracle, more: seq<Action>)
    requires Live(s, p)
    ensures var r := s.procs[p].request;
      match s.procs[p].pc
      case Confirming =>
        if r.confirmed && !r.accepted then Ends(s, p, o, more, Cancelled) else GoesOn(s, p, o, Resolving)
      case Resolving =>
        if o.yes && !o.fail then GoesOn(s, p, o, Drafting) else Ends(s, p, o, more, InvalidWorkspace)
      case Drafting =>
        if r.accepted || r.confirmed then GoesOn(s, p, o, Making) else Ends(s, p, o, more, StoppedByDraft)
      case _ => true
  {
    StepEnds(s, p, o, more);
    hide Ends, GoesOn, WriteMove;
  }

  /** The create-only write of the record and its read-back. */
  lemma RecordVerdict(s: State, p: Pid, o: Oracle, more: seq<Action>)
    requires Live(s, p)
    ensures var r := s.procs[p].request;
      match s.procs[p].pc
      case Making => if o.fail then Ends(s, p, o, more, Raised) else GoesOn(s, p, o, Creating)
      case Creating =>
        if |r.bytes| > 262144 then Ends(s, p, o, more, StoppedByRecord(WriteFailed))
        else if r.job in s.files then Ends(s, p, o, more, StoppedByRecord(Collision))
        else if o.fail then Ends(s, p, o, more, StoppedByRecord(WriteFailed))
        else GoesOn(s, p, o, Writing)
      case Syncing => if o.fail then Ends(s, p, o, more, Raised) else GoesOn(s, p, o, ReadingBack)
      case ReadingBack =>
        if !o.fail && r.valid && r.job in s.files && s.files[r.job].content == r.bytes then GoesOn(s, p, o, Spawning)
        else Ends(s, p, o, more, StoppedByRecord(WrittenUnverified))
      case _ => true
  {
    StepEnds(s, p, o, more);
    hide Ends, GoesOn, WriteMove;
  }

  /** The short writes. */
  lemma WritingVerdict(s: State, p: Pid, o: Oracle, more: seq<Action>)
    requires Live(s, p) && s.procs[p].pc.Writing? && s.procs[p].request.job in s.files
    ensures var have, all := |s.files[s.procs[p].request.job].content|, |s.procs[p].request.bytes|;
      if o.fail then Ends(s, p, o, more, Raised)
      else if have < all && o.count == 0 then Ends(s, p, o, more, StoppedByRecord(WriteFailed))
      else GoesOn(s, p, o, if have + o.count < all then Writing else Syncing)
  {
    StepEnds(s, p, o, more);
    hide Ends, GoesOn;
  }

  /** A spawn that fails is a partial success; a binding that fails changes nothing in the answer. */
  lemma SpawnVerdict(s: State, p: Pid, o: Oracle, more: seq<Action>)
    requires Live(s, p)
    ensures match s.procs[p].pc
      case Spawning => if o.yes then GoesOn(s, p, o, Binding) else Ends(s, p, o, more, PartialSuccess)
      case Binding => Ends(s, p, o, more, Dispatched)
      case _ => true
  {
    StepEnds(s, p, o, more);
    hide Ends, GoesOn, WriteMove;
  }

  // ---------------------------------------------------------------- effects

  /** What a step does to the records, the spawn attempts and the bindings. */
  lemma EffectVerdict(s: State, p: Pid, o: Oracle)
    requires Live(s, p) && ProcFits(s, p)
    requires s.procs[p].request.job in s.files ==> FileFits(s, s.procs[p].request.job)
    ensures var t, r, pc := After(s, p, o), s.procs[p].request, s.procs[p].pc;
      && t.spawns == (if pc.Spawning? then s.spawns + [Spawn(r.job, p)] else s.spawns)
      && t.bindings == (if pc.Binding? && !o.fail then s.bindings[r.job := p] else s.bindings)
      && (pc.Creating? && |r.bytes| <= 262144 && r.job !in s.files && !o.fail ==>
            t.files == s.files[r.job := File(p, [])])
      && (pc.Creating? && (|r.bytes| > 262144 || r.job in s.files || o.fail) ==> t.files == s.files)
      && (!pc.Creating? && !pc.Writing? ==> t.files == s.files)
      && (pc.Writing? ==> t.files == s.files[r.job := File(p, WrittenAfter(s.files[r.job].content, r.bytes, o))])
  {
    var r, pc := s.procs[p].request, s.procs[p].pc;
    if pc.Writing? {
      var have := s.files[r.job].content;
      assert s.files[r.job] == File(p, have) && have == r.bytes[..|have|];
      assert s.files == s.files[r.job := File(p, have)];
      hide ProcFits, FileFits;
      if |have| < |r.bytes| && |have| + o.count < |r.bytes| {
        assert have + r.bytes[|have|..|have| + o.count] == r.bytes[..|have| + o.count];
      } else {
        assert have + r.bytes[|have|..] == r.bytes;
        assert |have| == |r.bytes| ==> r.bytes[..|have|] == r.bytes;
      }
    }
  }

  /** The record after one more write: as much of it as was taken, in order. */
  function WrittenAfter(have: Bytes, bytes: Bytes, o: Oracle): Bytes {
    if o.fail then have else if |have| + o.count < |bytes| then bytes[..|have| + o.count] else bytes
  }

  // ---------------------------------------------------------------- consent

  /** How far a call may have come. */
  predicate Consented(r: Request, pc: Pc) {
    match pc
    case Confirming => true
    case Resolving => r.confirmed ==> r.accepted
    case Drafting => r.confirmed ==> r.accepted
    case Finished(Cancelled) => r.confirmed && !r.accepted
    case Finished(StoppedByDraft) => !r.confirmed && !r.accepted
    case Finished(InvalidWorkspace) => r.confirmed ==> r.accepted
    case _ => r.accepted
  }

  /** A call that ended before its record was created. */
  predicate EndedEarly(pc: Pc) {
    pc == Finished(Cancelled) || pc == Finished(StoppedByDraft) || pc == Finished(InvalidWorkspace)
    || pc == Finished(StoppedByRecord(Collision))
  }

  predicate OwnsNothing(s: State, p: Pid) {
    && (forall job :: job in s.files ==> s.files[job].owner != p)
    && (forall i :: 0 <= i < |s.spawns| ==> s.spawns[i].pid != p)
    && (forall job :: job in s.bindings ==> s.bindings[job] != p)
  }

  ghost predicate AllConsented(s: State) {
    && (forall p :: p in s.procs ==> Consented(s.procs[p].request, s.procs[p].pc))
    && (forall job :: job in s.files ==> s.files[job].owner in s.procs && !EndedEarly(s.procs[s.files[job].owner].pc))
  }

  lemma ConsentedMove(s: State, p: Pid, o: Oracle)
    requires p in s.procs && ProcFits(s, p)
    requires Consented(s.procs[p].request, s.procs[p].pc)
    requires s.procs[p].request.job in s.files && s.files[s.procs[p].request.job].owner == p ==> !EndedEarly(s.procs[p].pc)
    ensures var m := MoveOf(s, p, o);
      && Consented(s.procs[p].request, m.pc)
      && (EndedEarly(m.pc) && !EndedEarly(s.procs[p].pc) ==>
            s.procs[p].request.job in s.files ==> s.files[s.procs[p].request.job].owner != p)
      && (EndedEarly(m.pc) ==> m.effect.Quiet?)
      && (EndedEarly(s.procs[p].pc) ==> m.pc == s.procs[p].pc)
  {
    hide RecordStands;
  }

  lemma FileOwners(s: State, job: JobId)
    requires Sound(s) && job in s.files
    ensures s.files[job].owner in s.procs && s.procs[s.files[job].owner].request.job == job
  {
    assert FileFits(s, job);
  }

  lemma ConsentedTake(s: State, p: Pid, o: Oracle)
    requires Sound(s) && AllConsented(s) && Live(s, p)
    ensures AllConsented(After(s, p, o))
  {
    hide Sound, Decide, Consented, EndedEarly, ProcFits, FileFits, RecordStands;
    assert ProcFits(s, p) by { ProcIsSound(s, p); }
    ConsentedMove(s, p, o);
    forall job | job in s.files ensures s.files[job].owner in s.procs && s.procs[s.files[job].owner].request.job == job {
      FileOwners(s, job);
    }
    OwnersStay(s, p, MoveOf(s, p, o));
  }

  lemma ProcIsSound(s: State, p: Pid)
    requires Sound(s) && p in s.procs
    ensures ProcFits(s, p)
  {
  }

  lemma OwnersStay(s: State, p: Pid, m: Move)
    requires p in s.procs && Consented(s.procs[p].request, m.pc) && AllConsented(s)
    requires forall job :: job in s.files ==> s.files[job].owner in s.procs && s.procs[s.files[job].owner].request.job == job
    requires EndedEarly(m.pc) ==> m.effect.Quiet?
    requires var job := s.procs[p].request.job;
      EndedEarly(m.pc) && !EndedEarly(s.procs[p].pc) ==> job in s.files ==> s.files[job].owner != p
    requires EndedEarly(s.procs[p].pc) ==> m.pc == s.procs[p].pc
    ensures AllConsented(Apply(s, p, m))
  {
    hide Consented, EndedEarly;
    var t := Apply(s, p, m);
    forall job | job in t.files ensures t.files[job].owner in t.procs && !EndedEarly(t.procs[t.files[job].owner].pc) {
      if job in s.files {
        assert t.files[job].owner == s.files[job].owner || m.effect.Created?;
      }
    }
  }

  lemma ConsentedStep(s: State, a: Action)
    requires Sound(s) && AllConsented(s)
    ensures AllConsented(Next(s, a))
  {
    hide Sound, Decide, Apply;
    if a.step.Take? && Live(s, a.pid) {
      ConsentedTake(s, a.pid, a.step.oracle);
    } else {
      assert forall job :: job in s.files ==> s.files[job].owner in s.procs;
    }
  }

  lemma {:induction false} AlwaysConsented(actions: seq<Action>)
    ensures AllConsented(Run(INITIAL, actions))
    decreases |actions|
  {
    if actions != [] {
      var k := |actions| - 1;
      AlwaysConsented(actions[..k]);
      AlwaysSound(actions[..k]);
      hide AllConsented, Sound, Next;
      ConsentedStep(Run(INITIAL, actions[..k]), actions[k]);
    }
  }

  /** In every run a call that ended early owns no record, no spawn attempt and no binding. */
  lemma EarlyOwnsNothing(actions: seq<Action>, p: Pid)
    requires var s := Run(INITIAL, actions); p in s.procs && EndedEarly(s.procs[p].pc)
    ensures OwnsNothing(Run(INITIAL, actions), p)
  {
    AlwaysConsented(actions);
    AlwaysSound(actions);
    var s := Run(INITIAL, actions);
    forall i | 0 <= i < |s.spawns| ensures s.spawns[i].pid != p {
      assert SpawnFits(s, s.spawns[i]);
    }
  }

  /** In every run, replays included: a call that was not accepted is at its first steps or over, with
      nothing of its own. With a confirmation it is cancelled; without one it ends as stopped by its
      draft, or as invalid when the workspace was refused before. */
  lemma UnacceptedDoesNothing(actions: seq<Action>, p: Pid)
    requires var s := Run(INITIAL, actions); p in s.procs && !s.procs[p].request.accepted
    ensures var s := Run(INITIAL, actions);
      var pc := s.procs[p].pc;
      && OwnsNothing(s, p)
      && (s.procs[p].request.confirmed ==> pc == Confirming || pc == Finished(Cancelled))
      && (!s.procs[p].request.confirmed ==>
            || pc == Confirming || pc == Resolving || pc == Drafting
            || pc == Finished(StoppedByDraft) || pc == Finished(InvalidWorkspace))
  {
    AlwaysConsented(actions);
    AlwaysSound(actions);
    var s := Run(INITIAL, actions);
    assert ProcFits(s, p);
    forall i | 0 <= i < |s.spawns| ensures s.spawns[i].pid != p {
      assert SpawnFits(s, s.spawns[i]);
    }
    forall job | job in s.files ensures s.files[job].owner != p {
      assert FileFits(s, job);
    }
  }

  /** So every record, spawn attempt and binding is that of an accepted call. */
  lemma OwnersAreAccepted(actions: seq<Action>)
    ensures var s := Run(INITIAL, actions);
      && (forall job :: job in s.files ==> s.files[job].owner in s.procs && s.procs[s.files[job].owner].request.accepted)
      && (forall i :: 0 <= i < |s.spawns| ==> s.spawns[i].pid in s.procs && s.procs[s.spawns[i].pid].request.accepted)
      && (forall job :: job in s.bindings ==> s.bindings[job] in s.procs && s.procs[s.bindings[job]].request.accepted)
  {
    AlwaysConsented(actions);
    AlwaysSound(actions);
    var s := Run(INITIAL, actions);
    forall i | 0 <= i < |s.spawns| ensures s.spawns[i].pid in s.procs && s.procs[s.spawns[i].pid].request.accepted {
      assert SpawnFits(s, s.spawns[i]);
      UnacceptedFree(actions, s.spawns[i].pid);
    }
    forall job | job in s.files ensures s.files[job].owner in s.procs && s.procs[s.files[job].owner].request.accepted {
      assert FileFits(s, job);
      UnacceptedFree(actions, s.files[job].owner);
    }
    assert forall job :: job in s.bindings ==> Spawn(job, s.bindings[job]) in s.spawns;
  }

  lemma UnacceptedFree(actions: seq<Action>, p: Pid)
    requires p in Run(INITIAL, actions).procs
    ensures Run(INITIAL, actions).procs[p].request.accepted || OwnsNothing(Run(INITIAL, actions), p)
  {
    if !Run(INITIAL, actions).procs[p].request.accepted {
      UnacceptedDoesNothing(actions, p);
    }
  }

  /** A call whose workspace was not resolved ends as invalid, and has nothing of its own in any
      continuation. */
  lemma UnresolvedDoesNothing(before: seq<Action>, p: Pid, o: Oracle, more: seq<Action>)
    requires var s := Run(INITIAL, before); Live(s, p) && s.procs[p].pc == Resolving && (o.fail || !o.yes)
    ensures var s := Run(INITIAL, before + [Action(p, Take(o))] + more);
      p in s.procs && s.procs[p].pc == Finished(InvalidWorkspace) && OwnsNothing(s, p)
  {
    var step := Action(p, Take(o));
    DraftingVerdict(Run(INITIAL, before), p, o, more);
    assert (before + [step])[..|before|] == before;
    RunsJoin(before + [step], more);
    hide Run, Next, OwnsNothing;
    EarlyOwnsNothing(before + [step] + more, p);
  }

  lemma {:induction false} RunsJoin(before: seq<Action>, after: seq<Action>)
    ensures Run(INITIAL, before + after) == Run(Run(INITIAL, before), after)
    decreases |after|
  {
    if after == [] {
      assert before + after == before;
    } else {
      var k := |after| - 1;
      assert (before + after)[..|before + after| - 1] == before + after[..k];
      RunsJoin(before, after[..k]);
    }
  }
}
