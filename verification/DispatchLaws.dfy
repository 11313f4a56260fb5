/** What every interleaving of dispatch calls keeps. */
module DispatchLaws {
  import opened Dispatch

  predicate Live(s: State, p: Pid) {
    p in s.procs && s.procs[p].alive
  }

  function MoveOf(s: State, p: Pid, o: Oracle): Move
    requires p in s.procs
  {
    Decide(s, s.procs[p].request, s.procs[p].pc, o)
  }

  /** What a sound step does to the files. */
  predicate GoodMove(s: State, p: Pid, m: Move)
    requires p in s.procs
  {
    var r, pc := s.procs[p].request, s.procs[p].pc;
    match m.effect
    case Created => pc.Creating? && m.pc.Writing? && r.job !in s.files
    case Grown(more) =>
      && pc.Writing? && r.job in s.files && s.files[r.job].owner == p
      && s.files[r.job].content + more <= r.bytes
      && (m.pc.Writing? || (m.pc.Syncing? && s.files[r.job].content + more == r.bytes))
    case Spawned => pc.Spawning? && HasSpawned(m.pc)
    case Bound => pc.Binding? && m.pc == Finished(Dispatched)
    case Quiet =>
      || m.pc == pc
      || (m.pc.Finished? && !HasSpawned(m.pc) && !IsVerified(pc))
      || (pc.Binding? && m.pc == Finished(Dispatched))
      || (!HasCreated(pc) && !HasCreated(m.pc) && !pc.Finished? && !m.pc.Finished?)
      || (pc.Writing? && m.pc.Syncing? && r.job in s.files && s.files[r.job] == File(p, r.bytes))
      || (pc.Syncing? && m.pc.ReadingBack?)
      || (pc.ReadingBack? && m.pc.Spawning? && RecordStands(s, p))
  }

  lemma MovesAreGood(s: State, p: Pid, o: Oracle)
    requires p in s.procs && ProcFits(s, p) && (s.procs[p].request.job in s.files ==> FileFits(s, s.procs[p].request.job))
    ensures GoodMove(s, p, MoveOf(s, p, o))
  {
    var r := s.procs[p].request;
    if s.procs[p].pc.Writing? {
      var have := s.files[r.job].content;
      if |have| >= |r.bytes| {
        assert have == r.bytes;
      } else {
        assert have + r.bytes[|have|..] == r.bytes;
        assert |have| + o.count < |r.bytes| ==> have + r.bytes[|have|..|have| + o.count] == r.bytes[..|have| + o.count];
      }
    }
  }

  lemma FilesGrow(s: State, p: Pid, m: Move)
    requires Sound(s) && p in s.procs && GoodMove(s, p, m)
    ensures NoneReplaced(s, Apply(s, p, m))
    ensures var t := Apply(s, p, m); forall job :: job in t.files ==> FileFits(t, job)
  {
    var t := Apply(s, p, m);
    var r := s.procs[p].request;
    forall job | job in t.files ensures FileFits(t, job) {
      if job in s.files {
        assert FileFits(s, job);
      }
    }
    forall q | q in s.procs && RecordStands(s, q) ensures RecordStands(t, q) {
      assert m.effect.Grown? && s.procs[q].request.job == r.job ==> q == p;
      assert m.effect.Grown? && q == p ==> s.files[r.job].content + m.effect.more == s.files[r.job].content;
    }
  }

  lemma ProcsFit(s: State, p: Pid, m: Move)
    requires Sound(s) && p in s.procs && GoodMove(s, p, m)
    ensures var t := Apply(s, p, m); forall q :: q in t.procs ==> ProcFits(t, q)
  {
    var t := Apply(s, p, m);
    assert ProcFits(s, p);
    forall q | q in t.procs ensures ProcFits(t, q) {
      assert ProcFits(s, q);
      if q != p {
        OtherProcFits(s, p, m, q);
      } else {
        OwnProcFits(s, p, m);
      }
    }
  }

  lemma OtherProcFits(s: State, p: Pid, m: Move, q: Pid)
    requires Sound(s) && p in s.procs && GoodMove(s, p, m) && q in s.procs && q != p
    ensures ProcFits(Apply(s, p, m), q)
  {
    FilesGrow(s, p, m);
    assert ProcFits(s, q) && ProcFits(s, p);
    hide Sound;
    var t := Apply(s, p, m);
    assert forall x :: x in s.spawns ==> x in t.spawns;
    var job := s.procs[q].request.job;
    assert job in t.files && t.files[job].owner == q ==> job in s.files && s.files[job] == t.files[job];
    assert job in s.files && s.files[job].owner == q ==> job in t.files && t.files[job] == s.files[job];
  }

  lemma OwnProcFits(s: State, p: Pid, m: Move)
    requires Sound(s) && p in s.procs && GoodMove(s, p, m)
    ensures ProcFits(Apply(s, p, m), p)
  {
    FilesGrow(s, p, m);
    assert ProcFits(s, p);
    hide Sound;
    var t := Apply(s, p, m);
    assert forall x :: x in s.spawns ==> x in t.spawns;
    assert m.effect.Spawned? ==> t.spawns[|s.spawns|] == Spawn(s.procs[p].request.job, p);
  }

  lemma SpawnsFit(s: State, p: Pid, m: Move)
    requires Sound(s) && p in s.procs && GoodMove(s, p, m)
    ensures var t := Apply(s, p, m);
      && (forall i :: 0 <= i < |t.spawns| ==> SpawnFits(t, t.spawns[i]))
      && (forall i, j :: 0 <= i < j < |t.spawns| ==> t.spawns[i].job != t.spawns[j].job)
      && (forall job :: job in t.bindings ==> Spawn(job, t.bindings[job]) in t.spawns)
  {
    FilesGrow(s, p, m);
    assert ProcFits(s, p);
    var t := Apply(s, p, m);
    var job := s.procs[p].request.job;
    forall i | 0 <= i < |s.spawns| ensures SpawnFits(t, s.spawns[i]) && (m.effect.Spawned? ==> s.spawns[i].job != job) {
      assert SpawnFits(s, s.spawns[i]);
      assert m.effect.Spawned? ==> s.spawns[i].pid != p;
    }
    assert forall x :: x in s.spawns ==> x in t.spawns;
  }

  /** Soundness is kept by every step, and no step replaces a record. */
  lemma SoundStep(s: State, a: Action)
    requires Sound(s)
    ensures Sound(Next(s, a)) && NoneReplaced(s, Next(s, a))
  {
    if a.step.Take? && Live(s, a.pid) {
      var p, m := a.pid, MoveOf(s, a.pid, a.step.oracle);
      assert ProcFits(s, p) && (s.procs[p].request.job in s.files ==> FileFits(s, s.procs[p].request.job));
      MovesAreGood(s, p, a.step.oracle);
      hide Decide, GoodMove;
      FilesGrow(s, p, m);
      ProcsFit(s, p, m);
      SpawnsFit(s, p, m);
      hide Apply, ProcFits, FileFits, SpawnFits;
    } else {
      SoundOther(s, a);
    }
  }

  /** A call begins, or its process dies. */
  lemma SoundProcs(s: State, p: Pid, proc: Proc)
    requires Sound(s)
    requires if p in s.procs then proc == s.procs[p].(alive := false) else proc.pc.Confirming?
    ensures var t := s.(procs := s.procs[p := proc]); Sound(t) && NoneReplaced(s, t)
  {
    var t := s.(procs := s.procs[p := proc]);
    forall job | job in t.files ensures FileFits(t, job) && (p !in s.procs ==> t.files[job].owner != p) {
      assert FileFits(s, job);
    }
    forall q | q in t.procs ensures ProcFits(t, q) {
      assert q in s.procs ==> ProcFits(s, q);
    }
    forall i | 0 <= i < |t.spawns| ensures SpawnFits(t, t.spawns[i]) {
      assert SpawnFits(s, s.spawns[i]);
    }
  }

  lemma SoundOther(s: State, a: Action)
    requires Sound(s) && !(a.step.Take? && Live(s, a.pid))
    ensures Sound(Next(s, a)) && NoneReplaced(s, Next(s, a))
  {
    hide Decide, Sound, Apply;
    match a.step
    case Begin(request) =>
      if a.pid !in s.procs {
        SoundProcs(s, a.pid, Proc(request, Confirming, true));
      }
    case Die =>
      if a.pid in s.procs {
        SoundProcs(s, a.pid, s.procs[a.pid].(alive := false));
      }
    case _ =>
  }

  lemma {:induction false} AlwaysSound(actions: seq<Action>)
    ensures Sound(Run(INITIAL, actions))
    decreases |actions|
  {
    if actions != [] {
      var k := |actions| - 1;
      AlwaysSound(actions[..k]);
      SoundStep(Run(INITIAL, actions[..k]), actions[k]);
    }
  }

  /** In every interleaving, replays of one draft included: at most one spawn attempt for each job
      id, made by a call whose complete and valid record stands at the job's path; and every
      binding was made by the call that spawned. */
  lemma SpawnsAtMostOnce(actions: seq<Action>)
    ensures var s := Run(INITIAL, actions);
      && (forall i, j :: 0 <= i < j < |s.spawns| ==> s.spawns[i].job != s.spawns[j].job)
      && (forall i :: 0 <= i < |s.spawns| ==>
            && s.spawns[i].pid in s.procs && RecordStands(s, s.spawns[i].pid)
            && s.procs[s.spawns[i].pid].request.job == s.spawns[i].job)
      && (forall job :: job in s.bindings ==> Spawn(job, s.bindings[job]) in s.spawns)
  {
    AlwaysSound(actions);
    var s := Run(INITIAL, actions);
    forall i | 0 <= i < |s.spawns| ensures SpawnFits(s, s.spawns[i]) {
    }
  }

  /** Record first: when a spawn is attempted, the verified record is already there. */
  lemma RecordBeforeSpawn(actions: seq<Action>, p: Pid, o: Oracle)
    requires var s := Run(INITIAL, actions); Live(s, p) && MoveOf(s, p, o).effect.Spawned?
    ensures RecordStands(Run(INITIAL, actions), p)
    ensures var s := Run(INITIAL, actions);
      forall i :: 0 <= i < |s.spawns| ==> s.spawns[i].job != s.procs[p].request.job
  {
    AlwaysSound(actions);
    var s := Run(INITIAL, actions);
    assert ProcFits(s, p);
    forall i | 0 <= i < |s.spawns| ensures s.spawns[i].job != s.procs[p].request.job {
      assert SpawnFits(s, s.spawns[i]);
    }
  }

  /** Once there, a record keeps its creator and its bytes only grow, for the rest of the run. */
  lemma {:induction false} RecordsAreKept(before: seq<Action>, after: seq<Action>)
    ensures NoneReplaced(Run(INITIAL, before), Run(INITIAL, before + after))
    decreases |after|
  {
    if after == [] {
      assert before + after == before;
    } else {
      var k := |after| - 1;
      assert (before + after)[..|before + after| - 1] == before + after[..k];
      RecordsAreKept(before, after[..k]);
      AlwaysSound(before + after[..k]);
      SoundStep(Run(INITIAL, before + after[..k]), after[k]);
      NoneReplacedTrans(Run(INITIAL, before), Run(INITIAL, before + after[..k]), Run(INITIAL, before + after));
    }
  }

  lemma NoneReplacedTrans(a: State, b: State, c: State)
    requires NoneReplaced(a, b) && NoneReplaced(b, c)
    ensures NoneReplaced(a, c)
  {
  }

  /** Of all calls with one job id, replays included, at most one is told that it dispatched the
      job, in full or in part. */
  lemma OneDispatchPerJob(actions: seq<Action>, p: Pid, q: Pid)
    requires var s := Run(INITIAL, actions);
      && p in s.procs && q in s.procs && s.procs[p].request.job == s.procs[q].request.job
      && HasSpawned(s.procs[p].pc) && HasSpawned(s.procs[q].pc)
    ensures p == q
  {
    AlwaysSound(actions);
    var s := Run(INITIAL, actions);
    assert ProcFits(s, p) && ProcFits(s, q);
  }
}
