/** Runs of the machine that show where the natural claim about the program is false. */
module JobControlWitnesses {
  import opened Jobs
  import opened JobControl
  import opened JobControlTheorems
  import opened JobControlRuns
  import opened JobControlResult
  import opened JobControlStops

  // ------------------------------------------------------------ phases of the runs

  const TERMLESS := Env(false, 1, false)   // no terminal, group 1, SIGCHLD not blocked at start

  predicate EmptySlots(t: Table) {
    |t.slots| == MAX_JOBS && t.nextId == 1 && forall i :: 0 <= i < MAX_JOBS ==> !t.slots[i].inUse
  }

  predicate AtPrompt(w: World) {
    w.pc.Read? && w.handler.Idle? && !w.k.blocked && !w.k.pending && w.env == TERMLESS
  }

  lemma ToPrompt(w0: World) returns (w: World)
    requires w0.pc.Top? && w0.handler.Idle? && !w0.k.blocked && w0.env == TERMLESS && |w0.table.slots| == MAX_JOBS
    ensures Leads(w0, w)
    ensures w.pc.Read? && w.handler.Idle? && w.env == w0.env && w.k == w0.k && w.past == w0.past
    ensures w.table == w0.table.(slots := DoneCleared(w0.table.slots))
  {
    var w1 := Apply(w0, Step);
    var w2 := Apply(w1, Step);
    w := Apply(w2, Step);
    LeadsSelf(w0);
    LeadsStep(w0, w0, Step);
    LeadsStep(w0, w1, Step);
    LeadsStep(w0, w2, Step);
  }

  lemma IdlePrompt() returns (w: World)
    ensures Reachable(w) && AtPrompt(w) && w.k.procs == map[] && EmptySlots(w.table)
  {
    var w0 := Installed(false, 1, 1, false, 1);
    w := ToPrompt(w0);
    assert Reachable(w0) by {
      assert Runs(w0, []) && w0 == After(w0, []);
    }
    LeadsReachable(w0, w);
  }

  const STAGE := Proc(10, 10, false, false, Alive)   // a running stage, placed in group 10

  lemma PlaceFirst(w: World, background: bool) returns (v: World)
    requires w.pc == Spawn(background, 2, "", [10], false) && w.handler.Idle?
    requires w.k.procs == map[10 := Proc(1, 10, false, false, Alive)]
    ensures Leads(w, v) && v == w.(k := w.k.(procs := map[10 := STAGE]), pc := Spawn(background, 2, "", [10], true))
  {
    v := Apply(w, Step);
    LeadsSelf(w);
    LeadsStep(w, w, Step);
  }

  lemma ForkFirst(w: World, background: bool) returns (v: World)
    requires w.pc == Spawn(background, 2, "", [], true) && w.handler.Idle? && w.env == TERMLESS
    requires w.k.procs == map[] && EmptySlots(w.table)
    ensures Leads(w, v) && v == w.(k := v.k, pc := v.pc, past := v.past) && v.k == w.k.(procs := map[10 := STAGE])
    ensures v.pc == Spawn(background, 2, "", [10], true)
  {
    var u := Apply(w, Fork(10));
    assert u.pc.pids == [10];
    LeadsSelf(w);
    LeadsStep(w, w, Fork(10));
    v := PlaceFirst(u, background);
    LeadsOn(w, u, v);
  }

  lemma LaunchFirst(w: World, background: bool) returns (v: World)
    requires AtPrompt(w) && w.k.procs == map[] && EmptySlots(w.table)
    ensures Leads(w, v)
    ensures v.handler.Idle? && v.k.blocked && !v.k.pending && !v.saved && v.env == TERMLESS
    ensures v.pc == Spawn(background, 2, "", [10], true)
    ensures v.k.procs == map[10 := STAGE] && v.table == w.table
  {
    var w1 := Apply(w, Take(Launch(background, 2, "")));
    var u := Apply(w1, Step);
    LeadsSelf(w);
    LeadsStep(w, w, Take(Launch(background, 2, "")));
    LeadsStep(w, w1, Step);
    v := ForkFirst(u, background);
    LeadsOn(w, u, v);
  }

  lemma ForkSecond(w: World, background: bool) returns (v: World)
    requires w.handler.Idle? && w.k.procs == map[10 := STAGE] && EmptySlots(w.table) && w.env == TERMLESS
    requires w.pc == Spawn(background, 2, "", [10], true)
    ensures Leads(w, v)
    ensures v == w.(k := w.k.(procs := map[10 := STAGE, 11 := STAGE]), pc := Spawn(background, 2, "", [10, 11], true))
  {
    var w1 := Apply(w, Fork(11));
    assert w1.pc.pids == [10, 11];
    assert w1.k.procs == map[10 := STAGE, 11 := Proc(1, 10, false, false, Alive)];
    assert GroupExists(w1.k.procs, 10) by { assert w1.k.procs[10].group == 10; }
    v := Apply(w1, Step);
    assert v.k.procs == map[10 := STAGE, 11 := STAGE];
    LeadsSelf(w);
    LeadsStep(w, w, Fork(11));
    LeadsStep(w, w1, Step);
  }

  lemma LaunchSecond(w: World, background: bool) returns (v: World)
    requires w.handler.Idle? && w.k.procs == map[10 := STAGE] && EmptySlots(w.table) && w.env == TERMLESS
    requires w.pc == Spawn(background, 2, "", [10], true)
    ensures Leads(w, v)
    ensures v == w.(k := v.k, pc := v.pc) && v.k == w.k.(procs := v.k.procs)
    ensures v.pc == if background then Record([10, 11], "") else GiveTty([10, 11], "")
    ensures v.k.procs == map[10 := STAGE, 11 := STAGE]
  {
    var u := ForkSecond(w, background);
    v := Apply(u, Step);
    LeadsSelf(u);
    LeadsStep(u, u, Step);
    LeadsOn(w, u, v);
  }

  // Two stages, 10 and 11, forked and placed in group 10.
  lemma LaunchTwo(w: World, background: bool) returns (v: World)
    requires AtPrompt(w) && w.k.procs == map[] && EmptySlots(w.table)
    ensures Leads(w, v)
    ensures v.handler.Idle? && v.k.blocked && !v.k.pending && !v.saved && v.env == TERMLESS
    ensures v.pc == if background then Record([10, 11], "") else GiveTty([10, 11], "")
    ensures v.k.procs == map[10 := STAGE, 11 := STAGE] && v.table == w.table
  {
    var u := LaunchFirst(w, background);
    v := LaunchSecond(u, background);
    LeadsOn(w, u, v);
  }

  lemma EnterWait(w: World) returns (v: World)
    requires w.pc == GiveTty([10, 11], "") && w.handler.Idle? && w.env == TERMLESS && w.k.procs == map[10 := STAGE, 11 := STAGE]
    ensures Leads(w, v) && v == w.(pc := Wait(10, "", {10, 11}, []))
  {
    v := Apply(w, Step);
    assert Members(w.k.procs, 10) == {10, 11};
    LeadsSelf(w);
    LeadsStep(w, w, Step);
  }

  // The two stages of a foreground pipeline, waited for.
  lemma WaitForTwo() returns (w: World)
    ensures Reachable(w) && w.handler.Idle? && w.k.blocked && !w.saved && w.env == TERMLESS
    ensures w.pc == Wait(10, "", {10, 11}, []) && w.k.procs == map[10 := STAGE, 11 := STAGE] && EmptySlots(w.table)
  {
    var w0 := IdlePrompt();
    var w1 := LaunchTwo(w0, false);
    LeadsReachable(w0, w1);
    w := EnterWait(w1);
    LeadsReachable(w1, w);
  }

  // ------------------------------------------------------------ the result of a pipeline

  /** w0 is about to wait for stages 10 and 11, the last being 11; w is where that wait ends. */
  ghost predicate ResultDiffers(w0: World, w: World) {
    && Reachable(w0) && w0.pc == GiveTty([10, 11], "") && Enabled(w0, Step)
    && Waits(Apply(w0, Step), w) && Enabled(w, Step)
    && w.pc == Wait(10, "", {10, 11}, [Reaped(11, Exited(0)), Reaped(10, Exited(1))])
    && Apply(w, Step).pc == TakeTty(1)
  }

  lemma WaitKeepsItsGroup(w0: World, w: World)
    requires w0.pc.GiveTty? && ShellEnabled(w0, Step) && Waits(Apply(w0, Step), w)
    ensures w.pc.Wait? && w.pc == Apply(w0, Step).pc.(reaped := w.pc.reaped)
  {
    var u := Apply(w0, Step);
    var acts :| Runs(u, acts) && KeepsWaiting(u, acts) && After(u, acts) == w;
    WaitAccumulates(u, acts);
  }

  /** A foreground pipeline's result need not be its last stage's status: here stage 11, the
      last, exits 0 and is collected first; stage 10 exits 1 later; the result is 1. */
  lemma ResultIsNotAlwaysTheLastStages()
    ensures exists w0, w :: ResultDiffers(w0, w)
  {
    var prompt := IdlePrompt();
    var w0 := LaunchTwo(prompt, false);
    LeadsReachable(prompt, w0);
    var entered := EnterWait(w0);
    var w := CollectAll(w0, 0, Exited(1), Exited(0));
    assert Last([10, 11], 0) == [11, 10];
    assert w.pc.reaped == [Reaped(11, Exited(0)), Reaped(10, Exited(1))];
    WaitKeepsItsGroup(w0, w);
    assert ResultDiffers(w0, w);
  }

  // ------------------------------------------------------------ Done, then Stopped

  // Slot 0 is Done although stage 11 lives, and the enabled action makes it Stopped.
  ghost predicate DoneTurnsStopped(w: World, a: Action) {
    && Reachable(w) && Enabled(w, a)
    && 0 < |w.table.slots| && 0 < |Apply(w, a).table.slots|
    && w.table.slots[0].inUse && w.table.slots[0].state == Done && Members(w.k.procs, w.table.slots[0].pid) == {11}
    && Apply(w, a).table.slots[0] == w.table.slots[0].(state := Stopped)
  }

  lemma RecordJob(w: World) returns (v: World)
    requires w.pc == Record([10, 11], "") && w.handler.Idle? && !w.saved && w.env == TERMLESS && EmptySlots(w.table)
    ensures Leads(w, v) && v.pc.Top? && v.handler.Idle? && v.env == TERMLESS
    ensures v.k == w.k.(blocked := false)
    ensures |v.table.slots| == MAX_JOBS && v.table.slots[0] == Job(10, 1, Running, Exited(0), true, "")
  {
    assert First(w.table.slots, FreeSlot) == 0;
    var w1 := Apply(w, Step);
    v := Apply(w1, Step);
    LeadsSelf(w);
    LeadsStep(w, w, Step);
    LeadsStep(w, w1, Step);
  }

  lemma LeaderReaped(w: World) returns (v: World)
    requires AtPrompt(w) && w.k.procs == map[10 := STAGE, 11 := STAGE]
    ensures Leads(w, v) && v.k == Kernel(map[11 := STAGE], false, true, w.k.tty)
    ensures v == w.(k := v.k, handler := Marking(10, Exited(0)))
  {
    var w1 := Apply(w, Die(10, Exited(0)));
    var w2 := Apply(w1, Deliver);
    v := Apply(w2, DrainReap(10));
    assert v.k.procs == map[11 := STAGE];
    LeadsSelf(w);
    LeadsStep(w, w, Die(10, Exited(0)));
    LeadsStep(w, w1, Deliver);
    LeadsStep(w, w2, DrainReap(10));
  }

  lemma LeaderMarked(w: World) returns (v: World)
    requires w.handler == Marking(10, Exited(0)) && w.k == Kernel(map[11 := STAGE], false, true, w.k.tty)
    requires |w.table.slots| == MAX_JOBS && w.table.slots[0] == Job(10, 1, Running, Exited(0), true, "")
    ensures Leads(w, v) && v == w.(k := w.k.(blocked := false), table := v.table, handler := Idle)
    ensures |v.table.slots| == MAX_JOBS && v.table.slots[0] == Job(10, 1, Done, Exited(0), true, "")
  {
    assert First(w.table.slots, RunningPid(10)) == 0;
    var w1 := Apply(w, DrainMark);
    assert Zombies(w1.k.procs) == {};
    v := Apply(w1, DrainReturn);
    LeadsSelf(w);
    LeadsStep(w, w, DrainMark);
    LeadsStep(w, w1, DrainReturn);
  }

  lemma LeaderDies(w: World) returns (v: World)
    requires AtPrompt(w) && w.k.procs == map[10 := STAGE, 11 := STAGE]
    requires |w.table.slots| == MAX_JOBS && w.table.slots[0] == Job(10, 1, Running, Exited(0), true, "")
    ensures Leads(w, v) && AtPrompt(v) && v.k.procs == map[11 := STAGE]
    ensures |v.table.slots| == MAX_JOBS && v.table.slots[0] == Job(10, 1, Done, Exited(0), true, "")
  {
    var u := LeaderReaped(w);
    v := LeaderMarked(u);
    LeadsOn(w, u, v);
  }

  lemma FgThenStop(w: World) returns (v: World)
    requires Reachable(w) && AtPrompt(w) && w.k.procs == map[11 := STAGE]
    requires |w.table.slots| == MAX_JOBS && w.table.slots[0] == Job(10, 1, Done, Exited(0), true, "")
    ensures Leads(w, v) && Enabled(v, WaitStop(11)) && v.table == w.table && Members(v.k.procs, 10) == {11}
    ensures 0 < |Apply(v, WaitStop(11)).table.slots|
    ensures Apply(v, WaitStop(11)).table.slots[0] == w.table.slots[0].(state := Stopped)
  {
    ReachableInv(w);
    assert Members(w.k.procs, 10) == {11};
    var found := FgFinds(w, 0, 1);
    var waiting := FgWaits(found, 0);
    v := MemberStops(waiting, 11);
    LeadsOn(w, found, waiting);
    LeadsOn(w, waiting, v);
    StopIsMarked(v, 11, 0, 1);
  }

  lemma DoneFromRecord(w2: World)
    requires Reachable(w2) && w2.pc.Top? && w2.handler.Idle? && !w2.k.blocked && !w2.k.pending && w2.env == TERMLESS
    requires w2.k.procs == map[10 := STAGE, 11 := STAGE]
    requires |w2.table.slots| == MAX_JOBS && w2.table.slots[0] == Job(10, 1, Running, Exited(0), true, "")
    ensures exists w, a :: DoneTurnsStopped(w, a)
  {
    var w3 := ToPrompt(w2);
    LeadsReachable(w2, w3);
    var w4 := LeaderDies(w3);
    LeadsReachable(w3, w4);
    var w5 := FgThenStop(w4);
    LeadsReachable(w4, w5);
    assert DoneTurnsStopped(w5, WaitStop(11));
  }

  /** A background pipeline is marked Done as soon as its leader dies, later stages alive or
      not; and fg can then turn that Done entry into a Stopped one. */
  lemma DonePipelineCanTurnStopped()
    ensures exists w, a :: DoneTurnsStopped(w, a)
  {
    var w0 := IdlePrompt();
    var w1 := LaunchTwo(w0, true);
    LeadsReachable(w0, w1);
    var w2 := RecordJob(w1);
    LeadsReachable(w1, w2);
    DoneFromRecord(w2);
  }

  // ------------------------------------------------------------ Running for ever

  // In state w slot i is a Running job, away from the foreground path, whose leader is gone.
  ghost predicate StuckRunning(w: World, i: nat, id: int) {
    && Reachable(w) && Live(w, i, id) && NotInForeground(w, i, id)
    && w.table.slots[i].state == Running && !LeaderPending(w, i)
  }

  lemma StopRecorded(w: World) returns (v: World)
    requires w.pc.Wait? && w.pc.pgid == 10 && w.pc.text == "" && w.handler.Idle?
    requires w.k.procs == map[11 := STAGE] && EmptySlots(w.table)
    ensures Leads(w, v) && v == w.(k := v.k, pc := TakeTty(148), table := v.table, log := v.log, past := v.past) && 10 !in v.k.procs
    ensures |v.table.slots| == MAX_JOBS && v.table.slots[0] == Job(10, 1, Stopped, Exited(0), true, "")
  {
    var w1 := Apply(w, Halt(11, 20));
    assert First(w.table.slots, FreeSlot) == 0;
    assert First(w.table.slots, ByPid(10)) == MAX_JOBS;
    v := Apply(w1, WaitStop(11));
    LeadsSelf(w);
    LeadsStep(w, w, Halt(11, 20));
    LeadsStep(w, w1, WaitStop(11));
  }

  lemma StopUntracked(w: World) returns (v: World)
    requires w.pc.Wait? && w.pc.pgid == 10 && w.pc.text == "" && w.handler.Idle? && !w.saved && w.env == TERMLESS
    requires w.k.procs == map[11 := STAGE] && EmptySlots(w.table)
    ensures Leads(w, v) && v.pc.Top? && v.handler.Idle? && !v.k.blocked && v.env == TERMLESS && 10 !in v.k.procs
    ensures |v.table.slots| == MAX_JOBS && v.table.slots[0] == Job(10, 1, Stopped, Exited(0), true, "")
  {
    var u := StopRecorded(w);
    var w1 := Apply(u, Step);
    v := Apply(w1, Step);
    LeadsSelf(u);
    LeadsStep(u, u, Step);
    LeadsStep(u, w1, Step);
    LeadsOn(w, u, v);
  }

  // A running member of the group dies and is collected.
  lemma CollectOne(w: World, p: Pid, status: WaitStatus, left: map<Pid, Proc>) returns (v: World)
    requires w.pc.Wait? && w.handler.Idle? && p in w.k.procs && w.k.procs[p] == STAGE && w.pc.pgid == 10
    requires left == w.k.procs - {p}
    ensures Leads(w, v) && v.k == w.k.(procs := left, pending := true)
    ensures v == w.(k := v.k, pc := w.pc.(reaped := w.pc.reaped + [Reaped(p, status)]))
  {
    var w1 := Apply(w, Die(p, status));
    v := Apply(w1, WaitReap(p));
    assert v.k.procs == left;
    LeadsSelf(w);
    LeadsStep(w, w, Die(p, status));
    LeadsStep(w, w1, WaitReap(p));
  }

  lemma LeaderCollectedThenStop(w: World) returns (v: World)
    requires w.pc == Wait(10, "", {10, 11}, []) && w.handler.Idle? && !w.saved && w.env == TERMLESS
    requires w.k.procs == map[10 := STAGE, 11 := STAGE] && EmptySlots(w.table)
    ensures Leads(w, v) && v.pc.Top? && v.handler.Idle? && !v.k.blocked && v.env == TERMLESS && 10 !in v.k.procs
    ensures |v.table.slots| == MAX_JOBS && v.table.slots[0] == Job(10, 1, Stopped, Exited(0), true, "")
  {
    var u := CollectOne(w, 10, Exited(0), map[11 := STAGE]);
    v := StopUntracked(u);
    LeadsOn(w, u, v);
  }

  lemma BgBegins(w: World) returns (v: World)
    requires w.pc.Read? && w.handler.Idle?
    ensures Leads(w, v) && v.pc == BgLook(1) && v.handler.Idle? && v.k.procs == w.k.procs && v.table == w.table
  {
    var begin := Apply(w, Take(Bg(1)));
    v := Apply(begin, Step);
    LeadsSelf(w);
    LeadsStep(w, w, Take(Bg(1)));
    LeadsStep(w, begin, Step);
  }

  lemma BgResumes(w: World) returns (v: World)
    requires w.pc.Read? && w.handler.Idle? && 10 !in w.k.procs
    requires |w.table.slots| == MAX_JOBS && w.table.slots[0] == Job(10, 1, Stopped, Exited(0), true, "")
    ensures Leads(w, v) && v.pc == BgCont(0) && v.handler.Idle? && 10 !in v.k.procs
    ensures |v.table.slots| == MAX_JOBS && v.table.slots[0] == Job(10, 1, Running, Exited(0), true, "")
  {
    var look := BgBegins(w);
    assert First(look.table.slots, ById(1)) == 0;
    v := Apply(look, Step);
    LeadsStep(w, look, Step);
  }

  lemma ResumedIsStuck(w: World)
    requires Reachable(w) && w.pc == BgCont(0) && w.handler.Idle? && 10 !in w.k.procs
    requires |w.table.slots| == MAX_JOBS && w.table.slots[0] == Job(10, 1, Running, Exited(0), true, "")
    ensures StuckRunning(w, 0, 1)
  {
  }

  /** A pipeline stopped after its leader was collected, then resumed by bg, is Running with a
      leader that is gone: by WhichBackgroundJobsComplete it is never marked Done. */
  lemma ResumedPipelineCanStayRunningForEver()
    ensures exists w, i: nat, id :: StuckRunning(w, i, id)
  {
    var w0 := WaitForTwo();
    var w1 := LeaderCollectedThenStop(w0);
    LeadsReachable(w0, w1);
    var w2 := ToPrompt(w1);
    LeadsReachable(w1, w2);
    var w3 := BgResumes(w2);
    LeadsReachable(w2, w3);
    ResumedIsStuck(w3);
  }
}
