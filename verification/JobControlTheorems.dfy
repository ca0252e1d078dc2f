/** What the job-control protocol guarantees, in every state and along every run. */
module JobControlTheorems {
  import opened Jobs
  import opened Limits
  import opened JobControl
  import opened JobControlInvariant
  import opened JobControlShell

  /** Some run from some installation of the handlers ends in w. */
  ghost predicate Reachable(w: World) {
    exists interactive, pid, inherited, mask, tty, acts ::
      Runs(Installed(interactive, pid, inherited, mask, tty), acts) &&
      w == After(Installed(interactive, pid, inherited, mask, tty), acts)
  }

  lemma ReachableInv(w: World)
    requires Reachable(w)
    ensures Inv(w)
  {
    var interactive, pid, inherited, mask, tty, acts :|
      Runs(Installed(interactive, pid, inherited, mask, tty), acts) &&
      w == After(Installed(interactive, pid, inherited, mask, tty), acts);
    InstalledInv(interactive, pid, inherited, mask, tty);
    RunKeepsInv(Installed(interactive, pid, inherited, mask, tty), acts);
  }

  lemma {:induction false} AppendRun(w: World, acts: seq<Action>, more: seq<Action>)
    requires Runs(w, acts) && Runs(After(w, acts), more)
    ensures Runs(w, acts + more) && After(w, acts + more) == After(After(w, acts), more)
    decreases |acts|
  {
    if acts == [] {
      assert acts + more == more;
    } else {
      AppendRun(Apply(w, acts[0]), acts[1..], more);
      assert (acts + more)[1..] == acts[1..] + more;
    }
  }

  lemma ReachableFurther(w: World, more: seq<Action>)
    requires Reachable(w) && Runs(w, more)
    ensures Reachable(After(w, more))
  {
    var interactive, pid, inherited, mask, tty, acts :|
      Runs(Installed(interactive, pid, inherited, mask, tty), acts) &&
      w == After(Installed(interactive, pid, inherited, mask, tty), acts);
    AppendRun(Installed(interactive, pid, inherited, mask, tty), acts, more);
  }

  lemma OneStep(w: World, a: Action)
    requires Enabled(w, a)
    ensures Runs(w, [a]) && After(w, [a]) == Apply(w, a)
  {
    var acts := [a];
    assert acts[0] == a && acts[1..] == [];
    assert Runs(Apply(w, a), acts[1..]) && After(Apply(w, a), acts[1..]) == Apply(w, a);
    assert Runs(w, acts);
    assert After(w, acts) == Apply(w, a);
  }

  lemma ReachableStep(w: World, a: Action)
    requires Reachable(w) && Enabled(w, a)
    ensures Reachable(Apply(w, a))
  {
    OneStep(w, a);
    ReachableFurther(w, [a]);
  }

  // v is where some run from w ends.
  ghost predicate Leads(w: World, v: World) {
    exists acts :: Runs(w, acts) && After(w, acts) == v
  }

  lemma LeadsSelf(w: World)
    ensures Leads(w, w)
  {
    assert Runs(w, []) && After(w, []) == w;
  }

  lemma LeadsOn(u: World, v: World, w: World)
    requires Leads(u, v) && Leads(v, w)
    ensures Leads(u, w)
  {
    var acts :| Runs(u, acts) && After(u, acts) == v;
    var more :| Runs(v, more) && After(v, more) == w;
    AppendRun(u, acts, more);
  }

  lemma LeadsStep(u: World, v: World, a: Action)
    requires Leads(u, v) && Enabled(v, a)
    ensures Leads(u, Apply(v, a))
  {
    OneStep(v, a);
    LeadsOn(u, v, Apply(v, a));
  }

  lemma LeadsReachable(w: World, v: World)
    requires Reachable(w) && Leads(w, v)
    ensures Reachable(v)
  {
    var acts :| Runs(w, acts) && After(w, acts) == v;
    ReachableFurther(w, acts);
  }

  // ------------------------------------------------------------ no death is lost

  /** However many deaths one pending SIGCHLD stands for, a zombie always has either the
      pending signal or the handler's loop ahead of it. */
  lemma NoDeathLost(w: World)
    requires Reachable(w)
    ensures Zombies(w.k.procs) != {} ==> w.k.pending || !w.handler.Idle?
    ensures !w.k.blocked && !w.k.pending ==> Zombies(w.k.procs) == {}
  {
    ReachableInv(w);
  }

  predicate IsDrainAction(a: Action) {
    a.DrainReap? || a.DrainMark? || a.DrainReturn?
  }

  // Steps left to the handler when no new child dies: two per zombie, one to mark, one to return.
  function DrainBudget(w: World): nat {
    if w.handler.Idle? then 0
    else 2 * |Zombies(w.k.procs)| + (if w.handler.Marking? then 2 else 1)
  }

  /** The drain loop ends: undisturbed, it takes exactly the budget to return, with no zombie left. */
  lemma {:induction false} DrainEnds(w: World, acts: seq<Action>)
    requires Runs(w, acts) && forall i :: 0 <= i < |acts| ==> IsDrainAction(acts[i])
    ensures |acts| + DrainBudget(After(w, acts)) == DrainBudget(w)
    ensures !w.handler.Idle? && |acts| == DrainBudget(w) ==>
      After(w, acts).handler.Idle? && Zombies(After(w, acts).k.procs) == {}
    decreases |acts|
  {
    if acts != [] {
      var v := Apply(w, acts[0]);
      if acts[0].DrainReap? {
        assert Zombies(v.k.procs) == Zombies(w.k.procs) - {acts[0].p};
      }
      DrainEnds(v, acts[1..]);
      if v.handler.Idle? && acts[1..] != [] {
        assert false;
      }
    }
  }

  // ------------------------------------------------------------ background completions

  /** A job entered by the background branch and never foregrounded: its entry is Running
      exactly while its leader is unreaped, or reaped with the mark about to be made, and
      Done exactly from the mark on. Whenever the shell can look, the mark has been made. */
  lemma CompletionsExact(w: World, i: nat)
    requires Reachable(w) && i < MAX_JOBS && i < |w.table.slots|
    requires w.table.slots[i].inUse && w.table.slots[i].id !in w.past.foregrounded
    ensures w.table.slots[i].state == Running <==> w.table.slots[i].pid in w.k.procs || BeingMarked(w, w.table.slots[i].pid)
    ensures w.table.slots[i].state == Done <==> w.table.slots[i].pid !in w.k.procs && !BeingMarked(w, w.table.slots[i].pid)
    ensures w.handler.Idle? ==> (w.table.slots[i].state == Running <==> w.table.slots[i].pid in w.k.procs)
  {
    ReachableInv(w);
    assert EntryOk(w, w.table.slots[i]);
  }

  // ------------------------------------------------------------ one group per pipeline

  function Elements(pids: seq<Pid>): set<Pid> {
    set p | p in pids
  }

  lemma {:induction false} DistinctSize(pids: seq<Pid>)
    requires forall i, j :: 0 <= i < j < |pids| ==> pids[i] != pids[j]
    ensures |Elements(pids)| == |pids|
  {
    if pids == [] {
      assert Elements(pids) == {};
    } else {
      var init := pids[..|pids| - 1];
      DistinctSize(init);
      assert pids == init + [pids[|pids| - 1]];
      assert Elements(pids) == Elements(init) + {pids[|pids| - 1]};
    }
  }

  ghost predicate SpawnedStages(w: World, pids: seq<Pid>) {
    (w.pc.Record? && w.pc.pids == pids) || (w.pc.GiveTty? && w.pc.pids == pids)
  }

  /** However the parent's and the children's setpgid calls interleave, when the spawn loop
      is over the unreaped children in the new group are exactly the stages. */
  lemma PipelineFormsOneGroup(w: World, pids: seq<Pid>)
    requires Reachable(w) && SpawnedStages(w, pids)
    ensures 1 <= |pids| <= MAX_COMMANDS
    ensures forall i :: 0 <= i < |pids| ==> pids[i] in w.k.procs && w.k.procs[pids[i]].group == pids[0]
    ensures Members(w.k.procs, pids[0]) == Elements(pids) && |Elements(pids)| == |pids|
  {
    ReachableInv(w);
    forall p | p in w.k.procs ensures w.k.procs[p].group == w.k.procs[p].target {
      AllPlaced(w, p);
    }
    forall p | p in Members(w.k.procs, pids[0]) ensures p in pids {
      assert w.k.procs[p].target == pids[0];
    }
    DistinctSize(pids);
  }

  // ------------------------------------------------------------ the foreground wait owns its children

  /** Inside a blocked region the handler can neither start nor be running. */
  lemma HandlerHeldOff(w: World, a: Action)
    requires Reachable(w) && !Open(w.pc) && Enabled(w, a)
    ensures w.handler.Idle? && !IsHandlerAction(a)
  {
    ReachableInv(w);
  }

  // Every state the run passes through, the last included, is inside a wait.
  predicate KeepsWaiting(w: World, acts: seq<Action>)
    requires Runs(w, acts)
    decreases |acts|
  {
    w.pc.Wait? && (acts != [] ==> KeepsWaiting(Apply(w, acts[0]), acts[1..]))
  }

  lemma {:induction false} WaitAccumulates(w: World, acts: seq<Action>)
    requires Runs(w, acts) && KeepsWaiting(w, acts)
    ensures var v := After(w, acts);
      v.pc.Wait? && v.pc == w.pc.(reaped := v.pc.reaped) && w.pc.reaped <= v.pc.reaped
    decreases |acts|
  {
    if acts != [] {
      WaitAccumulates(Apply(w, acts[0]), acts[1..]);
    }
  }

  function ReapedPids(reaped: seq<Reaped>): seq<Pid> {
    seq(|reaped|, i requires 0 <= i < |reaped| => reaped[i].pid)
  }

  lemma RemovedUntracked(t: Table, pid: Pid)
    requires WellFormed(t)
    ensures !Tracked(Removed(t, ByPid(pid)), pid)
  {
    var u := Removed(t, ByPid(pid));
    forall i | 0 <= i < |u.slots| ensures !(u.slots[i].inUse && u.slots[i].pid == pid) {
      assert Matches(ByPid(pid), t.slots[i]) <==> t.slots[i].inUse && t.slots[i].pid == pid;
    }
  }

  /** When waitpid reports ECHILD the wait itself has collected every member, each once; no
      entry has the group any more, and the result is the status of the member collected last. */
  lemma WaitCompletes(w: World)
    requires Reachable(w) && w.pc.Wait? && Enabled(w, Step)
    ensures Elements(ReapedPids(w.pc.reaped)) == w.pc.members
    ensures |w.pc.reaped| == |w.pc.members|
    ensures Apply(w, Step).pc == TakeTty(LastCode(w.pc.reaped))
    ensures !Tracked(Apply(w, Step).table, w.pc.pgid)
  {
    ReachableInv(w);
    var pids := ReapedPids(w.pc.reaped);
    forall p | p in w.pc.members ensures p in pids {
      assert p !in Members(w.k.procs, w.pc.pgid);
      var j :| 0 <= j < |w.pc.reaped| && w.pc.reaped[j].pid == p;
      assert pids[j] == p;
    }
    DistinctSize(pids);
    RemovedUntracked(w.table, w.pc.pgid);
  }

  // The wait starts with all stages as its members and nothing collected.
  lemma WaitBegins(w: World)
    requires Reachable(w) && w.pc.GiveTty? && Enabled(w, Step)
    ensures Apply(w, Step).pc == Wait(w.pc.pids[0], w.pc.text, Elements(w.pc.pids), [])
    ensures |Elements(w.pc.pids)| == |w.pc.pids| > 0
  {
    PipelineFormsOneGroup(w, w.pc.pids);
  }

  lemma WaitOver(v: World, pids: seq<Pid>)
    requires Reachable(v) && v.pc.Wait? && Enabled(v, Step) && pids != []
    requires v.pc.members == Elements(pids) && |Elements(pids)| == |pids| && v.pc.pgid == pids[0]
    ensures |v.pc.reaped| == |pids| && Elements(ReapedPids(v.pc.reaped)) == Elements(pids)
    ensures Apply(v, Step).pc == TakeTty(StatusToCode(v.pc.reaped[|pids| - 1].status))
    ensures |pids| == 1 ==> v.pc.reaped[0].pid == pids[0]
    ensures !Tracked(Apply(v, Step).table, pids[0])
  {
    WaitCompletes(v);
    if |pids| == 1 {
      assert ReapedPids(v.pc.reaped)[0] in Elements(pids);
    }
  }

  /** A foreground pipeline from the end of its spawn loop to the end of its wait, with
      anything the kernel may do in between: the wait collects exactly the stages, each once,
      and yields the status of the stage collected last. Hence a single command's own status,
      and the last stage's whenever that stage is collected last. */
  lemma ForegroundResult(w: World, pids: seq<Pid>, acts: seq<Action>)
    requires Reachable(w) && w.pc.GiveTty? && w.pc.pids == pids && Enabled(w, Step)
    requires Runs(Apply(w, Step), acts) && KeepsWaiting(Apply(w, Step), acts)
    requires Enabled(After(Apply(w, Step), acts), Step)
    ensures var v := After(Apply(w, Step), acts);
      && v.pc.Wait? && |v.pc.reaped| == |pids| > 0 && Elements(ReapedPids(v.pc.reaped)) == Elements(pids)
      && Apply(v, Step).pc == TakeTty(StatusToCode(v.pc.reaped[|pids| - 1].status))
      && (|pids| == 1 ==> v.pc.reaped[0].pid == pids[0])
      && !Tracked(Apply(v, Step).table, pids[0])
  {
    var u := Apply(w, Step);
    WaitBegins(w);
    WaitAccumulates(u, acts);
    ReachableStep(w, Step);
    ReachableFurther(u, acts);
    WaitOver(After(u, acts), pids);
  }

  // ------------------------------------------------------------ stops

  lemma TrackedIsFound(t: Table, pid: Pid)
    ensures Tracked(t, pid) <==> First(t.slots, ByPid(pid)) < |t.slots|
  {
    if i :| 0 <= i < |t.slots| && t.slots[i].inUse && t.slots[i].pid == pid {
      assert Matches(ByPid(pid), t.slots[i]);
    }
  }

  /** A stop reported to the foreground wait leaves an entry for the group in state Stopped,
      under its old id if it had one, provided it had one or a slot was free. */
  lemma StopIsRecorded(w: World, p: Pid)
    requires Reachable(w) && Enabled(w, WaitStop(p))
    requires Tracked(w.table, w.pc.pgid) || AddedId(w.table) != -1
    ensures var t, u := w.table, Apply(w, WaitStop(p)).table;
      exists i :: 0 <= i < |u.slots| == |t.slots| && u.slots[i].inUse && u.slots[i].pid == w.pc.pgid && u.slots[i].state == Stopped && (Tracked(t, w.pc.pgid) ==> u.slots[i] == t.slots[i].(state := Stopped))
  {
    ReachableInv(w);
    var u := Apply(w, WaitStop(p)).table;
    var i := First(w.table.slots, ByPid(w.pc.pgid));
    if i < |w.table.slots| {
      assert u.slots[i] == w.table.slots[i].(state := Stopped);
    } else {
      TrackedIsFound(w.table, w.pc.pgid);
      var j := First(w.table.slots, FreeSlot);
      assert u.slots[j].inUse;
    }
  }

  // ------------------------------------------------------------ how an entry's state may change

  // Slot i names the same job in both tables, in different states.
  predicate Changed(t: Table, u: Table, i: nat) {
    && i < |t.slots| && i < |u.slots|
    && t.slots[i].inUse && u.slots[i].inUse && t.slots[i].id == u.slots[i].id
    && t.slots[i].state != u.slots[i].state
  }

  // The legal state changes, by the action that makes them.
  predicate LegalChange(w: World, a: Action, v: World, e: Job, f: Job, i: nat) {
    && f.pid == e.pid
    && (f.state == Done ==>
          e.state == Running && a == DrainMark && w.handler.Marking? && w.handler.pid == e.pid && f.status == w.handler.status)
    && (f.state == Stopped ==> a.WaitStop? && w.pc.Wait? && w.pc.pgid == e.pid)
    && (f.state == Running ==> e.state == Stopped && a == Step && (v.pc == FgCont(i) || v.pc == BgCont(i)))
  }

  lemma HandlerChanges(w: World, a: Action, i: nat)
    requires WellFormed(w.table) && HandlerEnabled(w, a) && Changed(w.table, ApplyHandler(w, a).table, i)
    ensures LegalChange(w, a, ApplyHandler(w, a), w.table.slots[i], ApplyHandler(w, a).table.slots[i], i)
  {
  }

  lemma StopChanges(w: World, p: Pid, i: nat)
    requires WellFormed(w.table) && ShellEnabled(w, WaitStop(p)) && Changed(w.table, ApplyShell(w, WaitStop(p)).table, i)
    ensures LegalChange(w, WaitStop(p), ApplyShell(w, WaitStop(p)), w.table.slots[i], ApplyShell(w, WaitStop(p)).table.slots[i], i)
  {
  }

  // Adding, freeing and clearing change no entry's state.
  lemma AddedChangesNone(t: Table, pid: Pid, text: string, state: JobState, i: nat)
    ensures !Changed(t, Added(t, pid, text, state), i)
  {
  }

  lemma FreeingChangesNone(t: Table, q: Query, i: nat)
    ensures !Changed(t, Removed(t, q), i) && !Changed(t, t.(slots := DoneCleared(t.slots)), i)
  {
  }

  lemma ResumeChanges(w: World, i: nat)
    requires WellFormed(w.table) && SlotInv(w) && ShellEnabled(w, Step) && (w.pc.FgResume? || w.pc.BgLook?)
    requires Changed(w.table, ApplyStep(w).table, i)
    ensures LegalChange(w, Step, ApplyStep(w), w.table.slots[i], ApplyStep(w).table.slots[i], i)
  {
  }

  lemma StepChanges(w: World, i: nat)
    requires WellFormed(w.table) && SlotInv(w) && ShellEnabled(w, Step)
    ensures Changed(w.table, ApplyStep(w).table, i) ==>
      LegalChange(w, Step, ApplyStep(w), w.table.slots[i], ApplyStep(w).table.slots[i], i)
  {
    if w.pc.FgResume? || w.pc.BgLook? {
      if Changed(w.table, ApplyStep(w).table, i) {
        ResumeChanges(w, i);
      }
    } else if w.pc.Record? {
      AddedChangesNone(w.table, w.pc.pids[0], w.pc.text, Running, i);
    } else if w.pc.Wait? {
      FreeingChangesNone(w.table, ByPid(w.pc.pgid), i);
    } else {
      FreeingChangesNone(w.table, FreeSlot, i);
    }
  }

  /** The only ways a live entry's state changes: Running to Done by the handler's mark of its
      leader; to Stopped by the foreground wait on its group; Stopped to Running by fg or bg,
      whose next step is SIGCONT to the group. Done turns Stopped only through fg, and only
      if some other member of the group is still unreaped. */
  lemma StateChanges(w: World, a: Action, i: nat)
    requires Reachable(w) && Enabled(w, a)
    ensures Changed(w.table, Apply(w, a).table, i) ==>
      LegalChange(w, a, Apply(w, a), w.table.slots[i], Apply(w, a).table.slots[i], i)
    ensures Changed(w.table, Apply(w, a).table, i) && w.table.slots[i].state == Done ==>
      exists p :: p in Members(w.k.procs, w.table.slots[i].pid) && p != w.table.slots[i].pid
  {
    ReachableInv(w);
    if Changed(w.table, Apply(w, a).table, i) {
      if IsHandlerAction(a) {
        HandlerChanges(w, a, i);
      } else if a.WaitStop? {
        StopChanges(w, a.p, i);
        assert EntryOk(w, w.table.slots[i]);
        assert a.p in Members(w.k.procs, w.table.slots[i].pid);
      } else if a.Step? {
        StepChanges(w, i);
      }
    }
  }

  /** For a job of one process Done is final until its slot is freed. */
  lemma DoneIsFinalForOneProcess(w: World, a: Action, i: nat)
    requires Reachable(w) && Enabled(w, a) && i < |w.table.slots|
    requires w.table.slots[i].inUse && w.table.slots[i].state == Done && w.table.slots[i].pid in w.past.solo
    ensures !Changed(w.table, Apply(w, a).table, i)
  {
    ReachableInv(w);
    if Changed(w.table, Apply(w, a).table, i) {
      StateChanges(w, a, i);
      var p :| p in Members(w.k.procs, w.table.slots[i].pid) && p != w.table.slots[i].pid;
      AllPlaced(w, p);
      assert false;
    }
  }
}
