/** What holds along whole runs: the prompt's discipline, progress, ids, reports, and
    which background jobs can complete. */
module JobControlRuns {
  import opened Jobs
  import opened JobControl
  import opened JobControlInvariant
  import opened JobControlShell
  import opened JobControlTheorems

  // ------------------------------------------------------------ mask, terminal and table access

  /** Whenever the shell is at its prompt, or anywhere else it is not in a critical section,
      it has its original mask (the handler's own masking aside) and, if interactive, the terminal. */
  lemma PromptDiscipline(w: World)
    requires Reachable(w) && (w.pc.Top? || w.pc.Read?)
    ensures w.handler.Idle? ==> w.k.blocked == w.env.mask
    ensures w.env.interactive ==> w.k.tty == w.env.shell
  {
    ReachableInv(w);
  }

  // The steps at which the shell reads or writes the job table.
  predicate AccessesTable(w: World, a: Action) {
    a.WaitStop? ||
    (a.Step? && (w.pc.Notify? || w.pc.Record? || w.pc.Wait? || w.pc.List? || w.pc.Clear? || w.pc.FgLook? || w.pc.FgTty?
                 || w.pc.FgResume? || w.pc.FgCont? || w.pc.BgLook? || w.pc.BgCont? || w.pc.KillLook?))
  }

  lemma StepAccess(w: World)
    requires StepEnabled(w) && ApplyStep(w).table != w.table
    ensures AccessesTable(w, Step)
  {
  }

  /** The shell touches the job table only with SIGCHLD blocked and the handler idle; the
      handler changes it only while the shell is outside every such step. */
  lemma TableAccessIsExclusive(w: World, a: Action)
    requires Reachable(w) && Enabled(w, a)
    ensures IsShellAction(a) && AccessesTable(w, a) ==> w.k.blocked && w.handler.Idle?
    ensures IsShellAction(a) && Apply(w, a).table != w.table ==> AccessesTable(w, a)
    ensures IsHandlerAction(a) ==> Open(w.pc) && !AccessesTable(w, Step)
    ensures IsKernelAction(a) ==> Apply(w, a).table == w.table
  {
    ReachableInv(w);
    if a.Step? && Apply(w, a).table != w.table {
      StepAccess(w);
    }
  }

  // ------------------------------------------------------------ every command ends

  // The shell steps left before it reads the next line, if no member of its group stops.
  function Rank(w: World): nat {
    var children := |w.k.procs.Keys|;
    match w.pc
    case Read => 0
    case NotifyEnd => 1
    case Notify => 2
    case Top => 3
    case Release(_) => 4
    case TakeTty(_) => 5
    case Wait(pgid, _, _, _) => 6 + |Members(w.k.procs, pgid)|
    case Record(_, _) => 5
    case GiveTty(_, _) => 7 + children
    case Spawn(_, n, _, pids, placed) => (if |pids| <= n then 3 * (n - |pids|) else 0) + (if placed then 0 else 1) + 8 + children
    case List => 6
    case Clear => 5
    case FgCont(_) => 7 + children
    case FgResume(_) => 8 + children
    case FgTty(_) => 9 + children
    case FgLook(_) => 10 + children
    case BgCont(_) => 5
    case BgLook(_) => 6
    case KillSend(_) => 4
    case KillRelease(_) => 5
    case KillLook(_) => 6
    case Begin(cmd) => 11 + children + (if cmd.Launch? then 3 * cmd.n else 0)
  }

  lemma MembersSize(procs: map<Pid, Proc>, g: Pid)
    ensures |Members(procs, g)| <= |procs.Keys|
  {
    assert procs.Keys == Members(procs, g) + (procs.Keys - Members(procs, g));
  }

  lemma BeginLowersRank(w: World)
    requires SpawnInv(w) && w.pc.Begin?
    ensures Rank(ApplyBegin(w)) < Rank(w)
  {
    assert ApplyBegin(w).k.procs == w.k.procs;
  }

  // Steps that leave every child's record alone and do not start a wait.
  lemma LookLowersRank(w: World)
    requires StepEnabled(w) && (w.pc.FgLook? || w.pc.FgTty? || w.pc.BgLook? || w.pc.KillLook? || w.pc.KillRelease? || w.pc.KillSend?)
    ensures Rank(ApplyStep(w)) < Rank(w)
  {
    assert ApplyStep(w).k.procs == w.k.procs;
  }

  lemma SpawnEndLowersRank(w: World)
    requires SpawnInv(w) && StepEnabled(w) && w.pc.Spawn? && w.pc.placed
    ensures Rank(ApplyStep(w)) < Rank(w)
  {
    assert ApplyStep(w).k.procs == w.k.procs;
  }

  lemma PlainStepLowersRank(w: World)
    requires StepEnabled(w)
    requires w.pc.Top? || w.pc.Notify? || w.pc.NotifyEnd? || w.pc.Record? || w.pc.Wait? || w.pc.TakeTty? || w.pc.Release? || w.pc.List? || w.pc.Clear?
    ensures Rank(ApplyStep(w)) < Rank(w)
  {
  }

  lemma StepLowersRank(w: World)
    requires SlotInv(w) && SpawnInv(w) && StepEnabled(w)
    ensures Rank(ApplyStep(w)) < Rank(w)
  {
    if w.pc.GiveTty? {
      MembersSize(w.k.procs, w.pc.pids[0]);
    } else if w.pc.FgResume? {
      MembersSize(w.k.procs, w.table.slots[w.pc.slot].pid);
    } else if w.pc.FgCont? || w.pc.BgCont? {
      var g := w.table.slots[w.pc.slot].pid;
      assert ContinueGroup(w.k.procs, g).Keys == w.k.procs.Keys;
      MembersSize(ContinueGroup(w.k.procs, g), g);
    } else if w.pc.Spawn? && !w.pc.placed {
      assert ApplyStep(w).k.procs.Keys == w.k.procs.Keys;
    } else if w.pc.Begin? {
      BeginLowersRank(w);
    } else if w.pc.Spawn? {
      SpawnEndLowersRank(w);
    } else if w.pc.FgLook? || w.pc.FgTty? || w.pc.BgLook? || w.pc.KillLook? || w.pc.KillRelease? || w.pc.KillSend? {
      LookLowersRank(w);
    } else {
      PlainStepLowersRank(w);
    }
  }

  lemma KernelKeepsRank(w: World, a: Action)
    requires Inv(w) && KernelEnabled(w, a)
    ensures Rank(ApplyKernel(w, a)) == Rank(w)
  {
    var v := ApplyKernel(w, a);
    if a.ChildSetpgid? {
      SetpgidPlaces(w, a.p);
    }
    assert v.k.procs.Keys == w.k.procs.Keys;
    if w.pc.Wait? {
      assert Members(v.k.procs, w.pc.pgid) == Members(w.k.procs, w.pc.pgid);
    }
  }

  lemma ShellLowersRank(w: World, a: Action)
    requires SlotInv(w) && SpawnInv(w) && ShellEnabled(w, a) && !a.Take?
    ensures Rank(ApplyShell(w, a)) < Rank(w)
  {
    var v := ApplyShell(w, a);
    if a.Step? {
      StepLowersRank(w);
    } else if a.WaitReap? {
      assert Members(v.k.procs, w.pc.pgid) == Members(w.k.procs, w.pc.pgid) - {a.p};
    } else if a.Fork? {
      assert v.k.procs.Keys == w.k.procs.Keys + {a.p};
    }
  }

  /** Every shell step but the reading of a command brings the next prompt closer, and nothing
      the handler or the kernel does moves it away. In a wait the measure counts the unreaped
      members. */
  lemma RankFalls(w: World, a: Action)
    requires Reachable(w) && Enabled(w, a) && !a.Take?
    ensures IsShellAction(a) ==> Rank(Apply(w, a)) < Rank(w)
    ensures !IsShellAction(a) ==> Rank(Apply(w, a)) <= Rank(w)
  {
    ReachableInv(w);
    if IsKernelAction(a) {
      KernelKeepsRank(w, a);
    } else if IsShellAction(a) {
      ShellLowersRank(w, a);
    } else if a.DrainReap? {
      assert Apply(w, a).k.procs.Keys == w.k.procs.Keys - {a.p};
    }
  }

  function ShellSteps(acts: seq<Action>): nat {
    if acts == [] then 0 else (if IsShellAction(acts[0]) then 1 else 0) + ShellSteps(acts[1..])
  }

  /** Hence between two reads the shell takes at most Rank steps, whatever interrupts it. */
  lemma {:induction false} CommandsEnd(w: World, acts: seq<Action>)
    requires Reachable(w) && Runs(w, acts) && forall i :: 0 <= i < |acts| ==> !acts[i].Take?
    ensures ShellSteps(acts) <= Rank(w)
    decreases |acts|
  {
    ReachableInv(w);
    if acts != [] {
      RankFalls(w, acts[0]);
      ReachableStep(w, acts[0]);
      CommandsEnd(Apply(w, acts[0]), acts[1..]);
    }
  }

  /** The shell is never stuck: away from its prompt, with the handler idle, it has a step to
      take, unless it waits for a group whose members all run or were already reported stopped. */
  lemma ShellIsNeverStuck(w: World)
    requires Reachable(w) && w.handler.Idle? && !w.pc.Read?
    ensures Enabled(w, Step) || Enabled(w, SpawnFail)
      || (w.pc.Wait? && exists p :: p in Members(w.k.procs, w.pc.pgid) && (Enabled(w, WaitReap(p)) || Enabled(w, WaitStop(p))))
      || (w.pc.Wait? && Members(w.k.procs, w.pc.pgid) != {} && forall p :: p in Members(w.k.procs, w.pc.pgid) ==>
            w.k.procs[p].life.Alive? || (w.k.procs[p].life.Halted? && w.k.procs[p].life.reported))
  {
    ReachableInv(w);
    if w.pc.Wait? && Members(w.k.procs, w.pc.pgid) != {} {
      forall p | p in Members(w.k.procs, w.pc.pgid) && !Enabled(w, WaitReap(p)) && !Enabled(w, WaitStop(p))
        ensures w.k.procs[p].life.Alive? || (w.k.procs[p].life.Halted? && w.k.procs[p].life.reported)
      {
      }
    }
  }

  // ------------------------------------------------------------ what a command leaves behind

  predicate ReadsNone(acts: seq<Action>) {
    forall k :: 0 <= k < |acts| ==> !acts[k].Take?
  }

  // The result is on its way to $?, or has arrived there and the next command is not read yet.
  predicate HasResult(w: World, code: int) {
    w.pc == TakeTty(code) || w.pc == Release(code) || (w.lastStatus == code && (w.pc.Top? || w.pc.Notify? || w.pc.NotifyEnd? || w.pc.Read?))
  }

  lemma StepKeepsResult(w: World, a: Action, code: int)
    requires Inv(w) && Enabled(w, a) && !a.Take? && HasResult(w, code)
    ensures HasResult(Apply(w, a), code)
  {
  }

  /** A wait's result becomes $? and stays so until the next command is read, whatever else
      happens. */
  lemma {:induction false} ResultBecomesStatus(w: World, acts: seq<Action>, code: int)
    requires Reachable(w) && HasResult(w, code) && Runs(w, acts) && ReadsNone(acts)
    ensures HasResult(After(w, acts), code)
    decreases |acts|
  {
    if acts != [] {
      ReachableInv(w);
      StepKeepsResult(w, acts[0], code);
      ReachableStep(w, acts[0]);
      ResultBecomesStatus(Apply(w, acts[0]), acts[1..], code);
    }
  }

  // $? says how a process ended: its exit code, or 128 and the signal that killed it.
  predicate Tells(z: World, status: WaitStatus) {
    match status
    case Exited(c) => z.lastStatus == c
    case Signaled(sig) => z.lastStatus == 128 + sig
  }

  lemma FinishedStatus(v: World, more: seq<Action>)
    requires Reachable(v) && v.pc.Wait? && v.pc.reaped != [] && Enabled(v, Step)
    requires Runs(Apply(v, Step), more) && ReadsNone(more)
    ensures var z := After(Apply(v, Step), more);
      z.pc.Top? || z.pc.Read? ==> Tells(z, v.pc.reaped[|v.pc.reaped| - 1].status)
  {
    WaitCompletes(v);
    ReachableStep(v, Step);
    ResultBecomesStatus(Apply(v, Step), more, LastCode(v.pc.reaped));
  }

  /** What $? is after a foreground pipeline that ran to its end, from the end of its spawn loop to
      the next prompt and through anything that happens on the way: what the stage collected last
      has ended with. */
  lemma ForegroundStatus(w: World, acts: seq<Action>, more: seq<Action>)
    requires Reachable(w) && w.pc.GiveTty? && Enabled(w, Step)
    requires Runs(Apply(w, Step), acts) && KeepsWaiting(Apply(w, Step), acts)
    requires Enabled(After(Apply(w, Step), acts), Step)
    requires Runs(Apply(After(Apply(w, Step), acts), Step), more) && ReadsNone(more)
    ensures var v := After(Apply(w, Step), acts); var z := After(Apply(v, Step), more);
      && v.pc.Wait? && v.pc.reaped != []
      && (z.pc.Top? || z.pc.Read? ==> Tells(z, v.pc.reaped[|v.pc.reaped| - 1].status))
  {
    ForegroundResult(w, w.pc.pids, acts);
    ReachableStep(w, Step);
    ReachableFurther(Apply(w, Step), acts);
    FinishedStatus(After(Apply(w, Step), acts), more);
  }

  /** And after one that stopped: 128 and the signal that stopped the member the wait was told of. */
  lemma StopStatus(w: World, p: Pid, more: seq<Action>)
    requires Reachable(w) && Enabled(w, WaitStop(p))
    requires Runs(Apply(w, WaitStop(p)), more) && ReadsNone(more)
    ensures var z := After(Apply(w, WaitStop(p)), more);
      && p in w.k.procs && w.k.procs[p].life.Halted? && w.pc.Wait? && w.k.procs[p].group == w.pc.pgid
      && (z.pc.Top? || z.pc.Read? ==> z.lastStatus == 128 + w.k.procs[p].life.sig)
  {
    ReachableStep(w, WaitStop(p));
    ResultBecomesStatus(Apply(w, WaitStop(p)), more, 128 + w.k.procs[p].life.sig);
  }

  /** While the shell waits for a group in the foreground, the group has the terminal, unless it had no
      process left to give it to. */
  lemma JobHasTerminal(w: World)
    requires Reachable(w) && w.pc.Wait? && w.env.interactive
    ensures w.k.tty == w.pc.pgid || (w.k.tty == w.env.shell && forall p :: p in w.k.procs ==> w.k.procs[p].group != w.pc.pgid)
  {
    ReachableInv(w);
  }

  predicate NoShellAction(acts: seq<Action>) {
    forall k :: 0 <= k < |acts| ==> !IsShellAction(acts[k])
  }

  lemma {:induction false} RegionHoldsStill(w: World, acts: seq<Action>)
    requires Reachable(w) && !Open(w.pc) && Runs(w, acts) && NoShellAction(acts)
    ensures After(w, acts).pc == w.pc && After(w, acts).table == w.table
    decreases |acts|
  {
    if acts != [] {
      HandlerHeldOff(w, acts[0]);
      ReachableStep(w, acts[0]);
      RegionHoldsStill(Apply(w, acts[0]), acts[1..]);
    }
  }

  // SIGCONT has reached group g: no member is stopped, and nobody else was touched.
  predicate Continued(before: map<Pid, Proc>, after: map<Pid, Proc>, g: Pid) {
    && after.Keys == before.Keys
    && forall p :: p in after ==>
         (after[p].group == g ==> !after[p].life.Halted?) &&
         (before[p].group != g || !before[p].life.Halted? ==> after[p] == before[p])
  }

  lemma ContinueReaches(u: World, b: Action)
    requires SlotInv(u) && (u.pc.FgCont? || u.pc.BgCont?) && Enabled(u, b) && IsShellAction(b)
    ensures Continued(u.k.procs, Apply(u, b).k.procs, u.table.slots[u.pc.slot].pid)
  {
    assert b == Step;
  }

  /** An entry that goes from Stopped to Running is followed by SIGCONT: whatever the kernel and the
      children do meanwhile, the shell's next action continues the entry's whole group. */
  lemma ResumedGroupContinues(w: World, a: Action, i: nat, acts: seq<Action>, b: Action)
    requires Reachable(w) && Enabled(w, a) && Changed(w.table, Apply(w, a).table, i)
    requires Apply(w, a).table.slots[i].state == Running
    requires Runs(Apply(w, a), acts) && NoShellAction(acts)
    requires Enabled(After(Apply(w, a), acts), b) && IsShellAction(b)
    ensures var u := After(Apply(w, a), acts); Continued(u.k.procs, Apply(u, b).k.procs, w.table.slots[i].pid)
  {
    var v := Apply(w, a);
    StateChanges(w, a, i);
    ReachableStep(w, a);
    RegionHoldsStill(v, acts);
    ReachableFurther(v, acts);
    ReachableInv(After(v, acts));
    ContinueReaches(After(v, acts), b);
  }

  // ------------------------------------------------------------ ids

  predicate Live(w: World, i: nat, id: int) {
    i < |w.table.slots| && w.table.slots[i].inUse && w.table.slots[i].id == id
  }

  lemma ShellKeepsIds(w: World, i: nat, id: int)
    requires WellFormed(w.table) && SlotInv(w) && StepEnabled(w) && id < w.table.nextId
    ensures w.table.nextId <= ApplyStep(w).table.nextId
    ensures Live(ApplyStep(w), i, id) ==> Live(w, i, id) && ApplyStep(w).table.slots[i].pid == w.table.slots[i].pid
  {
  }

  lemma StepKeepsIds(w: World, a: Action, i: nat, id: int)
    requires Inv(w) && Enabled(w, a) && id < w.table.nextId
    ensures w.table.nextId <= Apply(w, a).table.nextId
    ensures Live(Apply(w, a), i, id) ==> Live(w, i, id) && Apply(w, a).table.slots[i].pid == w.table.slots[i].pid
  {
    if a.Step? {
      ShellKeepsIds(w, i, id);
    }
  }

  /** An id already given out is never given again: a live entry with such an id, however much
      later, is the same entry, in the same slot and for the same group. */
  lemma {:induction false} IdsAreNeverReused(w: World, acts: seq<Action>, i: nat, id: int)
    requires Reachable(w) && Runs(w, acts) && id < w.table.nextId
    ensures w.table.nextId <= After(w, acts).table.nextId
    ensures Live(After(w, acts), i, id) ==> Live(w, i, id) && After(w, acts).table.slots[i].pid == w.table.slots[i].pid
    decreases |acts|
  {
    ReachableInv(w);
    if acts != [] {
      StepKeepsIds(w, acts[0], i, id);
      ReachableStep(w, acts[0]);
      IdsAreNeverReused(Apply(w, acts[0]), acts[1..], i, id);
    }
  }

  // ------------------------------------------------------------ reports

  ghost predicate IsLive(w: World, id: int) {
    exists i :: Live(w, i, id)
  }

  predicate ReportedDone(w: World, id: int) {
    Report(id, Done) in w.log
  }

  // An id given out, and never in the foreground, has its entry or its report. Between listing
  // and clearing, the jobs about to be freed have been reported already.
  ghost predicate Accounted(w: World) {
    && (forall id :: 1 <= id < w.table.nextId && id !in w.past.foregrounded ==> IsLive(w, id) || ReportedDone(w, id))
    && (w.pc.Clear? ==>
          forall i :: 0 <= i < |w.table.slots| && w.table.slots[i].inUse && w.table.slots[i].state == Done ==> ReportedDone(w, w.table.slots[i].id))
  }

  // v has lost no report, and no entry but those it has reported or that were in the foreground.
  ghost predicate Loses(w: World, v: World) {
    && (forall r :: r in w.log ==> r in v.log) && w.past.foregrounded <= v.past.foregrounded
    && forall i, id :: Live(w, i, id) && id !in v.past.foregrounded ==> Live(v, i, id) || ReportedDone(v, id)
  }

  lemma CarryOver(w: World, v: World)
    requires Accounted(w) && Loses(w, v) && !v.pc.Clear?
    requires forall id :: w.table.nextId <= id < v.table.nextId ==> IsLive(v, id)
    ensures Accounted(v)
  {
    forall id | 1 <= id < v.table.nextId && id !in v.past.foregrounded ensures IsLive(v, id) || ReportedDone(v, id) {
      if id < w.table.nextId && IsLive(w, id) {
        var i :| Live(w, i, id);
        assert Live(v, i, id) || ReportedDone(v, id);
      }
    }
  }

  lemma NotifyAccounts(w: World)
    requires WellFormed(w.table) && Accounted(w) && w.pc.Notify?
    ensures Accounted(ApplyStep(w))
  {
    var v := ApplyStep(w);
    NoticesExact(w.table.slots);
    forall i, id | Live(w, i, id) && !Live(v, i, id) ensures ReportedDone(v, id) {
      assert Report(id, Done) in Notices(w.table.slots);
    }
    CarryOver(w, v);
  }

  lemma ListAccounts(w: World)
    requires WellFormed(w.table) && Accounted(w) && w.pc.List?
    ensures Accounted(ApplyStep(w))
  {
    var v := ApplyStep(w);
    ListedExact(w.table.slots);
    forall i | 0 <= i < |v.table.slots| && v.table.slots[i].inUse && v.table.slots[i].state == Done
      ensures ReportedDone(v, v.table.slots[i].id)
    {
      assert Report(v.table.slots[i].id, Done) in Listed(w.table.slots);
    }
    forall id | IsLive(w, id) ensures IsLive(v, id) {
      var i :| Live(w, i, id);
      assert Live(v, i, id);
    }
  }

  lemma WaitEndAccounts(w: World)
    requires WellFormed(w.table) && WaitInv(w) && Accounted(w) && w.pc.Wait? && StepEnabled(w)
    ensures Accounted(ApplyStep(w))
  {
    CarryOver(w, ApplyStep(w));
  }

  lemma RecordAccounts(w: World)
    requires WellFormed(w.table) && Accounted(w) && w.pc.Record? && StepEnabled(w)
    ensures Accounted(ApplyStep(w))
  {
    var v := ApplyStep(w);
    var j := First(w.table.slots, FreeSlot);
    if j < |w.table.slots| {
      assert Live(v, j, w.table.nextId);
    }
    CarryOver(w, v);
  }

  lemma StopAccounts(w: World, p: Pid)
    requires WellFormed(w.table) && Accounted(w) && ShellEnabled(w, WaitStop(p))
    ensures Accounted(ApplyShell(w, WaitStop(p)))
  {
    var v := ApplyShell(w, WaitStop(p));
    var j := First(w.table.slots, FreeSlot);
    if First(w.table.slots, ByPid(w.pc.pgid)) == |w.table.slots| && j < |w.table.slots| {
      assert Live(v, j, w.table.nextId);
    }
    CarryOver(w, v);
  }

  // The other steps free no entry.
  lemma QuietStepAccounts(w: World)
    requires WellFormed(w.table) && SlotInv(w) && Accounted(w) && StepEnabled(w)
    requires !w.pc.Notify? && !w.pc.List? && !w.pc.Clear? && !w.pc.Wait? && !w.pc.Record?
    ensures Accounted(ApplyStep(w))
  {
    CarryOver(w, ApplyStep(w));
  }

  lemma HandlerAccounts(w: World, a: Action)
    requires Inv(w) && Accounted(w) && HandlerEnabled(w, a)
    ensures Accounted(ApplyHandler(w, a))
  {
    CarryOver(w, ApplyHandler(w, a));
  }

  lemma StepAccounts(w: World)
    requires Inv(w) && Accounted(w) && StepEnabled(w)
    ensures Accounted(ApplyStep(w))
  {
    match w.pc
    case Notify => NotifyAccounts(w);
    case List => ListAccounts(w);
    case Clear => CarryOver(w, ApplyStep(w));
    case Wait(_, _, _, _) => WaitEndAccounts(w);
    case Record(_, _) => RecordAccounts(w);
    case _ => QuietStepAccounts(w);
  }

  lemma SameTable(w: World, v: World)
    requires Accounted(w) && v.table == w.table && v.log == w.log && v.past.foregrounded == w.past.foregrounded
    requires v.pc.Clear? ==> w.pc.Clear?
    ensures Accounted(v)
  {
    forall id | IsLive(w, id) ensures IsLive(v, id) {
      var i :| Live(w, i, id);
      assert Live(v, i, id);
    }
  }

  lemma ActionAccounts(w: World, a: Action)
    requires Inv(w) && Accounted(w) && Enabled(w, a)
    ensures Accounted(Apply(w, a))
  {
    if IsHandlerAction(a) {
      HandlerAccounts(w, a);
    } else if a.Step? {
      StepAccounts(w);
    } else if a.WaitStop? {
      StopAccounts(w, a.p);
    } else {
      SameTable(w, Apply(w, a));
    }
  }

  lemma {:induction false} RunAccounts(w: World, acts: seq<Action>)
    requires Inv(w) && Accounted(w) && Runs(w, acts)
    ensures Accounted(After(w, acts))
    decreases |acts|
  {
    if acts != [] {
      ActionAccounts(w, acts[0]);
      StepKeepsInv(w, acts[0]);
      RunAccounts(Apply(w, acts[0]), acts[1..]);
    }
  }

  lemma ReachableAccounted(w: World)
    requires Reachable(w)
    ensures Accounted(w)
  {
    var interactive, pid, inherited, mask, tty, acts :|
      Runs(Installed(interactive, pid, inherited, mask, tty), acts) &&
      w == After(Installed(interactive, pid, inherited, mask, tty), acts);
    InstalledInv(interactive, pid, inherited, mask, tty);
    RunAccounts(Installed(interactive, pid, inherited, mask, tty), acts);
  }

  /** Every job that was never in the foreground is reported Done exactly once: its id has a live
      entry or a Done report, not both by the time the region that printed it is left, and in a
      whole run no id is reported Done twice. */
  lemma DoneReportedOnce(w: World)
    requires Reachable(w)
    ensures forall a, b :: 0 <= a < b < |w.log| && w.log[a].state == Done && w.log[b].state == Done ==>
      w.log[a].id != w.log[b].id
    ensures forall r, i :: r in w.log && r.state == Done && !w.pc.Clear? ==> !Live(w, i, r.id)
    ensures forall id :: 1 <= id < w.table.nextId && id !in w.past.foregrounded ==> IsLive(w, id) || ReportedDone(w, id)
    ensures WellFormed(w.table)
  {
    ReachableInv(w);
    ReachableAccounted(w);
  }

  // ------------------------------------------------------------ which background jobs complete

  // The shell is not on its way to waiting for the job in slot i.
  predicate NotInForeground(w: World, i: nat, id: int) {
    && w.pc != Begin(Fg(id)) && w.pc != FgLook(id)
    && w.pc != FgTty(i) && w.pc != FgResume(i) && w.pc != FgCont(i)
    && (w.pc.Wait? && i < |w.table.slots| ==> w.pc.pgid != w.table.slots[i].pid)
  }

  predicate LeaderPending(w: World, i: nat)
    requires i < |w.table.slots|
  {
    w.table.slots[i].pid in w.k.procs || BeingMarked(w, w.table.slots[i].pid)
  }

  // The entry's state tells the truth about its leader.
  predicate Truthful(w: World, i: nat)
    requires i < |w.table.slots|
  {
    if LeaderPending(w, i) then w.table.slots[i].state == Running else w.table.slots[i].state == Done
  }

  // The leader is gone and the entry will not hear of it.
  predicate Orphaned(w: World, i: nat)
    requires i < |w.table.slots|
  {
    !LeaderPending(w, i) && w.table.slots[i].state == Running
  }

  lemma KernelKeepsTruth(w: World, a: Action, i: nat)
    requires i < |w.table.slots| && KernelEnabled(w, a)
    ensures ApplyKernel(w, a).k.procs.Keys == w.k.procs.Keys
    ensures Truthful(ApplyKernel(w, a), i) == Truthful(w, i) && Orphaned(ApplyKernel(w, a), i) == Orphaned(w, i)
  {
  }

  lemma HandlerKeepsTruth(w: World, a: Action, i: nat)
    requires WellFormed(w.table) && EntryInv(w) && i < |w.table.slots| && w.table.slots[i].inUse && HandlerEnabled(w, a)
    ensures i < |ApplyHandler(w, a).table.slots|
    ensures Truthful(w, i) ==> Truthful(ApplyHandler(w, a), i)
    ensures Orphaned(w, i) ==> Orphaned(ApplyHandler(w, a), i) && ApplyHandler(w, a).table.slots[i] == w.table.slots[i]
  {
  }

  // Away from the foreground path a shell step leaves a job's entry as it is, or frees it when Done.
  lemma StepLeavesEntry(w: World, i: nat, id: int)
    requires WellFormed(w.table) && StepEnabled(w) && Live(w, i, id) && NotInForeground(w, i, id)
    requires w.table.slots[i].state != Stopped
    ensures var t := ApplyStep(w).table;
      i < |t.slots| && (t.slots[i] == w.table.slots[i] || (!t.slots[i].inUse && w.table.slots[i].state == Done))
  {
  }

  lemma StepKeepsChildren(w: World)
    requires StepEnabled(w)
    ensures ApplyStep(w).k.procs.Keys == w.k.procs.Keys
  {
  }

  lemma StepStaysAway(w: World, i: nat, id: int)
    requires WellFormed(w.table) && StepEnabled(w) && Live(w, i, id) && NotInForeground(w, i, id)
    requires w.pc.GiveTty? ==> w.pc.pids[0] != w.table.slots[i].pid
    requires HoldsSlot(w.pc) && w.pc.slot < |w.table.slots| && w.pc.slot != i ==>
      w.table.slots[w.pc.slot].pid != w.table.slots[i].pid
    requires w.table.slots[i].state != Stopped
    ensures NotInForeground(ApplyStep(w), i, id)
  {
    StepLeavesEntry(w, i, id);
  }

  // The steps that are no Step change no entry but the wait's own, and reap only its children.
  lemma OtherStepKeepsTruth(w: World, a: Action, i: nat, id: int)
    requires WellFormed(w.table) && ProcInv(w) && EntryInv(w) && SpawnInv(w) && WaitInv(w)
    requires ShellEnabled(w, a) && !a.Step? && Live(w, i, id) && a != Take(Fg(id)) && NotInForeground(w, i, id)
    requires Truthful(w, i) || Orphaned(w, i)
    ensures var v := ApplyShell(w, a);
      NotInForeground(v, i, id) && Live(v, i, id) && (Truthful(w, i) ==> Truthful(v, i)) && (Orphaned(w, i) ==> Orphaned(v, i))
  {
    assert ApplyShell(w, a).table.slots[i] == w.table.slots[i];
    assert EntryOk(w, w.table.slots[i]);
  }

  lemma ShellKeepsTruth(w: World, a: Action, i: nat, id: int)
    requires Inv(w) && ShellEnabled(w, a) && Live(w, i, id) && a != Take(Fg(id)) && NotInForeground(w, i, id)
    requires Truthful(w, i) || Orphaned(w, i)
    ensures NotInForeground(ApplyShell(w, a), i, id)
    ensures Truthful(w, i) && Live(ApplyShell(w, a), i, id) ==> Truthful(ApplyShell(w, a), i)
    ensures Orphaned(w, i) ==> Live(ApplyShell(w, a), i, id) && Orphaned(ApplyShell(w, a), i)
  {
    if a.Step? {
      StepLeavesEntry(w, i, id);
      StepKeepsChildren(w);
      StepStaysAway(w, i, id);
    } else {
      OtherStepKeepsTruth(w, a, i, id);
    }
  }

  /** One step of any kind: a truthful entry stays truthful as long as it lives, and an
      orphaned one stays alive, Running and orphaned. */
  lemma StepKeepsTruth(w: World, a: Action, i: nat, id: int)
    requires Inv(w) && Enabled(w, a) && Live(w, i, id) && a != Take(Fg(id)) && NotInForeground(w, i, id)
    requires Truthful(w, i) || Orphaned(w, i)
    ensures NotInForeground(Apply(w, a), i, id)
    ensures Truthful(w, i) && Live(Apply(w, a), i, id) ==> Truthful(Apply(w, a), i)
    ensures Orphaned(w, i) ==> Live(Apply(w, a), i, id) && Orphaned(Apply(w, a), i)
  {
    if IsKernelAction(a) {
      KernelKeepsTruth(w, a, i);
    } else if IsHandlerAction(a) {
      HandlerKeepsTruth(w, a, i);
    } else {
      ShellKeepsTruth(w, a, i, id);
    }
  }

  // No fg of the job is among the commands read.
  predicate NoFg(acts: seq<Action>, id: int) {
    forall k :: 0 <= k < |acts| ==> acts[k] != Take(Fg(id))
  }

  lemma {:induction false} TruthfulStays(w: World, acts: seq<Action>, i: nat, id: int)
    requires Reachable(w) && Runs(w, acts) && NoFg(acts, id)
    requires Live(w, i, id) && NotInForeground(w, i, id) && Truthful(w, i)
    ensures Live(After(w, acts), i, id) ==> Truthful(After(w, acts), i)
    decreases |acts|
  {
    if acts != [] {
      ReachableInv(w);
      StepKeepsTruth(w, acts[0], i, id);
      ReachableStep(w, acts[0]);
      var v := Apply(w, acts[0]);
      if Live(v, i, id) {
        TruthfulStays(v, acts[1..], i, id);
      } else {
        StepKeepsIds(w, acts[0], i, id);
        IdsAreNeverReused(v, acts[1..], i, id);
      }
    }
  }

  lemma {:induction false} OrphanStays(w: World, acts: seq<Action>, i: nat, id: int)
    requires Reachable(w) && Runs(w, acts) && NoFg(acts, id)
    requires Live(w, i, id) && NotInForeground(w, i, id) && Orphaned(w, i)
    ensures Live(After(w, acts), i, id) && Orphaned(After(w, acts), i)
    decreases |acts|
  {
    if acts != [] {
      ReachableInv(w);
      StepKeepsTruth(w, acts[0], i, id);
      ReachableStep(w, acts[0]);
      OrphanStays(Apply(w, acts[0]), acts[1..], i, id);
    }
  }

  /** A Running entry left in the background, from now on and in every run without an fg of it:
      if its leader is still to be reaped (or to be marked), the entry is Running exactly until
      the handler has marked the leader and Done from then on; if the leader is already gone, as
      it can be for a pipeline resumed by bg, the entry stays Running for ever, whatever becomes
      of the other stages. */
  lemma WhichBackgroundJobsComplete(w: World, acts: seq<Action>, i: nat, id: int)
    requires Reachable(w) && Runs(w, acts) && NoFg(acts, id)
    requires Live(w, i, id) && NotInForeground(w, i, id) && w.table.slots[i].state == Running
    ensures LeaderPending(w, i) && Live(After(w, acts), i, id) ==>
      (After(w, acts).table.slots[i].state == Done <==> !LeaderPending(After(w, acts), i)) &&
      (After(w, acts).table.slots[i].state == Running <==> LeaderPending(After(w, acts), i))
    ensures !LeaderPending(w, i) ==>
      Live(After(w, acts), i, id) && After(w, acts).table.slots[i].state == Running
  {
    if LeaderPending(w, i) {
      TruthfulStays(w, acts, i, id);
    } else {
      OrphanStays(w, acts, i, id);
    }
  }

  // No fg of the job is under way.
  predicate NotAskedFor(w: World, id: int) {
    w.pc != Begin(Fg(id)) && w.pc != FgLook(id)
  }

  lemma ShellForegrounds(w: World, id: int)
    requires StepEnabled(w) && NotAskedFor(w, id) && id !in w.past.foregrounded
    ensures NotAskedFor(ApplyStep(w), id) && id !in ApplyStep(w).past.foregrounded
  {
  }

  lemma StepForegrounds(w: World, a: Action, id: int)
    requires Inv(w) && Enabled(w, a) && a != Take(Fg(id)) && NotAskedFor(w, id)
    requires 1 <= id < w.table.nextId && id !in w.past.foregrounded
    ensures NotAskedFor(Apply(w, a), id) && id !in Apply(w, a).past.foregrounded
  {
    if a.Step? {
      ShellForegrounds(w, id);
    } else if a.WaitStop? {
      assert AddedId(w.table) != id;
    }
  }

  /** A job gets into the foreground, in whatever run, only if an fg of it is read. */
  lemma {:induction false} ForegroundedOnlyByFg(w: World, acts: seq<Action>, id: int)
    requires Reachable(w) && Runs(w, acts) && NoFg(acts, id) && NotAskedFor(w, id)
    requires 1 <= id < w.table.nextId && id !in w.past.foregrounded
    ensures id !in After(w, acts).past.foregrounded
    decreases |acts|
  {
    if acts != [] {
      ReachableInv(w);
      StepForegrounds(w, acts[0], id);
      StepKeepsIds(w, acts[0], 0, id);
      ReachableStep(w, acts[0]);
      ForegroundedOnlyByFg(Apply(w, acts[0]), acts[1..], id);
    }
  }

  lemma RecordEnters(w: World, i: nat)
    requires Inv(w) && w.pc.Record? && ShellEnabled(w, Step) && i == First(w.table.slots, FreeSlot) < |w.table.slots|
    ensures var v := Apply(w, Step); var id := w.table.nextId;
      && Live(v, i, id) && v.table.slots[i].pid == w.pc.pids[0] && v.table.slots[i].state == Running
      && LeaderPending(v, i) && NotInForeground(v, i, id) && id < v.table.nextId && id !in v.past.foregrounded
  {
  }

  /** A job entered by the background branch, when there is a slot, is Running from the start; and
      in every run in which no fg of it is read its entry, as long as it is there, is Running exactly
      until the handler has marked its leader, and Done from then on. */
  lemma EnteredJobCompletes(w: World, acts: seq<Action>, i: nat)
    requires Reachable(w) && w.pc.Record? && Enabled(w, Step) && i == First(w.table.slots, FreeSlot) < |w.table.slots|
    requires Runs(Apply(w, Step), acts) && NoFg(acts, w.table.nextId)
    ensures var v := Apply(w, Step); var u := After(v, acts); var id := w.table.nextId;
      && Live(v, i, id) && v.table.slots[i].pid == w.pc.pids[0] && v.table.slots[i].state == Running
      && id !in u.past.foregrounded
      && (Live(u, i, id) ==> (u.table.slots[i].state == Running <==> LeaderPending(u, i)) && (u.table.slots[i].state == Done <==> !LeaderPending(u, i)))
  {
    var v, id := Apply(w, Step), w.table.nextId;
    ReachableInv(w);
    RecordEnters(w, i);
    ReachableStep(w, Step);
    ForegroundedOnlyByFg(v, acts, id);
    WhichBackgroundJobsComplete(v, acts, i, id);
  }
}
