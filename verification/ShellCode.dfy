/** The program's own job-control code, loops and all: the SIGCHLD handler, the spawn loop, the
    foreground wait, the background branch, the built-ins and the prompt, over a mutable job
    table and a mutable kernel. Everything the kernel and the handler may do in between is in
    the calls to KernelActivity and Interference.

    Each method keeps `Valid`: the state is one the job-control machine reaches in some run, and
    it follows from the state in which the current command was read by steps of the machine
    alone. So what is proved about all runs holds of this code at every point, and a command does
    nothing that the machine's steps for that command do not do. */
module ShellCode {
  import opened Options
  import opened Jobs
  import opened Limits
  import opened JobControl
  import opened JobControlInvariant
  import opened JobControlShell
  import opened JobControlTheorems
  import opened JobControlRuns

  datatype Signal = SigCont(group: Pid) | SigTerm(group: Pid)

  datatype WaitResult = NoChild | Terminated(pid: Pid, status: WaitStatus) | StoppedBy(pid: Pid, sig: nat)

  // ------------------------------------------------------------ runs and tables

  // v is reached from w by a run in which no further command is read.
  ghost predicate Follows(w: World, v: World) {
    exists acts :: Runs(w, acts) && ReadsNone(acts) && After(w, acts) == v
  }

  lemma FollowsSelf(w: World)
    ensures Follows(w, w)
  {
    assert Runs(w, []) && ReadsNone([]) && After(w, []) == w;
  }

  // One step further.
  lemma Extend(since: World, w: World, a: Action)
    requires Reachable(w) && Follows(since, w) && Enabled(w, a) && !a.Take?
    ensures Reachable(Apply(w, a)) && Follows(since, Apply(w, a))
  {
    ReachableStep(w, a);
    var acts :| Runs(since, acts) && ReadsNone(acts) && After(since, acts) == w;
    OneStep(w, a);
    AppendRun(since, acts, [a]);
    assert ReadsNone(acts + [a]);
  }

  // Single steps of the machine, spelled out.
  lemma KillNoJobStep(w: World)
    requires w.handler.Idle? && w.pc == KillRelease(None)
    ensures Enabled(w, Step) && Apply(w, Step) == Unblock(w).(pc := Top, lastStatus := 1)
  {
  }

  lemma SendTermStep(w: World)
    requires w.handler.Idle? && w.pc.KillSend?
    ensures Enabled(w, Step)
    ensures Apply(w, Step) == w.(pc := Top, lastStatus := if GroupExists(w.k.procs, w.pc.group) then 0 else 1)
  {
  }

  lemma OtherStep(w: World)
    requires w.handler.Idle? && w.pc.Begin? && w.pc.cmd.Other?
    ensures Enabled(w, Step) && Apply(w, Step) == w.(pc := Top, lastStatus := w.pc.cmd.code)
  {
  }

  // A stop of p, told to the wait, when the group has an entry in slot i and when it has none.
  function Remarked(w: World, p: Pid, i: nat): World
    requires w.pc.Wait? && p in w.k.procs && w.k.procs[p].life.Halted? && i < |w.table.slots|
  {
    Reported(w, p).(table := WithState(w.table, i, Stopped), log := w.log + [Report(w.table.slots[i].id, Stopped)],
      pc := TakeTty(128 + w.k.procs[p].life.sig))
  }

  function WithEntry(w: World, p: Pid): World
    requires w.pc.Wait? && p in w.k.procs && w.k.procs[p].life.Halted?
  {
    Reported(w, p).(table := Added(w.table, w.pc.pgid, w.pc.text, Stopped), log := w.log + [Report(AddedId(w.table), Stopped)],
      past := w.past.(foregrounded := w.past.foregrounded + {AddedId(w.table)}), pc := TakeTty(128 + w.k.procs[p].life.sig))
  }

  // The table after a stop of the group was recorded.
  function StoppedTable(t: Table, pgid: Pid, text: string): Table {
    var i := First(t.slots, ByPid(pgid));
    if i < |t.slots| then WithState(t, i, Stopped) else Added(t, pgid, text, Stopped)
  }

  lemma StopStep(w: World, p: Pid)
    requires ShellEnabled(w, WaitStop(p))
    ensures var i := First(w.table.slots, ByPid(w.pc.pgid));
      Apply(w, WaitStop(p)) == if i < |w.table.slots| then Remarked(w, p, i) else WithEntry(w, p)
    ensures Apply(w, WaitStop(p)).table == StoppedTable(w.table, w.pc.pgid, w.pc.text)
  {
    WaitStopIs(w, p);
  }

  lemma PlaceStep(w: World)
    requires w.handler.Idle? && w.pc.Spawn? && !w.pc.placed && w.pc.pids != [] && w.pc.pids[|w.pc.pids| - 1] in w.k.procs
    ensures Enabled(w, Step)
    ensures Apply(w, Step) == WithProcs(w, ParentSetpgid(w.k.procs, w.pc.pids[|w.pc.pids| - 1], w.pc.pids[0])).(pc := w.pc.(placed := true))
  {
  }

  lemma PlaceExtends(since: World, w: World)
    requires Reachable(w) && Follows(since, w) && w.handler.Idle? && w.pc.Spawn? && !w.pc.placed && w.pc.pids != []
    ensures w.pc.pids[|w.pc.pids| - 1] in w.k.procs
    ensures var v := WithProcs(w, ParentSetpgid(w.k.procs, w.pc.pids[|w.pc.pids| - 1], w.pc.pids[0])).(pc := w.pc.(placed := true));
      Reachable(v) && Follows(since, v)
  {
    ReachableInv(w);
    PlaceStep(w);
    Extend(since, w, Step);
  }

  // Where a command's blocked region begins.
  ghost function RegionOf(cmd: Command): Pc {
    match cmd
    case Launch(background, n, text) => Spawn(background, n, text, [], true)
    case ListJobs => List
    case Fg(id) => FgLook(id)
    case Bg(id) => BgLook(id)
    case Kill(id) => KillLook(id)
    case Other(_) => Top
  }

  predicate HasEntry(t: Table, pgid: Pid, state: JobState) {
    exists i :: 0 <= i < |t.slots| && t.slots[i].inUse && t.slots[i].pid == pgid && t.slots[i].state == state
  }

  predicate Full(t: Table) {
    forall i :: 0 <= i < |t.slots| ==> t.slots[i].inUse
  }

  // The group has its entry, unless it has none because every slot is in use.
  predicate Entered(t: Table, pgid: Pid, state: JobState) {
    HasEntry(t, pgid, state) || (Full(t) && !Tracked(t, pgid))
  }

  lemma AddedIsThere(t: Table, pid: Pid, text: string, state: JobState)
    requires !Tracked(t, pid)
    ensures Entered(Added(t, pid, text, state), pid, state)
    ensures AddedId(t) != -1 ==> HasEntry(Added(t, pid, text, state), pid, state)
  {
    var i := First(t.slots, FreeSlot);
    if i < |t.slots| {
      assert Added(t, pid, text, state).slots[i].inUse;
    } else {
      forall j | 0 <= j < |t.slots| ensures t.slots[j].inUse {
        assert !Matches(FreeSlot, t.slots[j]);
      }
    }
  }

  lemma StopEnters(t: Table, pgid: Pid, text: string)
    ensures Entered(StoppedTable(t, pgid, text), pgid, Stopped)
  {
    var i := First(t.slots, ByPid(pgid));
    if i < |t.slots| {
      assert WithState(t, i, Stopped).slots[i].pid == pgid;
    } else {
      TrackedIsFound(t, pgid);
      AddedIsThere(t, pgid, text, Stopped);
    }
  }

  // A new group has no entry yet, so there is none to re-mark or to free.
  lemma NoEntryYet(w: World)
    requires Reachable(w) && w.pc.GiveTty?
    ensures w.pc.pids != [] && !Tracked(w.table, w.pc.pids[0])
  {
    ReachableInv(w);
  }

  lemma UntrackedTables(t: Table, pgid: Pid, text: string)
    requires !Tracked(t, pgid)
    ensures StoppedTable(t, pgid, text) == Added(t, pgid, text, Stopped) && Removed(t, ByPid(pgid)) == t
  {
    TrackedIsFound(t, pgid);
  }

  // The message "[id] Stopped" names the group's entry, or is -1 when it got none.
  predicate Announces(r: Report, t: Table, pgid: Pid) {
    && r.state == Stopped
    && ((exists i :: 0 <= i < |t.slots| && t.slots[i].inUse && t.slots[i].pid == pgid && t.slots[i].state == Stopped && t.slots[i].id == r.id)
        || (r.id == -1 && Full(t) && !Tracked(t, pgid)))
  }

  // What a recorded stop tells the user.
  lemma StopAnnounced(w: World, p: Pid)
    requires ShellEnabled(w, WaitStop(p))
    ensures var v := Apply(w, WaitStop(p)); var pgid := w.pc.pgid;
      && |v.log| == |w.log| + 1 && v.log[..|w.log|] == w.log && Announces(v.log[|w.log|], v.table, pgid)
      && p in v.k.procs && v.k.procs[p].group == pgid && v.k.procs[p].life == Halted(w.k.procs[p].life.sig, true)
  {
    var v := Apply(w, WaitStop(p));
    var pgid := w.pc.pgid;
    StopStep(w, p);
    StopEnters(w.table, pgid, w.pc.text);
    var i := First(w.table.slots, ByPid(pgid));
    if i < |w.table.slots| {
      assert v.table.slots[i].pid == pgid;
    } else {
      TrackedIsFound(w.table, pgid);
      var j := First(w.table.slots, FreeSlot);
      if j < |w.table.slots| {
        assert v.table.slots[j].id == w.table.nextId;
      }
    }
  }

  predicate IsMarked(e: Job, f: Job) {
    e.inUse && e.state == Running && f == e.(state := Done, status := f.status)
  }

  // What the handler may do to the table: Running entries become Done.
  predicate OnlyMarked(t: Table, u: Table) {
    && |t.slots| == |u.slots| && t.nextId == u.nextId
    && forall i :: 0 <= i < |t.slots| ==> u.slots[i] == t.slots[i] || IsMarked(t.slots[i], u.slots[i])
  }

  lemma MarksAdd(t: Table, u: Table, v: Table)
    requires OnlyMarked(t, u) && OnlyMarked(u, v)
    ensures OnlyMarked(t, v)
  {
  }

  lemma MarkedOnlyMarks(t: Table, pid: Pid, status: WaitStatus)
    ensures OnlyMarked(t, MarkedDone(t, pid, status))
  {
  }

  // The slot of the job with this id, and its group.
  function SlotOf(t: Table, id: int): (slot: Option<nat>)
    ensures slot.Some? ==> slot.value < |t.slots| && t.slots[slot.value].inUse && t.slots[slot.value].id == id
    ensures slot.None? ==> forall i :: 0 <= i < |t.slots| && t.slots[i].inUse ==> t.slots[i].id != id
  {
    var i := First(t.slots, ById(id));
    assert forall j :: 0 <= j < i ==> !Matches(ById(id), t.slots[j]);
    if i < |t.slots| then Some(i) else None
  }

  function GroupOf(t: Table, id: int): Option<Pid> {
    var slot := SlotOf(t, id);
    if slot.Some? then Some(t.slots[slot.value].pid) else None
  }

  // The job of slot i, resumed if it was stopped, and the signal that takes.
  function Resumed(t: Table, i: nat): Table
    requires i < |t.slots|
  {
    if t.slots[i].state == Stopped then WithState(t, i, Running) else t
  }

  // The table after fg of the job in slot i, whose wait ended with a stop or with ECHILD.
  function AfterFg(t: Table, i: nat, stopped: bool): Table
    requires i < |t.slots|
  {
    if stopped then StoppedTable(Resumed(t, i), t.slots[i].pid, t.slots[i].command)
    else Removed(Resumed(t, i), ByPid(t.slots[i].pid))
  }

  /** In effect: either that entry is Stopped again, or it is gone; and no other entry changes. */
  lemma FgTouchesOneEntry(t: Table, i: nat, stopped: bool)
    requires WellFormed(t) && i < |t.slots| && t.slots[i].inUse
    ensures var u := AfterFg(t, i, stopped);
      && |u.slots| == |t.slots| && u.nextId == t.nextId
      && (forall j :: 0 <= j < |t.slots| && j != i ==> u.slots[j] == t.slots[j])
      && (if stopped then u.slots[i] == t.slots[i].(state := Stopped) else !u.slots[i].inUse)
  {
    FirstFinds(Resumed(t, i).slots, ByPid(t.slots[i].pid), i);
  }

  function ContSignals(t: Table, i: nat): seq<Signal>
    requires i < |t.slots|
  {
    if t.slots[i].state == Stopped then [SigCont(t.slots[i].pid)] else []
  }

  method Pick<T>(s: set<T>) returns (x: T)
    requires s != {}
    ensures x in s
  {
    x :| x in s;
  }

  lemma KernelTouchesLittle(k: Kernel, a: Action)
    requires Possible(k, a)
    ensures KernelStep(k, a).procs.Keys == k.procs.Keys && KernelStep(k, a).blocked == k.blocked
  {
  }

  // ------------------------------------------------------------ the program

  class Shell {
    const table: JobTable
    const env: Env
    var k: Kernel
    var lastStatus: int
    var log: seq<Report>
    var sent: seq<Signal>   // the calls of kill so far

    // Where the program is, and history; never read by the code.
    ghost var pc: Pc
    ghost var saved: bool
    ghost var handler: Handler
    ghost var past: Past
    ghost var since: World   // the state when the current command was read

    ghost function Repr(): set<object> {
      {this, table, table.jobs}
    }

    ghost function Now(): World
      reads this, table, table.jobs
    {
      World(env, k, table.View(), pc, saved, handler, lastStatus, log, past)
    }

    ghost predicate Valid()
      reads this, table, table.jobs
    {
      table.Valid() && Reachable(Now()) && Follows(since, Now())
    }

    // The shell's own part of the state is what it was: only the kernel and the handler have acted.
    twostate predicate ShellUndisturbed()
      reads this
    {
      && pc == old(pc) && saved == old(saved) && lastStatus == old(lastStatus) && log == old(log)
      && past == old(past) && handler == old(handler) && since == old(since) && sent == old(sent)
    }

    // jobs_init, then install_signal_handlers.
    constructor (interactive: bool, pid: Pid, inherited: Pid, mask: bool, tty: Pid)
      ensures Valid() && fresh(Repr())
      ensures Now() == Installed(interactive, pid, inherited, mask, tty)
    {
      table := new JobTable();
      var shell := if interactive then pid else inherited;
      env := Env(interactive, shell, mask);
      k := Kernel(map[], false, mask, if interactive then shell else tty);
      lastStatus, log, sent := 0, [], [];
      pc, saved, handler, past := Top, mask, Idle, Past({}, {});
      new;
      ghost var w := Installed(interactive, pid, inherited, mask, tty);
      FollowsSelf(w);
      assert Runs(w, []) && After(w, []) == w;
      since := w;
      assert Now() == w;
    }

    // ---------------------------------------------------------- the world acting on its own

    method KernelEvent(a: Action)
      requires Valid() && Possible(k, a)
      modifies this`k
      ensures Valid() && k == KernelStep(old(k), a)
    {
      ghost var w := Now();
      k := KernelStep(k, a);
      Extend(since, w, a);
      assert Now() == Apply(w, a);
    }

    // Any number of events in the kernel and the children. No child is born or reaped here.
    method KernelActivity()
      requires Valid()
      modifies this`k
      ensures Valid() && ShellUndisturbed()
      ensures k.procs.Keys == old(k.procs.Keys) && k.blocked == old(k.blocked)
    {
      var n: nat := *;
      while n > 0
        invariant Valid()
        invariant k.procs.Keys == old(k.procs.Keys) && k.blocked == old(k.blocked)
      {
        var a: Action := *;
        if Possible(k, a) {
          KernelTouchesLittle(k, a);
          KernelEvent(a);
        }
        n := n - 1;
      }
    }

    // Kernel events and, as long as SIGCHLD is not blocked, deliveries to the handler.
    method Interference()
      requires Valid() && handler.Idle?
      modifies Repr()
      ensures Valid() && since == old(since) && sent == old(sent) && ShellUndisturbed()
      ensures k.blocked == old(k.blocked)
      ensures old(k.blocked) ==> table.View() == old(table.View()) && k.procs.Keys == old(k.procs.Keys)
      ensures OnlyMarked(old(table.View()), table.View())
    {
      var n: nat := *;
      while n > 0
        invariant Valid() && since == old(since) && sent == old(sent) && ShellUndisturbed() && k.blocked == old(k.blocked)
        invariant old(k.blocked) ==> table.View() == old(table.View()) && k.procs.Keys == old(k.procs.Keys)
        invariant OnlyMarked(old(table.View()), table.View())
      {
        KernelActivity();
        if k.pending && !k.blocked {
          ghost var marked := table.View();
          SigchldHandler();
          MarksAdd(old(table.View()), marked, table.View());
        }
        n := n - 1;
      }
    }

    // ---------------------------------------------------------- src/signals.c

    // waitpid(-1, &status, WNOHANG)
    method WaitpidNoHang() returns (r: Option<Reaped>)
      requires Valid() && handler.Draining?
      modifies this`k, this`handler
      ensures Valid() && k.pending == old(k.pending) && k.blocked == old(k.blocked)
      ensures r.None? ==> Zombies(k.procs) == {} && handler == old(handler) && k == old(k)
      ensures r.Some? ==> r.value.pid in old(k.procs) && k.procs == old(k.procs) - {r.value.pid}
      ensures r.Some? ==> handler == Marking(r.value.pid, r.value.status)
    {
      var zombies := Zombies(k.procs);
      if zombies == {} {
        r := None;
      } else {
        var p := Pick(zombies);
        ghost var w := Now();
        r := Some(Reaped(p, k.procs[p].life.status));
        k := k.(procs := k.procs - {p});
        handler := Marking(r.value.pid, r.value.status);
        Extend(since, w, DrainReap(p));
        assert Now() == Apply(w, DrainReap(p));
      }
    }

    // jobs_mark_done, as the handler calls it
    method MarkDone(pid: Pid, status: WaitStatus)
      requires Valid() && handler == Marking(pid, status)
      modifies table.jobs, this`handler
      ensures Valid() && handler == Draining
      ensures table.View() == old(MarkedDone(table.View(), pid, status))
    {
      ghost var w := Now();
      table.MarkDone(pid, status);
      handler := Draining;
      Extend(since, w, DrainMark);
      assert Now() == Apply(w, DrainMark);
    }

    method EnterHandler()
      requires Valid() && handler.Idle? && k.pending && !k.blocked
      modifies this`k, this`handler
      ensures Valid() && handler.Draining?
      ensures k == old(k).(pending := false, blocked := true)
    {
      ghost var w := Now();
      k := k.(pending := false, blocked := true);
      handler := Draining;
      Extend(since, w, Deliver);
      assert Now() == Apply(w, Deliver);
    }

    method LeaveHandler()
      requires Valid() && handler.Draining? && Zombies(k.procs) == {}
      modifies this`k, this`handler
      ensures Valid() && handler.Idle?
      ensures k == old(k).(blocked := false)
    {
      ghost var w := Now();
      k := k.(blocked := false);
      handler := Idle;
      Extend(since, w, DrainReturn);
      assert Now() == Apply(w, DrainReturn);
    }

    // The body of the drain loop, up to the next waitpid.
    method MarkAndPoll(pid: Pid, status: WaitStatus) returns (r: Option<Reaped>)
      requires Valid() && handler == Marking(pid, status)
      modifies this`k, this`handler, table.jobs
      ensures Valid()
      ensures r.Some? ==> handler == Marking(r.value.pid, r.value.status)
      ensures r.Some? ==> r.value.pid in old(k.procs) && k.procs.Keys == old(k.procs.Keys) - {r.value.pid}
      ensures r.None? ==> handler.Draining? && Zombies(k.procs) == {} && k.procs.Keys == old(k.procs.Keys)
      ensures OnlyMarked(old(table.View()), table.View())
    {
      KernelActivity();
      MarkedOnlyMarks(table.View(), pid, status);
      MarkDone(pid, status);
      KernelActivity();
      r := WaitpidNoHang();
    }

    /** The handler, from delivery to return: it reaps until waitpid finds nothing more, marking
        each, and ends with no zombie left, although children go on dying under it. */
    method SigchldHandler()
      requires Valid() && handler.Idle? && k.pending && !k.blocked
      modifies Repr()
      ensures Valid() && since == old(since) && sent == old(sent) && ShellUndisturbed()
      ensures !k.blocked && Zombies(k.procs) == {}
      ensures k.procs.Keys <= old(k.procs.Keys)
      ensures OnlyMarked(old(table.View()), table.View())
    {
      EnterHandler();
      KernelActivity();
      ghost var left := k.procs.Keys;
      var r := WaitpidNoHang();
      while r.Some?
        invariant Valid() && since == old(since) && sent == old(sent)
        invariant k.procs.Keys <= left
        invariant OnlyMarked(old(table.View()), table.View())
        invariant pc == old(pc) && saved == old(saved) && lastStatus == old(lastStatus) && log == old(log) && past == old(past)
        invariant r.Some? ==> handler == Marking(r.value.pid, r.value.status)
        invariant r.None? ==> handler.Draining? && Zombies(k.procs) == {}
        decreases k.procs.Keys, r.Some?
      {
        ghost var marked := table.View();
        r := MarkAndPoll(r.value.pid, r.value.status);
        MarksAdd(old(table.View()), marked, table.View());
      }
      LeaveHandler();
    }

    // ---------------------------------------------------------- the shell's single steps

    // block_sigchld, where the program goes on to `next`.
    method BlockSigchld(ghost next: Pc) returns (prev: bool)
      requires Valid() && ShellEnabled(Now(), Step) && ApplyStep(Now()) == Block(Now()).(pc := next)
      modifies this
      ensures Valid() && since == old(since) && sent == old(sent) && Now() == old(Apply(Now(), Step)) && prev == saved
    {
      ghost var w := Now();
      prev := k.blocked;
      k := k.(blocked := true);
      saved, pc := prev, next;
      Extend(since, w, Step);
      assert Now() == Apply(w, Step);
    }

    // unblock_sigchld, restoring what BlockSigchld saved.
    method UnblockSigchld(prev: bool, ghost next: Pc)
      requires Valid() && ShellEnabled(Now(), Step) && ApplyStep(Now()) == Unblock(Now()).(pc := next) && prev == saved
      modifies this
      ensures Valid() && since == old(since) && sent == old(sent) && Now() == old(Apply(Now(), Step))
    {
      ghost var w := Now();
      k := k.(blocked := prev);
      pc := next;
      Extend(since, w, Step);
      assert Now() == Apply(w, Step);
    }

    // unblock_sigchld at the end of a command, with the command's result becoming last_status.
    method Finish(prev: bool, code: int)
      requires Valid() && pc == Release(code) && handler.Idle? && prev == saved
      modifies this
      ensures Valid() && since == old(since) && sent == old(sent) && Now() == old(Apply(Now(), Step))
    {
      ghost var w := Now();
      k := k.(blocked := prev);
      lastStatus, pc := code, Top;
      Extend(since, w, Step);
      assert Now() == Apply(w, Step);
    }

    // if (state->interactive) tcsetpgrp(state->shell_terminal, g)
    method TakeTerminal(g: Pid, ghost next: Pc)
      requires Valid() && ShellEnabled(Now(), Step) && ApplyStep(Now()) == Tcsetpgrp(Now(), g).(pc := next)
      modifies this
      ensures Valid() && since == old(since) && sent == old(sent) && Now() == old(Apply(Now(), Step))
    {
      ghost var w := Now();
      if env.interactive && (g == env.shell || GroupExists(k.procs, g)) {
        k := k.(tty := g);
      }
      pc := next;
      Extend(since, w, Step);
      assert Now() == Apply(w, Step);
    }

    // A step the program makes without touching anything shared.
    ghost method Advance(next: Pc)
      requires Valid() && ShellEnabled(Now(), Step) && ApplyStep(Now()) == Now().(pc := next)
      modifies this`pc
      ensures Valid() && Now() == old(Apply(Now(), Step))
    {
      ghost var w := Now();
      pc := next;
      Extend(since, w, Step);
      assert Now() == Apply(w, Step);
    }

    // ---------------------------------------------------------- src/main.c, the prompt

    /** The top of the loop: the finished jobs found there are reported and freed, in one blocked
        region; before and after it the handler may have marked more. */
    method Prompt() returns (ghost found: Table)
      requires Valid() && pc.Top? && handler.Idle?
      modifies Repr()
      ensures Valid() && since == old(since) && sent == old(sent) && pc.Read? && handler.Idle?
      ensures OnlyMarked(old(table.View()), found) && log == old(log) + Notices(found.slots)
      ensures OnlyMarked(found.(slots := DoneCleared(found.slots)), table.View())
    {
      Interference();
      var prev := BlockSigchld(Notify);
      Interference();
      found := table.View();
      NotifyStep();
      Interference();
      UnblockSigchld(prev, Read);
      Interference();
    }

    method NotifyStep()
      requires Valid() && pc.Notify? && handler.Idle?
      modifies Repr()
      ensures Valid() && since == old(since) && sent == old(sent) && Now() == old(Apply(Now(), Step))
    {
      ghost var w := Now();
      var out := table.NotifyCompleted();
      log := log + out;
      pc := NotifyEnd;
      Extend(since, w, Step);
      assert Now() == Apply(w, Step);
    }

    // ---------------------------------------------------------- src/executor.c

    // fork(), seen from the parent; the child will ask for group `leader`.
    method ForkChild(p: Pid, leader: Pid)
      requires Valid() && ShellEnabled(Now(), Fork(p))
      requires leader == if pc.pids == [] then p else pc.pids[0]
      modifies this
      ensures Valid() && since == old(since) && sent == old(sent) && Now() == old(Apply(Now(), Fork(p)))
    {
      ghost var w := Now();
      k := k.(procs := k.procs[p := Proc(env.shell, leader, false, false, Alive)]);
      past := Apply(w, Fork(p)).past;
      pc := pc.(pids := pc.pids + [p], placed := false);
      Extend(since, w, Fork(p));
      assert Now() == Apply(w, Fork(p));
    }

    method SetpgidInParent(p: Pid, leader: Pid)
      requires pc.Spawn? && p in k.procs
      modifies this`k, this`pc
      ensures Now() == old(WithProcs(Now(), ParentSetpgid(k.procs, p, leader)).(pc := pc.(placed := true)))
    {
      k := k.(procs := ParentSetpgid(k.procs, p, leader));
      pc := pc.(placed := true);
    }

    // setpgid(p, leader) in the parent.
    method PlaceChild(p: Pid, leader: Pid)
      requires Valid() && handler.Idle? && pc.Spawn? && !pc.placed && pc.pids != []
      requires p == pc.pids[|pc.pids| - 1] && leader == pc.pids[0]
      modifies this
      ensures Valid() && since == old(since) && sent == old(sent) && pc == old(pc).(placed := true) && handler.Idle? && table.View() == old(table.View()) && saved == old(saved)
    {
      PlaceExtends(since, Now());
      SetpgidInParent(p, leader);
    }

    ghost method RegionIsBlocked()
      requires Valid() && handler.Idle? && !Open(pc)
      ensures k.blocked
    {
      ReachableInv(Now());
    }

    ghost method TableIsWellFormed()
      requires Valid()
      ensures WellFormed(table.View())
    {
      ReachableInv(Now());
    }

    ghost method FailSpawn()
      requires Valid() && ShellEnabled(Now(), SpawnFail)
      modifies this`pc
      ensures Valid() && Now() == old(Apply(Now(), SpawnFail))
    {
      ghost var w := Now();
      pc := Release(-1);
      Extend(since, w, SpawnFail);
      assert Now() == Apply(w, SpawnFail);
    }

    method ForkAndPlace(p: Pid, pids: seq<Pid>)
      requires Valid() && ShellEnabled(Now(), Fork(p)) && pc.pids == pids
      modifies Repr()
      ensures Valid() && since == old(since) && sent == old(sent) && handler.Idle? && saved == old(saved) && table.View() == old(table.View())
      ensures pc == old(pc).(pids := pids + [p], placed := true)
    {
      ForkChild(p, if pids == [] then p else pids[0]);
      RegionIsBlocked();
      Interference();
      PlaceChild(p, (pids + [p])[0]);
    }

    // One turn of the spawn loop; pipe or fork may fail instead.
    method SpawnStage(pids: seq<Pid>) returns (ok: bool, p: Pid)
      requires Valid() && handler.Idle? && pc.Spawn? && pc.placed && pc.pids == pids && |pids| < pc.n
      modifies Repr()
      ensures Valid() && since == old(since) && sent == old(sent) && handler.Idle? && saved == old(saved) && table.View() == old(table.View())
      ensures pc == if ok then Spawn(old(pc).background, old(pc).n, old(pc).text, pids + [p], true) else Release(-1)
    {
      RegionIsBlocked();
      Interference();
      var fails: bool := *;
      p := *;
      if fails || !UnusedPid(k, env, table.View(), p) {
        FailSpawn();
        return false, p;
      }
      ForkAndPlace(p, pids);
      ok := true;
    }

    ghost method EndSpawn(pids: seq<Pid>)
      requires Valid() && handler.Idle? && pc.Spawn? && pc.placed && pc.pids == pids && |pids| == pc.n > 0
      modifies this`pc
      ensures Valid() && pc == if old(pc).background then Record(pids, old(pc).text) else GiveTty(pids, old(pc).text)
      ensures Members(k.procs, pids[0]) == Elements(pids) && |Elements(pids)| == |pids|
    {
      ReachableInv(Now());
      Advance(if pc.background then Record(pids, pc.text) else GiveTty(pids, pc.text));
      PipelineFormsOneGroup(Now(), pids);
    }

    ghost method AtLeastOneStage()
      requires Valid() && pc.Spawn?
      ensures pc.n >= 1
    {
      ReachableInv(Now());
    }

    /** The loop that forks every stage and puts it in the pipeline's group. On success the
        unreaped children in that group are exactly the n stages. */
    method SpawnPipeline(background: bool, n: nat, text: string) returns (ok: bool, pids: seq<Pid>)
      requires Valid() && handler.Idle? && pc == Spawn(background, n, text, [], true)
      modifies Repr()
      ensures Valid() && since == old(since) && sent == old(sent) && handler.Idle? && saved == old(saved) && table.View() == old(table.View())
      ensures !ok ==> pc == Release(-1)
      ensures ok ==> |pids| == n > 0 && pc == if background then Record(pids, text) else GiveTty(pids, text)
      ensures ok ==> Members(k.procs, pids[0]) == Elements(pids) && |Elements(pids)| == n
    {
      AtLeastOneStage();
      pids := [];
      for i := 0 to n
        invariant Valid() && since == old(since) && sent == old(sent) && handler.Idle? && saved == old(saved) && table.View() == old(table.View())
        invariant pc == Spawn(background, n, text, pids, true) && |pids| == i
      {
        var p;
        ok, p := SpawnStage(pids);
        if !ok {
          return;
        }
        pids := pids + [p];
      }
      EndSpawn(pids);
      ok := true;
    }

    // The start of a command's blocked region.
    method EnterRegion(cmd: Command) returns (prev: bool)
      requires Valid() && handler.Idle? && pc == Begin(cmd) && !cmd.Other?
      modifies Repr()
      ensures Valid() && since == old(since) && sent == old(sent) && handler.Idle? && prev == saved && pc == RegionOf(cmd)
      ensures k.blocked && log == old(log) && OnlyMarked(old(table.View()), table.View())
    {
      Interference();
      prev := BlockSigchld(RegionOf(cmd));
    }

    // What waitpid(-pgid, &status, WUNTRACED) can report.
    method WaitpidGroup(pgid: Pid) returns (r: WaitResult)
      requires Valid() && handler.Idle? && pc.Wait? && pc.pgid == pgid
      modifies Repr()
      ensures Valid() && since == old(since) && sent == old(sent) && handler.Idle? && saved == old(saved) && pc.Wait? && table.View() == old(table.View()) && log == old(log)
      ensures !r.Terminated? ==> k.procs.Keys == old(k.procs.Keys)
      ensures r.NoChild? ==> pc == old(pc) && ShellEnabled(Now(), Step)
      ensures r.Terminated? ==> pc == old(pc).(reaped := old(pc).reaped + [Reaped(r.pid, r.status)])
      ensures r.Terminated? ==> r.pid in old(k.procs) && k.procs.Keys == old(k.procs.Keys) - {r.pid}
      ensures r.StoppedBy? ==> pc == old(pc) && ShellEnabled(Now(), WaitStop(r.pid)) && k.procs[r.pid].life.sig == r.sig
    {
      RegionIsBlocked();
      Interference();
      var members := Members(k.procs, pgid);
      if members == {} {
        return NoChild;
      }
      var p := Pick(members);
      r := ReportOn(p);
    }

    // The call returns what has become of p.
    method ReportOn(p: Pid) returns (r: WaitResult)
      requires Valid() && handler.Idle? && pc.Wait? && p in k.procs && k.procs[p].group == pc.pgid
      modifies this`k, this`pc
      ensures Valid() && !r.NoChild? && r.pid == p
      ensures !r.Terminated? ==> k.procs.Keys == old(k.procs.Keys)
      ensures r.Terminated? ==> pc == old(pc).(reaped := old(pc).reaped + [Reaped(r.pid, r.status)])
      ensures r.Terminated? ==> k.procs.Keys == old(k.procs.Keys) - {r.pid}
      ensures r.StoppedBy? ==> pc == old(pc) && ShellEnabled(Now(), WaitStop(r.pid)) && k.procs[r.pid].life.sig == r.sig
    {
      BlockUntilReportable(p);
      if k.procs[p].life.Zombie? {
        r := Terminated(p, k.procs[p].life.status);
        CollectChild(p);
      } else {
        r := StoppedBy(p, k.procs[p].life.sig);
      }
    }

    // The call sleeps until p, a member of the group, dies or stops.
    method BlockUntilReportable(p: Pid)
      requires Valid() && p in k.procs
      modifies this`k
      ensures Valid() && p in k.procs && k.procs.Keys == old(k.procs.Keys) && k.procs[p].group == old(k.procs[p].group)
      ensures k.procs[p].life.Zombie? || (k.procs[p].life.Halted? && !k.procs[p].life.reported)
    {
      var status: WaitStatus, sig: nat, stops: bool := *, *, *;
      match k.procs[p].life {
        case Alive => KernelEvent(if stops then Halt(p, sig) else Die(p, status));
        case Halted(_, reported) =>
          if reported {
            KernelEvent(Die(p, status));
          }
        case Zombie(_) =>
      }
    }

    method CollectChild(p: Pid)
      requires Valid() && ShellEnabled(Now(), WaitReap(p))
      modifies this`k, this`pc
      ensures Valid() && Now() == old(Apply(Now(), WaitReap(p)))
    {
      ghost var w := Now();
      pc := pc.(reaped := pc.reaped + [Reaped(p, k.procs[p].life.status)]);
      k := k.(procs := k.procs - {p});
      Extend(since, w, WaitReap(p));
      assert Now() == Apply(w, WaitReap(p));
    }

    // The two halves of the stopped branch, without the proof that they are the machine's step.
    method RemarkStopped(p: Pid, i: nat) returns (id: int)
      requires table.Valid() && pc.Wait? && p in k.procs && k.procs[p].life.Halted? && i < MAX_JOBS
      modifies this`k, this`log, this`pc, table.jobs
      ensures Now() == old(Remarked(Now(), p, i))
    {
      var life := k.procs[p].life;
      k := k.(procs := k.procs[p := k.procs[p].(life := Halted(life.sig, true))]);
      table.SetState(i, Stopped);
      id := table.jobs[i].id;
      log := log + [Report(id, Stopped)];
      pc := TakeTty(128 + life.sig);
    }

    method AddStopped(p: Pid, pgid: Pid, text: string) returns (id: int)
      requires table.Valid() && pc.Wait? && p in k.procs && k.procs[p].life.Halted? && pc.pgid == pgid && pc.text == text
      modifies this`k, this`log, this`pc, this`past, table, table.jobs
      ensures Now() == old(WithEntry(Now(), p))
    {
      var life := k.procs[p].life;
      k := k.(procs := k.procs[p := k.procs[p].(life := Halted(life.sig, true))]);
      id := table.Add(pgid, text, Stopped);
      past := past.(foregrounded := past.foregrounded + {id});
      log := log + [Report(id, Stopped)];
      pc := TakeTty(128 + life.sig);
    }

    // The stopped branch: mark the report as taken, then re-mark the group's entry or make one.
    method NoteStop(p: Pid, pgid: Pid, text: string) returns (id: int)
      requires Valid() && ShellEnabled(Now(), WaitStop(p)) && pc.pgid == pgid && pc.text == text
      modifies Repr()
      ensures Valid() && since == old(since) && sent == old(sent) && Now() == old(Apply(Now(), WaitStop(p)))
    {
      ghost var w := Now();
      StopStep(w, p);
      Extend(since, w, WaitStop(p));
      var slot := table.Find(ByPid(pgid));
      match slot {
        case Some(i) => id := RemarkStopped(p, i);
        case None => id := AddStopped(p, pgid, text);
      }
    }

    // The stopped branch of the wait, up to its return.
    method ReturnStopped(p: Pid, sig: nat, pgid: Pid, text: string) returns (code: int)
      requires Valid() && ShellEnabled(Now(), WaitStop(p)) && pc.pgid == pgid && pc.text == text
      requires p in k.procs && k.procs[p].life.sig == sig
      modifies Repr()
      ensures Valid() && since == old(since) && sent == old(sent) && handler.Idle? && saved == old(saved) && pc == TakeTty(code) && code == 128 + sig
      ensures table.View() == old(StoppedTable(table.View(), pgid, text))
      ensures |log| == |old(log)| + 1 && log[..|log| - 1] == old(log) && Announces(log[|log| - 1], table.View(), pgid)
      ensures p in k.procs && k.procs[p].group == pgid && k.procs[p].life == Halted(sig, true)
    {
      StopStep(Now(), p);
      StopAnnounced(Now(), p);
      var id := NoteStop(p, pgid, text);
      code := 128 + sig;
    }

    // ECHILD: the wait is over, and jobs_remove_by_pid drops the group's entry.
    method ReturnFinished(pgid: Pid, code: int)
      requires Valid() && pc.Wait? && ShellEnabled(Now(), Step) && pc.pgid == pgid && code == LastCode(pc.reaped)
      modifies Repr()
      ensures Valid() && since == old(since) && sent == old(sent) && handler.Idle? && saved == old(saved) && pc == TakeTty(code)
      ensures Elements(ReapedPids(old(pc.reaped))) == old(pc.members) && |old(pc.reaped)| == |old(pc.members)|
      ensures table.View() == old(Removed(table.View(), ByPid(pgid))) && !Tracked(table.View(), pgid) && log == old(log)
    {
      ghost var w := Now();
      WaitCompletes(w);
      table.Remove(ByPid(pgid));
      pc := TakeTty(code);
      Extend(since, w, Step);
      assert Now() == Apply(w, Step);
    }

    // The loop of the wait, up to the call that reports something else than a death.
    method CollectMembers(pgid: Pid, text: string) returns (r: WaitResult, lastStatus: int, ghost reaped: seq<Reaped>)
      requires Valid() && handler.Idle? && pc.Wait? && pc.pgid == pgid && pc.text == text && pc.reaped == []
      modifies Repr()
      ensures Valid() && since == old(since) && sent == old(sent) && handler.Idle? && saved == old(saved)
      ensures table.View() == old(table.View()) && log == old(log)
      ensures pc.Wait? && pc == old(pc).(reaped := reaped) && lastStatus == LastCode(reaped)
      ensures r.NoChild? ==> ShellEnabled(Now(), Step)
      ensures r.StoppedBy? ==> ShellEnabled(Now(), WaitStop(r.pid)) && k.procs[r.pid].life.sig == r.sig
      ensures !r.Terminated?
    {
      lastStatus := 0;
      reaped := [];
      ghost var start := pc;
      r := WaitpidGroup(pgid);
      while r.Terminated?
        invariant Valid() && since == old(since) && sent == old(sent) && handler.Idle? && saved == old(saved)
        invariant table.View() == old(table.View()) && log == old(log)
        invariant pc.Wait? && pc == start.(reaped := pc.reaped)
        invariant r.Terminated? ==> pc.reaped == reaped + [Reaped(r.pid, r.status)]
        invariant !r.Terminated? ==> pc.reaped == reaped
        invariant lastStatus == LastCode(reaped)
        invariant r.NoChild? ==> ShellEnabled(Now(), Step)
        invariant r.StoppedBy? ==> ShellEnabled(Now(), WaitStop(r.pid)) && k.procs[r.pid].life.sig == r.sig
        decreases k.procs.Keys, r.Terminated?
      {
        lastStatus := StatusToCode(r.status);
        reaped := pc.reaped;
        r := WaitpidGroup(pgid);
      }
    }

    /** The foreground wait. It returns either on the first stop it is told of, leaving a Stopped
        entry for the group, under its old id if it had one, unless it has none and the table is
        full; or when every member it started with has been collected here, each
        once; then the result is the status of the one collected last and no entry has the group. */
    method WaitForegroundGroup(pgid: Pid, text: string) returns (code: int, stopped: bool, ghost reaped: seq<Reaped>)
      requires Valid() && handler.Idle? && pc.Wait? && pc.pgid == pgid && pc.text == text && pc.reaped == []
      modifies Repr()
      ensures Valid() && since == old(since) && sent == old(sent) && handler.Idle? && saved == old(saved) && pc == TakeTty(code)
      ensures stopped ==> table.View() == old(StoppedTable(table.View(), pgid, text)) && Entered(table.View(), pgid, Stopped)
      ensures !stopped ==> table.View() == old(Removed(table.View(), ByPid(pgid)))
      ensures !stopped ==> Elements(ReapedPids(reaped)) == old(pc.members) && |reaped| == |old(pc.members)|
      ensures !stopped ==> !Tracked(table.View(), pgid) && log == old(log)
      ensures !stopped && reaped == [] ==> code == 0
      ensures !stopped && reaped != [] && reaped[|reaped| - 1].status.Exited? ==> code == reaped[|reaped| - 1].status.code
      ensures !stopped && reaped != [] && reaped[|reaped| - 1].status.Signaled? ==> code == 128 + reaped[|reaped| - 1].status.sig
      ensures stopped ==> exists p :: p in k.procs && k.procs[p].group == pgid && k.procs[p].life.Halted? && code == 128 + k.procs[p].life.sig
      ensures stopped ==> |log| == |old(log)| + 1 && log[..|log| - 1] == old(log) && Announces(log[|log| - 1], table.View(), pgid)
    {
      var r, lastStatus;
      r, lastStatus, reaped := CollectMembers(pgid, text);
      match r {
        case StoppedBy(p, sig) =>
          StopEnters(table.View(), pgid, text);
          code := ReturnStopped(p, sig, pgid, text);
          stopped := true;
        case NoChild =>
          ReturnFinished(pgid, lastStatus);
          code, stopped := lastStatus, false;
      }
    }

    // Everything a command that entered a blocked region leaves behind.
    ghost predicate CommandOver()
      reads this, table, table.jobs
    {
      Valid() && handler.Idle? && pc.Top? && k.blocked == env.mask && (env.interactive ==> k.tty == env.shell)
    }

    ghost method AfterCommand()
      requires Valid() && handler.Idle? && pc.Top?
      ensures CommandOver()
    {
      PromptDiscipline(Now());
    }

    method EndCommand(prev: bool, code: int)
      requires Valid() && handler.Idle? && prev == saved && pc == Release(code)
      modifies Repr()
      ensures CommandOver() && since == old(since) && sent == old(sent) && lastStatus == code
      ensures table.View() == old(table.View()) && log == old(log)
    {
      RegionIsBlocked();
      Interference();
      Finish(prev, code);
      AfterCommand();
    }

    // Wait, take the terminal back, unblock.
    method WaitAndEnd(prev: bool, pgid: Pid, text: string) returns (code: int, stopped: bool, ghost reaped: seq<Reaped>)
      requires Valid() && handler.Idle? && prev == saved
      requires pc.Wait? && pc.pgid == pgid && pc.text == text && pc.reaped == []
      modifies Repr()
      ensures CommandOver() && since == old(since) && sent == old(sent) && lastStatus == code
      ensures !stopped ==> Elements(ReapedPids(reaped)) == old(pc.members) && |reaped| == |old(pc.members)|
      ensures !stopped ==> code == LastCode(reaped) && table.View() == old(Removed(table.View(), ByPid(pgid))) && !Tracked(table.View(), pgid)
      ensures stopped ==> table.View() == old(StoppedTable(table.View(), pgid, text)) && Entered(table.View(), pgid, Stopped)
    {
      code, stopped, reaped := WaitForegroundGroup(pgid, text);
      RegionIsBlocked();
      Interference();
      TakeTerminal(env.shell, Release(code));
      EndCommand(prev, code);
    }

    method RecordJob(pgid: Pid, text: string) returns (id: int)
      requires Valid() && handler.Idle? && pc.Record? && pc.pids != [] && pc.pids[0] == pgid && pc.text == text
      modifies Repr()
      ensures Valid() && since == old(since) && sent == old(sent) && pc == Release(0) && handler.Idle? && saved == old(saved)
      ensures table.View() == old(Added(table.View(), pgid, text, Running)) && id == old(AddedId(table.View()))
      ensures Entered(table.View(), pgid, Running) && (id != -1 ==> HasEntry(table.View(), pgid, Running))
      ensures !Tracked(old(table.View()), pgid)
    {
      ghost var w := Now();
      ReachableInv(w);
      AddedIsThere(w.table, pgid, text, Running);
      id := table.Add(pgid, text, Running);
      pc := Release(0);
      Extend(since, w, Step);
      assert Now() == Apply(w, Step);
    }

    method LaunchForeground(prev: bool, pids: seq<Pid>, text: string) returns (code: int, stopped: bool, ghost reaped: seq<Reaped>)
      requires Valid() && handler.Idle? && prev == saved && pids != [] && pc == GiveTty(pids, text)
      requires Members(k.procs, pids[0]) == Elements(pids) && |Elements(pids)| == |pids|
      modifies Repr()
      ensures CommandOver() && since == old(since) && sent == old(sent) && lastStatus == code
      ensures !stopped ==> Elements(ReapedPids(reaped)) == Elements(pids) && |reaped| == |pids| && code == LastCode(reaped)
      ensures !Tracked(old(table.View()), pids[0])
      ensures !stopped ==> table.View() == old(table.View())
      ensures stopped ==> table.View() == old(Added(table.View(), pids[0], text, Stopped)) && Entered(table.View(), pids[0], Stopped)
    {
      NoEntryYet(Now());
      UntrackedTables(table.View(), pids[0], text);
      TakeTerminal(pids[0], Wait(pids[0], text, Members(k.procs, pids[0]), []));
      code, stopped, reaped := WaitAndEnd(prev, pids[0], text);
    }

    /** execute_pipeline: in the foreground, unless stopped, the result is the status of the
        stage collected last, after all n stages and nothing else have been collected, and no entry
        is left; in the background it is 0 at once. A job put into the background or stopped has its
        entry, unless it got none because the table is full. On every path the mask and the terminal
        are as before. */
    method ExecutePipeline(background: bool, n: nat, text: string)
      returns (status: int, ghost found: Table, ghost launched: bool, ghost stopped: bool, ghost pids: seq<Pid>, ghost reaped: seq<Reaped>,
        ghost id: int)
      requires Valid() && handler.Idle? && pc == Begin(Launch(background, n, text))
      modifies Repr()
      ensures CommandOver() && since == old(since) && sent == old(sent) && lastStatus == status && OnlyMarked(old(table.View()), found)
      ensures !launched ==> status == -1 && table.View() == found
      ensures launched ==> |pids| == n > 0 && !Tracked(found, pids[0])
      ensures launched && background ==> status == 0 && table.View() == Added(found, pids[0], text, Running)
      ensures launched && background ==> Entered(table.View(), pids[0], Running) && (id != -1 ==> HasEntry(table.View(), pids[0], Running))
      ensures launched && !background && stopped ==> table.View() == Added(found, pids[0], text, Stopped) && Entered(table.View(), pids[0], Stopped)
      ensures launched && !background && !stopped ==> table.View() == found
      ensures launched && !background && !stopped ==> |reaped| == n && Elements(ReapedPids(reaped)) == Elements(pids)
      ensures launched && !background && !stopped && reaped != [] && reaped[|reaped| - 1].status.Exited? ==> status == reaped[|reaped| - 1].status.code
      ensures launched && !background && !stopped && reaped != [] && reaped[|reaped| - 1].status.Signaled? ==> status == 128 + reaped[|reaped| - 1].status.sig
    {
      stopped, reaped, id := false, [], -1;
      var prev := EnterRegion(Launch(background, n, text));
      found := table.View();
      var ok, stages := SpawnPipeline(background, n, text);
      launched, pids := ok, stages;
      if !ok {
        status := -1;
        EndCommand(prev, status);
      } else if background {
        var jobId := RecordJob(stages[0], text);
        id := jobId;
        status := 0;
        EndCommand(prev, status);
      } else {
        status, stopped, reaped := LaunchForeground(prev, stages, text);
      }
    }

    // ---------------------------------------------------------- src/builtins.c

    // jobs_print
    method ListStep()
      requires Valid() && pc.List? && handler.Idle?
      modifies this
      ensures Valid() && since == old(since) && sent == old(sent) && pc.Clear? && handler.Idle? && saved == old(saved)
      ensures log == old(log) + Listed(table.jobs[..]) && k.blocked == old(k.blocked)
    {
      ghost var w := Now();
      var out := table.Print();
      log := log + out;
      pc := Clear;
      Extend(since, w, Step);
      assert Now() == Apply(w, Step);
    }

    // jobs_clear_done
    method ClearStep()
      requires Valid() && pc.Clear? && handler.Idle?
      modifies Repr()
      ensures Valid() && since == old(since) && sent == old(sent) && pc == Release(0) && handler.Idle? && saved == old(saved)
      ensures table.View() == old(table.View().(slots := DoneCleared(table.jobs[..]))) && log == old(log)
    {
      ghost var w := Now();
      table.ClearDone();
      pc := Release(0);
      Extend(since, w, Step);
      assert Now() == Apply(w, Step);
    }

    /** The jobs found are listed, and of these the finished ones freed. */
    method BuiltinJobs() returns (ghost found: Table)
      requires Valid() && handler.Idle? && pc == Begin(ListJobs)
      modifies Repr()
      ensures CommandOver() && since == old(since) && sent == old(sent) && lastStatus == 0
      ensures OnlyMarked(old(table.View()), found) && log == old(log) + Listed(found.slots)
      ensures table.View() == found.(slots := DoneCleared(found.slots))
    {
      var prev := EnterRegion(ListJobs);
      Interference();
      found := table.View();
      ListStep();
      RegionIsBlocked();
      Interference();
      ClearStep();
      EndCommand(prev, 0);
    }

    // jobs_find_by_id in fg.
    method FindForFg(id: int) returns (slot: Option<nat>)
      requires Valid() && handler.Idle? && pc == FgLook(id)
      modifies this`pc, this`past
      ensures Valid() && Now() == old(Apply(Now(), Step))
      ensures pc == if slot.Some? then FgTty(slot.value) else Release(1)
      ensures slot == SlotOf(table.View(), id)
    {
      ghost var w := Now();
      slot := table.Find(ById(id));
      match slot {
        case Some(i) => pc, past := FgTty(i), past.(foregrounded := past.foregrounded + {id});
        case None => pc := Release(1);
      }
      Extend(since, w, Step);
      assert Now() == Apply(w, Step);
    }

    // kill(-pgid, SIGCONT)
    method ContinueStep(pgid: Pid, ghost next: Pc)
      requires Valid() && ShellEnabled(Now(), Step)
      requires ApplyStep(Now()) == WithProcs(Now(), ContinueGroup(k.procs, pgid)).(pc := next)
      modifies this`k, this`pc, this`sent
      ensures Valid() && Now() == old(Apply(Now(), Step)) && sent == old(sent) + [SigCont(pgid)]
    {
      ghost var w := Now();
      sent := sent + [SigCont(pgid)];
      k := k.(procs := ContinueGroup(k.procs, pgid));
      pc := next;
      Extend(since, w, Step);
      assert Now() == Apply(w, Step);
    }

    // job->state = JOB_RUNNING
    method SetRunning(i: nat, ghost next: Pc)
      requires Valid() && i < MAX_JOBS && ShellEnabled(Now(), Step)
      requires ApplyStep(Now()) == Now().(table := WithState(table.View(), i, Running), pc := next)
      modifies Repr()
      ensures Valid() && since == old(since) && sent == old(sent) && Now() == old(Apply(Now(), Step))
    {
      ghost var w := Now();
      table.SetState(i, Running);
      pc := next;
      Extend(since, w, Step);
      assert Now() == Apply(w, Step);
    }

    // Mark the job Running and send its group SIGCONT.
    method ResumeStopped(i: nat, pgid: Pid, text: string)
      requires Valid() && handler.Idle? && pc == FgResume(i) && i < MAX_JOBS
      requires table.jobs[i].state == Stopped && table.jobs[i].pid == pgid && table.jobs[i].command == text
      modifies Repr()
      ensures Valid() && since == old(since) && handler.Idle? && saved == old(saved)
      ensures pc.Wait? && pc.pgid == pgid && pc.text == text && pc.reaped == []
      ensures table.View() == old(WithState(table.View(), i, Running)) && sent == old(sent) + [SigCont(pgid)]
    {
      SetRunning(i, FgCont(i));
      ContinueStep(pgid, Wait(pgid, text, Members(ContinueGroup(k.procs, pgid), pgid), []));
    }

    // Give the job the terminal, resume it if it is stopped, and start waiting.
    method ResumeInForeground(i: nat, pgid: Pid, text: string)
      requires Valid() && handler.Idle? && pc == FgTty(i) && i < MAX_JOBS
      requires table.jobs[i].pid == pgid && table.jobs[i].command == text
      modifies Repr()
      ensures Valid() && since == old(since) && handler.Idle? && saved == old(saved)
      ensures pc.Wait? && pc.pgid == pgid && pc.text == text && pc.reaped == []
      ensures table.View() == old(Resumed(table.View(), i)) && sent == old(sent) + old(ContSignals(table.View(), i))
    {
      TakeTerminal(pgid, FgResume(i));
      if table.jobs[i].state == Stopped {
        ResumeStopped(i, pgid, text);
      } else {
        Advance(Wait(pgid, text, Members(k.procs, pgid), []));
      }
    }

    // fg of the job in slot i, up to the end of the command.
    method WaitForJob(prev: bool, i: nat) returns (code: int, ghost stopped: bool, ghost reaped: seq<Reaped>)
      requires Valid() && handler.Idle? && pc == FgTty(i) && i < MAX_JOBS && prev == saved
      modifies Repr()
      ensures CommandOver() && since == old(since) && lastStatus == code && sent == old(sent) + old(ContSignals(table.View(), i))
      ensures table.View() == AfterFg(old(table.View()), i, stopped)
      ensures !stopped ==> code == LastCode(reaped) && !Tracked(table.View(), old(table.jobs[i].pid))
    {
      var pgid, text := table.jobs[i].pid, table.jobs[i].command;
      ResumeInForeground(i, pgid, text);
      code, stopped, reaped := WaitAndEnd(prev, pgid, text);
    }

    // fg from the look-up on.
    method LookAndWait(id: int, prev: bool) returns (code: int, ghost slot: Option<nat>, ghost stopped: bool, ghost reaped: seq<Reaped>)
      requires Valid() && handler.Idle? && pc == FgLook(id) && prev == saved
      modifies Repr()
      ensures CommandOver() && since == old(since) && lastStatus == code && slot == SlotOf(old(table.View()), id)
      ensures slot.None? ==> code == 1 && table.View() == old(table.View()) && sent == old(sent)
      ensures slot.Some? ==> sent == old(sent) + ContSignals(old(table.View()), slot.value)
      ensures slot.Some? ==> table.View() == AfterFg(old(table.View()), slot.value, stopped)
      ensures slot.Some? && !stopped ==> code == LastCode(reaped) && !Tracked(table.View(), old(table.View()).slots[slot.value].pid)
    {
      stopped, reaped := false, [];
      var job := FindForFg(id);
      slot := job;
      if job.None? {
        code := 1;
        EndCommand(prev, code);
      } else {
        code, stopped, reaped := WaitForJob(prev, job.value);
      }
    }

    /** fg. An unknown id gives 1 and changes nothing. Otherwise a stopped job is marked Running and
        its group continued; and then the wait either ends with the job stopped and recorded so, or
        with its entry gone and the code of the member collected last. */
    method BuiltinFg(id: int) returns (code: int, ghost found: Table, ghost slot: Option<nat>, ghost stopped: bool, ghost reaped: seq<Reaped>)
      requires Valid() && handler.Idle? && pc == Begin(Fg(id))
      modifies Repr()
      ensures CommandOver() && since == old(since) && lastStatus == code
      ensures OnlyMarked(old(table.View()), found) && slot == SlotOf(found, id)
      ensures slot.None? ==> code == 1 && table.View() == found && sent == old(sent)
      ensures slot.Some? ==> sent == old(sent) + if found.slots[slot.value].state == Stopped then [SigCont(found.slots[slot.value].pid)] else []
      ensures slot.Some? ==> |table.View().slots| == |found.slots| && table.View().nextId == found.nextId
      ensures slot.Some? ==> forall j :: 0 <= j < |found.slots| && j != slot.value ==> table.View().slots[j] == found.slots[j]
      ensures slot.Some? && stopped ==> table.View().slots[slot.value] == found.slots[slot.value].(state := Stopped)
      ensures slot.Some? && !stopped ==> !table.View().slots[slot.value].inUse
      ensures slot.Some? && !stopped ==> !Tracked(table.View(), found.slots[slot.value].pid)
      ensures slot.Some? && !stopped && reaped == [] ==> code == 0
      ensures slot.Some? && !stopped && reaped != [] && reaped[|reaped| - 1].status.Exited? ==> code == reaped[|reaped| - 1].status.code
      ensures slot.Some? && !stopped && reaped != [] && reaped[|reaped| - 1].status.Signaled? ==> code == 128 + reaped[|reaped| - 1].status.sig
    {
      var prev := EnterRegion(Fg(id));
      Interference();
      found := table.View();
      TableIsWellFormed();
      code, slot, stopped, reaped := LookAndWait(id, prev);
      if slot.Some? {
        FgTouchesOneEntry(found, slot.value, stopped);
      }
    }

    method ResumeQuietly(id: int, i: nat)
      requires Valid() && handler.Idle? && pc == BgLook(id) && i < MAX_JOBS && i == First(table.View().slots, ById(id))
      requires table.jobs[i].state == Stopped
      modifies Repr()
      ensures Valid() && since == old(since) && handler.Idle? && saved == old(saved) && pc == Release(0)
      ensures table.View() == old(WithState(table.View(), i, Running)) && sent == old(sent) + [SigCont(old(table.jobs[i].pid))]
    {
      SetRunning(i, BgCont(i));
      ContinueStep(table.jobs[i].pid, Release(0));
    }

    // Resume the job if it is stopped.
    method ResumeInBackground(id: int, i: nat)
      requires Valid() && handler.Idle? && pc == BgLook(id) && i < MAX_JOBS && i == First(table.View().slots, ById(id))
      modifies Repr()
      ensures Valid() && since == old(since) && handler.Idle? && saved == old(saved) && pc == Release(0)
      ensures table.View() == old(Resumed(table.View(), i)) && sent == old(sent) + old(ContSignals(table.View(), i))
    {
      if table.jobs[i].state == Stopped {
        ResumeQuietly(id, i);
      } else {
        Advance(Release(0));
      }
    }

    // The body of bg's blocked region.
    method LookAndResume(id: int) returns (code: int, slot: Option<nat>)
      requires Valid() && handler.Idle? && pc == BgLook(id)
      modifies Repr()
      ensures Valid() && since == old(since) && handler.Idle? && saved == old(saved) && pc == Release(code)
      ensures slot == SlotOf(old(table.View()), id) && code == if slot.Some? then 0 else 1
      ensures slot.None? ==> table.View() == old(table.View()) && sent == old(sent)
      ensures slot.Some? ==>
        table.View() == Resumed(old(table.View()), slot.value) && sent == old(sent) + ContSignals(old(table.View()), slot.value)
    {
      slot := table.Find(ById(id));
      if slot.None? {
        code := 1;
        Advance(Release(1));
      } else {
        code := 0;
        ResumeInBackground(id, slot.value);
      }
    }

    /** bg. An unknown id gives 1 and changes nothing. Otherwise the code is 0, and exactly a stopped
        job is marked Running and its group sent SIGCONT. */
    method BuiltinBg(id: int) returns (code: int, ghost found: Table, ghost slot: Option<nat>)
      requires Valid() && handler.Idle? && pc == Begin(Bg(id))
      modifies Repr()
      ensures CommandOver() && since == old(since) && lastStatus == code
      ensures OnlyMarked(old(table.View()), found) && slot == SlotOf(found, id)
      ensures slot.None? ==> code == 1 && table.View() == found && sent == old(sent)
      ensures slot.Some? ==> code == 0
      ensures slot.Some? && found.slots[slot.value].state != Stopped ==> table.View() == found && sent == old(sent)
      ensures slot.Some? && found.slots[slot.value].state == Stopped ==> table.View() == WithState(found, slot.value, Running)
      ensures slot.Some? && found.slots[slot.value].state == Stopped ==> sent == old(sent) + [SigCont(found.slots[slot.value].pid)]
    {
      var prev := EnterRegion(Bg(id));
      Interference();
      found := table.View();
      code, slot := LookAndResume(id);
      EndCommand(prev, code);
    }

    // kill(target, SIGTERM), with SIGCHLD no longer blocked; it fails when no such group is left.
    method SendTerm(target: Pid) returns (code: int)
      requires Valid() && handler.Idle? && pc == KillSend(target)
      modifies this`pc, this`lastStatus, this`sent
      ensures Valid() && pc.Top? && handler.Idle? && lastStatus == code
      ensures code == (if GroupExists(k.procs, target) then 0 else 1) && sent == old(sent) + [SigTerm(target)]
    {
      ghost var w := Now();
      SendTermStep(w);
      sent := sent + [SigTerm(target)];
      code := if GroupExists(k.procs, target) then 0 else 1;
      lastStatus, pc := code, Top;
      Extend(since, w, Step);
      assert Now() == Apply(w, Step);
    }

    // The "no such job" exit of kill.
    method KillNoJob(prev: bool)
      requires Valid() && handler.Idle? && pc == KillRelease(None) && prev == saved
      modifies this
      ensures Valid() && since == old(since) && sent == old(sent) && handler.Idle? && pc.Top? && lastStatus == 1
    {
      ghost var w := Now();
      KillNoJobStep(w);
      k := k.(blocked := prev);
      lastStatus, pc := 1, Top;
      Extend(since, w, Step);
      assert Now() == Apply(w, Step);
    }

    method TargetOfKill(id: int) returns (target: Option<Pid>)
      requires Valid() && handler.Idle? && pc == KillLook(id)
      modifies this`pc
      ensures Valid() && handler.Idle? && saved == old(saved) && pc == KillRelease(target)
      ensures target == GroupOf(table.View(), id)
    {
      var slot := table.Find(ById(id));
      target := if slot.Some? then Some(table.jobs[slot.value].pid) else None;
      Advance(KillRelease(target));
    }

    method KillReleased(prev: bool, target: Pid)
      requires Valid() && handler.Idle? && pc == KillRelease(Some(target)) && prev == saved
      modifies this
      ensures Valid() && since == old(since) && sent == old(sent) && handler.Idle? && pc == KillSend(target)
    {
      UnblockSigchld(prev, KillSend(target));
    }

    // jobs_find_by_id in kill, up to the end of the blocked region.
    method FindForKill(id: int, prev: bool) returns (target: Option<Pid>)
      requires Valid() && handler.Idle? && pc == KillLook(id) && prev == saved
      modifies this
      ensures Valid() && since == old(since) && sent == old(sent) && handler.Idle?
      ensures target == GroupOf(table.View(), id)
      ensures target.None? ==> pc.Top? && lastStatus == 1
      ensures target.Some? ==> pc == KillSend(target.value)
    {
      target := TargetOfKill(id);
      if target.None? {
        KillNoJob(prev);
      } else {
        KillReleased(prev, target.value);
      }
    }

    method SendAfterDelay(target: Pid) returns (code: int)
      requires Valid() && handler.Idle? && pc == KillSend(target)
      modifies Repr()
      ensures Valid() && since == old(since) && pc.Top? && handler.Idle? && lastStatus == code
      ensures code == (if GroupExists(k.procs, target) then 0 else 1) && sent == old(sent) + [SigTerm(target)]
      ensures OnlyMarked(old(table.View()), table.View())
    {
      Interference();
      code := SendTerm(target);
    }

    /** kill of a job. An unknown id gives 1 and signals nobody. Otherwise SIGTERM is sent, once, to
        the job's group, and the code says whether there was anyone left in it. */
    method BuiltinKill(id: int) returns (code: int, ghost found: Table)
      requires Valid() && handler.Idle? && pc == Begin(Kill(id))
      modifies Repr()
      ensures CommandOver() && since == old(since) && lastStatus == code
      ensures OnlyMarked(old(table.View()), found) && OnlyMarked(found, table.View())
      ensures GroupOf(found, id).None? ==> code == 1 && sent == old(sent)
      ensures GroupOf(found, id).Some? ==> sent == old(sent) + [SigTerm(GroupOf(found, id).value)]
      ensures GroupOf(found, id).Some? ==> (code == 0 <==> exists p :: p in k.procs && k.procs[p].group == GroupOf(found, id).value)
      ensures code == 0 || code == 1
    {
      var prev := EnterRegion(Kill(id));
      Interference();
      found := table.View();
      var target := FindForKill(id, prev);
      if target.None? {
        code := 1;
      } else {
        code := SendAfterDelay(target.value);
      }
      AfterCommand();
    }

    // ---------------------------------------------------------- src/main.c, the loop

    ghost method ReadCommand(cmd: Command)
      requires Valid() && handler.Idle? && pc.Read? && (cmd.Launch? ==> 1 <= cmd.n <= MAX_COMMANDS)
      modifies this`pc, this`since
      ensures Valid() && pc == Begin(cmd) && since == Now()
    {
      ghost var w := Now();
      pc := Begin(cmd);
      ReachableStep(w, Take(cmd));
      assert Now() == Apply(w, Take(cmd));
      since := Now();
      FollowsSelf(since);
    }

    method RunOther(code: int)
      requires Valid() && handler.Idle? && pc == Begin(Other(code))
      modifies this`pc, this`lastStatus
      ensures CommandOver() && lastStatus == code
    {
      ghost var w := Now();
      OtherStep(w);
      lastStatus, pc := code, Top;
      Extend(since, w, Step);
      assert Now() == Apply(w, Step);
      AfterCommand();
    }

    /** A command, from the state in which it was read: it takes the machine's steps for it, and
        no other, back to the top of the loop. */
    method RunCommand(cmd: Command)
      requires Valid() && handler.Idle? && pc == Begin(cmd) && since == Now()
      modifies Repr()
      ensures CommandOver() && since == old(Now()) && Follows(old(Now()), Now())
    {
      match cmd {
        case Launch(background, n, text) =>
          var status;
          ghost var found, launched, stopped, pids, reaped, jobId;
          status, found, launched, stopped, pids, reaped, jobId := ExecutePipeline(background, n, text);
        case ListJobs =>
          ghost var found := BuiltinJobs();
        case Fg(id) =>
          var code;
          ghost var found, slot, stopped, reaped;
          code, found, slot, stopped, reaped := BuiltinFg(id);
        case Bg(id) =>
          var code;
          ghost var found, slot;
          code, found, slot := BuiltinBg(id);
        case Kill(id) =>
          var code;
          ghost var found;
          code, found := BuiltinKill(id);
        case Other(code) => RunOther(code);
      }
    }

    /** The loop: whatever commands are read and whatever the children do meanwhile, every
        command ends with the shell's original mask and, if interactive, its terminal. */
    method Repl(cmds: seq<Command>)
      requires CommandOver()
      requires forall i :: 0 <= i < |cmds| && cmds[i].Launch? ==> 1 <= cmds[i].n <= MAX_COMMANDS
      modifies Repr()
      ensures CommandOver()
    {
      for i := 0 to |cmds|
        invariant CommandOver()
      {
        ghost var found := Prompt();
        ReadCommand(cmds[i]);
        RunCommand(cmds[i]);
      }
    }
  }
}
