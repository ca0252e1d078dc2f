/** Every step of the shell keeps the invariant; hence every run does. */
module JobControlShell {
  import opened Jobs
  import opened JobControl
  import opened JobControlInvariant

  // v differs from w at most in its mask, terminal, control point and last status.
  ghost predicate OnlyControl(w: World, v: World) {
    && v.env == w.env && v.table == w.table && v.log == w.log && v.past == w.past
    && v.k.procs == w.k.procs && v.k.pending == w.k.pending
    && v.handler == w.handler
  }

  // Such a step keeps the invariant when no half-made pipeline, no wait and no listing is left behind.
  lemma ControlKeepsInv(w: World, v: World)
    requires Inv(w) && OnlyControl(w, v)
    requires MaskInv(v) && SlotInv(v) && TtyInv(v) && SpawnInv(v)
    requires !w.pc.Clear? && !v.pc.Wait?
    requires w.pc.Spawn? ==> w.pc.placed
    ensures Inv(v)
  {
    assert EntryInv(v);
    assert ProcInv(v);
    assert LogInv(v);
  }

  // No child moves, and none is in the middle of being placed.
  lemma ProcFrame(w: World, v: World)
    requires ProcInv(w) && SoloInv(w) && ZombieInv(w)
    requires v.k.procs == w.k.procs && v.env == w.env && v.past.solo == w.past.solo
    requires v.k.pending == w.k.pending && v.handler == w.handler
    requires w.pc.Spawn? ==> w.pc.placed
    ensures ProcInv(v) && SoloInv(v) && ZombieInv(v)
  {
  }

  predicate IsControl(pc: Pc) {
    || pc.Top? || pc.NotifyEnd? || pc.Begin? || pc.Release? || pc.KillLook? || pc.KillRelease? || pc.KillSend?
    || pc.TakeTty? || pc.FgTty?
    || (pc.Spawn? && pc.placed)
  }

  lemma ControlBegin(w: World)
    requires MaskInv(w) && SlotInv(w) && TtyInv(w) && w.handler.Idle? && w.pc.Begin?
    ensures var v := ApplyBegin(w); MaskInv(v) && SlotInv(v) && TtyInv(v) && OnlyControl(w, v) && !v.pc.Wait?
  {
  }

  lemma ControlTty(w: World)
    requires MaskInv(w) && SlotInv(w) && TtyInv(w) && w.handler.Idle? && StepEnabled(w) && (w.pc.FgTty? || w.pc.TakeTty?)
    ensures var v := ApplyStep(w); MaskInv(v) && SlotInv(v) && TtyInv(v) && OnlyControl(w, v) && !v.pc.Wait?
  {
  }

  lemma ControlMask(w: World)
    requires WellFormed(w.table) && MaskInv(w) && SlotInv(w) && TtyInv(w)
    requires w.handler.Idle? && StepEnabled(w) && IsControl(w.pc)
    ensures var v := ApplyStep(w); MaskInv(v) && SlotInv(v) && TtyInv(v) && OnlyControl(w, v) && !v.pc.Wait?
  {
    if w.pc.Begin? {
      ControlBegin(w);
    } else if w.pc.FgTty? || w.pc.TakeTty? {
      ControlTty(w);
    }
  }

  lemma ControlSpawn(w: World)
    requires SpawnInv(w)
    requires StepEnabled(w) && IsControl(w.pc)
    ensures SpawnInv(ApplyStep(w))
  {
    if w.pc.Spawn? {
      assert Spawned(ApplyStep(w), w.pc.pids);
    }
  }

  lemma ControlStepKeepsInv(w: World)
    requires Inv(w) && ShellEnabled(w, Step) && IsControl(w.pc)
    ensures Inv(ApplyShell(w, Step))
  {
    ControlMask(w);
    ControlSpawn(w);
    ControlKeepsInv(w, ApplyShell(w, Step));
  }

  lemma TakeKeepsInv(w: World, cmd: Command)
    requires Inv(w) && ShellEnabled(w, Take(cmd))
    ensures Inv(ApplyShell(w, Take(cmd)))
  {
  }

  // ------------------------------------------------------------ spawning

  // Where every child is, once all of them are placed.
  lemma AllPlaced(w: World, p: Pid)
    requires ProcInv(w) && p in w.k.procs && !Unplaced(w, p)
    ensures w.k.procs[p].group == w.k.procs[p].target
  {
  }

  // A fresh pid is nobody's group.
  lemma FreshIsNoTarget(w: World, p: Pid)
    requires ProcInv(w) && w.pc.Spawn? && w.pc.placed && FreshPid(w, p)
    ensures forall q :: q in w.k.procs ==> w.k.procs[q].target != p
  {
    forall q | q in w.k.procs ensures w.k.procs[q].target != p {
      AllPlaced(w, q);
    }
  }

  lemma ForkSpawn(w: World, p: Pid)
    requires ProcInv(w) && SpawnInv(w) && SoloInv(w) && ShellEnabled(w, Fork(p))
    ensures var v := ApplyShell(w, Fork(p)); SpawnInv(v) && SoloInv(v)
  {
    FreshIsNoTarget(w, p);
    var v := ApplyShell(w, Fork(p));
    var pids := w.pc.pids + [p];
    assert v.pc.pids == pids;
    forall q | q in v.k.procs && v.k.procs[q].target == pids[0] ensures q in pids {
      if q != p {
        assert q in w.pc.pids;
      } else {
        assert pids[|pids| - 1] == p;
      }
    }
    assert Spawned(v, pids);
  }

  lemma ForkEntry(w: World, p: Pid)
    requires EntryInv(w) && ShellEnabled(w, Fork(p))
    ensures EntryInv(ApplyShell(w, Fork(p)))
  {
  }

  lemma ForkProc(w: World, p: Pid)
    requires ProcInv(w) && SpawnInv(w) && ShellEnabled(w, Fork(p))
    ensures ProcInv(ApplyShell(w, Fork(p)))
  {
    var v := ApplyShell(w, Fork(p));
    assert Unplaced(v, p);
    forall q | q in w.k.procs ensures w.k.procs[q].group == w.k.procs[q].target {
      AllPlaced(w, q);
    }
  }

  lemma ForkKeepsInv(w: World, p: Pid)
    requires Inv(w) && ShellEnabled(w, Fork(p))
    ensures Inv(ApplyShell(w, Fork(p)))
  {
    var v := ApplyShell(w, Fork(p));
    ForkSpawn(w, p);
    ForkEntry(w, p);
    ForkProc(w, p);
    assert Zombies(v.k.procs) == Zombies(w.k.procs);
  }

  lemma SpawnFailKeepsInv(w: World)
    requires Inv(w) && ShellEnabled(w, SpawnFail)
    ensures Inv(ApplyShell(w, SpawnFail))
  {
  }

  // Marking the last stage as placed, once it is.
  lemma MarkPlacedKeepsInv(u: World)
    requires Inv(u) && u.pc.Spawn? && !u.pc.placed && u.pc.pids != []
    requires var p := u.pc.pids[|u.pc.pids| - 1]; p in u.k.procs && u.k.procs[p].group == u.k.procs[p].target
    ensures Inv(u.(pc := u.pc.(placed := true)))
  {
    var v := u.(pc := u.pc.(placed := true));
    assert ProcInv(v);
    assert Spawned(v, u.pc.pids);
  }

  /** The parent's own setpgid settles the last stage whichever of the two calls came first. */
  lemma PlaceLastKeepsInv(w: World)
    requires Inv(w) && w.pc.Spawn? && !w.pc.placed && ShellEnabled(w, Step)
    ensures Inv(ApplyShell(w, Step))
  {
    var p := w.pc.pids[|w.pc.pids| - 1];
    SetpgidPlaces(w, p);
    PlacedKeepsInv(w, p, w.k.procs[p].joined);
    assert w.k.procs[p].target == w.pc.pids[0];
    MarkPlacedKeepsInv(Placed(w, p, w.k.procs[p].joined));
  }

  // ------------------------------------------------------------ table operations

  // The entry a successful jobs_add writes, seen from the values of the table.
  lemma AddedSlots(t: Table, pid: int, command: string, state: JobState)
    requires WellFormed(t) && pid > 0 && !Tracked(t, pid)
    ensures var u := Added(t, pid, command, state);
      && WellFormed(u)
      && u.nextId >= t.nextId
      && forall i :: 0 <= i < MAX_JOBS ==>
           u.slots[i] == t.slots[i] || (u.slots[i] == Job(pid, t.nextId, state, Exited(0), true, Clip(command)) && u.nextId == t.nextId + 1)
  {
    AddFillsOneFreeSlot(t, pid, command, state);
  }

  lemma RecordTable(w: World)
    requires WellFormed(w.table) && ProcInv(w) && EntryInv(w) && LogInv(w) && SpawnInv(w)
    requires w.pc.Record? && w.pc.pids != [] && w.handler.Idle?
    ensures var v := ApplyStep(w); WellFormed(v.table) && EntryInv(v) && LogInv(v)
  {
    var v := ApplyStep(w);
    AddedSlots(w.table, w.pc.pids[0], w.pc.text, Running);
    forall i | 0 <= i < MAX_JOBS && v.table.slots[i].inUse ensures EntryOk(v, v.table.slots[i]) {
      if v.table.slots[i] == w.table.slots[i] {
        assert EntryOk(w, w.table.slots[i]);
      }
    }
  }

  lemma RecordKeepsInv(w: World)
    requires Inv(w) && w.pc.Record? && ShellEnabled(w, Step)
    ensures Inv(ApplyShell(w, Step))
  {
    RecordTable(w);
    ProcFrame(w, ApplyShell(w, Step));
  }

  // Appending reports of live entries, each once, repeats no earlier Done report.
  lemma LogGrows(w: World, more: seq<Report>)
    requires LogInv(w) && !w.pc.Clear?
    requires forall r :: r in more ==>
      exists i :: 0 <= i < |w.table.slots| && w.table.slots[i].inUse && w.table.slots[i].id == r.id
    requires forall a, b :: 0 <= a < b < |more| ==> more[a].id != more[b].id
    ensures var log := w.log + more;
      forall a, b :: 0 <= a < b < |log| && log[a].state == Done && log[b].state == Done ==> log[a].id != log[b].id
  {
    var log := w.log + more;
    forall a, b | 0 <= a < b < |log| && log[a].state == Done && log[b].state == Done
      ensures log[a].id != log[b].id
    {
      if a < |w.log| <= b {
        assert log[a] in w.log;
        assert log[b] == more[b - |w.log|];
        assert log[b] in more;
      }
    }
  }

  lemma ClearedTable(w: World, v: World)
    requires WellFormed(w.table) && EntryInv(w)
    requires v.table == w.table.(slots := DoneCleared(w.table.slots))
    requires v.k.procs == w.k.procs && v.handler == w.handler && v.past == w.past
    ensures WellFormed(v.table) && EntryInv(v)
  {
  }

  lemma ClearKeepsInv(w: World)
    requires Inv(w) && w.pc.Clear? && ShellEnabled(w, Step)
    ensures Inv(ApplyShell(w, Step))
  {
    var v := ApplyShell(w, Step);
    ClearedTable(w, v);
    assert LogInv(v);
  }

  lemma NotifyLog(w: World)
    requires WellFormed(w.table) && LogInv(w) && w.pc.Notify?
    ensures LogInv(ApplyStep(w))
  {
    var v := ApplyStep(w);
    NoticesExact(w.table.slots);
    LogGrows(w, Notices(w.table.slots));
    forall r, i | r in v.log && r.state == Done && 0 <= i < MAX_JOBS && v.table.slots[i].inUse
      ensures r.id < v.table.nextId && v.table.slots[i].id != r.id
    {
      if r in w.log {
      } else {
        assert r in Notices(w.table.slots);
      }
    }
  }

  lemma NotifyKeepsInv(w: World)
    requires Inv(w) && w.pc.Notify? && ShellEnabled(w, Step)
    ensures Inv(ApplyShell(w, Step))
  {
    var v := ApplyShell(w, Step);
    ClearedTable(w, v);
    NotifyLog(w);
  }

  lemma ListKeepsInv(w: World)
    requires Inv(w) && w.pc.List? && ShellEnabled(w, Step)
    ensures Inv(ApplyShell(w, Step))
  {
    var v := ApplyShell(w, Step);
    ListedExact(w.table.slots);
    LogGrows(w, Listed(w.table.slots));
    assert LogInv(v);
  }

  // Setting the state of a foregrounded entry to Running or Stopped.
  lemma WithStateKeeps(w: World, i: nat, state: JobState)
    requires WellFormed(w.table) && EntryInv(w) && LogInv(w) && !w.pc.Clear?
    requires i < MAX_JOBS && state != Done
    requires w.table.slots[i].inUse ==> w.table.slots[i].id in w.past.foregrounded
    ensures var v := w.(table := WithState(w.table, i, state)); WellFormed(v.table) && EntryInv(v) && LogInv(v)
  {
  }

  // Finding a job for fg touches no entry, but the job counts as foregrounded from now on.
  lemma FgLookEntries(w: World)
    requires WellFormed(w.table) && EntryInv(w) && LogInv(w) && w.pc.FgLook?
    ensures var v := ApplyStep(w); EntryInv(v) && LogInv(v) && SlotInv(v)
  {
    var v := ApplyStep(w);
    forall i | 0 <= i < MAX_JOBS && v.table.slots[i].inUse ensures EntryOk(v, v.table.slots[i]) {
      assert EntryOk(w, w.table.slots[i]);
    }
  }

  lemma FgLookKeepsInv(w: World)
    requires Inv(w) && w.pc.FgLook? && ShellEnabled(w, Step)
    ensures Inv(ApplyShell(w, Step))
  {
    FgLookEntries(w);
    ProcFrame(w, ApplyShell(w, Step));
  }

  lemma SameEntries(u: World, v: World)
    requires EntryInv(u) && LogInv(u) && !u.pc.Clear?
    requires v.table == u.table && v.k.procs == u.k.procs && v.handler == u.handler && v.past == u.past && v.log == u.log
    ensures EntryInv(v) && LogInv(v)
  {
  }

  lemma BgLookEntries(w: World)
    requires WellFormed(w.table) && EntryInv(w) && LogInv(w) && w.pc.BgLook?
    ensures var v := ApplyStep(w); WellFormed(v.table) && EntryInv(v) && LogInv(v) && SlotInv(v)
  {
    var i := First(w.table.slots, ById(w.pc.id));
    if i < |w.table.slots| && w.table.slots[i].state == Stopped {
      assert EntryOk(w, w.table.slots[i]);
      WithStateKeeps(w, i, Running);
      SameEntries(w.(table := WithState(w.table, i, Running)), ApplyStep(w));
    } else {
      SameEntries(w, ApplyStep(w));
    }
  }

  lemma BgLookKeepsInv(w: World)
    requires Inv(w) && w.pc.BgLook? && ShellEnabled(w, Step)
    ensures Inv(ApplyShell(w, Step))
  {
    BgLookEntries(w);
    ProcFrame(w, ApplyShell(w, Step));
  }

  lemma ContinueKeepsInv(w: World, g: Pid)
    requires Inv(w)
    ensures Inv(WithProcs(w, ContinueGroup(w.k.procs, g)))
  {
    var v := WithProcs(w, ContinueGroup(w.k.procs, g));
    assert Zombies(v.k.procs) == Zombies(w.k.procs);
    LivesKeepInv(w, v);
  }

  lemma BgContKeepsInv(w: World)
    requires Inv(w) && w.pc.BgCont? && ShellEnabled(w, Step)
    ensures Inv(ApplyShell(w, Step))
  {
    var g := w.table.slots[w.pc.slot].pid;
    ContinueKeepsInv(w, g);
    var u := WithProcs(w, ContinueGroup(w.k.procs, g));
    var v := ApplyShell(w, Step);
    assert v == u.(pc := Release(0));
    assert ProcInv(v);
  }

  // ------------------------------------------------------------ the foreground wait

  // A wait may start on any group whose entry, if it has one, counts as foregrounded.
  lemma StartWaitKeepsInv(w: World, g: Pid, text: string)
    requires Inv(w) && w.handler.Idle? && g > 0
    requires w.pc.GiveTty? || w.pc.FgResume? || w.pc.FgCont?
    requires forall i :: 0 <= i < MAX_JOBS && w.table.slots[i].inUse && w.table.slots[i].pid == g ==>
      w.table.slots[i].id in w.past.foregrounded
    requires g in w.k.procs ==> w.k.procs[g].target == g
    requires w.env.interactive && !w.pc.GiveTty? ==> TtyGiven(w, g)
    ensures Inv(StartWait(Tcsetpgrp(w, g), g, text))
  {
    var v := StartWait(Tcsetpgrp(w, g), g, text);
    assert v.k.procs == w.k.procs && v.table == w.table && v.past == w.past;
    ProcFrame(w, v);
    SameEntries(w, v);
  }

  lemma FgResumeEntries(w: World)
    requires WellFormed(w.table) && EntryInv(w) && LogInv(w) && SlotInv(w) && w.pc.FgResume?
    requires w.table.slots[w.pc.slot].state == Stopped
    ensures var v := ApplyStep(w); WellFormed(v.table) && EntryInv(v) && LogInv(v) && SlotInv(v)
  {
    WithStateKeeps(w, w.pc.slot, Running);
  }

  lemma FgResumeKeepsInv(w: World)
    requires Inv(w) && w.pc.FgResume? && ShellEnabled(w, Step)
    ensures Inv(ApplyShell(w, Step))
  {
    var e := w.table.slots[w.pc.slot];
    if e.state == Stopped {
      FgResumeEntries(w);
      ProcFrame(w, ApplyShell(w, Step));
    } else {
      assert EntryOk(w, e);
      assert Tcsetpgrp(w, e.pid) == w;
      StartWaitKeepsInv(w, e.pid, e.command);
    }
  }

  lemma FgContKeepsInv(w: World)
    requires Inv(w) && w.pc.FgCont? && ShellEnabled(w, Step)
    ensures Inv(ApplyShell(w, Step))
  {
    var e := w.table.slots[w.pc.slot];
    ContinueKeepsInv(w, e.pid);
    var u := WithProcs(w, ContinueGroup(w.k.procs, e.pid));
    assert Tcsetpgrp(u, e.pid) == u;
    StartWaitKeepsInv(u, e.pid, e.command);
  }

  lemma WaitReapEntries(w: World, p: Pid)
    requires WellFormed(w.table) && ProcInv(w) && EntryInv(w) && WaitInv(w) && ShellEnabled(w, WaitReap(p))
    ensures EntryInv(ApplyShell(w, WaitReap(p)))
  {
    var v := ApplyShell(w, WaitReap(p));
    AllPlaced(w, p);
    forall i | 0 <= i < MAX_JOBS && v.table.slots[i].inUse ensures EntryOk(v, v.table.slots[i]) {
      assert EntryOk(w, w.table.slots[i]);
    }
  }

  lemma WaitReapCollects(w: World, p: Pid)
    requires WellFormed(w.table) && WaitInv(w) && ShellEnabled(w, WaitReap(p))
    ensures WaitInv(ApplyShell(w, WaitReap(p)))
  {
    var v := ApplyShell(w, WaitReap(p));
    assert v.pc.reaped[|w.pc.reaped|].pid == p;
    forall q | q in w.pc.members
      ensures (q in v.k.procs && v.k.procs[q].group == v.pc.pgid) || Collected(v.pc.reaped, q)
    {
      if Collected(w.pc.reaped, q) {
        var j :| 0 <= j < |w.pc.reaped| && w.pc.reaped[j].pid == q;
        assert v.pc.reaped[j].pid == q;
      }
    }
  }

  lemma WaitReapKeepsInv(w: World, p: Pid)
    requires Inv(w) && ShellEnabled(w, WaitReap(p))
    ensures Inv(ApplyShell(w, WaitReap(p)))
  {
    var v := ApplyShell(w, WaitReap(p));
    assert Zombies(v.k.procs) <= Zombies(w.k.procs);
    WaitReapCollects(w, p);
    WaitReapEntries(w, p);
  }

  lemma RecordStopAdds(w: World)
    requires WellFormed(w.table) && ProcInv(w) && EntryInv(w) && WaitInv(w) && LogInv(w) && w.pc.Wait?
    requires !Tracked(w.table, w.pc.pgid) && First(w.table.slots, ByPid(w.pc.pgid)) == |w.table.slots|
    ensures var v := RecordStop(w, w.pc.pgid, w.pc.text); EntryInv(v) && LogInv(v)
  {
    var v := RecordStop(w, w.pc.pgid, w.pc.text);
    AddedSlots(w.table, w.pc.pgid, w.pc.text, Stopped);
    forall i | 0 <= i < MAX_JOBS && v.table.slots[i].inUse ensures EntryOk(v, v.table.slots[i]) {
      if v.table.slots[i] == w.table.slots[i] {
        assert EntryOk(w, w.table.slots[i]);
      }
    }
    assert LogInv(v);
  }

  lemma RecordStopTable(w: World)
    requires WellFormed(w.table) && ProcInv(w) && EntryInv(w) && WaitInv(w) && LogInv(w) && w.pc.Wait?
    ensures var v := RecordStop(w, w.pc.pgid, w.pc.text); WellFormed(v.table) && EntryInv(v) && LogInv(v)
  {
    var g := w.pc.pgid;
    var i := First(w.table.slots, ByPid(g));
    if i < |w.table.slots| {
      WithStateKeeps(w, i, Stopped);
      assert LogInv(RecordStop(w, g, w.pc.text));
    } else {
      assert !Tracked(w.table, g) by {
        if j :| 0 <= j < MAX_JOBS && w.table.slots[j].inUse && w.table.slots[j].pid == g {
          assert Matches(ByPid(g), w.table.slots[j]);
        }
      }
      AddedSlots(w.table, g, w.pc.text, Stopped);
      RecordStopAdds(w);
    }
  }

  lemma RecordStopKeepsInv(w: World, code: int)
    requires Inv(w) && w.pc.Wait? && w.handler.Idle?
    ensures Inv(RecordStop(w, w.pc.pgid, w.pc.text).(pc := TakeTty(code)))
  {
    var u := RecordStop(w, w.pc.pgid, w.pc.text);
    var v := u.(pc := TakeTty(code));
    RecordStopTable(w);
    SameEntries(u, v);
    ProcFrame(w, v);
  }

  // waitpid has told of p's stop.
  function Reported(w: World, p: Pid): World
    requires p in w.k.procs && w.k.procs[p].life.Halted?
  {
    WithProcs(w, w.k.procs[p := w.k.procs[p].(life := Halted(w.k.procs[p].life.sig, true))])
  }

  lemma ReportedKeepsInv(w: World, p: Pid)
    requires Inv(w) && p in w.k.procs && w.k.procs[p].life.Halted?
    ensures Inv(Reported(w, p))
  {
    var u := Reported(w, p);
    assert Zombies(u.k.procs) == Zombies(w.k.procs);
    assert OnlyLives(w, u);
    LivesKeepInv(w, u);
  }

  lemma WaitStopIs(w: World, p: Pid)
    requires ShellEnabled(w, WaitStop(p))
    ensures ApplyShell(w, WaitStop(p)) == RecordStop(Reported(w, p), w.pc.pgid, w.pc.text).(pc := TakeTty(128 + w.k.procs[p].life.sig))
  {
  }

  lemma WaitStopKeepsInv(w: World, p: Pid)
    requires Inv(w) && ShellEnabled(w, WaitStop(p))
    ensures Inv(ApplyShell(w, WaitStop(p)))
  {
    ReportedKeepsInv(w, p);
    RecordStopKeepsInv(Reported(w, p), 128 + w.k.procs[p].life.sig);
    WaitStopIs(w, p);
  }

  // Removing the group's entry at the end of a wait.
  lemma RemovedTable(w: World, v: World)
    requires WellFormed(w.table) && EntryInv(w) && LogInv(w) && w.pc.Wait?
    requires v.table == Removed(w.table, ByPid(w.pc.pgid)) && !v.pc.Clear?
    requires v.k.procs == w.k.procs && v.handler == w.handler && v.past == w.past && v.log == w.log
    ensures WellFormed(v.table) && EntryInv(v) && LogInv(v)
  {
  }

  lemma WaitEndKeepsInv(w: World)
    requires Inv(w) && w.pc.Wait? && ShellEnabled(w, Step)
    ensures Inv(ApplyShell(w, Step))
  {
    var v := ApplyShell(w, Step);
    RemovedTable(w, v);
    ProcFrame(w, v);
  }

  // ------------------------------------------------------------ all together

  lemma OtherStepKeepsInv(w: World)
    requires Inv(w) && ShellEnabled(w, Step) && !IsControl(w.pc)
    ensures Inv(ApplyShell(w, Step))
  {
    match w.pc
    case Spawn(_, _, _, _, _) => PlaceLastKeepsInv(w);
    case Record(_, _) => RecordKeepsInv(w);
    case GiveTty(pids, text) => StartWaitKeepsInv(w, pids[0], text);
    case FgResume(_) => FgResumeKeepsInv(w);
    case FgCont(_) => FgContKeepsInv(w);
    case Wait(_, _, _, _) => WaitEndKeepsInv(w);
    case List => ListKeepsInv(w);
    case Notify => NotifyKeepsInv(w);
    case Clear => ClearKeepsInv(w);
    case BgCont(_) => BgContKeepsInv(w);
    case FgLook(_) => FgLookKeepsInv(w);
    case BgLook(_) => BgLookKeepsInv(w);
  }

  lemma ShellKeepsInv(w: World, a: Action)
    requires Inv(w) && ShellEnabled(w, a)
    ensures Inv(ApplyShell(w, a))
  {
    match a
    case Take(cmd) => TakeKeepsInv(w, cmd);
    case Fork(p) => ForkKeepsInv(w, p);
    case SpawnFail => SpawnFailKeepsInv(w);
    case WaitReap(p) => WaitReapKeepsInv(w, p);
    case WaitStop(p) => WaitStopKeepsInv(w, p);
    case Step =>
      if IsControl(w.pc) {
        ControlStepKeepsInv(w);
      } else {
        OtherStepKeepsInv(w);
      }
  }

  lemma StepKeepsInv(w: World, a: Action)
    requires Inv(w) && Enabled(w, a)
    ensures Inv(Apply(w, a))
  {
    if IsKernelAction(a) {
      KernelKeepsInv(w, a);
    } else if IsHandlerAction(a) {
      HandlerKeepsInv(w, a);
    } else {
      ShellKeepsInv(w, a);
    }
  }

  /** Every state of every run satisfies the invariant. */
  lemma {:induction false} RunKeepsInv(w: World, acts: seq<Action>)
    requires Inv(w) && Runs(w, acts)
    ensures Inv(After(w, acts))
    decreases |acts|
  {
    if acts != [] {
      StepKeepsInv(w, acts[0]);
      RunKeepsInv(Apply(w, acts[0]), acts[1..]);
    }
  }
}
