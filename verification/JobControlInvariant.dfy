/** The invariant of the job-control machine: what holds in every state every run reaches. */
module JobControlInvariant {
  import opened Jobs
  import opened Limits
  import opened JobControl

  // ------------------------------------------------------------ the invariant

  // Control points outside every blocked region.
  predicate Open(pc: Pc) {
    pc.Top? || pc.Read? || pc.Begin? || pc.KillSend?
  }

  /** The mask is the original one at open points and holds SIGCHLD elsewhere; the handler
      only ever runs on top of an open point. */
  predicate MaskInv(w: World) {
    && (w.handler.Idle? ==> w.k.blocked == (!Open(w.pc) || w.env.mask))
    && (!w.handler.Idle? ==> Open(w.pc) && w.k.blocked && !w.env.mask)
    && (!Open(w.pc) ==> w.saved == w.env.mask)
  }

  predicate ZombieInv(w: World) {
    Zombies(w.k.procs) != {} ==> w.k.pending || !w.handler.Idle?
  }

  predicate HoldsSlot(pc: Pc) {
    pc.FgTty? || pc.FgResume? || pc.FgCont? || pc.BgCont?
  }

  // A job pointer the shell holds designates a live entry.
  predicate SlotInv(w: World) {
    HoldsSlot(w.pc) ==>
      && w.pc.slot < |w.table.slots|
      && w.table.slots[w.pc.slot].inUse
      && w.table.slots[w.pc.slot].id in w.past.foregrounded
      && (w.pc.FgCont? || w.pc.BgCont? ==> w.table.slots[w.pc.slot].state == Running)
  }

  // The terminal was given to g, or stayed with the shell because nobody is left in g.
  predicate TtyGiven(w: World, g: Pid) {
    w.k.tty == g || (w.k.tty == w.env.shell && !GroupExists(w.k.procs, g))
  }

  predicate TtyInv(w: World)
    requires SlotInv(w)
  {
    w.env.interactive ==>
      match w.pc
      case Wait(pgid, _, _, _) => TtyGiven(w, pgid)
      case FgResume(i) => TtyGiven(w, w.table.slots[i].pid)
      case FgCont(i) => TtyGiven(w, w.table.slots[i].pid)
      case TakeTty(_) => true
      case _ => w.k.tty == w.env.shell
  }

  // The one child the shell has forked but not yet placed in its group.
  predicate Unplaced(w: World, p: Pid) {
    w.pc.Spawn? && !w.pc.placed && w.pc.pids != [] && p == w.pc.pids[|w.pc.pids| - 1]
  }

  ghost predicate ProcInv(w: World) {
    forall p :: p in w.k.procs ==>
      && p > 0 && p != w.env.shell && w.k.procs[p].target != w.env.shell && w.k.procs[p].target > 0
      && (w.k.procs[p].group == w.k.procs[p].target || (Unplaced(w, p) && w.k.procs[p].group == w.env.shell))
      && (w.k.procs[p].joined ==> w.k.procs[p].group == w.k.procs[p].target)
      && (w.k.procs[p].execd ==> w.k.procs[p].joined)
  }

  // The stages forked so far are exactly the children meant for the new group, which no entry has.
  ghost predicate Spawned(w: World, pids: seq<Pid>) {
    && (forall i :: 0 <= i < |pids| ==> pids[i] in w.k.procs && w.k.procs[pids[i]].target == pids[0])
    && (forall i, j :: 0 <= i < j < |pids| ==> pids[i] != pids[j])
    && (pids != [] ==>
          && (forall p :: p in w.k.procs && w.k.procs[p].target == pids[0] ==> p in pids)
          && !Tracked(w.table, pids[0]))
  }

  ghost predicate SpawnInv(w: World) {
    match w.pc
    case Begin(cmd) => cmd.Launch? ==> 1 <= cmd.n <= MAX_COMMANDS
    case Spawn(_, n, _, pids, placed) =>
      && 1 <= n <= MAX_COMMANDS && |pids| <= n && (pids == [] ==> placed)
      && Spawned(w, pids)
      && (pids != [] && n > 1 ==> pids[0] !in w.past.solo)
    case Record(pids, _) => 1 <= |pids| <= MAX_COMMANDS && Spawned(w, pids)
    case GiveTty(pids, _) => 1 <= |pids| <= MAX_COMMANDS && Spawned(w, pids)
    case _ => true
  }

  ghost predicate SoloInv(w: World) {
    forall p :: p in w.k.procs && w.k.procs[p].target in w.past.solo ==> p == w.k.procs[p].target
  }

  predicate BeingMarked(w: World, p: Pid) {
    w.handler.Marking? && w.handler.pid == p
  }

  /** A finished entry's leader has been reaped; an entry never brought to the foreground is
      Running exactly while its leader is unreaped (or just being marked), and never Stopped. */
  predicate EntryOk(w: World, e: Job) {
    && (e.state == Done ==> e.pid !in w.k.procs)
    && (e.id !in w.past.foregrounded ==>
          && e.state != Stopped
          && (e.state == Running <==> e.pid in w.k.procs || BeingMarked(w, e.pid)))
    && (e.pid in w.k.procs ==> w.k.procs[e.pid].target == e.pid)
  }

  ghost predicate EntryInv(w: World) {
    && (forall i :: 0 <= i < |w.table.slots| && w.table.slots[i].inUse ==> EntryOk(w, w.table.slots[i]))
    && (forall id :: id in w.past.foregrounded ==> id < w.table.nextId)
    && (w.handler.Marking? ==> w.handler.pid !in w.k.procs)
  }

  predicate Collected(reaped: seq<Reaped>, p: Pid) {
    exists j :: 0 <= j < |reaped| && reaped[j].pid == p
  }

  /** During a foreground wait every member it started with is either still an unreaped child
      in the group or was collected by the wait itself, once. */
  ghost predicate WaitInv(w: World) {
    w.pc.Wait? ==>
      && (forall p :: p in w.k.procs && w.k.procs[p].group == w.pc.pgid ==> p in w.pc.members)
      && (forall p :: p in w.pc.members ==>
            (p in w.k.procs && w.k.procs[p].group == w.pc.pgid) || Collected(w.pc.reaped, p))
      && (forall j :: 0 <= j < |w.pc.reaped| ==> w.pc.reaped[j].pid in w.pc.members && w.pc.reaped[j].pid !in w.k.procs)
      && (forall i, j :: 0 <= i < j < |w.pc.reaped| ==> w.pc.reaped[i].pid != w.pc.reaped[j].pid)
      && (forall i :: 0 <= i < |w.table.slots| && w.table.slots[i].inUse && w.table.slots[i].pid == w.pc.pgid ==>
            w.table.slots[i].id in w.past.foregrounded)
      && w.pc.pgid > 0
      && (w.pc.pgid in w.k.procs ==> w.k.procs[w.pc.pgid].target == w.pc.pgid)
  }

  /** An id reported Done names no live entry, but for the moment between listing and clearing. */
  ghost predicate LogInv(w: World) {
    && (forall r :: r in w.log && r.state == Done ==>
          && r.id < w.table.nextId
          && forall i :: 0 <= i < |w.table.slots| && w.table.slots[i].inUse && w.table.slots[i].id == r.id ==>
               w.pc.Clear? && w.table.slots[i].state == Done)
    && (forall a, b :: 0 <= a < b < |w.log| && w.log[a].state == Done && w.log[b].state == Done ==>
          w.log[a].id != w.log[b].id)
  }

  ghost predicate Inv(w: World) {
    && WellFormed(w.table)
    && MaskInv(w) && ZombieInv(w) && SlotInv(w) && TtyInv(w)
    && ProcInv(w) && SpawnInv(w) && SoloInv(w)
    && EntryInv(w) && WaitInv(w) && LogInv(w)
  }

  // ------------------------------------------------------------ it holds at the start

  lemma InstalledInv(interactive: bool, pid: Pid, inherited: Pid, mask: bool, tty: Pid)
    ensures Inv(Installed(interactive, pid, inherited, mask, tty))
  {
  }

  // ------------------------------------------------------------ the small steps keep it

  // v differs from w in its children's lives and pending bit at most; nobody is born, reaped or moved.
  ghost predicate OnlyLives(w: World, v: World) {
    && v == w.(k := w.k.(procs := v.k.procs, pending := v.k.pending))
    && v.k.procs.Keys == w.k.procs.Keys
    && forall p :: p in w.k.procs ==>
         v.k.procs[p].target == w.k.procs[p].target && v.k.procs[p].group == w.k.procs[p].group
  }

  lemma LivesKeepInv(w: World, v: World)
    requires Inv(w) && OnlyLives(w, v) && ProcInv(v) && ZombieInv(v)
    ensures Inv(v)
  {
    assert EntryInv(v);
    assert SpawnInv(v);
  }

  lemma ChildLifeKeepsInv(w: World, a: Action)
    requires Inv(w) && KernelEnabled(w, a) && !a.ChildSetpgid?
    ensures Inv(ApplyKernel(w, a))
  {
    var v := ApplyKernel(w, a);
    assert !a.Die? ==> Zombies(v.k.procs) <= Zombies(w.k.procs);
    assert OnlyLives(w, v);
    LivesKeepInv(w, v);
  }

  /** A stage that is not the leader finds the leader still there, in its own group. */
  lemma TargetGroupExists(w: World, p: Pid)
    requires Inv(w) && p in w.k.procs
    ensures w.k.procs[p].target == p || GroupExists(w.k.procs, w.k.procs[p].target)
  {
    if w.k.procs[p].group == w.k.procs[p].target {
    } else {
      assert p == w.pc.pids[|w.pc.pids| - 1];
      assert w.pc.pids[0] in w.k.procs;
    }
  }

  // p put into the group it was forked for.
  function Placed(w: World, p: Pid, joined: bool): World
    requires p in w.k.procs
  {
    WithProcs(w, w.k.procs[p := w.k.procs[p].(group := w.k.procs[p].target, joined := joined)])
  }

  /** Both setpgid calls, the child's and the parent's, have the same effect whenever they
      happen: the child is in the group it was forked for. */
  lemma SetpgidPlaces(w: World, p: Pid)
    requires Inv(w) && p in w.k.procs
    ensures Setpgid(w.k.procs, p, w.k.procs[p].target) == Placed(w, p, w.k.procs[p].joined).k.procs
    ensures ParentSetpgid(w.k.procs, p, w.k.procs[p].target) == Placed(w, p, w.k.procs[p].joined).k.procs
    ensures KernelEnabled(w, ChildSetpgid(p)) ==> ApplyKernel(w, ChildSetpgid(p)) == Placed(w, p, true)
  {
    TargetGroupExists(w, p);
    assert w.k.procs[p].execd ==> Placed(w, p, w.k.procs[p].joined).k.procs == w.k.procs;
  }

  // The unplaced child moves to its group.
  lemma UnplacedMoves(w: World, p: Pid, joined: bool)
    requires Inv(w) && p in w.k.procs && (w.k.procs[p].joined ==> joined) && w.k.procs[p].group != w.k.procs[p].target
    ensures var v := Placed(w, p, joined); ProcInv(v) && SpawnInv(v) && EntryInv(v) && SoloInv(v)
  {
    var v := Placed(w, p, joined);
    assert v.k.procs.Keys == w.k.procs.Keys;
    assert ProcInv(v);
  }

  lemma PlacedKeepsInv(w: World, p: Pid, joined: bool)
    requires Inv(w) && p in w.k.procs && (w.k.procs[p].joined ==> joined)
    ensures Inv(Placed(w, p, joined))
  {
    var v := Placed(w, p, joined);
    assert Zombies(v.k.procs) == Zombies(w.k.procs);
    assert v.k.procs.Keys == w.k.procs.Keys;
    if w.k.procs[p].group == w.k.procs[p].target {
      assert OnlyLives(w, v);
      LivesKeepInv(w, v);
    } else {
      UnplacedMoves(w, p, joined);
    }
  }

  lemma KernelKeepsInv(w: World, a: Action)
    requires Inv(w) && KernelEnabled(w, a)
    ensures Inv(ApplyKernel(w, a))
  {
    if a.ChildSetpgid? {
      SetpgidPlaces(w, a.p);
      PlacedKeepsInv(w, a.p, true);
    } else {
      ChildLifeKeepsInv(w, a);
    }
  }

  lemma DeliverKeepsInv(w: World)
    requires Inv(w) && HandlerEnabled(w, Deliver)
    ensures Inv(ApplyHandler(w, Deliver))
  {
  }

  lemma DrainReapKeepsInv(w: World, p: Pid)
    requires Inv(w) && HandlerEnabled(w, DrainReap(p))
    ensures Inv(ApplyHandler(w, DrainReap(p)))
  {
    var v := ApplyHandler(w, DrainReap(p));
    assert EntryInv(v);
  }

  /** Marking changes exactly the reaped leader's entry, if it was Running. */
  lemma MarkedEntry(t: Table, pid: Pid, status: WaitStatus, i: nat)
    requires WellFormed(t) && i < MAX_JOBS
    ensures WellFormed(MarkedDone(t, pid, status))
    ensures MarkedDone(t, pid, status).slots[i] ==
      if Matches(RunningPid(pid), t.slots[i]) then t.slots[i].(state := Done, status := status) else t.slots[i]
  {
  }

  lemma MarkKeepsEntries(w: World)
    requires WellFormed(w.table) && EntryInv(w) && LogInv(w) && HandlerEnabled(w, DrainMark)
    ensures var v := ApplyHandler(w, DrainMark); WellFormed(v.table) && EntryInv(v) && LogInv(v)
  {
    var v := ApplyHandler(w, DrainMark);
    forall i | 0 <= i < MAX_JOBS
      ensures v.table.slots[i] == if Matches(RunningPid(w.handler.pid), w.table.slots[i])
        then w.table.slots[i].(state := Done, status := w.handler.status) else w.table.slots[i]
    {
      MarkedEntry(w.table, w.handler.pid, w.handler.status, i);
    }
    MarkedEntry(w.table, w.handler.pid, w.handler.status, 0);
  }

  lemma DrainMarkKeepsInv(w: World)
    requires Inv(w) && HandlerEnabled(w, DrainMark)
    ensures Inv(ApplyHandler(w, DrainMark))
  {
    MarkKeepsEntries(w);
  }

  lemma HandlerKeepsInv(w: World, a: Action)
    requires Inv(w) && HandlerEnabled(w, a)
    ensures Inv(ApplyHandler(w, a))
  {
    match a
    case Deliver => DeliverKeepsInv(w);
    case DrainReap(p) => DrainReapKeepsInv(w, p);
    case DrainMark => DrainMarkKeepsInv(w);
    case DrainReturn =>
  }
}
