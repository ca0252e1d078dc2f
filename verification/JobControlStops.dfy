/** When exactly a job marked Done can still become Stopped. */
module JobControlStops {
  import opened Jobs
  import opened JobControl
  import opened JobControlInvariant
  import opened JobControlShell
  import opened JobControlTheorems
  import opened JobControlRuns

  const SIGTSTP: nat := 20

  // Some run from w ends with the same entry Stopped.
  ghost predicate CanStop(w: World, i: nat, id: int) {
    exists v :: Leads(w, v) && Live(v, i, id) && v.table.slots[i].state == Stopped
  }

  // A member of the group that has not died.
  predicate HasLivingMember(procs: map<Pid, Proc>, g: Pid) {
    exists p :: p in procs && procs[p].group == g && !procs[p].life.Zombie?
  }

  // ------------------------------------------------------------ a living member is enough

  lemma OnlySlotOf(t: Table, i: nat)
    requires WellFormed(t) && i < MAX_JOBS && t.slots[i].inUse
    ensures First(t.slots, ById(t.slots[i].id)) == i && First(t.slots, ByPid(t.slots[i].pid)) == i
  {
    FirstFinds(t.slots, ById(t.slots[i].id), i);
    FirstFinds(t.slots, ByPid(t.slots[i].pid), i);
  }

  // fg finds the job.
  lemma FgFinds(w: World, i: nat, id: int) returns (v: World)
    requires WellFormed(w.table) && w.pc.Read? && w.handler.Idle? && Live(w, i, id)
    ensures Leads(w, v) && v.pc == FgTty(i) && v.handler.Idle? && v.k.procs == w.k.procs && v.table == w.table
  {
    OnlySlotOf(w.table, i);
    var begin := Apply(w, Take(Fg(id)));
    var look := Apply(begin, Step);
    v := Apply(look, Step);
    LeadsSelf(w);
    LeadsStep(w, w, Take(Fg(id)));
    LeadsStep(w, begin, Step);
    LeadsStep(w, look, Step);
  }

  // The job is Done, so fg sends no SIGCONT and waits at once.
  lemma FgWaits(w: World, i: nat) returns (v: World)
    requires w.pc == FgTty(i) && w.handler.Idle? && i < |w.table.slots| && w.table.slots[i].state == Done
    ensures Leads(w, v) && v.handler.Idle? && v.k.procs == w.k.procs && v.table == w.table
    ensures v.pc.Wait? && v.pc.pgid == w.table.slots[i].pid
  {
    var resume := Apply(w, Step);
    v := Apply(resume, Step);
    LeadsSelf(w);
    LeadsStep(w, w, Step);
    LeadsStep(w, resume, Step);
  }

  // A living member may stop, and then the wait is told.
  lemma MemberStops(w: World, p: Pid) returns (v: World)
    requires w.pc.Wait? && w.handler.Idle? && p in w.k.procs && w.k.procs[p].group == w.pc.pgid && !w.k.procs[p].life.Zombie?
    ensures Leads(w, v) && v.table == w.table && v.pc == w.pc && ShellEnabled(v, WaitStop(p))
    ensures Members(v.k.procs, w.pc.pgid) == Members(w.k.procs, w.pc.pgid)
  {
    LeadsSelf(w);
    var running := w;
    if w.k.procs[p].life.Halted? {
      LeadsStep(w, w, Continue(p));
      running := Apply(w, Continue(p));
    }
    v := Apply(running, Halt(p, SIGTSTP));
    LeadsStep(w, running, Halt(p, SIGTSTP));
  }

  lemma StopIsMarked(w: World, p: Pid, i: nat, id: int)
    requires WellFormed(w.table) && ShellEnabled(w, WaitStop(p)) && Live(w, i, id) && w.table.slots[i].pid == w.pc.pgid
    ensures Apply(w, WaitStop(p)).table == WithState(w.table, i, Stopped)
  {
    OnlySlotOf(w.table, i);
  }

  lemma LivingMemberSuffices(w: World, i: nat, id: int)
    requires Reachable(w) && w.pc.Read? && w.handler.Idle? && Live(w, i, id) && w.table.slots[i].state == Done
    requires HasLivingMember(w.k.procs, w.table.slots[i].pid)
    ensures CanStop(w, i, id)
  {
    ReachableInv(w);
    var p :| p in w.k.procs && w.k.procs[p].group == w.table.slots[i].pid && !w.k.procs[p].life.Zombie?;
    var found := FgFinds(w, i, id);
    var waiting := FgWaits(found, i);
    var told := MemberStops(waiting, p);
    LeadsOn(w, found, waiting);
    LeadsOn(w, waiting, told);
    LeadsStep(w, told, WaitStop(p));
    StopIsMarked(told, p, i, id);
  }

  // ------------------------------------------------------------ it is needed

  // Whoever was forked for group g is dead.
  predicate NoneLives(procs: map<Pid, Proc>, g: Pid) {
    forall p :: p in procs && procs[p].target == g ==> procs[p].life.Zombie?
  }

  // The entry is Done, and whoever was forked for its group is dead.
  ghost predicate Over(w: World, i: nat, id: int, g: Pid) {
    && Live(w, i, id) && w.table.slots[i].pid == g && w.table.slots[i].state == Done
    && NoneLives(w.k.procs, g)
  }

  lemma KernelKeepsDead(w: World, a: Action, g: Pid)
    requires Inv(w) && KernelEnabled(w, a) && NoneLives(w.k.procs, g)
    ensures NoneLives(ApplyKernel(w, a).k.procs, g)
  {
    if a.ChildSetpgid? {
      SetpgidPlaces(w, a.p);
    }
  }

  lemma StepKeepsDead(w: World, g: Pid)
    requires StepEnabled(w) && NoneLives(w.k.procs, g)
    ensures NoneLives(ApplyStep(w).k.procs, g)
  {
  }

  // A group with an entry gets no new members, and the dead stay dead.
  lemma NoNewcomers(w: World, a: Action, g: Pid)
    requires Inv(w) && Enabled(w, a) && Tracked(w.table, g)
    requires NoneLives(w.k.procs, g)
    ensures NoneLives(Apply(w, a).k.procs, g)
  {
    if a.Step? {
      StepKeepsDead(w, g);
    } else if IsKernelAction(a) {
      KernelKeepsDead(w, a, g);
    }
  }

  lemma StaysOver(w: World, a: Action, i: nat, id: int, g: Pid)
    requires Reachable(w) && Enabled(w, a) && Over(w, i, id, g) && Live(Apply(w, a), i, id)
    ensures Over(Apply(w, a), i, id, g)
  {
    ReachableInv(w);
    NoNewcomers(w, a, g);
    StepKeepsIds(w, a, i, id);
    StateChanges(w, a, i);
    if a.WaitStop? {
      AllPlaced(w, a.p);
    }
  }

  lemma {:induction false} NeverStops(w: World, acts: seq<Action>, i: nat, id: int, g: Pid)
    requires Reachable(w) && Runs(w, acts) && Over(w, i, id, g)
    ensures Live(After(w, acts), i, id) ==> After(w, acts).table.slots[i].state == Done
    decreases |acts|
  {
    if acts != [] {
      var v := Apply(w, acts[0]);
      ReachableInv(w);
      ReachableStep(w, acts[0]);
      if Live(v, i, id) {
        StaysOver(w, acts[0], i, id, g);
        NeverStops(v, acts[1..], i, id, g);
      } else {
        StepKeepsIds(w, acts[0], i, id);
        IdsAreNeverReused(v, acts[1..], i, id);
      }
    }
  }

  /** At the prompt, an entry marked Done can still become Stopped in some run if and only if its
      group has a member that has not died. Otherwise it is Done until its slot is freed. */
  lemma DoneCanStopExactly(w: World, i: nat, id: int)
    requires Reachable(w) && w.pc.Read? && w.handler.Idle? && Live(w, i, id) && w.table.slots[i].state == Done
    ensures CanStop(w, i, id) <==> HasLivingMember(w.k.procs, w.table.slots[i].pid)
    ensures !HasLivingMember(w.k.procs, w.table.slots[i].pid) ==>
      forall v :: Leads(w, v) && Live(v, i, id) ==> v.table.slots[i].state == Done
  {
    var g := w.table.slots[i].pid;
    if HasLivingMember(w.k.procs, g) {
      LivingMemberSuffices(w, i, id);
    } else {
      ReachableInv(w);
      forall p | p in w.k.procs ensures w.k.procs[p].group == w.k.procs[p].target {
        AllPlaced(w, p);
      }
      forall v | Leads(w, v) && Live(v, i, id) ensures v.table.slots[i].state == Done {
        var acts :| Runs(w, acts) && After(w, acts) == v;
        NeverStops(w, acts, i, id, g);
      }
    }
  }
}
