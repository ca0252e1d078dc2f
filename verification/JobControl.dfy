/** The job-control protocol as a transition system: the shell's control points
    (src/main.c, src/executor.c, src/builtins.c), its SIGCHLD handler
    (src/signals.c), and the part of the kernel they talk to.

    One `Action` is one indivisible step: an event in the kernel or in a child, or a
    system call of the shell or the handler together with the accesses to the job
    table that follow it in the same blocked region, which nothing else can observe.
    A run is any sequence of enabled actions, so every interleaving is a run. */
module JobControl {
  import opened Options
  import opened Jobs
  import opened Limits

  // ------------------------------------------------------------ kernel

  type Pid = int

  // A stopped child is reported once by waitpid with WUNTRACED.
  datatype Life = Alive | Halted(sig: nat, reported: bool) | Zombie(status: WaitStatus)

  /** An unreaped child: its process group, the group it was forked for (the first
      stage's pid), whether it has made its own setpgid call, and whether it has
      called execvp. */
  datatype Proc = Proc(group: Pid, target: Pid, joined: bool, execd: bool, life: Life)

  /** `procs` holds the children not yet reaped; `pending` is the one coalescing
      SIGCHLD bit; `blocked` says whether SIGCHLD is in the shell's mask; `tty` is
      the terminal's foreground group. */
  datatype Kernel = Kernel(procs: map<Pid, Proc>, pending: bool, blocked: bool, tty: Pid)

  predicate GroupExists(procs: map<Pid, Proc>, g: Pid) {
    exists p :: p in procs && procs[p].group == g
  }

  function Members(procs: map<Pid, Proc>, g: Pid): set<Pid> {
    set p | p in procs && procs[p].group == g
  }

  // setpgid(p, g): the new group must be p's own pid or one that exists.
  function Setpgid(procs: map<Pid, Proc>, p: Pid, g: Pid): map<Pid, Proc>
    requires p in procs
  {
    if g == p || GroupExists(procs, g) then procs[p := procs[p].(group := g)] else procs
  }

  // The parent's setpgid, refused with EACCES once the child has called execvp.
  function ParentSetpgid(procs: map<Pid, Proc>, p: Pid, g: Pid): map<Pid, Proc>
    requires p in procs
  {
    if procs[p].execd then procs else Setpgid(procs, p, g)
  }

  // kill(-g, SIGCONT): every stopped member runs again.
  function ContinueGroup(procs: map<Pid, Proc>, g: Pid): map<Pid, Proc> {
    map p | p in procs ::
      if procs[p].group == g && procs[p].life.Halted? then procs[p].(life := Alive) else procs[p]
  }

  // status_to_code
  function StatusToCode(status: WaitStatus): nat {
    match status
    case Exited(code) => code
    case Signaled(sig) => 128 + sig
  }

  // ------------------------------------------------------------ shell

  datatype Command =
    | Launch(background: bool, n: nat, text: string)
    | ListJobs
    | Fg(id: int)
    | Bg(id: int)
    | Kill(id: int)
    | Other(code: int)   // touches neither jobs nor children; also a usage error

  // A child the foreground wait has collected.
  datatype Reaped = Reaped(pid: Pid, status: WaitStatus)

  /** The shell's control point, with the local variables live there. `members` and
      `reaped` in Wait record what the wait started with and collected so far. */
  datatype Pc =
    | Top
    | Notify
    | NotifyEnd
    | Read
    | Begin(cmd: Command)
    | Spawn(background: bool, n: nat, text: string, pids: seq<Pid>, placed: bool)
    | Record(pids: seq<Pid>, text: string)
    | GiveTty(pids: seq<Pid>, text: string)
    | Wait(pgid: Pid, text: string, members: set<Pid>, reaped: seq<Reaped>)
    | TakeTty(code: int)
    | Release(code: int)
    | List
    | Clear
    | FgLook(id: int)
    | FgTty(slot: nat)
    | FgResume(slot: nat)
    | FgCont(slot: nat)
    | BgLook(id: int)
    | BgCont(slot: nat)
    | KillLook(id: int)
    | KillRelease(target: Option<Pid>)
    | KillSend(group: Pid)

  datatype Handler = Idle | Draining | Marking(pid: Pid, status: WaitStatus)

  // What install_signal_handlers finds out, fixed from then on.
  datatype Env = Env(interactive: bool, shell: Pid, mask: bool)

  /** History the program does not keep: the ids of jobs that ever were in the
      foreground, and the groups launched with a single stage. */
  datatype Past = Past(foregrounded: set<int>, solo: set<Pid>)

  datatype World = World(
    env: Env, k: Kernel, table: Table, pc: Pc, saved: bool, handler: Handler,
    lastStatus: int, log: seq<Report>, past: Past)

  // last_status in wait_foreground_group
  function LastCode(reaped: seq<Reaped>): int {
    if reaped == [] then 0 else StatusToCode(reaped[|reaped| - 1].status)
  }

  /** The state install_signal_handlers leaves: an empty table, no child, the handler
      in place, and the terminal claimed by the shell's own group when there is one. */
  function Installed(interactive: bool, pid: Pid, inherited: Pid, mask: bool, tty: Pid): World {
    var shell := if interactive then pid else inherited;
    World(Env(interactive, shell, mask),
          Kernel(map[], false, mask, if interactive then shell else tty),
          EmptyTable(), Top, mask, Idle, 0, [], Past({}, {}))
  }

  // ------------------------------------------------------------ actions

  datatype Action =
    // the kernel and the children
    | Die(p: Pid, status: WaitStatus)
    | Halt(p: Pid, sig: nat)
    | Continue(p: Pid)
    | ChildSetpgid(p: Pid)
    | ChildExec(p: Pid)
    // the handler
    | Deliver
    | DrainReap(p: Pid)
    | DrainMark
    | DrainReturn
    // the shell
    | Take(cmd: Command)
    | Fork(p: Pid)
    | SpawnFail
    | WaitReap(p: Pid)
    | WaitStop(p: Pid)
    | Step

  predicate IsKernelAction(a: Action) {
    a.Die? || a.Halt? || a.Continue? || a.ChildSetpgid? || a.ChildExec?
  }

  predicate IsHandlerAction(a: Action) {
    a.Deliver? || a.DrainReap? || a.DrainMark? || a.DrainReturn?
  }

  predicate IsShellAction(a: Action) {
    !IsKernelAction(a) && !IsHandlerAction(a)
  }

  predicate IsZombie(procs: map<Pid, Proc>, p: Pid) {
    p in procs && procs[p].life.Zombie?
  }

  function Zombies(procs: map<Pid, Proc>): set<Pid> {
    set p | p in procs && procs[p].life.Zombie?
  }

  predicate Possible(k: Kernel, a: Action) {
    match a
    case Die(p, _) => p in k.procs && !k.procs[p].life.Zombie?
    case Halt(p, _) => p in k.procs && k.procs[p].life.Alive?
    case Continue(p) => p in k.procs && k.procs[p].life.Halted?
    case ChildSetpgid(p) => p in k.procs && k.procs[p].life.Alive? && !k.procs[p].joined
    case ChildExec(p) => p in k.procs && k.procs[p].life.Alive? && k.procs[p].joined && !k.procs[p].execd
    case _ => false
  }

  predicate KernelEnabled(w: World, a: Action) {
    Possible(w.k, a)
  }

  predicate HandlerEnabled(w: World, a: Action) {
    match a
    case Deliver => w.handler.Idle? && w.k.pending && !w.k.blocked
    case DrainReap(p) => w.handler.Draining? && IsZombie(w.k.procs, p)
    case DrainMark => w.handler.Marking?
    case DrainReturn => w.handler.Draining? && Zombies(w.k.procs) == {}
    case _ => false
  }

  /** fork returns a pid that is no unreaped child, no existing group, not the shell's
      group, and not the group of a job in the table. */
  predicate UnusedPid(k: Kernel, env: Env, table: Table, p: Pid) {
    p > 0 && p !in k.procs && !GroupExists(k.procs, p) && p != env.shell && !Tracked(table, p)
  }

  predicate FreshPid(w: World, p: Pid) {
    UnusedPid(w.k, w.env, w.table, p)
  }

  // A job pointer held by the shell designates a slot; setpgid and ECHILD are the guarded steps.
  predicate StepEnabled(w: World) {
    match w.pc
    case Read => false
    case Spawn(_, n, _, pids, placed) => (placed ==> |pids| == n) && pids != [] && pids[|pids| - 1] in w.k.procs
    case Record(pids, _) => pids != []
    case GiveTty(pids, _) => pids != []
    case Wait(pgid, _, _, _) => Members(w.k.procs, pgid) == {}
    case FgTty(i) => i < |w.table.slots|
    case FgResume(i) => i < |w.table.slots|
    case FgCont(i) => i < |w.table.slots|
    case BgCont(i) => i < |w.table.slots|
    case _ => true
  }

  predicate ShellEnabled(w: World, a: Action) {
    w.handler.Idle? &&
    match a
    case Take(cmd) => w.pc.Read? && (cmd.Launch? ==> 1 <= cmd.n <= MAX_COMMANDS)
    case Fork(p) => w.pc.Spawn? && w.pc.placed && |w.pc.pids| < w.pc.n && FreshPid(w, p)
    case SpawnFail => w.pc.Spawn? && w.pc.placed && |w.pc.pids| < w.pc.n
    case WaitReap(p) => w.pc.Wait? && IsZombie(w.k.procs, p) && w.k.procs[p].group == w.pc.pgid
    case WaitStop(p) =>
      && w.pc.Wait? && p in w.k.procs && w.k.procs[p].group == w.pc.pgid
      && w.k.procs[p].life.Halted? && !w.k.procs[p].life.reported
    case Step => StepEnabled(w)
    case _ => false
  }

  predicate Enabled(w: World, a: Action) {
    KernelEnabled(w, a) || HandlerEnabled(w, a) || ShellEnabled(w, a)
  }

  // ------------------------------------------------------------ effects

  function WithProcs(w: World, procs: map<Pid, Proc>): World {
    w.(k := w.k.(procs := procs))
  }

  // A death makes SIGCHLD pending; stops and continues do not (SA_NOCLDSTOP).
  function KernelStep(k: Kernel, a: Action): Kernel
    requires Possible(k, a)
  {
    match a
    case Die(p, status) => k.(procs := k.procs[p := k.procs[p].(life := Zombie(status))], pending := true)
    case Halt(p, sig) => k.(procs := k.procs[p := k.procs[p].(life := Halted(sig, false))])
    case Continue(p) => k.(procs := k.procs[p := k.procs[p].(life := Alive)])
    case ChildSetpgid(p) =>
      var after := Setpgid(k.procs, p, k.procs[p].target);
      k.(procs := after[p := after[p].(joined := true)])
    case ChildExec(p) => k.(procs := k.procs[p := k.procs[p].(execd := true)])
  }

  function ApplyKernel(w: World, a: Action): World
    requires KernelEnabled(w, a)
  {
    w.(k := KernelStep(w.k, a))
  }

  // Delivery masks SIGCHLD for the handler's duration; its return restores the mask.
  function ApplyHandler(w: World, a: Action): World
    requires HandlerEnabled(w, a)
  {
    match a
    case Deliver => w.(k := w.k.(pending := false, blocked := true), handler := Draining)
    case DrainReap(p) => WithProcs(w, w.k.procs - {p}).(handler := Marking(p, w.k.procs[p].life.status))
    case DrainMark => w.(table := MarkedDone(w.table, w.handler.pid, w.handler.status), handler := Draining)
    case DrainReturn => w.(k := w.k.(blocked := false), handler := Idle)
  }

  function Block(w: World): World {
    w.(saved := w.k.blocked, k := w.k.(blocked := true))
  }

  function Unblock(w: World): World {
    w.(k := w.k.(blocked := w.saved))
  }

  // tcsetpgrp fails, and changes nothing, when no process is in the group.
  function Tcsetpgrp(w: World, g: Pid): World {
    if w.env.interactive && (g == w.env.shell || GroupExists(w.k.procs, g)) then w.(k := w.k.(tty := g)) else w
  }

  function StartWait(w: World, pgid: Pid, text: string): World {
    w.(pc := Wait(pgid, text, Members(w.k.procs, pgid), []))
  }

  // The stopped branch of wait_foreground_group: re-mark the group's entry, or make one.
  function RecordStop(w: World, pgid: Pid, text: string): World {
    var i := First(w.table.slots, ByPid(pgid));
    if i < |w.table.slots| then
      w.(table := WithState(w.table, i, Stopped), log := w.log + [Report(w.table.slots[i].id, Stopped)])
    else
      w.(table := Added(w.table, pgid, text, Stopped), log := w.log + [Report(AddedId(w.table), Stopped)],
         past := w.past.(foregrounded := w.past.foregrounded + {AddedId(w.table)}))
  }

  function ApplyBegin(w: World): World
    requires w.pc.Begin?
  {
    match w.pc.cmd
    case Launch(background, n, text) => Block(w).(pc := Spawn(background, n, text, [], true))
    case ListJobs => Block(w).(pc := List)
    case Fg(id) => Block(w).(pc := FgLook(id))
    case Bg(id) => Block(w).(pc := BgLook(id))
    case Kill(id) => Block(w).(pc := KillLook(id))
    case Other(code) => w.(pc := Top, lastStatus := code)
  }

  function ApplyStep(w: World): World
    requires StepEnabled(w)
  {
    match w.pc
    case Top => Block(w).(pc := Notify)
    case Notify =>
      w.(table := w.table.(slots := DoneCleared(w.table.slots)), log := w.log + Notices(w.table.slots), pc := NotifyEnd)
    case NotifyEnd => Unblock(w).(pc := Read)
    case Begin(cmd) => ApplyBegin(w)
    case Spawn(background, n, text, pids, placed) =>
      if !placed then
        WithProcs(w, ParentSetpgid(w.k.procs, pids[|pids| - 1], pids[0])).(pc := w.pc.(placed := true))
      else if background then w.(pc := Record(pids, text))
      else w.(pc := GiveTty(pids, text))
    case Record(pids, text) => w.(table := Added(w.table, pids[0], text, Running), pc := Release(0))
    case GiveTty(pids, text) => StartWait(Tcsetpgrp(w, pids[0]), pids[0], text)
    case Wait(pgid, _, _, reaped) => w.(table := Removed(w.table, ByPid(pgid)), pc := TakeTty(LastCode(reaped)))
    case TakeTty(code) => Tcsetpgrp(w, w.env.shell).(pc := Release(code))
    case Release(code) => Unblock(w).(pc := Top, lastStatus := code)
    case List => w.(log := w.log + Listed(w.table.slots), pc := Clear)
    case Clear => w.(table := w.table.(slots := DoneCleared(w.table.slots)), pc := Release(0))
    case FgLook(id) =>
      var i := First(w.table.slots, ById(id));
      if i < |w.table.slots| then
        w.(pc := FgTty(i), past := w.past.(foregrounded := w.past.foregrounded + {id}))
      else w.(pc := Release(1))
    case FgTty(i) => Tcsetpgrp(w, w.table.slots[i].pid).(pc := FgResume(i))
    case FgResume(i) =>
      if w.table.slots[i].state == Stopped then w.(table := WithState(w.table, i, Running), pc := FgCont(i))
      else StartWait(w, w.table.slots[i].pid, w.table.slots[i].command)
    case FgCont(i) =>
      StartWait(WithProcs(w, ContinueGroup(w.k.procs, w.table.slots[i].pid)), w.table.slots[i].pid, w.table.slots[i].command)
    case BgLook(id) =>
      var i := First(w.table.slots, ById(id));
      if i < |w.table.slots| && w.table.slots[i].state == Stopped then
        w.(table := WithState(w.table, i, Running), pc := BgCont(i))
      else w.(pc := Release(if i < |w.table.slots| then 0 else 1))
    case BgCont(i) => WithProcs(w, ContinueGroup(w.k.procs, w.table.slots[i].pid)).(pc := Release(0))
    case KillLook(id) =>
      var i := First(w.table.slots, ById(id));
      w.(pc := KillRelease(if i < |w.table.slots| then Some(w.table.slots[i].pid) else None))
    case KillRelease(target) =>
      if target.None? then Unblock(w).(pc := Top, lastStatus := 1) else Unblock(w).(pc := KillSend(target.value))
    case KillSend(target) =>
      // SIGTERM only makes deaths possible, and those may happen at any time anyway.
      w.(pc := Top, lastStatus := if GroupExists(w.k.procs, target) then 0 else 1)
  }

  function ApplyShell(w: World, a: Action): World
    requires ShellEnabled(w, a)
  {
    match a
    case Take(cmd) => w.(pc := Begin(cmd))
    case Fork(p) =>
      var leader := if w.pc.pids == [] then p else w.pc.pids[0];
      var solo := if w.pc.pids != [] then w.past.solo else if w.pc.n == 1 then w.past.solo + {p} else w.past.solo - {p};
      WithProcs(w, w.k.procs[p := Proc(w.env.shell, leader, false, false, Alive)])
        .(pc := w.pc.(pids := w.pc.pids + [p], placed := false), past := w.past.(solo := solo))
    case SpawnFail => w.(pc := Release(-1))
    case WaitReap(p) =>
      WithProcs(w, w.k.procs - {p})
        .(pc := w.pc.(reaped := w.pc.reaped + [Reaped(p, w.k.procs[p].life.status)]))
    case WaitStop(p) =>
      var life := w.k.procs[p].life;
      RecordStop(WithProcs(w, w.k.procs[p := w.k.procs[p].(life := life.(reported := true))]), w.pc.pgid, w.pc.text)
        .(pc := TakeTty(128 + life.sig))
    case Step => ApplyStep(w)
  }

  function Apply(w: World, a: Action): World
    requires Enabled(w, a)
  {
    if IsKernelAction(a) then ApplyKernel(w, a)
    else if IsHandlerAction(a) then ApplyHandler(w, a)
    else ApplyShell(w, a)
  }

  // ------------------------------------------------------------ runs

  predicate Runs(w: World, acts: seq<Action>)
    decreases |acts|
  {
    acts == [] || (Enabled(w, acts[0]) && Runs(Apply(w, acts[0]), acts[1..]))
  }

  function After(w: World, acts: seq<Action>): World
    requires Runs(w, acts)
    decreases |acts|
  {
    if acts == [] then w else After(Apply(w, acts[0]), acts[1..])
  }
}
