/** Pipeline wiring (spawn_pipeline and apply_redirection in src/executor.c): which process
    holds which end of which pipe, for any number of stages. */
module PipelineFds {
  import opened Options

  // ------------------------------------------------------------ descriptor tables

  datatype File = Plain(id: int) | ReadEnd(pipe: nat) | WriteEnd(pipe: nat)

  // What one descriptor refers to, and whether execvp closes it.
  datatype Entry = Entry(file: File, cloexec: bool)

  type Fds = map<nat, Entry>

  const STDIN: nat := 0
  const STDOUT: nat := 1
  const STDERR: nat := 2

  predicate StdOpen(t: Fds) {
    STDIN in t && STDOUT in t && STDERR in t
  }

  lemma {:induction false} Pigeonhole(s: set<nat>, n: nat)
    requires forall i :: 0 <= i < n ==> i in s
    ensures n <= |s|
  {
    if n > 0 {
      Pigeonhole(s - {n - 1}, n - 1);
    }
  }

  // pipe, open and mkstemp return the lowest descriptor not in use.
  function LowestFree(t: Fds, from: nat): (fd: nat)
    requires forall i :: 0 <= i < from ==> i in t
    ensures fd !in t && fd >= from && forall i :: 0 <= i < fd ==> i in t
    decreases |t.Keys| - from
  {
    if from !in t then from
    else
      Pigeonhole(t.Keys, from + 1);
      LowestFree(t, from + 1)
  }

  // dup2 clears close-on-exec on the copy, and does nothing at all when both are the same.
  function Dup2(t: Fds, from: nat, to: nat): Fds
    requires from in t
  {
    if from == to then t else t[to := Entry(t[from].file, false)]
  }

  // execvp closes the descriptors marked close-on-exec.
  function Exec(t: Fds): Fds {
    map fd | fd in t && !t[fd].cloexec :: t[fd]
  }

  class Process {
    var fds: Fds

    constructor (fds: Fds)
      ensures this.fds == fds
    {
      this.fds := fds;
    }

    method Open(file: File, cloexec: bool) returns (fd: nat)
      modifies this
      ensures fd == LowestFree(old(fds), 0) && fds == old(fds)[fd := Entry(file, cloexec)]
    {
      fd := LowestFree(fds, 0);
      fds := fds[fd := Entry(file, cloexec)];
    }

    method Pipe(id: nat) returns (r: nat, w: nat)
      modifies this
      ensures r !in old(fds) && w !in old(fds) && r != w
      ensures fds == old(fds)[r := Entry(ReadEnd(id), false)][w := Entry(WriteEnd(id), false)]
      ensures old(StdOpen(fds)) ==> r > STDERR && w > STDERR
    {
      r := Open(ReadEnd(id), false);
      w := Open(WriteEnd(id), false);
    }

    method CopyTo(from: nat, to: nat)
      requires from in fds
      modifies this
      ensures fds == Dup2(old(fds), from, to)
    {
      fds := Dup2(fds, from, to);
    }

    // fcntl(fd, F_SETFD, FD_CLOEXEC)
    method SetCloexec(fd: nat)
      requires fd in fds
      modifies this
      ensures fds == old(fds)[fd := Entry(old(fds)[fd].file, true)]
    {
      fds := fds[fd := Entry(fds[fd].file, true)];
    }

    method Close(fd: nat)
      modifies this
      ensures fds == old(fds) - {fd}
    {
      fds := fds - {fd};
    }
  }

  // ------------------------------------------------------------ the wiring, as a value

  /** Stage i of n, over the parent's table: stdin from pipe i-1 and stdout to pipe i, where there
      are such pipes, and nothing else. Pipes are numbered from `base`. */
  function Wired(t: Fds, base: nat, i: nat, n: nat): Fds
    requires i < n
  {
    var withIn := if i > 0 then t[STDIN := Entry(ReadEnd(base + i - 1), false)] else t;
    if i < n - 1 then withIn[STDOUT := Entry(WriteEnd(base + i), false)] else withIn
  }

  // No descriptor refers to a pipe numbered base or above.
  predicate NoPipeFrom(t: Fds, base: nat) {
    forall fd :: fd in t ==>
      !(t[fd].file.ReadEnd? && t[fd].file.pipe >= base) && !(t[fd].file.WriteEnd? && t[fd].file.pipe >= base)
  }

  // ------------------------------------------------------------ the spawn loop

  // Which calls of pipe and fork succeed, stage by stage.
  datatype Kernel = Kernel(pipes: nat -> bool, forks: nat -> bool)

  // What a failed spawn leaves open in the shell: the upstream read end, and both ends of the
  // new pipe if it was fork that failed.
  function Leak(base: nat, at: nat, n: nat, forkFailed: bool): set<File> {
    (if at > 0 then {ReadEnd(base + at - 1)} else {}) +
    (if forkFailed && at < n - 1 then {ReadEnd(base + at), WriteEnd(base + at)} else {})
  }

  // u is t and some new descriptors that refer to exactly these files.
  ghost predicate ExtendedBy(t: Fds, u: Fds, files: set<File>) {
    && (forall fd :: fd in t ==> fd in u && u[fd] == t[fd])
    && (forall fd :: fd in u && fd !in t ==> u[fd].file in files && !u[fd].cloexec)
    && (forall f :: f in files ==> exists fd :: fd in u && fd !in t && u[fd].file == f)
  }

  // A file that is open under a descriptor that was free before.
  predicate Added(t: Fds, u: Fds, f: File) {
    exists fd :: fd in u && fd !in t && u[fd].file == f
  }

  // What the child's part of the loop body makes of the table it starts with.
  function ChildTable(t: Fds, prevRead: Option<nat>, r: nat, w: nat, isLast: bool): Fds
    requires (prevRead.Some? ==> prevRead.value in t) && (!isLast ==> w in t)
  {
    var a := if prevRead.Some? then t[STDIN := Entry(t[prevRead.value].file, false)] - {prevRead.value} else t;
    if isLast then a else a[STDOUT := Entry(t[w].file, false)] - {r, w}
  }

  // And the parent's part of its own.
  function ParentTable(t: Fds, prevRead: Option<nat>, w: nat, isLast: bool): Fds {
    var rest := if prevRead.Some? then t - {prevRead.value} else t;
    if isLast then rest else rest - {w}
  }

  // The child's part of the loop body.
  method WireChild(c: Process, prevRead: Option<nat>, r: nat, w: nat, isLast: bool)
    requires StdOpen(c.fds)
    requires prevRead.Some? ==> prevRead.value in c.fds && prevRead.value > STDERR
    requires !isLast ==> r in c.fds && w in c.fds && r > STDERR && w > STDERR && r != w
    requires !isLast && prevRead.Some? ==> prevRead.value != r && prevRead.value != w
    modifies c
    ensures c.fds == ChildTable(old(c.fds), prevRead, r, w, isLast)
  {
    if prevRead.Some? {
      c.CopyTo(prevRead.value, STDIN);
      c.Close(prevRead.value);
    }
    if !isLast {
      c.Close(r);
      c.CopyTo(w, STDOUT);
      c.Close(w);
    }
  }

  // Stage i of n comes into being if its pipe, where it needs one, and its fork succeed.
  predicate Works(kernel: Kernel, i: nat, n: nat) {
    (i < n - 1 ==> kernel.pipes(i)) && kernel.forks(i)
  }

  // What the shell has open at the head of the loop: besides its own, the read end of the
  // pipe from the stage before.
  ghost predicate Between(t: Fds, fds: Fds, prevRead: Option<nat>, base: nat, i: nat, n: nat) {
    if i == 0 || i == n then fds == t && (i == 0 ==> prevRead.None?)
    else prevRead.Some? && prevRead.value !in t && fds == t[prevRead.value := Entry(ReadEnd(base + i - 1), false)]
  }

  lemma LeakWithoutPipe(t: Fds, fds: Fds, prevRead: Option<nat>, base: nat, i: nat, n: nat, forkFailed: bool)
    requires i < n && Between(t, fds, prevRead, base, i, n) && (forkFailed ==> i == n - 1)
    ensures ExtendedBy(t, fds, Leak(base, i, n, forkFailed))
  {
  }

  lemma LeakWithPipe(t: Fds, fds: Fds, prevRead: Option<nat>, base: nat, i: nat, n: nat, r: nat, w: nat)
    requires i < n - 1 && Between(t, fds, prevRead, base, i, n) && r !in fds && w !in fds && r != w
    ensures ExtendedBy(t, fds[r := Entry(ReadEnd(base + i), false)][w := Entry(WriteEnd(base + i), false)], Leak(base, i, n, true))
  {
    var u := fds[r := Entry(ReadEnd(base + i), false)][w := Entry(WriteEnd(base + i), false)];
    assert r in u && r !in t && w in u && w !in t;
    assert i > 0 ==> prevRead.value in u && prevRead.value !in t;
  }

  // A stage that works: its own table is as it should be, and the parent is ready for the next.
  lemma StageTables(t: Fds, fds: Fds, u: Fds, prevRead: Option<nat>, base: nat, i: nat, n: nat, r: nat, w: nat)
    requires i < n && StdOpen(t) && Between(t, fds, prevRead, base, i, n)
    requires if i == n - 1 then u == fds else
      r !in fds && w !in fds && r != w && u == fds[r := Entry(ReadEnd(base + i), false)][w := Entry(WriteEnd(base + i), false)]
    ensures prevRead.Some? ==> prevRead.value in u
    ensures ChildTable(u, prevRead, r, w, i == n - 1) == Wired(t, base, i, n)
    ensures Between(t, ParentTable(u, prevRead, w, i == n - 1), if i == n - 1 then prevRead else Some(r), base, i + 1, n)
  {
  }

  // The parent's part of the loop body.
  method HandOver(parent: Process, prevRead: Option<nat>, r: nat, w: nat, isLast: bool) returns (prevRead': Option<nat>)
    modifies parent
    ensures parent.fds == ParentTable(old(parent.fds), prevRead, w, isLast)
    ensures prevRead' == if isLast then prevRead else Some(r)
  {
    prevRead' := prevRead;
    if prevRead.Some? {
      parent.Close(prevRead.value);
    }
    if !isLast {
      parent.Close(w);
      prevRead' := Some(r);
    }
  }

  // The turn once pipe and fork have succeeded.
  method StartStage(parent: Process, prevRead: Option<nat>, ghost base: nat, i: nat, n: nat, r: nat, w: nat, ghost t: Fds, ghost fds: Fds)
    returns (child: Process, prevRead': Option<nat>)
    requires i < n && StdOpen(t) && Between(t, fds, prevRead, base, i, n)
    requires i < n - 1 ==> r !in fds && w !in fds && r != w
    requires parent.fds == if i == n - 1 then fds else fds[r := Entry(ReadEnd(base + i), false)][w := Entry(WriteEnd(base + i), false)]
    modifies parent
    ensures fresh(child) && child.fds == Wired(t, base, i, n) && Between(t, parent.fds, prevRead', base, i + 1, n)
  {
    StageTables(t, fds, parent.fds, prevRead, base, i, n, r, w);
    child := new Process(parent.fds);
    WireChild(child, prevRead, r, w, i == n - 1);
    prevRead' := HandOver(parent, prevRead, r, w, i == n - 1);
  }

  // One turn of the loop.
  method SpawnStage(parent: Process, prevRead: Option<nat>, base: nat, i: nat, n: nat, kernel: Kernel, ghost t: Fds)
    returns (child: Process?, prevRead': Option<nat>, ghost forkFailed: bool)
    requires i < n && StdOpen(t) && Between(t, parent.fds, prevRead, base, i, n)
    modifies parent
    ensures child != null <==> Works(kernel, i, n)
    ensures child != null ==> fresh(child) && child.fds == Wired(t, base, i, n) && Between(t, parent.fds, prevRead', base, i + 1, n)
    ensures child == null ==> forkFailed == (i == n - 1 || kernel.pipes(i))
    ensures child == null ==> ExtendedBy(t, parent.fds, Leak(base, i, n, forkFailed))
  {
    child, prevRead', forkFailed := null, prevRead, false;
    var isLast := i == n - 1;
    var r, w := 0, 0;
    ghost var fds := parent.fds;
    if !isLast {
      if !kernel.pipes(i) {
        LeakWithoutPipe(t, fds, prevRead, base, i, n, false);
        return;
      }
      r, w := parent.Pipe(base + i);
    }
    if !kernel.forks(i) {
      forkFailed := true;
      if isLast {
        LeakWithoutPipe(t, fds, prevRead, base, i, n, true);
      } else {
        LeakWithPipe(t, fds, prevRead, base, i, n, r, w);
      }
      return;
    }
    child, prevRead' := StartStage(parent, prevRead, base, i, n, r, w, t, fds);
  }

  lemma LeakIsNothing(t: Fds, u: Fds, base: nat, at: nat, n: nat, forkFailed: bool)
    requires at < n && ExtendedBy(t, u, Leak(base, at, n, forkFailed))
    ensures u == t <==> at == 0 && (!forkFailed || n == 1)
  {
    if at > 0 {
      assert ReadEnd(base + at - 1) in Leak(base, at, n, forkFailed);
    } else if forkFailed && n > 1 {
      assert ReadEnd(base + at) in Leak(base, at, n, forkFailed);
    }
  }

  lemma LeakSpelled(t: Fds, u: Fds, base: nat, at: nat, n: nat, forkFailed: bool)
    requires at < n && ExtendedBy(t, u, Leak(base, at, n, forkFailed))
    ensures forall f :: Added(t, u, f) <==>
      (at > 0 && f == ReadEnd(base + at - 1)) || (at < n - 1 && forkFailed && (f == ReadEnd(base + at) || f == WriteEnd(base + at)))
  {
    forall f ensures Added(t, u, f) <==> f in Leak(base, at, n, forkFailed) {
    }
  }

  lemma GrantedIsAllWork(kernel: Kernel, n: nat)
    ensures (forall i :: 0 <= i < n - 1 ==> kernel.pipes(i)) && (forall i :: 0 <= i < n ==> kernel.forks(i)) <==>
      forall i :: 0 <= i < n ==> Works(kernel, i, n)
  {
    if forall i :: 0 <= i < n ==> Works(kernel, i, n) {
      forall i | 0 <= i < n ensures kernel.forks(i) && (i < n - 1 ==> kernel.pipes(i)) {
        assert Works(kernel, i, n);
      }
    }
  }

  /** The loop succeeds exactly if the kernel grants every pipe and fork. On success the shell's
      table is the one it started with and child i's is that table with only its two pipe ends put
      in place. On failure at stage `at`, the first that does not work, exactly the ends in Leak
      stay open in the shell, so the table is conserved if and only if the spawn succeeded, or
      nothing had been opened yet. */
  method SpawnPipeline(parent: Process, n: nat, base: nat, kernel: Kernel)
    returns (ok: bool, children: seq<Process>, ghost at: nat, ghost forkFailed: bool)
    requires n > 0 && StdOpen(parent.fds)
    modifies parent
    ensures fresh(children) && forall i, j :: 0 <= i < j < |children| ==> children[i] != children[j]
    ensures ok <==> (forall i :: 0 <= i < n - 1 ==> kernel.pipes(i)) && forall i :: 0 <= i < n ==> kernel.forks(i)
    ensures ok ==> parent.fds == old(parent.fds) && |children| == n
    ensures !ok ==> at < n && !Works(kernel, at, n) && forall i :: 0 <= i < at ==> Works(kernel, i, n)
    ensures !ok ==> (at < n - 1 && !kernel.pipes(at)) || !kernel.forks(at)
    ensures !ok ==> forall i :: 0 <= i < at ==> kernel.pipes(i) && kernel.forks(i)
    ensures !ok ==> forall fd :: fd in old(parent.fds) ==> fd in parent.fds && parent.fds[fd] == old(parent.fds)[fd]
    ensures !ok ==> forall f :: Added(old(parent.fds), parent.fds, f) <==>
      (at > 0 && f == ReadEnd(base + at - 1)) || (at < n - 1 && kernel.pipes(at) && (f == ReadEnd(base + at) || f == WriteEnd(base + at)))
    ensures !ok ==> |children| == at && forkFailed == (at == n - 1 || kernel.pipes(at))
    ensures !ok ==> ExtendedBy(old(parent.fds), parent.fds, Leak(base, at, n, forkFailed))
    ensures forall i :: 0 <= i < |children| ==> children[i].fds == Wired(old(parent.fds), base, i, n)
    ensures parent.fds == old(parent.fds) <==> ok || (at == 0 && (!forkFailed || n == 1))
  {
    children, at, forkFailed := [], 0, false;
    GrantedIsAllWork(kernel, n);
    var prevRead: Option<nat> := None;
    ghost var t := parent.fds;
    for i := 0 to n
      invariant fresh(children) && |children| == i && parent !in children
      invariant forall j, l :: 0 <= j < l < |children| ==> children[j] != children[l]
      invariant forall j :: 0 <= j < i ==> children[j].fds == Wired(t, base, j, n)
      invariant Between(t, parent.fds, prevRead, base, i, n)
      invariant forall j :: 0 <= j < i ==> Works(kernel, j, n)
    {
      at := i;
      var child;
      child, prevRead, forkFailed := SpawnStage(parent, prevRead, base, i, n, kernel, t);
      if child == null {
        assert !Works(kernel, i, n);
        LeakIsNothing(t, parent.fds, base, i, n, forkFailed);
        LeakSpelled(t, parent.fds, base, i, n, forkFailed);
        forall j | 0 <= j < i ensures kernel.pipes(j) && kernel.forks(j) {
          assert Works(kernel, j, n);
        }
        return false, children, at, forkFailed;
      }
      children := children + [child];
    }
    ok := true;
  }

  // ------------------------------------------------------------ who holds a pipe end

  // The stages still alive that hold a file, with the descriptors they hold it at.
  ghost function Holders(tables: seq<Fds>, alive: set<nat>, f: File): set<(nat, nat)> {
    set i, fd | 0 <= i < |tables| && i in alive && fd in tables[i] && tables[i][fd].file == f :: (i, fd)
  }

  ghost predicate AllWired(t: Fds, base: nat, tables: seq<Fds>) {
    forall i :: 0 <= i < |tables| ==> tables[i] == Wired(t, base, i, |tables|)
  }

  /** Of each pipe there is one reader copy, stage p+1's stdin, and one writer copy, stage p's
      stdout, as long as those stages live; and the shell has none. */
  lemma OneReaderOneWriter(t: Fds, base: nat, tables: seq<Fds>, alive: set<nat>, p: nat)
    requires NoPipeFrom(t, base) && AllWired(t, base, tables) && p + 1 < |tables|
    ensures Holders(tables, alive, ReadEnd(base + p)) == if p + 1 in alive then {(p + 1, STDIN)} else {}
    ensures Holders(tables, alive, WriteEnd(base + p)) == if p in alive then {(p, STDOUT)} else {}
    ensures forall fd :: fd in t ==> t[fd].file != ReadEnd(base + p) && t[fd].file != WriteEnd(base + p)
  {
    forall i: nat, fd | i < |tables| && fd in tables[i]
      ensures tables[i][fd].file == ReadEnd(base + p) <==> i == p + 1 && fd == STDIN
      ensures tables[i][fd].file == WriteEnd(base + p) <==> i == p && fd == STDOUT
    {
      assert tables[i] == Wired(t, base, i, |tables|);
    }
    assert STDIN in tables[p + 1] && STDOUT in tables[p];
  }

  /** So stage p+1 reads end of file from its pipe exactly when stage p has exited: then, and
      only then, is no writer left. */
  lemma ExitGivesEof(t: Fds, base: nat, tables: seq<Fds>, alive: set<nat>, p: nat)
    requires NoPipeFrom(t, base) && AllWired(t, base, tables) && p + 1 < |tables|
    ensures Holders(tables, alive, WriteEnd(base + p)) == {} <==> p !in alive
  {
    OneReaderOneWriter(t, base, tables, alive, p);
    assert (p, STDOUT) in {(p, STDOUT)};
  }

  // ------------------------------------------------------------ redirection, then exec

  // A file redirection of a command, and what open answers.
  datatype Target = NoFile | Opens(id: int) | OpenFails

  // fd = open(...); dup2(fd, to); close(fd);
  method OpenOnto(c: Process, file: File, to: nat)
    requires StdOpen(c.fds) && to <= STDERR
    modifies c
    ensures c.fds == old(c.fds)[to := Entry(file, false)]
  {
    var fd := c.Open(file, false);
    c.CopyTo(fd, to);
    c.Close(fd);
  }

  // The table once standard input has been settled.
  function Sourced(t: Fds, heredoc: Option<nat>, input: Target): Fds
    requires heredoc.Some? ==> heredoc.value in t
  {
    if heredoc.Some? then Dup2(t, heredoc.value, STDIN) - {heredoc.value}
    else if input.Opens? then t[STDIN := Entry(Plain(input.id), false)]
    else t
  }

  function Sunk(t: Fds, output: Target): Fds {
    if output.Opens? then t[STDOUT := Entry(Plain(output.id), false)] else t
  }

  /** apply_redirection, in the child. A here-document's temporary file is already open,
      close-on-exec, at descriptor `heredoc`; it wins over an input file. The child gives up when a
      file cannot be opened. */
  method ApplyRedirection(c: Process, heredoc: Option<nat>, input: Target, output: Target) returns (ok: bool)
    requires StdOpen(c.fds) && (heredoc.Some? ==> heredoc.value in c.fds && heredoc.value > STDERR)
    modifies c
    ensures ok <==> (heredoc.Some? || !input.OpenFails?) && !output.OpenFails?
    ensures ok ==> c.fds == Sunk(Sourced(old(c.fds), heredoc, input), output)
  {
    if heredoc.Some? {
      c.CopyTo(heredoc.value, STDIN);
      c.Close(heredoc.value);
    } else if input.OpenFails? {
      return false;
    } else if input.Opens? {
      OpenOnto(c, Plain(input.id), STDIN);
    }
    if output.OpenFails? {
      return false;
    } else if output.Opens? {
      OpenOnto(c, Plain(output.id), STDOUT);
    }
    ok := true;
  }

  /** exec_child: redirection, and then, unless the stage is a built-in, execvp. */
  method ExecChild(c: Process, heredoc: Option<nat>, input: Target, output: Target, isBuiltin: bool) returns (ok: bool)
    requires StdOpen(c.fds) && (heredoc.Some? ==> heredoc.value in c.fds && heredoc.value > STDERR)
    modifies c
    ensures ok <==> (heredoc.Some? || !input.OpenFails?) && !output.OpenFails?
    ensures ok ==> var t := Sunk(Sourced(old(c.fds), heredoc, input), output); c.fds == if isBuiltin then t else Exec(t)
  {
    ok := ApplyRedirection(c, heredoc, input, output);
    if ok && !isBuiltin {
      c.fds := Exec(c.fds);
    }
  }

  // Where stage i of n reads from and writes to when its program starts: a here-document before
  // a file before a pipe, a file before a pipe, and otherwise what the shell had.
  function InputOf(t: Fds, base: nat, i: nat, heredoc: Option<nat>, input: Target): File
    requires StdOpen(t) && (heredoc.Some? ==> heredoc.value in t)
  {
    if heredoc.Some? then t[heredoc.value].file
    else if input.Opens? then Plain(input.id)
    else if i > 0 then ReadEnd(base + i - 1)
    else t[STDIN].file
  }

  function OutputOf(t: Fds, base: nat, i: nat, n: nat, output: Target): File
    requires StdOpen(t)
  {
    if output.Opens? then Plain(output.id)
    else if i + 1 < n then WriteEnd(base + i)
    else t[STDOUT].file
  }

  // What execvp lets through beyond the standard descriptors: whatever the shell inherited or
  // has leaked without close-on-exec, but not the here-document, which the child has closed.
  function Inherited(t: Fds, heredoc: Option<nat>): Fds {
    map fd | fd in t && fd > STDERR && !t[fd].cloexec && heredoc != Some(fd) :: t[fd]
  }

  lemma AfterExec(t: Fds, v: Fds, heredoc: Option<nat>, source: File, sink: File)
    requires StdOpen(t) && StdOpen(v) && !t[STDERR].cloexec && v[STDERR] == t[STDERR]
    requires v[STDIN] == Entry(source, false) && v[STDOUT] == Entry(sink, false)
    requires forall fd :: fd > STDERR ==> (fd in v <==> fd in t && heredoc != Some(fd))
    requires forall fd :: fd > STDERR && fd in v ==> v[fd] == t[fd]
    ensures Exec(v) == map[STDIN := Entry(source, false), STDOUT := Entry(sink, false), STDERR := t[STDERR]] + Inherited(t, heredoc)
  {
  }

  // The table at the moment of execvp.
  lemma BeforeExec(t: Fds, base: nat, i: nat, n: nat, heredoc: Option<nat>, input: Target, output: Target)
    requires StdOpen(t) && !t[STDIN].cloexec && !t[STDOUT].cloexec
    requires i < n && (heredoc.Some? ==> heredoc.value in t && heredoc.value > STDERR)
    ensures heredoc.Some? ==> heredoc.value in Wired(t, base, i, n)
    ensures var v := Sunk(Sourced(Wired(t, base, i, n), heredoc, input), output);
      && StdOpen(v) && v[STDERR] == t[STDERR]
      && v[STDIN] == Entry(InputOf(t, base, i, heredoc, input), false)
      && v[STDOUT] == Entry(OutputOf(t, base, i, n, output), false)
      && (forall fd :: fd > STDERR ==> (fd in v <==> fd in t && heredoc != Some(fd)))
      && (forall fd :: fd > STDERR && fd in v ==> v[fd] == t[fd])
  {
  }

  /** What a stage's program starts with, end to end: standard error as the shell has it; standard
      input from a here-document before a file before a pipe, standard output to a file before a
      pipe, and otherwise both as the shell has them; and besides them exactly what the shell itself
      holds without close-on-exec: no pipe end of this pipeline, no here-document. */
  lemma StageStartsClean(t: Fds, base: nat, i: nat, n: nat, heredoc: Option<nat>, input: Target, output: Target)
    requires StdOpen(t) && !t[STDIN].cloexec && !t[STDOUT].cloexec && !t[STDERR].cloexec
    requires i < n && (heredoc.Some? ==> heredoc.value in t && heredoc.value > STDERR)
    ensures heredoc.Some? ==> heredoc.value in Wired(t, base, i, n)
    ensures var u := Exec(Sunk(Sourced(Wired(t, base, i, n), heredoc, input), output));
      && StdOpen(u) && !u[STDIN].cloexec && !u[STDOUT].cloexec && u[STDERR] == t[STDERR]
      && u[STDIN].file == (
           if heredoc.Some? then t[heredoc.value].file else if input.Opens? then Plain(input.id)
           else if i > 0 then ReadEnd(base + i - 1) else t[STDIN].file)
      && u[STDOUT].file == (if output.Opens? then Plain(output.id) else if i < n - 1 then WriteEnd(base + i) else t[STDOUT].file)
      && u - {STDIN, STDOUT, STDERR} == (map fd | fd in t && fd > STDERR && !t[fd].cloexec && heredoc != Some(fd) :: t[fd])
  {
    BeforeExec(t, base, i, n, heredoc, input, output);
    AfterExec(t, Sunk(Sourced(Wired(t, base, i, n), heredoc, input), output), heredoc,
      InputOf(t, base, i, heredoc, input), OutputOf(t, base, i, n, output));
  }

  /** After exec stage i still writes to its pipe exactly when it has no output file; with one,
      the next stage's input is at end of file from the start. */
  lemma OutputFileEndsPipe(t: Fds, base: nat, i: nat, n: nat, heredoc: Option<nat>, input: Target, output: Target)
    requires StdOpen(t) && NoPipeFrom(t, base) && i + 1 < n
    requires heredoc.Some? ==> heredoc.value in t && heredoc.value > STDERR
    ensures heredoc.Some? ==> heredoc.value in Wired(t, base, i, n)
    ensures var u := Exec(Sunk(Sourced(Wired(t, base, i, n), heredoc, input), output));
      (exists fd :: fd in u && u[fd].file == WriteEnd(base + i)) <==> !output.Opens?
  {
    var v := Sunk(Sourced(Wired(t, base, i, n), heredoc, input), output);
    assert STDOUT in v && !v[STDOUT].cloexec;
    assert v[STDOUT].file == OutputOf(t, base, i, n, output);
    assert STDOUT in Exec(v) && Exec(v)[STDOUT] == v[STDOUT];
  }

  // A descriptor that a failed spawn has added is among those that execvp lets through.
  lemma AddedIsInherited(t: Fds, u: Fds, files: set<File>, f: File, heredoc: Option<nat>) returns (fd: nat)
    requires StdOpen(t) && ExtendedBy(t, u, files) && f in files
    requires heredoc.Some? ==> heredoc.value in u && u[heredoc.value].cloexec
    ensures fd > STDERR && fd in Inherited(u, heredoc) && Inherited(u, heredoc)[fd].file == f
  {
    fd :| fd in u && fd !in t && u[fd].file == f;
  }

  /** What a failed spawn leaks, every program started later holds as well. */
  lemma LeakIsInherited(t: Fds, u: Fds, base: nat, at: nat, n: nat, forkFailed: bool, f: File,
      later: nat, i: nat, m: nat, heredoc: Option<nat>, input: Target, output: Target)
    requires StdOpen(t) && !t[STDIN].cloexec && !t[STDOUT].cloexec && !t[STDERR].cloexec
    requires at < n && ExtendedBy(t, u, Leak(base, at, n, forkFailed)) && f in Leak(base, at, n, forkFailed)
    requires i < m && (heredoc.Some? ==> heredoc.value in u && heredoc.value > STDERR && u[heredoc.value].cloexec)
    ensures heredoc.Some? ==> heredoc.value in Wired(u, later, i, m)
    ensures var started := Exec(Sunk(Sourced(Wired(u, later, i, m), heredoc, input), output));
      exists fd :: fd in started && started[fd].file == f
  {
    var fd := AddedIsInherited(t, u, Leak(base, at, n, forkFailed), f, heredoc);
    StageStartsClean(u, later, i, m, heredoc, input, output);
    var started := Exec(Sunk(Sourced(Wired(u, later, i, m), heredoc, input), output));
    assert fd in started && started[fd] == Inherited(u, heredoc)[fd];
  }
}
