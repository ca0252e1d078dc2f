/** One turn of the read-eval-print loop (src/main.c): record the line, parse it, collect
    here-documents, expand, execute, free, close. Executing means, but for a built-in standing
    alone, to spawn the pipeline and to redirect each stage; what runs in it then is left out. */
module Turn {
  import opened Options
  import opened Strings
  import opened PipelineFds
  import opened Expand
  import opened Heap
  import opened Limits
  import O = Ownership
  import P = Parser
  import H = Heredoc
  import opened History

  // ------------------------------------------------------------ what a turn is given

  // How a file is opened: O_RDONLY, O_TRUNC or O_APPEND.
  datatype Way = ToRead | ToReplace | ToAppend

  // What words expand to; which names are built-ins; what pipe and fork answer, and the number of
  // the next pipe; and what each stage is answered when it opens a path.
  datatype Setting = Setting(
    status: int, env: Environment, glob: O.Globber, builtin: string -> bool,
    kernel: Kernel, base: nat, opens: (nat, string, Way) -> Option<int>)

  ghost predicate Proper(s: Setting) {
    O.GoodGlobber(s.glob) && NulFree(s.env) && -0x8000_0000 <= s.status < 0x8000_0000
  }

  // What becomes of a line: nothing; a built-in runs in the shell; no full pipeline; or a stage
  // for each command, with its descriptors, or None if a file it needs could not be opened.
  datatype Outcome = NotRun | InShell | SpawnFailed | Spawned(stages: seq<Option<Fds>>)

  // ------------------------------------------------------------ from parsed commands to programs

  // How expansion sees what the parser left in the line buffer.
  function Word(b: seq<char>, p: Ptr): O.Word {
    if p.Some? then O.Borrowed(CStr(b, p.value)) else O.Null
  }

  function Borrow(c: P.Command, b: seq<char>): O.Command
    requires P.CommandOk(c)
  {
    O.Command(seq(MAX_ARGS, i requires 0 <= i < MAX_ARGS => if i < c.argc then Word(b, c.args[i]) else O.Null),
      c.argc, Word(b, c.inputFile), Word(b, c.outputFile))
  }

  function Redirection(name: Option<string>, s: Setting): Option<string> {
    if name.Some? then Some(O.TargetOf(name.value, s.status, s.env, s.glob)) else None
  }

  // What a parsed command is run with.
  function ProgramOf(c: P.Cmd, s: Setting): O.Program {
    O.Program(O.ArgvOf(c.args, s.status, s.env, s.glob), Redirection(c.input, s), Redirection(c.output, s))
  }

  function Programs(line: P.Line, s: Setting): seq<O.Program> {
    seq(|line.commands|, k requires 0 <= k < |line.commands| => ProgramOf(line.commands[k], s))
  }

  function Delims(line: P.Line): seq<Option<string>> {
    seq(|line.commands|, k requires 0 <= k < |line.commands| => line.commands[k].delim)
  }

  lemma BorrowIsParsed(c: P.Command, b: seq<char>, s: Setting)
    requires P.CommandOk(c) && c.argc >= 1
    ensures O.Parsed(Borrow(c, b)) && O.ProgramOf(Borrow(c, b), s.status, s.env, s.glob) == ProgramOf(P.View(c, b), s)
  {
    assert O.ArgTexts(Borrow(c, b)) == P.ArgStrings(c, b);
  }

  lemma HasArguments(c: P.Command, b: seq<char>, s: Setting)
    requires P.CommandOk(c) && c.argc >= 1 && Proper(s)
    ensures ProgramOf(P.View(c, b), s).argv != []
  {
    O.AllWordsNonEmpty(P.ArgStrings(c, b), s.status, s.env, s.glob);
  }

  lemma ParsedLine(cmds: seq<P.Command>, b: seq<char>, text: string, background: bool, limit: nat)
    requires P.Parsed(cmds, b, limit) && P.ParseLine(text) == Some(P.Line(P.Views(cmds, b), background))
    ensures forall k :: 0 <= k < |cmds| ==> cmds[k].argc >= 1
  {
    P.CommandsHaveArguments([], Tokens(text, Bar));
    forall k | 0 <= k < |cmds| ensures cmds[k].argc >= 1 {
      assert P.Views(cmds, b)[k] in P.Views(cmds, b);
      assert |P.View(cmds[k], b).args| == cmds[k].argc;
    }
  }

  // The parser's commands as expansion gets them.
  method BorrowAll(p: P.Pipeline, buf: array<char>, ghost s: Setting) returns (words: array<O.Command>)
    requires p.Valid() && forall k :: 0 <= k < p.numCommands ==> P.CommandOk(p.commands[k]) && p.commands[k].argc >= 1
    ensures fresh(words) && words.Length == p.numCommands
    ensures forall k :: 0 <= k < p.numCommands ==>
      O.Parsed(words[k]) && O.ProgramOf(words[k], s.status, s.env, s.glob) == ProgramOf(P.View(p.commands[k], buf[..]), s)
  {
    words := new O.Command[p.numCommands](_ => O.Command([], 0, O.Null, O.Null));
    for k := 0 to p.numCommands
      invariant forall j :: 0 <= j < k ==> words[j] == Borrow(p.commands[j], buf[..])
    {
      words[k] := Borrow(p.commands[k], buf[..]);
    }
    forall k | 0 <= k < p.numCommands
      ensures O.Parsed(words[k]) && O.ProgramOf(words[k], s.status, s.env, s.glob) == ProgramOf(P.View(p.commands[k], buf[..]), s)
    {
      BorrowIsParsed(p.commands[k], buf[..], s);
    }
  }

  // ------------------------------------------------------------ executing

  function Opening(path: Option<string>, k: nat, way: Way, s: Setting): PipelineFds.Target {
    if path.None? then NoFile
    else match s.opens(k, path.value, way)
      case Some(id) => Opens(id)
      case None => OpenFails
  }

  function HeredocOf(fd: int): Option<nat> {
    if fd >= 0 then Some(fd) else None
  }

  predicate Usable(heredoc: Option<nat>, t: Fds) {
    heredoc.Some? ==> heredoc.value in t && heredoc.value > STDERR
  }

  // The table of stage k of n when its program or its built-in starts, over the shell's table t.
  function StageTable(t: Fds, heredoc: Option<nat>, r: O.Program, append: bool, k: nat, n: nat, s: Setting): Option<Fds>
    requires k < n && Usable(heredoc, t) && r.argv != []
  {
    var input, output := Opening(r.input, k, ToRead, s), Opening(r.output, k, if append then ToAppend else ToReplace, s);
    if (heredoc.None? && input.OpenFails?) || output.OpenFails? then None
    else
      var u := Sunk(Sourced(Wired(t, s.base, k, n), heredoc, input), output);
      Some(if s.builtin(r.argv[0]) then u else Exec(u))
  }

  // Every pipe between two stages, and every fork, works.
  predicate AllGranted(kernel: Kernel, n: nat) {
    (forall i :: 0 <= i < n - 1 ==> kernel.pipes(i)) && forall i :: 0 <= i < n ==> kernel.forks(i)
  }

  // A spawn that has failed at the first stage that does not work, and what it has left open.
  ghost predicate Leaked(t: Fds, u: Fds, n: nat, s: Setting) {
    exists at :: 0 <= at < n && !Works(s.kernel, at, n) && (forall i :: 0 <= i < at ==> Works(s.kernel, i, n)) &&
      ExtendedBy(t, u, Leak(s.base, at, n, at == n - 1 || s.kernel.pipes(at)))
  }

  // The children's part: redirection and, unless it is a built-in, execvp.
  method StartStages(children: seq<Process>, commands: array<P.Command>, programs: seq<O.Program>, s: Setting, ghost t: Fds)
    returns (stages: seq<Option<Fds>>)
    requires StdOpen(t) && |children| == |programs| <= commands.Length
    requires forall i, j :: 0 <= i < j < |children| ==> children[i] != children[j]
    requires forall k :: 0 <= k < |children| ==> children[k].fds == Wired(t, s.base, k, |children|) && programs[k].argv != []
    requires forall k :: 0 <= k < |children| ==> Usable(HeredocOf(commands[k].heredocFd), t)
    modifies children
    ensures |stages| == |children|
    ensures forall k :: 0 <= k < |children| ==>
      stages[k] == StageTable(t, HeredocOf(commands[k].heredocFd), programs[k], commands[k].appendMode, k, |children|, s)
  {
    var n := |children|;
    stages := [];
    for k := 0 to n
      invariant |stages| == k
      invariant forall j :: k <= j < n ==> children[j].fds == Wired(t, s.base, j, n)
      invariant forall j :: 0 <= j < k ==> stages[j] == StageTable(t, HeredocOf(commands[j].heredocFd), programs[j], commands[j].appendMode, j, n, s)
    {
      var ok := ExecChild(children[k], HeredocOf(commands[k].heredocFd), Opening(programs[k].input, k, ToRead, s),
        Opening(programs[k].output, k, if commands[k].appendMode then ToAppend else ToReplace, s), s.builtin(programs[k].argv[0]));
      stages := stages + [if ok then Some(children[k].fds) else None];
    }
  }

  /** The choice between the shell itself and a pipeline, and the pipeline up to the point where
      every stage runs. */
  method Execute(shell: Process, commands: array<P.Command>, programs: seq<O.Program>, s: Setting) returns (outcome: Outcome)
    requires StdOpen(shell.fds) && 0 < |programs| <= commands.Length
    requires forall k :: 0 <= k < |programs| ==> programs[k].argv != [] && Usable(HeredocOf(commands[k].heredocFd), shell.fds)
    modifies shell
    ensures !outcome.NotRun? && (|programs| >= 2 ==> !outcome.InShell?)
    ensures |programs| == 1 ==> (outcome.InShell? <==> s.builtin(programs[0].argv[0]))
    ensures !outcome.InShell? ==> (outcome.Spawned? <==> AllGranted(s.kernel, |programs|))
    ensures if outcome.SpawnFailed? then Leaked(old(shell.fds), shell.fds, |programs|, s) else shell.fds == old(shell.fds)
    ensures outcome.Spawned? ==> |outcome.stages| == |programs| && forall k :: 0 <= k < |programs| ==>
      outcome.stages[k] == StageTable(old(shell.fds), HeredocOf(commands[k].heredocFd), programs[k], commands[k].appendMode, k, |programs|, s)
  {
    if |programs| == 1 && s.builtin(programs[0].argv[0]) {
      return InShell;
    }
    ghost var t := shell.fds;
    ghost var at, forkFailed;
    var ok, children;
    ok, children, at, forkFailed := SpawnPipeline(shell, |programs|, s.base, s.kernel);
    if !ok {
      return SpawnFailed;
    }
    var stages := StartStages(children, commands, programs, s, t);
    outcome := Spawned(stages);
  }

  // ------------------------------------------------------------ what the stages start with

  predicate StdKept(t: Fds) {
    StdOpen(t) && !t[STDIN].cloexec && !t[STDOUT].cloexec && !t[STDERR].cloexec
  }

  ghost predicate Holding(f: File, files: map<int, string>, text: string) {
    f.Plain? && f.id in files && files[f.id] == text
  }

  // The three streams of a stage, the files read and written being those that open has returned.
  ghost predicate HasStreams(u: Fds, t: Fds, delim: Option<string>, seg: seq<string>, files: map<int, string>,
      read: Option<int>, written: Option<int>, k: nat, n: nat, s: Setting)
    requires StdOpen(t)
  {
    && StdOpen(u) && !u[STDIN].cloexec && !u[STDOUT].cloexec && u[STDERR] == t[STDERR]
    && (match delim
        case Some(d) => Holding(u[STDIN].file, files, H.Contents(H.Body(seg, d)))
        case None => u[STDIN].file == if read.Some? then Plain(read.value) else if k > 0 then ReadEnd(s.base + k - 1) else t[STDIN].file)
    && u[STDOUT].file == (if written.Some? then Plain(written.value) else if k < n - 1 then WriteEnd(s.base + k) else t[STDOUT].file)
  }

  /** What stage k of n starts with, t being the shell's table before the turn. It does not start
      only if a file that it needs cannot be opened. Standard input is its here-document, with
      exactly the lines it took, or else its input file, or the pipe from the stage before;
      standard output its output file, replaced or appended to, or the pipe to the next. A program
      has nothing else but what the shell itself had before the turn: no end of a pipe, no
      here-document, its own or another's. */
  ghost predicate StageStarts(u: Option<Fds>, t: Fds, c: P.Cmd, seg: seq<string>, files: map<int, string>, k: nat, n: nat, s: Setting)
    requires StdOpen(t) && k < n && ProgramOf(c, s).argv != []
  {
    var read := if c.input.Some? then s.opens(k, O.TargetOf(c.input.value, s.status, s.env, s.glob), ToRead) else None;
    var way := if c.append then ToAppend else ToReplace;
    var written := if c.output.Some? then s.opens(k, O.TargetOf(c.output.value, s.status, s.env, s.glob), way) else None;
    && (u.None? <==> (c.delim.None? && c.input.Some? && read.None?) || (c.output.Some? && written.None?))
    && (u.Some? ==> HasStreams(u.value, t, c.delim, seg, files, read, written, k, n, s))
    && (u.Some? && !s.builtin(ProgramOf(c, s).argv[0]) ==>
          u.value - {STDIN, STDOUT, STDERR} == (map fd | fd in t && fd > STDERR && !t[fd].cloexec :: t[fd]))
  }

  // Every command has at least one argument left, so there is a name to look up.
  ghost predicate WithArguments(line: P.Line, s: Setting) {
    forall k :: 0 <= k < |line.commands| ==> ProgramOf(line.commands[k], s).argv != []
  }

  ghost predicate AllStart(stages: seq<Option<Fds>>, t: Fds, line: P.Line, segs: seq<seq<string>>, files: map<int, string>, s: Setting)
    requires StdOpen(t) && WithArguments(line, s)
  {
    && |stages| == |segs| == |line.commands|
    && forall k :: 0 <= k < |stages| ==> StageStarts(stages[k], t, line.commands[k], segs[k], files, k, |stages|, s)
  }

  // The shell's table while here-documents are open.
  lemma HeredocsUsable(was: seq<P.Command>, cmds: seq<P.Command>, t: Fds, u: Fds)
    requires H.Opened(was, cmds, t, u) && StdOpen(t)
    ensures StdOpen(u) && u[STDIN] == t[STDIN] && u[STDOUT] == t[STDOUT] && u[STDERR] == t[STDERR]
    ensures forall k :: 0 <= k < |cmds| ==> Usable(HeredocOf(cmds[k].heredocFd), u)
  {
    assert forall fd :: fd in t ==> fd in u - H.FdsOf(cmds) && (u - H.FdsOf(cmds))[fd] == t[fd];
    forall k | 0 <= k < |cmds| && cmds[k].heredocFd >= 0 ensures Usable(HeredocOf(cmds[k].heredocFd), u) {
      assert cmds[k].heredocFd as nat in H.FdsOf(cmds);
    }
  }

  // No program inherits a here-document: all of them are close-on-exec.
  lemma NoHeredocInherited(was: seq<P.Command>, cmds: seq<P.Command>, t: Fds, u: Fds, k: nat)
    requires H.Opened(was, cmds, t, u) && k < |cmds|
    requires forall j :: 0 <= j < |cmds| && cmds[j].heredocFd >= 0 ==> u[cmds[j].heredocFd].cloexec
    ensures Inherited(u, HeredocOf(cmds[k].heredocFd)) == Inherited(t, None)
  {
    var own := u - H.FdsOf(cmds);
    assert own == t;
    forall fd | fd in u && !u[fd].cloexec ensures fd in t && t[fd] == u[fd] && HeredocOf(cmds[k].heredocFd) != Some(fd) {
      assert fd in own;
    }
    forall fd | fd in t ensures fd in u && u[fd] == t[fd] && HeredocOf(cmds[k].heredocFd) != Some(fd) {
      assert fd in own;
    }
  }

  // What the table is of a stage that has been redirected, before execvp and after it.
  lemma StageParts(u: Fds, t: Fds, heredoc: Option<nat>, r: O.Program, append: bool, k: nat, n: nat, s: Setting)
    requires StdKept(u) && k < n && Usable(heredoc, u) && r.argv != []
    requires Inherited(u, heredoc) == Inherited(t, None)
    requires StageTable(u, heredoc, r, append, k, n, s).Some?
    ensures var v := StageTable(u, heredoc, r, append, k, n, s).value;
      && StdOpen(v) && v[STDERR] == u[STDERR]
      && v[STDIN] == Entry(InputOf(u, s.base, k, heredoc, Opening(r.input, k, ToRead, s)), false)
      && v[STDOUT] == Entry(OutputOf(u, s.base, k, n, Opening(r.output, k, if append then ToAppend else ToReplace, s)), false)
      && (!s.builtin(r.argv[0]) ==> v - {STDIN, STDOUT, STDERR} == Inherited(t, None))
  {
    var input, output := Opening(r.input, k, ToRead, s), Opening(r.output, k, if append then ToAppend else ToReplace, s);
    BeforeExec(u, s.base, k, n, heredoc, input, output);
    if !s.builtin(r.argv[0]) {
      StageStartsClean(u, s.base, k, n, heredoc, input, output);
    }
  }

  lemma StagePromised(u: Fds, t: Fds, heredoc: Option<nat>, c: P.Cmd, seg: seq<string>, files: map<int, string>, k: nat, n: nat, s: Setting)
    requires StdKept(t) && StdOpen(u) && u[STDIN] == t[STDIN] && u[STDOUT] == t[STDOUT] && u[STDERR] == t[STDERR]
    requires k < n && Usable(heredoc, u) && ProgramOf(c, s).argv != [] && Inherited(u, heredoc) == Inherited(t, None)
    requires heredoc.Some? <==> c.delim.Some?
    requires c.delim.Some? ==> Holding(u[heredoc.value].file, files, H.Contents(H.Body(seg, c.delim.value)))
    ensures StageStarts(StageTable(u, heredoc, ProgramOf(c, s), c.append, k, n, s), t, c, seg, files, k, n, s)
  {
    if StageTable(u, heredoc, ProgramOf(c, s), c.append, k, n, s).Some? {
      StageParts(u, t, heredoc, ProgramOf(c, s), c.append, k, n, s);
    }
  }

  lemma StageIsStarted(was: seq<P.Command>, cmds: seq<P.Command>, t: Fds, u: Fds, delims: seq<Option<string>>, segs: seq<seq<string>>,
      files: map<int, string>, k: nat, c: P.Cmd, s: Setting)
    requires H.Opened(was, cmds, t, u) && StdKept(t) && H.AllStashed(cmds, delims, segs, u, files)
    requires k < |cmds| == |delims| && delims[k] == c.delim && ProgramOf(c, s).argv != []
    ensures Usable(HeredocOf(cmds[k].heredocFd), u)
    ensures StageStarts(StageTable(u, HeredocOf(cmds[k].heredocFd), ProgramOf(c, s), c.append, k, |cmds|, s), t, c, segs[k], files, k, |cmds|, s)
  {
    HeredocsUsable(was, cmds, t, u);
    forall j | 0 <= j < |cmds| && cmds[j].heredocFd >= 0 ensures u[cmds[j].heredocFd].cloexec {
      assert H.Stash(cmds[j], delims[j], segs[j], u, files);
    }
    NoHeredocInherited(was, cmds, t, u, k);
    assert H.Stash(cmds[k], delims[k], segs[k], u, files);
    StagePromised(u, t, HeredocOf(cmds[k].heredocFd), c, segs[k], files, k, |cmds|, s);
  }

  lemma ExtensionStays(t: Fds, u: Fds, v: Fds, closed: set<nat>, files: set<File>)
    requires closed !! t.Keys && u - closed == t && closed <= u.Keys && ExtendedBy(u, v, files)
    ensures ExtendedBy(t, v - closed, files) && closed <= v.Keys
  {
    var own := u - closed;
    forall fd | fd in t ensures fd in v - closed && (v - closed)[fd] == t[fd] {
      assert fd in own;
    }
    forall fd | fd in v - closed && fd !in t ensures fd !in u {
      assert fd in u ==> fd in own;
    }
    forall f | f in files ensures exists fd :: fd in v - closed && fd !in t && (v - closed)[fd].file == f {
      var fd :| fd in v && fd !in u && v[fd].file == f;
      assert fd in t ==> fd in own;
      assert fd in v - closed;
    }
  }

  // Closing the here-documents afterwards leaves open what the spawn leaked.
  lemma LeakedStays(was: seq<P.Command>, cmds: seq<P.Command>, t: Fds, u: Fds, v: Fds, n: nat, s: Setting)
    requires H.Opened(was, cmds, t, u) && Leaked(u, v, n, s)
    ensures H.Opened(was, cmds, v - H.FdsOf(cmds), v) && Leaked(t, v - H.FdsOf(cmds), n, s)
  {
    var at :| 0 <= at < n && !Works(s.kernel, at, n) && (forall i :: 0 <= i < at ==> Works(s.kernel, i, n)) &&
      ExtendedBy(u, v, Leak(s.base, at, n, at == n - 1 || s.kernel.pipes(at)));
    ExtensionStays(t, u, v, H.FdsOf(cmds), Leak(s.base, at, n, at == n - 1 || s.kernel.pipes(at)));
  }

  // ------------------------------------------------------------ the turn

  lemma ProgramsOfLine(words: seq<O.Command>, programs: seq<O.Program>, line: P.Line, s: Setting)
    requires |words| == |line.commands| && O.RunWith(words, programs, s.status, s.env, s.glob)
    requires forall k :: 0 <= k < |words| ==>
      O.Parsed(words[k]) && O.ProgramOf(words[k], s.status, s.env, s.glob) == ProgramOf(line.commands[k], s)
    ensures programs == Programs(line, s)
  {
  }

  // Here-documents change neither arguments nor targets.
  lemma SamePrograms(was: seq<P.Command>, cmds: seq<P.Command>, b: seq<char>, line: P.Line, s: Setting)
    requires |was| == |cmds| && forall k :: 0 <= k < |was| ==> P.CommandOk(was[k]) && was[k].argc >= 1 && H.SameButFd(was[k], cmds[k])
    requires line.commands == P.Views(was, b) && Proper(s)
    ensures forall k :: 0 <= k < |was| ==> P.CommandOk(cmds[k]) && cmds[k].argc >= 1
    ensures forall k :: 0 <= k < |was| ==>
      ProgramOf(P.View(cmds[k], b), s) == ProgramOf(line.commands[k], s) && ProgramOf(line.commands[k], s).argv != []
  {
    forall k | 0 <= k < |was|
      ensures P.CommandOk(cmds[k])
      ensures ProgramOf(P.View(cmds[k], b), s) == ProgramOf(line.commands[k], s) && ProgramOf(line.commands[k], s).argv != []
    {
      assert P.ArgStrings(cmds[k], b) == P.ArgStrings(was[k], b);
      HasArguments(was[k], b, s);
    }
  }

  lemma SameDelims(cmds: seq<P.Command>, b: seq<char>, line: P.Line)
    requires (forall k :: 0 <= k < |cmds| ==> P.CommandOk(cmds[k])) && line.commands == P.Views(cmds, b)
    ensures H.Delims(cmds, b) == Delims(line) && |Delims(line)| == |cmds| && Delims(line)[..|cmds|] == Delims(line)
    ensures forall k :: 0 <= k < |cmds| ==> line.commands[k].delim.Some? == cmds[k].heredocDelim.Some?
  {
  }

  // How a line ends that was run: what it left in the shell, t being the shell's table before it.
  ghost predicate RunOf(outcome: Outcome, programs: seq<O.Program>, t: Fds, u: Fds, line: P.Line, s: Setting)
    requires WithArguments(line, s)
  {
    && !outcome.NotRun? && programs == Programs(line, s)
    && (|line.commands| >= 2 ==> !outcome.InShell?)
    && (|line.commands| == 1 ==> (outcome.InShell? <==> s.builtin(programs[0].argv[0])))
    && (!outcome.InShell? ==> (outcome.Spawned? <==> AllGranted(s.kernel, |line.commands|)))
    && (outcome.Spawned? ==> |outcome.stages| == |line.commands|)
    && (if outcome.SpawnFailed? then Leaked(t, u, |line.commands|, s) else u == t)
  }

  // expand_pipeline, execution, free_expansions
  method ExpandAndRun(heap: Allocator, shell: Process, p: P.Pipeline, buf: array<char>, s: Setting, ghost line: P.Line)
    returns (outcome: Outcome, programs: seq<O.Program>)
    requires heap.Valid() && p.Valid() && StdOpen(shell.fds) && Proper(s) && 0 < p.numCommands == |line.commands|
    requires forall k :: 0 <= k < p.numCommands ==> P.CommandOk(p.commands[k]) && p.commands[k].argc >= 1
    requires forall k :: 0 <= k < p.numCommands ==>
      ProgramOf(P.View(p.commands[k], buf[..]), s) == ProgramOf(line.commands[k], s) && ProgramOf(line.commands[k], s).argv != []
    requires forall k :: 0 <= k < p.numCommands ==> Usable(HeredocOf(p.commands[k].heredocFd), shell.fds)
    modifies heap, shell
    ensures heap.Valid() && heap.live == old(heap.live)
    ensures RunOf(outcome, programs, old(shell.fds), shell.fds, line, s)
    ensures outcome.Spawned? ==> |outcome.stages| == |line.commands| && forall k :: 0 <= k < |line.commands| ==>
      outcome.stages[k] == StageTable(old(shell.fds), HeredocOf(p.commands[k].heredocFd), ProgramOf(line.commands[k], s), p.commands[k].appendMode, k, |line.commands|, s)
  {
    ghost var before := heap.live;
    var words := BorrowAll(p, buf, s);
    ghost var was := words[..words.Length];
    programs := O.ExpandForRun(heap, words, words.Length, s.status, s.env, s.glob);
    ProgramsOfLine(was, programs, line, s);
    outcome := Execute(shell, p.commands, programs, s);
    O.FreeAfterRun(heap, words, words.Length, before);
  }

  /** close_heredocs after execution: only what a failed spawn has leaked stays. */
  method CloseAfterRun(shell: Process, p: P.Pipeline, outcome: Outcome, ghost cmds: seq<P.Command>, ghost t: Fds, ghost u: Fds, ghost s: Setting)
    requires p.Valid() && H.Opened(cmds, p.Done(), t, u)
    requires if outcome.SpawnFailed? then Leaked(u, shell.fds, p.numCommands, s) else shell.fds == u
    modifies p.commands, shell
    ensures if outcome.SpawnFailed? then Leaked(t, shell.fds, p.numCommands, s) else shell.fds == t
  {
    ghost var left := t;
    if outcome.SpawnFailed? {
      LeakedStays(cmds, p.Done(), t, u, shell.fds, p.numCommands, s);
      left := shell.fds - H.FdsOf(p.Done());
    }
    H.CloseHeredocs(shell, p.commands, p.numCommands, cmds, left);
  }

  lemma StagesAreStarted(outcome: Outcome, was: seq<P.Command>, cmds: seq<P.Command>, t: Fds, u: Fds, line: P.Line, segs: seq<seq<string>>,
      files: map<int, string>, s: Setting)
    requires H.Opened(was, cmds, t, u) && StdKept(t) && H.AllStashed(cmds, Delims(line), segs, u, files)
    requires |cmds| == |line.commands| && outcome.Spawned? && |outcome.stages| == |cmds|
    requires forall k :: 0 <= k < |cmds| ==> ProgramOf(line.commands[k], s).argv != [] && Usable(HeredocOf(cmds[k].heredocFd), u)
    requires forall k :: 0 <= k < |cmds| ==>
      outcome.stages[k] == StageTable(u, HeredocOf(cmds[k].heredocFd), ProgramOf(line.commands[k], s), line.commands[k].append, k, |cmds|, s)
    ensures AllStart(outcome.stages, t, line, segs, files, s)
  {
    forall k | 0 <= k < |cmds| ensures StageStarts(outcome.stages[k], t, line.commands[k], segs[k], files, k, |cmds|, s) {
      StageIsStarted(was, cmds, t, u, Delims(line), segs, files, k, line.commands[k], s);
    }
  }

  // What collecting leaves is ready to be run.
  lemma Ready(was: seq<P.Command>, cmds: seq<P.Command>, b: seq<char>, line: P.Line, t: Fds, u: Fds, s: Setting)
    requires (forall k :: 0 <= k < |was| ==> P.CommandOk(was[k]) && was[k].argc >= 1) && line.commands == P.Views(was, b)
    requires H.Opened(was, cmds, t, u) && StdOpen(t) && Proper(s)
    ensures H.Delims(was, b) == Delims(line) && |line.commands| == |was| == |cmds| && StdOpen(u) && WithArguments(line, s)
    ensures forall k :: 0 <= k < |was| ==> P.CommandOk(cmds[k]) && cmds[k].argc >= 1
    ensures forall k :: 0 <= k < |was| ==>
      ProgramOf(P.View(cmds[k], b), s) == ProgramOf(line.commands[k], s) && Usable(HeredocOf(cmds[k].heredocFd), u)
    ensures forall k :: 0 <= k < |was| ==> cmds[k].appendMode == line.commands[k].append
  {
    SameDelims(was, b, line);
    SamePrograms(was, cmds, b, line, s);
    HeredocsUsable(was, cmds, t, u);
  }

  // Between collecting and closing.
  method RunCollected(heap: Allocator, shell: Process, p: P.Pipeline, buf: array<char>, s: Setting, ghost line: P.Line,
      ghost was: seq<P.Command>, ghost t: Fds, ghost segs: seq<seq<string>>, ghost files: map<int, string>, ghost good: bool)
    returns (outcome: Outcome, programs: seq<O.Program>)
    requires heap.Valid() && p.Valid() && StdOpen(t) && Proper(s) && 0 < p.numCommands
    requires (forall k :: 0 <= k < |was| ==> P.CommandOk(was[k]) && was[k].argc >= 1) && line.commands == P.Views(was, buf[..])
    requires H.Opened(was, p.Done(), t, shell.fds)
    requires good ==> H.AllStashed(p.Done(), Delims(line), segs, shell.fds, files)
    modifies heap, shell
    ensures heap.Valid() && heap.live == old(heap.live) && WithArguments(line, s)
    ensures RunOf(outcome, programs, old(shell.fds), shell.fds, line, s)
    ensures outcome.Spawned? && good && StdKept(t) ==> AllStart(outcome.stages, t, line, segs, files, s)
  {
    ghost var cmds, u := p.Done(), shell.fds;
    Ready(was, cmds, buf[..], line, t, u, s);
    assert forall k :: 0 <= k < p.numCommands ==> p.commands[k] == cmds[k];
    outcome, programs := ExpandAndRun(heap, shell, p, buf, s, line);
    if outcome.Spawned? && good && StdKept(t) {
      StagesAreStarted(outcome, was, cmds, t, u, line, segs, files, s);
    }
  }

  lemma AllCollected(input: seq<string>, delims: seq<Option<string>>, segs: seq<seq<string>>, rest: seq<string>,
      cmds: seq<P.Command>, fds: Fds, files: map<int, string>)
    requires H.Collected(input, delims, segs, rest, cmds, fds, files) && |segs| == |delims|
    ensures H.SplitOf(input, delims, segs, rest) && H.AllStashed(cmds, delims, segs, fds, files)
  {
    assert delims[..|segs|] == delims;
  }

  method Collect(p: P.Pipeline, buf: array<char>, shell: Process, input: H.Input, disk: H.Disk, ghost line: P.Line, ghost limit: nat)
    returns (r: int, ghost good: bool, ghost segs: seq<seq<string>>)
    requires p.Valid() && disk.Valid() && StdOpen(shell.fds)
    requires P.Parsed(p.Done(), buf[..], limit) && line.commands == P.Views(p.Done(), buf[..])
    modifies p.commands, shell, input, disk
    ensures H.Opened(old(p.Done()), p.Done(), old(shell.fds), shell.fds)
    ensures (r == 0 <==> disk.refused == old(disk.refused)) && (good <==> disk.errors == old(disk.errors))
    ensures r == 0 && good ==> H.SplitOf(old(input.rest), Delims(line), segs, input.rest)
    ensures r == 0 && good ==> H.AllStashed(p.Done(), Delims(line), segs, shell.fds, disk.files)
  {
    ghost var was, all := p.Done(), input.rest;
    SameDelims(was, buf[..], line);
    assert forall k :: 0 <= k < p.numCommands ==> p.commands[k] == was[k];
    r, good, segs := H.CollectHeredocs(input, shell, disk, p.commands, p.numCommands, buf);
    if r == 0 && good {
      AllCollected(all, Delims(line), segs, input.rest, p.Done(), shell.fds, disk.files);
    }
  }

  // Closing the here-documents changes nothing else about how the line was run.
  lemma RunStays(outcome: Outcome, programs: seq<O.Program>, u: Fds, v: Fds, t: Fds, w: Fds, line: P.Line, s: Setting)
    requires WithArguments(line, s) && RunOf(outcome, programs, u, v, line, s)
    requires if outcome.SpawnFailed? then Leaked(t, w, |line.commands|, s) else w == t
    ensures RunOf(outcome, programs, t, w, line, s)
  {
  }

  /** How the line was run, and with which tables, the shell's before it being t and after it u. */
  ghost predicate Ran(outcome: Outcome, programs: seq<O.Program>, good: bool, segs: seq<seq<string>>, t: Fds, u: Fds,
      line: P.Line, files: map<int, string>, s: Setting) {
    && WithArguments(line, s)
    && (if outcome.NotRun? then u == t else RunOf(outcome, programs, t, u, line, s))
    && (outcome.Spawned? && good && StdKept(t) ==> AllStart(outcome.stages, t, line, segs, files, s))
  }

  // Everything after collecting, if that went well, and closing in any case.
  method RunAndClose(heap: Allocator, shell: Process, p: P.Pipeline, buf: array<char>, s: Setting, collected: bool, ghost line: P.Line,
      ghost was: seq<P.Command>, ghost t: Fds, ghost segs: seq<seq<string>>, ghost files: map<int, string>, ghost good: bool)
    returns (outcome: Outcome, programs: seq<O.Program>)
    requires heap.Valid() && p.Valid() && StdOpen(t) && Proper(s) && 0 < p.numCommands
    requires (forall k :: 0 <= k < |was| ==> P.CommandOk(was[k]) && was[k].argc >= 1) && line.commands == P.Views(was, buf[..])
    requires H.Opened(was, p.Done(), t, shell.fds)
    requires collected && good ==> H.AllStashed(p.Done(), Delims(line), segs, shell.fds, files)
    modifies heap, shell, p.commands
    ensures heap.Valid() && heap.live == old(heap.live) && (outcome.NotRun? <==> !collected)
    ensures Ran(outcome, programs, good, segs, t, shell.fds, line, files, s)
  {
    ghost var u := shell.fds;
    Ready(was, p.Done(), buf[..], line, t, u, s);
    outcome, programs := NotRun, [];
    if collected {
      outcome, programs := RunCollected(heap, shell, p, buf, s, line, was, t, segs, files, good);
    }
    ghost var v := shell.fds;
    CloseAfterRun(shell, p, outcome, was, t, u, s);
    if collected {
      RunStays(outcome, programs, u, v, t, shell.fds, line, s);
    }
  }

  // From the parsed line on.
  method RunParsed(p: P.Pipeline, buf: array<char>, heap: Allocator, shell: Process, input: H.Input, disk: H.Disk,
      s: Setting, ghost line: P.Line, ghost limit: nat)
    returns (outcome: Outcome, programs: seq<O.Program>, ghost good: bool, ghost segs: seq<seq<string>>)
    requires p.Valid() && heap.Valid() && disk.Valid() && StdOpen(shell.fds) && Proper(s) && p.numCommands > 0
    requires P.Parsed(p.Done(), buf[..], limit) && line.commands == P.Views(p.Done(), buf[..])
    requires forall k :: 0 <= k < p.numCommands ==> p.commands[k].argc >= 1
    modifies p.commands, heap, shell, input, disk
    ensures heap.Valid() && heap.live == old(heap.live)
    ensures Ran(outcome, programs, good, segs, old(shell.fds), shell.fds, line, disk.files, s)
    ensures !outcome.NotRun? && good ==> H.SplitOf(old(input.rest), Delims(line), segs, input.rest)
    ensures (outcome.NotRun? <==> disk.refused != old(disk.refused)) && (good <==> disk.errors == old(disk.errors))
  {
    ghost var was, t := p.Done(), shell.fds;
    var collected;
    collected, good, segs := Collect(p, buf, shell, input, disk, line, limit);
    outcome, programs := RunAndClose(heap, shell, p, buf, s, collected == 0, line, was, t, segs, disk.files, good);
  }

  ghost function LineIn(buf: array<char>): Option<P.Line>
    reads buf
  {
    P.ParseLine(CStr(buf[..], 0))
  }

  // A line that holds a command.
  ghost predicate HoldsCommand(line: Option<P.Line>) {
    line.Some? && line.value.commands != []
  }

  // The turn after history_add.
  method ParseAndRun(buf: array<char>, heap: Allocator, shell: Process, input: H.Input, disk: H.Disk, s: Setting, ghost e: nat)
    returns (outcome: Outcome, programs: seq<O.Program>, ghost good: bool, ghost segs: seq<seq<string>>)
    requires Holds(buf[..], 0, e) && heap.Valid() && disk.Valid() && StdOpen(shell.fds) && Proper(s)
    modifies buf, heap, shell, input, disk
    ensures heap.Valid() && heap.live == old(heap.live)
    ensures !old(HoldsCommand(LineIn(buf))) ==> outcome.NotRun? && input.rest == old(input.rest) && shell.fds == old(shell.fds)
    ensures old(HoldsCommand(LineIn(buf))) ==> (outcome.NotRun? <==> disk.refused != old(disk.refused))
    ensures old(HoldsCommand(LineIn(buf))) ==>
      Ran(outcome, programs, good, segs, old(shell.fds), shell.fds, old(LineIn(buf)).value, disk.files, s)
    ensures !outcome.NotRun? && good ==> H.SplitOf(old(input.rest), Delims(old(LineIn(buf)).value), segs, input.rest)
    ensures good <==> disk.errors == old(disk.errors)
  {
    ghost var text := CStr(buf[..], 0);
    outcome, programs, good, segs := NotRun, [], true, [];
    var p := new P.Pipeline();
    var r := P.ParsePipeline(buf, p, e);
    if r <= 0 {
      return;
    }
    ParsedLine(p.Done(), buf[..], text, p.background, e + 1);
    ghost var line := P.ParseLine(text).value;
    outcome, programs, good, segs := RunParsed(p, buf, heap, shell, input, disk, s, line, e + 1);
  }

  /** A turn, on any line. The line is recorded in the history as it was read. A blank or wrong line
      runs nothing and reads nothing. Any other runs if a temporary file can be made for each
      here-document: a built-in standing alone in the shell, and else one stage for each command if
      every pipe and fork works. What runs has exactly the arguments the line parses and expands to,
      and, if every write succeeds, the here-documents take exactly their lines off the input and
      every stage starts with the files the line says and no other. Whatever happens, the heap, but
      for the history's own blocks, ends as it began, and so do the shell's descriptors, but for what
      a failed spawn leaks. */
  method Turn(buf: array<char>, ring: HistoryRing, shell: Process, input: H.Input, disk: H.Disk, s: Setting, ghost e: nat)
    returns (outcome: Outcome, programs: seq<O.Program>, ghost good: bool, ghost segs: seq<seq<string>>)
    requires Holds(buf[..], 0, e) && ring.Valid() && disk.Valid() && StdOpen(shell.fds) && Proper(s)
    modifies buf, ring, ring.entries, ring.heap, shell, input, disk
    ensures ring.Valid() && ring.log == old(ring.log + Logged([CStr(buf[..], 0)]))
    ensures ring.heap.live - ring.Blocks() == old(ring.heap.live - ring.Blocks())
    ensures !old(HoldsCommand(LineIn(buf))) ==> outcome.NotRun? && input.rest == old(input.rest)
    ensures old(HoldsCommand(LineIn(buf))) ==> (outcome.NotRun? <==> disk.refused != old(disk.refused))
    ensures outcome.NotRun? ==> shell.fds == old(shell.fds)
    ensures !outcome.NotRun? ==> old(HoldsCommand(LineIn(buf))) && WithArguments(old(LineIn(buf)).value, s)
    ensures !outcome.NotRun? ==> RunOf(outcome, programs, old(shell.fds), shell.fds, old(LineIn(buf)).value, s)
    ensures !outcome.NotRun? && |old(LineIn(buf)).value.commands| >= 2 ==> !outcome.InShell?
    ensures !outcome.NotRun? && |old(LineIn(buf)).value.commands| == 1 ==> (outcome.InShell? <==> s.builtin(programs[0].argv[0]))
    ensures !outcome.NotRun? && good ==> H.SplitOf(old(input.rest), Delims(old(LineIn(buf)).value), segs, input.rest)
    ensures outcome.Spawned? && good && old(StdKept(shell.fds)) ==>
      AllStart(outcome.stages, old(shell.fds), old(LineIn(buf)).value, segs, disk.files, s)
    ensures good <==> disk.errors == old(disk.errors)
  {
    ring.Add(Some(CStr(buf[..], 0)));
    outcome, programs, good, segs := ParseAndRun(buf, ring.heap, shell, input, disk, s, e);
  }
}
