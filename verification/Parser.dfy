/** The two-level in-place parser (src/parser.c): the line is cut on '|' and each piece on
    whitespace by two strtok_r cursors that write NULs into one shared buffer, and the
    commands keep pointers into it. It is proved against a parser that never touches memory. */
module Parser {
  import opened Options
  import opened Strings
  import opened Limits

  // ------------------------------------------------------------ the parser as a function

  datatype Cmd = Cmd(
    args: seq<string>, input: Option<string>, output: Option<string>, append: bool, background: bool,
    delim: Option<string>)

  datatype Line = Line(commands: seq<Cmd>, background: bool)

  const BLANK_CMD := Cmd([], None, None, false, false, None)

  // The operators that consume the word after them.
  predicate TakesWord(word: string) {
    word == "<<" || word == "<" || word == ">" || word == ">>"
  }

  predicate IsOperator(word: string) {
    word == "&" || TakesWord(word)
  }

  function Redirect(c: Cmd, operator: string, word: string): Cmd {
    if operator == "<<" then c.(delim := Some(word))
    else if operator == "<" then c.(input := Some(word))
    else c.(output := Some(word), append := operator == ">>")
  }

  /** The words of one command: operators first, anything else is an argument, and after 63
      arguments everything left is dropped, operators included. None is a syntax error. */
  function ParseWords(c: Cmd, words: seq<string>): Option<Cmd>
    decreases |words|
  {
    if words == [] || |c.args| >= MAX_ARGS - 1 then Some(c)
    else if words[0] == "&" then ParseWords(c.(background := true), words[1..])
    else if TakesWord(words[0]) then
      if |words| == 1 then None else ParseWords(Redirect(c, words[0], words[1]), words[2..])
    else ParseWords(c.(args := c.args + [words[0]]), words[1..])
  }

  /** The pieces of a line: those without arguments vanish, and after 16 commands the rest is dropped. */
  function ParsePieces(done: seq<Cmd>, pieces: seq<string>): Option<seq<Cmd>>
    decreases |pieces|
  {
    if pieces == [] || |done| >= MAX_COMMANDS then Some(done)
    else
      match ParseWords(BLANK_CMD, Tokens(pieces[0], Blanks))
      case None => None
      case Some(c) => ParsePieces(if c.args == [] then done else done + [c], pieces[1..])
  }

  function ParseLine(line: string): Option<Line> {
    match ParsePieces([], Tokens(line, Bar))
    case None => None
    case Some(cmds) => Some(Line(cmds, cmds != [] && cmds[|cmds| - 1].background))
  }

  // Parsing in two goes. Where the first 63 arguments are complete, nothing after them counts.
  lemma {:induction false} ParseSplit(c: Cmd, pre: seq<string>, post: seq<string>)
    requires ParseWords(c, pre).Some?
    ensures ParseWords(c, pre + post) == ParseWords(ParseWords(c, pre).value, post)
    decreases |pre|
  {
    var words := pre + post;
    if pre == [] {
      assert words == post;
    } else if |c.args| < MAX_ARGS - 1 {
      assert words[0] == pre[0] && words[1..] == pre[1..] + post;
      if TakesWord(pre[0]) {
        assert words[1] == pre[1] && words[2..] == pre[2..] + post;
        ParseSplit(Redirect(c, pre[0], pre[1]), pre[2..], post);
      } else if pre[0] == "&" {
        ParseSplit(c.(background := true), pre[1..], post);
      } else {
        ParseSplit(c.(args := c.args + [pre[0]]), pre[1..], post);
      }
    }
  }

  lemma OperatorTakes(c: Cmd, operator: string, w: string, post: seq<string>)
    requires |c.args| < MAX_ARGS - 1 && TakesWord(operator)
    ensures ParseWords(c, [operator, w] + post) == ParseWords(Redirect(c, operator, w), post)
    ensures ParseWords(c, [operator]) == None
  {
    var words := [operator, w] + post;
    assert words[0] == operator && words[1] == w && words[2..] == post;
    assert operator[0] != '&';
  }

  lemma PlainWordTakes(c: Cmd, w: string, post: seq<string>)
    requires |c.args| < MAX_ARGS - 1 && !TakesWord(w)
    ensures ParseWords(c, [w] + post) == ParseWords(if w == "&" then c.(background := true) else c.(args := c.args + [w]), post)
  {
    var words := [w] + post;
    assert words[0] == w && words[1..] == post;
  }

  lemma RedirectMeans(c: Cmd, w: string)
    ensures Redirect(c, "<", w) == c.(input := Some(w))
    ensures Redirect(c, ">", w) == c.(output := Some(w), append := false)
    ensures Redirect(c, ">>", w) == c.(output := Some(w), append := true)
    ensures Redirect(c, "<<", w) == c.(delim := Some(w))
  {
    assert "<"[0] == '<' && ">"[0] == '>' && ">>"[0] == '>' && "<<"[0] == '<';
    assert |"<"| == |">"| == 1 && |"<<"| == |">>"| == 2;
  }

  /** What each word means, as long as fewer than 63 arguments have been taken: four operators take
      the word after them, whatever it is, and are an error without one; "&" stands alone; and
      every other word is an argument. */
  lemma WordsMean(c: Cmd, w: string, post: seq<string>)
    requires |c.args| < 63
    ensures ParseWords(c, ["<", w] + post) == ParseWords(c.(input := Some(w)), post)
    ensures ParseWords(c, [">", w] + post) == ParseWords(c.(output := Some(w), append := false), post)
    ensures ParseWords(c, [">>", w] + post) == ParseWords(c.(output := Some(w), append := true), post)
    ensures ParseWords(c, ["<<", w] + post) == ParseWords(c.(delim := Some(w)), post)
    ensures ParseWords(c, ["&"] + post) == ParseWords(c.(background := true), post)
    ensures ParseWords(c, ["<"]) == ParseWords(c, [">"]) == ParseWords(c, [">>"]) == ParseWords(c, ["<<"]) == None
    ensures w != "<" && w != ">" && w != ">>" && w != "<<" && w != "&" ==>
      ParseWords(c, [w] + post) == ParseWords(c.(args := c.args + [w]), post)
  {
    RedirectMeans(c, w);
    OperatorTakes(c, "<", w, post);
    OperatorTakes(c, ">", w, post);
    OperatorTakes(c, ">>", w, post);
    OperatorTakes(c, "<<", w, post);
    assert "&"[0] == '&';
    PlainWordTakes(c, "&", post);
    if !TakesWord(w) {
      PlainWordTakes(c, w, post);
    }
  }

  /** What follows is dropped, whatever it is, if and only if 63 arguments have been taken. */
  lemma WordsDroppedExactly(c: Cmd, words: seq<string>)
    requires ParseWords(c, words).Some?
    ensures (forall post :: ParseWords(c, words + post) == ParseWords(c, words)) <==> |ParseWords(c, words).value.args| >= 63
  {
    var c1 := ParseWords(c, words).value;
    forall post ensures ParseWords(c, words + post) == ParseWords(c1, post) {
      ParseSplit(c, words, post);
    }
    if |c1.args| < MAX_ARGS - 1 {
      var post := ["a"];
      assert ParseWords(c1, post) == Some(c1.(args := c1.args + ["a"]));
      assert ParseWords(c, words + post) != ParseWords(c, words);
    }
  }

  lemma {:induction false} PiecesSplit(done: seq<Cmd>, pre: seq<string>, post: seq<string>)
    requires ParsePieces(done, pre).Some?
    ensures ParsePieces(done, pre + post) == ParsePieces(ParsePieces(done, pre).value, post)
    decreases |pre|
  {
    if pre == [] {
      assert pre + post == post;
    } else if |done| < MAX_COMMANDS {
      assert (pre + post)[0] == pre[0] && (pre + post)[1..] == pre[1..] + post;
      var c := ParseWords(BLANK_CMD, Tokens(pre[0], Blanks)).value;
      PiecesSplit(if c.args == [] then done else done + [c], pre[1..], post);
    }
  }

  lemma OneMorePiece(cmds: seq<Cmd>)
    requires |cmds| < MAX_COMMANDS
    ensures ParsePieces(cmds, ["a"]).Some? && |ParsePieces(cmds, ["a"]).value| == |cmds| + 1
  {
    FirstToken("a", Blanks, 0, 1);
    assert "a"[0..1] == "a" && "a"[1..] == "";
    assert Tokens("a", Blanks) == ["a"];
    assert BLANK_CMD.args + ["a"] == ["a"] && ["a"][1..] == [];
    assert "a"[0] == 'a' && !IsOperator("a");
    assert ParseWords(BLANK_CMD, ["a"]) == Some(BLANK_CMD.(args := ["a"]));
  }

  /** And the segments that follow are dropped if and only if there are 16 commands. */
  lemma PiecesDroppedExactly(done: seq<Cmd>, pieces: seq<string>)
    requires ParsePieces(done, pieces).Some?
    ensures (forall post :: ParsePieces(done, pieces + post) == ParsePieces(done, pieces)) <==> |ParsePieces(done, pieces).value| >= 16
  {
    var cmds := ParsePieces(done, pieces).value;
    forall post ensures ParsePieces(done, pieces + post) == ParsePieces(cmds, post) {
      PiecesSplit(done, pieces, post);
    }
    if |cmds| < MAX_COMMANDS {
      var post := ["a"];
      OneMorePiece(cmds);
      assert ParsePieces(done, pieces + post) != ParsePieces(done, pieces);
    }
  }

  // Which of the three targets an operator sets.
  function TargetOf(c: Cmd, operator: string): (Option<string>, bool) {
    if operator == "<<" then (c.delim, false)
    else if operator == "<" then (c.input, false)
    else (c.output, c.append)
  }

  predicate SameTarget(a: string, b: string) {
    TakesWord(a) && TakesWord(b) && (a == b || (a[0] == b[0] == '>'))
  }

  lemma {:induction false} TargetKept(c: Cmd, operator: string, words: seq<string>)
    requires TakesWord(operator) && forall w :: w in words ==> !SameTarget(w, operator)
    requires ParseWords(c, words).Some?
    ensures TargetOf(ParseWords(c, words).value, operator) == TargetOf(c, operator)
    decreases |words|
  {
    if words != [] && |c.args| < MAX_ARGS - 1 {
      if TakesWord(words[0]) {
        assert words[0] in words;
        TargetKept(Redirect(c, words[0], words[1]), operator, words[2..]);
      } else if words[0] == "&" {
        TargetKept(c.(background := true), operator, words[1..]);
      } else {
        TargetKept(c.(args := c.args + [words[0]]), operator, words[1..]);
      }
    }
  }

  /** Of several redirections of one kind the last is used, here-documents included, provided
      it is reached before the 63rd argument; and then it is the word right after its operator,
      whatever that word is. */
  lemma LastTargetWins(c: Cmd, pre: seq<string>, operator: string, word: string, post: seq<string>)
    requires TakesWord(operator) && forall w :: w in post ==> !SameTarget(w, operator)
    requires ParseWords(c, pre).Some? && |ParseWords(c, pre).value.args| < MAX_ARGS - 1
    requires ParseWords(c, pre + [operator, word] + post).Some?
    ensures TargetOf(ParseWords(c, pre + [operator, word] + post).value, operator) == (Some(word), operator == ">>")
  {
    var c1 := ParseWords(c, pre).value;
    var rest := [operator, word] + post;
    assert pre + [operator, word] + post == pre + rest;
    ParseSplit(c, pre, rest);
    assert rest[2..] == post;
    TargetKept(Redirect(c1, operator, word), operator, post);
  }

  lemma {:induction false} ArgumentsWithinLimit(c: Cmd, words: seq<string>)
    requires |c.args| < MAX_ARGS
    ensures ParseWords(c, words).Some? ==> |ParseWords(c, words).value.args| < MAX_ARGS
    decreases |words|
  {
    if words != [] && |c.args| < MAX_ARGS - 1 {
      if TakesWord(words[0]) {
        if |words| > 1 {
          ArgumentsWithinLimit(Redirect(c, words[0], words[1]), words[2..]);
        }
      } else if words[0] == "&" {
        ArgumentsWithinLimit(c.(background := true), words[1..]);
      } else {
        ArgumentsWithinLimit(c.(args := c.args + [words[0]]), words[1..]);
      }
    }
  }

  /** No command of a parsed line is without arguments, and none has more than 63. */
  lemma {:induction false} CommandsHaveArguments(done: seq<Cmd>, pieces: seq<string>)
    requires forall c :: c in done ==> 1 <= |c.args| < MAX_ARGS
    requires ParsePieces(done, pieces).Some?
    ensures forall c :: c in ParsePieces(done, pieces).value ==> 1 <= |c.args| <= 63
    decreases |pieces|
  {
    if pieces != [] && |done| < MAX_COMMANDS {
      var words := Tokens(pieces[0], Blanks);
      ArgumentsWithinLimit(BLANK_CMD, words);
      var c := ParseWords(BLANK_CMD, words).value;
      CommandsHaveArguments(if c.args == [] then done else done + [c], pieces[1..]);
    }
  }

  // ------------------------------------------------------------ commands in memory

  /** command_t. Pointers are offsets into the line buffer. */
  datatype Command = Command(
    args: seq<Ptr>, argc: nat, inputFile: Ptr, outputFile: Ptr, appendMode: bool, background: bool,
    heredocDelim: Ptr, heredocFd: int)

  // memset, then heredoc_fd = -1.
  function CleanCommand(): Command {
    Command(seq(MAX_ARGS, _ => None), 0, None, None, false, false, None, -1)
  }

  predicate CommandOk(c: Command) {
    |c.args| == MAX_ARGS && c.argc < MAX_ARGS && forall i :: 0 <= i < c.argc ==> c.args[i].Some?
  }

  datatype Field = Arg(i: nat) | Input | Output | Delimiter

  function PtrOf(c: Command, f: Field): Ptr {
    match f
    case Arg(i) => if i < c.argc && i < |c.args| then c.args[i] else None
    case Input => c.inputFile
    case Output => c.outputFile
    case Delimiter => c.heredocDelim
  }

  function Str(b: seq<char>, p: Ptr): Option<string> {
    if p.Some? then Some(CStr(b, p.value)) else None
  }

  function ArgStrings(c: Command, b: seq<char>): seq<string>
    requires CommandOk(c)
  {
    seq(c.argc, i requires 0 <= i < c.argc => CStr(b, c.args[i].value))
  }

  // What the pointers of c say in buffer b.
  function View(c: Command, b: seq<char>): Cmd
    requires CommandOk(c)
  {
    Cmd(ArgStrings(c, b), Str(b, c.inputFile), Str(b, c.outputFile), c.appendMode, c.background, Str(b, c.heredocDelim))
  }

  /** Every string c points to lies in b from lo on, its NUL included before limit. */
  ghost predicate Settled(c: Command, b: seq<char>, lo: nat, limit: nat) {
    forall f :: PtrOf(c, f).Some? ==> lo <= PtrOf(c, f).value && End(b, PtrOf(c, f).value) < limit
  }

  /** No two fields of c point into the same stretch of the buffer. */
  ghost predicate Apart(c: Command, b: seq<char>) {
    forall f, g :: f != g && PtrOf(c, f).Some? && PtrOf(c, g).Some? ==>
      End(b, PtrOf(c, f).value) < PtrOf(c, g).value || End(b, PtrOf(c, g).value) < PtrOf(c, f).value
  }

  // Changes at or after limit do not reach a settled command.
  lemma SettledFrame(c: Command, b: seq<char>, b': seq<char>, lo: nat, limit: nat)
    requires CommandOk(c) && Settled(c, b, lo, limit) && limit <= |b| == |b'|
    requires forall i :: lo <= i < limit ==> b'[i] == b[i]
    ensures View(c, b') == View(c, b) && Settled(c, b', lo, limit)
    ensures Apart(c, b) ==> Apart(c, b')
    ensures forall f :: PtrOf(c, f).Some? ==> End(b', PtrOf(c, f).value) == End(b, PtrOf(c, f).value)
  {
    forall f | PtrOf(c, f).Some? ensures CStr(b', PtrOf(c, f).value) == CStr(b, PtrOf(c, f).value) {
      CStrFrame(b, b', PtrOf(c, f).value);
    }
    forall i | 0 <= i < c.argc ensures CStr(b', c.args[i].value) == CStr(b, c.args[i].value) {
      assert PtrOf(c, Arg(i)) == c.args[i];
    }
    assert PtrOf(c, Input) == c.inputFile && PtrOf(c, Output) == c.outputFile && PtrOf(c, Delimiter) == c.heredocDelim;
    assert ArgStrings(c, b') == ArgStrings(c, b);
  }

  // ------------------------------------------------------------ one command, in place

  // Only delimiters between lo and e have been overwritten, and only by NULs.
  ghost predicate OnlyCuts(b0: seq<char>, b: seq<char>, lo: nat, e: nat, d: Delims) {
    |b| == |b0| && forall i :: 0 <= i < |b| && b[i] != b0[i] ==> lo <= i < e && b[i] == NUL && IsDelim(d, b0[i])
  }

  // Where strings already handed out must have ended, when the cursor is at save.
  function Limit(save: nat, e: nat): nat {
    if save == e then e + 1 else save
  }

  // The state between two calls of strtok_r, all words handed out so far stored in c.
  ghost predicate Between(b0: seq<char>, b: seq<char>, lo: nat, e: nat, c: Command, save: nat) {
    && lo <= save && Holds(b, save, e)
    && OnlyCuts(b0, b, lo, e, Blanks)
    && CommandOk(c) && Settled(c, b, lo, Limit(save, e)) && Apart(c, b)
  }

  // A word handed out and not stored yet.
  ghost predicate InHand(b: seq<char>, lo: nat, e: nat, c: Command, word: nat, save: nat) {
    && lo <= word < End(b, word) < Limit(save, e)
    && forall f :: PtrOf(c, f).Some? ==> End(b, PtrOf(c, f).value) < word
  }

  // The words still to be parsed.
  function Pending(b: seq<char>, tok: Ptr, save: nat, e: nat): seq<string>
    requires save <= e <= |b|
  {
    (if tok.Some? then [CStr(b, tok.value)] else []) + Tokens(Text(b, save, e), Blanks)
  }

  ghost predicate Ready(b0: seq<char>, b: seq<char>, lo: nat, e: nat, c: Command, tok: Ptr, save: nat) {
    && Between(b0, b, lo, e, c, save)
    && (tok.Some? ==> InHand(b, lo, e, c, tok.value, save))
    && (tok.None? ==> save == e)
  }

  lemma CutLeavesWords(b: seq<char>, b': seq<char>, save: nat, e: nat, tok: Ptr, next: nat)
    requires save <= e < |b| && Cut(b, b', save, e, Blanks, tok, next)
    ensures Tokens(Text(b, save, e), Blanks) == Pending(b', tok, next, e)
  {
    if tok.None? {
      assert Text(b', next, e) == "";
    }
  }

  /** A call of strtok_r disturbs no string handed out before. */
  lemma CutKeeps(b0: seq<char>, b: seq<char>, b': seq<char>, lo: nat, e: nat, c: Command, save: nat, tok: Ptr, next: nat)
    requires Between(b0, b, lo, e, c, save) && Cut(b, b', save, e, Blanks, tok, next)
    ensures Ready(b0, b', lo, e, c, tok, next)
    ensures View(c, b') == View(c, b)
    ensures Tokens(Text(b, save, e), Blanks) == Pending(b', tok, next, e)
  {
    CutLeavesWords(b, b', save, e, tok, next);
    SettledFrame(c, b, b', lo, Limit(save, e));
    if tok.Some? {
      assert forall f :: PtrOf(c, f).Some? ==> End(b, PtrOf(c, f).value) < Limit(save, e) == save;
    }
  }

  // Storing the word in hand in a field.
  lemma StoreKeeps(b0: seq<char>, b: seq<char>, lo: nat, e: nat, c: Command, c': Command, f: Field, word: nat, save: nat)
    requires Between(b0, b, lo, e, c, save) && InHand(b, lo, e, c, word, save) && CommandOk(c')
    requires PtrOf(c', f) == Some(word) && forall g :: g != f ==> PtrOf(c', g) == PtrOf(c, g)
    ensures Between(b0, b, lo, e, c', save)
  {
  }

  function WithArg(c: Command, word: nat): Command
    requires CommandOk(c) && c.argc < MAX_ARGS - 1
  {
    c.(args := c.args[c.argc := Some(word)], argc := c.argc + 1)
  }

  function WithTarget(c: Command, operator: string, word: nat): Command {
    if operator == "<<" then c.(heredocDelim := Some(word))
    else if operator == "<" then c.(inputFile := Some(word))
    else c.(outputFile := Some(word), appendMode := operator == ">>")
  }

  lemma ArgKeeps(b0: seq<char>, b: seq<char>, lo: nat, e: nat, c: Command, word: nat, save: nat)
    requires Between(b0, b, lo, e, c, save) && InHand(b, lo, e, c, word, save) && c.argc < MAX_ARGS - 1
    ensures Between(b0, b, lo, e, WithArg(c, word), save)
    ensures View(WithArg(c, word), b) == View(c, b).(args := View(c, b).args + [CStr(b, word)])
  {
    var c' := WithArg(c, word);
    forall g | g != Arg(c.argc) ensures PtrOf(c', g) == PtrOf(c, g) {
    }
    StoreKeeps(b0, b, lo, e, c, c', Arg(c.argc), word, save);
    assert ArgStrings(c', b) == ArgStrings(c, b) + [CStr(b, word)];
  }

  lemma TargetKeeps(b0: seq<char>, b: seq<char>, lo: nat, e: nat, c: Command, operator: string, word: nat, save: nat)
    requires Between(b0, b, lo, e, c, save) && InHand(b, lo, e, c, word, save) && TakesWord(operator)
    ensures Between(b0, b, lo, e, WithTarget(c, operator, word), save)
    ensures View(WithTarget(c, operator, word), b) == Redirect(View(c, b), operator, CStr(b, word))
  {
    var c' := WithTarget(c, operator, word);
    var f := if operator == "<<" then Delimiter else if operator == "<" then Input else Output;
    assert forall i :: PtrOf(c', Arg(i)) == PtrOf(c, Arg(i));
    StoreKeeps(b0, b, lo, e, c, c', f, word, save);
    assert ArgStrings(c', b) == ArgStrings(c, b);
  }

  // strcmp(p, text) == 0
  method Strcmp(buf: array<char>, p: nat, text: string) returns (equal: bool)
    requires End(buf[..], p) < buf.Length && NUL !in text
    ensures equal <==> CStr(buf[..], p) == text
  {
    ghost var s := CStr(buf[..], p);
    var i := 0;
    while i < |text| && buf[p + i] == text[i]
      invariant i <= |text| && i <= |s| && s[..i] == text[..i]
    {
      assert buf[p + i] != NUL by { assert text[i] in text; }
      assert s[i] == buf[p + i];
      i := i + 1;
    }
    equal := i == |text| && buf[p + i] == NUL;
    assert i < |s| ==> s[i] == buf[p + i] && s[i] in s;
    assert s[..|s|] == s && text[..|text|] == text;
  }

  // The result of parse_command: the argument count, or -1 for a syntax error.
  ghost predicate CommandParsed(c: Command, b: seq<char>, words: seq<string>, argc: int) {
    match ParseWords(BLANK_CMD, words)
    case None => argc == -1
    case Some(parsed) => CommandOk(c) && argc == c.argc == |parsed.args| && View(c, b) == parsed && c.heredocFd == -1 && c.args[c.argc] == None
  }

  // The slots past the arguments are NULL and there is no here-document yet.
  predicate Tidy(c: Command) {
    |c.args| == MAX_ARGS && c.heredocFd == -1 && forall i :: c.argc <= i < MAX_ARGS ==> c.args[i] == None
  }

  lemma FlagKeeps(b0: seq<char>, b: seq<char>, lo: nat, e: nat, c: Command, save: nat)
    requires Between(b0, b, lo, e, c, save)
    ensures var c' := c.(background := true);
      Between(b0, b, lo, e, c', save) && View(c', b) == View(c, b).(background := true)
  {
    var c' := c.(background := true);
    assert forall f :: PtrOf(c', f) == PtrOf(c, f);
    assert ArgStrings(c', b) == ArgStrings(c, b);
  }

  // What is left to parse after a turn of the loop means what it meant before, and is less.
  ghost predicate Turned(b: seq<char>, b': seq<char>, e: nat, c: Command, c': Command, word: nat, save: nat, token: Ptr, next: nat)
    requires save <= e <= |b| && next <= e <= |b'| && CommandOk(c) && CommandOk(c')
  {
    && ParseWords(View(c', b'), Pending(b', token, next, e)) == ParseWords(View(c, b), Pending(b, Some(word), save, e))
    && |Pending(b', token, next, e)| < |Pending(b, Some(word), save, e)|
    && (Tidy(c) ==> Tidy(c'))
  }

  // strtok_r(NULL, ...), which leaves every stored string alone.
  method NextWordFrom(buf: array<char>, str: Ptr, save: Ptr, ghost c: Command, ghost b0: seq<char>, ghost lo: nat, ghost e: nat)
    returns (token: Ptr, next: nat)
    requires str.Some? || save.Some?
    requires Between(b0, buf[..], lo, e, c, Start(str, save))
    modifies buf
    ensures Ready(b0, buf[..], lo, e, c, token, next)
    ensures View(c, buf[..]) == View(c, old(buf[..]))
    ensures Pending(buf[..], token, next, e) == Tokens(Text(old(buf[..]), Start(str, save), e), Blanks)
  {
    ghost var b := buf[..];
    StrtokCuts(b, Start(str, save), e, Blanks);
    token, next := StrtokR(buf, str, save, Blanks, e);
    CutKeeps(b0, b, buf[..], lo, e, c, Start(str, save), token, next);
  }

  method NextWord(buf: array<char>, ghost c: Command, save: nat, ghost b0: seq<char>, ghost lo: nat, ghost e: nat) returns (token: Ptr, next: nat)
    requires Between(b0, buf[..], lo, e, c, save)
    modifies buf
    ensures Ready(b0, buf[..], lo, e, c, token, next)
    ensures View(c, buf[..]) == View(c, old(buf[..]))
    ensures Pending(buf[..], token, next, e) == Tokens(Text(old(buf[..]), save, e), Blanks)
  {
    token, next := NextWordFrom(buf, None, Some(save), c, b0, lo, e);
  }

  function WithPlain(c: Command, word: nat, amp: bool): Command
    requires CommandOk(c) && c.argc < MAX_ARGS - 1
  {
    if amp then c.(background := true) else WithArg(c, word)
  }

  function WithPlainWord(c: Cmd, word: string, amp: bool): Cmd {
    if amp then c.(background := true) else c.(args := c.args + [word])
  }

  lemma PlainKeeps(b0: seq<char>, b: seq<char>, lo: nat, e: nat, c: Command, word: nat, save: nat, amp: bool)
    requires Between(b0, b, lo, e, c, save) && InHand(b, lo, e, c, word, save) && c.argc < MAX_ARGS - 1
    ensures Between(b0, b, lo, e, WithPlain(c, word, amp), save)
    ensures View(WithPlain(c, word, amp), b) == WithPlainWord(View(c, b), CStr(b, word), amp)
  {
    if amp {
      FlagKeeps(b0, b, lo, e, c, save);
    } else {
      ArgKeeps(b0, b, lo, e, c, word, save);
    }
  }

  lemma PlainTurned(b: seq<char>, b': seq<char>, e: nat, c: Command, word: nat, save: nat, amp: bool, token: Ptr, next: nat)
    requires save <= e <= |b| && next <= e <= |b'| && CommandOk(c) && c.argc < MAX_ARGS - 1
    requires if amp then CStr(b, word) == "&" else !IsOperator(CStr(b, word))
    requires View(WithPlain(c, word, amp), b') == WithPlainWord(View(c, b), CStr(b, word), amp)
    requires Pending(b', token, next, e) == Tokens(Text(b, save, e), Blanks)
    ensures Turned(b, b', e, c, WithPlain(c, word, amp), word, save, token, next)
  {
    var words := Pending(b, Some(word), save, e);
    assert words[0] == CStr(b, word) && words[1..] == Tokens(Text(b, save, e), Blanks);
  }

  // The "&" turn and the argument turn.
  method TakePlain(buf: array<char>, commands: array<Command>, k: nat, word: nat, save: nat, amp: bool,
      ghost b0: seq<char>, ghost lo: nat, ghost e: nat)
    returns (token: Ptr, next: nat)
    requires k < commands.Length && Ready(b0, buf[..], lo, e, commands[k], Some(word), save) && commands[k].argc < MAX_ARGS - 1
    requires if amp then CStr(buf[..], word) == "&" else !IsOperator(CStr(buf[..], word))
    modifies buf, commands
    ensures forall j :: 0 <= j < commands.Length && j != k ==> commands[j] == old(commands[j])
    ensures Ready(b0, buf[..], lo, e, commands[k], token, next)
    ensures Turned(old(buf[..]), buf[..], e, old(commands[k]), commands[k], word, save, token, next)
  {
    ghost var b := buf[..];
    var c := commands[k];
    PlainKeeps(b0, b, lo, e, c, word, save, amp);
    commands[k] := WithPlain(c, word, amp);
    token, next := NextWord(buf, commands[k], save, b0, lo, e);
    PlainTurned(b, buf[..], e, c, word, save, amp, token, next);
  }

  // The words of an operator turn: the operator, its word if there is one, and the rest.
  lemma OperatorWords(b: seq<char>, b1: seq<char>, word: nat, save: nat, e: nat, target: Ptr, save1: nat)
    requires save <= e <= |b| && save1 <= e <= |b1|
    requires Pending(b1, target, save1, e) == Tokens(Text(b, save, e), Blanks)
    requires target.None? ==> save1 == e
    ensures var words := Pending(b, Some(word), save, e);
      && words != [] && words[0] == CStr(b, word)
      && (target.None? ==> |words| == 1)
      && (target.Some? ==> |words| >= 2 && words[1] == CStr(b1, target.value) && words[2..] == Tokens(Text(b1, save1, e), Blanks))
  {
    var words := Pending(b, Some(word), save, e);
    var rest := Pending(b1, target, save1, e);
    assert words == [CStr(b, word)] + rest && words[1..] == rest;
    if target.None? {
      assert Text(b1, save1, e) == "";
    } else {
      assert rest[1..] == Tokens(Text(b1, save1, e), Blanks);
      assert words[2..] == rest[1..];
    }
  }

  lemma TargetTurned(c: Cmd, words: seq<string>)
    requires words != [] && TakesWord(words[0]) && |c.args| < MAX_ARGS - 1
    ensures ParseWords(c, words) == if |words| == 1 then None else ParseWords(Redirect(c, words[0], words[1]), words[2..])
  {
  }

  // Store the operator's word and read the next.
  method StoreTarget(buf: array<char>, commands: array<Command>, k: nat, operator: string, target: nat, save: nat,
      ghost b0: seq<char>, ghost lo: nat, ghost e: nat)
    returns (token: Ptr, next: nat)
    requires k < commands.Length && Ready(b0, buf[..], lo, e, commands[k], Some(target), save) && TakesWord(operator)
    modifies buf, commands
    ensures forall j :: 0 <= j < commands.Length && j != k ==> commands[j] == old(commands[j])
    ensures Ready(b0, buf[..], lo, e, commands[k], token, next)
    ensures View(commands[k], buf[..]) == old(Redirect(View(commands[k], buf[..]), operator, CStr(buf[..], target)))
    ensures Pending(buf[..], token, next, e) == old(Tokens(Text(buf[..], save, e), Blanks))
    ensures old(Tidy(commands[k])) ==> Tidy(commands[k])
  {
    TargetKeeps(b0, buf[..], lo, e, commands[k], operator, target, save);
    commands[k] := WithTarget(commands[k], operator, target);
    token, next := NextWord(buf, commands[k], save, b0, lo, e);
  }

  // The turn of an operator that takes the next word, which may be missing.
  method TakeTarget(buf: array<char>, commands: array<Command>, k: nat, word: nat, operator: string, save: nat,
      ghost b0: seq<char>, ghost lo: nat, ghost e: nat)
    returns (ok: bool, token: Ptr, next: nat)
    requires k < commands.Length && Ready(b0, buf[..], lo, e, commands[k], Some(word), save) && commands[k].argc < MAX_ARGS - 1
    requires CStr(buf[..], word) == operator && TakesWord(operator)
    modifies buf, commands
    ensures forall j :: 0 <= j < commands.Length && j != k ==> commands[j] == old(commands[j])
    ensures ok ==> Ready(b0, buf[..], lo, e, commands[k], token, next)
    ensures ok ==> Turned(old(buf[..]), buf[..], e, old(commands[k]), commands[k], word, save, token, next)
    ensures !ok ==> OnlyCuts(b0, buf[..], lo, e, Blanks)
    ensures !ok ==> old(ParseWords(View(commands[k], buf[..]), Pending(buf[..], Some(word), save, e))) == None
  {
    ghost var b, c := buf[..], commands[k];
    var target: Ptr;
    target, next := NextWord(buf, commands[k], save, b0, lo, e);
    OperatorWords(b, buf[..], word, save, e, target, next);
    TargetTurned(View(c, b), Pending(b, Some(word), save, e));
    if target.None? {
      return false, None, next;
    }
    token, next := StoreTarget(buf, commands, k, operator, target.value, next, b0, lo, e);
    ok := true;
  }

  // Which operator the word at p is; "" for none.
  method OperatorAt(buf: array<char>, p: nat) returns (operator: string)
    requires End(buf[..], p) < buf.Length
    ensures operator == if IsOperator(CStr(buf[..], p)) then CStr(buf[..], p) else ""
  {
    var amp := Strcmp(buf, p, "&");
    var here := Strcmp(buf, p, "<<");
    var input := Strcmp(buf, p, "<");
    var output := Strcmp(buf, p, ">");
    var append := Strcmp(buf, p, ">>");
    operator := if amp then "&" else if here then "<<" else if input then "<" else if output then ">" else if append then ">>" else "";
  }

  // One turn of the loop: the word in hand is an operator, with or without a word of its own, or an argument.
  method ParseWord(buf: array<char>, commands: array<Command>, k: nat, word: nat, save: nat, ghost b0: seq<char>,
      ghost lo: nat, ghost e: nat)
    returns (ok: bool, token: Ptr, next: nat)
    requires k < commands.Length && Ready(b0, buf[..], lo, e, commands[k], Some(word), save)
    requires commands[k].argc < MAX_ARGS - 1
    modifies buf, commands
    ensures forall j :: 0 <= j < commands.Length && j != k ==> commands[j] == old(commands[j])
    ensures ok ==> Ready(b0, buf[..], lo, e, commands[k], token, next)
    ensures ok ==> Turned(old(buf[..]), buf[..], e, old(commands[k]), commands[k], word, save, token, next)
    ensures !ok ==> OnlyCuts(b0, buf[..], lo, e, Blanks)
    ensures !ok ==> old(ParseWords(View(commands[k], buf[..]), Pending(buf[..], Some(word), save, e))) == None
  {
    var operator := OperatorAt(buf, word);
    if operator == "&" || operator == "" {
      token, next := TakePlain(buf, commands, k, word, save, operator == "&", b0, lo, e);
      ok := true;
    } else {
      ok, token, next := TakeTarget(buf, commands, k, word, operator, save, b0, lo, e);
    }
  }

  // memset and the first call of strtok_r.
  method StartCommand(buf: array<char>, lo: nat, commands: array<Command>, k: nat, ghost e: nat) returns (token: Ptr, save: nat)
    requires Holds(buf[..], lo, e) && k < commands.Length
    modifies buf, commands
    ensures forall j :: 0 <= j < commands.Length && j != k ==> commands[j] == old(commands[j])
    ensures Ready(old(buf[..]), buf[..], lo, e, commands[k], token, save) && Tidy(commands[k])
    ensures View(commands[k], buf[..]) == BLANK_CMD
    ensures Pending(buf[..], token, save, e) == Tokens(CStr(old(buf[..]), lo), Blanks)
  {
    ghost var b0 := buf[..];
    CStrIs(b0, lo, e);
    commands[k] := CleanCommand();
    assert View(commands[k], b0) == BLANK_CMD;
    assert Between(b0, b0, lo, e, commands[k], lo);
    token, save := NextWordFrom(buf, Some(lo), None, commands[k], b0, lo, e);
  }

  /** parse_command on the segment from lo to its NUL at e, into slot k: the slot ends up saying
      what ParseWords makes of the segment's words, its strings apart from each other and inside
      the segment, of which only blanks have been overwritten. */
  method ParseCommand(buf: array<char>, lo: nat, commands: array<Command>, k: nat, ghost e: nat) returns (argc: int)
    requires Holds(buf[..], lo, e) && k < commands.Length
    modifies buf, commands
    ensures forall j :: 0 <= j < commands.Length && j != k ==> commands[j] == old(commands[j])
    ensures OnlyCuts(old(buf[..]), buf[..], lo, e, Blanks)
    ensures CommandParsed(commands[k], buf[..], old(Tokens(CStr(buf[..], lo), Blanks)), argc)
    ensures argc >= 0 ==> Settled(commands[k], buf[..], lo, e + 1) && Apart(commands[k], buf[..])
  {
    ghost var b0 := buf[..];
    ghost var words := Tokens(CStr(b0, lo), Blanks);
    var token: Ptr, save: nat := StartCommand(buf, lo, commands, k, e);
    while token.Some? && commands[k].argc < MAX_ARGS - 1
      invariant forall j :: 0 <= j < commands.Length && j != k ==> commands[j] == old(commands[j])
      invariant Ready(b0, buf[..], lo, e, commands[k], token, save) && Tidy(commands[k])
      invariant ParseWords(View(commands[k], buf[..]), Pending(buf[..], token, save, e)) == ParseWords(BLANK_CMD, words)
      decreases |Pending(buf[..], token, save, e)|
    {
      var ok: bool;
      ok, token, save := ParseWord(buf, commands, k, token.value, save, b0, lo, e);
      if !ok {
        return -1;
      }
    }
    argc := commands[k].argc;
  }

  // ------------------------------------------------------------ the whole line, in place

  // Only '|' and blanks before e have been overwritten, and only by NULs.
  ghost predicate OnlyLineCuts(b0: seq<char>, b: seq<char>, e: nat) {
    |b| == |b0| && forall i :: 0 <= i < |b| && b[i] != b0[i] ==>
      i < e && b[i] == NUL && (IsDelim(Blanks, b0[i]) || IsDelim(Bar, b0[i]))
  }

  // The commands parsed so far, every string of theirs ending before limit, and those of an
  // earlier command before those of a later one.
  ghost predicate Parsed(cmds: seq<Command>, b: seq<char>, limit: nat) {
    && (forall k :: 0 <= k < |cmds| ==> CommandOk(cmds[k]) && cmds[k].heredocFd == -1 && cmds[k].args[cmds[k].argc] == None)
    && (forall k :: 0 <= k < |cmds| ==> Settled(cmds[k], b, 0, limit) && Apart(cmds[k], b))
    && (forall k, l, f, g :: 0 <= k < l < |cmds| && PtrOf(cmds[k], f).Some? && PtrOf(cmds[l], g).Some? ==>
          End(b, PtrOf(cmds[k], f).value) < PtrOf(cmds[l], g).value)
  }

  function Views(cmds: seq<Command>, b: seq<char>): seq<Cmd>
    requires forall k :: 0 <= k < |cmds| ==> CommandOk(cmds[k])
  {
    seq(|cmds|, k requires 0 <= k < |cmds| => View(cmds[k], b))
  }

  lemma ParsedFrame(cmds: seq<Command>, b: seq<char>, b': seq<char>, limit: nat, limit': nat)
    requires Parsed(cmds, b, limit) && limit <= limit' <= |b| == |b'|
    requires forall i :: 0 <= i < limit ==> b'[i] == b[i]
    ensures Parsed(cmds, b', limit') && Views(cmds, b') == Views(cmds, b)
  {
    forall k | 0 <= k < |cmds|
      ensures View(cmds[k], b') == View(cmds[k], b) && Settled(cmds[k], b', 0, limit') && Apart(cmds[k], b')
      ensures forall f :: PtrOf(cmds[k], f).Some? ==> End(b', PtrOf(cmds[k], f).value) == End(b, PtrOf(cmds[k], f).value)
    {
      SettledFrame(cmds[k], b, b', 0, limit);
    }
    assert Views(cmds, b') == Views(cmds, b);
  }

  lemma ParsedAppend(cmds: seq<Command>, c: Command, b: seq<char>, lo: nat, limit: nat)
    requires Parsed(cmds, b, lo) && lo <= limit
    requires CommandOk(c) && c.heredocFd == -1 && c.args[c.argc] == None
    requires Settled(c, b, lo, limit) && Apart(c, b)
    ensures Parsed(cmds + [c], b, limit) && Views(cmds + [c], b) == Views(cmds, b) + [View(c, b)]
  {
    var all := cmds + [c];
    forall k, l, f, g | 0 <= k < l < |all| && PtrOf(all[k], f).Some? && PtrOf(all[l], g).Some?
      ensures End(b, PtrOf(all[k], f).value) < PtrOf(all[l], g).value
    {
      if l == |cmds| {
        assert Settled(cmds[k], b, 0, lo);
      }
    }
    assert Views(all, b) == Views(cmds, b) + [View(c, b)];
  }

  // The segments still to be parsed.
  function Pieces(b: seq<char>, seg: Ptr, save: nat, e: nat): seq<string>
    requires save <= e <= |b|
  {
    (if seg.Some? then [CStr(b, seg.value)] else []) + Tokens(Text(b, save, e), Bar)
  }

  // The state at the head of the outer loop: `front` is where parsed strings must have ended.
  ghost predicate LineReady(b0: seq<char>, b: seq<char>, e: nat, cmds: seq<Command>, seg: Ptr, save: nat) {
    && Holds(b, save, e) && OnlyLineCuts(b0, b, e)
    && Parsed(cmds, b, if seg.Some? then seg.value else e + 1)
    && (seg.Some? ==> seg.value < End(b, seg.value) < Limit(save, e))
    && (seg.None? ==> save == e)
  }

  /** parse_command on a segment changes nothing outside it. */
  lemma InnerKeeps(b0: seq<char>, b: seq<char>, b': seq<char>, e: nat, cmds: seq<Command>, seg: nat, save: nat)
    requires LineReady(b0, b, e, cmds, Some(seg), save) && OnlyCuts(b, b', seg, End(b, seg), Blanks)
    ensures OnlyLineCuts(b0, b', e) && Holds(b', save, e) && Text(b', save, e) == Text(b, save, e)
    ensures Parsed(cmds, b', seg) && Views(cmds, b') == Views(cmds, b)
  {
    ParsedFrame(cmds, b, b', seg, seg);
    forall i | save <= i <= e ensures b'[i] == b[i] {
      assert i >= End(b, seg);
    }
    assert Text(b', save, e) == Text(b, save, e);
  }

  /** The next call on '|' disturbs no command parsed before. */
  lemma OuterKeeps(b0: seq<char>, b: seq<char>, b': seq<char>, e: nat, cmds: seq<Command>, save: nat, tok: Ptr, next: nat)
    requires Holds(b, save, e) && OnlyLineCuts(b0, b, e) && Parsed(cmds, b, Limit(save, e))
    requires Cut(b, b', save, e, Bar, tok, next)
    ensures LineReady(b0, b', e, cmds, tok, next) && Views(cmds, b') == Views(cmds, b)
    ensures Tokens(Text(b, save, e), Bar) == Pieces(b', tok, next, e)
  {
    if tok.Some? {
      ParsedFrame(cmds, b, b', save, tok.value);
    } else {
      assert Text(b', next, e) == "";
      ParsedFrame(cmds, b, b', Limit(save, e), e + 1);
    }
  }

  // What one turn of the outer loop does to the specification.
  lemma PieceTurned(done: seq<Cmd>, pieces: seq<string>, c: Cmd)
    requires pieces != [] && |done| < MAX_COMMANDS && ParseWords(BLANK_CMD, Tokens(pieces[0], Blanks)) == Some(c)
    ensures ParsePieces(done, pieces) == ParsePieces(if c.args == [] then done else done + [c], pieces[1..])
  {
  }

  lemma PieceRejected(done: seq<Cmd>, pieces: seq<string>)
    requires pieces != [] && |done| < MAX_COMMANDS && ParseWords(BLANK_CMD, Tokens(pieces[0], Blanks)) == None
    ensures ParsePieces(done, pieces) == None
  {
  }

  /** pipeline_t */
  class Pipeline {
    const commands: array<Command>
    var numCommands: nat
    var background: bool

    constructor ()
      ensures Valid() && fresh(commands) && numCommands == 0
    {
      commands := new Command[MAX_COMMANDS](_ => CleanCommand());
      numCommands, background := 0, false;
    }

    ghost predicate Valid()
      reads this
    {
      commands.Length == MAX_COMMANDS && numCommands <= MAX_COMMANDS
    }

    ghost function Done(): seq<Command>
      requires Valid()
      reads this, commands
    {
      commands[..numCommands]
    }
  }

  // pipeline->num_commands++
  method CountPiece(ghost b: seq<char>, p: Pipeline, ghost cmds: seq<Command>, ghost lo: nat, ghost mid: nat, ghost limit: nat)
    requires p.Valid() && p.numCommands < MAX_COMMANDS && cmds == p.Done()
    requires Parsed(cmds, b, lo) && lo <= mid <= limit <= |b|
    requires var c := p.commands[p.numCommands];
      CommandOk(c) && c.heredocFd == -1 && c.args[c.argc] == None && Settled(c, b, lo, mid) && Apart(c, b)
    modifies p`numCommands
    ensures p.Valid() && p.numCommands == old(p.numCommands) + 1
    ensures Parsed(p.Done(), b, limit) && Views(p.Done(), b) == Views(cmds, b) + [View(p.commands[|cmds|], b)]
  {
    ParsedAppend(cmds, p.commands[p.numCommands], b, lo, mid);
    p.numCommands := p.numCommands + 1;
    assert p.Done() == cmds + [p.commands[|cmds|]];
    ParsedFrame(p.Done(), b, b, mid, limit);
  }

  // The call of parse_command, and the count of commands.
  method AddPiece(buf: array<char>, p: Pipeline, seg: nat, save: nat, ghost b0: seq<char>, ghost z: nat, ghost e: nat) returns (argc: int)
    requires p.Valid() && p.numCommands < MAX_COMMANDS
    requires LineReady(b0, buf[..], e, p.Done(), Some(seg), save) && z == End(buf[..], seg)
    modifies buf, p`numCommands, p.commands
    ensures p.Valid() && OnlyLineCuts(b0, buf[..], e) && Holds(buf[..], save, e)
    ensures Text(buf[..], save, e) == Text(old(buf[..]), save, e)
    ensures old(ParseWords(BLANK_CMD, Tokens(CStr(buf[..], seg), Blanks))) == None <==> argc < 0
    ensures argc >= 0 ==> Parsed(p.Done(), buf[..], Limit(save, e))
    ensures argc >= 0 ==> var c := old(ParseWords(BLANK_CMD, Tokens(CStr(buf[..], seg), Blanks))).value;
      Views(p.Done(), buf[..]) == if c.args == [] then old(Views(p.Done(), buf[..])) else old(Views(p.Done(), buf[..])) + [c]
  {
    ghost var b, cmds := buf[..], p.Done();
    argc := ParseCommand(buf, seg, p.commands, p.numCommands, z);
    InnerKeeps(b0, b, buf[..], e, cmds, seg, save);
    assert p.commands[..p.numCommands] == cmds;
    if argc > 0 {
      CountPiece(buf[..], p, cmds, seg, z + 1, Limit(save, e));
    } else if argc == 0 {
      ParsedFrame(cmds, buf[..], buf[..], seg, Limit(save, e));
    }
  }

  // One turn of the outer loop: the segment becomes a command, or vanishes, or is an error.
  method ParsePiece(buf: array<char>, p: Pipeline, seg: nat, save: nat, ghost b0: seq<char>, ghost e: nat)
    returns (ok: bool, next: Ptr, save': nat)
    requires p.Valid() && p.numCommands < MAX_COMMANDS
    requires LineReady(b0, buf[..], e, p.Done(), Some(seg), save)
    modifies buf, p`numCommands, p.commands
    ensures p.Valid() && OnlyLineCuts(b0, buf[..], e)
    ensures ok ==> LineReady(b0, buf[..], e, p.Done(), next, save')
    ensures ok ==> ParsePieces(Views(p.Done(), buf[..]), Pieces(buf[..], next, save', e)) == old(ParsePieces(Views(p.Done(), buf[..]), Pieces(buf[..], Some(seg), save, e)))
    ensures ok ==> |Pieces(buf[..], next, save', e)| < old(|Pieces(buf[..], Some(seg), save, e)|)
    ensures !ok ==> old(ParsePieces(Views(p.Done(), buf[..]), Pieces(buf[..], Some(seg), save, e))) == None
  {
    ghost var b, z := buf[..], End(buf[..], seg);
    ghost var done, pieces := Views(p.Done(), b), Pieces(b, Some(seg), save, e);
    var argc := AddPiece(buf, p, seg, save, b0, z, e);
    if argc < 0 {
      PieceRejected(done, pieces);
      return false, None, save;
    }
    ghost var b1 := buf[..];
    PieceTurned(done, pieces, ParseWords(BLANK_CMD, Tokens(CStr(b, seg), Blanks)).value);
    StrtokCuts(buf[..], save, e, Bar);
    next, save' := StrtokR(buf, None, Some(save), Bar, e);
    OuterKeeps(b0, b1, buf[..], e, p.Done(), save, next, save');
    assert pieces[1..] == Pieces(buf[..], next, save', e);
    ok := true;
  }

  // memset and the first call on '|'.
  method StartLine(buf: array<char>, p: Pipeline, ghost e: nat) returns (seg: Ptr, save: nat)
    requires p.Valid() && Holds(buf[..], 0, e)
    modifies buf, p
    ensures p.Valid() && p.numCommands == 0 && !p.background
    ensures LineReady(old(buf[..]), buf[..], e, p.Done(), seg, save)
    ensures Views(p.Done(), buf[..]) == [] && Pieces(buf[..], seg, save, e) == old(Tokens(CStr(buf[..], 0), Bar))
  {
    ghost var b0 := buf[..];
    CStrIs(b0, 0, e);
    p.numCommands, p.background := 0, false;
    assert Views(p.Done(), b0) == [];
    StrtokCuts(buf[..], 0, e, Bar);
    seg, save := StrtokR(buf, Some(0), None, Bar, e);
    OuterKeeps(b0, b0, buf[..], e, p.Done(), 0, seg, save);
  }

  // When the loop stops, what has been parsed is the result.
  lemma LineFinished(b0: seq<char>, b: seq<char>, e: nat, cmds: seq<Command>, seg: Ptr, save: nat)
    requires LineReady(b0, b, e, cmds, seg, save) && (seg.None? || |cmds| >= MAX_COMMANDS)
    ensures ParsePieces(Views(cmds, b), Pieces(b, seg, save, e)) == Some(Views(cmds, b))
    ensures Parsed(cmds, b, e + 1)
  {
    if seg.None? {
      assert Text(b, save, e) == "";
    }
    ParsedFrame(cmds, b, b, if seg.Some? then seg.value else e + 1, e + 1);
  }

  // The loop over the segments, from the first one on.
  method ParseSegments(buf: array<char>, p: Pipeline, first: Ptr, cursor: nat, ghost b0: seq<char>, ghost e: nat) returns (ok: bool)
    requires p.Valid() && LineReady(b0, buf[..], e, p.Done(), first, cursor)
    modifies buf, p`numCommands, p.commands
    ensures p.Valid() && OnlyLineCuts(b0, buf[..], e)
    ensures var goal := old(ParsePieces(Views(p.Done(), buf[..]), Pieces(buf[..], first, cursor, e)));
      if ok then Parsed(p.Done(), buf[..], e + 1) && goal == Some(Views(p.Done(), buf[..])) else goal == None
  {
    ghost var goal := ParsePieces(Views(p.Done(), buf[..]), Pieces(buf[..], first, cursor, e));
    var seg, save := first, cursor;
    while seg.Some? && p.numCommands < MAX_COMMANDS
      invariant p.Valid() && LineReady(b0, buf[..], e, p.Done(), seg, save)
      invariant ParsePieces(Views(p.Done(), buf[..]), Pieces(buf[..], seg, save, e)) == goal
      decreases |Pieces(buf[..], seg, save, e)|
    {
      ok, seg, save := ParsePiece(buf, p, seg.value, save, b0, e);
      if !ok {
        return;
      }
    }
    LineFinished(b0, buf[..], e, p.Done(), seg, save);
    ok := true;
  }

  // The background flag is the last command's.
  lemma LineIs(text: string, cmds: seq<Command>, b: seq<char>, limit: nat)
    requires Parsed(cmds, b, limit) && ParsePieces([], Tokens(text, Bar)) == Some(Views(cmds, b))
    ensures ParseLine(text) == Some(Line(Views(cmds, b), cmds != [] && cmds[|cmds| - 1].background))
  {
    if cmds != [] {
      assert Views(cmds, b)[|cmds| - 1] == View(cmds[|cmds| - 1], b);
    }
  }

  // The "&" of the last command goes for the whole pipeline.
  method Promote(p: Pipeline)
    requires p.Valid() && !p.background
    modifies p`background
    ensures p.background == (p.Done() != [] && p.Done()[|p.Done()| - 1].background)
  {
    if p.numCommands > 0 {
      p.background := p.commands[p.numCommands - 1].background;
    }
  }

  method FinishLine(p: Pipeline, ghost text: string, ghost b: seq<char>, ghost limit: nat)
    requires p.Valid() && !p.background && Parsed(p.Done(), b, limit)
    requires ParsePieces([], Tokens(text, Bar)) == Some(Views(p.Done(), b))
    modifies p`background
    ensures p.Valid() && p.Done() == old(p.Done())
    ensures ParseLine(text) == Some(Line(Views(p.Done(), b), p.background))
  {
    LineIs(text, p.Done(), b, limit);
    Promote(p);
  }

  // The loop over the segments, and the flag after it.
  method ParseLineIn(buf: array<char>, p: Pipeline, ghost e: nat, ghost text: string) returns (ok: bool)
    requires p.Valid() && Holds(buf[..], 0, e) && text == CStr(buf[..], 0)
    modifies buf, p, p.commands
    ensures p.Valid() && OnlyLineCuts(old(buf[..]), buf[..], e)
    ensures ok ==> Parsed(p.Done(), buf[..], e + 1)
    ensures ParseLine(text) == if ok then Some(Line(Views(p.Done(), buf[..]), p.background)) else None
  {
    ghost var b0 := buf[..];
    var first, cursor := StartLine(buf, p, e);
    ok := ParseSegments(buf, p, first, cursor, b0, e);
    if ok {
      FinishLine(p, text, buf[..], e + 1);
    }
  }

  /** parse_pipeline on the line held by buf: exactly what ParseLine makes of the line, although
      both cursors write into the one buffer. Only '|' and blanks are overwritten; no two strings
      any command points to share a byte; each argument vector ends in NULL. */
  method ParsePipeline(buf: array<char>, p: Pipeline, ghost e: nat) returns (r: int)
    requires p.Valid() && Holds(buf[..], 0, e)
    modifies buf, p, p.commands
    ensures p.Valid() && OnlyLineCuts(old(buf[..]), buf[..], e)
    ensures r == -1 <==> old(ParseLine(CStr(buf[..], 0))) == None
    ensures r != -1 ==> r == p.numCommands && Parsed(p.Done(), buf[..], e + 1)
    ensures r != -1 ==> old(ParseLine(CStr(buf[..], 0))) == Some(Line(Views(p.Done(), buf[..]), p.background))
  {
    ghost var text := CStr(buf[..], 0);
    var ok := ParseLineIn(buf, p, e, text);
    r := if ok then p.numCommands else -1;
  }
}
