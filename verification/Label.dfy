/** The printer for job labels (format_pipeline_label in src/executor.c), and how it and the
    parser undo each other. */
module Label {
  import opened Options
  import opened Strings
  import opened Limits
  import opened Parser

  // ------------------------------------------------------------ the rendering

  // Arguments a, a+1, ... separated by single spaces, with a space before all but the first.
  function ArgsFrom(args: seq<string>, a: nat): string
    requires a <= |args|
    decreases |args| - a
  {
    if a == |args| then "" else (if a > 0 then " " else "") + args[a] + ArgsFrom(args, a + 1)
  }

  function CommandsFrom(cmds: seq<seq<string>>, c: nat): string
    requires c <= |cmds|
    decreases |cmds| - c
  {
    if c == |cmds| then "" else (if c > 0 then " | " else "") + ArgsFrom(cmds[c], 0) + CommandsFrom(cmds, c + 1)
  }

  /** A pipeline as text: arguments joined by " ", commands by " | ". */
  function Render(cmds: seq<seq<string>>): string {
    CommandsFrom(cmds, 0)
  }

  lemma {:induction false} ArgsAppend(args: seq<string>, w: string, a: nat)
    requires a <= |args|
    ensures ArgsFrom(args + [w], a) == ArgsFrom(args, a) + ((if args == [] then "" else " ") + w)
    decreases |args| - a
  {
    var more := args + [w];
    var last := (if args == [] then "" else " ") + w;
    if a == |args| {
      assert ArgsFrom(more, a + 1) == "" && last + "" == last && "" + last == last;
    } else {
      ArgsAppend(args, w, a + 1);
      var first := (if a > 0 then " " else "") + args[a];
      assert first + (ArgsFrom(args, a + 1) + last) == (first + ArgsFrom(args, a + 1)) + last;
    }
  }

  lemma {:induction false} CommandsAppend(cmds: seq<seq<string>>, args: seq<string>, c: nat)
    requires c <= |cmds|
    ensures CommandsFrom(cmds + [args], c) == CommandsFrom(cmds, c) + ((if cmds == [] then "" else " | ") + ArgsFrom(args, 0))
    decreases |cmds| - c
  {
    var more := cmds + [args];
    var last := (if cmds == [] then "" else " | ") + ArgsFrom(args, 0);
    if c == |cmds| {
      assert CommandsFrom(more, c + 1) == "" && last + "" == last && "" + last == last;
    } else {
      CommandsAppend(cmds, args, c + 1);
      var first := (if c > 0 then " | " else "") + ArgsFrom(cmds[c], 0);
      assert first + (CommandsFrom(cmds, c + 1) + last) == (first + CommandsFrom(cmds, c + 1)) + last;
    }
  }

  lemma OneWordRendered(w: string)
    ensures ArgsFrom([w], 0) == w && Render([[w]]) == w
  {
    ArgsAppend([], w, 0);
    assert [] + [w] == [w] && "" + ("" + w) == w;
    CommandsAppend([], [w], 0);
    assert [] + [[w]] == [[w]] && "" + ("" + w) == w;
  }

  lemma MoreAtEnd(before: string, bar: string, text: string, more: string)
    ensures before + (bar + (text + more)) == (before + (bar + text)) + more
  {
  }

  lemma ArgumentRendered(cmds: seq<seq<string>>, args: seq<string>, w: string)
    requires args != []
    ensures Render(cmds + [args + [w]]) == Render(cmds + [args]) + (" " + w)
  {
    var bar, text, more := if cmds == [] then "" else " | ", ArgsFrom(args, 0), " " + w;
    ArgsAppend(args, w, 0);
    CommandsAppend(cmds, args, 0);
    CommandsAppend(cmds, args + [w], 0);
    MoreAtEnd(Render(cmds), bar, text, more);
  }

  /** The text, read from its end: one more argument comes after one space, one more command after
      " | ", and nothing is put anywhere else. */
  lemma RenderSpelled(cmds: seq<seq<string>>, args: seq<string>, w: string)
    ensures Render([]) == "" && Render([[w]]) == w
    ensures cmds != [] ==> Render(cmds + [[w]]) == Render(cmds) + (" | " + w)
    ensures args != [] ==> Render(cmds + [args + [w]]) == Render(cmds + [args]) + (" " + w)
  {
    OneWordRendered(w);
    CommandsAppend(cmds, [w], 0);
    if args != [] {
      ArgumentRendered(cmds, args, w);
    }
  }

  // ------------------------------------------------------------ into a bounded buffer

  // The first size bytes of buf hold as much of text as fits before a NUL.
  ghost predicate Shows(b: seq<char>, size: nat, text: string)
    requires 0 < size <= |b|
  {
    var k := Min(size - 1, |text|);
    b[..k] == text[..k] && b[k] == NUL
  }

  // Appending, with used < size, keeps the buffer showing the whole text so far.
  method Append(buf: array<char>, used: nat, size: nat, text: string, ghost sofar: string) returns (used': nat)
    requires used < size <= buf.Length && used == |sofar| && Shows(buf[..], size, sofar)
    modifies buf
    ensures used' == |sofar + text| && Shows(buf[..], size, sofar + text)
  {
    ghost var b := buf[..];
    var n := Snprintf(buf, used, size - used, text);
    used' := used + n;
    ghost var all := sofar + text;
    ghost var k, m := Min(size - 1, |all|), Min(size - used - 1, |text|);
    assert k == used + m;
    assert b[..used] == sofar;
    assert buf[..][..k] == sofar + text[..m] == all[..k];
  }

  // sofar has been written; as long as there is room, what is left to write is `rest`.
  ghost predicate Midway(full: string, sofar: string, rest: string, used: nat, size: nat) {
    if used < size then sofar + rest == full else sofar <= full
  }

  lemma MidwayStep(full: string, sofar: string, text: string, rest: string, used: nat, size: nat)
    requires sofar + (text + rest) == full
    ensures Midway(full, sofar + text, rest, used, size)
  {
    assert sofar + (text + rest) == (sofar + text) + rest;
  }

  // The next piece of text, if there is room to start it.
  method AppendText(buf: array<char>, used: nat, size: nat, text: string, ghost full: string, ghost before: string, ghost rest: string)
    returns (used': nat, ghost sofar: string)
    requires used < size <= buf.Length && used == |before| && Shows(buf[..], size, before)
    requires before + (text + rest) == full
    modifies buf
    ensures used' == |sofar| && Shows(buf[..], size, sofar) && Midway(full, sofar, rest, used', size)
  {
    sofar := before + text;
    used' := Append(buf, used, size, text, before);
    MidwayStep(full, before, text, rest, used', size);
  }

  lemma ArgsStep(args: seq<string>, a: nat, rest: string)
    requires a < |args|
    ensures ArgsFrom(args, a) + rest == ((if a > 0 then " " else "") + args[a]) + (ArgsFrom(args, a + 1) + rest)
  {
  }

  // The inner loop: one command's arguments.
  method FormatArgs(args: seq<string>, buf: array<char>, used: nat, size: nat, ghost full: string, ghost before: string, ghost rest: string)
    returns (used': nat, ghost sofar: string)
    requires 0 < size <= buf.Length && used == |before| && Shows(buf[..], size, before)
    requires Midway(full, before, ArgsFrom(args, 0) + rest, used, size)
    modifies buf
    ensures used' == |sofar| && Shows(buf[..], size, sofar) && Midway(full, sofar, rest, used', size)
  {
    used', sofar := used, before;
    var a := 0;
    while a < |args| && used' < size
      invariant a <= |args| && used' == |sofar| && Shows(buf[..], size, sofar)
      invariant Midway(full, sofar, ArgsFrom(args, a) + rest, used', size)
    {
      ArgsStep(args, a, rest);
      used', sofar := AppendText(buf, used', size, (if a > 0 then " " else "") + args[a], full, sofar, ArgsFrom(args, a + 1) + rest);
      a := a + 1;
    }
    if a == |args| {
      assert ArgsFrom(args, a) + rest == rest;
    }
  }

  lemma CommandsStep(cmds: seq<seq<string>>, c: nat)
    requires c < |cmds|
    ensures CommandsFrom(cmds, c) == (if c > 0 then " | " else "") + (ArgsFrom(cmds[c], 0) + CommandsFrom(cmds, c + 1))
  {
  }

  lemma ShowsPrefix(b: seq<char>, size: nat, sofar: string, full: string)
    requires 0 < size <= |b| && Shows(b, size, sofar) && sofar <= full
    requires |sofar| < size ==> sofar == full
    ensures Shows(b, size, full)
  {
    if |sofar| >= size {
      assert sofar[..size - 1] == full[..size - 1];
    }
  }

  /** format_pipeline_label: whatever the pipeline and the buffer's size, the buffer ends up
      with the longest prefix of the rendering that leaves room for the NUL. `size - used` is
      only formed while used < size, although used itself may pass size. */
  method FormatLabel(cmds: seq<seq<string>>, buf: array<char>, size: nat)
    requires 0 < size <= buf.Length
    modifies buf
    ensures Shows(buf[..], size, Render(cmds))
  {
    var used := 0;
    buf[0] := NUL;
    ghost var sofar, full := "", Render(cmds);
    var c := 0;
    while c < |cmds| && used < size
      invariant c <= |cmds| && used == |sofar| && Shows(buf[..], size, sofar)
      invariant Midway(full, sofar, CommandsFrom(cmds, c), used, size)
    {
      ghost var rest := CommandsFrom(cmds, c + 1);
      CommandsStep(cmds, c);
      if c > 0 {
        used, sofar := AppendText(buf, used, size, " | ", full, sofar, ArgsFrom(cmds[c], 0) + rest);
      } else {
        assert "" + (ArgsFrom(cmds[c], 0) + rest) == ArgsFrom(cmds[c], 0) + rest;
      }
      used, sofar := FormatArgs(cmds[c], buf, used, size, full, sofar, rest);
      c := c + 1;
    }
    ShowsPrefix(buf[..], size, sofar, full);
  }

  // ------------------------------------------------------------ parsing what was printed

  predicate NoDelim(s: string, d: Delims) {
    forall i :: 0 <= i < |s| ==> !IsDelim(d, s[i])
  }

  // A word that survives printing and parsing: not empty, not an operator, no delimiter in it.
  predicate Printable(word: string) {
    word != "" && !IsOperator(word) && NoDelim(word, Blanks) && NoDelim(word, Bar)
  }

  predicate PrintableCommand(args: seq<string>) {
    1 <= |args| <= 63 && forall i :: 0 <= i < |args| ==> Printable(args[i])
  }

  lemma CutInFirst(s: string, c: char, t: string, k: nat)
    requires k <= |s|
    ensures (s + [c] + t)[..k] == s[..k]
    ensures (s + [c] + t)[k..] == s[k..] + [c] + t
  {
  }

  lemma SameFirstToken(s: string, c: char, t: string, d: Delims)
    requires IsDelim(d, c)
    ensures var all := s + [c] + t; var k := TokenLen(s, d);
      TokenLen(all, d) == k && all[..k] == s[..k] && all[k..] == s[k..] + [c] + t
  {
    var all, k := s + [c] + t, TokenLen(s, d);
    assert forall i :: 0 <= i < |s| ==> all[i] == s[i];
    assert all[|s|] == c;
    TokenLenIs(all, d, k);
    CutInFirst(s, c, t, k);
  }

  lemma DropFirst(s: string, c: char, t: string)
    requires s != ""
    ensures (s + [c] + t)[0] == s[0] && (s + [c] + t)[1..] == s[1..] + [c] + t
  {
  }

  lemma TokensUnfold(s: string, d: Delims)
    requires s != "" && !IsDelim(d, s[0])
    ensures Tokens(s, d) == [s[..TokenLen(s, d)]] + Tokens(s[TokenLen(s, d)..], d)
  {
  }

  lemma FirstOfThree(first: string, rest: seq<string>, more: seq<string>)
    ensures [first] + (rest + more) == ([first] + rest) + more
  {
  }

  lemma SplitAfterWord(s: string, c: char, t: string, d: Delims, rest: string)
    requires IsDelim(d, c) && s != "" && !IsDelim(d, s[0]) && rest == s[TokenLen(s, d)..]
    requires Tokens(rest + [c] + t, d) == Tokens(rest, d) + Tokens(t, d)
    ensures Tokens(s + [c] + t, d) == Tokens(s, d) + Tokens(t, d)
  {
    SameFirstToken(s, c, t, d);
    TokensUnfold(s, d);
    TokensUnfold(s + [c] + t, d);
    FirstOfThree(s[..TokenLen(s, d)], Tokens(rest, d), Tokens(t, d));
  }

  /** A delimiter splits the pieces of what is before it from the pieces of what is after. */
  lemma {:induction false} TokensSplit(s: string, c: char, t: string, d: Delims)
    requires IsDelim(d, c)
    ensures Tokens(s + [c] + t, d) == Tokens(s, d) + Tokens(t, d)
    decreases |s|
  {
    if s == "" {
      assert s + [c] + t == [c] + t && ([c] + t)[1..] == t;
    } else if IsDelim(d, s[0]) {
      DropFirst(s, c, t);
      TokensSplit(s[1..], c, t, d);
    } else {
      TokensSplit(s[TokenLen(s, d)..], c, t, d);
      SplitAfterWord(s, c, t, d, s[TokenLen(s, d)..]);
    }
  }

  lemma OneToken(w: string, d: Delims)
    requires w != "" && NoDelim(w, d)
    ensures Tokens(w, d) == [w]
  {
    TokenLenIs(w, d, |w|);
    assert w[..|w|] == w && w[|w|..] == "";
  }

  lemma LeadingSpace(s: string)
    ensures Tokens(" " + s, Blanks) == Tokens(s, Blanks)
  {
    assert (" " + s)[1..] == s;
  }

  // One more word in front.
  lemma WordThen(w: string, rest: string)
    requires w != "" && NoDelim(w, Blanks) && (rest == "" || rest[0] == ' ')
    ensures Tokens(w + rest, Blanks) == [w] + Tokens(rest, Blanks)
  {
    OneToken(w, Blanks);
    if rest == "" {
      assert w + rest == w;
    } else {
      var more := rest[1..];
      assert rest == " " + more && w + rest == w + [' '] + more;
      TokensSplit(w, ' ', more, Blanks);
      LeadingSpace(more);
    }
  }

  // The same after a space or not.
  lemma WordInFront(w: string, rest: string, words: seq<string>, spaced: bool)
    requires w != "" && NoDelim(w, Blanks)
    requires Tokens(rest, Blanks) == words && (rest == "" || rest[0] == ' ')
    ensures Tokens((if spaced then " " else "") + w + rest, Blanks) == [w] + words
  {
    WordThen(w, rest);
    if spaced {
      LeadingSpace(w + rest);
      assert " " + w + rest == " " + (w + rest);
    } else {
      assert "" + w == w;
    }
  }

  lemma {:induction false} ArgsTokens(args: seq<string>, a: nat)
    requires a <= |args| && forall i :: 0 <= i < |args| ==> Printable(args[i])
    ensures Tokens(ArgsFrom(args, a), Blanks) == args[a..]
    ensures NoDelim(ArgsFrom(args, a), Bar)
    ensures a > 0 && ArgsFrom(args, a) != "" ==> ArgsFrom(args, a)[0] == ' '
    decreases |args| - a
  {
    if a < |args| {
      ArgsTokens(args, a + 1);
      WordInFront(args[a], ArgsFrom(args, a + 1), args[a + 1..], a > 0);
    }
  }

  function Plain(args: seq<string>): Cmd {
    BLANK_CMD.(args := args)
  }

  function AllPlain(cmds: seq<seq<string>>): seq<Cmd> {
    seq(|cmds|, i requires 0 <= i < |cmds| => Plain(cmds[i]))
  }

  lemma {:induction false} WordsAreArgs(c: Cmd, words: seq<string>)
    requires |c.args| + |words| < MAX_ARGS && forall i :: 0 <= i < |words| ==> !IsOperator(words[i])
    ensures ParseWords(c, words) == Some(c.(args := c.args + words))
    decreases |words|
  {
    if words == [] {
      assert c.args + words == c.args;
    } else {
      WordsAreArgs(c.(args := c.args + [words[0]]), words[1..]);
      assert c.args + [words[0]] + words[1..] == c.args + words;
    }
  }

  lemma BarInMiddle(x: string, a: string, r: string)
    ensures x + (" | " + a + r) == (x + " ") + ['|'] + ((" " + a) + r)
  {
  }

  // The piece x and the space after it, cut off at the bar.
  lemma PieceCut(x: string, rest: string)
    requires NoDelim(x, Bar)
    ensures Tokens((x + " ") + ['|'] + rest, Bar) == [x + " "] + Tokens(rest, Bar)
    ensures Tokens(x + " ", Blanks) == Tokens(x, Blanks)
    ensures Tokens(" " + x, Blanks) == Tokens(x, Blanks) && NoDelim(" " + x, Bar)
  {
    TokensSplit(x + " ", '|', rest, Bar);
    OneToken(x + " ", Bar);
    TokensSplit(x, ' ', "", Blanks);
    assert x + [' '] + "" == x + " ";
    TokensSplit("", ' ', x, Blanks);
    assert "" + [' '] + x == " " + x;
  }

  lemma PieceParses(done: seq<Cmd>, piece: string, more: seq<string>)
    requires PrintableCommand(Tokens(piece, Blanks)) && |done| < MAX_COMMANDS
    ensures ParsePieces(done, [piece] + more) == ParsePieces(done + [Plain(Tokens(piece, Blanks))], more)
  {
    var args := Tokens(piece, Blanks);
    WordsAreArgs(BLANK_CMD, args);
    assert BLANK_CMD.args + args == args;
    assert ([piece] + more)[1..] == more;
  }

  lemma FirstPieceParses(done: seq<Cmd>, x: string, args: seq<string>, a: string, r: string)
    requires NoDelim(x, Bar) && Tokens(x, Blanks) == args && PrintableCommand(args) && |done| < MAX_COMMANDS
    ensures ParsePieces(done, Tokens(x + (" | " + a + r), Bar)) == ParsePieces(done + [Plain(args)], Tokens((" " + a) + r, Bar))
  {
    BarInMiddle(x, a, r);
    PieceCut(x, (" " + a) + r);
    PieceParses(done, x + " ", Tokens((" " + a) + r, Bar));
  }

  lemma AllPlainSplit(done: seq<Cmd>, cmds: seq<seq<string>>, c: nat)
    requires c < |cmds|
    ensures done + AllPlain(cmds[c..]) == done + [Plain(cmds[c])] + AllPlain(cmds[c + 1..])
  {
    assert AllPlain(cmds[c..]) == [Plain(cmds[c])] + AllPlain(cmds[c + 1..]);
  }

  lemma AllPlainWhole(cmds: seq<seq<string>>)
    requires cmds != []
    ensures [] + [Plain(cmds[0])] + AllPlain(cmds[1..]) == AllPlain(cmds)
  {
  }

  // x is a bar-free text whose words are args, with the commands from c on still to come.
  lemma {:induction false} RestParses(done: seq<Cmd>, x: string, args: seq<string>, cmds: seq<seq<string>>, c: nat)
    requires NoDelim(x, Bar) && Tokens(x, Blanks) == args && PrintableCommand(args)
    requires 0 < c <= |cmds| && forall i :: c <= i < |cmds| ==> PrintableCommand(cmds[i])
    requires |done| + 1 + (|cmds| - c) <= MAX_COMMANDS
    ensures ParsePieces(done, Tokens(x + CommandsFrom(cmds, c), Bar)) == Some(done + [Plain(args)] + AllPlain(cmds[c..]))
    decreases |cmds| - c
  {
    if c == |cmds| {
      assert x + "" == x;
      OneToken(x, Bar);
      PieceParses(done, x, []);
      assert [x] + [] == [x];
      assert done + [Plain(args)] + AllPlain(cmds[c..]) == done + [Plain(args)];
    } else {
      var a, r := ArgsFrom(cmds[c], 0), CommandsFrom(cmds, c + 1);
      FirstPieceParses(done, x, args, a, r);
      ArgsTokens(cmds[c], 0);
      PieceCut(a, r);
      assert cmds[c][0..] == cmds[c];
      RestParses(done + [Plain(args)], " " + a, cmds[c], cmds, c + 1);
      AllPlainSplit(done + [Plain(args)], cmds, c);
    }
  }

  /** Parsing a printed pipeline gives its commands and arguments back, with no redirection and
      no background flag. */
  lemma PrintThenParse(cmds: seq<seq<string>>)
    requires |cmds| <= MAX_COMMANDS && forall i :: 0 <= i < |cmds| ==> PrintableCommand(cmds[i])
    ensures ParseLine(Render(cmds)) == Some(Line(AllPlain(cmds), false))
  {
    if cmds == [] {
      assert Tokens("", Bar) == [];
    } else {
      ArgsTokens(cmds[0], 0);
      assert cmds[0][0..] == cmds[0];
      assert Render(cmds) == ArgsFrom(cmds[0], 0) + CommandsFrom(cmds, 1);
      RestParses([], ArgsFrom(cmds[0], 0), cmds[0], cmds, 1);
      AllPlainWhole(cmds);
    }
  }

  lemma {:induction false} TokensClean(s: string, d: Delims, other: Delims)
    ensures forall i :: 0 <= i < |Tokens(s, d)| ==> Tokens(s, d)[i] != "" && NoDelim(Tokens(s, d)[i], d)
    ensures forall i :: 0 <= i < |Tokens(s, d)| && NoDelim(s, other) ==> NoDelim(Tokens(s, d)[i], other)
    decreases |s|
  {
    if s == "" {
    } else if IsDelim(d, s[0]) {
      TokensClean(s[1..], d, other);
    } else {
      TokensClean(s[TokenLen(s, d)..], d, other);
    }
  }

  predicate ParsedCommand(c: Cmd) {
    PrintableCommand(c.args)
  }

  predicate CleanWord(w: string) {
    w != "" && NoDelim(w, Blanks) && NoDelim(w, Bar)
  }

  predicate ParsedArgs(c: Cmd) {
    |c.args| < MAX_ARGS && forall i :: 0 <= i < |c.args| ==> Printable(c.args[i])
  }

  lemma {:induction false} ParsedWordsPrintable(c: Cmd, words: seq<string>)
    requires ParsedArgs(c) && forall i :: 0 <= i < |words| ==> CleanWord(words[i])
    ensures ParseWords(c, words).Some? ==> ParsedArgs(ParseWords(c, words).value)
    decreases |words|
  {
    if words == [] || |c.args| >= MAX_ARGS - 1 {
    } else if words[0] == "&" {
      ParsedWordsPrintable(c.(background := true), words[1..]);
    } else if TakesWord(words[0]) {
      if |words| > 1 {
        ParsedWordsPrintable(Redirect(c, words[0], words[1]), words[2..]);
      }
    } else {
      ParsedWordsPrintable(c.(args := c.args + [words[0]]), words[1..]);
    }
  }

  lemma {:induction false} ParsedPiecesPrintable(done: seq<Cmd>, pieces: seq<string>)
    requires |done| <= MAX_COMMANDS && forall i :: 0 <= i < |done| ==> ParsedCommand(done[i])
    requires forall i :: 0 <= i < |pieces| ==> NoDelim(pieces[i], Bar)
    ensures ParsePieces(done, pieces).Some? ==>
      |ParsePieces(done, pieces).value| <= MAX_COMMANDS &&
      forall i :: 0 <= i < |ParsePieces(done, pieces).value| ==> ParsedCommand(ParsePieces(done, pieces).value[i])
    decreases |pieces|
  {
    if pieces == [] || |done| >= MAX_COMMANDS {
    } else {
      var words := Tokens(pieces[0], Blanks);
      TokensClean(pieces[0], Blanks, Bar);
      assert forall i :: 0 <= i < |words| ==> CleanWord(words[i]);
      ParsedWordsPrintable(BLANK_CMD, words);
      match ParseWords(BLANK_CMD, words)
      case None =>
      case Some(c) =>
        ParsedPiecesPrintable(if c.args == [] then done else done + [c], pieces[1..]);
    }
  }

  /** And only such pipelines come back: a command without arguments or with too many, an
      argument that is empty, an operator, or holds a delimiter, or too many commands, and the
      text parses to something else. */
  lemma PrintThenParseExactly(cmds: seq<seq<string>>)
    ensures ParseLine(Render(cmds)) == Some(Line(AllPlain(cmds), false)) <==>
      |cmds| <= MAX_COMMANDS && forall i :: 0 <= i < |cmds| ==> PrintableCommand(cmds[i])
  {
    var line := Render(cmds);
    if ParseLine(line) == Some(Line(AllPlain(cmds), false)) {
      TokensClean(line, Bar, Bar);
      ParsedPiecesPrintable([], Tokens(line, Bar));
      forall i | 0 <= i < |cmds| ensures PrintableCommand(cmds[i]) {
        assert ParsedCommand(AllPlain(cmds)[i]);
      }
    } else if |cmds| <= MAX_COMMANDS && forall i :: 0 <= i < |cmds| ==> PrintableCommand(cmds[i]) {
      PrintThenParse(cmds);
    }
  }

  // The words of a printed command with a background mark at its end.
  lemma AmpersandWords(args: seq<string>)
    requires PrintableCommand(args)
    ensures Tokens(ArgsFrom(args, 0) + " &", Blanks) == args + ["&"]
    ensures NoDelim(ArgsFrom(args, 0) + " &", Bar) && ArgsFrom(args, 0) + " &" != ""
  {
    var text := ArgsFrom(args, 0);
    ArgsTokens(args, 0);
    assert args[0..] == args;
    assert text + [' '] + "&" == text + " &";
    TokensSplit(text, ' ', "&", Blanks);
    OneToken("&", Blanks);
  }

  lemma AmpersandParses(args: seq<string>)
    requires PrintableCommand(args)
    ensures ParseWords(BLANK_CMD, args + ["&"]) == Some(Plain(args).(background := |args| < MAX_ARGS - 1))
  {
    WordsAreArgs(BLANK_CMD, args);
    assert BLANK_CMD.args + args == args;
    ParseSplit(BLANK_CMD, args, ["&"]);
    assert ["&"][1..] == [];
  }

  lemma OnePieceParses(piece: string, c: Cmd)
    requires ParseWords(BLANK_CMD, Tokens(piece, Blanks)) == Some(c) && c.args != []
    ensures ParsePieces([], [piece]) == Some([c])
  {
    assert [piece][1..] == [];
    assert [] + [c] == [c];
  }

  /** "args &" runs in the background exactly if there are fewer than 63 arguments: with 63 the
      mark is dropped in silence, and the command runs in the foreground. */
  lemma BackgroundMarkKeptExactly(args: seq<string>)
    requires PrintableCommand(args)
    ensures ParseLine(ArgsFrom(args, 0) + " &") ==
      Some(Line([Plain(args).(background := |args| < MAX_ARGS - 1)], |args| < MAX_ARGS - 1))
  {
    var line := ArgsFrom(args, 0) + " &";
    AmpersandWords(args);
    AmpersandParses(args);
    OneToken(line, Bar);
    OnePieceParses(line, Plain(args).(background := |args| < MAX_ARGS - 1));
  }

  predicate EndsInMark(line: string) {
    |line| >= 2 && line[|line| - 2..] == " &"
  }

  /** A line that loses its background mark: 63 times "a", then "&". */
  lemma BackgroundMarkCanBeLost()
    ensures exists line :: EndsInMark(line) && ParseLine(line).Some? && ParseLine(line).value.commands != [] && !ParseLine(line).value.background
  {
    var args := seq(MAX_ARGS - 1, _ => "a");
    BackgroundMarkKeptExactly(args);
    AmpersandWords(args);
    var line := ArgsFrom(args, 0) + " &";
    assert line[|line| - 2..] == " &";
  }

  // ------------------------------------------------------------ printing what was parsed

  function ArgsOf(cmds: seq<Cmd>): seq<seq<string>> {
    seq(|cmds|, i requires 0 <= i < |cmds| => cmds[i].args)
  }

  /** For every line at all: if it parses, printing its commands and parsing the print gives the
      same commands and arguments, with the redirections and the background flag gone. */
  lemma ParseThenPrint(line: string)
    ensures ParseLine(line).Some? ==>
      ParseLine(Render(ArgsOf(ParseLine(line).value.commands))) ==
        Some(Line(AllPlain(ArgsOf(ParseLine(line).value.commands)), false))
  {
    if ParseLine(line).Some? {
      var pieces := Tokens(line, Bar);
      TokensClean(line, Bar, Bar);
      ParsedPiecesPrintable([], pieces);
      var cmds := ArgsOf(ParseLine(line).value.commands);
      forall i | 0 <= i < |cmds| ensures PrintableCommand(cmds[i]) {
        assert ParsedCommand(ParseLine(line).value.commands[i]);
      }
      PrintThenParse(cmds);
    }
  }

  // ------------------------------------------------------------ labels cut short

  predicate IsInk(c: char) {
    !IsDelim(Blanks, c) && !IsDelim(Bar, c)
  }

  // How many characters of s are neither blanks nor bars.
  function Ink(s: string): nat {
    if s == "" then 0 else (if IsInk(s[0]) then 1 else 0) + Ink(s[1..])
  }

  function InkOf(pieces: seq<string>): nat {
    if pieces == [] then 0 else Ink(pieces[0]) + InkOf(pieces[1..])
  }

  function InkOfAll(cmds: seq<seq<string>>): nat {
    if cmds == [] then 0 else InkOf(cmds[0]) + InkOfAll(cmds[1..])
  }

  lemma {:induction false} InkSplit(a: string, b: string)
    ensures Ink(a + b) == Ink(a) + Ink(b)
    decreases |a|
  {
    if a == "" {
      assert a + b == b;
    } else {
      assert (a + b)[1..] == a[1..] + b;
      InkSplit(a[1..], b);
    }
  }

  lemma {:induction false} InkOfSplit(a: seq<string>, b: seq<string>)
    ensures InkOf(a + b) == InkOf(a) + InkOf(b)
    decreases |a|
  {
    if a == [] {
      assert a + b == b;
    } else {
      assert (a + b)[1..] == a[1..] + b;
      InkOfSplit(a[1..], b);
    }
  }

  lemma {:induction false} InkOfAllAppend(a: seq<seq<string>>, c: seq<string>)
    ensures InkOfAll(a + [c]) == InkOfAll(a) + InkOf(c)
    decreases |a|
  {
    if a == [] {
      assert a + [c] == [c] && [c][1..] == [];
    } else {
      assert (a + [c])[1..] == a[1..] + [c];
      InkOfAllAppend(a[1..], c);
    }
  }

  // Splitting loses delimiters only.
  lemma {:induction false} TokensKeepInk(s: string, d: Delims)
    ensures InkOf(Tokens(s, d)) == Ink(s)
    decreases |s|
  {
    if s == "" {
    } else if IsDelim(d, s[0]) {
      TokensKeepInk(s[1..], d);
    } else {
      var k := TokenLen(s, d);
      TokensKeepInk(s[k..], d);
      InkSplit(s[..k], s[k..]);
      assert s[..k] + s[k..] == s;
      var rest := Tokens(s[k..], d);
      assert ([s[..k]] + rest)[1..] == rest;
    }
  }

  // Parsing creates no argument out of nothing.
  lemma {:induction false} WordsBoundInk(c: Cmd, words: seq<string>)
    ensures ParseWords(c, words).Some? ==> InkOf(ParseWords(c, words).value.args) <= InkOf(c.args) + InkOf(words)
    decreases |words|
  {
    if words == [] || |c.args| >= MAX_ARGS - 1 {
    } else if words[0] == "&" {
      WordsBoundInk(c.(background := true), words[1..]);
    } else if TakesWord(words[0]) {
      if |words| > 1 {
        WordsBoundInk(Redirect(c, words[0], words[1]), words[2..]);
        assert words[1..][1..] == words[2..];
      }
    } else {
      WordsBoundInk(c.(args := c.args + [words[0]]), words[1..]);
      InkOfSplit(c.args, [words[0]]);
      assert [words[0]][1..] == [];
    }
  }

  lemma {:induction false} PiecesBoundInk(done: seq<Cmd>, pieces: seq<string>)
    ensures ParsePieces(done, pieces).Some? ==>
      InkOfAll(ArgsOf(ParsePieces(done, pieces).value)) <= InkOfAll(ArgsOf(done)) + InkOf(pieces)
    decreases |pieces|
  {
    if pieces != [] && |done| < MAX_COMMANDS {
      var words := Tokens(pieces[0], Blanks);
      TokensKeepInk(pieces[0], Blanks);
      WordsBoundInk(BLANK_CMD, words);
      match ParseWords(BLANK_CMD, words)
      case None =>
      case Some(c) =>
        PiecesBoundInk(if c.args == [] then done else done + [c], pieces[1..]);
        assert ArgsOf(done + [c]) == ArgsOf(done) + [c.args];
        InkOfAllAppend(ArgsOf(done), c.args);
    }
  }

  lemma LineBoundsInk(line: string)
    ensures ParseLine(line).Some? ==> InkOfAll(ArgsOf(ParseLine(line).value.commands)) <= Ink(line)
  {
    PiecesBoundInk([], Tokens(line, Bar));
    TokensKeepInk(line, Bar);
  }

  predicate EndsInInk(s: string) {
    s != "" && IsInk(s[|s| - 1])
  }

  lemma InkAtEnd(a: string, b: string)
    requires EndsInInk(b) || (b == "" && EndsInInk(a))
    ensures EndsInInk(a + b)
  {
    if b == "" {
      assert a + b == a;
    } else {
      assert (a + b)[|a + b| - 1] == b[|b| - 1];
    }
  }

  // A rendering has no more ink than its arguments, and ends in some.
  lemma {:induction false} ArgsInk(args: seq<string>, a: nat)
    requires a <= |args| && forall i :: 0 <= i < |args| ==> Printable(args[i])
    ensures Ink(ArgsFrom(args, a)) == InkOf(args[a..])
    ensures a < |args| ==> EndsInInk(ArgsFrom(args, a))
    decreases |args| - a
  {
    if a < |args| {
      ArgsInk(args, a + 1);
      var space, rest := if a > 0 then " " else "", ArgsFrom(args, a + 1);
      InkSplit(space + args[a], rest);
      InkSplit(space, args[a]);
      assert args[a..][1..] == args[a + 1..];
      assert IsInk(args[a][|args[a]| - 1]);
      InkAtEnd(space, args[a]);
      InkAtEnd(space + args[a], rest);
    }
  }

  lemma BarHasNoInk()
    ensures Ink(" | ") == 0
  {
    assert " | "[1..] == "| " && "| "[1..] == " " && " "[1..] == "";
  }

  lemma {:induction false} CommandsInk(cmds: seq<seq<string>>, c: nat)
    requires c <= |cmds| && forall i :: 0 <= i < |cmds| ==> PrintableCommand(cmds[i])
    ensures Ink(CommandsFrom(cmds, c)) == InkOfAll(cmds[c..])
    ensures c < |cmds| ==> EndsInInk(CommandsFrom(cmds, c))
    decreases |cmds| - c
  {
    if c < |cmds| {
      CommandsInk(cmds, c + 1);
      ArgsInk(cmds[c], 0);
      var bar, args, rest := if c > 0 then " | " else "", ArgsFrom(cmds[c], 0), CommandsFrom(cmds, c + 1);
      InkSplit(bar + args, rest);
      InkSplit(bar, args);
      BarHasNoInk();
      assert cmds[c][0..] == cmds[c];
      assert cmds[c..][1..] == cmds[c + 1..];
      InkAtEnd(bar, args);
      InkAtEnd(bar + args, rest);
    }
  }

  // Whatever is cut off such a text, some ink goes with it.
  lemma CutLosesInk(text: string, k: nat)
    requires EndsInInk(text) && k < |text|
    ensures Ink(text[..k]) < Ink(text)
  {
    var n := |text| - 1;
    InkSplit(text[..k], text[k..]);
    assert text[..k] + text[k..] == text;
    InkSplit(text[k..n], [text[n]]);
    assert text[k..n] + [text[n]] == text[k..];
    assert [text[n]][1..] == [];
  }

  lemma CutParsesOtherwise(cmds: seq<seq<string>>, k: nat)
    requires k < |Render(cmds)| && forall i :: 0 <= i < |cmds| ==> PrintableCommand(cmds[i])
    ensures ParseLine(Render(cmds)[..k]) != Some(Line(AllPlain(cmds), false))
  {
    CommandsInk(cmds, 0);
    assert cmds[0..] == cmds;
    CutLosesInk(Render(cmds), k);
    LineBoundsInk(Render(cmds)[..k]);
    assert ArgsOf(AllPlain(cmds)) == cmds;
  }

  /** A label in memory: it is the rendering, cut to size, and it parses back to the pipeline's
      commands and arguments if and only if nothing was cut. */
  lemma LabelParsesExactly(cmds: seq<seq<string>>, b: seq<char>, size: nat)
    requires 0 < size <= |b| && Shows(b, size, Render(cmds)) && NUL !in Render(cmds)
    requires |cmds| <= MAX_COMMANDS && forall i :: 0 <= i < |cmds| ==> PrintableCommand(cmds[i])
    ensures CStr(b, 0) == Render(cmds)[..Min(size - 1, |Render(cmds)|)]
    ensures ParseLine(CStr(b, 0)) == Some(Line(AllPlain(cmds), false)) <==> |Render(cmds)| < size
  {
    var text := Render(cmds);
    var k := Min(size - 1, |text|);
    forall i | 0 <= i < k ensures b[i] != NUL {
      assert b[i] == b[..k][i] == text[i] && text[i] in text;
    }
    CStrIs(b, 0, k);
    assert b[0..k] == b[..k];
    if |text| < size {
      assert text[..k] == text;
      PrintThenParse(cmds);
    } else {
      CutParsesOtherwise(cmds, k);
    }
  }
}
