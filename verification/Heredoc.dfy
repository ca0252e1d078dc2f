/** Here-documents (src/heredoc.c): for each command that has one, the lines that follow on the
    shell's own input are moved into a temporary file, up to a line that equals the delimiter. */
module Heredoc {
  import opened Options
  import opened Strings
  import opened PipelineFds
  import opened Parser

  // ------------------------------------------------------------ lines of input

  // What the loop compares and stores of a line that getline returned: without its newline, and
  // as a C string.
  function TextOf(raw: string): string {
    CStr(if raw != "" && raw[|raw| - 1] == '\n' then raw[..|raw| - 1] else raw, 0)
  }

  predicate EndsWith(seg: seq<string>, delim: string) {
    seg != [] && TextOf(seg[|seg| - 1]) == delim
  }

  /** The lines one here-document takes, when `after` is what remains: up to and with the first line
      equal to the delimiter, or everything there is if there is no such line. */
  predicate Segment(seg: seq<string>, delim: string, after: seq<string>) {
    && (forall i :: 0 <= i < |seg| - 1 ==> TextOf(seg[i]) != delim)
    && (EndsWith(seg, delim) || after == [])
  }

  function Body(seg: seq<string>, delim: string): seq<string> {
    if EndsWith(seg, delim) then seg[..|seg| - 1] else seg
  }

  // The contents of the temporary file.
  function Contents(lines: seq<string>): string {
    if lines == [] then "" else Contents(lines[..|lines| - 1]) + TextOf(lines[|lines| - 1]) + "\n"
  }

  predicate Takes(seg: seq<string>, delim: Option<string>, after: seq<string>) {
    match delim
    case None => seg == []
    case Some(d) => Segment(seg, d, after)
  }

  /** How the input is shared out: in command order, each command takes its lines off the front,
      and `rest` is left for the next prompt. Commands without a here-document take nothing. */
  predicate SplitOf(input: seq<string>, delims: seq<Option<string>>, segs: seq<seq<string>>, rest: seq<string>)
    decreases |delims|
  {
    if delims == [] then segs == [] && input == rest
    else
      && segs != [] && segs[0] <= input
      && Takes(segs[0], delims[0], input[|segs[0]|..])
      && SplitOf(input[|segs[0]|..], delims[1..], segs[1..], rest)
  }

  lemma TakesNoMore(input: seq<string>, seg1: seq<string>, seg2: seq<string>, delim: Option<string>)
    requires seg1 <= input && seg2 <= input
    requires Takes(seg1, delim, input[|seg1|..]) && Takes(seg2, delim, input[|seg2|..])
    ensures |seg1| <= |seg2|
  {
    if delim.Some? {
      assert forall i :: 0 <= i < |seg1| - 1 ==> TextOf(input[i]) != delim.value;
      assert EndsWith(seg2, delim.value) ==> TextOf(input[|seg2| - 1]) == delim.value;
    }
  }

  /** There is only one way to share out the input. */
  lemma {:induction false} SplitIsUnique(input: seq<string>, delims: seq<Option<string>>,
      segs1: seq<seq<string>>, rest1: seq<string>, segs2: seq<seq<string>>, rest2: seq<string>)
    requires SplitOf(input, delims, segs1, rest1) && SplitOf(input, delims, segs2, rest2)
    ensures segs1 == segs2 && rest1 == rest2
    decreases |delims|
  {
    if delims != [] {
      TakesNoMore(input, segs1[0], segs2[0], delims[0]);
      TakesNoMore(input, segs2[0], segs1[0], delims[0]);
      var n := |segs1[0]|;
      assert segs1[0] == input[..n] == segs2[0];
      SplitIsUnique(input[n..], delims[1..], segs1[1..], rest1, segs2[1..], rest2);
      assert segs1 == [segs1[0]] + segs1[1..] && segs2 == [segs2[0]] + segs2[1..];
    }
  }

  // One command more at the front.
  lemma SplitCons(input: seq<string>, delim: Option<string>, seg: seq<string>, delims: seq<Option<string>>,
      segs: seq<seq<string>>, rest: seq<string>)
    requires Takes(seg, delim, input) && SplitOf(input, delims, segs, rest)
    ensures SplitOf(seg + input, [delim] + delims, [seg] + segs, rest)
  {
    assert (seg + input)[|seg|..] == input;
    assert ([delim] + delims)[1..] == delims && ([seg] + segs)[1..] == segs;
  }

  // The next command takes its lines off what was left.
  lemma {:induction false} SplitAppend(input: seq<string>, delims: seq<Option<string>>, segs: seq<seq<string>>, rest: seq<string>,
      delim: Option<string>, seg: seq<string>, rest': seq<string>)
    requires SplitOf(input, delims, segs, rest) && rest == seg + rest' && Takes(seg, delim, rest')
    ensures SplitOf(input, delims + [delim], segs + [seg], rest')
    decreases |delims|
  {
    if delims == [] {
      SplitCons(rest', delim, seg, [], [], rest');
      assert [delim] + [] == delims + [delim] && [seg] + [] == segs + [seg];
    } else {
      var n := |segs[0]|;
      SplitAppend(input[n..], delims[1..], segs[1..], rest, delim, seg, rest');
      SplitCons(input[n..], delims[0], segs[0], delims[1..] + [delim], segs[1..] + [seg], rest');
      assert segs[0] + input[n..] == input;
      assert [delims[0]] + (delims[1..] + [delim]) == delims + [delim];
      assert [segs[0]] + (segs[1..] + [seg]) == segs + [seg];
    }
  }

  // ------------------------------------------------------------ lines as they are typed

  // A line of text: no newline in it, and no NUL.
  predicate IsLine(line: string) {
    forall c :: c in line ==> c != '\n' && c != '\0'
  }

  // As getline returns them.
  function Typed(lines: seq<string>): seq<string> {
    seq(|lines|, i requires 0 <= i < |lines| => lines[i] + "\n")
  }

  function Joined(parts: seq<string>): string {
    if parts == [] then "" else Joined(parts[..|parts| - 1]) + parts[|parts| - 1]
  }

  // The lines of a here-document: any but the delimiter.
  predicate IsBody(lines: seq<string>, delim: string) {
    forall i :: 0 <= i < |lines| ==> IsLine(lines[i]) && lines[i] != delim
  }

  lemma {:induction false} TailString(s: string, p: nat)
    requires '\0' !in s && p <= |s|
    ensures CStr(s, p) == s[p..]
    decreases |s| - p
  {
    if p < |s| {
      assert s[p] in s;
      TailString(s, p + 1);
    }
  }

  lemma WholeString(s: string)
    requires '\0' !in s
    ensures CStr(s, 0) == s
  {
    TailString(s, 0);
    assert s[0..] == s;
  }

  lemma LineText(line: string)
    requires IsLine(line)
    ensures TextOf(line + "\n") == line && TextOf(line) == line
  {
    var raw := line + "\n";
    assert raw[..|raw| - 1] == line;
    WholeString(line);
    assert line != "" ==> line[|line| - 1] in line;
  }

  // One line more at the end.
  lemma TypedStep(lines: seq<string>, last: string)
    ensures Typed(lines + [last]) == Typed(lines) + [last + "\n"]
  {
  }

  lemma JoinedStep(parts: seq<string>, last: string)
    ensures Joined(parts + [last]) == Joined(parts) + last
  {
    var all := parts + [last];
    assert all[..|all| - 1] == parts && all[|all| - 1] == last;
  }

  lemma ContentsStep(seg: seq<string>, raw: string)
    ensures Contents(seg + [raw]) == Contents(seg) + (TextOf(raw) + "\n")
  {
    var all := seg + [raw];
    assert all[..|all| - 1] == seg && all[|all| - 1] == raw;
    assert Contents(seg) + TextOf(raw) + "\n" == Contents(seg) + (TextOf(raw) + "\n");
  }

  lemma {:induction false} ContentsOfTyped(lines: seq<string>)
    requires forall i :: 0 <= i < |lines| ==> IsLine(lines[i])
    ensures Contents(Typed(lines)) == Joined(Typed(lines))
    decreases |lines|
  {
    if lines != [] {
      var init, last := lines[..|lines| - 1], lines[|lines| - 1];
      assert lines == init + [last];
      ContentsOfTyped(init);
      LineText(last);
      TypedStep(init, last);
      ContentsStep(Typed(init), last + "\n");
      JoinedStep(Typed(init), last + "\n");
    }
  }

  lemma BodyIsNoDelimiter(lines: seq<string>, delim: string)
    requires IsBody(lines, delim)
    ensures forall i :: 0 <= i < |lines| ==> TextOf(Typed(lines)[i]) != delim
  {
    forall i | 0 <= i < |lines| ensures TextOf(Typed(lines)[i]) != delim {
      LineText(lines[i]);
    }
  }

  // A segment that is a body and a last line that is the delimiter, with or without its newline.
  lemma ClosedSegment(lines: seq<string>, last: string, delim: string, after: seq<string>)
    requires IsBody(lines, delim) && IsLine(delim) && (last == delim + "\n" || last == delim)
    ensures Segment(Typed(lines) + [last], delim, after) && Contents(Body(Typed(lines) + [last], delim)) == Joined(Typed(lines))
  {
    var seg := Typed(lines) + [last];
    LineText(delim);
    BodyIsNoDelimiter(lines, delim);
    ContentsOfTyped(lines);
    assert seg[..|seg| - 1] == Typed(lines);
  }

  lemma OpenContents(lines: seq<string>, last: string)
    requires (forall i :: 0 <= i < |lines| ==> IsLine(lines[i])) && IsLine(last)
    ensures Contents(Typed(lines) + [last]) == Joined(Typed(lines + [last]))
  {
    LineText(last);
    ContentsOfTyped(lines);
    ContentsStep(Typed(lines), last);
    TypedStep(lines, last);
    JoinedStep(Typed(lines), last + "\n");
  }

  // The input ends before the delimiter comes; the last line may lack its newline, and is stored with one.
  lemma OpenSegment(lines: seq<string>, last: string, delim: string)
    requires IsBody(lines + [last], delim)
    ensures Segment(Typed(lines) + [last], delim, [])
    ensures Contents(Body(Typed(lines) + [last], delim)) == Joined(Typed(lines + [last]))
  {
    var seg, all := Typed(lines) + [last], lines + [last];
    assert forall i :: 0 <= i < |lines| ==> lines[i] == all[i];
    assert all[|lines|] == last;
    BodyIsNoDelimiter(lines, delim);
    LineText(last);
    assert forall i :: 0 <= i < |lines| ==> seg[i] == Typed(lines)[i];
    OpenContents(lines, last);
  }

  lemma OpenWholeSegment(lines: seq<string>, delim: string)
    requires IsBody(lines, delim)
    ensures Segment(Typed(lines), delim, []) && Contents(Body(Typed(lines), delim)) == Joined(Typed(lines))
  {
    BodyIsNoDelimiter(lines, delim);
    ContentsOfTyped(lines);
    assert !EndsWith(Typed(lines), delim);
  }

  // The input is these lines, then the delimiter, then these.
  predicate Closes(input: seq<string>, delim: string, lines: seq<string>, last: string, after: seq<string>) {
    && IsBody(lines, delim) && IsLine(delim) && (last == delim + "\n" || last == delim)
    && input == Typed(lines) + [last] + after
  }

  /** What a here-document takes off an input and keeps, in terms of what was typed: the lines up to
      the first that is the delimiter, newline or not, which is taken too but not kept; or, if there is
      none, all the lines there are, the last of them perhaps without its newline, which it gets. */
  ghost predicate TakesTyped(input: seq<string>, delim: string, rest: seq<string>, text: string) {
    && (forall lines, last, after :: Closes(input, delim, lines, last, after) ==> rest == after && text == Joined(Typed(lines)))
    && (forall lines :: IsBody(lines, delim) && input == Typed(lines) ==> rest == [] && text == Joined(Typed(lines)))
    && (forall lines, last :: IsBody(lines + [last], delim) && input == Typed(lines) + [last] ==>
          rest == [] && text == Joined(Typed(lines + [last])))
  }

  lemma SameSegment(input: seq<string>, seg: seq<string>, rest: seq<string>, other: seq<string>, after: seq<string>, delim: string)
    requires input == seg + rest == other + after && Segment(seg, delim, rest) && Segment(other, delim, after)
    ensures seg == other && rest == after
  {
    assert input[|seg|..] == rest && input[|other|..] == after;
    TakesNoMore(input, seg, other, Some(delim));
    TakesNoMore(input, other, seg, Some(delim));
  }

  /** A segment is what the lines typed say it is. */
  lemma SegmentIsTyped(seg: seq<string>, delim: string, rest: seq<string>)
    requires Segment(seg, delim, rest)
    ensures TakesTyped(seg + rest, delim, rest, Contents(Body(seg, delim)))
  {
    var input := seg + rest;
    forall lines, last, after | Closes(input, delim, lines, last, after)
      ensures rest == after && Contents(Body(seg, delim)) == Joined(Typed(lines))
    {
      ClosedSegment(lines, last, delim, after);
      SameSegment(input, seg, rest, Typed(lines) + [last], after, delim);
    }
    forall lines | IsBody(lines, delim) && input == Typed(lines)
      ensures rest == [] && Contents(Body(seg, delim)) == Joined(Typed(lines))
    {
      OpenWholeSegment(lines, delim);
      SameSegment(input, seg, rest, Typed(lines), [], delim);
    }
    forall lines, last | IsBody(lines + [last], delim) && input == Typed(lines) + [last]
      ensures rest == [] && Contents(Body(seg, delim)) == Joined(Typed(lines + [last]))
    {
      OpenSegment(lines, last, delim);
      SameSegment(input, seg, rest, Typed(lines) + [last], [], delim);
    }
  }

  /** How several here-documents, one for each command that has a delimiter, take their turns. */
  ghost predicate TakeTurns(input: seq<string>, delims: seq<Option<string>>, texts: seq<string>, rest: seq<string>)
    requires |texts| == |delims|
    decreases |delims|
  {
    if delims == [] then input == rest
    else match delims[0]
      case None => TakeTurns(input, delims[1..], texts[1..], rest)
      case Some(d) => exists left :: TakesTyped(input, d, left, texts[0]) && TakeTurns(left, delims[1..], texts[1..], rest)
  }

  // The texts that a sharing out of the input leaves.
  function TextsOf(delims: seq<Option<string>>, segs: seq<seq<string>>): seq<string>
    requires |segs| == |delims|
  {
    seq(|delims|, k requires 0 <= k < |delims| => if delims[k].Some? then Contents(Body(segs[k], delims[k].value)) else "")
  }

  lemma {:induction false} SplitTakesTurns(input: seq<string>, delims: seq<Option<string>>, segs: seq<seq<string>>, rest: seq<string>)
    requires SplitOf(input, delims, segs, rest) && |segs| == |delims|
    ensures TakeTurns(input, delims, TextsOf(delims, segs), rest)
    decreases |delims|
  {
    if delims != [] {
      var left := input[|segs[0]|..];
      assert input == segs[0] + left;
      SplitTakesTurns(left, delims[1..], segs[1..], rest);
      assert TextsOf(delims, segs)[1..] == TextsOf(delims[1..], segs[1..]);
      if delims[0].Some? {
        SegmentIsTyped(segs[0], delims[0].value, left);
      } else {
        assert left == input;
      }
    }
  }

  // ------------------------------------------------------------ the world outside

  // The shell's standard input: the lines getline has still to return.
  class Input {
    var rest: seq<string>

    constructor (lines: seq<string>)
      ensures rest == lines
    {
      rest := lines;
    }

    method GetLine() returns (line: Option<string>)
      modifies this
      ensures line.None? <==> old(rest) == []
      ensures line.None? ==> rest == []
      ensures line.Some? ==> old(rest) == [line.value] + rest
    {
      if rest == [] {
        return None;
      }
      line := Some(rest[0]);
      rest := rest[1..];
    }
  }

  // The temporary files, each unlinked as soon as it exists, so known by descriptor only.
  class Disk {
    var files: map<int, string>
    var next: int
    var refused: nat   // calls of mkstemp that failed
    var errors: nat    // calls of write that failed

    ghost predicate Valid()
      reads this
    {
      forall id :: id in files ==> id < next
    }

    constructor ()
      ensures Valid()
    {
      files, next, refused, errors := map[], 0, 0, 0;
    }

    method Create() returns (id: int)
      requires Valid()
      modifies this`files, this`next
      ensures Valid() && id !in old(files) && files == old(files)[id := ""]
    {
      id := next;
      files, next := files[id := ""], next + 1;
    }

    // write: all of the text, or an error.
    method Write(id: int, text: string) returns (ok: bool)
      requires Valid() && id in files
      modifies this`files, this`errors
      ensures errors == old(errors) + if ok then 0 else 1
      ensures Valid() && files == if ok then old(files)[id := old(files)[id] + text] else old(files)
    {
      if * {
        errors := errors + 1;
        return false;
      }
      files := files[id := files[id] + text];
      ok := true;
    }
  }

  // ------------------------------------------------------------ collecting

  // A new temporary file, open in the shell and close-on-exec; -1 if none can be made.
  method Mkstemp(shell: Process, disk: Disk) returns (fd: int, id: int)
    requires disk.Valid() && StdOpen(shell.fds)
    modifies shell, disk
    ensures disk.Valid() && fd >= -1
    ensures disk.errors == old(disk.errors) && disk.refused == old(disk.refused) + if fd == -1 then 1 else 0
    ensures fd == -1 ==> shell.fds == old(shell.fds) && disk.files == old(disk.files)
    ensures fd >= 0 ==> fd > STDERR && fd !in old(shell.fds) && shell.fds == old(shell.fds)[fd := Entry(Plain(id), true)]
    ensures fd >= 0 ==> id !in old(disk.files) && disk.files == old(disk.files)[id := ""]
  {
    if * {
      disk.refused := disk.refused + 1;
      return -1, 0;
    }
    id := disk.Create();
    fd := shell.Open(Plain(id), false);
    shell.SetCloexec(fd);
  }

  // write(fd, line) and write(fd, "\n")
  method WriteLine(disk: Disk, id: int, text: string) returns (ok: bool)
    requires disk.Valid() && id in disk.files
    modifies disk
    ensures disk.Valid() && id in disk.files && disk.files == old(disk.files)[id := disk.files[id]]
    ensures ok ==> disk.files[id] == old(disk.files[id]) + text + "\n"
    ensures disk.refused == old(disk.refused) && disk.errors >= old(disk.errors) && (ok <==> disk.errors == old(disk.errors))
  {
    ok := disk.Write(id, text);
    if ok {
      ok := disk.Write(id, "\n");
    }
  }

  predicate NoneIs(seg: seq<string>, delim: string) {
    forall i :: 0 <= i < |seg| ==> TextOf(seg[i]) != delim
  }

  lemma OneLineMore(seg: seq<string>, raw: string, delim: string, rest: seq<string>)
    requires NoneIs(seg, delim)
    ensures Contents(seg + [raw]) == Contents(seg) + TextOf(raw) + "\n"
    ensures if TextOf(raw) == delim then Segment(seg + [raw], delim, rest) && Body(seg + [raw], delim) == seg else NoneIs(seg + [raw], delim)
  {
    var more := seg + [raw];
    assert more[..|more| - 1] == seg && more[|more| - 1] == raw;
    assert forall i :: 0 <= i < |seg| ==> more[i] == seg[i];
  }

  lemma Reassociate(seg: seq<string>, raw: string, rest: seq<string>)
    ensures seg + ([raw] + rest) == (seg + [raw]) + rest
  {
  }

  // What has been read and stored so far, no line of it being the delimiter.
  ghost predicate Reading(input: Input, disk: Disk, files: map<int, string>, all: seq<string>, id: int, delim: string, seg: seq<string>)
    reads input, disk
  {
    && disk.Valid() && id in disk.files && disk.files == files[id := Contents(seg)]
    && all == seg + input.rest && NoneIs(seg, delim)
  }

  // One turn of the loop; `more` tells whether it goes on.
  method ReadLine(input: Input, disk: Disk, id: int, delim: string, ghost files: map<int, string>,
      ghost all: seq<string>, ghost seg: seq<string>)
    returns (more: bool, ghost good: bool, ghost seg': seq<string>)
    requires Reading(input, disk, files, all, id, delim, seg)
    modifies input, disk
    ensures disk.Valid() && id in disk.files && disk.files == files[id := disk.files[id]] && all == seg' + input.rest
    ensures disk.refused == old(disk.refused) && disk.errors >= old(disk.errors) && (good <==> disk.errors == old(disk.errors))
    ensures more ==> good && Reading(input, disk, files, all, id, delim, seg') && |input.rest| < |old(input.rest)|
    ensures !more && good ==> Segment(seg', delim, input.rest) && disk.files[id] == Contents(Body(seg', delim))
  {
    more, good, seg' := false, true, seg;
    var raw := input.GetLine();
    if raw.None? {
      return;
    }
    OneLineMore(seg, raw.value, delim, input.rest);
    Reassociate(seg, raw.value, input.rest);
    seg' := seg + [raw.value];
    var line := TextOf(raw.value);
    if line != delim {
      more := WriteLine(disk, id, line);
      good := more;
    }
  }

  /** The loop of read_one_heredoc: it takes exactly one segment off the input, and the file holds
      its body, provided every write succeeded. */
  method ReadBody(input: Input, disk: Disk, id: int, delim: string) returns (ghost good: bool, ghost seg: seq<string>)
    requires disk.Valid() && id in disk.files && disk.files[id] == ""
    modifies input, disk
    ensures disk.Valid() && id in disk.files && disk.files == old(disk.files)[id := disk.files[id]]
    ensures disk.refused == old(disk.refused) && disk.errors >= old(disk.errors) && (good <==> disk.errors == old(disk.errors))
    ensures old(input.rest) == seg + input.rest
    ensures good ==> Segment(seg, delim, input.rest) && disk.files[id] == Contents(Body(seg, delim))
    ensures good ==> TakesTyped(old(input.rest), delim, input.rest, disk.files[id])
  {
    ghost var files, all := disk.files, input.rest;
    var more := true;
    good, seg := true, [];
    assert files == files[id := Contents([])] && all == [] + input.rest;
    while more
      invariant disk.Valid() && id in disk.files && disk.files == files[id := disk.files[id]] && all == seg + input.rest
      invariant disk.refused == old(disk.refused) && disk.errors >= old(disk.errors) && (good <==> disk.errors == old(disk.errors))
      invariant more ==> good && Reading(input, disk, files, all, id, delim, seg)
      invariant !more && good ==> Segment(seg, delim, input.rest) && disk.files[id] == Contents(Body(seg, delim))
      decreases more, |input.rest|
    {
      more, good, seg := ReadLine(input, disk, id, delim, files, all, seg);
    }
    if good {
      SegmentIsTyped(seg, delim, input.rest);
    }
  }

  // A file of the disk, open in the shell under this descriptor, with this content.
  ghost predicate Stashed(fds: Fds, files: map<int, string>, fd: int, text: string) {
    fd > STDERR && fd in fds && fds[fd].cloexec && fds[fd].file.Plain? && fds[fd].file.id in files && files[fds[fd].file.id] == text
  }

  /** read_one_heredoc */
  method ReadOne(input: Input, shell: Process, disk: Disk, delim: string) returns (fd: int, ghost good: bool, ghost seg: seq<string>)
    requires disk.Valid() && StdOpen(shell.fds)
    modifies input, shell, disk
    ensures disk.Valid() && fd >= -1 && old(input.rest) == seg + input.rest
    ensures disk.refused == old(disk.refused) + if fd == -1 then 1 else 0
    ensures disk.errors >= old(disk.errors) && (good <==> disk.errors == old(disk.errors))
    ensures fd == -1 ==> seg == [] && shell.fds == old(shell.fds) && disk.files == old(disk.files)
    ensures fd >= 0 ==> fd !in old(shell.fds) && fd in shell.fds && shell.fds == old(shell.fds)[fd := shell.fds[fd]]
    ensures fd >= 0 && good ==> Segment(seg, delim, input.rest) && Stashed(shell.fds, disk.files, fd, Contents(Body(seg, delim)))
    ensures fd >= 0 && good ==> TakesTyped(old(input.rest), delim, input.rest, disk.files[shell.fds[fd].file.id])
    ensures forall id :: id in old(disk.files) ==> id in disk.files && disk.files[id] == old(disk.files[id])
  {
    var id;
    fd, id := Mkstemp(shell, disk);
    if fd < 0 {
      good, seg := true, [];
      return;
    }
    good, seg := ReadBody(input, disk, id, delim);
  }

  function Delims(cmds: seq<Command>, b: seq<char>): seq<Option<string>> {
    seq(|cmds|, k requires 0 <= k < |cmds| => Str(b, cmds[k].heredocDelim))
  }

  function FdsOf(cmds: seq<Command>): set<nat> {
    set k | 0 <= k < |cmds| && cmds[k].heredocFd >= 0 :: cmds[k].heredocFd as nat
  }

  // Commands that differ in their here-document's descriptor only.
  predicate SameButFd(c: Command, c': Command) {
    c' == c.(heredocFd := c'.heredocFd)
  }

  /** The shell has exactly the commands' files open besides what it had, all under different
      descriptors. */
  ghost predicate Opened(was: seq<Command>, cmds: seq<Command>, before: Fds, fds: Fds) {
    && |cmds| == |was| && (forall k :: 0 <= k < |was| ==> SameButFd(was[k], cmds[k]))
    && (forall k, l :: 0 <= k < l < |cmds| && cmds[k].heredocFd >= 0 ==> cmds[k].heredocFd != cmds[l].heredocFd)
    && FdsOf(cmds) !! before.Keys && fds - FdsOf(cmds) == before && FdsOf(cmds) <= fds.Keys
  }

  ghost predicate Stash(c: Command, delim: Option<string>, seg: seq<string>, fds: Fds, files: map<int, string>) {
    match delim
    case None => c.heredocFd == -1
    case Some(d) => Stashed(fds, files, c.heredocFd, Contents(Body(seg, d)))
  }

  // Each command with a here-document has a file with its body, and no other has any.
  ghost predicate AllStashed(cmds: seq<Command>, delims: seq<Option<string>>, segs: seq<seq<string>>, fds: Fds, files: map<int, string>) {
    && |delims| == |segs| <= |cmds|
    && (forall k :: 0 <= k < |delims| ==> Stash(cmds[k], delims[k], segs[k], fds, files))
  }

  lemma FdsOfUpdate(cmds: seq<Command>, c: nat, fd: nat)
    requires c < |cmds| && cmds[c].heredocFd == -1
    ensures FdsOf(cmds[c := cmds[c].(heredocFd := fd)]) == FdsOf(cmds) + {fd}
  {
    var next := cmds[c := cmds[c].(heredocFd := fd)];
    assert next[c].heredocFd as nat == fd;
    forall x | x in FdsOf(cmds) ensures x in FdsOf(next) {
      var k :| 0 <= k < |cmds| && cmds[k].heredocFd >= 0 && cmds[k].heredocFd == x;
      assert next[k] == cmds[k];
    }
  }

  lemma OpenedOneMore(was: seq<Command>, cmds: seq<Command>, before: Fds, fds: Fds, c: nat, fd: nat, entry: Entry)
    requires Opened(was, cmds, before, fds) && c < |cmds| && cmds[c].heredocFd == -1 && fd !in fds
    ensures Opened(was, cmds[c := cmds[c].(heredocFd := fd)], before, fds[fd := entry])
  {
    FdsOfUpdate(cmds, c, fd);
    forall k | 0 <= k < |cmds| && cmds[k].heredocFd >= 0 ensures cmds[k].heredocFd != fd {
      assert cmds[k].heredocFd as nat in FdsOf(cmds);
    }
    assert fds[fd := entry] - (FdsOf(cmds) + {fd}) == fds - FdsOf(cmds);
  }

  lemma StashedOneMore(cmds: seq<Command>, delims: seq<Option<string>>, segs: seq<seq<string>>, fds: Fds, files: map<int, string>,
      delim: Option<string>, seg: seq<string>, cmds': seq<Command>, fds': Fds, files': map<int, string>)
    requires AllStashed(cmds, delims, segs, fds, files) && |delims| < |cmds| == |cmds'|
    requires forall k :: 0 <= k < |cmds| && k != |delims| ==> cmds'[k] == cmds[k]
    requires forall fd :: fd in fds ==> fd in fds' && fds'[fd] == fds[fd]
    requires forall id :: id in files ==> id in files' && files'[id] == files[id]
    requires Stash(cmds'[|delims|], delim, seg, fds', files')
    ensures AllStashed(cmds', delims + [delim], segs + [seg], fds', files')
  {
    forall k | 0 <= k <= |delims| ensures Stash(cmds'[k], (delims + [delim])[k], (segs + [seg])[k], fds', files') {
      if k < |delims| {
        assert Stash(cmds[k], delims[k], segs[k], fds, files);
      }
    }
  }

  /** What has been collected for the first |segs| commands: the input is shared out between them,
      and each body is in its file. */
  ghost predicate Collected(input: seq<string>, delims: seq<Option<string>>, segs: seq<seq<string>>,
      rest: seq<string>, cmds: seq<Command>, fds: Fds, files: map<int, string>) {
    && |segs| <= |delims|
    && SplitOf(input, delims[..|segs|], segs, rest)
    && AllStashed(cmds, delims[..|segs|], segs, fds, files)
  }

  lemma CollectedOneMore(input: seq<string>, delims: seq<Option<string>>, segs: seq<seq<string>>, rest: seq<string>,
      cmds: seq<Command>, fds: Fds, files: map<int, string>,
      seg: seq<string>, rest': seq<string>, cmds': seq<Command>, fds': Fds, files': map<int, string>)
    requires Collected(input, delims, segs, rest, cmds, fds, files) && |segs| < |delims| == |cmds| == |cmds'|
    requires rest == seg + rest' && Takes(seg, delims[|segs|], rest')
    requires forall k :: 0 <= k < |cmds| && k != |segs| ==> cmds'[k] == cmds[k]
    requires forall fd :: fd in fds ==> fd in fds' && fds'[fd] == fds[fd]
    requires forall id :: id in files ==> id in files' && files'[id] == files[id]
    requires Stash(cmds'[|segs|], delims[|segs|], seg, fds', files')
    ensures Collected(input, delims, segs + [seg], rest', cmds', fds', files')
  {
    var n := |segs|;
    SplitAppend(input, delims[..n], segs, rest, delims[n], seg, rest');
    StashedOneMore(cmds, delims[..n], segs, fds, files, delims[n], seg, cmds', fds', files');
    assert delims[..n + 1] == delims[..n] + [delims[n]];
  }

  /** One command's turn of collect_heredocs. */
  method CollectOne(input: Input, shell: Process, disk: Disk, c: Command, buf: array<char>)
    returns (r: Command, ok: bool, ghost good: bool, ghost seg: seq<string>)
    requires disk.Valid() && StdOpen(shell.fds) && c.heredocFd == -1
    modifies input, shell, disk
    ensures disk.Valid() && StdOpen(shell.fds) && SameButFd(c, r) && old(input.rest) == seg + input.rest
    ensures disk.refused == old(disk.refused) + if ok then 0 else 1
    ensures disk.errors >= old(disk.errors) && (good <==> disk.errors == old(disk.errors))
    ensures r.heredocFd == -1 ==> shell.fds == old(shell.fds)
    ensures r.heredocFd != -1 ==> r.heredocFd >= 0 && r.heredocFd !in old(shell.fds) && r.heredocFd in shell.fds
    ensures r.heredocFd != -1 ==> shell.fds == old(shell.fds)[r.heredocFd := shell.fds[r.heredocFd]]
    ensures ok && good ==> Takes(seg, Str(buf[..], c.heredocDelim), input.rest)
    ensures ok && good ==> Stash(r, Str(buf[..], c.heredocDelim), seg, shell.fds, disk.files)
    ensures !ok ==> seg == [] && r == c && disk.files == old(disk.files) && c.heredocDelim.Some?
    ensures forall id :: id in old(disk.files) ==> id in disk.files && disk.files[id] == old(disk.files[id])
  {
    r := c;
    if c.heredocDelim.None? {
      ok, good, seg := true, true, [];
      return;
    }
    var fd;
    fd, good, seg := ReadOne(input, shell, disk, CStr(buf[..], c.heredocDelim.value));
    if fd < 0 {
      return c, false, good, [];
    }
    ok, r := true, c.(heredocFd := fd);
  }

  // The state of the loop of collect_heredocs after the first |segs| commands.
  ghost predicate Collecting(input: Input, shell: Process, disk: Disk, was: seq<Command>, cmds: seq<Command>,
      before: Fds, all: seq<string>, delims: seq<Option<string>>, good: bool, segs: seq<seq<string>>)
    reads input, shell, disk
  {
    && disk.Valid() && StdOpen(shell.fds) && |segs| <= |was| == |delims|
    && Opened(was, cmds, before, shell.fds)
    && (forall k :: |segs| <= k < |was| ==> cmds[k] == was[k])
    && (good ==> Collected(all, delims, segs, input.rest, cmds, shell.fds, disk.files))
  }

  lemma CollectingOneMore(was: seq<Command>, cmds: seq<Command>, before: Fds, fds: Fds, fds': Fds, c: nat, r: Command)
    requires Opened(was, cmds, before, fds) && c < |cmds| && cmds[c].heredocFd == -1 && SameButFd(cmds[c], r)
    requires r.heredocFd == -1 ==> fds' == fds
    requires r.heredocFd != -1 ==> r.heredocFd >= 0 && r.heredocFd !in fds && r.heredocFd in fds' && fds' == fds[r.heredocFd := fds'[r.heredocFd]]
    ensures Opened(was, cmds[c := r], before, fds')
  {
    if r.heredocFd == -1 {
      assert cmds[c := r] == cmds;
    } else {
      OpenedOneMore(was, cmds, before, fds, c, r.heredocFd, fds'[r.heredocFd]);
    }
  }

  lemma CollectedNext(input: seq<string>, delims: seq<Option<string>>, segs: seq<seq<string>>, rest: seq<string>,
      cmds: seq<Command>, fds: Fds, files: map<int, string>,
      seg: seq<string>, rest': seq<string>, cmds': seq<Command>, fds': Fds, files': map<int, string>, ok: bool)
    requires Collected(input, delims, segs, rest, cmds, fds, files) && |segs| < |delims| == |cmds| == |cmds'|
    requires rest == seg + rest'
    requires forall k :: 0 <= k < |cmds| && k != |segs| ==> cmds'[k] == cmds[k]
    requires forall fd :: fd in fds ==> fd in fds' && fds'[fd] == fds[fd]
    requires forall id :: id in files ==> id in files' && files'[id] == files[id]
    requires ok ==> Takes(seg, delims[|segs|], rest') && Stash(cmds'[|segs|], delims[|segs|], seg, fds', files')
    requires !ok ==> seg == [] && cmds'[|segs|] == cmds[|segs|] && fds' == fds && files' == files
    ensures Collected(input, delims, if ok then segs + [seg] else segs, rest', cmds', fds', files')
  {
    if ok {
      CollectedOneMore(input, delims, segs, rest, cmds, fds, files, seg, rest', cmds', fds', files');
    } else {
      assert cmds' == cmds && rest' == rest;
    }
  }

  method CollectNext(input: Input, shell: Process, disk: Disk, commands: array<Command>, c: nat, buf: array<char>,
      ghost n: nat, ghost was: seq<Command>, ghost before: Fds, ghost all: seq<string>, ghost good: bool, ghost segs: seq<seq<string>>)
    returns (ok: bool, ghost good': bool, ghost segs': seq<seq<string>>)
    requires c == |segs| < n == |was| <= commands.Length && was[c].heredocFd == -1
    requires Collecting(input, shell, disk, was, commands[..n], before, all, Delims(was, buf[..]), good, segs)
    modifies input, shell, disk, commands
    ensures Collecting(input, shell, disk, was, commands[..n], before, all, Delims(was, buf[..]), good', segs')
    ensures commands[n..] == old(commands[n..]) && |segs'| == if ok then c + 1 else c
    ensures !ok ==> was[c].heredocDelim.Some?
    ensures disk.refused == old(disk.refused) + if ok then 0 else 1
    ensures disk.errors >= old(disk.errors) && (good' <==> good && disk.errors == old(disk.errors))
  {
    ghost var cmds, fds, files, rest := commands[..n], shell.fds, disk.files, input.rest;
    var next;
    ghost var fine, seg;
    next, ok, fine, seg := CollectOne(input, shell, disk, commands[c], buf);
    good' := good && fine;
    segs' := if ok then segs + [seg] else segs;
    CollectingOneMore(was, cmds, before, fds, shell.fds, c, next);
    if good' {
      CollectedNext(all, Delims(was, buf[..]), segs, rest, cmds, fds, files, seg, input.rest, cmds[c := next], shell.fds, disk.files, ok);
    }
    commands[c] := next;
    assert commands[..n] == cmds[c := next];
  }

  // What each command will read from its here-document.
  ghost function Readings(cmds: seq<Command>, fds: Fds, files: map<int, string>): seq<string> {
    seq(|cmds|, k requires 0 <= k < |cmds| =>
      if cmds[k].heredocFd >= 0 && cmds[k].heredocFd in fds && fds[cmds[k].heredocFd].file.Plain? && fds[cmds[k].heredocFd].file.id in files
      then files[fds[cmds[k].heredocFd].file.id] else "")
  }

  lemma CollectedTakesTurns(input: seq<string>, delims: seq<Option<string>>, segs: seq<seq<string>>, rest: seq<string>,
      cmds: seq<Command>, fds: Fds, files: map<int, string>)
    requires Collected(input, delims, segs, rest, cmds, fds, files) && |segs| == |delims| == |cmds|
    ensures TakeTurns(input, delims, Readings(cmds, fds, files), rest)
  {
    assert delims[..|segs|] == delims;
    SplitTakesTurns(input, delims, segs, rest);
    forall k | 0 <= k < |cmds| ensures Readings(cmds, fds, files)[k] == TextsOf(delims, segs)[k] {
      assert Stash(cmds[k], delims[k], segs[k], fds, files);
    }
    assert Readings(cmds, fds, files) == TextsOf(delims, segs);
  }

  /** collect_heredocs. If every temporary file can be made and written, the input is shared out
      exactly, delimiter by delimiter in command order; if a file cannot be made, this is so of the
      commands before. Whatever happens, the shell has open just what the commands say besides
      what it had. */
  method CollectHeredocs(input: Input, shell: Process, disk: Disk, commands: array<Command>, n: nat, buf: array<char>)
    returns (r: int, ghost good: bool, ghost segs: seq<seq<string>>)
    requires disk.Valid() && StdOpen(shell.fds) && n <= commands.Length
    requires forall k :: 0 <= k < n ==> commands[k].heredocFd == -1
    modifies input, shell, disk, commands
    ensures Opened(old(commands[..n]), commands[..n], old(shell.fds), shell.fds) && commands[n..] == old(commands[n..])
    ensures disk.refused == old(disk.refused) + if r == 0 then 0 else 1
    ensures disk.errors >= old(disk.errors) && (good <==> disk.errors == old(disk.errors))
    ensures if r == 0 then |segs| == n else r == -1 && |segs| < n && old(commands[..n])[|segs|].heredocDelim.Some?
    ensures good ==> Collected(old(input.rest), Delims(old(commands[..n]), buf[..]), segs, input.rest, commands[..n], shell.fds, disk.files)
    ensures r == 0 && good ==>
      TakeTurns(old(input.rest), Delims(old(commands[..n]), buf[..]), Readings(commands[..n], shell.fds, disk.files), input.rest)
  {
    ghost var was, before, all := commands[..n], shell.fds, input.rest;
    good, segs := true, [];
    assert FdsOf(was) == {};
    for c := 0 to n
      invariant |segs| == c && commands[n..] == old(commands[n..]) && disk.refused == old(disk.refused)
      invariant disk.errors >= old(disk.errors) && (good <==> disk.errors == old(disk.errors))
      invariant Collecting(input, shell, disk, was, commands[..n], before, all, Delims(was, buf[..]), good, segs)
    {
      var ok;
      ok, good, segs := CollectNext(input, shell, disk, commands, c, buf, n, was, before, all, good, segs);
      if !ok {
        return -1, good, segs;
      }
    }
    r := 0;
    if good {
      CollectedTakesTurns(all, Delims(was, buf[..]), segs, input.rest, commands[..n], shell.fds, disk.files);
    }
  }

  lemma OpenedOneLess(was: seq<Command>, cmds: seq<Command>, before: Fds, fds: Fds, c: nat)
    requires Opened(was, cmds, before, fds) && c < |cmds| && cmds[c].heredocFd >= 0
    ensures Opened(was, cmds[c := cmds[c].(heredocFd := -1)], before, fds - {cmds[c].heredocFd as nat})
  {
    var fd := cmds[c].heredocFd as nat;
    var next := cmds[c := cmds[c].(heredocFd := -1)];
    assert fd in FdsOf(cmds);
    assert FdsOf(next) == FdsOf(cmds) - {fd} by {
      forall x | x in FdsOf(cmds) && x != fd ensures x in FdsOf(next) {
        var k :| 0 <= k < |cmds| && cmds[k].heredocFd >= 0 && cmds[k].heredocFd == x;
        assert next[k] == cmds[k];
      }
    }
    assert (fds - {fd}) - FdsOf(next) == fds - FdsOf(cmds);
  }

  /** close_heredocs: the shell is left with the descriptors it had before collecting, even if
      collecting gave up half-way. */
  method CloseHeredocs(shell: Process, commands: array<Command>, n: nat, ghost was: seq<Command>, ghost before: Fds)
    requires n <= commands.Length && Opened(was, commands[..n], before, shell.fds)
    modifies shell, commands
    ensures shell.fds == before && FdsOf(commands[..n]) == {}
    ensures forall k :: 0 <= k < n ==> SameButFd(was[k], commands[k])
  {
    assert FdsOf(commands[..0]) == {};
    for c := 0 to n
      invariant Opened(was, commands[..n], before, shell.fds)
      invariant forall k :: 0 <= k < c ==> commands[k].heredocFd < 0
    {
      if commands[c].heredocFd >= 0 {
        ghost var cmds, fds := commands[..n], shell.fds;
        OpenedOneLess(was, cmds, before, fds, c);
        shell.Close(commands[c].heredocFd);
        commands[c] := commands[c].(heredocFd := -1);
        assert commands[..n] == cmds[c := commands[c]];
      }
    }
    assert FdsOf(commands[..n]) == {};
  }
}
