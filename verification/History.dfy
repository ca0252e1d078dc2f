/** The command history (src/history.c): a ring of 1000 slots that behaves like the tail of an
    ever-growing log. */
module History {
  import opened Options
  import opened Strings
  import opened Heap

  const CAPACITY: nat := 1000

  // ------------------------------------------------------------ lines

  // isspace in the C locale
  predicate IsSpace(c: char) {
    c == ' ' || c == '\t' || c == '\n' || c == '\r' || c == 0x0B as char || c == 0x0C as char
  }

  predicate Blank(s: string) {
    forall i :: 0 <= i < |s| ==> IsSpace(s[i])
  }

  function Trimmed(s: string): string {
    if s == "" || !IsSpace(s[|s| - 1]) then s else Trimmed(s[..|s| - 1])
  }

  lemma {:induction false} TrimmedPrefix(s: string)
    ensures var t := Trimmed(s);
      && |t| <= |s| && t == s[..|t|] && (t != "" ==> !IsSpace(t[|t| - 1]))
      && forall i :: |t| <= i < |s| ==> IsSpace(s[i])
  {
    if s != "" && IsSpace(s[|s| - 1]) {
      var init := s[..|s| - 1];
      TrimmedPrefix(init);
      assert forall i :: 0 <= i < |init| ==> init[i] == s[i];
    } else {
      assert s[..|s|] == s;
    }
  }

  lemma BlankFrom(s: string, k: nat)
    requires k <= |s|
    ensures Blank(s[k..]) <==> forall i :: k <= i < |s| ==> IsSpace(s[i])
  {
    var rest := s[k..];
    if Blank(rest) {
      forall i | k <= i < |s| ensures IsSpace(s[i]) {
        assert rest[i - k] == s[i];
      }
    }
  }

  /** The trimmed line is the one prefix that ends in a character that is no space and leaves only
      spaces behind. */
  lemma TrimmedIs(s: string, t: string)
    requires !Blank(s)
    ensures t == Trimmed(s) <==>
      (0 < |t| <= |s| && t == s[..|t|] && t[|t| - 1] !in {' ', '\t', '\n', '\r', 0x0B as char, 0x0C as char} && Blank(s[|t|..]))
  {
    var u := Trimmed(s);
    TrimmedPrefix(s);
    assert u != "";
    assert u[|u| - 1] == s[|u| - 1];
    BlankFrom(s, |u|);
    if 0 < |t| <= |s| {
      BlankFrom(s, |t|);
      assert t == s[..|t|] ==> t[|t| - 1] == s[|t| - 1];
    }
  }

  /** Spaces are the six characters of the C locale; a line is blank that has only such. */
  lemma BlankIs(s: string)
    ensures Blank(s) <==> forall c :: c in s ==> c in {' ', '\t', '\n', '\r', 0x0B as char, 0x0C as char}
  {
    if Blank(s) {
      forall c | c in s ensures IsSpace(c) {
        var i :| 0 <= i < |s| && s[i] == c;
      }
    } else {
      var i :| 0 <= i < |s| && !IsSpace(s[i]);
      assert s[i] in s;
    }
  }

  // What the log holds after these lines were entered.
  function Logged(lines: seq<string>): seq<string> {
    if lines == [] then [] else
    var last := lines[|lines| - 1];
    Logged(lines[..|lines| - 1]) + if Blank(last) then [] else [Trimmed(last)]
  }

  function NonBlank(lines: seq<string>): nat {
    if lines == [] then 0 else NonBlank(lines[..|lines| - 1]) + if Blank(lines[|lines| - 1]) then 0 else 1
  }

  datatype Shown = Shown(number: nat, text: string)

  // The last `CAPACITY` entries of the log, each with its 1-based position in the whole log.
  function Listing(log: seq<string>): seq<Shown> {
    var n := Min(CAPACITY, |log|);
    seq(n, i requires 0 <= i < n => Shown(|log| - n + i + 1, log[|log| - n + i]))
  }

  lemma LoggedStep(lines: seq<string>, last: string)
    ensures Logged(lines + [last]) == Logged(lines) + (if Blank(last) then [] else [Trimmed(last)])
    ensures NonBlank(lines + [last]) == NonBlank(lines) + (if Blank(last) then 0 else 1)
  {
    var all := lines + [last];
    assert all[..|all| - 1] == lines && all[|all| - 1] == last;
  }

  lemma {:induction false} LoggedSplit(a: seq<string>, b: seq<string>)
    ensures Logged(a + b) == Logged(a) + Logged(b)
    ensures NonBlank(a + b) == NonBlank(a) + NonBlank(b)
    decreases |b|
  {
    if b == [] {
      assert a + b == a;
    } else {
      var init, last := b[..|b| - 1], b[|b| - 1];
      assert b == init + [last] && a + b == (a + init) + [last];
      LoggedSplit(a, init);
      LoggedStep(a + init, last);
      LoggedStep(init, last);
      var more := if Blank(last) then [] else [Trimmed(last)];
      assert Logged(a) + (Logged(init) + more) == (Logged(a) + Logged(init)) + more;
    }
  }

  lemma {:induction false} LoggedLength(lines: seq<string>)
    ensures |Logged(lines)| == NonBlank(lines)
    decreases |lines|
  {
    if lines != [] {
      LoggedLength(lines[..|lines| - 1]);
    }
  }

  lemma LoggedAt(lines: seq<string>, j: nat)
    requires j < |lines| && !Blank(lines[j])
    ensures |Logged(lines)| == NonBlank(lines[..j]) + 1 + NonBlank(lines[j + 1..])
    ensures Logged(lines)[NonBlank(lines[..j])] == Trimmed(lines[j])
  {
    var before, line, after := lines[..j], [lines[j]], lines[j + 1..];
    assert lines == (before + line) + after;
    LoggedSplit(before + line, after);
    LoggedSplit(before, line);
    LoggedLength(before);
    LoggedLength(after);
    assert line[..0] == [];
  }

  lemma ListingAt(log: seq<string>, k: nat)
    requires k < |log|
    ensures Shown(k + 1, log[k]) in Listing(log) <==> |log| - CAPACITY <= k
    ensures forall s :: s in Listing(log) && s.number == k + 1 ==> s.text == log[k]
  {
    var n := Min(CAPACITY, |log|);
    if |log| - n <= k {
      assert Listing(log)[k - (|log| - n)] == Shown(k + 1, log[k]);
    }
  }

  /** A line that is not blank is listed, trimmed, under one more than the number of such lines
      before it, exactly if fewer than 1000 of them came after it; and nothing else is ever listed
      under that number. */
  lemma ShownIffRecent(lines: seq<string>, j: nat)
    requires j < |lines| && !Blank(lines[j])
    ensures Shown(NonBlank(lines[..j]) + 1, Trimmed(lines[j])) in Listing(Logged(lines)) <==> NonBlank(lines[j + 1..]) < 1000
    ensures forall s :: s in Listing(Logged(lines)) && s.number == NonBlank(lines[..j]) + 1 ==> s.text == Trimmed(lines[j])
    ensures forall a, b :: 0 <= a < b < |Listing(Logged(lines))| ==> Listing(Logged(lines))[a].number < Listing(Logged(lines))[b].number
  {
    LoggedAt(lines, j);
    ListingAt(Logged(lines), NonBlank(lines[..j]));
  }

  // ------------------------------------------------------------ the ring

  // Where in a log of n entries the entry in slot j stands.
  function Position(j: nat, n: nat): int {
    if j < n % CAPACITY then n - n % CAPACITY + j else n - n % CAPACITY + j - CAPACITY
  }

  // The slot j holds its entry of the log, in a live block, or nothing yet.
  ghost predicate SlotHolds(slot: Option<nat>, live: map<nat, string>, j: nat, log: seq<string>) {
    var p := Position(j, |log|);
    if 0 <= p < |log| then slot.Some? && slot.value in live && live[slot.value] == log[p] else slot.None?
  }

  function BlocksOf(slots: seq<Option<nat>>): set<nat> {
    set j | 0 <= j < |slots| && slots[j].Some? :: slots[j].value
  }

  ghost predicate Distinct(slots: seq<Option<nat>>) {
    forall j, k :: 0 <= j < k < |slots| && slots[j].Some? && slots[k].Some? ==> slots[j].value != slots[k].value
  }

  // The ring represents the log.
  ghost predicate Ring(slots: seq<Option<nat>>, live: map<nat, string>, log: seq<string>) {
    && |slots| == CAPACITY && Distinct(slots)
    && (forall j :: 0 <= j < CAPACITY ==> SlotHolds(slots[j], live, j, log))
  }

  lemma NextPositions(n: nat)
    ensures (n + 1) % CAPACITY == (n % CAPACITY + 1) % CAPACITY
    ensures Position(n % CAPACITY, n + 1) == n
    ensures forall j :: 0 <= j < CAPACITY && j != n % CAPACITY ==> Position(j, n + 1) == Position(j, n)
  {
  }

  // Overwriting the slot at the cursor appends to the log and loses only its oldest entry.
  lemma RingTurns(slots: seq<Option<nat>>, live: map<nat, string>, log: seq<string>, id: nat, text: string, left: map<nat, string>)
    requires Ring(slots, live, log) && id !in live
    requires var o := slots[|log| % CAPACITY]; left == live[id := text] - (if o.Some? then {o.value} else {})
    ensures Ring(slots[|log| % CAPACITY := Some(id)], left, log + [text])
  {
    var n := |log|;
    var c := n % CAPACITY;
    var turned := slots[c := Some(id)];
    NextPositions(n);
    forall j | 0 <= j < CAPACITY ensures SlotHolds(turned[j], left, j, log + [text]) {
      assert SlotHolds(slots[j], live, j, log) && SlotHolds(slots[c], live, c, log);
      if j != c {
        assert Position(j, n + 1) == Position(j, n) < n;
      }
    }
    assert Distinct(turned) by {
      forall j | 0 <= j < CAPACITY && slots[j].Some? ensures slots[j].value != id {
        assert SlotHolds(slots[j], live, j, log);
      }
    }
  }

  lemma BlocksTurn(slots: seq<Option<nat>>, c: nat, id: nat)
    requires c < |slots| && Distinct(slots) && id !in BlocksOf(slots)
    ensures BlocksOf(slots[c := Some(id)]) == BlocksOf(slots) - (if slots[c].Some? then {slots[c].value} else {}) + {id}
  {
    var turned := slots[c := Some(id)];
    assert turned[c] == Some(id);
    forall x | x in BlocksOf(slots) && slots[c] != Some(x) ensures x in BlocksOf(turned) {
      var j :| 0 <= j < |slots| && slots[j].Some? && slots[j].value == x;
      assert turned[j] == slots[j];
    }
  }

  method IsBlank(s: string) returns (r: bool)
    ensures r == Blank(s)
  {
    for i := 0 to |s|
      invariant forall j :: 0 <= j < i ==> IsSpace(s[j])
    {
      if !IsSpace(s[i]) {
        return false;
      }
    }
    return true;
  }

  lemma BlocksAreLive(slots: seq<Option<nat>>, live: map<nat, string>, log: seq<string>)
    requires Ring(slots, live, log)
    ensures BlocksOf(slots) <= live.Keys
  {
    forall j | 0 <= j < CAPACITY && slots[j].Some? ensures slots[j].value in live {
      assert SlotHolds(slots[j], live, j, log);
    }
  }

  lemma RestUntouched(live: map<nat, string>, blocks: set<nat>, slot: Option<nat>, id: nat, text: string)
    requires id !in live && (slot.Some? ==> slot.value in blocks)
    ensures var gone := if slot.Some? then {slot.value} else {};
      (live[id := text] - gone) - (blocks - gone + {id}) == live - blocks
  {
  }

  // Reading i slots on from the oldest gives the i-th of the listed entries.
  lemma PositionOfListed(i: nat, n: nat)
    requires i < Min(CAPACITY, n)
    ensures var size := Min(CAPACITY, n); var oldest := (n % CAPACITY + CAPACITY - size) % CAPACITY;
      Position((oldest + i) % CAPACITY, n) == n - size + i
  {
    if n < CAPACITY {
      assert n % CAPACITY == n;
    }
  }

  lemma OneBlockMore(slots: seq<Option<nat>>, i: nat)
    requires i < |slots| && Distinct(slots)
    ensures BlocksOf(slots[..i + 1]) == BlocksOf(slots[..i]) + (if slots[i].Some? then {slots[i].value} else {})
    ensures slots[i].Some? ==> slots[i].value !in BlocksOf(slots[..i]) && slots[i].value in BlocksOf(slots)
  {
    var more := slots[..i + 1];
    assert more[i] == slots[i] && forall j :: 0 <= j < i ==> more[j] == slots[..i][j];
    forall x | x in BlocksOf(slots[..i]) ensures x in BlocksOf(more) {
      var j :| 0 <= j < i && slots[..i][j] == Some(x);
      assert more[j] == Some(x);
    }
  }

  // history_t. `log` is everything ever entered that was not blank.
  class HistoryRing {
    const heap: Allocator
    const entries: array<Option<nat>>
    var size: nat
    var next: nat
    var total: nat
    ghost var log: seq<string>

    ghost predicate Valid()
      reads this, heap, entries
    {
      && heap.Valid() && Ring(entries[..], heap.live, log)
      && total == |log| && size == Min(CAPACITY, |log|) && next == |log| % CAPACITY
    }

    ghost function Blocks(): set<nat>
      reads entries
    {
      BlocksOf(entries[..])
    }

    // The zero-initialised state.
    constructor (h: Allocator)
      requires h.Valid()
      ensures Valid() && log == [] && Blocks() == {} && heap == h && fresh(entries)
    {
      heap := h;
      entries := new Option<nat>[CAPACITY](_ => None);
      size, next, total, log := 0, 0, 0, [];
    }

    // strdup, then writing NULs over trailing spaces.
    method TrimmedCopy(line: string) returns (id: nat)
      requires heap.Valid()
      modifies heap
      ensures heap.Valid() && id !in old(heap.live) && heap.live == old(heap.live)[id := Trimmed(line)]
    {
      id := heap.Alloc(line);
      var len: nat := |line|;
      assert line[..len] == line;
      while len > 0 && IsSpace(heap.live[id][len - 1])
        invariant len <= |line| && Trimmed(line[..len]) == Trimmed(line)
        invariant heap.Valid() && heap.live == old(heap.live)[id := line[..len]]
      {
        len := len - 1;
        heap.Write(id, heap.live[id][..len]);
        assert line[..len + 1][..len] == line[..len];
        assert old(heap.live)[id := line[..len + 1]][id := line[..len]] == old(heap.live)[id := line[..len]];
      }
    }

    // The rest of history_add: the copy goes into the slot at the cursor, whose block is freed.
    method Store(id: nat, ghost text: string, ghost live: map<nat, string>)
      requires Ring(entries[..], live, log) && id !in live
      requires total == |log| && size == Min(CAPACITY, |log|) && next == |log| % CAPACITY
      requires heap.Valid() && heap.live == live[id := text]
      modifies this, entries, heap
      ensures Valid() && log == old(log) + [text]
      ensures heap.live - Blocks() == live - old(Blocks())
    {
      ghost var slots := entries[..];
      BlocksAreLive(slots, live, log);
      assert SlotHolds(slots[next], live, next, log);
      heap.Free(entries[next]);
      entries[next] := Some(id);
      assert entries[..] == slots[next := Some(id)];
      RingTurns(slots, live, log, id, text, heap.live);
      BlocksTurn(slots, next, id);
      RestUntouched(live, BlocksOf(slots), slots[next], id, text);
      NextPositions(|log|);
      next := (next + 1) % CAPACITY;
      if size < CAPACITY {
        size := size + 1;
      }
      total := total + 1;
      log := log + [text];
    }

    /** history_add: a blank line changes nothing; any other is appended to the log, trimmed. The
        block of an entry that scrolls out is freed, and nothing else in the heap is touched. */
    method Add(line: Option<string>)
      requires Valid()
      modifies this, entries, heap
      ensures Valid() && log == old(log) + if line.Some? then Logged([line.value]) else []
      ensures heap.live - Blocks() == old(heap.live - Blocks())
    {
      if line.None? {
        return;
      }
      assert [line.value][..0] == [];
      var blank := IsBlank(line.value);
      if blank {
        return;
      }
      ghost var live := heap.live;
      var id := TrimmedCopy(line.value);
      Store(id, Trimmed(line.value), live);
    }

    /** history_print: the tail of the log, oldest first, however often the ring has wrapped. */
    method Print() returns (shown: seq<Shown>)
      requires Valid()
      ensures shown == Listing(log)
    {
      var oldest := (next + CAPACITY - size) % CAPACITY;
      var firstNumber := total - size + 1;
      shown := [];
      for i := 0 to size
        invariant shown == Listing(log)[..i]
      {
        var idx := (oldest + i) % CAPACITY;
        PositionOfListed(i, |log|);
        assert SlotHolds(entries[..][idx], heap.live, idx, log);
        shown := shown + [Shown(firstNumber + i, heap.live[entries[idx].value])];
      }
    }

    /** history_free: every stored copy is freed, once; the log starts afresh. */
    method Free()
      requires Valid()
      modifies this, entries, heap
      ensures Valid() && log == [] && Blocks() == {}
      ensures heap.live == old(heap.live - Blocks())
    {
      ghost var live, slots := heap.live, entries[..];
      BlocksAreLive(slots, live, log);
      assert BlocksOf(slots[..0]) == {};
      for i := 0 to CAPACITY
        invariant heap.Valid() && heap.live == live - BlocksOf(slots[..i])
        invariant forall j :: 0 <= j < i ==> entries[j].None?
        invariant entries[i..] == slots[i..]
      {
        assert entries[i] == entries[i..][0] == slots[i..][0] == slots[i];
        OneBlockMore(slots, i);
        ghost var rest := entries[i..];
        heap.Free(entries[i]);
        entries[i] := None;
        assert entries[i + 1..] == rest[1..] == slots[i..][1..] == slots[i + 1..];
      }
      assert slots[..CAPACITY] == slots;
      size, next, total, log := 0, 0, 0, [];
    }
  }

  /** A whole session: whatever is entered, the listing is that of the log of all lines, and in the
      end the heap is as it was before. */
  method Session(h: Allocator, lines: seq<string>) returns (shown: seq<Shown>)
    requires h.Valid()
    modifies h
    ensures shown == Listing(Logged(lines)) && h.Valid() && h.live == old(h.live)
  {
    var ring := new HistoryRing(h);
    assert lines[..0] == [];
    for i := 0 to |lines|
      invariant ring.Valid() && ring.log == Logged(lines[..i]) && ring.heap == h
      invariant h.live - ring.Blocks() == old(h.live)
    {
      LoggedSplit(lines[..i], [lines[i]]);
      assert lines[..i + 1] == lines[..i] + [lines[i]];
      ring.Add(Some(lines[i]));
    }
    assert lines[..|lines|] == lines;
    shown := ring.Print();
    ring.Free();
  }
}
