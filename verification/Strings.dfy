/** C strings in a buffer, splitting on delimiters, and strtok_r (ISO C11 section 7.24.5.8,
    with its cursor made explicit). */
module Strings {
  import opened Options

  const NUL: char := '\0'

  // A pointer into a buffer, or NULL.
  type Ptr = Option<nat>

  /** The C string at offset p: everything up to the first NUL. */
  function CStr(b: seq<char>, p: nat): (s: string)
    ensures p + |s| <= |b| || s == ""
    ensures NUL !in s
    ensures p <= |b| ==> s == b[p..p + |s|]
    ensures p + |s| < |b| ==> b[p + |s|] == NUL
    decreases |b| - p
  {
    if p >= |b| || b[p] == NUL then "" else [b[p]] + CStr(b, p + 1)
  }

  // The offset of the NUL that ends the string at p.
  function End(b: seq<char>, p: nat): nat {
    p + |CStr(b, p)|
  }

  lemma {:induction false} CStrIs(b: seq<char>, p: nat, e: nat)
    requires p <= e < |b| && b[e] == NUL && forall i :: p <= i < e ==> b[i] != NUL
    ensures CStr(b, p) == b[p..e] && End(b, p) == e
    decreases e - p
  {
    if p < e {
      CStrIs(b, p + 1, e);
    }
  }

  /** A string is unaffected by changes before it or after its NUL. */
  lemma CStrFrame(b: seq<char>, c: seq<char>, p: nat)
    requires |b| == |c| && End(b, p) < |b|
    requires forall i :: p <= i <= End(b, p) ==> c[i] == b[i]
    ensures CStr(c, p) == CStr(b, p)
  {
    CStrIs(c, p, End(b, p));
  }

  // ------------------------------------------------------------ splitting

  datatype Delims = Blanks | Bar

  predicate IsDelim(d: Delims, c: char) {
    match d
    case Blanks => c == ' ' || c == '\t' || c == '\r' || c == '\n'
    case Bar => c == '|'
  }

  // The length of the delimiter-free prefix.
  function TokenLen(s: string, d: Delims): (n: nat)
    ensures n <= |s|
    ensures forall i :: 0 <= i < n ==> !IsDelim(d, s[i])
    ensures n < |s| ==> IsDelim(d, s[n])
  {
    if s == "" || IsDelim(d, s[0]) then 0 else 1 + TokenLen(s[1..], d)
  }

  /** The maximal delimiter-free pieces of s that are not empty, in order. */
  function Tokens(s: string, d: Delims): seq<string>
    decreases |s|
  {
    if s == "" then []
    else if IsDelim(d, s[0]) then Tokens(s[1..], d)
    else [s[..TokenLen(s, d)]] + Tokens(s[TokenLen(s, d)..], d)
  }

  lemma {:induction false} SkipDelims(s: string, d: Delims, n: nat)
    requires n <= |s| && forall i :: 0 <= i < n ==> IsDelim(d, s[i])
    ensures Tokens(s, d) == Tokens(s[n..], d)
  {
    if n > 0 {
      SkipDelims(s[1..], d, n - 1);
      assert s[1..][n - 1..] == s[n..];
    }
  }

  lemma {:induction false} TokenLenIs(s: string, d: Delims, n: nat)
    requires n <= |s| && (forall i :: 0 <= i < n ==> !IsDelim(d, s[i])) && (n < |s| ==> IsDelim(d, s[n]))
    ensures TokenLen(s, d) == n
  {
    if n > 0 {
      TokenLenIs(s[1..], d, n - 1);
    }
  }

  lemma DropOneDelim(s: string, d: Delims)
    requires s != "" && IsDelim(d, s[0])
    ensures Tokens(s, d) == Tokens(s[1..], d)
  {
  }

  lemma LeadingToken(s: string, d: Delims, n: nat)
    requires 0 < n <= |s| && (forall i :: 0 <= i < n ==> !IsDelim(d, s[i])) && (n < |s| ==> IsDelim(d, s[n]))
    ensures Tokens(s, d) == [s[..n]] + Tokens(s[n..], d)
  {
    TokenLenIs(s, d, n);
  }

  /** Splitting a piece off the front: blanks, then a word, then whatever follows the one
      delimiter that ends it. */
  lemma FirstToken(s: string, d: Delims, a: nat, b: nat)
    requires a < b <= |s|
    requires forall i :: 0 <= i < a ==> IsDelim(d, s[i])
    requires forall i :: a <= i < b ==> !IsDelim(d, s[i])
    requires b < |s| ==> IsDelim(d, s[b])
    ensures Tokens(s, d) == [s[a..b]] + Tokens(s[if b < |s| then b + 1 else b..], d)
  {
    var u, n := s[a..], b - a;
    assert forall i :: 0 <= i < |u| ==> u[i] == s[a + i];
    SkipDelims(s, d, a);
    LeadingToken(u, d, n);
    assert u[..n] == s[a..b] && u[n..] == s[b..];
    if b < |s| {
      DropOneDelim(s[b..], d);
      assert s[b..][1..] == s[b + 1..];
    }
  }

  // ------------------------------------------------------------ strtok_r

  // buf holds a string from p to the NUL at e.
  predicate Holds(b: seq<char>, p: nat, e: nat) {
    p <= e < |b| && b[e] == NUL && forall i :: p <= i < e ==> b[i] != NUL
  }

  // Where the run of delimiters, or of other characters, that starts at p ends.
  function RunEnd(b: seq<char>, p: nat, e: nat, d: Delims, inside: bool): (q: nat)
    requires p <= e <= |b|
    ensures p <= q <= e
    ensures forall i :: p <= i < q ==> IsDelim(d, b[i]) == inside
    ensures q < e ==> IsDelim(d, b[q]) != inside
    decreases e - p
  {
    if p == e || IsDelim(d, b[p]) != inside then p else RunEnd(b, p + 1, e, d, inside)
  }

  // strspn and strcspn
  method Span(buf: array<char>, p: nat, ghost e: nat, d: Delims, inside: bool) returns (q: nat)
    requires Holds(buf[..], p, e)
    ensures q == RunEnd(buf[..], p, e, d, inside)
  {
    q := p;
    while buf[q] != NUL && IsDelim(d, buf[q]) == inside
      invariant p <= q <= e && RunEnd(buf[..], q, e, d, inside) == RunEnd(buf[..], p, e, d, inside)
      decreases e - q
    {
      q := q + 1;
    }
  }

  // The text left from cursor p, in the buffer b.
  function Text(b: seq<char>, p: nat, e: nat): string
    requires p <= e <= |b|
  {
    b[p..e]
  }

  lemma SliceOfText(b: seq<char>, p: nat, e: nat, a: nat, z: nat)
    requires p <= a <= z <= e <= |b|
    ensures Text(b, p, e)[a - p..z - p] == b[a..z]
    ensures Text(b, p, e)[z - p..] == b[z..e]
  {
    var t := b[p..e];
    assert forall i :: 0 <= i < e - p ==> t[i] == b[p + i];
    var u := t[a - p..z - p];
    assert |u| == z - a && forall i :: 0 <= i < z - a ==> u[i] == t[a - p + i];
    assert u == b[a..z];
  }

  function Start(str: Ptr, save: Ptr): nat
    requires str.Some? || save.Some?
  {
    if str.Some? then str.value else save.value
  }

  /** What a call does to the buffer b0, from the text at p up to its NUL at e: it yields the
      first piece and leaves the rest for the next call, writing over at most the one delimiter
      that ends the piece. */
  ghost predicate Cut(b0: seq<char>, b1: seq<char>, p: nat, e: nat, d: Delims, tok: Ptr, next: nat)
    requires p <= e < |b0|
  {
    && |b1| == |b0| && p <= next && Holds(b1, next, e)
    && match tok
       case None => b1 == b0 && next == e && Tokens(Text(b0, p, e), d) == []
       case Some(a) =>
         && p <= a < End(b1, a) <= e
         && Tokens(Text(b0, p, e), d) == [CStr(b1, a)] + Tokens(Text(b1, next, e), d)
         && (if End(b1, a) == e then b1 == b0 && next == e
             else b1 == b0[End(b1, a) := NUL] && next == End(b1, a) + 1 && IsDelim(d, b0[End(b1, a)]))
  }

  lemma CutLast(b: seq<char>, p: nat, a: nat, e: nat, d: Delims)
    requires Holds(b, p, e) && p <= a < e
    requires forall i :: p <= i < a ==> IsDelim(d, b[i])
    requires forall i :: a <= i < e ==> !IsDelim(d, b[i])
    ensures Cut(b, b, p, e, d, Some(a), e)
  {
    var text := Text(b, p, e);
    FirstToken(text, d, a - p, e - p);
    SliceOfText(b, p, e, a, e);
    CStrIs(b, a, e);
  }

  lemma MiddleTokens(b: seq<char>, p: nat, a: nat, z: nat, e: nat, d: Delims)
    requires Holds(b, p, e) && p <= a < z < e
    requires forall i :: p <= i < a ==> IsDelim(d, b[i])
    requires forall i :: a <= i < z ==> !IsDelim(d, b[i])
    requires IsDelim(d, b[z])
    ensures Tokens(Text(b, p, e), d) == [b[a..z]] + Tokens(Text(b, z + 1, e), d)
  {
    var text := Text(b, p, e);
    var i, j := a - p, z - p;
    assert forall k :: 0 <= k < |text| ==> text[k] == b[p + k];
    FirstToken(text, d, i, j);
    SliceOfText(b, p, e, a, z);
    SliceOfText(b, p, e, z, z + 1);
    assert text[i..j] == b[a..z] && text[j + 1..] == b[z + 1..e];
  }

  // Writing the NUL ends the piece and leaves the rest alone.
  lemma MiddleCut(b: seq<char>, a: nat, z: nat, e: nat)
    requires a < z < e < |b| && b[e] == NUL && forall i :: a <= i < e ==> b[i] != NUL
    ensures var c := b[z := NUL];
      CStr(c, a) == b[a..z] && End(c, a) == z && Text(c, z + 1, e) == Text(b, z + 1, e) && Holds(c, z + 1, e)
  {
    var c := b[z := NUL];
    CStrIs(c, a, z);
    assert c[a..z] == b[a..z];
    assert c[z + 1..e] == b[z + 1..e];
  }

  lemma CutMiddle(b: seq<char>, p: nat, a: nat, z: nat, e: nat, d: Delims)
    requires Holds(b, p, e) && p <= a < z < e
    requires forall i :: p <= i < a ==> IsDelim(d, b[i])
    requires forall i :: a <= i < z ==> !IsDelim(d, b[i])
    requires IsDelim(d, b[z])
    ensures Cut(b, b[z := NUL], p, e, d, Some(a), z + 1)
  {
    MiddleTokens(b, p, a, z, e, d);
    MiddleCut(b, a, z, e);
    var c := b[z := NUL];
    assert Tokens(Text(b, p, e), d) == [CStr(c, a)] + Tokens(Text(c, z + 1, e), d);
  }

  lemma CutNothing(b: seq<char>, p: nat, e: nat, d: Delims)
    requires Holds(b, p, e) && forall i :: p <= i < e ==> IsDelim(d, b[i])
    ensures Cut(b, b, p, e, d, None, e)
  {
    var text := Text(b, p, e);
    assert forall k :: 0 <= k < |text| ==> text[k] == b[p + k];
    SkipDelims(text, d, |text|);
    assert text[|text|..] == "";
  }

  /** strtok_r as a function of the buffer: the new buffer, the piece, and the new cursor. */
  function Strtok(b: seq<char>, p: nat, e: nat, d: Delims): (seq<char>, Ptr, nat)
    requires Holds(b, p, e)
  {
    var a := RunEnd(b, p, e, d, true);
    var z := RunEnd(b, a, e, d, false);
    if a == e then (b, None, e)
    else if z == e then (b, Some(a), e)
    else (b[z := NUL], Some(a), z + 1)
  }

  /** It yields the first piece, leaves the rest, and overwrites at most the one delimiter. */
  lemma StrtokCuts(b: seq<char>, p: nat, e: nat, d: Delims)
    requires Holds(b, p, e)
    ensures var r := Strtok(b, p, e, d); Cut(b, r.0, p, e, d, r.1, r.2)
  {
    var a := RunEnd(b, p, e, d, true);
    var z := RunEnd(b, a, e, d, false);
    if a == e {
      CutNothing(b, p, e, d);
    } else if z == e {
      CutLast(b, p, a, e, d);
    } else {
      CutMiddle(b, p, a, z, e, d);
    }
  }

  // strtok_r
  method StrtokR(buf: array<char>, str: Ptr, save: Ptr, d: Delims, ghost e: nat) returns (tok: Ptr, next: nat)
    requires str.Some? || save.Some?
    requires Holds(buf[..], Start(str, save), e)
    modifies buf
    ensures (buf[..], tok, next) == old(Strtok(buf[..], Start(str, save), e, d))
  {
    var p := if str.Some? then str.value else save.value;
    var a := Span(buf, p, e, d, true);
    if buf[a] == NUL {
      return None, a;
    }
    var z := Span(buf, a, e, d, false);
    if buf[z] == NUL {
      return Some(a), z;
    }
    buf[z] := NUL;
    return Some(a), z + 1;
  }

  // ------------------------------------------------------------ snprintf

  function Min(a: nat, b: nat): nat {
    if a < b then a else b
  }

  // snprintf(buf + off, room, "%s", text): writes what fits and returns the full length.
  method Snprintf(buf: array<char>, off: nat, room: nat, text: string) returns (n: nat)
    requires 0 < room && off + room <= buf.Length
    modifies buf
    ensures n == |text|
    ensures var k := Min(room - 1, |text|);
      buf[..] == old(buf[..off]) + text[..k] + [NUL] + old(buf[off + k + 1..])
  {
    n := |text|;
    var k := Min(room - 1, |text|);
    for i := 0 to k
      invariant forall j :: 0 <= j < i ==> buf[off + j] == text[j]
      invariant forall j :: 0 <= j < buf.Length && !(off <= j < off + i) ==> buf[j] == old(buf[j])
    {
      buf[off + i] := text[i];
    }
    buf[off + k] := NUL;
    ghost var before, after := old(buf[..off]), old(buf[off + k + 1..]);
    assert forall j :: 0 <= j < |after| ==> after[j] == old(buf[off + k + 1 + j]);
  }
}
