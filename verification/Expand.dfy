/** Variable expansion (src/expand.c): a scanner over the word, appending to a buffer that
    doubles when it is full. */
module Expand {
  import opened Strings

  // ------------------------------------------------------------ the growable buffer

  const INITIAL_CAP: nat := 64

  /** strbuf_t. `text` is what has been put so far, `copied` the bytes moved by all
      reallocations. */
  class StrBuf {
    var data: array<char>
    var len: nat
    var cap: nat
    ghost var text: string
    ghost var copied: nat

    ghost predicate Valid()
      reads this, data
    {
      && data.Length == cap && len < cap
      && data[..len] == text
      && (cap == INITIAL_CAP || cap <= 2 * len)
      && copied == cap - INITIAL_CAP >= 0
    }

    // sb_init
    constructor ()
      ensures Valid() && text == "" && fresh(data)
    {
      cap, len := INITIAL_CAP, 0;
      data := new char[INITIAL_CAP];
      text, copied := "", 0;
    }

    /** sb_putc: the buffer holds one more character, there is still room for a NUL, and all
        reallocations together have copied at most twice what it holds. */
    method Put(c: char)
      requires Valid()
      modifies this, data
      ensures Valid() && text == old(text) + [c] && len == old(len) + 1
      ensures data == old(data) || fresh(data)
      ensures copied <= 2 * len
    {
      if len + 1 >= cap {
        var ncap := cap * 2;
        var t := new char[ncap];
        for i := 0 to cap
          invariant forall j :: 0 <= j < i ==> t[j] == data[j]
          modifies t
        {
          t[i] := data[i];
        }
        copied := copied + cap;
        data, cap := t, ncap;
      }
      data[len] := c;
      len := len + 1;
      text := text + [c];
      assert data[..len] == text;
    }

    // sb_puts
    method PutString(s: string)
      requires Valid()
      modifies this, data
      ensures Valid() && text == old(text) + s
      ensures data == old(data) || fresh(data)
    {
      for i := 0 to |s|
        invariant Valid() && text == old(text) + s[..i]
        invariant data == old(data) || fresh(data)
      {
        Put(s[i]);
      }
      assert s[..|s|] == s;
    }
  }

  // ------------------------------------------------------------ expansion as a function

  const NAME_CAP: nat := 255

  type Environment = map<string, string>

  // in[i], a C string's NUL included
  function At(s: string, i: nat): char {
    if i < |s| then s[i] else NUL
  }

  lemma AtEnd(s: string, i: nat)
    requires NUL !in s
    ensures At(s, i) == NUL <==> i >= |s|
  {
    if i < |s| {
      assert s[i] in s;
    }
  }

  predicate IsAlpha(c: char) {
    'a' <= c <= 'z' || 'A' <= c <= 'Z'
  }

  predicate IsNameStart(c: char) {
    IsAlpha(c) || c == '_'
  }

  predicate IsNameChar(c: char) {
    IsNameStart(c) || '0' <= c <= '9'
  }

  // getenv; no variable has an empty name.
  function Lookup(env: Environment, name: string): string {
    if name != "" && name in env then env[name] else ""
  }

  // How far a name inside braces runs: to the '}', or to the cap.
  function BraceLen(s: string, cap: nat): (n: nat)
    ensures n <= |s| && n <= cap
    ensures forall i :: 0 <= i < n ==> s[i] != '}'
    ensures n < |s| && n < cap ==> s[n] == '}'
  {
    if s == "" || s[0] == '}' || cap == 0 then 0 else 1 + BraceLen(s[1..], cap - 1)
  }

  function NameLen(s: string, cap: nat): (n: nat)
    ensures n <= |s| && n <= cap
    ensures forall i :: 0 <= i < n ==> IsNameChar(s[i])
    ensures n < |s| && n < cap ==> !IsNameChar(s[n])
  {
    if s == "" || !IsNameChar(s[0]) || cap == 0 then 0 else 1 + NameLen(s[1..], cap - 1)
  }

  // printf's %d
  function Digits(n: nat): string {
    if n < 10 then [('0' as int + n) as char] else Digits(n / 10) + [('0' as int + n % 10) as char]
  }

  function Decimal(n: int): string {
    if n < 0 then "-" + Digits(-n) else Digits(n)
  }

  // One step of the scan: what it produces and how much of the word it consumes.
  datatype Piece = Piece(out: string, len: nat)

  function StepAt(s: string, status: int, env: Environment): (p: Piece)
    requires s != ""
    ensures 1 <= p.len <= |s|
  {
    if s[0] != '$' then Piece([s[0]], 1)
    else if At(s, 1) == '?' then Piece(Decimal(status), 2)
    else if At(s, 1) == '{' then
      var k := BraceLen(s[2..], NAME_CAP);
      if At(s, 2 + k) == '}' then Piece(Lookup(env, s[2..2 + k]), k + 3) else Piece("$", 1)
    else if IsNameStart(At(s, 1)) then
      var k := NameLen(s[1..], NAME_CAP);
      Piece(Lookup(env, s[1..1 + k]), 1 + k)
    else Piece("$", 1)
  }

  /** The expansion of a word: its steps' products, in order. Products are never looked at again. */
  function Expanded(s: string, status: int, env: Environment): string
    decreases |s|
  {
    if s == "" then ""
    else
      var p := StepAt(s, status, env);
      p.out + Expanded(s[p.len..], status, env)
  }

  // ------------------------------------------------------------ the scanner

  function Power10(k: nat): nat {
    if k == 0 then 1 else 10 * Power10(k - 1)
  }

  lemma {:induction false} DigitsBound(n: nat, bound: nat, k: nat)
    requires n < bound && bound == Power10(k) && k > 0
    ensures |Digits(n)| <= k && forall i :: 0 <= i < |Digits(n)| ==> Digits(n)[i] != NUL
    decreases k
  {
    if n >= 10 {
      DigitsBound(n / 10, Power10(k - 1), k - 1);
    }
  }

  lemma DecimalFits(n: int)
    requires -0x8000_0000 <= n < 0x8000_0000
    ensures |Decimal(n)| <= 11 && forall i :: 0 <= i < |Decimal(n)| ==> Decimal(n)[i] != NUL
  {
    assert Power10(10) == 10_000_000_000 by {
      assert Power10(3) == 1000;
      assert Power10(6) == 1_000_000;
      assert Power10(9) == 1_000_000_000;
    }
    DigitsBound(if n < 0 then -n else n, Power10(10), 10);
  }

  // $?, through a 16-byte buffer that a 32-bit int always fits.
  method PutStatus(sb: StrBuf, status: int)
    requires sb.Valid() && -0x8000_0000 <= status < 0x8000_0000
    modifies sb, sb.data
    ensures sb.Valid() && sb.text == old(sb.text) + Decimal(status)
    ensures sb.data == old(sb.data) || fresh(sb.data)
  {
    var num := new char[16];
    DecimalFits(status);
    var n := Snprintf(num, 0, 16, Decimal(status));
    assert num[..][..n] == Decimal(status);
    forall i | 0 <= i < n ensures num[i] != NUL {
      assert num[i] == Decimal(status)[i];
    }
    CStrIs(num[..], 0, n);
    sb.PutString(CStr(num[..], 0));
  }

  lemma {:induction false} BraceLenIs(s: string, n: nat, cap: nat)
    requires n <= |s| && n <= cap && (forall i :: 0 <= i < n ==> s[i] != '}') && (n < |s| && n < cap ==> s[n] == '}')
    ensures BraceLen(s, cap) == n
  {
    if n > 0 {
      BraceLenIs(s[1..], n - 1, cap - 1);
    }
  }

  lemma {:induction false} NameLenIs(s: string, n: nat, cap: nat)
    requires n <= |s| && n <= cap && (forall i :: 0 <= i < n ==> IsNameChar(s[i])) && (n < |s| && n < cap ==> !IsNameChar(s[n]))
    ensures NameLen(s, cap) == n
  {
    if n > 0 {
      NameLenIs(s[1..], n - 1, cap - 1);
    }
  }

  lemma LenIs(s: string, n: nat, braces: bool)
    requires n <= |s| && n <= NAME_CAP
    requires forall i :: 0 <= i < n ==> if braces then s[i] != '}' else IsNameChar(s[i])
    requires n < |s| && n < NAME_CAP ==> if braces then s[n] == '}' else !IsNameChar(s[n])
    ensures n == if braces then BraceLen(s, NAME_CAP) else NameLen(s, NAME_CAP)
  {
    if braces {
      BraceLenIs(s, n, NAME_CAP);
    } else {
      NameLenIs(s, n, NAME_CAP);
    }
  }

  // The copying loops for names: name[k++] = in[j++] while the name goes on and fits.
  method CopyName(input: string, from: nat, braces: bool) returns (name: array<char>, j: nat)
    requires from <= |input| && NUL !in input
    ensures fresh(name)
    ensures j == from + (if braces then BraceLen(input[from..], NAME_CAP) else NameLen(input[from..], NAME_CAP))
    ensures CStr(name[..], 0) == input[from..j]
  {
    name := new char[NAME_CAP + 1];
    var k := 0;
    j := from;
    while At(input, j) != NUL && (if braces then At(input, j) != '}' else IsNameChar(At(input, j))) && k < NAME_CAP
      invariant k <= NAME_CAP && j == from + k <= |input|
      invariant forall i :: 0 <= i < k ==> name[i] == input[from + i]
      invariant forall i :: from <= i < j ==> if braces then input[i] != '}' else IsNameChar(input[i])
      decreases NAME_CAP - k
    {
      name[k] := input[j];
      k, j := k + 1, j + 1;
    }
    name[k] := NUL;
    forall i | 0 <= i < k ensures name[i] != NUL {
      assert input[from + i] in input;
    }
    CStrIs(name[..], 0, k);
    assert name[..k] == input[from..j];
    assert j < |input| ==> input[j] in input;
    LenIs(input[from..], k, braces);
  }

  // ${NAME}, or a '$' kept literal because no '}' comes in time.
  method ExpandBraces(input: string, i: nat, sb: StrBuf, env: Environment) returns (i': nat)
    requires i + 1 < |input| && input[i] == '$' && input[i + 1] == '{' && NUL !in input && sb.Valid()
    modifies sb, sb.data
    ensures sb.Valid() && (sb.data == old(sb.data) || fresh(sb.data))
    ensures var p := StepAt(input[i..], 0, env); i' == i + p.len && sb.text == old(sb.text) + p.out
  {
    var name, j := CopyName(input, i + 2, true);
    ghost var s := input[i..];
    assert s[2..] == input[i + 2..] && s[2..j - i] == input[i + 2..j] && At(s, j - i) == At(input, j);
    if At(input, j) == '}' {
      sb.PutString(Lookup(env, CStr(name[..], 0)));
      i' := j + 1;
    } else {
      sb.Put('$');
      i' := i + 1;
    }
  }

  // $NAME
  method ExpandName(input: string, i: nat, sb: StrBuf, env: Environment) returns (i': nat)
    requires i + 1 < |input| && input[i] == '$' && IsNameStart(input[i + 1]) && NUL !in input && sb.Valid()
    modifies sb, sb.data
    ensures sb.Valid() && (sb.data == old(sb.data) || fresh(sb.data))
    ensures var p := StepAt(input[i..], 0, env); i' == i + p.len && sb.text == old(sb.text) + p.out
  {
    var name, j := CopyName(input, i + 1, false);
    ghost var s := input[i..];
    assert s[1..] == input[i + 1..] && s[1..j - i] == input[i + 1..j];
    sb.PutString(Lookup(env, CStr(name[..], 0)));
    i' := j;
  }

  // Only $? depends on the status.
  lemma StatusUnused(s: string, status: int, env: Environment)
    requires s != "" && !(s[0] == '$' && At(s, 1) == '?')
    ensures StepAt(s, status, env) == StepAt(s, 0, env)
  {
  }

  // One turn of the scanning loop.
  method ExpandStep(input: string, i: nat, sb: StrBuf, status: int, env: Environment) returns (i': nat)
    requires i < |input| && NUL !in input && sb.Valid() && -0x8000_0000 <= status < 0x8000_0000
    modifies sb, sb.data
    ensures sb.Valid() && (sb.data == old(sb.data) || fresh(sb.data))
    ensures var p := StepAt(input[i..], status, env); i' == i + p.len && sb.text == old(sb.text) + p.out
  {
    var next := At(input, i + 1);
    assert next == At(input[i..], 1);
    if input[i] != '$' {
      sb.Put(input[i]);
      i' := i + 1;
    } else if next == '?' {
      PutStatus(sb, status);
      i' := i + 2;
    } else {
      StatusUnused(input[i..], status, env);
      if next == '{' {
        i' := ExpandBraces(input, i, sb, env);
      } else if IsNameStart(next) {
        i' := ExpandName(input, i, sb, env);
      } else {
        sb.Put('$');
        i' := i + 1;
      }
    }
  }

  predicate NulFree(env: Environment) {
    forall name :: name in env ==> NUL !in env[name]
  }

  // sb_putc(&sb, '\0'); return sb.data;
  method Terminated(sb: StrBuf) returns (data: array<char>)
    requires sb.Valid() && NUL !in sb.text
    modifies sb, sb.data
    ensures (data == old(sb.data) || fresh(data)) && CStr(data[..], 0) == old(sb.text)
  {
    ghost var text := sb.text;
    sb.Put(NUL);
    data := sb.data;
    assert data[..sb.len] == text + [NUL];
    forall k | 0 <= k < |text| ensures data[k] == text[k] != NUL {
      assert data[k] == data[..sb.len][k] == text[k] && text[k] in text;
    }
    assert data[|text|] == data[..sb.len][|text|];
    CStrIs(data[..], 0, |text|);
    assert data[..|text|] == text;
  }

  // What has been produced, and what the rest of the word will add.
  function Total(input: string, i: nat, status: int, env: Environment, before: string): string
    requires i <= |input|
  {
    before + Expanded(input[i..], status, env)
  }

  lemma ScanBegins(input: string, status: int, env: Environment)
    ensures Total(input, 0, status, env, "") == Expanded(input, status, env)
  {
    assert input[0..] == input;
  }

  lemma Associate(a: string, b: string, c: string)
    ensures a + (b + c) == (a + b) + c
  {
  }

  lemma RestAfter(input: string, i: nat, n: nat)
    requires i + n <= |input|
    ensures input[i..][n..] == input[i + n..]
  {
  }

  lemma ExpandedStep(word: string, p: Piece, rest: string, status: int, env: Environment)
    requires word != "" && p == StepAt(word, status, env) && rest == word[p.len..]
    ensures Expanded(word, status, env) == p.out + Expanded(rest, status, env)
  {
  }

  // One step on: what has been produced grows by what the rest loses.
  lemma ScanGoesOn(input: string, i: nat, p: Piece, status: int, env: Environment, before: string)
    requires i < |input| && p == StepAt(input[i..], status, env)
    ensures i + p.len <= |input| && Total(input, i + p.len, status, env, before + p.out) == Total(input, i, status, env, before)
  {
    var rest := input[i + p.len..];
    RestAfter(input, i, p.len);
    ExpandedStep(input[i..], p, rest, status, env);
    Associate(before, p.out, Expanded(rest, status, env));
  }

  lemma ScanOver(input: string, status: int, env: Environment, before: string)
    ensures Total(input, |input|, status, env, before) == before
  {
    assert before + "" == before;
  }

  method ExpandTurn(input: string, i: nat, sb: StrBuf, status: int, env: Environment) returns (i': nat)
    requires i < |input| && NUL !in input && sb.Valid() && -0x8000_0000 <= status < 0x8000_0000
    modifies sb, sb.data
    ensures sb.Valid() && (sb.data == old(sb.data) || fresh(sb.data))
    ensures i < i' <= |input| && Total(input, i', status, env, sb.text) == Total(input, i, status, env, old(sb.text))
  {
    ghost var p := StepAt(input[i..], status, env);
    ScanGoesOn(input, i, p, status, env, sb.text);
    i' := ExpandStep(input, i, sb, status, env);
  }

  lemma {:induction false} ExpandedNulFree(s: string, status: int, env: Environment)
    requires NUL !in s && NulFree(env) && -0x8000_0000 <= status < 0x8000_0000
    ensures NUL !in Expanded(s, status, env)
    decreases |s|
  {
    if s != "" {
      var p := StepAt(s, status, env);
      DecimalFits(status);
      assert s[0] in s;
      assert NUL !in p.out;
      ExpandedNulFree(s[p.len..], status, env);
    }
  }

  /** expand_variables: for every word, status and environment, the C string it returns is the
      word's expansion. The scan index grows with every turn. */
  method ExpandVariables(input: string, status: int, env: Environment) returns (data: array<char>)
    requires NUL !in input && NulFree(env) && -0x8000_0000 <= status < 0x8000_0000
    ensures fresh(data) && CStr(data[..], 0) == Expanded(input, status, env)
  {
    var sb := new StrBuf();
    var i := 0;
    ScanBegins(input, status, env);
    while At(input, i) != NUL
      invariant i <= |input| && sb.Valid() && fresh(sb) && fresh(sb.data)
      invariant Total(input, i, status, env, sb.text) == Expanded(input, status, env)
      decreases |input| - i
    {
      i := ExpandTurn(input, i, sb, status, env);
    }
    AtEnd(input, i);
    ScanOver(input, status, env, sb.text);
    ExpandedNulFree(input, status, env);
    data := Terminated(sb);
  }

  // ------------------------------------------------------------ laws of expansion

  // The scan of s has a step boundary at n.
  predicate Boundary(s: string, n: nat, status: int, env: Environment)
    requires n <= |s|
    decreases |s|
  {
    n == 0 || (StepAt(s, status, env).len <= n && Boundary(s[StepAt(s, status, env).len..], n - StepAt(s, status, env).len, status, env))
  }

  lemma BracesAreLocal(s: string, t: string, status: int, env: Environment)
    requires |s| >= 2 && s[0] == '$' && s[1] == '{' && StepAt(s + t, status, env).len <= |s|
    ensures StepAt(s, status, env) == StepAt(s + t, status, env)
  {
    var st := s + t;
    var k := BraceLen(st[2..], NAME_CAP);
    assert forall i :: 0 <= i < |s| - 2 ==> s[2..][i] == st[2..][i];
    if At(st, 2 + k) == '}' {
      BraceLenIs(s[2..], k, NAME_CAP);
      assert st[2..2 + k] == s[2..2 + k];
    } else {
      BraceLenIs(s[2..], Min(k, |s| - 2), NAME_CAP);
    }
  }

  lemma NameIsLocal(s: string, t: string, status: int, env: Environment)
    requires |s| >= 2 && s[0] == '$' && IsNameStart(s[1]) && StepAt(s + t, status, env).len <= |s|
    ensures StepAt(s, status, env) == StepAt(s + t, status, env)
  {
    var st := s + t;
    var k := NameLen(st[1..], NAME_CAP);
    assert forall i :: 0 <= i < |s| - 1 ==> s[1..][i] == st[1..][i];
    NameLenIs(s[1..], k, NAME_CAP);
    assert st[1..1 + k] == s[1..1 + k];
  }

  /** A step that ends within s does not depend on what follows s. */
  lemma StepIsLocal(s: string, t: string, status: int, env: Environment)
    requires s != "" && StepAt(s + t, status, env).len <= |s|
    ensures StepAt(s, status, env) == StepAt(s + t, status, env)
  {
    if s[0] == '$' && |s| >= 2 && s[1] == '{' {
      BracesAreLocal(s, t, status, env);
    } else if s[0] == '$' && |s| >= 2 && IsNameStart(s[1]) {
      NameIsLocal(s, t, status, env);
    }
  }

  lemma DropWithin(s: string, t: string, n: nat)
    requires n <= |s|
    ensures (s + t)[n..] == s[n..] + t
  {
  }

  /** Expansion distributes over concatenation wherever the scan of the whole has a boundary. */
  lemma {:induction false} ExpandSplits(s: string, t: string, status: int, env: Environment)
    requires Boundary(s + t, |s|, status, env)
    ensures Expanded(s + t, status, env) == Expanded(s, status, env) + Expanded(t, status, env)
    decreases |s|
  {
    if s == "" {
      assert s + t == t;
    } else {
      StepIsLocal(s, t, status, env);
      var p := StepAt(s, status, env);
      var rest := s[p.len..];
      DropWithin(s, t, p.len);
      assert Expanded(s + t, status, env) == p.out + Expanded(rest + t, status, env);
      ExpandSplits(rest, t, status, env);
      assert Expanded(s, status, env) == p.out + Expanded(rest, status, env);
      Associate(p.out, Expanded(rest, status, env), Expanded(t, status, env));
    }
  }

  // What a string of decimal digits is worth, by position.
  function Worth(digits: string): int {
    if digits == "" then 0 else 10 * Worth(digits[..|digits| - 1]) + (digits[|digits| - 1] as int - '0' as int)
  }

  /** The decimal numeral of n: digits only, no leading zero but in "0" itself, and worth n. */
  predicate IsNumeral(digits: string, n: int) {
    && digits != "" && (forall c :: c in digits ==> '0' <= c <= '9')
    && (digits[0] == '0' ==> digits == "0")
    && Worth(digits) == n
  }

  lemma {:induction false} DigitsAreNumeral(n: nat)
    ensures IsNumeral(Digits(n), n) && (n > 0 ==> Digits(n)[0] != '0')
  {
    if n < 10 {
      assert Digits(n)[..0] == "";
    } else {
      DigitsAreNumeral(n / 10);
      var init, last := Digits(n / 10), ('0' as int + n % 10) as char;
      assert Digits(n) == init + [last] && Digits(n)[..|init|] == init;
    }
  }

  /** $? becomes the last status in decimal, a minus sign in front of it exactly if it is negative,
      and the scan goes on right after the question mark. */
  lemma StatusExpands(rest: string, status: int, env: Environment) returns (numeral: string)
    ensures Expanded("$?" + rest, status, env) == numeral + Expanded(rest, status, env)
    ensures status >= 0 ==> IsNumeral(numeral, status)
    ensures status < 0 ==> numeral != "" && numeral[0] == '-' && IsNumeral(numeral[1..], -status)
  {
    var s := "$?" + rest;
    assert s[2..] == rest && s[0] == '$' && s[1] == '?';
    numeral := Decimal(status);
    DigitsAreNumeral(if status < 0 then -status else status);
    if status < 0 {
      assert numeral[1..] == Digits(-status);
    }
  }

  /** A dollar sign that nothing follows, or a character that begins no expansion, stays. */
  lemma DollarStays(rest: string, status: int, env: Environment)
    requires rest == "" || !(rest[0] == '?' || rest[0] == '{' || rest[0] == '_' || 'a' <= rest[0] <= 'z' || 'A' <= rest[0] <= 'Z')
    ensures Expanded("$" + rest, status, env) == "$" + Expanded(rest, status, env)
  {
    var s := "$" + rest;
    assert s[1..] == rest && s[0] == '$' && At(s, 1) == At(rest, 0);
  }

  /** Any other character stands for itself. */
  lemma CharacterStays(c: char, rest: string, status: int, env: Environment)
    requires c != '$'
    ensures Expanded([c] + rest, status, env) == [c] + Expanded(rest, status, env)
  {
    assert ([c] + rest)[1..] == rest;
  }

  /** ${name}: the variable's value, word for word even if it holds a '$', or nothing if it is not set,
      exactly when the name fits 255 characters; a longer one leaves the '$' and the braces as they
      are. No variable has the empty name. */
  lemma BracesExpand(name: string, rest: string, status: int, env: Environment)
    requires '}' !in name
    ensures Expanded("${" + name + "}" + rest, status, env) ==
      if |name| <= 255 then (if name != "" && name in env then env[name] else "") + Expanded(rest, status, env)
      else "$" + Expanded("{" + name + "}" + rest, status, env)
  {
    var s := "${" + name + "}" + rest;
    var u := s[2..];
    assert u == name + "}" + rest;
    forall i | 0 <= i < |name| ensures u[i] != '}' {
      assert u[i] == name[i] && name[i] in name;
    }
    if |name| <= NAME_CAP {
      BraceLenIs(u, |name|, NAME_CAP);
      assert s[2..2 + |name|] == name;
      assert s[|name| + 3..] == rest;
    } else {
      BraceLenIs(u, NAME_CAP, NAME_CAP);
      assert s[1..] == "{" + name + "}" + rest;
    }
  }

  lemma NameStep(name: string, rest: string, status: int, env: Environment)
    requires name != "" && IsNameStart(name[0]) && forall i :: 0 <= i < |name| ==> IsNameChar(name[i])
    requires rest != "" ==> !IsNameChar(rest[0])
    ensures var k := Min(|name|, NAME_CAP); StepAt("$" + (name + rest), status, env) == Piece(Lookup(env, name[..k]), 1 + k)
  {
    var u := name + rest;
    var s := "$" + u;
    var k := Min(|name|, NAME_CAP);
    assert s[1..] == u;
    NameLenIs(u, k, NAME_CAP);
    assert s[1..1 + k] == u[..k] == name[..k];
  }

  /** And with no closing brace within 255 characters the '$' stays. */
  lemma BracesUnclosed(s: string, status: int, env: Environment)
    requires forall i :: 0 <= i < |s| && i <= 255 ==> s[i] != '}'
    ensures Expanded("${" + s, status, env) == "$" + Expanded("{" + s, status, env)
  {
    var all := "${" + s;
    assert all[2..] == s && all[1..] == "{" + s;
    BraceLenIs(s, Min(|s|, NAME_CAP), NAME_CAP);
  }

  lemma AfterName(name: string, rest: string, k: nat)
    requires k <= |name|
    ensures ("$" + (name + rest))[1 + k..] == name[k..] + rest
  {
    var u := name + rest;
    assert ("$" + u)[1 + k..] == u[k..];
    DropWithin(name, rest, k);
  }

  lemma NameChars(name: string)
    requires forall c :: c in name ==> c == '_' || 'a' <= c <= 'z' || 'A' <= c <= 'Z' || '0' <= c <= '9'
    ensures forall i :: 0 <= i < |name| ==> IsNameChar(name[i])
  {
    forall i | 0 <= i < |name| ensures IsNameChar(name[i]) {
      assert name[i] in name;
    }
  }

  /** $NAME takes the longest name, of letters, digits and underscores, that fits 255 characters, and the
      scan goes on right after it. */
  lemma NameExpands(name: string, rest: string, status: int, env: Environment)
    requires name != "" && !('0' <= name[0] <= '9')
    requires forall c :: c in name ==> c == '_' || 'a' <= c <= 'z' || 'A' <= c <= 'Z' || '0' <= c <= '9'
    requires rest == "" || !(rest[0] == '_' || 'a' <= rest[0] <= 'z' || 'A' <= rest[0] <= 'Z' || '0' <= rest[0] <= '9')
    ensures var k := if |name| < 255 then |name| else 255;
      Expanded("$" + (name + rest), status, env) == (if name[..k] in env then env[name[..k]] else "") + Expanded(name[k..] + rest, status, env)
  {
    var k := Min(|name|, NAME_CAP);
    NameChars(name);
    NameStep(name, rest, status, env);
    AfterName(name, rest, k);
    ExpandedStep("$" + (name + rest), Piece(Lookup(env, name[..k]), 1 + k), name[k..] + rest, status, env);
  }

  /** A word without '$' is its own expansion. */
  lemma {:induction false} LiteralWord(s: string, status: int, env: Environment)
    requires '$' !in s
    ensures Expanded(s, status, env) == s
    decreases |s|
  {
    if s != "" {
      assert s[0] in s;
      LiteralWord(s[1..], status, env);
    }
  }
}
