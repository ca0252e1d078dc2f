/** Expansion of a whole pipeline (expand_pipeline and free_expansions in src/expand.c): every
    word the parser borrowed from the line becomes a block the pipeline owns, and each block
    is given back exactly once. */
module Ownership {
  import opened Options
  import opened Strings
  import opened Expand
  import opened Heap
  import opened Limits

  // A char* in a command: a borrowed slice of the line, or a block of its own.
  datatype Word = Null | Borrowed(text: string) | Owned(id: nat)

  // The fields of command_t that expansion touches.
  datatype Command = Command(args: seq<Word>, argc: nat, inputFile: Word, outputFile: Word)

  // ------------------------------------------------------------ expansion of words, as functions

  predicate HasGlob(s: string) {
    '*' in s || '?' in s || '[' in s
  }

  // glob with GLOB_NOCHECK: None is an error; otherwise at least one path.
  type Globber = string -> Option<seq<string>>

  ghost predicate GoodGlobber(glob: Globber) {
    forall s :: glob(s).Some? ==> glob(s).value != []
  }

  // What one argument expands to.
  function WordsOf(text: string, status: int, env: Environment, glob: Globber): seq<string> {
    var v := Expanded(text, status, env);
    if HasGlob(v) && glob(v).Some? then glob(v).value else [v]
  }

  // What a redirection target expands to: the first match.
  function TargetOf(text: string, status: int, env: Environment, glob: Globber): string {
    var v := Expanded(text, status, env);
    if HasGlob(v) && glob(v).Some? && glob(v).value != [] then glob(v).value[0] else v
  }

  function AllWords(texts: seq<string>, status: int, env: Environment, glob: Globber): seq<string> {
    if texts == [] then []
    else AllWords(texts[..|texts| - 1], status, env, glob) + WordsOf(texts[|texts| - 1], status, env, glob)
  }

  function Take<T>(s: seq<T>, n: nat): seq<T> {
    if |s| <= n then s else s[..n]
  }

  // The argument vector a command is run with: the first 63 words it expands to.
  function ArgvOf(texts: seq<string>, status: int, env: Environment, glob: Globber): seq<string> {
    Take(AllWords(texts, status, env, glob), MAX_ARGS - 1)
  }

  // ------------------------------------------------------------ who owns what

  /** A command as the parser leaves it: between 1 and 63 borrowed arguments, borrowed targets. */
  ghost predicate Parsed(c: Command) {
    && |c.args| == MAX_ARGS && 1 <= c.argc < MAX_ARGS
    && (forall i :: 0 <= i < c.argc ==> c.args[i].Borrowed? && NUL !in c.args[i].text)
    && (c.inputFile.Null? || (c.inputFile.Borrowed? && NUL !in c.inputFile.text))
    && (c.outputFile.Null? || (c.outputFile.Borrowed? && NUL !in c.outputFile.text))
  }

  function ArgTexts(c: Command): seq<string>
    requires c.argc <= |c.args| && forall i :: 0 <= i < c.argc ==> c.args[i].Borrowed?
  {
    seq(c.argc, i requires 0 <= i < c.argc => c.args[i].text)
  }

  function IdsIn(words: seq<Word>): set<nat> {
    set i | 0 <= i < |words| && words[i].Owned? :: words[i].id
  }

  function IdOf(w: Word): set<nat> {
    if w.Owned? then {w.id} else {}
  }

  // The blocks a command owns.
  function IdsOf(c: Command): set<nat>
    requires c.argc <= |c.args|
  {
    IdsIn(c.args[..c.argc]) + IdOf(c.inputFile) + IdOf(c.outputFile)
  }

  ghost predicate DistinctOwned(words: seq<Word>) {
    && (forall i :: 0 <= i < |words| ==> words[i].Owned?)
    && (forall i, j :: 0 <= i < j < |words| ==> words[i].id != words[j].id)
  }

  /** After expansion: every argument and target is a block of its own, no two the same, and
      the argument vector ends in NULL. */
  ghost predicate Owning(c: Command) {
    && |c.args| == MAX_ARGS && 1 <= c.argc < MAX_ARGS && c.args[c.argc] == Null
    && DistinctOwned(c.args[..c.argc])
    && !c.inputFile.Borrowed? && !c.outputFile.Borrowed?
    && IdsIn(c.args[..c.argc]) !! IdOf(c.inputFile) && IdsIn(c.args[..c.argc]) !! IdOf(c.outputFile)
    && IdOf(c.inputFile) !! IdOf(c.outputFile)
  }

  ghost predicate Holds(live: map<nat, string>, words: seq<Word>, texts: seq<string>) {
    |words| == |texts| && forall i :: 0 <= i < |words| ==> words[i].Owned? && words[i].id in live && live[words[i].id] == texts[i]
  }

  ghost predicate HoldsTarget(live: map<nat, string>, w: Word, was: Word, status: int, env: Environment, glob: Globber) {
    if was.Borrowed? then w.Owned? && w.id in live && live[w.id] == TargetOf(was.text, status, env, glob) else w == Null
  }

  // ------------------------------------------------------------ expanding

  // char *word = expand_variables(text, state)
  method ExpandToBlock(heap: Allocator, text: string, status: int, env: Environment) returns (id: nat)
    requires heap.Valid() && NUL !in text && NulFree(env) && -0x8000_0000 <= status < 0x8000_0000
    modifies heap
    ensures heap.Valid() && id == old(heap.next) && heap.next == id + 1
    ensures heap.live == old(heap.live)[id := Expanded(text, status, env)]
  {
    var data := ExpandVariables(text, status, env);
    id := heap.Alloc(CStr(data[..], 0));
  }

  // The state of the new argument list: distinct blocks from `start` on, holding these texts;
  // besides them only `extra` has been allocated since.
  ghost predicate Building(before: map<nat, string>, start: nat, heap: Allocator, words: seq<Word>, texts: seq<string>, extra: set<nat>)
    reads heap
  {
    && heap.Valid() && heap.next >= start
    && DistinctOwned(words) && Holds(heap.live, words, texts)
    && (forall i :: 0 <= i < |words| ==> start <= words[i].id)
    && heap.live.Keys == before.Keys + IdsIn(words) + extra
    && extra !! IdsIn(words) && extra !! before.Keys
    && (forall id :: id in before ==> id < start && heap.live[id] == before[id])
  }

  lemma BuildingAdds(words: seq<Word>, id: nat)
    ensures IdsIn(words + [Owned(id)]) == IdsIn(words) + {id}
  {
    var more := words + [Owned(id)];
    assert forall i :: 0 <= i < |words| ==> more[i] == words[i];
    assert more[|words|] == Owned(id);
  }

  // new_args[n++] = strdup(text)
  method AppendCopy(heap: Allocator, words: seq<Word>, text: string, ghost before: map<nat, string>,
      ghost start: nat, ghost texts: seq<string>, ghost extra: set<nat>)
    returns (more: seq<Word>)
    requires Building(before, start, heap, words, texts, extra)
    modifies heap
    ensures Building(before, start, heap, more, texts + [text], extra) && |more| == |words| + 1
    ensures forall id :: id in extra ==> heap.live[id] == old(heap.live[id])
  {
    var id := heap.Alloc(text);
    more := words + [Owned(id)];
    BuildingAdds(words, id);
    assert forall i :: 0 <= i < |words| ==> words[i].id in heap.live;
  }

  // free(word), once its matches have been copied.
  method DropExtra(heap: Allocator, words: seq<Word>, id: nat, ghost before: map<nat, string>, ghost start: nat, ghost texts: seq<string>)
    requires Building(before, start, heap, words, texts, {id})
    modifies heap
    ensures Building(before, start, heap, words, texts, {})
  {
    assert forall i :: 0 <= i < |words| ==> words[i].id in IdsIn(words);
    heap.Free(Some(id));
  }

  // new_args[n++] = word
  lemma AdoptExtra(heap: Allocator, words: seq<Word>, id: nat, before: map<nat, string>, start: nat, texts: seq<string>)
    requires Building(before, start, heap, words, texts, {id}) && start <= id
    ensures Building(before, start, heap, words + [Owned(id)], texts + [heap.live[id]], {})
  {
    BuildingAdds(words, id);
    assert forall i :: 0 <= i < |words| ==> words[i].id in IdsIn(words);
  }

  lemma PrefixGrows(texts: seq<string>, paths: seq<string>, m: nat)
    requires m < |paths|
    ensures (texts + paths[..m]) + [paths[m]] == texts + paths[..m + 1]
  {
  }

  lemma TakenSoFar(texts: seq<string>, paths: seq<string>, m: nat, n: nat)
    requires m <= |paths| && |texts| + m <= n && (m == |paths| || |texts| + m == n)
    ensures Take(texts + paths, n) == texts + paths[..m]
  {
    assert paths[..m] + paths[m..] == paths;
    assert (texts + paths)[..|texts| + m] == texts + paths[..m];
  }

  method CopyMatches(heap: Allocator, words: seq<Word>, paths: seq<string>, id: nat,
                     ghost before: map<nat, string>, ghost start: nat, ghost texts: seq<string>) returns (more: seq<Word>)
    requires Building(before, start, heap, words, texts, {id}) && |words| < MAX_ARGS - 1
    modifies heap
    ensures Building(before, start, heap, more, Take(texts + paths, MAX_ARGS - 1), {id})
    ensures |more| < MAX_ARGS
  {
    more := words;
    ghost var got := texts;
    var m := 0;
    while m < |paths| && |more| < MAX_ARGS - 1
      invariant m <= |paths| && |more| < MAX_ARGS && |more| == |got| == |texts| + m
      invariant got == texts + paths[..m] && Building(before, start, heap, more, got, {id})
    {
      more := AppendCopy(heap, more, paths[m], before, start, got, {id});
      PrefixGrows(texts, paths, m);
      got, m := got + [paths[m]], m + 1;
    }
    TakenSoFar(texts, paths, m, MAX_ARGS - 1);
  }

  /** One argument: its words are appended as blocks of the pipeline's own, as far as the limit
      of 63 allows, and the intermediate string is either freed or adopted. */
  method ExpandArg(heap: Allocator, words: seq<Word>, text: string, status: int, env: Environment, glob: Globber,
                   ghost before: map<nat, string>, ghost start: nat, ghost texts: seq<string>) returns (more: seq<Word>)
    requires Building(before, start, heap, words, texts, {}) && |words| < MAX_ARGS - 1
    requires NUL !in text && NulFree(env) && -0x8000_0000 <= status < 0x8000_0000
    modifies heap
    ensures Building(before, start, heap, more, Take(texts + WordsOf(text, status, env, glob), MAX_ARGS - 1), {})
    ensures |more| < MAX_ARGS
  {
    assert forall i :: 0 <= i < |words| ==> words[i].id in IdsIn(words);
    var id := ExpandToBlock(heap, text, status, env);
    var v := heap.live[id];
    if HasGlob(v) && glob(v).Some? {
      more := CopyMatches(heap, words, glob(v).value, id, before, start, texts);
      DropExtra(heap, more, id, before, start, Take(texts + glob(v).value, MAX_ARGS - 1));
    } else {
      more := words + [Owned(id)];
      AdoptExtra(heap, words, id, before, start, texts);
      assert |texts + [v]| < MAX_ARGS;
    }
  }

  lemma {:induction false} AllWordsPrefix(texts: seq<string>, i: nat, status: int, env: Environment, glob: Globber)
    requires i <= |texts|
    ensures AllWords(texts[..i], status, env, glob) <= AllWords(texts, status, env, glob)
    decreases |texts| - i
  {
    if i < |texts| {
      AllWordsPrefix(texts, i + 1, status, env, glob);
      assert texts[..i + 1][..i] == texts[..i];
    } else {
      assert texts[..i] == texts;
    }
  }

  lemma TakeOfPrefix(s: seq<string>, t: seq<string>, n: nat)
    requires s <= t && |Take(s, n)| >= n
    ensures Take(t, n) == Take(s, n)
  {
  }

  lemma TakeTwice(s: seq<string>, t: seq<string>, n: nat)
    ensures Take(Take(s, n) + t, n) == Take(s + t, n)
  {
    if |s| > n {
      assert Take(s, n) == s[..n];
      assert (s[..n] + t)[..n] == (s + t)[..n];
    }
  }

  lemma {:induction false} AllWordsNonEmpty(texts: seq<string>, status: int, env: Environment, glob: Globber)
    requires GoodGlobber(glob)
    ensures |AllWords(texts, status, env, glob)| >= |texts|
  {
    if texts != [] {
      AllWordsNonEmpty(texts[..|texts| - 1], status, env, glob);
    }
  }

  lemma AllWordsStep(texts: seq<string>, last: string, status: int, env: Environment, glob: Globber)
    ensures AllWords(texts + [last], status, env, glob) == AllWords(texts, status, env, glob) + WordsOf(last, status, env, glob)
  {
    var all := texts + [last];
    assert all[..|all| - 1] == texts && all[|all| - 1] == last;
  }

  lemma Associate3(a: seq<string>, b: seq<string>, c: seq<string>)
    ensures a + (b + c) == (a + b) + c
  {
  }

  lemma {:induction false} AllWordsSplit(a: seq<string>, b: seq<string>, status: int, env: Environment, glob: Globber)
    ensures AllWords(a + b, status, env, glob) == AllWords(a, status, env, glob) + AllWords(b, status, env, glob)
    decreases |b|
  {
    if b == [] {
      assert a + b == a;
    } else {
      var init, last := b[..|b| - 1], b[|b| - 1];
      assert init + [last] == b;
      Associate3(a, init, [last]);
      AllWordsStep(a + init, last, status, env, glob);
      AllWordsStep(init, last, status, env, glob);
      AllWordsSplit(a, init, status, env, glob);
      Associate3(AllWords(a, status, env, glob), AllWords(init, status, env, glob), WordsOf(last, status, env, glob));
    }
  }

  /** What one argument becomes: with no '*', '?' or '[' left in it after its variables have been
      replaced, that one word; with one, all its matches in order, or itself if glob fails. */
  lemma ArgumentMeans(text: string, status: int, env: Environment, glob: Globber)
    ensures var v := Expanded(text, status, env);
      AllWords([text], status, env, glob) ==
        if ('*' in v || '?' in v || '[' in v) && glob(v).Some? then glob(v).value else [v]
  {
    assert [text][..0] == [];
  }

  /** And a target becomes that word, or its first match. */
  lemma TargetMeans(text: string, status: int, env: Environment, glob: Globber)
    requires GoodGlobber(glob)
    ensures var v := Expanded(text, status, env);
      TargetOf(text, status, env, glob) == if ('*' in v || '?' in v || '[' in v) && glob(v).Some? then glob(v).value[0] else v
  {
  }

  /** The argument vector: what the arguments become, one after the other, up to 63 words. */
  lemma ArgvMeans(texts: seq<string>, status: int, env: Environment, glob: Globber)
    ensures ArgvOf([], status, env, glob) == []
    ensures forall a, b :: texts == a + b ==> AllWords(texts, status, env, glob) == AllWords(a, status, env, glob) + AllWords(b, status, env, glob)
    ensures var all := AllWords(texts, status, env, glob); ArgvOf(texts, status, env, glob) == if |all| <= 63 then all else all[..63]
  {
    forall a, b | texts == a + b
      ensures AllWords(texts, status, env, glob) == AllWords(a, status, env, glob) + AllWords(b, status, env, glob)
    {
      AllWordsSplit(a, b, status, env, glob);
    }
  }

  // What the first i arguments expand to, up to the limit.
  function FirstWords(texts: seq<string>, i: nat, status: int, env: Environment, glob: Globber): seq<string>
    requires i <= |texts|
  {
    Take(AllWords(texts[..i], status, env, glob), MAX_ARGS - 1)
  }

  lemma FirstWordsGrow(texts: seq<string>, i: nat, status: int, env: Environment, glob: Globber)
    requires i < |texts|
    ensures FirstWords(texts, i + 1, status, env, glob) == Take(FirstWords(texts, i, status, env, glob) + WordsOf(texts[i], status, env, glob), MAX_ARGS - 1)
  {
    TakeTwice(AllWords(texts[..i], status, env, glob), WordsOf(texts[i], status, env, glob), MAX_ARGS - 1);
    assert texts[..i + 1][..i] == texts[..i];
  }

  lemma FirstWordsAreAll(texts: seq<string>, i: nat, status: int, env: Environment, glob: Globber)
    requires GoodGlobber(glob) && texts != [] && i <= |texts|
    requires i == |texts| || |FirstWords(texts, i, status, env, glob)| >= MAX_ARGS - 1
    ensures FirstWords(texts, i, status, env, glob) == Take(AllWords(texts, status, env, glob), MAX_ARGS - 1)
    ensures |FirstWords(texts, i, status, env, glob)| >= 1
  {
    AllWordsNonEmpty(texts, status, env, glob);
    if i == |texts| {
      assert texts[..i] == texts;
    } else {
      AllWordsPrefix(texts, i, status, env, glob);
      TakeOfPrefix(AllWords(texts[..i], status, env, glob), AllWords(texts, status, env, glob), MAX_ARGS - 1);
    }
  }

  /** The arguments of one command: the first 63 of all words its arguments expand to, in order,
      each in a block of its own, and at least one if glob keeps its word. */
  method ExpandArgs(heap: Allocator, c: Command, status: int, env: Environment, glob: Globber) returns (words: seq<Word>)
    requires heap.Valid() && Parsed(c) && GoodGlobber(glob)
    requires NulFree(env) && -0x8000_0000 <= status < 0x8000_0000
    modifies heap
    ensures 1 <= |words| < MAX_ARGS
    ensures Building(old(heap.live), old(heap.next), heap, words, ArgvOf(ArgTexts(c), status, env, glob), {})
  {
    ghost var before, start, texts := heap.live, heap.next, ArgTexts(c);
    words := [];
    var i := 0;
    ghost var got := [];
    while i < c.argc && |words| < MAX_ARGS - 1
      invariant i <= c.argc && |words| < MAX_ARGS && |words| == |got|
      invariant got == FirstWords(texts, i, status, env, glob)
      invariant Building(before, start, heap, words, got, {})
    {
      FirstWordsGrow(texts, i, status, env, glob);
      words := ExpandArg(heap, words, c.args[i].text, status, env, glob, before, start, got);
      i, got := i + 1, FirstWords(texts, i + 1, status, env, glob);
    }
    FirstWordsAreAll(texts, i, status, env, glob);
  }

  // expand_word on a redirection target.
  method ExpandTarget(heap: Allocator, w: Word, status: int, env: Environment, glob: Globber) returns (r: Word)
    requires heap.Valid() && (w.Null? || (w.Borrowed? && NUL !in w.text))
    requires NulFree(env) && -0x8000_0000 <= status < 0x8000_0000
    modifies heap
    ensures heap.Valid() && heap.next >= old(heap.next) && !r.Borrowed?
    ensures HoldsTarget(heap.live, r, w, status, env, glob)
    ensures heap.live.Keys == old(heap.live.Keys) + IdOf(r) && IdOf(r) !! old(heap.live.Keys)
    ensures forall id :: id in old(heap.live) ==> heap.live[id] == old(heap.live[id])
  {
    if w.Null? {
      return Null;
    }
    var id := ExpandToBlock(heap, w.text, status, env);
    var v := heap.live[id];
    if HasGlob(v) && glob(v).Some? && glob(v).value != [] {
      var first := heap.Alloc(glob(v).value[0]);
      heap.Free(Some(id));
      r := Owned(first);
    } else {
      r := Owned(id);
    }
  }

  // What expansion makes of one command.
  ghost predicate ExpandedFrom(live: map<nat, string>, was: Command, c: Command, status: int, env: Environment, glob: Globber)
    requires Parsed(was)
  {
    && Owning(c)
    && Holds(live, c.args[..c.argc], ArgvOf(ArgTexts(was), status, env, glob))
    && HoldsTarget(live, c.inputFile, was.inputFile, status, env, glob)
    && HoldsTarget(live, c.outputFile, was.outputFile, status, env, glob)
  }

  // Both targets: two blocks at most, neither the other's nor anyone's before.
  method ExpandTargets(heap: Allocator, c: Command, status: int, env: Environment, glob: Globber) returns (input: Word, output: Word)
    requires heap.Valid() && Parsed(c)
    requires NulFree(env) && -0x8000_0000 <= status < 0x8000_0000
    modifies heap
    ensures heap.Valid() && !input.Borrowed? && !output.Borrowed?
    ensures HoldsTarget(heap.live, input, c.inputFile, status, env, glob)
    ensures HoldsTarget(heap.live, output, c.outputFile, status, env, glob)
    ensures heap.live.Keys == old(heap.live.Keys) + IdOf(input) + IdOf(output)
    ensures IdOf(input) !! old(heap.live.Keys) && IdOf(output) !! old(heap.live.Keys) && IdOf(input) !! IdOf(output)
    ensures forall id :: id in old(heap.live) ==> heap.live[id] == old(heap.live[id])
  {
    input := ExpandTarget(heap, c.inputFile, status, env, glob);
    output := ExpandTarget(heap, c.outputFile, status, env, glob);
  }

  // Copying new_args back into the command, with the NULL that ends the vector.
  function Rebuilt(words: seq<Word>, input: Word, output: Word): (c: Command)
    requires |words| < MAX_ARGS
    ensures |c.args| == MAX_ARGS && c.argc == |words| && c.args[..c.argc] == words && c.args[c.argc] == Null
  {
    Command(words + seq(MAX_ARGS - |words|, _ => Null), |words|, input, output)
  }

  lemma WordsAreLive(words: seq<Word>)
    ensures forall i :: 0 <= i < |words| && words[i].Owned? ==> words[i].id in IdsIn(words)
  {
  }

  lemma BuiltWords(before: map<nat, string>, start: nat, heap: Allocator, words: seq<Word>, texts: seq<string>)
    requires Building(before, start, heap, words, texts, {})
    ensures DistinctOwned(words) && Holds(heap.live, words, texts)
    ensures heap.live.Keys == before.Keys + IdsIn(words) && IdsIn(words) !! before.Keys
    ensures forall id :: id in before ==> heap.live[id] == before[id]
  {
    assert {} + IdsIn(words) == IdsIn(words);
  }

  lemma CommandBuilt(before: map<nat, string>, mid: map<nat, string>, live: map<nat, string>, words: seq<Word>, texts: seq<string>,
      input: Word, output: Word)
    requires 1 <= |words| < MAX_ARGS && DistinctOwned(words) && Holds(mid, words, texts)
    requires mid.Keys == before.Keys + IdsIn(words) && IdsIn(words) !! before.Keys
    requires forall id :: id in before ==> mid[id] == before[id]
    requires !input.Borrowed? && !output.Borrowed?
    requires live.Keys == mid.Keys + IdOf(input) + IdOf(output)
    requires IdOf(input) !! mid.Keys && IdOf(output) !! mid.Keys && IdOf(input) !! IdOf(output)
    requires forall id :: id in mid ==> live[id] == mid[id]
    ensures var r := Rebuilt(words, input, output);
      && Owning(r) && Holds(live, r.args[..r.argc], texts)
      && live.Keys == before.Keys + IdsOf(r) && IdsOf(r) !! before.Keys
    ensures forall id :: id in before ==> live[id] == before[id]
  {
    WordsAreLive(words);
  }

  // One command's turn of expand_pipeline.
  method ExpandCommand(heap: Allocator, c: Command, status: int, env: Environment, glob: Globber) returns (r: Command)
    requires heap.Valid() && Parsed(c) && GoodGlobber(glob)
    requires NulFree(env) && -0x8000_0000 <= status < 0x8000_0000
    modifies heap
    ensures heap.Valid() && ExpandedFrom(heap.live, c, r, status, env, glob)
    ensures heap.live.Keys == old(heap.live.Keys) + IdsOf(r) && IdsOf(r) !! old(heap.live.Keys)
    ensures forall id :: id in old(heap.live) ==> heap.live[id] == old(heap.live[id])
  {
    ghost var before, start := heap.live, heap.next;
    var words := ExpandArgs(heap, c, status, env, glob);
    ghost var mid, texts := heap.live, ArgvOf(ArgTexts(c), status, env, glob);
    BuiltWords(before, start, heap, words, texts);
    var input, output := ExpandTargets(heap, c, status, env, glob);
    r := Rebuilt(words, input, output);
    CommandBuilt(before, mid, heap.live, words, texts, input, output);
  }

  // ------------------------------------------------------------ the whole pipeline

  // The blocks of the first n commands.
  function AllIds(cmds: seq<Command>): set<nat>
    requires forall k :: 0 <= k < |cmds| ==> cmds[k].argc <= |cmds[k].args|
  {
    if cmds == [] then {} else AllIds(cmds[..|cmds| - 1]) + IdsOf(cmds[|cmds| - 1])
  }

  ghost predicate AllOwning(cmds: seq<Command>) {
    forall k :: 0 <= k < |cmds| ==> Owning(cmds[k])
  }

  // No block belongs to two commands.
  ghost predicate Separate(cmds: seq<Command>)
    requires forall k :: 0 <= k < |cmds| ==> cmds[k].argc <= |cmds[k].args|
  {
    forall k, l :: 0 <= k < l < |cmds| ==> IdsOf(cmds[k]) !! IdsOf(cmds[l])
  }

  lemma {:induction false} AllIdsContains(cmds: seq<Command>, k: nat)
    requires AllOwning(cmds) && k < |cmds|
    ensures IdsOf(cmds[k]) <= AllIds(cmds)
    decreases |cmds|
  {
    if k < |cmds| - 1 {
      AllIdsContains(cmds[..|cmds| - 1], k);
    }
  }

  ghost predicate OwnedSince(before: map<nat, string>, live: map<nat, string>, cmds: seq<Command>) {
    && AllOwning(cmds) && Separate(cmds)
    && live.Keys == before.Keys + AllIds(cmds) && AllIds(cmds) !! before.Keys
    && (forall id :: id in before ==> live[id] == before[id])
  }

  ghost predicate AllExpanded(live: map<nat, string>, was: seq<Command>, cmds: seq<Command>, status: int, env: Environment, glob: Globber) {
    && |was| == |cmds|
    && (forall k :: 0 <= k < |was| ==> Parsed(was[k]) && ExpandedFrom(live, was[k], cmds[k], status, env, glob))
  }

  /** What expanding the commands `was` into `cmds` has done to the heap: it has grown by exactly
      the blocks these own, no block belongs to two of them, and nothing that was there changed. */
  ghost predicate Expansion(before: map<nat, string>, live: map<nat, string>, was: seq<Command>, cmds: seq<Command>,
      status: int, env: Environment, glob: Globber) {
    && AllExpanded(live, was, cmds, status, env, glob)
    && OwnedSince(before, live, cmds)
  }

  lemma OneMoreId(done: seq<Command>, r: Command)
    requires AllOwning(done) && Owning(r)
    ensures AllOwning(done + [r]) && AllIds(done + [r]) == AllIds(done) + IdsOf(r)
  {
    var all := done + [r];
    assert all[..|all| - 1] == done && all[|all| - 1] == r;
  }

  lemma OneMoreApart(done: seq<Command>, r: Command)
    requires AllOwning(done) && Owning(r) && Separate(done)
    requires forall k :: 0 <= k < |done| ==> IdsOf(done[k]) !! IdsOf(r)
    ensures AllOwning(done + [r]) && Separate(done + [r])
  {
    var all := done + [r];
    assert forall k :: 0 <= k < |all| ==> all[k] == if k < |done| then done[k] else r;
  }

  lemma OneMore(done: seq<Command>, r: Command, live: set<nat>)
    requires AllOwning(done) && Separate(done) && Owning(r) && AllIds(done) <= live && IdsOf(r) !! live
    ensures AllOwning(done + [r]) && Separate(done + [r])
    ensures AllIds(done + [r]) == AllIds(done) + IdsOf(r)
  {
    OneMoreId(done, r);
    forall k | 0 <= k < |done| ensures IdsOf(done[k]) !! IdsOf(r) {
      AllIdsContains(done, k);
    }
    OneMoreApart(done, r);
  }

  lemma OneMoreOwned(before: map<nat, string>, live: map<nat, string>, grown: map<nat, string>, cmds: seq<Command>, r: Command)
    requires OwnedSince(before, live, cmds) && Owning(r)
    requires grown.Keys == live.Keys + IdsOf(r) && IdsOf(r) !! live.Keys
    requires forall id :: id in live ==> grown[id] == live[id]
    ensures OwnedSince(before, grown, cmds + [r])
  {
    OneMore(cmds, r, live.Keys);
  }

  // Growing the heap leaves what was expanded before as it was.
  lemma StillExpanded(live: map<nat, string>, grown: map<nat, string>, was: seq<Command>, cmds: seq<Command>,
      c: Command, r: Command, status: int, env: Environment, glob: Globber)
    requires AllExpanded(live, was, cmds, status, env, glob)
    requires Parsed(c) && ExpandedFrom(grown, c, r, status, env, glob)
    requires forall id :: id in live ==> id in grown && grown[id] == live[id]
    ensures AllExpanded(grown, was + [c], cmds + [r], status, env, glob)
  {
    forall k | 0 <= k < |was| ensures ExpandedFrom(grown, was[k], cmds[k], status, env, glob) {
    }
  }

  lemma OneMoreExpanded(before: map<nat, string>, live: map<nat, string>, grown: map<nat, string>, was: seq<Command>, cmds: seq<Command>,
      c: Command, r: Command, status: int, env: Environment, glob: Globber)
    requires Expansion(before, live, was, cmds, status, env, glob) && Parsed(c) && ExpandedFrom(grown, c, r, status, env, glob)
    requires grown.Keys == live.Keys + IdsOf(r) && IdsOf(r) !! live.Keys
    requires forall id :: id in live ==> grown[id] == live[id]
    ensures Expansion(before, grown, was + [c], cmds + [r], status, env, glob)
  {
    OneMoreOwned(before, live, grown, cmds, r);
    StillExpanded(live, grown, was, cmds, c, r, status, env, glob);
  }

  /** expand_pipeline: all commands are expanded. Each keeps at least one argument, so args[0] is
      there to be tested as a built-in. */
  method ExpandPipeline(heap: Allocator, commands: array<Command>, n: nat, status: int, env: Environment, glob: Globber)
    requires heap.Valid() && n <= commands.Length && GoodGlobber(glob)
    requires forall k :: 0 <= k < n ==> Parsed(commands[k])
    requires NulFree(env) && -0x8000_0000 <= status < 0x8000_0000
    modifies heap, commands
    ensures heap.Valid() && Expansion(old(heap.live), heap.live, old(commands[..n]), commands[..n], status, env, glob)
    ensures commands[n..] == old(commands[n..])
  {
    ghost var before, was := heap.live, commands[..];
    for c := 0 to n
      invariant heap.Valid() && Expansion(before, heap.live, was[..c], commands[..c], status, env, glob)
      invariant forall k :: c <= k < commands.Length ==> commands[k] == was[k]
    {
      ghost var live, done := heap.live, commands[..c];
      var r := ExpandCommand(heap, commands[c], status, env, glob);
      OneMoreExpanded(before, live, heap.live, was[..c], done, was[c], r, status, env, glob);
      commands[c] := r;
      assert commands[..c + 1] == done + [r] && was[..c + 1] == was[..c] + [was[c]];
    }
  }

  // ------------------------------------------------------------ freeing

  function PtrTo(w: Word): Option<nat> {
    if w.Owned? then Some(w.id) else None
  }

  lemma IdsInSplit(words: seq<Word>)
    requires words != [] && DistinctOwned(words)
    ensures IdsIn(words) == {words[0].id} + IdsIn(words[1..]) && words[0].id !in IdsIn(words[1..])
  {
    forall id | id in IdsIn(words) ensures id in {words[0].id} + IdsIn(words[1..]) {
      var i :| 0 <= i < |words| && words[i].Owned? && words[i].id == id;
      if i > 0 {
        assert words[1..][i - 1] == words[i];
      }
    }
    forall id | id in IdsIn(words[1..]) ensures id in IdsIn(words) && id != words[0].id {
      var i :| 0 <= i < |words[1..]| && words[1..][i].id == id;
      assert words[i + 1].id == id;
    }
  }

  // The inner loop: free(cmd->args[i]); cmd->args[i] = NULL.
  method FreeArgs(heap: Allocator, c: Command) returns (r: Command)
    requires heap.Valid() && Owning(c) && IdsIn(c.args[..c.argc]) <= heap.live.Keys
    modifies heap
    ensures heap.Valid() && heap.live == old(heap.live) - IdsIn(c.args[..c.argc])
    ensures r == c.(args := r.args) && |r.args| == MAX_ARGS && forall i :: 0 <= i < c.argc ==> r.args[i] == Null
  {
    r := c;
    ghost var before := heap.live;
    for i := 0 to c.argc
      invariant heap.Valid() && r == c.(args := r.args) && |r.args| == MAX_ARGS
      invariant forall j :: 0 <= j < i ==> r.args[j] == Null
      invariant forall j :: i <= j < MAX_ARGS ==> r.args[j] == c.args[j]
      invariant DistinctOwned(c.args[i..c.argc]) && IdsIn(c.args[i..c.argc]) <= heap.live.Keys
      invariant heap.live - IdsIn(c.args[i..c.argc]) == before - IdsIn(c.args[..c.argc])
    {
      ghost var rest := c.args[i..c.argc];
      IdsInSplit(rest);
      assert rest[1..] == c.args[i + 1..c.argc] && rest[0] == c.args[i];
      heap.Free(PtrTo(r.args[i]));
      r := r.(args := r.args[i := Null]);
    }
    assert c.args[c.argc..c.argc] == [];
    assert IdsIn([]) == {};
  }

  // One command's turn of free_expansions.
  method FreeCommand(heap: Allocator, c: Command) returns (r: Command)
    requires heap.Valid() && Owning(c) && IdsOf(c) <= heap.live.Keys
    modifies heap
    ensures heap.Valid() && heap.live == old(heap.live) - IdsOf(c)
    ensures r.argc == c.argc <= |r.args| && IdsOf(r) == {}
  {
    r := FreeArgs(heap, c);
    heap.Free(PtrTo(c.inputFile));
    r := r.(inputFile := Null);
    heap.Free(PtrTo(c.outputFile));
    r := r.(outputFile := Null);
  }

  lemma {:induction false} PrefixDisjoint(cmds: seq<Command>, c: nat, k: nat)
    requires AllOwning(cmds) && Separate(cmds) && k <= c < |cmds|
    ensures IdsOf(cmds[c]) !! AllIds(cmds[..k])
  {
    if k > 0 {
      PrefixDisjoint(cmds, c, k - 1);
      assert cmds[..k][..k - 1] == cmds[..k - 1];
    }
  }

  lemma StillLive(cmds: seq<Command>, c: nat)
    requires AllOwning(cmds) && Separate(cmds) && c < |cmds|
    ensures IdsOf(cmds[c]) <= AllIds(cmds) && IdsOf(cmds[c]) !! AllIds(cmds[..c])
  {
    AllIdsContains(cmds, c);
    PrefixDisjoint(cmds, c, c);
  }

  // How far free_expansions has come: the first c commands own nothing any more.
  ghost predicate FreedUpTo(before: map<nat, string>, live: map<nat, string>, was: seq<Command>, cmds: seq<Command>, c: nat)
    requires AllOwning(was)
  {
    && |cmds| == |was| && c <= |was|
    && (forall k :: 0 <= k < c ==> cmds[k].argc <= |cmds[k].args| && IdsOf(cmds[k]) == {})
    && (forall k :: c <= k < |was| ==> cmds[k] == was[k])
    && live == before - AllIds(was[..c])
  }

  lemma OneMoreFreed(before: map<nat, string>, live: map<nat, string>, left: map<nat, string>, was: seq<Command>,
      cmds: seq<Command>, c: nat, r: Command)
    requires AllOwning(was) && c < |was|
    requires FreedUpTo(before, live, was, cmds, c)
    requires left == live - IdsOf(was[c]) && r.argc <= |r.args| && IdsOf(r) == {}
    ensures FreedUpTo(before, left, was, cmds[c := r], c + 1)
  {
    assert was[..c + 1][..c] == was[..c];
  }

  // The loop of free_expansions, over the n commands in use.
  method FreeExpansions(heap: Allocator, commands: array<Command>, n: nat)
    requires heap.Valid() && n <= commands.Length && AllOwning(commands[..n]) && Separate(commands[..n])
    requires AllIds(commands[..n]) <= heap.live.Keys
    modifies heap, commands
    ensures heap.Valid() && FreedUpTo(old(heap.live), heap.live, old(commands[..n]), commands[..n], n)
  {
    ghost var before, was := heap.live, commands[..n];
    for c := 0 to n
      invariant heap.Valid() && FreedUpTo(before, heap.live, was, commands[..n], c)
    {
      ghost var live, cmds := heap.live, commands[..n];
      assert commands[c] == cmds[c] == was[c];
      StillLive(was, c);
      var r := FreeCommand(heap, commands[c]);
      OneMoreFreed(before, live, heap.live, was, cmds, c, r);
      commands[c] := r;
      assert commands[..n] == cmds[c := r];
    }
  }

  // The argument vectors the expanded commands are run with.
  method ReadArgs(heap: Allocator, c: Command, ghost texts: seq<string>) returns (argv: seq<string>)
    requires c.argc <= |c.args| && Holds(heap.live, c.args[..c.argc], texts)
    ensures argv == texts
  {
    argv := [];
    for i := 0 to c.argc
      invariant argv == texts[..i]
    {
      assert c.args[..c.argc][i] == c.args[i];
      argv := argv + [heap.live[c.args[i].id]];
    }
  }

  // What a command is run with: its argument vector, and the files it is redirected to.
  datatype Program = Program(argv: seq<string>, input: Option<string>, output: Option<string>)

  function TargetText(w: Word, status: int, env: Environment, glob: Globber): Option<string> {
    if w.Borrowed? then Some(TargetOf(w.text, status, env, glob)) else None
  }

  ghost function ProgramOf(was: Command, status: int, env: Environment, glob: Globber): Program
    requires Parsed(was)
  {
    Program(ArgvOf(ArgTexts(was), status, env, glob), TargetText(was.inputFile, status, env, glob),
      TargetText(was.outputFile, status, env, glob))
  }

  // Every command is run with the first 63 words it expands to, redirected to what its targets
  // expand to.
  ghost predicate RunWith(was: seq<Command>, programs: seq<Program>, status: int, env: Environment, glob: Globber) {
    |programs| == |was| && forall k :: 0 <= k < |was| ==> Parsed(was[k]) && programs[k] == ProgramOf(was[k], status, env, glob)
  }

  lemma HoldsItsArgs(live: map<nat, string>, was: seq<Command>, cmds: seq<Command>, k: nat, status: int, env: Environment, glob: Globber)
    requires AllExpanded(live, was, cmds, status, env, glob) && k < |was|
    ensures Parsed(was[k]) && cmds[k].argc <= |cmds[k].args|
    ensures Holds(live, cmds[k].args[..cmds[k].argc], ArgvOf(ArgTexts(was[k]), status, env, glob))
    ensures HoldsTarget(live, cmds[k].inputFile, was[k].inputFile, status, env, glob)
    ensures HoldsTarget(live, cmds[k].outputFile, was[k].outputFile, status, env, glob)
  {
    assert ExpandedFrom(live, was[k], cmds[k], status, env, glob);
  }

  method ReadTarget(heap: Allocator, w: Word, ghost was: Word, ghost status: int, ghost env: Environment, ghost glob: Globber)
    returns (text: Option<string>)
    requires HoldsTarget(heap.live, w, was, status, env, glob)
    ensures text == TargetText(was, status, env, glob)
  {
    text := if w.Owned? then Some(heap.live[w.id]) else None;
  }

  method ReadProgram(heap: Allocator, c: Command, ghost was: Command, ghost status: int, ghost env: Environment, ghost glob: Globber)
    returns (r: Program)
    requires Parsed(was) && c.argc <= |c.args| && Holds(heap.live, c.args[..c.argc], ArgvOf(ArgTexts(was), status, env, glob))
    requires HoldsTarget(heap.live, c.inputFile, was.inputFile, status, env, glob)
    requires HoldsTarget(heap.live, c.outputFile, was.outputFile, status, env, glob)
    ensures r == ProgramOf(was, status, env, glob)
  {
    var argv := ReadArgs(heap, c, ArgvOf(ArgTexts(was), status, env, glob));
    var input := ReadTarget(heap, c.inputFile, was.inputFile, status, env, glob);
    var output := ReadTarget(heap, c.outputFile, was.outputFile, status, env, glob);
    r := Program(argv, input, output);
  }

  method ReadNext(heap: Allocator, commands: array<Command>, n: nat, c: nat, ghost was: seq<Command>, ghost status: int,
      ghost env: Environment, ghost glob: Globber)
    returns (r: Program)
    requires c < n <= commands.Length && AllExpanded(heap.live, was, commands[..n], status, env, glob)
    ensures Parsed(was[c]) && r == ProgramOf(was[c], status, env, glob)
  {
    ghost var cmds := commands[..n];
    assert cmds[c] == commands[c];
    HoldsItsArgs(heap.live, was, cmds, c, status, env, glob);
    r := ReadProgram(heap, commands[c], was[c], status, env, glob);
  }

  method ReadPrograms(heap: Allocator, commands: array<Command>, n: nat, ghost was: seq<Command>, ghost status: int,
      ghost env: Environment, ghost glob: Globber)
    returns (programs: seq<Program>)
    requires n <= commands.Length && AllExpanded(heap.live, was, commands[..n], status, env, glob)
    ensures RunWith(was, programs, status, env, glob)
  {
    programs := [];
    for c := 0 to n
      invariant |programs| == c
      invariant forall k :: 0 <= k < c ==> Parsed(was[k]) && programs[k] == ProgramOf(was[k], status, env, glob)
    {
      var r := ReadNext(heap, commands, n, c, was, status, env, glob);
      programs := programs + [r];
    }
  }

  lemma RemoveAdded(before: map<nat, string>, live: map<nat, string>, ids: set<nat>)
    requires live.Keys == before.Keys + ids && ids !! before.Keys
    requires forall id :: id in before ==> live[id] == before[id]
    ensures live - ids == before
  {
    assert (live - ids).Keys == before.Keys;
  }

  // What the expanded commands own is all there is to free.
  lemma FreeRestores(before: map<nat, string>, live: map<nat, string>, cmds: seq<Command>)
    requires OwnedSince(before, live, cmds)
    ensures AllOwning(cmds) && AllIds(cmds) <= live.Keys && cmds[..|cmds|] == cmds
    ensures live - AllIds(cmds) == before
  {
    RemoveAdded(before, live, AllIds(cmds));
  }

  /** Expanding for a run: every command is there to be run with what it expands to, and the heap
      has grown by its blocks alone. */
  method ExpandForRun(heap: Allocator, commands: array<Command>, n: nat, status: int, env: Environment, glob: Globber)
    returns (programs: seq<Program>)
    requires heap.Valid() && n <= commands.Length && GoodGlobber(glob)
    requires forall k :: 0 <= k < n ==> Parsed(commands[k])
    requires NulFree(env) && -0x8000_0000 <= status < 0x8000_0000
    modifies heap, commands
    ensures heap.Valid() && OwnedSince(old(heap.live), heap.live, commands[..n])
    ensures RunWith(old(commands[..n]), programs, status, env, glob)
  {
    ghost var was := commands[..n];
    ExpandPipeline(heap, commands, n, status, env, glob);
    programs := ReadPrograms(heap, commands, n, was, status, env, glob);
  }

  /** Freeing after the run leaves the heap exactly as it was before the expansion. */
  method FreeAfterRun(heap: Allocator, commands: array<Command>, n: nat, ghost before: map<nat, string>)
    requires heap.Valid() && n <= commands.Length && OwnedSince(before, heap.live, commands[..n])
    modifies heap, commands
    ensures heap.Valid() && heap.live == before
  {
    ghost var was := commands[..n];
    FreeRestores(before, heap.live, was);
    FreeExpansions(heap, commands, n);
    assert was[..n] == was;
  }
}
