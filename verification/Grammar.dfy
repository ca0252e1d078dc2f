/** The command language itself: what a user may write, character by character, and what it means.
    Nothing here is defined by the parser; the parser is proved to agree with it. */
module Grammar {
  import opened Options
  import opened Strings
  import opened Limits
  import opened Parser
  import opened Label

  // ------------------------------------------------------------ commands

  // A command is a list of these.
  datatype Item =
    | Argument(word: string)
    | InputFrom(word: string)
    | OutputTo(word: string)
    | AppendTo(word: string)
    | HereDocument(word: string)
    | Ampersand

  // How an item is written, as words.
  function Spelled(item: Item): seq<string> {
    match item
    case Argument(w) => [w]
    case InputFrom(w) => ["<", w]
    case OutputTo(w) => [">", w]
    case AppendTo(w) => [">>", w]
    case HereDocument(w) => ["<<", w]
    case Ampersand => ["&"]
  }

  function WordsOf(items: seq<Item>): seq<string> {
    if items == [] then [] else WordsOf(items[..|items| - 1]) + Spelled(items[|items| - 1])
  }

  // What a list of items stands for: the arguments in order, and the last target of each kind.
  function Meaning(items: seq<Item>): Cmd {
    if items == [] then Cmd([], None, None, false, false, None)
    else
      var c := Meaning(items[..|items| - 1]);
      match items[|items| - 1]
      case Argument(w) => c.(args := c.args + [w])
      case InputFrom(w) => c.(input := Some(w))
      case OutputTo(w) => c.(output := Some(w), append := false)
      case AppendTo(w) => c.(output := Some(w), append := true)
      case HereDocument(w) => c.(delim := Some(w))
      case Ampersand => c.(background := true)
  }

  // An argument is a word that is none of the operators; any word can be a target.
  predicate IsItem(item: Item) {
    item.Argument? ==> item.word !in {"<", ">", ">>", "<<", "&"}
  }

  /** Items that are all reached: only the last can be the 63rd argument. */
  predicate Complete(items: seq<Item>) {
    && (forall i :: 0 <= i < |items| ==> IsItem(items[i]))
    && (items != [] ==> |Meaning(items[..|items| - 1]).args| < 63)
  }

  lemma OneItem(c: Cmd, item: Item)
    requires |c.args| < 63 && IsItem(item)
    ensures ParseWords(c, Spelled(item)) == Some(match item
      case Argument(w) => c.(args := c.args + [w])
      case InputFrom(w) => c.(input := Some(w))
      case OutputTo(w) => c.(output := Some(w), append := false)
      case AppendTo(w) => c.(output := Some(w), append := true)
      case HereDocument(w) => c.(delim := Some(w))
      case Ampersand => c.(background := true))
  {
    var w := if item.Ampersand? then "" else item.word;
    WordsMean(c, w, []);
    assert Spelled(item) + [] == Spelled(item);
  }

  lemma ArgumentsGrow(items: seq<Item>)
    requires items != []
    ensures |Meaning(items[..|items| - 1]).args| <= |Meaning(items).args|
  {
  }

  lemma CompleteBefore(items: seq<Item>)
    requires items != [] && Complete(items)
    ensures Complete(items[..|items| - 1])
  {
    var init := items[..|items| - 1];
    if init != [] {
      ArgumentsGrow(init);
    }
  }

  /** A command's words parse to what its items mean. */
  lemma {:induction false} CommandMeans(items: seq<Item>)
    requires Complete(items)
    ensures ParseWords(Cmd([], None, None, false, false, None), WordsOf(items)) == Some(Meaning(items))
    decreases |items|
  {
    if items != [] {
      var init, last := items[..|items| - 1], items[|items| - 1];
      CompleteBefore(items);
      CommandMeans(init);
      ParseSplit(BLANK_CMD, WordsOf(init), Spelled(last));
      OneItem(Meaning(init), last);
    }
  }

  /** With an operator at the end and no word after it, they do not parse. */
  lemma CommandFails(items: seq<Item>, operator: string)
    requires Complete(items) && |Meaning(items).args| < 63
    requires operator in {"<", ">", ">>", "<<"}
    ensures ParseWords(Cmd([], None, None, false, false, None), WordsOf(items) + [operator]) == None
  {
    CommandMeans(items);
    ParseSplit(BLANK_CMD, WordsOf(items), [operator]);
    WordsMean(Meaning(items), "", []);
  }

  lemma WordsOfStep(items: seq<Item>, last: Item)
    ensures WordsOf(items + [last]) == WordsOf(items) + Spelled(last)
  {
    var all := items + [last];
    assert all[..|all| - 1] == items && all[|all| - 1] == last;
  }

  lemma AssociateWords(a: seq<string>, b: seq<string>, c: seq<string>)
    ensures a + (b + c) == (a + b) + c
  {
  }

  lemma ConsSnoc(item: Item, items: seq<Item>)
    requires items != []
    ensures [item] + items == ([item] + items[..|items| - 1]) + [items[|items| - 1]]
    ensures items == items[..|items| - 1] + [items[|items| - 1]]
  {
  }

  // An item in front of others.
  lemma {:induction false} ItemInFront(item: Item, items: seq<Item>)
    ensures WordsOf([item] + items) == Spelled(item) + WordsOf(items)
    decreases |items|
  {
    if items == [] {
      WordsOfStep([], item);
      assert [] + [item] == [item] + items;
      assert [] + Spelled(item) == Spelled(item) + [];
    } else {
      var init, last := items[..|items| - 1], items[|items| - 1];
      ConsSnoc(item, items);
      ItemInFront(item, init);
      WordsOfStep([item] + init, last);
      WordsOfStep(init, last);
      AssociateWords(Spelled(item), WordsOf(init), Spelled(last));
    }
  }

  // The item at the front of a list of words.
  function FirstItem(words: seq<string>): Item
    requires words != []
    requires words[0] in {"<", ">", ">>", "<<"} ==> |words| > 1
  {
    if words[0] == "&" then Ampersand
    else if words[0] == "<" then InputFrom(words[1])
    else if words[0] == ">" then OutputTo(words[1])
    else if words[0] == ">>" then AppendTo(words[1])
    else if words[0] == "<<" then HereDocument(words[1])
    else Argument(words[0])
  }

  lemma FirstItemSpelled(words: seq<string>)
    requires words != [] && (words[0] in {"<", ">", ">>", "<<"} ==> |words| > 1)
    ensures var n := |Spelled(FirstItem(words))|;
      0 < n <= |words| && words == Spelled(FirstItem(words)) + words[n..] && IsItem(FirstItem(words))
  {
  }

  /** And any words at all are a list of items, but for an operator that may be left over at the end. */
  lemma {:induction false} AnyWordsAreItems(words: seq<string>) returns (items: seq<Item>, left: seq<string>)
    ensures words == WordsOf(items) + left && forall i :: 0 <= i < |items| ==> IsItem(items[i])
    ensures left == [] || (|left| == 1 && left[0] in {"<", ">", ">>", "<<"})
    decreases |words|
  {
    if words == [] {
      items, left := [], [];
    } else if |words| == 1 && words[0] in {"<", ">", ">>", "<<"} {
      items, left := [], words;
    } else {
      FirstItemSpelled(words);
      var item := FirstItem(words);
      var more;
      more, left := AnyWordsAreItems(words[|Spelled(item)|..]);
      items := [item] + more;
      ItemInFront(item, more);
      assert Spelled(item) + (WordsOf(more) + left) == (Spelled(item) + WordsOf(more)) + left;
    }
  }

  // ------------------------------------------------------------ characters

  predicate BlankRun(gap: string) {
    forall c :: c in gap ==> c in {' ', '\t', '\r', '\n'}
  }

  // What may stand between blanks and bars.
  predicate IsWord(word: string) {
    word != "" && forall c :: c in word ==> c !in {' ', '\t', '\r', '\n', '|'}
  }

  // Words with blanks between them, and perhaps around them.
  predicate Separates(gaps: seq<string>, words: seq<string>) {
    && |gaps| == |words| + 1
    && (forall i :: 0 <= i < |words| ==> IsWord(words[i]))
    && (forall i :: 0 <= i < |gaps| ==> BlankRun(gaps[i]))
    && (forall i :: 0 < i < |words| ==> gaps[i] != "")
  }

  function Spaced(words: seq<string>, gaps: seq<string>): string
    requires |gaps| == |words| + 1
  {
    var n := |words|;
    if n == 0 then gaps[0] else Spaced(words[..n - 1], gaps[..n]) + words[n - 1] + gaps[n]
  }

  function Barred(texts: seq<string>): string {
    if |texts| == 0 then ""
    else if |texts| == 1 then texts[0]
    else Barred(texts[..|texts| - 1]) + "|" + texts[|texts| - 1]
  }

  lemma BlanksAreDelims(gap: string)
    requires BlankRun(gap)
    ensures forall i :: 0 <= i < |gap| ==> IsDelim(Blanks, gap[i]) && !IsDelim(Bar, gap[i])
  {
    forall i | 0 <= i < |gap| ensures IsDelim(Blanks, gap[i]) && !IsDelim(Bar, gap[i]) {
      assert gap[i] in gap;
    }
  }

  lemma BlanksHoldNothing(gap: string)
    requires BlankRun(gap)
    ensures Tokens(gap, Blanks) == []
  {
    BlanksAreDelims(gap);
    SkipDelims(gap, Blanks, |gap|);
  }

  lemma WordsAreClean(word: string)
    requires IsWord(word)
    ensures NoDelim(word, Blanks) && NoDelim(word, Bar)
  {
    forall i | 0 <= i < |word| ensures !IsDelim(Blanks, word[i]) && !IsDelim(Bar, word[i]) {
      assert word[i] in word;
    }
  }

  // Blanks after a text add no word to it.
  lemma BlanksBehind(text: string, gap: string)
    requires BlankRun(gap)
    ensures Tokens(text + gap, Blanks) == Tokens(text, Blanks)
  {
    if gap == "" {
      assert text + gap == text;
    } else {
      BlanksAreDelims(gap);
      var rest := gap[1..];
      assert text + gap == text + [gap[0]] + rest;
      TokensSplit(text, gap[0], rest, Blanks);
      assert BlankRun(rest);
      BlanksHoldNothing(rest);
    }
  }

  // A word after a text that ends in a blank, or after nothing but blanks.
  lemma WordBehind(text: string, gap: string, word: string)
    requires BlankRun(gap) && IsWord(word) && (gap != "" || text == "")
    ensures Tokens((text + gap) + word, Blanks) == Tokens(text, Blanks) + [word]
  {
    WordsAreClean(word);
    OneToken(word, Blanks);
    if gap == "" {
      assert (text + gap) + word == word;
    } else {
      var n := |gap| - 1;
      BlanksAreDelims(gap);
      assert (text + gap) + word == (text + gap[..n]) + [gap[n]] + word;
      TokensSplit(text + gap[..n], gap[n], word, Blanks);
      assert BlankRun(gap[..n]);
      BlanksBehind(text, gap[..n]);
    }
  }

  // The text before the last gap.
  function Unspaced(words: seq<string>, gaps: seq<string>): string
    requires |gaps| == |words| + 1
  {
    var n := |words|;
    if n == 0 then "" else Spaced(words[..n - 1], gaps[..n]) + words[n - 1]
  }

  lemma SeparatesBefore(gaps: seq<string>, words: seq<string>)
    requires words != [] && Separates(gaps, words)
    ensures Separates(gaps[..|words|], words[..|words| - 1])
  {
  }

  lemma SpacedParts(words: seq<string>, gaps: seq<string>)
    requires |gaps| == |words| + 1
    ensures Spaced(words, gaps) == Unspaced(words, gaps) + gaps[|words|]
  {
  }

  // One word more, between two gaps.
  lemma WordBetween(text: string, gap: string, word: string, next: string, words: seq<string>)
    requires Tokens(text, Blanks) == words
    requires BlankRun(gap) && IsWord(word) && BlankRun(next) && (gap != "" || text == "")
    ensures Tokens((text + gap) + word, Blanks) == words + [word]
    ensures Tokens(((text + gap) + word) + next, Blanks) == words + [word]
  {
    WordBehind(text, gap, word);
    BlanksBehind((text + gap) + word, next);
  }

  lemma UnspacedStep(words: seq<string>, gaps: seq<string>)
    requires words != [] && Separates(gaps, words)
    ensures var n := |words|; var text := Unspaced(words[..n - 1], gaps[..n]);
      && Unspaced(words, gaps) == (text + gaps[n - 1]) + words[n - 1]
      && Spaced(words, gaps) == ((text + gaps[n - 1]) + words[n - 1]) + gaps[n]
      && (gaps[n - 1] != "" || text == "")
  {
    SpacedParts(words[..|words| - 1], gaps[..|words|]);
  }

  lemma OneWordMore(words: seq<string>, gaps: seq<string>)
    requires words != [] && Separates(gaps, words)
    requires Tokens(Unspaced(words[..|words| - 1], gaps[..|words|]), Blanks) == words[..|words| - 1]
    ensures Tokens(Spaced(words, gaps), Blanks) == words
    ensures Tokens(Unspaced(words, gaps), Blanks) == words
  {
    var n := |words|;
    UnspacedStep(words, gaps);
    WordBetween(Unspaced(words[..n - 1], gaps[..n]), gaps[n - 1], words[n - 1], gaps[n], words[..n - 1]);
    assert words[..n - 1] + [words[n - 1]] == words;
  }

  /** The words of a spaced text are the words that were put into it. */
  lemma {:induction false} SpacedWords(words: seq<string>, gaps: seq<string>)
    requires Separates(gaps, words)
    ensures Tokens(Spaced(words, gaps), Blanks) == words
    ensures Tokens(Unspaced(words, gaps), Blanks) == words
    decreases |words|
  {
    if words == [] {
      BlanksHoldNothing(gaps[0]);
    } else {
      SeparatesBefore(gaps, words);
      SpacedWords(words[..|words| - 1], gaps[..|words|]);
      OneWordMore(words, gaps);
    }
  }

  lemma {:induction false} SpacedHasNoBar(words: seq<string>, gaps: seq<string>)
    requires Separates(gaps, words)
    ensures '|' !in Spaced(words, gaps) && (words != [] ==> Spaced(words, gaps) != "")
    decreases |words|
  {
    if words != [] {
      SeparatesBefore(gaps, words);
      SpacedHasNoBar(words[..|words| - 1], gaps[..|words|]);
      assert IsWord(words[|words| - 1]);
    }
    assert BlankRun(gaps[|words|]);
  }

  // What may stand between bars, if it is to be a piece of its own.
  predicate IsPiece(text: string) {
    text != "" && '|' !in text
  }

  lemma PieceIsOneToken(text: string)
    requires IsPiece(text)
    ensures Tokens(text, Bar) == [text]
  {
    forall i | 0 <= i < |text| ensures !IsDelim(Bar, text[i]) {
      assert text[i] in text;
    }
    OneToken(text, Bar);
  }

  /** The pieces of a barred text are the texts that were put into it. */
  lemma {:induction false} BarredPieces(texts: seq<string>)
    requires forall i :: 0 <= i < |texts| ==> IsPiece(texts[i])
    ensures Tokens(Barred(texts), Bar) == texts
    decreases |texts|
  {
    var n := |texts|;
    if n == 1 {
      PieceIsOneToken(texts[0]);
    } else if n > 1 {
      var init, last := texts[..n - 1], texts[n - 1];
      BarredPieces(init);
      PieceIsOneToken(last);
      TokensSplit(Barred(init), '|', last, Bar);
      assert Barred(init) + ['|'] + last == Barred(init) + "|" + last;
      assert init + [last] == texts;
    }
  }

  // ------------------------------------------------------------ lines

  // Each command's items, written as words with blanks around them.
  predicate Written(texts: seq<string>, cmds: seq<seq<Item>>, gaps: seq<seq<string>>) {
    && |texts| == |cmds| == |gaps|
    && forall k :: 0 <= k < |cmds| ==>
         && Complete(cmds[k]) && Separates(gaps[k], WordsOf(cmds[k]))
         && texts[k] == Spaced(WordsOf(cmds[k]), gaps[k])
  }

  function Meanings(cmds: seq<seq<Item>>): seq<Cmd> {
    seq(|cmds|, k requires 0 <= k < |cmds| => Meaning(cmds[k]))
  }

  lemma WrittenParses(texts: seq<string>, cmds: seq<seq<Item>>, gaps: seq<seq<string>>, k: nat)
    requires Written(texts, cmds, gaps) && k < |cmds|
    ensures ParseWords(BLANK_CMD, Tokens(texts[k], Blanks)) == Some(Meaning(cmds[k]))
    ensures Meaning(cmds[k]).args != [] ==> IsPiece(texts[k])
  {
    SpacedWords(WordsOf(cmds[k]), gaps[k]);
    SpacedHasNoBar(WordsOf(cmds[k]), gaps[k]);
    CommandMeans(cmds[k]);
    if WordsOf(cmds[k]) == [] {
      assert cmds[k] == [];
    }
  }

  lemma OnePieceMore(done: seq<Cmd>, pieces: seq<string>, piece: string, cmds: seq<Cmd>, c: Cmd)
    requires ParsePieces(done, pieces) == Some(cmds) && |cmds| < MAX_COMMANDS
    requires ParseWords(BLANK_CMD, Tokens(piece, Blanks)) == Some(c) && c.args != []
    ensures ParsePieces(done, pieces + [piece]) == Some(cmds + [c])
  {
    PiecesSplit(done, pieces, [piece]);
    assert [piece][1..] == [];
  }

  lemma {:induction false} PiecesInOrder(pieces: seq<string>, cmds: seq<Cmd>)
    requires |pieces| == |cmds| <= MAX_COMMANDS
    requires forall k :: 0 <= k < |cmds| ==> ParseWords(BLANK_CMD, Tokens(pieces[k], Blanks)) == Some(cmds[k]) && cmds[k].args != []
    ensures ParsePieces([], pieces) == Some(cmds)
    decreases |cmds|
  {
    if cmds != [] {
      var n := |cmds| - 1;
      PiecesInOrder(pieces[..n], cmds[..n]);
      OnePieceMore([], pieces[..n], pieces[n], cmds[..n], cmds[n]);
      assert pieces[..n] + [pieces[n]] == pieces && cmds[..n] + [cmds[n]] == cmds;
    }
  }

  lemma WrittenPieces(texts: seq<string>, cmds: seq<seq<Item>>, gaps: seq<seq<string>>)
    requires Written(texts, cmds, gaps) && |cmds| <= 16
    requires forall k :: 0 <= k < |cmds| ==> Meaning(cmds[k]).args != []
    ensures ParsePieces([], texts) == Some(Meanings(cmds))
    ensures forall k :: 0 <= k < |texts| ==> IsPiece(texts[k])
  {
    forall k | 0 <= k < |cmds|
      ensures ParseWords(BLANK_CMD, Tokens(texts[k], Blanks)) == Some(Meanings(cmds)[k])
      ensures IsPiece(texts[k])
    {
      WrittenParses(texts, cmds, gaps, k);
    }
    PiecesInOrder(texts, Meanings(cmds));
  }

  lemma {:induction false} BackgroundIffMarked(items: seq<Item>)
    ensures Meaning(items).background <==> Ampersand in items
  {
    if items != [] {
      var init, last := items[..|items| - 1], items[|items| - 1];
      BackgroundIffMarked(init);
      assert items == init + [last];
    }
  }

  lemma LineIsParsed(line: string, pieces: seq<string>, cmds: seq<Cmd>, background: bool)
    requires Tokens(line, Bar) == pieces && ParsePieces([], pieces) == Some(cmds)
    requires cmds != [] && (cmds[|cmds| - 1].background <==> background)
    ensures ParseLine(line) == Some(Line(cmds, background))
  {
  }

  lemma LineOf(texts: seq<string>, cmds: seq<Cmd>, background: bool)
    requires ParsePieces([], texts) == Some(cmds) && forall k :: 0 <= k < |texts| ==> IsPiece(texts[k])
    requires cmds != [] && (cmds[|cmds| - 1].background <==> background)
    ensures ParseLine(Barred(texts)) == Some(Line(cmds, background))
  {
    BarredPieces(texts);
    LineIsParsed(Barred(texts), texts, cmds, background);
  }

  lemma LastIsMarked(cmds: seq<seq<Item>>)
    requires cmds != []
    ensures Meanings(cmds) != [] && (Meanings(cmds)[|Meanings(cmds)| - 1].background <==> Ampersand in cmds[|cmds| - 1])
  {
    BackgroundIffMarked(cmds[|cmds| - 1]);
  }

  /** Every line of up to 16 commands, each with an argument, however its words are spaced, means the
      commands as written, in order; and it runs in the background exactly if the last of them has
      an "&". */
  lemma LineMeans(texts: seq<string>, cmds: seq<seq<Item>>, gaps: seq<seq<string>>)
    requires Written(texts, cmds, gaps) && 1 <= |cmds| <= 16
    requires forall k :: 0 <= k < |cmds| ==> Meaning(cmds[k]).args != []
    ensures ParseLine(Barred(texts)) == Some(Line(Meanings(cmds), Ampersand in cmds[|cmds| - 1]))
  {
    WrittenPieces(texts, cmds, gaps);
    LastIsMarked(cmds);
    LineOf(texts, Meanings(cmds), Ampersand in cmds[|cmds| - 1]);
  }

  lemma BadPiece(done: seq<Cmd>, pieces: seq<string>, cmds: seq<Cmd>, piece: string, rest: seq<string>)
    requires ParsePieces(done, pieces) == Some(cmds) && |cmds| < MAX_COMMANDS
    requires ParseWords(BLANK_CMD, Tokens(piece, Blanks)) == None
    ensures ParsePieces(done, pieces + [piece] + rest) == None
  {
    PiecesSplit(done, pieces, [piece] + rest);
    assert pieces + ([piece] + rest) == pieces + [piece] + rest;
  }

  lemma PiecesInMiddle(texts: seq<string>, piece: string, rest: seq<string>, all: seq<string>)
    requires all == texts + [piece] + rest
    requires (forall k :: 0 <= k < |texts| ==> IsPiece(texts[k])) && IsPiece(piece) && forall i :: 0 <= i < |rest| ==> IsPiece(rest[i])
    ensures forall k :: 0 <= k < |all| ==> IsPiece(all[k])
  {
  }

  lemma BadText(bad: seq<Item>, operator: string, spaces: seq<string>)
    requires Complete(bad) && |Meaning(bad).args| < 63 && operator in {"<", ">", ">>", "<<"}
    requires Separates(spaces, WordsOf(bad) + [operator])
    ensures var piece := Spaced(WordsOf(bad) + [operator], spaces);
      IsPiece(piece) && ParseWords(BLANK_CMD, Tokens(piece, Blanks)) == None
  {
    var words := WordsOf(bad) + [operator];
    SpacedWords(words, spaces);
    SpacedHasNoBar(words, spaces);
    CommandFails(bad, operator);
  }

  /** If instead the next command ends in an operator without its word, the line is an error,
      whatever follows. */
  lemma LineFails(texts: seq<string>, cmds: seq<seq<Item>>, gaps: seq<seq<string>>,
      bad: seq<Item>, operator: string, spaces: seq<string>, rest: seq<string>)
    requires Written(texts, cmds, gaps) && |cmds| < 16
    requires forall k :: 0 <= k < |cmds| ==> Meaning(cmds[k]).args != []
    requires Complete(bad) && |Meaning(bad).args| < 63 && operator in {"<", ">", ">>", "<<"}
    requires Separates(spaces, WordsOf(bad) + [operator])
    requires forall i :: 0 <= i < |rest| ==> IsPiece(rest[i])
    ensures ParseLine(Barred(texts + [Spaced(WordsOf(bad) + [operator], spaces)] + rest)) == None
  {
    var piece := Spaced(WordsOf(bad) + [operator], spaces);
    var all := texts + [piece] + rest;
    BadText(bad, operator, spaces);
    WrittenPieces(texts, cmds, gaps);
    PiecesInMiddle(texts, piece, rest, all);
    BarredPieces(all);
    BadPiece([], texts, Meanings(cmds), piece, rest);
  }

  lemma {:induction false} PiecesFail(done: seq<Cmd>, pre: seq<string>, post: seq<string>)
    requires ParsePieces(done, pre) == None
    ensures ParsePieces(done, pre + post) == None
    decreases |pre|
  {
    assert (pre + post)[0] == pre[0] && (pre + post)[1..] == pre[1..] + post;
    match ParseWords(BLANK_CMD, Tokens(pre[0], Blanks))
    case None =>
    case Some(c) => PiecesFail(if c.args == [] then done else done + [c], pre[1..], post);
  }

  predicate WithoutArguments(piece: string) {
    var c := ParseWords(BLANK_CMD, Tokens(piece, Blanks));
    c.Some? && c.value.args == []
  }

  lemma FirstVanishes(done: seq<Cmd>, piece: string, rest: seq<string>)
    requires WithoutArguments(piece)
    ensures ParsePieces(done, [piece] + rest) == ParsePieces(done, rest)
  {
    assert ([piece] + rest)[1..] == rest;
  }

  lemma PieceVanishes(pieces: seq<string>, piece: string, rest: seq<string>)
    requires WithoutArguments(piece)
    ensures ParsePieces([], pieces + ([piece] + rest)) == ParsePieces([], pieces + rest)
  {
    match ParsePieces([], pieces)
    case None =>
      PiecesFail([], pieces, [piece] + rest);
      PiecesFail([], pieces, rest);
    case Some(cmds) =>
      PiecesSplit([], pieces, [piece] + rest);
      PiecesSplit([], pieces, rest);
      FirstVanishes(cmds, piece, rest);
  }

  lemma BarsCut(before: string, piece: string, after: string)
    ensures Tokens(before + "|" + after, Bar) == Tokens(before, Bar) + Tokens(after, Bar)
    ensures Tokens(before + "|" + piece + "|" + after, Bar) == Tokens(before, Bar) + (Tokens(piece, Bar) + Tokens(after, Bar))
  {
    TokensSplit(before, '|', after, Bar);
    assert before + ['|'] + after == before + "|" + after;
    TokensSplit(piece, '|', after, Bar);
    TokensSplit(before, '|', piece + ['|'] + after, Bar);
    assert before + ['|'] + (piece + ['|'] + after) == before + "|" + piece + "|" + after;
  }

  lemma NoArgumentsNoPiece(items: seq<Item>, gaps: seq<string>)
    requires Complete(items) && Meaning(items).args == [] && Separates(gaps, WordsOf(items))
    ensures var piece := Spaced(WordsOf(items), gaps);
      Tokens(piece, Bar) == if piece == "" then [] else [piece]
    ensures WithoutArguments(Spaced(WordsOf(items), gaps))
  {
    var piece := Spaced(WordsOf(items), gaps);
    SpacedWords(WordsOf(items), gaps);
    SpacedHasNoBar(WordsOf(items), gaps);
    CommandMeans(items);
    if piece != "" {
      PieceIsOneToken(piece);
    }
  }

  lemma PiecesVanish(before: seq<string>, piece: string, after: seq<string>)
    requires WithoutArguments(piece)
    ensures ParsePieces([], before + ((if piece == "" then [] else [piece]) + after)) == ParsePieces([], before + after)
  {
    if piece == "" {
      assert [] + after == after;
    } else {
      PieceVanishes(before, piece, after);
    }
  }

  /** A piece without arguments vanishes, redirections and all. */
  lemma EmptyPieceVanishes(before: string, items: seq<Item>, gaps: seq<string>, after: string)
    requires Complete(items) && Meaning(items).args == [] && Separates(gaps, WordsOf(items))
    ensures ParseLine(before + "|" + Spaced(WordsOf(items), gaps) + "|" + after) == ParseLine(before + "|" + after)
  {
    var piece := Spaced(WordsOf(items), gaps);
    NoArgumentsNoPiece(items, gaps);
    BarsCut(before, piece, after);
    PiecesVanish(Tokens(before, Bar), piece, Tokens(after, Bar));
  }
}
