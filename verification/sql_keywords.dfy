/** Where keywords stand, and which texts raise the dangerous-keyword finding. */
module SqlKeywords {
  import opened SqlTokens
  import opened Sqli

  predicate Wordy(cl: Classes, c: char) {
    Continues(cl, Word, c)
  }

  predicate Mark(c: char) {
    c in "'\"/*-#.=<>!+%&|^~()[]{};,\n"
  }

  /** What is true of the Unicode tables: no mark and no white space is a letter or a digit, nothing is both
      of these, quotes and the semicolon are no white space, and upper-casing goes character by character. */
  ghost predicate Sane(cl: Classes) {
    && (forall c :: Mark(c) ==> !Wordy(cl, c))
    && (forall c :: cl.isSpace(c) ==> !Wordy(cl, c))
    && (forall c :: c in ";'\"" ==> !cl.isSpace(c))
    && (forall c :: cl.isLetter(c) ==> !cl.isDigit(c))
    && !cl.isDigit('_')
    && (forall word :: |cl.upper(word)| == |word|)
  }

  const ASCII := Classes(c => c in " \t\n\r", c => '0' <= c <= '9', c => 'a' <= c <= 'z' || 'A' <= c <= 'Z',
                         word => word)

  lemma MarkIsNoAsciiWord(c: char)
    requires Mark(c)
    ensures !Wordy(ASCII, c)
  {
  }

  lemma AsciiIsSane()
    ensures Sane(ASCII)
  {
    hide Mark;
    forall c | Mark(c)
      ensures !Wordy(ASCII, c)
    {
      MarkIsNoAsciiWord(c);
    }
  }

  /** A word may begin at p: the word characters just before it, if any, are all digits. */
  predicate Begins(cl: Classes, text: string, p: nat)
    requires p <= |text|
  {
    p == 0 || !Wordy(cl, text[p - 1]) || (cl.isDigit(text[p - 1]) && Begins(cl, text, p - 1))
  }

  // ---- the scanner stops only where a word may begin ----

  /** But for the last character, which an unterminated comment leaves behind. */
  predicate Stops(cl: Classes, text: string, i: nat) {
    i + 1 < |text| && Wordy(cl, text[i]) ==> Begins(cl, text, i)
  }

  lemma {:induction false} DigitsBegin(cl: Classes, text: string, i: nat, end: nat)
    requires Sane(cl) && i < end <= |text| && forall k :: i <= k < end ==> Continues(cl, Digits, text[k])
    requires Wordy(cl, text[i]) ==> Begins(cl, text, i)
    ensures Begins(cl, text, end)
  {
    assert Continues(cl, Digits, text[end - 1]);
    if text[end - 1] == '.' {
      assert Mark('.');
    } else if end - 1 > i {
      DigitsBegin(cl, text, i, end - 1);
    }
  }

  lemma MarkEnds(cl: Classes, text: string, end: nat)
    requires Sane(cl) && 0 < end <= |text| && Mark(text[end - 1])
    ensures Begins(cl, text, end)
  {
  }

  lemma StringStops(cl: Classes, text: string, i: nat)
    requires Sane(cl) && i < |text| && text[i] in "'\"" && StringEnd(text, text[i], i + 1) < |text|
    ensures Stops(cl, text, StringEnd(text, text[i], i + 1))
  {
    StringEndMeans(text, text[i], i + 1);
    MarkEnds(cl, text, StringEnd(text, text[i], i + 1));
  }

  lemma BlockStops(cl: Classes, text: string, i: nat)
    requires Sane(cl) && i + 2 <= |text| && BlockEnd(text, i + 2) < |text|
    ensures Stops(cl, text, BlockEnd(text, i + 2))
  {
    BlockCommentEnd(text, i + 2);
    var end := BlockEnd(text, i + 2);
    if exists k :: i + 2 <= k && Closes(text, k) {
      MarkEnds(cl, text, end);
    }
  }

  lemma TokenStops(cl: Classes, text: string, i: nat)
    requires Sane(cl) && i < |text| && Stops(cl, text, i) && TokenAt(cl, text, i).1 < |text|
    ensures Stops(cl, text, TokenAt(cl, text, i).1)
  {
    hide Begins;
    var c, end := text[i], TokenAt(cl, text, i).1;
    var more := i + 1 < |text|;
    if c == '\'' || c == '\"' {
      StringStops(cl, text, i);
    } else if c == '/' && more && text[i + 1] == '*' {
      BlockStops(cl, text, i);
    } else if (c == '-' && more && text[i + 1] == '-') || (c == '#' && more) {
      assert text[end] == '\n' && Mark('\n');
    } else if cl.isDigit(c) || (c == '.' && more && cl.isDigit(text[i + 1])) {
      DigitsBegin(cl, text, i, end);
    } else if cl.isLetter(c) || c == '_' {
      assert !Wordy(cl, text[end]);
    } else if end == i + 1 {
      SingleBegins(cl, text, end);
    } else {
      MarkEnds(cl, text, end);
    }
  }

  lemma SingleBegins(cl: Classes, text: string, end: nat)
    requires 0 < end <= |text| && !Wordy(cl, text[end - 1])
    ensures Begins(cl, text, end)
  {
  }

  lemma SpaceStops(cl: Classes, text: string, i: nat)
    requires Sane(cl) && i < |text| && cl.isSpace(text[i])
    ensures Stops(cl, text, i + 1)
  {
  }

  lemma {:induction false} ScanStops(cl: Classes, text: string, i: nat, k: nat)
    requires Sane(cl) && i <= |text| && Stops(cl, text, i) && k < |TokensFrom(cl, text, i)|
    ensures Stops(cl, text, TokensFrom(cl, text, i)[k].pos)
    decreases |text| - i
  {
    hide Stops;
    if cl.isSpace(text[i]) {
      SpaceStops(cl, text, i);
      ScanStops(cl, text, i + 1, k);
    } else if k > 0 {
      var end := TokenAt(cl, text, i).1;
      if end < |text| {
        TokenStops(cl, text, i);
        ScanStops(cl, text, end, k - 1);
      }
    }
  }

  lemma KeywordsAreLong(upper: string)
    requires Keyworded(upper)
    ensures |upper| >= 2
  {
  }

  /** Just before a keyword there is nothing, or a character that is none of a word, or digits with no letter
      before them: "1DROP" has the keyword, "a1DROP" has not. */
  lemma KeywordsBegin(cl: Classes, text: string, k: nat)
    requires Sane(cl)
    requires k < |TokensFrom(cl, text, 0)| && TokensFrom(cl, text, 0)[k].kind == Keyword
    ensures var t := TokensFrom(cl, text, 0)[k]; t.pos <= |text| && Begins(cl, text, t.pos)
  {
    var t := TokensFrom(cl, text, 0)[k];
    ScanStops(cl, text, 0, k);
    KindsAreRight(cl, text, 0, k);
    KeywordsAreLong(cl.upper(t.value));
    assert Wordy(cl, t.value[0]) && text[t.pos] == t.value[0];
  }

  // ---- every word that may begin is found, unless a string or a comment covers it ----

  function TokenHere(cl: Classes, text: string, i: nat): Token
    requires i < |text|
  {
    var (kind, end) := TokenAt(cl, text, i);
    Token(kind, Slice(text, i, end), i)
  }

  lemma {:induction false} InSomeToken(cl: Classes, text: string, i: nat, p: nat) returns (k: nat)
    requires i <= p < |text| && !cl.isSpace(text[p])
    ensures var tokens := TokensFrom(cl, text, i);
            && k < |tokens| && tokens[k].pos <= p < TokenAt(cl, text, tokens[k].pos).1
            && tokens[k] == TokenHere(cl, text, tokens[k].pos)
    decreases |text| - i
  {
    hide TokenAt, Slice;
    if cl.isSpace(text[i]) {
      k := InSomeToken(cl, text, i + 1, p);
    } else {
      var end := TokenAt(cl, text, i).1;
      if p < end {
        k := 0;
      } else {
        k := InSomeToken(cl, text, end, p);
        k := k + 1;
      }
    }
  }

  predicate StartsWord(cl: Classes, c: char) {
    cl.isLetter(c) || c == '_'
  }

  lemma {:induction false} WithinWord(cl: Classes, text: string, s: nat, p: nat)
    requires Sane(cl) && s < p <= |text| && StartsWord(cl, text[s])
    requires forall k :: s <= k < p ==> Wordy(cl, text[k])
    ensures !Begins(cl, text, p)
  {
    if s + 1 < p {
      WithinWord(cl, text, s, p - 1);
    }
  }

  lemma {:induction false} RunEndIs(cl: Classes, run: Run, text: string, i: nat, end: nat)
    requires i <= end <= |text| && forall k :: i <= k < end ==> Continues(cl, run, text[k])
    requires end < |text| ==> !Continues(cl, run, text[end])
    ensures RunEnd(cl, run, text, i) == end
    decreases end - i
  {
    if i < end {
      RunEndIs(cl, run, text, i + 1, end);
    }
  }

  // what the tokens consist of

  lemma OperatorRest(cl: Classes, text: string, s: nat)
    requires Sane(cl) && s < |text| && TokenAt(cl, text, s).0 !in {Str, Comment, Number, Keyword, Func, Identifier}
    ensures forall p :: s <= p < TokenAt(cl, text, s).1 ==> p < |text| && !StartsWord(cl, text[p])
  {
    hide Mark, TokenAt;
    OperatorShape(cl, text, s);
    if TokenAt(cl, text, s).1 == s + 2 {
      assert Wordy(cl, text[s + 1]) || !StartsWord(cl, text[s + 1]);
    }
  }

  lemma OperatorShape(cl: Classes, text: string, s: nat)
    requires s < |text| && TokenAt(cl, text, s).0 !in {Str, Comment, Number, Keyword, Func, Identifier}
    ensures !StartsWord(cl, text[s])
    ensures var end := TokenAt(cl, text, s).1;
            end == s + 1 || (end == s + 2 && s + 1 < |text| && Mark(text[s + 1]))
  {
    hide Mark, RunEnd, StringEnd, BlockEnd, Keyworded;
    if s + 1 < |text| && text[s + 1] in "=<>" {
      SecondIsMark(text[s + 1]);
    }
  }

  lemma SecondIsMark(c: char)
    requires c in "=<>"
    ensures Mark(c)
  {
  }

  lemma NumberHolds(cl: Classes, text: string, s: nat)
    requires Sane(cl) && s < |text| && TokenAt(cl, text, s).0 == Number
    ensures forall p :: s <= p < TokenAt(cl, text, s).1 ==> p < |text| && !StartsWord(cl, text[p])
  {
    hide Mark;
    MarksAreNoWords(cl);
    forall p | s <= p < TokenAt(cl, text, s).1
      ensures p < |text| && Continues(cl, Digits, text[p])
    {
    }
  }

  lemma WordHolds(cl: Classes, text: string, s: nat)
    requires s < |text| && TokenAt(cl, text, s).0 in {Keyword, Func, Identifier}
    ensures StartsWord(cl, text[s]) && TokenAt(cl, text, s).1 <= |text|
    ensures forall p :: s <= p < TokenAt(cl, text, s).1 ==> p < |text| && Wordy(cl, text[p])
  {
  }

  /** A token other than a string or a comment holds a place where a word may begin only at its start. */
  lemma OnlyAtStart(cl: Classes, text: string, s: nat, p: nat)
    requires Sane(cl) && s <= p < |text| && p < TokenAt(cl, text, s).1
    requires TokenAt(cl, text, s).0 != Str && TokenAt(cl, text, s).0 != Comment
    requires StartsWord(cl, text[p]) && Begins(cl, text, p)
    ensures s == p
  {
    hide Begins, TokenAt, Mark;
    if TokenAt(cl, text, s).0 !in {Number, Keyword, Func, Identifier} {
      OperatorRest(cl, text, s);
    } else if TokenAt(cl, text, s).0 == Number {
      NumberHolds(cl, text, s);
    } else if s < p {
      WordHolds(cl, text, s);
      WithinWord(cl, text, s, p);
    }
  }

  /** A word token where it starts. */
  lemma WordToken(cl: Classes, text: string, p: nat, q: nat)
    requires Sane(cl) && p < q <= |text| && StartsWord(cl, text[p])
    requires forall k :: p <= k < q ==> Wordy(cl, text[k])
    requires q < |text| ==> !Wordy(cl, text[q])
    ensures TokenAt(cl, text, p) == (WordKind(cl, text, p, q), q)
  {
    hide Mark, WordKind;
    RunEndIs(cl, Word, text, p + 1, q);
    assert Wordy(cl, text[p]);
    MarksAreNoWords(cl);
  }

  lemma MarksAreNoWords(cl: Classes)
    requires Sane(cl)
    ensures !Wordy(cl, '\'') && !Wordy(cl, '\"') && !Wordy(cl, '/') && !Wordy(cl, '-') && !Wordy(cl, '#')
    ensures !Wordy(cl, '.') && !Wordy(cl, '\n')
  {
    assert Mark('\'') && Mark('\"') && Mark('/') && Mark('-') && Mark('#') && Mark('.') && Mark('\n');
  }

  /** A word of the text from p to q that may begin at p and does not go on at q. */
  predicate WordAt(cl: Classes, text: string, p: nat, q: nat) {
    && p < q <= |text| && StartsWord(cl, text[p]) && Begins(cl, text, p)
    && (forall k :: p <= k < q ==> Wordy(cl, text[k]))
    && (q < |text| ==> !Wordy(cl, text[q]))
  }

  predicate KeywordAt(cl: Classes, text: string, p: nat, q: nat) {
    WordAt(cl, text, p, q) && Keyworded(cl.upper(text[p..q]))
  }

  predicate DangerousAt(cl: Classes, text: string, p: nat, q: nat) {
    WordAt(cl, text, p, q) && DangerousWord(cl.upper(text[p..q]))
  }

  /** A string or a comment covers the position. */
  predicate Covered(cl: Classes, text: string, p: nat) {
    exists k :: 0 <= k < |TokensFrom(cl, text, 0)| && Covers(TokensFrom(cl, text, 0)[k], p)
  }

  predicate Covers(t: Token, p: nat) {
    (t.kind == Str || t.kind == Comment) && t.pos <= p < End(t)
  }

  predicate Raises(cl: Classes, text: string) {
    exists k :: 0 <= k < |TokensFrom(cl, text, 0)| && Dangerous(cl, TokensFrom(cl, text, 0)[k])
  }

  lemma DangerousIsListed(upper: string)
    requires DangerousWord(upper)
    ensures Keyworded(upper)
  {
  }

  lemma WordFound(cl: Classes, text: string, p: nat, q: nat) returns (k: nat)
    requires Sane(cl) && KeywordAt(cl, text, p, q) && !Covered(cl, text, p)
    ensures k < |TokensFrom(cl, text, 0)| && TokensFrom(cl, text, 0)[k] == Token(Keyword, text[p..q], p)
  {
    hide Begins, Mark, Keyworded;
    k := InSomeToken(cl, text, 0, p);
    var t := TokensFrom(cl, text, 0)[k];
    var (kind, end) := TokenAt(cl, text, t.pos);
    assert |t.value| == end - t.pos;
    assert !Covers(t, p);
    OnlyAtStart(cl, text, t.pos, p);
    WordToken(cl, text, p, q);
  }

  lemma WordRaises(cl: Classes, text: string, p: nat, q: nat)
    requires Sane(cl) && DangerousAt(cl, text, p, q) && !Covered(cl, text, p)
    ensures Raises(cl, text)
  {
    hide Covered, DangerousWord, Keyworded;
    DangerousIsListed(cl.upper(text[p..q]));
    var k := WordFound(cl, text, p, q);
    assert Dangerous(cl, TokensFrom(cl, text, 0)[k]);
  }

  lemma KeywordIsWord(cl: Classes, text: string, k: nat)
    requires Sane(cl) && k < |TokensFrom(cl, text, 0)| && TokensFrom(cl, text, 0)[k].kind == Keyword
    ensures var t := TokensFrom(cl, text, 0)[k];
            && KeywordAt(cl, text, t.pos, End(t)) && !Covered(cl, text, t.pos)
            && t.value == text[t.pos..End(t)]
  {
    hide Begins, Mark, Keyworded;
    var t := TokensFrom(cl, text, 0)[k];
    KindsAreRight(cl, text, 0, k);
    KeywordsBegin(cl, text, k);
    assert text[t.pos] == t.value[0];
    forall j | t.pos <= j < End(t)
      ensures Wordy(cl, text[j])
    {
      assert text[j] == t.value[j - t.pos];
    }
    forall j | 0 <= j < |TokensFrom(cl, text, 0)|
      ensures !Covers(TokensFrom(cl, text, 0)[j], t.pos)
    {
      KeywordOutsideStrings(cl, text, k, j);
    }
  }

  /** A text raises the dangerous-keyword finding if and only if it has a dangerous word, at a place where a
      word may begin, that no string and no comment covers. */
  lemma RaisesExactlyWhen(cl: Classes, text: string)
    requires Sane(cl)
    ensures Raises(cl, text) <==> exists p, q :: DangerousAt(cl, text, p, q) && !Covered(cl, text, p)
  {
    hide WordAt, Covered, DangerousWord, Keyworded;
    if Raises(cl, text) {
      var k :| 0 <= k < |TokensFrom(cl, text, 0)| && Dangerous(cl, TokensFrom(cl, text, 0)[k]);
      KeywordIsWord(cl, text, k);
      var t := TokensFrom(cl, text, 0)[k];
      assert DangerousAt(cl, text, t.pos, End(t));
    }
    forall p, q | DangerousAt(cl, text, p, q) && !Covered(cl, text, p)
      ensures Raises(cl, text)
    {
      WordRaises(cl, text, p, q);
    }
  }

  /** A digit just before a dangerous word does not make it harmless. */
  lemma DigitBeforeWordRaises(cl: Classes, digit: char, word: string)
    requires Sane(cl) && cl.isDigit(digit)
    requires word != "" && StartsWord(cl, word[0]) && DangerousWord(cl.upper(word))
    requires forall c :: c in word ==> Wordy(cl, c)
    ensures Raises(cl, [digit] + word)
  {
    hide Mark, Keyworded, DangerousWord;
    var text := [digit] + word;
    var tokens := TokensFrom(cl, text, 0);
    NumberToken(cl, text);
    forall k | 1 <= k < |text|
      ensures Wordy(cl, text[k])
    {
      assert text[k] in word;
    }
    WordToken(cl, text, 1, |text|);
    assert text[1..|text|] == word;
    DangerousIsListed(cl.upper(word));
    assert TokensFrom(cl, text, 1) == [TokenHere(cl, text, 1)] + TokensFrom(cl, text, |text|);
    assert tokens == [TokenHere(cl, text, 0)] + TokensFrom(cl, text, 1);
    assert Dangerous(cl, tokens[1]);
  }

  lemma NumberToken(cl: Classes, text: string)
    requires Sane(cl) && |text| >= 2 && cl.isDigit(text[0]) && StartsWord(cl, text[1])
    ensures TokenAt(cl, text, 0) == (Number, 1) && !cl.isSpace(text[0]) && !cl.isSpace(text[1])
  {
    hide Mark;
    MarksAreNoWords(cl);
    assert Wordy(cl, text[0]) && Wordy(cl, text[1]);
    RunEndIs(cl, Digits, text, 1, 1);
  }
}
