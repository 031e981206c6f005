/** What the SQL tokenizer produces: the tokens of a text from some position on. */
module SqlTokens {

  datatype Kind = Keyword | Operator | Str | Number | Identifier | Comment | Punctuation | Func | Unknown
  datatype Token = Token(kind: Kind, value: string, pos: nat)

  /** The character classes of the Unicode tables and the upper-case map, which the scanner only calls. */
  datatype Classes = Classes(isSpace: char -> bool, isDigit: char -> bool, isLetter: char -> bool,
                             upper: string -> string)

  predicate Keyworded(upper: string) {
    upper in {
      "SELECT", "UNION", "FROM", "WHERE", "INSERT", "UPDATE", "DELETE", "DROP", "CREATE", "ALTER", "TABLE", "INTO",
      "VALUES", "SET", "AND", "OR", "NOT", "NULL", "LIKE", "BETWEEN", "IN", "EXISTS", "HAVING", "GROUP",
      "ORDER", "BY", "LIMIT", "OFFSET", "JOIN", "LEFT", "RIGHT", "INNER", "OUTER", "ON", "AS", "CASE",
      "WHEN", "THEN", "ELSE", "END", "EXEC", "EXECUTE", "SLEEP", "BENCHMARK", "PG_SLEEP", "WAITFOR", "DELAY"}
  }

  // ---- where a token ends ----

  /** Runs of characters that the scanner skips in one loop. */
  datatype Run = Line | Digits | Word

  predicate Continues(cl: Classes, run: Run, c: char) {
    match run
    case Line => c != '\n'
    case Digits => cl.isDigit(c) || c == '.'
    case Word => cl.isLetter(c) || cl.isDigit(c) || c == '_'
  }

  function RunEnd(cl: Classes, run: Run, text: string, i: nat): (end: nat)
    requires i <= |text|
    ensures i <= end <= |text|
    ensures forall k :: i <= k < end ==> Continues(cl, run, text[k])
    ensures end < |text| ==> !Continues(cl, run, text[end])
    decreases |text| - i
  {
    if i < |text| && Continues(cl, run, text[i]) then RunEnd(cl, run, text, i + 1) else i
  }

  /** Past the closing quote. A backslash skips the character after it, even one past the end. */
  function StringEnd(text: string, quote: char, i: nat): (end: nat)
    requires i <= |text| + 1
    ensures i <= end <= |text| + 1
    ensures end == |text| + 1 ==> i == |text| + 1 || (text != [] && text[|text| - 1] == '\\')
    decreases |text| + 1 - i
  {
    if i >= |text| then i
    else if text[i] == quote then i + 1
    else if text[i] == '\\' then StringEnd(text, quote, i + 2)
    else StringEnd(text, quote, i + 1)
  }

  predicate Closes(text: string, k: nat) {
    k + 1 < |text| && text[k] == '*' && text[k + 1] == '/'
  }

  function BlockEnd(text: string, i: nat): (end: nat)
    requires i <= |text|
    ensures i <= end <= |text|
    decreases |text| - i
  {
    if i + 1 < |text| then
      if Closes(text, i) then i + 2 else BlockEnd(text, i + 1)
    else i
  }

  /** The kind of the token at i and the position after it. */
  function TokenAt(cl: Classes, text: string, i: nat): (t: (Kind, nat))
    requires i < |text|
    ensures i < t.1 <= |text| + 1
    ensures t.1 == |text| + 1 ==> t.0 == Str && text[|text| - 1] == '\\'
  {
    var c := text[i];
    var more := i + 1 < |text|;
    if c == '\'' || c == '\"' then (Str, StringEnd(text, c, i + 1))
    else if c == '/' && more && text[i + 1] == '*' then (Comment, BlockEnd(text, i + 2))
    else if c == '-' && more && text[i + 1] == '-' then (Comment, RunEnd(cl, Line, text, i + 2))
    else if c == '#' && more then (Comment, RunEnd(cl, Line, text, i + 1))
    else if cl.isDigit(c) || (c == '.' && more && cl.isDigit(text[i + 1])) then
      (Number, RunEnd(cl, Digits, text, i + 1))
    else if cl.isLetter(c) || c == '_' then
      var end := RunEnd(cl, Word, text, i + 1);
      (WordKind(cl, text, i, end), end)
    else if c in "=<>!+-*/%&|^~" then (Operator, if more && text[i + 1] in "=<>" then i + 2 else i + 1)
    else if c in "()[]{};," then (Punctuation, i + 1)
    else (Unknown, i + 1)
  }

  function WordKind(cl: Classes, text: string, start: nat, end: nat): Kind
    requires start <= end <= |text|
  {
    if Keyworded(cl.upper(text[start..end])) then Keyword
    else if end < |text| && text[end] == '(' then Func
    else Identifier
  }

  /** A slice of the rune buffer; one character past the text the buffer holds zero. */
  function Slice(text: string, start: nat, end: nat): string
    requires start <= |text| && start <= end <= |text| + 1
  {
    if end <= |text| then text[start..end] else text[start..] + ['\0']
  }

  function TokensFrom(cl: Classes, text: string, i: nat): seq<Token>
    decreases |text| - i
  {
    if i >= |text| then []
    else if cl.isSpace(text[i]) then TokensFrom(cl, text, i + 1)
    else
      var (kind, end) := TokenAt(cl, text, i);
      [Token(kind, Slice(text, i, end), i)] + TokensFrom(cl, text, end)
  }

  /** The scan runs past the end of the text: inside a string, a backslash was the last character. */
  predicate Overruns(cl: Classes, text: string, i: nat)
    decreases |text| - i
  {
    if i >= |text| then i > |text|
    else if cl.isSpace(text[i]) then Overruns(cl, text, i + 1)
    else Overruns(cl, text, TokenAt(cl, text, i).1)
  }

  // ---- losslessness ----

  function End(t: Token): nat { t.pos + |t.value| }

  predicate Blank(cl: Classes, text: string, i: nat, j: nat) {
    forall k :: i <= k < j && k < |text| ==> cl.isSpace(text[k])
  }

  /** The tokens are non-empty slices of the text, in order and apart, with only white space between. */
  predicate Lossless(cl: Classes, text: string, i: nat, tokens: seq<Token>)
    decreases |tokens|
  {
    if tokens == [] then Blank(cl, text, i, |text|)
    else
      var t := tokens[0];
      && i <= t.pos < End(t) <= |text|
      && t.value == text[t.pos..End(t)]
      && Blank(cl, text, i, t.pos)
      && Lossless(cl, text, End(t), tokens[1..])
  }

  lemma {:induction false} OverrunSpoils(cl: Classes, text: string, i: nat, from: nat)
    requires i <= |text| && Overruns(cl, text, i)
    ensures !Lossless(cl, text, from, TokensFrom(cl, text, i))
    decreases |text| - i
  {
    if cl.isSpace(text[i]) {
      OverrunSpoils(cl, text, i + 1, from);
    } else {
      var tokens := TokensFrom(cl, text, i);
      var end := TokenAt(cl, text, i).1;
      assert tokens[1..] == TokensFrom(cl, text, end);
      if end <= |text| {
        OverrunSpoils(cl, text, end, end);
      }
    }
  }

  lemma {:induction false} NothingLost(cl: Classes, text: string, i: nat, from: nat)
    requires from <= i <= |text| && !Overruns(cl, text, i) && Blank(cl, text, from, i)
    ensures Lossless(cl, text, from, TokensFrom(cl, text, i))
    decreases |text| - i
  {
    if i < |text| {
      if cl.isSpace(text[i]) {
        NothingLost(cl, text, i + 1, from);
      } else {
        var tokens := TokensFrom(cl, text, i);
        var end := TokenAt(cl, text, i).1;
        assert tokens[1..] == TokensFrom(cl, text, end);
        if end <= |text| {
          NothingLost(cl, text, end, end);
        }
      }
    }
  }

  /** A text that does not end in a backslash is safe. */
  lemma {:induction false} OverrunEndsInBackslash(cl: Classes, text: string, i: nat)
    requires i <= |text| && Overruns(cl, text, i)
    ensures text != [] && text[|text| - 1] == '\\'
    decreases |text| - i
  {
    if cl.isSpace(text[i]) {
      OverrunEndsInBackslash(cl, text, i + 1);
    } else if TokenAt(cl, text, i).1 <= |text| {
      OverrunEndsInBackslash(cl, text, TokenAt(cl, text, i).1);
    }
  }

  /** But a quote followed by a lone backslash is not. */
  lemma LoneBackslashOverruns(cl: Classes, before: string)
    requires !cl.isSpace('\'') && forall c :: c in before ==> cl.isSpace(c)
    ensures Overruns(cl, before + "'\\", 0)
  {
    ScanSkipsBlank(cl, before + "'\\", |before|);
    var text := before + "'\\";
    assert StringEnd(text, '\'', |before| + 1) == |text| + 1;
  }

  lemma {:induction false} ScanSkipsBlank(cl: Classes, text: string, i: nat)
    requires i <= |text| && forall k :: 0 <= k < i ==> cl.isSpace(text[k])
    ensures Overruns(cl, text, 0) == Overruns(cl, text, i)
  {
    if i > 0 {
      ScanSkipsBlank(cl, text, i - 1);
    }
  }

  /** The text can be read back from its tokens: another text with the same tokens has the same character
      everywhere, except that white space may be other white space, or missing at the end. */
  lemma {:induction false} TokensDetermineText(cl: Classes, a: string, b: string, from: nat, tokens: seq<Token>, k: nat)
    requires Lossless(cl, a, from, tokens) && Lossless(cl, b, from, tokens)
    requires from <= k < |a|
    ensures (k < |b| && a[k] == b[k]) || (cl.isSpace(a[k]) && (k < |b| ==> cl.isSpace(b[k])))
    decreases |tokens|
  {
    if tokens != [] && k >= tokens[0].pos {
      var t := tokens[0];
      if k < End(t) {
        assert a[k] == t.value[k - t.pos];
      } else {
        TokensDetermineText(cl, a, b, End(t), tokens[1..], k);
      }
    }
  }

  /** Tokens never overlap, even when the scan runs past the end. */
  lemma {:induction false} TokensApart(cl: Classes, text: string, i: nat, a: nat, b: nat)
    requires i <= |text| && a <= b < |TokensFrom(cl, text, i)|
    ensures var tokens := TokensFrom(cl, text, i);
            && i <= tokens[a].pos < End(tokens[a])
            && (a < b ==> End(tokens[a]) <= tokens[b].pos)
    decreases |text| - i
  {
    if cl.isSpace(text[i]) {
      TokensApart(cl, text, i + 1, a, b);
    } else {
      var end := TokenAt(cl, text, i).1;
      if a > 0 {
        TokensApart(cl, text, end, a - 1, b - 1);
      } else if b > 0 {
        TokensApart(cl, text, end, b - 1, b - 1);
      }
    }
  }

  // ---- what the tokens are ----

  /** A keyword is a run of word characters, begun by a letter or an underscore and not continued by a
      further one, that upper-cases to one of the listed words. Digits may stand just before it. */
  predicate IsKeyword(cl: Classes, text: string, t: Token) {
    IsWord(cl, text, t) && Keyworded(cl.upper(t.value))
  }

  predicate IsWord(cl: Classes, text: string, t: Token) {
    && t.value != [] && (cl.isLetter(t.value[0]) || t.value[0] == '_')
    && End(t) <= |text| && t.value == text[t.pos..End(t)]
    && (forall c :: c in t.value ==> Continues(cl, Word, c))
    && (End(t) < |text| ==> !Continues(cl, Word, text[End(t)]))
  }

  /** A number begins with a digit, or with a dot that a digit follows, and goes on as long as digits and
      dots do. */
  predicate IsNumber(cl: Classes, text: string, t: Token) {
    && t.value != [] && End(t) <= |text| && t.value == text[t.pos..End(t)]
    && (cl.isDigit(t.value[0]) || (t.value[0] == '.' && |t.value| > 1 && cl.isDigit(t.value[1])))
    && (forall c :: c in t.value ==> cl.isDigit(c) || c == '.')
    && (End(t) < |text| ==> !cl.isDigit(text[End(t)]) && text[End(t)] != '.')
  }

  /** A comment begins with its own delimiter; one that no asterisk begins holds no newline behind that, and
      goes on to the next one or to the end of the text. */
  predicate IsComment(text: string, t: Token) {
    && |t.value| >= 1 && End(t) <= |text| && t.value == text[t.pos..End(t)] && OpensComment(text, t.pos)
    && ("/*" <= t.value || "--" <= t.value || t.value[0] == '#')
    && ("/*" <= t.value || ('\n' !in t.value && (End(t) < |text| ==> text[End(t)] == '\n')))
  }

  predicate Quote(c: char) { c == '\'' || c == '\"' }

  predicate Operates(c: char) { c in "=<>!+-*/%&|^~" }

  predicate Punctuates(c: char) { c in "()[]{};," }

  /** Some comment opens at p: a number sign does if it is not the last character. */
  predicate OpensComment(text: string, p: nat) {
    p + 1 < |text| && (text[p..p + 2] == "/*" || text[p..p + 2] == "--" || text[p] == '#')
  }

  /** A character of its own that begins no word, number, string or comment. */
  predicate IsSingle(cl: Classes, text: string, t: Token) {
    && |t.value| >= 1 && End(t) <= |text| && t.value == text[t.pos..End(t)]
    && !cl.isLetter(t.value[0]) && !cl.isDigit(t.value[0]) && t.value[0] != '_' && !Quote(t.value[0])
    && !OpensComment(text, t.pos)
    && !(t.value[0] == '.' && End(t) < |text| && cl.isDigit(text[End(t)]))
  }

  /** What a token of each kind is made of. */
  predicate Fits(cl: Classes, text: string, t: Token) {
    match t.kind
    case Str => t.value != [] && Quote(t.value[0])
    case Comment => IsComment(text, t)
    case Number => IsNumber(cl, text, t)
    case Keyword => IsKeyword(cl, text, t)
    case Func => IsWord(cl, text, t) && !Keyworded(cl.upper(t.value)) && End(t) < |text| && text[End(t)] == '('
    case Identifier =>
      IsWord(cl, text, t) && !Keyworded(cl.upper(t.value)) && (End(t) < |text| ==> text[End(t)] != '(')
    case Operator =>
      && IsSingle(cl, text, t) && Operates(t.value[0])
      && (if |t.value| == 1 then End(t) < |text| ==> text[End(t)] !in "=<>" else |t.value| == 2 && t.value[1] in "=<>")
    case Punctuation => IsSingle(cl, text, t) && Punctuates(t.value[0]) && |t.value| == 1
    case Unknown => IsSingle(cl, text, t) && !Operates(t.value[0]) && !Punctuates(t.value[0]) && |t.value| == 1
  }

  lemma {:induction false} KindsAreRight(cl: Classes, text: string, i: nat, k: nat)
    requires i <= |text| && k < |TokensFrom(cl, text, i)|
    ensures Fits(cl, text, TokensFrom(cl, text, i)[k])
    decreases |text| - i
  {
    hide Fits;
    if cl.isSpace(text[i]) {
      KindsAreRight(cl, text, i + 1, k);
    } else {
      var end := TokenAt(cl, text, i).1;
      if k == 0 {
        FirstIsRight(cl, text, i);
      } else {
        assert end <= |text|;
        KindsAreRight(cl, text, end, k - 1);
      }
    }
  }

  lemma FirstIsRight(cl: Classes, text: string, i: nat)
    requires i < |text|
    ensures var (kind, end) := TokenAt(cl, text, i); Fits(cl, text, Token(kind, Slice(text, i, end), i))
  {
    hide Keyworded, Continues, IsComment, IsNumber, IsWord, IsSingle;
    var (kind, end) := TokenAt(cl, text, i);
    assert Slice(text, i, end)[0] == text[i];
    if end <= |text| {
      match kind
      case Comment => CommentIsRight(cl, text, i);
      case Number => NumberIsRight(cl, text, i);
      case Keyword => WordIsRight(cl, text, i);
      case Func => WordIsRight(cl, text, i);
      case Identifier => WordIsRight(cl, text, i);
      case Str =>
      case _ => SingleIsRight(cl, text, i);
    }
  }

  lemma SingleIsRight(cl: Classes, text: string, i: nat)
    requires i < |text| && TokenAt(cl, text, i).0 in {Operator, Punctuation, Unknown}
    ensures var (kind, end) := TokenAt(cl, text, i);
            end <= |text| && Fits(cl, text, Token(kind, text[i..end], i))
  {
    hide TokenAt, Operates, Punctuates, OpensComment;
    SingleShape(cl, text, i);
    SingleOpensNothing(cl, text, i);
    var (kind, end) := TokenAt(cl, text, i);
    assert text[i..end][0] == text[i];
    if kind == Operator && end == i + 2 {
      assert text[i..end][1] == text[i + 1];
    }
  }

  /** How such a token goes on. */
  lemma SingleShape(cl: Classes, text: string, i: nat)
    requires i < |text| && TokenAt(cl, text, i).0 in {Operator, Punctuation, Unknown}
    ensures var (kind, end) := TokenAt(cl, text, i);
            && (kind == Operator <==> Operates(text[i])) && (kind == Punctuation ==> Punctuates(text[i]))
            && (kind == Unknown ==> !Punctuates(text[i]))
            && end == (if kind == Operator && i + 1 < |text| && text[i + 1] in "=<>" then i + 2 else i + 1)
  {
    hide Keyworded, RunEnd, StringEnd, BlockEnd;
  }

  /** And what it does not begin with. */
  lemma SingleOpensNothing(cl: Classes, text: string, i: nat)
    requires i < |text| && TokenAt(cl, text, i).0 in {Operator, Punctuation, Unknown}
    ensures !cl.isLetter(text[i]) && !cl.isDigit(text[i]) && text[i] != '_' && !Quote(text[i])
    ensures !OpensComment(text, i)
    ensures !(text[i] == '.' && i + 1 < |text| && cl.isDigit(text[i + 1]))
    ensures text[i] == '.' ==> TokenAt(cl, text, i).1 == i + 1
  {
    hide Keyworded, RunEnd, StringEnd, BlockEnd;
  }

  lemma CommentIsRight(cl: Classes, text: string, i: nat)
    requires i < |text| && TokenAt(cl, text, i).0 == Comment && TokenAt(cl, text, i).1 <= |text|
    ensures IsComment(text, Token(Comment, text[i..TokenAt(cl, text, i).1], i))
  {
    hide Keyworded;
    var value := text[i..TokenAt(cl, text, i).1];
    forall k | 0 <= k < |value|
      ensures value[k] == text[i + k]
    {
    }
  }

  lemma NumberIsRight(cl: Classes, text: string, i: nat)
    requires i < |text| && TokenAt(cl, text, i).0 == Number && TokenAt(cl, text, i).1 <= |text|
    ensures IsNumber(cl, text, Token(Number, text[i..TokenAt(cl, text, i).1], i))
  {
    hide Keyworded;
  }

  lemma WordIsRight(cl: Classes, text: string, i: nat)
    requires i < |text| && TokenAt(cl, text, i).0 in {Keyword, Func, Identifier} && TokenAt(cl, text, i).1 <= |text|
    ensures IsWord(cl, text, Token(TokenAt(cl, text, i).0, text[i..TokenAt(cl, text, i).1], i))
  {
    hide Keyworded;
  }

  // ---- comments and strings ----

  /** A block comment ends just behind the first terminator; without one it leaves the last character of
      the text outside, unless the opening was all there was. */
  lemma {:induction false} BlockCommentEnd(text: string, i: nat)
    requires i <= |text|
    ensures var end := BlockEnd(text, i);
            if exists k :: i <= k && Closes(text, k) then
              end >= i + 2 && Closes(text, end - 2) && forall k :: i <= k < end - 2 ==> !Closes(text, k)
            else end == if i < |text| then |text| - 1 else i
    decreases |text| - i
  {
    if i + 1 < |text| && !Closes(text, i) {
      BlockCommentEnd(text, i + 1);
    }
  }

  /** How many backslashes stand together just before k, from i on. */
  function Slashes(text: string, i: nat, k: nat): nat
    requires k <= |text|
  {
    if i < k && text[k - 1] == '\\' then 1 + Slashes(text, i, k - 1) else 0
  }

  /** An unescaped quote: an even number of backslashes before it. */
  predicate ClosesString(text: string, quote: char, i: nat, k: nat) {
    i <= k < |text| && text[k] == quote && Slashes(text, i, k) % 2 == 0
  }

  /** The first quote from j on that closes is just before `end`. */
  ghost predicate EndsAtFirst(text: string, quote: char, i: nat, j: nat, end: nat) {
    && end > j && ClosesString(text, quote, i, end - 1)
    && forall k :: j <= k < end - 1 ==> !ClosesString(text, quote, i, k)
  }

  ghost predicate Unclosed(text: string, quote: char, i: nat, j: nat) {
    forall k :: j <= k ==> !ClosesString(text, quote, i, k)
  }

  lemma {:induction false} StringEndFrom(text: string, quote: char, i: nat, j: nat)
    requires i <= j <= |text| && quote != '\\' && Slashes(text, i, j) % 2 == 0
    ensures var end := StringEnd(text, quote, j);
            || EndsAtFirst(text, quote, i, j, end)
            || (Unclosed(text, quote, i, j) && end == |text| + Slashes(text, i, |text|) % 2)
    decreases |text| - j
  {
    if j < |text| && text[j] != quote {
      if text[j] == '\\' {
        assert Slashes(text, i, j + 1) == Slashes(text, i, j) + 1;
        assert !ClosesString(text, quote, i, j) && !ClosesString(text, quote, i, j + 1);
        if j + 2 <= |text| {
          assert Slashes(text, i, j + 2) % 2 == 0;
          StringEndFrom(text, quote, i, j + 2);
        }
      } else {
        assert !ClosesString(text, quote, i, j);
        StringEndFrom(text, quote, i, j + 1);
      }
    }
  }

  /** A string ends just behind the first unescaped quote of its kind; if none follows, with the text, or
      one character further if the text ends in an odd number of backslashes. */
  lemma StringEndMeans(text: string, quote: char, i: nat)
    requires i <= |text| && quote != '\\'
    ensures var end := StringEnd(text, quote, i);
            if Unclosed(text, quote, i, i) then end == |text| + Slashes(text, i, |text|) % 2
            else EndsAtFirst(text, quote, i, i, end)
  {
    StringEndFrom(text, quote, i, i);
  }

  /** Where a string or a block comment ends: a string behind the first unescaped quote like the one that
      opened it, a comment behind the first terminator. */
  ghost predicate EndsRight(text: string, t: Token) {
    && (t.kind == Str ==>
          && t.pos < |text| && Quote(text[t.pos])
          && if Unclosed(text, text[t.pos], t.pos + 1, t.pos + 1) then
               End(t) == |text| + Slashes(text, t.pos + 1, |text|) % 2
             else EndsAtFirst(text, text[t.pos], t.pos + 1, t.pos + 1, End(t)))
    && (t.kind == Comment && "/*" <= t.value ==>
          if exists k :: t.pos + 2 <= k && Closes(text, k) then
            && End(t) >= t.pos + 4 && Closes(text, End(t) - 2)
            && forall k :: t.pos + 2 <= k < End(t) - 2 ==> !Closes(text, k)
          else End(t) == if t.pos + 2 < |text| then |text| - 1 else |text|)
  }

  lemma {:induction false} ExtentsAreRight(cl: Classes, text: string, i: nat, k: nat)
    requires i <= |text| && k < |TokensFrom(cl, text, i)|
    ensures EndsRight(text, TokensFrom(cl, text, i)[k])
    decreases |text| - i
  {
    hide EndsRight;
    if cl.isSpace(text[i]) {
      ExtentsAreRight(cl, text, i + 1, k);
    } else {
      var end := TokenAt(cl, text, i).1;
      if k == 0 {
        FirstEndsRight(cl, text, i);
      } else {
        assert end <= |text|;
        ExtentsAreRight(cl, text, end, k - 1);
      }
    }
  }

  lemma FirstEndsRight(cl: Classes, text: string, i: nat)
    requires i < |text|
    ensures var (kind, end) := TokenAt(cl, text, i); EndsRight(text, Token(kind, Slice(text, i, end), i))
  {
    hide Keyworded, Closes, Unclosed, EndsAtFirst, RunEnd;
    var (kind, end) := TokenAt(cl, text, i);
    assert |Slice(text, i, end)| == end - i;
    if kind == Str {
      StringEndMeans(text, text[i], i + 1);
    } else if kind == Comment && "/*" <= Slice(text, i, end) {
      assert Slice(text, i, end)[0] == text[i] && Slice(text, i, end)[1] == text[i + 1];
      BlockCommentEnd(text, i + 2);
    }
  }

  // ---- when the scan runs past the end ----

  /** A string opened at p that no quote closes, in a text that ends in an odd number of backslashes. */
  ghost predicate LeftOpen(text: string, p: nat) {
    && p < |text| && text[p] in "'\""
    && Unclosed(text, text[p], p + 1, p + 1)
    && Slashes(text, p + 1, |text|) % 2 == 1
  }

  lemma LeftOpenMeans(cl: Classes, text: string, i: nat)
    requires i < |text| && TokenAt(cl, text, i).0 == Str
    ensures TokenAt(cl, text, i).1 == |text| + 1 <==> LeftOpen(text, i)
  {
    StringEndMeans(text, text[i], i + 1);
  }

  /** The scan runs past the end if and only if the last token is a string left open: nothing closes it,
      and the text ends in an odd number of backslashes. */
  lemma {:induction false} OverrunsExactlyWhen(cl: Classes, text: string, i: nat)
    requires i <= |text|
    ensures var tokens := TokensFrom(cl, text, i);
            Overruns(cl, text, i) <==>
              tokens != [] && tokens[|tokens| - 1].kind == Str && LeftOpen(text, tokens[|tokens| - 1].pos)
    decreases |text| - i
  {
    hide LeftOpen;
    if i < |text| {
      if cl.isSpace(text[i]) {
        OverrunsExactlyWhen(cl, text, i + 1);
      } else {
        var (kind, end) := TokenAt(cl, text, i);
        var tokens := TokensFrom(cl, text, i);
        if kind == Str {
          LeftOpenMeans(cl, text, i);
        }
        if end > |text| || TokensFrom(cl, text, end) == [] {
          LastToken(cl, text, end);
          assert tokens[|tokens| - 1] == tokens[0];
        } else {
          OverrunsExactlyWhen(cl, text, end);
          assert tokens[|tokens| - 1] == TokensFrom(cl, text, end)[|tokens| - 2];
        }
      }
    }
  }

  lemma {:induction false} LastToken(cl: Classes, text: string, end: nat)
    requires end > |text| || TokensFrom(cl, text, end) == []
    ensures Overruns(cl, text, end) <==> end > |text|
    ensures TokensFrom(cl, text, end) == []
    decreases |text| - end
  {
    if end < |text| {
      LastToken(cl, text, end + 1);
    }
  }

  /** So tokenizing loses nothing if and only if the last token is no string left open. */
  lemma LosslessExactlyWhen(cl: Classes, text: string)
    ensures var tokens := TokensFrom(cl, text, 0);
            Lossless(cl, text, 0, tokens) <==>
              !(tokens != [] && tokens[|tokens| - 1].kind == Str && LeftOpen(text, tokens[|tokens| - 1].pos))
  {
    OverrunsExactlyWhen(cl, text, 0);
    if Overruns(cl, text, 0) {
      OverrunSpoils(cl, text, 0, 0);
    } else {
      NothingLost(cl, text, 0, 0);
    }
  }
}
