/** The tokenizer's loops, and what the analysis of the tokens finds. */
module Sqli {
  import opened SqlTokens

  // ---- the inner loops ----

  method SkipString(text: string, quote: char, from: nat) returns (i: nat)
    requires from <= |text|
    ensures i == StringEnd(text, quote, from)
  {
    i := from;
    while i < |text| && text[i] != quote
      invariant from <= i <= |text| + 1
      invariant StringEnd(text, quote, i) == StringEnd(text, quote, from)
    {
      if text[i] == '\\' {
        i := i + 1;
      }
      i := i + 1;
    }
    if i < |text| {
      i := i + 1;
    }
  }

  method SkipBlock(text: string, from: nat) returns (end: nat)
    requires from <= |text|
    ensures end == BlockEnd(text, from)
  {
    end := from;
    while end + 1 < |text| && !(text[end] == '*' && text[end + 1] == '/')
      invariant from <= end <= |text|
      invariant BlockEnd(text, end) == BlockEnd(text, from)
    {
      end := end + 1;
    }
    if end + 1 < |text| {
      end := end + 2;
    }
  }

  method SkipRun(cl: Classes, run: Run, text: string, from: nat) returns (end: nat)
    requires from <= |text|
    ensures end == RunEnd(cl, run, text, from)
  {
    end := from;
    while end < |text| && Continues(cl, run, text[end])
      invariant from <= end <= |text|
      invariant RunEnd(cl, run, text, end) == RunEnd(cl, run, text, from)
    {
      end := end + 1;
    }
  }

  /** The branches for a token that starts at `start`. */
  method ScanToken(cl: Classes, text: string, start: nat) returns (kind: Kind, i: nat)
    requires start < |text|
    ensures (kind, i) == TokenAt(cl, text, start)
  {
    var c := text[start];
    kind, i := Unknown, start;
    if c == '\'' || c == '\"' {
      kind := Str;
      i := SkipString(text, c, i + 1);
    } else if c == '/' && i + 1 < |text| && text[i + 1] == '*' {
      kind := Comment;
      i := SkipBlock(text, i + 2);
    } else if c == '-' && i + 1 < |text| && text[i + 1] == '-' {
      kind := Comment;
      i := SkipRun(cl, Line, text, i + 2);
    } else if c == '#' && i + 1 < |text| {
      kind := Comment;
      i := SkipRun(cl, Line, text, i + 1);
    } else if cl.isDigit(c) || (c == '.' && i + 1 < |text| && cl.isDigit(text[i + 1])) {
      kind := Number;
      i := SkipRun(cl, Digits, text, i);
    } else if cl.isLetter(c) || c == '_' {
      i := SkipRun(cl, Word, text, i);
      kind := if Keyworded(cl.upper(text[start..i])) then Keyword
              else if i < |text| && text[i] == '(' then Func
              else Identifier;
    } else if c in "=<>!+-*/%&|^~" {
      kind := Operator;
      if i + 1 < |text| && text[i + 1] in "=<>" {
        i := i + 1;
      }
      i := i + 1;
    } else if c in "()[]{};," {
      kind := Punctuation;
      i := i + 1;
    } else {
      i := i + 1;
    }
  }

  /** Tokenizes `text`. The rune buffer has room for `spare` more runes; a slice past the buffer fails. */
  method Tokenize(cl: Classes, text: string, spare: nat) returns (ok: bool, tokens: seq<Token>)
    ensures ok <==> !(Overruns(cl, text, 0) && spare == 0)
    ensures ok ==> tokens == TokensFrom(cl, text, 0)
  {
    tokens := [];
    var i := 0;
    while i < |text|
      invariant i <= |text| || (i == |text| + 1 && spare > 0)
      invariant tokens + TokensFrom(cl, text, i) == TokensFrom(cl, text, 0)
      invariant Overruns(cl, text, i) == Overruns(cl, text, 0)
      decreases |text| + 1 - i
    {
      if cl.isSpace(text[i]) {
        i := i + 1;
        continue;
      }
      var start := i;
      var kind;
      kind, i := ScanToken(cl, text, start);
      if i > |text| && spare == 0 {
        return false, [];
      }
      var token := Token(kind, Slice(text, start, i), start);
      assert tokens + ([token] + TokensFrom(cl, text, i)) == (tokens + [token]) + TokensFrom(cl, text, i);
      tokens := tokens + [token];
    }
    return true, tokens;
  }

  // ---- analysis ----

  datatype Finding = Clean | KeywordInjection(at: nat) | StatementChaining | InjectionPattern

  predicate DangerousWord(upper: string) {
    upper in {"UNION", "SELECT", "DROP", "EXEC", "EXECUTE"}
  }

  predicate Dangerous(cl: Classes, t: Token) {
    t.kind == Keyword && DangerousWord(cl.upper(t.value))
  }

  function Indices(tokens: seq<Token>, kind: Kind): set<nat> {
    set k: nat | k < |tokens| && tokens[k].kind == kind
  }

  /** How many of the first n tokens are of the kind. */
  function CountKind(tokens: seq<Token>, kind: Kind, n: nat): nat
    requires n <= |tokens|
  {
    if n == 0 then 0 else CountKind(tokens, kind, n - 1) + if tokens[n - 1].kind == kind then 1 else 0
  }

  function IndicesUpTo(tokens: seq<Token>, kind: Kind, n: nat): set<nat>
    requires n <= |tokens|
  {
    set k: nat | k < n && tokens[k].kind == kind
  }

  lemma {:induction false} CountIsSize(tokens: seq<Token>, kind: Kind, n: nat)
    requires n <= |tokens|
    ensures CountKind(tokens, kind, n) == |IndicesUpTo(tokens, kind, n)|
  {
    if n > 0 {
      CountIsSize(tokens, kind, n - 1);
      OneMoreIndex(tokens, kind, n);
    }
  }

  lemma OneMoreIndex(tokens: seq<Token>, kind: Kind, n: nat)
    requires 0 < n <= |tokens|
    ensures IndicesUpTo(tokens, kind, n) ==
            IndicesUpTo(tokens, kind, n - 1) + if tokens[n - 1].kind == kind then {n - 1} else {}
    ensures (n - 1) as nat !in IndicesUpTo(tokens, kind, n - 1)
  {
  }

  lemma AllIndices(tokens: seq<Token>, kind: Kind)
    ensures Indices(tokens, kind) == IndicesUpTo(tokens, kind, |tokens|)
    ensures CountKind(tokens, kind, |tokens|) == |Indices(tokens, kind)|
  {
    CountIsSize(tokens, kind, |tokens|);
  }

  predicate Chains(t: Token) {
    t.kind == Punctuation && t.value == ";"
  }

  lemma NoneYet(tokens: seq<Token>)
    ensures CountKind(tokens, Keyword, 0) == 0 && CountKind(tokens, Str, 0) == 0
  {
  }

  lemma OneMoreToken(tokens: seq<Token>, i: nat)
    requires i < |tokens|
    ensures CountKind(tokens, Keyword, i + 1) ==
            CountKind(tokens, Keyword, i) + if tokens[i].kind == Keyword then 1 else 0
    ensures CountKind(tokens, Str, i + 1) == CountKind(tokens, Str, i) + if tokens[i].kind == Str then 1 else 0
  {
  }

  lemma TokenMeans(cl: Classes, t: Token)
    ensures Dangerous(cl, t) <==> t.kind == Keyword
                                  && var upper := cl.upper(t.value);
                                     upper == "UNION" || upper == "SELECT" || upper == "DROP"
                                     || upper == "EXEC" || upper == "EXECUTE"
    ensures Chains(t) ==> t.kind == Punctuation
  {
  }

  /** The first dangerous keyword wins; then a semicolon together with a keyword; then two keywords
      together with a string. */
  method AnalyzeTokens(cl: Classes, tokens: seq<Token>) returns (f: Finding)
    ensures f.KeywordInjection? ==> f.at < |tokens| && Dangerous(cl, tokens[f.at])
                                    && forall k :: 0 <= k < f.at ==> !Dangerous(cl, tokens[k])
    ensures !f.KeywordInjection? ==> forall k :: 0 <= k < |tokens| ==> !Dangerous(cl, tokens[k])
    ensures var keywords, strings := |Indices(tokens, Keyword)|, |Indices(tokens, Str)|;
            !f.KeywordInjection? ==>
              && (f.StatementChaining? <==> keywords > 0 && exists k :: 0 <= k < |tokens| && Chains(tokens[k]))
              && (f.InjectionPattern? <==> keywords >= 2 && strings >= 1 && !f.StatementChaining?)
  {
    hide *;
    var keywordCount, stringCount := 0, 0;
    var hasSemicolon := false;
    NoneYet(tokens);
    for i := 0 to |tokens|
      invariant forall k :: 0 <= k < i ==> !Dangerous(cl, tokens[k])
      invariant keywordCount == CountKind(tokens, Keyword, i) && stringCount == CountKind(tokens, Str, i)
      invariant hasSemicolon <==> exists k :: 0 <= k < i && Chains(tokens[k])
    {
      OneMoreToken(tokens, i);
      TokenMeans(cl, tokens[i]);
      var t := tokens[i];
      if t.kind == Keyword {
        keywordCount := keywordCount + 1;
        var upper := cl.upper(t.value);
        if upper == "UNION" || upper == "SELECT" || upper == "DROP" || upper == "EXEC" || upper == "EXECUTE" {
          return KeywordInjection(i);
        }
      } else if t.kind == Str {
        stringCount := stringCount + 1;
      } else if Chains(t) {
        hasSemicolon := true;
      }
    }
    AllIndices(tokens, Keyword);
    AllIndices(tokens, Str);
    if hasSemicolon && keywordCount > 0 {
      return StatementChaining;
    }
    if keywordCount >= 2 && stringCount >= 1 {
      return InjectionPattern;
    }
    return Clean;
  }

  predicate Apart(a: Token, b: Token) {
    End(a) <= b.pos || End(b) <= a.pos
  }

  /** A keyword is a run of word characters of the text that no further one continues, and shares no
      character with any other token: with no string and no comment in particular. */
  lemma KeywordOutsideStrings(cl: Classes, text: string, at: nat, other: nat)
    requires var tokens := TokensFrom(cl, text, 0);
             at < |tokens| && other < |tokens| && tokens[at].kind == Keyword
    ensures var tokens := TokensFrom(cl, text, 0);
            && IsKeyword(cl, text, tokens[at])
            && (tokens[other].kind in {Str, Comment} ==> Apart(tokens[at], tokens[other]))
  {
    KindsAreRight(cl, text, 0, at);
    if at < other {
      TokensApart(cl, text, 0, at, other);
    } else if other < at {
      TokensApart(cl, text, 0, other, at);
    }
  }
}
