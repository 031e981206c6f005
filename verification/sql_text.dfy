/** The findings, read off the text: semicolons, keywords and quotes that stand outside strings and comments. */
module SqlText {
  import opened SqlTokens
  import opened Sqli
  import opened SqlKeywords

  /** The character stands at p, outside strings and comments. */
  predicate Stands(cl: Classes, text: string, c: char, p: nat) {
    p < |text| && text[p] == c && !Covered(cl, text, p)
  }

  predicate Chained(cl: Classes, text: string) {
    exists k :: 0 <= k < |TokensFrom(cl, text, 0)| && Chains(TokensFrom(cl, text, 0)[k])
  }

  // ---- semicolons ----

  lemma TokenEnd(cl: Classes, text: string, k: nat)
    requires k < |TokensFrom(cl, text, 0)| && TokensFrom(cl, text, 0)[k].kind != Str
    ensures var t := TokensFrom(cl, text, 0)[k];
            t.value != [] && End(t) <= |text| && t.value == text[t.pos..End(t)] && text[t.pos] == t.value[0]
  {
    hide Keyworded;
    KindsAreRight(cl, text, 0, k);
  }

  lemma OnlyCoveredByItself(cl: Classes, text: string, k: nat)
    requires k < |TokensFrom(cl, text, 0)|
    requires TokensFrom(cl, text, 0)[k].kind != Str && TokensFrom(cl, text, 0)[k].kind != Comment
    ensures !Covered(cl, text, TokensFrom(cl, text, 0)[k].pos)
  {
    var tokens := TokensFrom(cl, text, 0);
    TokensApart(cl, text, 0, k, k);
    forall j | 0 <= j < |tokens|
      ensures !Covers(tokens[j], tokens[k].pos)
    {
      if j < k {
        TokensApart(cl, text, 0, j, k);
      } else if k < j {
        TokensApart(cl, text, 0, k, j);
      }
    }
  }

  /** A semicolon belongs to no number, word, operator or unknown token. */
  lemma SemicolonChains(cl: Classes, text: string, t: Token, p: nat)
    requires !cl.isLetter(';') && !cl.isDigit(';')
    requires Fits(cl, text, t) && t.kind != Str && t.kind != Comment
    requires t.pos <= p < End(t) && p < |text| && text[p] == ';'
    ensures Chains(t)
  {
    hide Keyworded;
    assert t.value[p - t.pos] == text[p] && text[p] in t.value;
    if t.kind == Punctuation {
      assert t.value == [text[p]];
    }
  }

  /** Some token chains statements if and only if a semicolon stands outside strings and comments. */
  lemma ChainsExactlyWhen(cl: Classes, text: string)
    requires !cl.isSpace(';') && !cl.isLetter(';') && !cl.isDigit(';')
    ensures Chained(cl, text) <==> exists p :: Stands(cl, text, ';', p)
  {
    hide Covered, Fits;
    var tokens := TokensFrom(cl, text, 0);
    if Chained(cl, text) {
      var k :| 0 <= k < |tokens| && Chains(tokens[k]);
      TokenEnd(cl, text, k);
      OnlyCoveredByItself(cl, text, k);
      assert Stands(cl, text, ';', tokens[k].pos);
    }
    forall p | Stands(cl, text, ';', p)
      ensures Chained(cl, text)
    {
      var k := HeldBy(cl, text, p);
      KindsAreRight(cl, text, 0, k);
      SemicolonChains(cl, text, tokens[k], p);
    }
  }

  /** The token that a character outside strings and comments belongs to. */
  lemma HeldBy(cl: Classes, text: string, p: nat) returns (k: nat)
    requires p < |text| && !cl.isSpace(text[p]) && !Covered(cl, text, p)
    ensures var tokens := TokensFrom(cl, text, 0);
            k < |tokens| && tokens[k].pos <= p < End(tokens[k]) && tokens[k].kind != Str && tokens[k].kind != Comment
  {
    k := InSomeToken(cl, text, 0, p);
    var t := TokensFrom(cl, text, 0)[k];
    assert |t.value| == TokenAt(cl, text, t.pos).1 - t.pos;
    assert !Covers(t, p);
  }

  // ---- strings ----

  predicate CoveredByComment(cl: Classes, text: string, p: nat) {
    exists k :: 0 <= k < |TokensFrom(cl, text, 0)|
                && TokensFrom(cl, text, 0)[k].kind == Comment && Covers(TokensFrom(cl, text, 0)[k], p)
  }

  predicate QuoteStands(cl: Classes, text: string, p: nat) {
    p < |text| && (text[p] == '\'' || text[p] == '\"') && !CoveredByComment(cl, text, p)
  }

  lemma QuoteOpens(cl: Classes, text: string, t: Token, p: nat)
    requires Sane(cl) && Fits(cl, text, t) && t.kind != Comment
    requires t.pos <= p < End(t) && p < |text| && (text[p] == '\'' || text[p] == '\"')
    ensures t.kind == Str
  {
    hide Keyworded, Mark;
    MarksAreNoWords(cl);
  }

  lemma StringStart(cl: Classes, text: string, k: nat)
    requires k < |TokensFrom(cl, text, 0)| && TokensFrom(cl, text, 0)[k].kind == Str
    ensures QuoteStands(cl, text, TokensFrom(cl, text, 0)[k].pos)
  {
    var tokens := TokensFrom(cl, text, 0);
    StartsInText(cl, text, 0, k);
    forall j | 0 <= j < |tokens| && tokens[j].kind == Comment
      ensures !Covers(tokens[j], tokens[k].pos)
    {
      if j < k {
        TokensApart(cl, text, 0, j, k);
      } else {
        TokensApart(cl, text, 0, k, j);
      }
    }
  }

  lemma {:induction false} StartsInText(cl: Classes, text: string, i: nat, k: nat)
    requires i <= |text| && k < |TokensFrom(cl, text, i)|
    ensures var t := TokensFrom(cl, text, i)[k];
            t.pos < |text| && (t.kind == Str ==> text[t.pos] == '\'' || text[t.pos] == '\"')
    decreases |text| - i
  {
    hide Keyworded;
    if cl.isSpace(text[i]) {
      StartsInText(cl, text, i + 1, k);
    } else if k > 0 {
      StartsInText(cl, text, TokenAt(cl, text, i).1, k - 1);
    }
  }

  /** There is a string token if and only if a quote stands outside comments. */
  lemma StringsExactlyWhen(cl: Classes, text: string)
    requires Sane(cl)
    ensures Indices(TokensFrom(cl, text, 0), Str) != {} <==> exists p :: QuoteStands(cl, text, p)
  {
    hide CoveredByComment, Fits;
    var tokens := TokensFrom(cl, text, 0);
    if k :| k in Indices(tokens, Str) {
      StringStart(cl, text, k);
    }
    forall p | QuoteStands(cl, text, p)
      ensures Indices(tokens, Str) != {}
    {
      var k := InSomeToken(cl, text, 0, p);
      var t := tokens[k];
      assert |t.value| == TokenAt(cl, text, t.pos).1 - t.pos;
      CommentCovers(cl, text, k, p);
      KindsAreRight(cl, text, 0, k);
      QuoteOpens(cl, text, t, p);
      assert k in Indices(tokens, Str);
    }
  }

  lemma CommentCovers(cl: Classes, text: string, k: nat, p: nat)
    requires k < |TokensFrom(cl, text, 0)| && QuoteStands(cl, text, p)
    ensures TokensFrom(cl, text, 0)[k].kind == Comment ==> !Covers(TokensFrom(cl, text, 0)[k], p)
  {
  }

  // ---- keywords ----

  /** A keyword from p on, outside strings and comments. */
  ghost predicate KeywordStands(cl: Classes, text: string, p: nat) {
    !Covered(cl, text, p) && exists q :: KeywordAt(cl, text, p, q)
  }

  lemma KeywordStart(cl: Classes, text: string, k: nat)
    requires Sane(cl) && k in Indices(TokensFrom(cl, text, 0), Keyword)
    ensures KeywordStands(cl, text, TokensFrom(cl, text, 0)[k].pos)
  {
    KeywordIsWord(cl, text, k);
  }

  lemma KeywordToken(cl: Classes, text: string, p: nat) returns (k: nat)
    requires Sane(cl) && KeywordStands(cl, text, p)
    ensures k in Indices(TokensFrom(cl, text, 0), Keyword) && TokensFrom(cl, text, 0)[k].pos == p
  {
    var q :| KeywordAt(cl, text, p, q);
    k := WordFound(cl, text, p, q);
  }

  lemma KeywordsExactlyWhen(cl: Classes, text: string)
    requires Sane(cl)
    ensures |Indices(TokensFrom(cl, text, 0), Keyword)| > 0 <==> exists p :: KeywordStands(cl, text, p)
  {
    hide KeywordStands;
    var keywords := Indices(TokensFrom(cl, text, 0), Keyword);
    if k :| k in keywords {
      KeywordStart(cl, text, k);
    }
    if p :| KeywordStands(cl, text, p) {
      var k := KeywordToken(cl, text, p);
    }
  }

  ghost predicate TwoKeywordsStand(cl: Classes, text: string, p: nat, q: nat) {
    p != q && KeywordStands(cl, text, p) && KeywordStands(cl, text, q)
  }

  lemma TwoKeywordsExactlyWhen(cl: Classes, text: string)
    requires Sane(cl)
    ensures |Indices(TokensFrom(cl, text, 0), Keyword)| >= 2 <==> exists p, q :: TwoKeywordsStand(cl, text, p, q)
  {
    hide KeywordStands;
    var tokens := TokensFrom(cl, text, 0);
    var keywords := Indices(tokens, Keyword);
    if |keywords| >= 2 {
      var a :| a in keywords;
      assert |keywords - {a}| >= 1;
      var b :| b in keywords - {a};
      KeywordStart(cl, text, a);
      KeywordStart(cl, text, b);
      TokensApart(cl, text, 0, if a < b then a else b, if a < b then b else a);
      assert TwoKeywordsStand(cl, text, tokens[a].pos, tokens[b].pos);
    }
    forall p, q | TwoKeywordsStand(cl, text, p, q)
      ensures |keywords| >= 2
    {
      var a := KeywordToken(cl, text, p);
      var b := KeywordToken(cl, text, q);
      assert {a, b} <= keywords;
      SizeGrows({a, b}, keywords);
    }
  }

  lemma SizeGrows(small: set<nat>, large: set<nat>)
    requires small <= large
    ensures |small| <= |large|
  {
    assert large == small + (large - small);
  }

  // ---- the findings of a text ----

  ghost predicate DangerStands(cl: Classes, text: string) {
    exists p, q :: DangerousAt(cl, text, p, q) && !Covered(cl, text, p)
  }

  ghost predicate SemicolonAndKeyword(cl: Classes, text: string) {
    (exists p :: Stands(cl, text, ';', p)) && (exists p :: KeywordStands(cl, text, p))
  }

  ghost predicate KeywordsAndQuote(cl: Classes, text: string) {
    (exists p, q :: TwoKeywordsStand(cl, text, p, q)) && (exists p :: QuoteStands(cl, text, p))
  }

  /** What tokenizing and analysing a text finds: a dangerous word outside strings and comments; else a
      semicolon and a keyword outside them; else two keywords outside them and a quote outside comments. */
  method InspectText(cl: Classes, text: string, spare: nat) returns (ok: bool, f: Finding)
    ensures ok <==> !(Overruns(cl, text, 0) && spare == 0)
    ensures ok && Sane(cl) ==>
              && (f.KeywordInjection? <==> DangerStands(cl, text))
              && (f.StatementChaining? <==> !DangerStands(cl, text) && SemicolonAndKeyword(cl, text))
              && (f.InjectionPattern? <==>
                    !DangerStands(cl, text) && !SemicolonAndKeyword(cl, text) && KeywordsAndQuote(cl, text))
  {
    hide TokensFrom, Covered, Dangerous, KeywordStands, CoveredByComment;
    var tokens;
    ok, tokens := Tokenize(cl, text, spare);
    if !ok {
      return false, Clean;
    }
    f := AnalyzeTokens(cl, tokens);
    if Sane(cl) {
      SemicolonIsMark(cl);
      RaisesExactlyWhen(cl, text);
      ChainsExactlyWhen(cl, text);
      KeywordsExactlyWhen(cl, text);
      TwoKeywordsExactlyWhen(cl, text);
      StringsExactlyWhen(cl, text);
    }
  }

  lemma SemicolonIsMark(cl: Classes)
    requires Sane(cl)
    ensures !cl.isSpace(';') && !cl.isLetter(';') && !cl.isDigit(';')
  {
    assert Mark(';') && !Wordy(cl, ';');
    assert ';' in ";'\"";
  }
}
