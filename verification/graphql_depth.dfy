/** The depth scan of a GraphQL query, and what it measures. */
module GraphQLDepth {

  function Step(c: char): int {
    if c == '{' then 1 else if c == '}' then -1 else 0
  }

  /** How many more braces open than close. */
  function Net(q: string): int {
    if q == "" then 0 else Net(q[..|q| - 1]) + Step(q[|q| - 1])
  }

  /** The deepest level so far, and the present one, which never falls below zero. */
  datatype Depth = Depth(max: nat, current: nat)

  function Seen(d: Depth, c: char): Depth {
    if c == '{' then Depth(if d.current + 1 > d.max then d.current + 1 else d.max, d.current + 1)
    else if c == '}' && d.current > 0 then d.(current := d.current - 1)
    else d
  }

  function Scan(d: Depth, q: string): Depth {
    if q == "" then d else Seen(Scan(d, q[..|q| - 1]), q[|q| - 1])
  }

  const START := Depth(0, 0)

  // ---- the maximum over all substrings ----

  lemma NetOfSlice(q: string, i: nat, j: nat)
    requires i < j <= |q|
    ensures Net(q[i..j]) == Net(q[i..j - 1]) + Step(q[j - 1])
  {
    assert q[i..j][..j - i - 1] == q[i..j - 1];
  }

  lemma ScanOfPrefix(q: string, j: nat)
    requires 0 < j <= |q|
    ensures Scan(START, q[..j]) == Seen(Scan(START, q[..j - 1]), q[j - 1])
  {
    assert q[..j][..j - 1] == q[..j - 1];
  }

  /** The present level is the largest excess of any suffix: from `from` on it is reached. */
  lemma {:induction false} CurrentIsBestSuffix(q: string, j: nat) returns (from: nat)
    requires j <= |q|
    ensures from <= j && Net(q[from..j]) == Scan(START, q[..j]).current
    ensures forall i :: 0 <= i <= j ==> Net(q[i..j]) <= Scan(START, q[..j]).current
  {
    if j == 0 {
      from := 0;
      assert q[0..0] == "" == q[..0];
    } else {
      from := CurrentIsBestSuffix(q, j - 1);
      ScanOfPrefix(q, j);
      forall i | 0 <= i < j
        ensures Net(q[i..j]) == Net(q[i..j - 1]) + Step(q[j - 1])
      {
        NetOfSlice(q, i, j);
      }
      assert q[j..j] == "";
      if q[j - 1] == '}' && Scan(START, q[..j - 1]).current == 0 {
        from := j;
      }
    }
  }

  /** The scan finds the largest excess of opening over closing braces in any substring. */
  lemma {:induction false} DepthIsBestSubstring(q: string, k: nat) returns (i: nat, j: nat)
    requires k <= |q|
    ensures i <= j <= k && Net(q[i..j]) == Scan(START, q[..k]).max
    ensures forall a, b :: 0 <= a <= b <= k ==> Net(q[a..b]) <= Scan(START, q[..k]).max
  {
    if k == 0 {
      i, j := 0, 0;
      assert q[0..0] == "" == q[..0];
    } else {
      i, j := DepthIsBestSubstring(q, k - 1);
      ScanOfPrefix(q, k);
      var from := CurrentIsBestSuffix(q, k);
      CurrentBelowMax(q[..k]);
      if Scan(START, q[..k]).max > Scan(START, q[..k - 1]).max {
        i, j := from, k;
      }
    }
  }

  lemma {:induction false} CurrentBelowMax(q: string)
    ensures Scan(START, q).current <= Scan(START, q).max
  {
    if q != "" {
      CurrentBelowMax(q[..|q| - 1]);
    }
  }

  /** What countDepth returns is the maximum over all substrings: no substring exceeds it, and one
      reaches it. */
  lemma DepthIsMaximum(q: string)
    ensures forall i, j :: 0 <= i <= j <= |q| ==> Net(q[i..j]) <= Scan(START, q).max
    ensures exists i, j :: 0 <= i <= j <= |q| && Net(q[i..j]) == Scan(START, q).max
  {
    var i, j := DepthIsBestSubstring(q, |q|);
    assert q[..|q|] == q;
    assert Net(q[i..j]) == Scan(START, q).max;
  }

  /** If no prefix closes more than it inside, that maximum is taken by a prefix: the deepest level. */
  lemma {:induction false} DepthOfBalanced(q: string)
    requires forall k :: 0 <= k <= |q| ==> Net(q[..k]) >= 0
    ensures forall k :: 0 <= k <= |q| ==> Net(q[..k]) <= Scan(START, q).max
    ensures exists k :: 0 <= k <= |q| && Net(q[..k]) == Scan(START, q).max
  {
    DepthIsMaximum(q);
    forall k | 0 <= k <= |q|
      ensures q[..k] == q[0..k]
    {
    }
    var i, j :| 0 <= i <= j <= |q| && Net(q[i..j]) == Scan(START, q).max;
    NetSplits(q, i, j);
    assert Net(q[0..j]) <= Scan(START, q).max;
    assert Net(q[..j]) == Scan(START, q).max;
  }

  lemma {:induction false} NetSplits(q: string, i: nat, j: nat)
    requires i <= j <= |q|
    ensures Net(q[..j]) == Net(q[..i]) + Net(q[i..j])
  {
    if i < j {
      NetSplits(q, i, j - 1);
      NetOfSlice(q, i, j);
      NetOfSlice(q, 0, j);
      assert q[..j] == q[0..j] && q[..j - 1] == q[0..j - 1];
    } else {
      assert q[i..j] == "";
    }
  }

  // ---- documents of nested blocks ----

  datatype Document =
    | End
    | Other(c: char, rest: Document)
    | Block(inner: Document, rest: Document)

  predicate Proper(d: Document) {
    match d
    case End => true
    case Other(c, rest) => Step(c) == 0 && Proper(rest)
    case Block(inner, rest) => Proper(inner) && Proper(rest)
  }

  function Render(d: Document): string {
    match d
    case End => ""
    case Other(c, rest) => [c] + Render(rest)
    case Block(inner, rest) => "{" + Render(inner) + "}" + Render(rest)
  }

  function Nesting(d: Document): nat {
    match d
    case End => 0
    case Other(_, rest) => Nesting(rest)
    case Block(inner, rest) =>
      if Nesting(inner) + 1 > Nesting(rest) then Nesting(inner) + 1 else Nesting(rest)
  }

  lemma {:induction false} ScanAppend(d: Depth, p: string, q: string)
    ensures Scan(d, p + q) == Scan(Scan(d, p), q)
  {
    if q == "" {
      assert p + q == p;
    } else {
      assert (p + q)[..|p + q| - 1] == p + q[..|q| - 1];
      ScanAppend(d, p, q[..|q| - 1]);
    }
  }

  lemma ScanChar(d: Depth, c: char)
    ensures Scan(d, [c]) == Seen(d, c)
  {
    assert [c][..0] == "";
  }

  lemma {:induction false} ScanDocument(s: Depth, d: Document)
    requires Proper(d) && s.current <= s.max
    ensures Scan(s, Render(d)) ==
            s.(max := if s.current + Nesting(d) > s.max then s.current + Nesting(d) else s.max)
    decreases d
  {
    match d
    case End => {}
    case Other(c, rest) => {
      ScanAppend(s, [c], Render(rest));
      ScanChar(s, c);
      ScanDocument(s, rest);
    }
    case Block(inner, rest) => {
      var inside := Seen(s, '{');
      ScanChar(s, '{');
      ScanDocument(inside, inner);
      var within := Scan(inside, Render(inner));
      ScanChar(within, '}');
      var closed := Seen(within, '}');
      ScanDocument(closed, rest);
      ScanAppend(s, "{", Render(inner));
      ScanAppend(s, "{" + Render(inner), "}");
      ScanAppend(s, "{" + Render(inner) + "}", Render(rest));
    }
  }

  /** The depth of a rendered document is how deep its blocks nest. */
  lemma DepthIsNesting(d: Document)
    requires Proper(d)
    ensures Scan(START, Render(d)) == Depth(Nesting(d), 0)
  {
    ScanDocument(START, d);
  }

  predicate Balanced(q: string) {
    Net(q) == 0 && forall k :: 0 <= k <= |q| ==> Net(q[..k]) >= 0
  }

  lemma NetFrom(q: string, i: nat, j: nat, k: nat)
    requires i + k <= j <= |q|
    ensures Net(q[i..j][..k]) == Net(q[..i + k]) - Net(q[..i])
    ensures Net(q[i..j]) == Net(q[..j]) - Net(q[..i])
  {
    NetSplits(q, i, i + k);
    NetSplits(q, i, j);
    assert q[i..j][..k] == q[i..i + k];
  }

  /** A slice between two places of the same level, with nothing below it in between. */
  lemma SliceBalanced(q: string, i: nat, j: nat)
    requires i <= j <= |q| && Net(q[..i]) == Net(q[..j])
    requires forall k :: i <= k <= j ==> Net(q[..k]) >= Net(q[..i])
    ensures Balanced(q[i..j])
  {
    NetFrom(q, i, j, 0);
    forall k | 0 <= k <= j - i
      ensures Net(q[i..j][..k]) >= 0
    {
      NetFrom(q, i, j, k);
    }
  }

  lemma {:induction false} FirstReturn(q: string, from: nat) returns (j: nat)
    requires 1 <= from <= |q| && Balanced(q) && forall k :: 1 <= k < from ==> Net(q[..k]) > 0
    ensures from <= j <= |q| && Net(q[..j]) == 0 && forall k :: 1 <= k < j ==> Net(q[..k]) > 0
    decreases |q| - from
  {
    assert q[..|q|] == q;
    if Net(q[..from]) == 0 {
      j := from;
    } else {
      j := FirstReturn(q, from + 1);
    }
  }

  lemma FirstStep(q: string)
    requires q != ""
    ensures Net(q[..0]) == 0 && Net(q[..1]) == Step(q[0]) && q[..|q|] == q
  {
    assert q[..1][..0] == "" == q[..0];
  }

  lemma PrefixStep(q: string, j: nat)
    requires 0 < j <= |q|
    ensures Net(q[..j]) == Net(q[..j - 1]) + Step(q[j - 1])
  {
    assert q[..j][..j - 1] == q[..j - 1];
  }

  /** A balanced text that opens a block: the block, and what follows it, are balanced. */
  lemma FirstBlock(q: string) returns (j: nat)
    requires Balanced(q) && q != "" && q[0] == '{'
    ensures 2 <= j <= |q| && q == "{" + q[1..j - 1] + "}" + q[j..|q|]
    ensures Balanced(q[1..j - 1]) && Balanced(q[j..|q|])
  {
    FirstStep(q);
    j := FirstReturn(q, 1);
    assert j >= 2;
    PrefixStep(q, j);
    assert Net(q[..j - 1]) == 1 && q[j - 1] == '}';
    SliceBalanced(q, 1, j - 1);
    SliceBalanced(q, j, |q|);
  }

  lemma FirstOther(q: string)
    requires Balanced(q) && q != "" && q[0] != '{'
    ensures Step(q[0]) == 0 && Balanced(q[1..|q|]) && q == [q[0]] + q[1..|q|]
  {
    FirstStep(q);
    SliceBalanced(q, 1, |q|);
  }

  /** Every balanced text is a rendered document, so its depth is how deep it nests. */
  lemma {:induction false} BalancedIsDocument(q: string) returns (d: Document)
    requires Balanced(q)
    ensures Proper(d) && Render(d) == q && Scan(START, q) == Depth(Nesting(d), 0)
    decreases |q|
  {
    hide Balanced, Scan, Nesting, Step;
    if q == "" {
      d := End;
    } else if q[0] == '{' {
      var j := FirstBlock(q);
      var inner := BalancedIsDocument(q[1..j - 1]);
      var rest := BalancedIsDocument(q[j..|q|]);
      d := Block(inner, rest);
    } else {
      FirstOther(q);
      var rest := BalancedIsDocument(q[1..|q|]);
      d := Other(q[0], rest);
    }
    DepthIsNesting(d);
  }

  // ---- lines ----

  function Split(q: string): (lines: seq<string>)
    ensures lines != []
  {
    if q == "" then [""]
    else
      var lines, c := Split(q[..|q| - 1]), q[|q| - 1];
      if c == '\n' then lines + [""] else lines[|lines| - 1 := lines[|lines| - 1] + [c]]
  }

  function Join(lines: seq<string>): string
    requires lines != []
  {
    if |lines| == 1 then lines[0] else Join(lines[..|lines| - 1]) + "\n" + lines[|lines| - 1]
  }

  /** Split yields the lines of the text: joined by newlines they are the text, and none contains one. */
  lemma {:induction false} SplitMeans(q: string)
    ensures Join(Split(q)) == q
    ensures forall k :: 0 <= k < |Split(q)| ==> '\n' !in Split(q)[k]
  {
    if q != "" {
      var lines, c := Split(q[..|q| - 1]), q[|q| - 1];
      SplitMeans(q[..|q| - 1]);
      if c == '\n' {
        assert Split(q)[..|lines|] == lines;
      } else {
        assert Split(q)[..|lines| - 1] == lines[..|lines| - 1];
      }
    }
  }

  function ScanLines(d: Depth, lines: seq<string>): Depth {
    if lines == [] then d else Scan(ScanLines(d, lines[..|lines| - 1]), lines[|lines| - 1])
  }

  lemma {:induction false} ScanJoined(d: Depth, lines: seq<string>)
    requires lines != []
    ensures ScanLines(d, lines) == Scan(d, Join(lines))
  {
    if |lines| > 1 {
      var before, last := lines[..|lines| - 1], lines[|lines| - 1];
      ScanJoined(d, before);
      ScanAppend(d, Join(before), "\n");
      ScanChar(Scan(d, Join(before)), '\n');
      ScanAppend(d, Join(before) + "\n", last);
    }
  }

  /** Line by line or all at once, the scan is the same. */
  lemma {:induction false} SplittingDoesNotMatter(q: string)
    ensures ScanLines(START, Split(q)) == Scan(START, q)
  {
    SplitMeans(q);
    ScanJoined(START, Split(q));
  }

  method CountDepth(q: string) returns (maxDepth: nat)
    ensures maxDepth == Scan(START, q).max
  {
    var currentDepth := 0;
    maxDepth := 0;
    var lines := Split(q);
    for n := 0 to |lines|
      invariant Depth(maxDepth, currentDepth) == ScanLines(START, lines[..n])
    {
      var line := lines[n];
      for k := 0 to |line|
        invariant Depth(maxDepth, currentDepth) == Scan(ScanLines(START, lines[..n]), line[..k])
      {
        assert line[..k + 1][..k] == line[..k];
        if line[k] == '{' {
          currentDepth := currentDepth + 1;
          if currentDepth > maxDepth {
            maxDepth := currentDepth;
          }
        } else if line[k] == '}' {
          if currentDepth > 0 {
            currentDepth := currentDepth - 1;
          }
        }
      }
      assert line[..|line|] == line && lines[..n + 1][..n] == lines[..n];
    }
    assert lines[..|lines|] == lines;
    SplittingDoesNotMatter(q);
  }
}
