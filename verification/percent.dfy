/** Percent-decoding of a path value, over and over until no percent sign is left. */
module Percent {
  import opened Options

  newtype byte = n: int | 0 <= n < 256

  const PERCENT: byte := 37

  function HexDigit(c: byte): Option<byte> {
    if 48 <= c <= 57 then Some(c - 48)
    else if 65 <= c <= 70 then Some(c - 55)
    else if 97 <= c <= 102 then Some(c - 87)
    else None
  }

  /** Space for the scanner; a newline is an error instead. */
  predicate Space(c: byte) {
    c == 9 || c == 11 || c == 12 || c == 13 || c == 32
  }

  /** Scanning two bytes for a hexadecimal number of at most two digits: leading space is skipped, and a
      single digit will do. */
  function ScanHex(a: byte, b: byte): Option<byte> {
    match (HexDigit(a), HexDigit(b))
    case (Some(x), Some(y)) => Some(x * 16 + y)
    case (Some(x), None) => Some(x)
    case (None, Some(y)) => if Space(a) then Some(y) else None
    case (None, None) => None
  }

  predicate StartsEscape(v: seq<byte>) {
    |v| > 2 && v[0] == PERCENT && ScanHex(v[1], v[2]).Some?
  }

  /** One pass over the value. */
  function Pass(v: seq<byte>): seq<byte> {
    if v == [] then []
    else if StartsEscape(v) then [ScanHex(v[1], v[2]).value] + Pass(v[3..])
    else [v[0]] + Pass(v[1..])
  }

  /** How many escapes a pass decodes. */
  function Escapes(v: seq<byte>): nat {
    if v == [] then 0
    else if StartsEscape(v) then 1 + Escapes(v[3..])
    else Escapes(v[1..])
  }

  /** A pass shortens the value by two per escape, and without any it changes nothing. */
  lemma {:induction false} PassShortens(v: seq<byte>)
    ensures |Pass(v)| == |v| - 2 * Escapes(v)
    ensures Pass(v) == v <==> Escapes(v) == 0
  {
    if v != [] {
      if StartsEscape(v) {
        PassShortens(v[3..]);
      } else {
        PassShortens(v[1..]);
        assert v == [v[0]] + v[1..];
      }
    }
  }

  // ---- passes until nothing changes ----

  function Fixpoint(v: seq<byte>): seq<byte>
    decreases |v|
  {
    PassShortens(v);
    if Pass(v) == v then v else Fixpoint(Pass(v))
  }

  /** How many passes change the value. */
  function Shortenings(v: seq<byte>): nat
    decreases |v|
  {
    PassShortens(v);
    if Pass(v) == v then 0 else 1 + Shortenings(Pass(v))
  }

  function Passes(v: seq<byte>, n: nat): seq<byte>
    decreases n
  {
    if n == 0 then v else Passes(Pass(v), n - 1)
  }

  /** The fixpoint is reached after at most |v| / 2 changing passes, and no pass changes it. */
  lemma {:induction false} FixpointReached(v: seq<byte>)
    ensures Pass(Fixpoint(v)) == Fixpoint(v)
    ensures 2 * Shortenings(v) + |Fixpoint(v)| <= |v|
    ensures Passes(v, Shortenings(v)) == Fixpoint(v)
    decreases |v|
  {
    PassShortens(v);
    if Pass(v) != v {
      FixpointReached(Pass(v));
    }
  }

  lemma {:induction false} PassesStayAtFixpoint(v: seq<byte>, n: nat)
    requires n >= Shortenings(v)
    ensures Passes(v, n) == Fixpoint(v)
    decreases n
  {
    PassShortens(v);
    if n > 0 {
      PassesStayAtFixpoint(Pass(v), n - 1);
    }
  }

  lemma {:induction false} FixpointOfPasses(v: seq<byte>, n: nat)
    ensures Fixpoint(Passes(v, n)) == Fixpoint(v)
    decreases n
  {
    PassShortens(v);
    if n > 0 {
      FixpointOfPasses(Pass(v), n - 1);
    }
  }

  // ---- the recursion ----

  /** What decoding returns when at most `depth` calls may nest; None when they do not suffice. */
  function Decode(v: seq<byte>, depth: nat): Option<seq<byte>>
    decreases depth
  {
    if depth == 0 then None
    else if PERCENT !in v then Some(v)
    else if PERCENT in Pass(v) then Decode(Pass(v), depth - 1)
    else Some(Pass(v))
  }

  lemma {:induction false} NoPercentNoPass(v: seq<byte>)
    requires PERCENT !in v
    ensures Pass(v) == v && Fixpoint(v) == v
  {
    if v != [] {
      NoPercentNoPass(v[1..]);
      assert v == [v[0]] + v[1..];
    }
  }

  lemma {:induction false} DecodesToFixpoint(v: seq<byte>, depth: nat)
    requires PERCENT !in Fixpoint(v)
    ensures depth > Shortenings(v) ==> Decode(v, depth) == Some(Fixpoint(v))
    ensures Decode(v, depth).Some? ==> Decode(v, depth).value == Fixpoint(v)
    decreases depth
  {
    PassShortens(v);
    if depth > 0 {
      if PERCENT !in v {
        NoPercentNoPass(v);
      } else {
        DecodesToFixpoint(Pass(v), depth - 1);
        if PERCENT !in Pass(v) {
          NoPercentNoPass(Pass(v));
        }
      }
    }
  }

  lemma {:induction false} NeverDecodes(v: seq<byte>, depth: nat)
    requires PERCENT in Fixpoint(v)
    ensures Decode(v, depth).None?
    decreases depth
  {
    PassShortens(v);
    if depth > 0 {
      if PERCENT !in v {
        NoPercentNoPass(v);
      } else if PERCENT !in Pass(v) {
        NoPercentNoPass(Pass(v));
      } else {
        NeverDecodes(Pass(v), depth - 1);
      }
    }
  }

  /** The recursion returns if and only if the fixpoint has no percent sign left; then it returns the
      fixpoint, with no more than |v| / 2 + 1 calls nested. Otherwise it never ends. */
  lemma DecodesExactlyWhen(v: seq<byte>)
    ensures (exists depth :: Decode(v, depth).Some?) <==> PERCENT !in Fixpoint(v)
    ensures PERCENT !in Fixpoint(v) ==> Decode(v, |v| / 2 + 1) == Some(Fixpoint(v))
    ensures forall depth :: Decode(v, depth).Some? ==> Decode(v, depth).value == Fixpoint(v)
  {
    FixpointReached(v);
    forall depth: nat
      ensures PERCENT in Fixpoint(v) ==> Decode(v, depth).None?
      ensures PERCENT !in Fixpoint(v) && Decode(v, depth).Some? ==> Decode(v, depth).value == Fixpoint(v)
    {
      if PERCENT in Fixpoint(v) {
        NeverDecodes(v, depth);
      } else {
        DecodesToFixpoint(v, depth);
      }
    }
    if PERCENT !in Fixpoint(v) {
      DecodesToFixpoint(v, |v| / 2 + 1);
    }
  }

  // ---- values that are never decoded ----

  /** The first percent sign is not followed by two bytes, the first of which could start a number or
      change. */
  predicate Stuck(before: seq<byte>, rest: seq<byte>) {
    && PERCENT !in before
    && (rest == [] || (rest[0] != PERCENT && (|rest| == 1 || (HexDigit(rest[0]).None? && !Space(rest[0])))))
  }

  lemma {:induction false} PassAfterPlain(before: seq<byte>, rest: seq<byte>)
    requires PERCENT !in before
    ensures Pass(before + rest) == before + Pass(rest)
  {
    if before == [] {
      assert before + rest == rest;
    } else {
      assert (before + rest)[1..] == before[1..] + rest;
      PassAfterPlain(before[1..], rest);
    }
  }

  lemma StuckPass(before: seq<byte>, rest: seq<byte>)
    requires Stuck(before, rest)
    ensures Pass(before + [PERCENT] + rest) == before + [PERCENT] + Pass(rest)
    ensures Stuck(before, Pass(rest)) && |Pass(rest)| <= |rest|
  {
    var v := [PERCENT] + rest;
    assert before + [PERCENT] + rest == before + v;
    PassAfterPlain(before, v);
    assert v[1..] == rest;
    PassShortens(rest);
  }

  lemma {:induction false} StuckFixpoint(before: seq<byte>, rest: seq<byte>)
    requires Stuck(before, rest)
    ensures PERCENT in Fixpoint(before + [PERCENT] + rest)
    decreases |rest|
  {
    var v := before + [PERCENT] + rest;
    StuckPass(before, rest);
    PassShortens(v);
    PassShortens(rest);
    if Pass(v) != v {
      StuckFixpoint(before, Pass(rest));
    }
    assert v[|before|] == PERCENT;
  }

  /** Decoding never ends on a value whose first percent sign starts no escape and never will. */
  lemma StuckNeverDecodes(before: seq<byte>, rest: seq<byte>, depth: nat)
    requires Stuck(before, rest)
    ensures Decode(before + [PERCENT] + rest, depth).None?
  {
    StuckFixpoint(before, rest);
    NeverDecodes(before + [PERCENT] + rest, depth);
  }

  // ---- encoding ----

  function Digit(x: byte): (c: byte)
    requires x < 16
    ensures HexDigit(c) == Some(x)
  {
    if x < 10 then 48 + x else 87 + x
  }

  function Escape(c: byte): seq<byte> {
    [PERCENT, Digit(c / 16), Digit(c % 16)]
  }

  /** Escapes the bytes of `v` that `chosen` picks. */
  function Encode(v: seq<byte>, chosen: byte -> bool): seq<byte> {
    if v == [] then [] else (if chosen(v[0]) then Escape(v[0]) else [v[0]]) + Encode(v[1..], chosen)
  }

  lemma EscapeScans(c: byte)
    ensures ScanHex(Digit(c / 16), Digit(c % 16)) == Some(c)
  {
  }

  /** One pass undoes one encoding, provided that percent signs were among the bytes escaped. */
  lemma {:induction false} PassUndoesEncode(v: seq<byte>, chosen: byte -> bool)
    requires chosen(PERCENT)
    ensures Pass(Encode(v, chosen)) == v
  {
    if v != [] {
      var rest := Encode(v[1..], chosen);
      PassUndoesEncode(v[1..], chosen);
      if chosen(v[0]) {
        EscapeScans(v[0]);
        assert (Escape(v[0]) + rest)[3..] == rest;
      } else {
        assert ([v[0]] + rest)[1..] == rest;
      }
    }
  }

  function EncodeTimes(v: seq<byte>, chosen: byte -> bool, n: nat): seq<byte> {
    if n == 0 then v else Encode(EncodeTimes(v, chosen, n - 1), chosen)
  }

  lemma {:induction false} PassesUndoEncodings(v: seq<byte>, chosen: byte -> bool, n: nat)
    requires chosen(PERCENT)
    ensures Passes(EncodeTimes(v, chosen, n), n) == v
  {
    if n > 0 {
      PassesUndoEncodings(v, chosen, n - 1);
      PassUndoesEncode(EncodeTimes(v, chosen, n - 1), chosen);
    }
  }

  /** A value without percent signs comes back however many times it was encoded. */
  lemma EncodedTimesDecodes(v: seq<byte>, chosen: byte -> bool, n: nat)
    requires chosen(PERCENT) && PERCENT !in v
    ensures var encoded := EncodeTimes(v, chosen, n); Decode(encoded, |encoded| / 2 + 1) == Some(v)
  {
    var encoded := EncodeTimes(v, chosen, n);
    PassesUndoEncodings(v, chosen, n);
    FixpointOfPasses(encoded, n);
    NoPercentNoPass(v);
    DecodesExactlyWhen(encoded);
  }

  // ---- any encoding, by its characters ----

  const SMALL := "0123456789abcdef"
  const CAPITAL := "0123456789ABCDEF"

  /** The byte is the x-th hexadecimal digit, small or capital. */
  predicate Denotes(c: byte, x: int) {
    0 <= x < 16 && (c as int == SMALL[x] as int || c as int == CAPITAL[x] as int)
  }

  lemma HexDigitMeans(c: byte, x: byte)
    requires x < 16
    ensures HexDigit(c) == Some(x) <==> Denotes(c, x as int)
  {
  }

  /** Two hexadecimal digits that stand for a byte. */
  predicate Pair(a: byte, b: byte, c: byte) {
    Denotes(a, c as int / 16) && Denotes(b, c as int % 16)
  }

  lemma PairScans(a: byte, b: byte, c: byte)
    requires Pair(a, b, c)
    ensures ScanHex(a, b) == Some(c)
  {
    hide HexDigit, Denotes;
    HexDigitMeans(a, c / 16);
    HexDigitMeans(b, c % 16);
  }

  /** e spells v, every byte either itself or escaped with digits small or capital, and percent signs always
      escaped. */
  predicate Encodes(e: seq<byte>, v: seq<byte>) {
    if v == [] then e == []
    else if e == [] then false
    else if e[0] == PERCENT then |e| > 2 && Pair(e[1], e[2], v[0]) && Encodes(e[3..], v[1..])
    else e[0] == v[0] && Encodes(e[1..], v[1..])
  }

  /** One pass undoes every encoding. */
  lemma {:induction false} PassUndoesEncoding(e: seq<byte>, v: seq<byte>)
    requires Encodes(e, v)
    ensures Pass(e) == v
  {
    hide ScanHex, Pair;
    if v == [] {
      PassShortens(e);
    } else {
      assert v == [v[0]] + v[1..];
      if e[0] == PERCENT {
        PairScans(e[1], e[2], v[0]);
        PassUndoesEncoding(e[3..], v[1..]);
      } else {
        PassUndoesEncoding(e[1..], v[1..]);
      }
    }
  }

  predicate IsHex(c: byte) {
    c as char in SMALL || c as char in CAPITAL
  }

  lemma HexDigitExactlyWhen(c: byte)
    ensures HexDigit(c).Some? <==> IsHex(c)
    ensures HexDigit(c).Some? ==> HexDigit(c).value < 16 && Denotes(c, HexDigit(c).value as int)
  {
    if HexDigit(c).Some? {
      var x := HexDigit(c).value;
      assert x < 16;
      HexDigitMeans(c, x);
    }
  }

  /** What a pass makes of a percent sign and the two bytes after it: with a second digit missing it takes the
      other byte along all the same, and white space in place of the first digit. */
  lemma PassOnThree(a: byte, b: byte, rest: seq<byte>)
    ensures var after := Pass([PERCENT, a, b] + rest);
            if IsHex(a) && IsHex(b) then exists c :: Pair(a, b, c) && after == [c] + Pass(rest)
            else if IsHex(a) then exists x: byte :: Denotes(a, x as int) && after == [x] + Pass(rest)
            else if IsHex(b) && a in {9, 11, 12, 13, 32} then
              exists y: byte :: Denotes(b, y as int) && after == [y] + Pass(rest)
            else after == [PERCENT] + Pass([a, b] + rest)
  {
    hide HexDigit, IsHex, Denotes;
    var v := [PERCENT, a, b] + rest;
    assert v[1..] == [a, b] + rest && v[3..] == rest;
    HexDigitExactlyWhen(a);
    HexDigitExactlyWhen(b);
    if IsHex(a) && IsHex(b) {
      assert Pair(a, b, ScanHex(a, b).value);
    } else if IsHex(a) {
      var x := HexDigit(a).value;
      assert Denotes(a, x as int) && Pass(v) == [x] + Pass(rest);
    }
  }

  // ---- the loop ----

  lemma PassAt(v: seq<byte>, i: nat)
    requires i < |v|
    ensures Pass(v[i..]) ==
            if v[i] == PERCENT && i + 2 < |v| && ScanHex(v[i + 1], v[i + 2]).Some?
            then [ScanHex(v[i + 1], v[i + 2]).value] + Pass(v[i + 3..])
            else [v[i]] + Pass(v[i + 1..])
  {
    assert v[i..][1..] == v[i + 1..];
    if i + 2 < |v| {
      assert v[i..][3..] == v[i + 3..];
    }
  }

  method DecodeOnce(v: seq<byte>) returns (builder: seq<byte>)
    ensures builder == Pass(v)
  {
    hide ScanHex, Pass;
    assert v[0..] == v && Pass([]) == [] by { PassShortens([]); }
    builder := [];
    var i := 0;
    while i < |v|
      invariant i <= |v|
      invariant builder + Pass(v[i..]) == Pass(v)
    {
      PassAt(v, i);
      if v[i] == PERCENT && i + 2 < |v| && ScanHex(v[i + 1], v[i + 2]).Some? {
        builder := builder + [ScanHex(v[i + 1], v[i + 2]).value];
        i := i + 3;
      } else {
        builder := builder + [v[i]];
        i := i + 1;
      }
    }
    assert v[i..] == [];
  }

  method DecodePathValue(v: seq<byte>, depth: nat) returns (r: Option<seq<byte>>)
    ensures r == Decode(v, depth)
    decreases depth
  {
    if depth == 0 {
      return None;
    }
    if PERCENT !in v {
      return Some(v);
    }
    var result := DecodeOnce(v);
    if PERCENT in result {
      r := DecodePathValue(result, depth - 1);
    } else {
      r := Some(result);
    }
  }
}
