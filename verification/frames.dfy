/** WebSocket frames on the wire (sections 5.2 and 5.3 of RFC 6455), and what the parser makes of bytes. */
module Frames {
  import opened Options

  type Bytes = seq<bv8>
  type Key = k: Bytes | |k| == 4 witness [0, 0, 0, 0]

  datatype Frame = Frame(opcode: int, payload: Bytes, finished: bool)
  datatype Result = Parsed(frame: Frame) | TooSmall | InvalidLength | UnexpectedEOF | OutOfRange

  const SIGNED: int := 0x8000_0000_0000_0000
  const WORD: int := 0x1_0000_0000_0000_0000

  // ---- numbers in network byte order ----

  function Num(b: bv8): int { b as int }

  /** The byte that stands for n. */
  function Byte(n: int): bv8
    requires 0 <= n < 256
  {
    if n == 0 then 0 else Byte(n - 1) + 1
  }

  lemma NextNum(b: bv8)
    requires Num(b) < 255
    ensures Num(b + 1) == Num(b) + 1
  {
  }

  lemma NumInjective(a: bv8, b: bv8)
    requires Num(a) == Num(b)
    ensures a == b
  {
  }

  lemma NumOrder(b: bv8)
    requires Num(b) <= 125
    ensures b <= 125
  {
  }

  lemma NumRange(b: bv8)
    ensures 0 <= Num(b) < 256 && Num(0) == 0
  {
  }

  lemma {:induction false} NumOfByte(n: int)
    requires 0 <= n < 256
    ensures Num(Byte(n)) == n
  {
    hide Num;
    NumRange(0);
    if n > 0 {
      NumOfByte(n - 1);
      NextNum(Byte(n - 1));
    }
  }

  lemma ByteOfNum(b: bv8)
    ensures 0 <= Num(b) < 256 && Byte(Num(b)) == b
  {
    hide Num, Byte;
    NumRange(b);
    NumOfByte(Num(b));
    NumInjective(Byte(Num(b)), b);
  }

  function BigEndian(b: Bytes): int {
    if b == [] then 0 else BigEndian(b[..|b| - 1]) * 256 + Num(b[|b| - 1])
  }

  function Limit(k: nat): nat {
    if k == 0 then 1 else 256 * Limit(k - 1)
  }

  function ToBytes(n: nat, k: nat): (b: Bytes)
    ensures |b| == k
  {
    if k == 0 then [] else ToBytes(n / 256, k - 1) + [Byte(n % 256)]
  }

  lemma {:induction false} BigEndianBound(b: Bytes)
    ensures 0 <= BigEndian(b) < Limit(|b|)
  {
    hide Num;
    if b != [] {
      BigEndianBound(b[..|b| - 1]);
      ByteOfNum(b[|b| - 1]);
    }
  }

  lemma Limits()
    ensures Limit(2) == 0x1_0000 && Limit(8) == WORD
  {
    assert Limit(4) == 0x1_0000_0000;
  }

  lemma {:induction false} ToBytesThenBigEndian(n: nat, k: nat)
    requires n < Limit(k)
    ensures BigEndian(ToBytes(n, k)) == n
  {
    hide Num, Byte;
    if k > 0 {
      ToBytesThenBigEndian(n / 256, k - 1);
      NumOfByte(n % 256);
      var b := ToBytes(n, k);
      assert b[..k - 1] == ToBytes(n / 256, k - 1);
    }
  }

  lemma LastDigit(m: int, d: int)
    requires 0 <= d < 256
    ensures (m * 256 + d) / 256 == m && (m * 256 + d) % 256 == d
  {
  }

  lemma ToBytesStep(m: nat, d: int, k: nat)
    requires 0 <= d < 256
    ensures ToBytes(m * 256 + d, k + 1) == ToBytes(m, k) + [Byte(d)]
  {
    hide Byte;
    LastDigit(m, d);
  }

  lemma {:induction false} BigEndianThenToBytes(b: Bytes)
    ensures BigEndian(b) >= 0 && ToBytes(BigEndian(b), |b|) == b
  {
    hide Num, Byte, ToBytes, Limit;
    BigEndianBound(b);
    if b != [] {
      var m, last := BigEndian(b[..|b| - 1]), b[|b| - 1];
      BigEndianThenToBytes(b[..|b| - 1]);
      ByteOfNum(last);
      ToBytesStep(m, Num(last), |b| - 1);
    }
  }

  /** A 64-bit signed integer holding n. */
  function Wrapped(n: int): (w: int)
    ensures -SIGNED <= w < SIGNED
  {
    (n + SIGNED) % WORD - SIGNED
  }

  // ---- masking ----

  function Unmask(payload: Bytes, key: Key): (r: Bytes)
    ensures |r| == |payload|
  {
    seq(|payload|, i requires 0 <= i < |payload| => payload[i] ^ key[i % 4])
  }

  lemma XorTwice(a: bv8, b: bv8)
    ensures (a ^ b) ^ b == a
  {
  }

  /** Masking is its own inverse. */
  lemma UnmaskTwice(payload: Bytes, key: Key)
    ensures Unmask(Unmask(payload, key), key) == payload
  {
    forall i | 0 <= i < |payload|
      ensures Unmask(Unmask(payload, key), key)[i] == payload[i]
    {
      XorTwice(payload[i], key[i % 4]);
    }
  }

  // ---- parsing ----

  predicate Masked(data: Bytes)
    requires |data| >= 2
  {
    data[1] & 0x80 != 0
  }

  function Short(data: Bytes): bv8
    requires |data| >= 2
  {
    data[1] & 0x7f
  }

  /** How many bytes of extended length the frame has. */
  function Extended(data: Bytes): nat
    requires |data| >= 2
  {
    if Short(data) == 126 then 2 else if Short(data) == 127 then 8 else 0
  }

  /** The declared payload length, unsigned. */
  function Declared(data: Bytes): int
    requires |data| >= 2 && |data| >= 2 + Extended(data)
  {
    if Extended(data) == 0 then Num(Short(data)) else BigEndian(data[2..2 + Extended(data)])
  }

  /** Where the payload starts. */
  function Start(data: Bytes): nat
    requires |data| >= 2
  {
    2 + Extended(data) + if Masked(data) then 4 else 0
  }

  function End(data: Bytes): int
    requires |data| >= 2 && |data| >= 2 + Extended(data)
  {
    Wrapped(Start(data) + Wrapped(Declared(data)))
  }

  /** What the payload bytes become. */
  function Payload(data: Bytes): Bytes
    requires |data| >= 2 && |data| >= 2 + Extended(data) && Start(data) <= End(data) <= |data|
  {
    var start := Start(data);
    if Masked(data) then Unmask(data[start..End(data)], data[start - 4..start]) else data[start..End(data)]
  }

  function Parse(data: Bytes): Result {
    if |data| < 2 then TooSmall
    else if |data| < 2 + Extended(data) then InvalidLength
    else if |data| < End(data) then UnexpectedEOF
    else if End(data) < Start(data) then OutOfRange
    else Parsed(Frame(Num(data[0] & 0x0f), Payload(data), data[0] & 0x80 != 0))
  }

  /** The buffer afterwards: the payload is unmasked in place. */
  function Afterwards(data: Bytes): Bytes {
    if Parse(data).Parsed? then data[..Start(data)] + Payload(data) + data[End(data)..] else data
  }

  // ---- when the parser fails ----

  /** The parser slices out of range if and only if the declared end does not fit a signed 64-bit
      integer and the bytes reach the wrapped one. */
  lemma OutOfRangeExactlyWhen(data: Bytes)
    ensures Parse(data).OutOfRange? <==>
            && |data| >= 2 && |data| >= 2 + Extended(data)
            && Start(data) + Declared(data) >= SIGNED && |data| >= End(data)
  {
    if |data| >= 2 && |data| >= 2 + Extended(data) {
      DeclaredFits(data);
    }
  }

  lemma WrappedMeans(n: int)
    requires -SIGNED <= n < SIGNED + WORD
    ensures Wrapped(n) == if n < SIGNED then n else n - WORD
  {
  }

  lemma DeclaredFits(data: Bytes)
    requires |data| >= 2 && |data| >= 2 + Extended(data)
    ensures 0 <= Declared(data) < WORD
    ensures Declared(data) + Start(data) < SIGNED ==> End(data) == Start(data) + Declared(data)
    ensures Declared(data) + Start(data) >= SIGNED ==> End(data) < Start(data)
  {
    hide BigEndian, Num, Limit, Wrapped;
    Limits();
    ByteOfNum(Short(data));
    if Extended(data) > 0 {
      BigEndianBound(data[2..2 + Extended(data)]);
    }
    WrappedMeans(Declared(data));
    WrappedMeans(Start(data) + Wrapped(Declared(data)));
  }

  lemma {:induction false} AllOnes(b: Bytes)
    requires forall k :: 0 <= k < |b| ==> b[k] == 0xff
    ensures BigEndian(b) == Limit(|b|) - 1
  {
    if b != [] {
      AllOnes(b[..|b| - 1]);
    }
  }

  /** Ten bytes that do: an unmasked frame with the largest length of 64 bits. */
  lemma OutOfRangeExample()
    ensures var data := [0x82, 0x7f, 0xff, 0xff, 0xff, 0xff, 0xff, 0xff, 0xff, 0xff];
            Parse(data).OutOfRange? && Start(data) == 10 && End(data) == 9
  {
    hide BigEndian, Limit, Wrapped;
    var data: Bytes := [0x82, 0x7f, 0xff, 0xff, 0xff, 0xff, 0xff, 0xff, 0xff, 0xff];
    AllOnes(data[2..10]);
    Limits();
    WrappedMeans(WORD - 1);
    WrappedMeans(10 - 1);
  }

  /** In particular never when the top bit of the length is clear and the length is not among the
      last few below it. */
  lemma SmallLengthsAreSafe(data: Bytes)
    requires |data| >= 2 && (|data| >= 2 + Extended(data) ==> Declared(data) < SIGNED - 14)
    ensures !Parse(data).OutOfRange?
  {
    OutOfRangeExactlyWhen(data);
  }

  // ---- encoding ----

  /** The three forms of a length. */
  datatype Form = Seven | Sixteen | SixtyFour

  /** The length fits the form, and the end of the frame a signed 64-bit integer. */
  predicate Fits(form: Form, masked: bool, n: nat) {
    match form
    case Seven => n <= 125
    case Sixteen => n < 0x1_0000
    case SixtyFour => 10 + (if masked then 4 else 0) + n < SIGNED
  }

  function Width(form: Form): nat {
    match form
    case Seven => 0
    case Sixteen => 2
    case SixtyFour => 8
  }

  /** `reserved` may set the three bits that the parser does not look at. */
  function FirstByte(fin: bool, reserved: bv8, opcode: bv8): bv8 {
    (if fin then 0x80 else 0) | (reserved & 0x70) | (opcode & 0x0f)
  }

  function SecondByte(form: Form, masked: bool, n: nat): bv8
    requires Fits(form, masked, n)
  {
    (if masked then 0x80 else 0) |
    match form
    case Seven => Byte(n)
    case Sixteen => 126
    case SixtyFour => 127
  }

  /** The frame up to its length. */
  function Opening(form: Form, fin: bool, reserved: bv8, opcode: bv8, masked: bool, n: nat): Bytes
    requires Fits(form, masked, n)
  {
    [FirstByte(fin, reserved, opcode), SecondByte(form, masked, n)] + ToBytes(n, Width(form))
  }

  function HeaderOf(form: Form, fin: bool, reserved: bv8, opcode: bv8, key: Option<Key>, n: nat): Bytes
    requires Fits(form, key.Some?, n)
  {
    Opening(form, fin, reserved, opcode, key.Some?, n) + if key.Some? then key.value else []
  }

  function Encode(form: Form, fin: bool, reserved: bv8, opcode: bv8, key: Option<Key>, payload: Bytes): Bytes
    requires Fits(form, key.Some?, |payload|)
  {
    HeaderOf(form, fin, reserved, opcode, key, |payload|) +
    if key.Some? then Unmask(payload, key.value) else payload
  }

  lemma BitsRoundTrip(fin: bool, reserved: bv8, opcode: bv8)
    requires opcode < 16
    ensures FirstByte(fin, reserved, opcode) & 0x0f == opcode
    ensures FirstByte(fin, reserved, opcode) & 0x80 != 0 <==> fin
  {
  }

  lemma LengthBitsRoundTrip(masked: bool, len: bv8)
    requires len < 128
    ensures ((if masked then 0x80 else 0) | len) & 0x7f == len
    ensures ((if masked then 0x80 else 0) | len) & 0x80 != 0 <==> masked
  {
  }

  lemma SecondByteReads(form: Form, masked: bool, n: nat)
    requires Fits(form, masked, n)
    ensures var b := SecondByte(form, masked, n);
            && (b & 0x80 != 0 <==> masked)
            && b & 0x7f == (match form case Seven => Byte(n) case Sixteen => 126 case SixtyFour => 127)
    ensures form.Seven? ==> Byte(n) < 126
  {
    hide Num, Byte;
    if form.Seven? {
      NumOfByte(n);
      NumOrder(Byte(n));
    }
    LengthBitsRoundTrip(masked, match form case Seven => Byte(n) case Sixteen => 126 case SixtyFour => 127);
  }

  lemma LengthReads(form: Form, n: nat)
    requires Fits(form, false, n)
    ensures form.Seven? ==> Num(Byte(n)) == n
    ensures !form.Seven? ==> BigEndian(ToBytes(n, Width(form))) == n
  {
    hide Num, Byte, BigEndian, ToBytes;
    Limits();
    if form.Seven? {
      NumOfByte(n);
    } else {
      ToBytesThenBigEndian(n, Width(form));
    }
  }

  lemma SecondByteMeans(form: Form, masked: bool, n: nat, data: Bytes)
    requires Fits(form, masked, n) && |data| >= 2 && data[1] == SecondByte(form, masked, n)
    ensures (Masked(data) <==> masked) && Extended(data) == Width(form)
    ensures Start(data) == 2 + Width(form) + if masked then 4 else 0
    ensures form.Seven? ==> Num(Short(data)) == n
  {
    hide Num, Byte, SecondByte;
    SecondByteReads(form, masked, n);
    if form.Seven? {
      NumOfByte(n);
    }
  }

  lemma OpeningReads(form: Form, fin: bool, reserved: bv8, opcode: bv8, masked: bool, n: nat, data: Bytes)
    requires Fits(form, masked, n) && opcode < 16 && Opening(form, fin, reserved, opcode, masked, n) <= data
    ensures data[0] & 0x0f == opcode && (data[0] & 0x80 != 0 <==> fin)
    ensures data[1] == SecondByte(form, masked, n)
    ensures Extended(data) == Width(form) && Declared(data) == n
  {
    hide Num, Byte, BigEndian, ToBytes, FirstByte, SecondByte, Short;
    var opening := Opening(form, fin, reserved, opcode, masked, n);
    BitsRoundTrip(fin, reserved, opcode);
    assert data[0] == opening[0] && data[1] == opening[1];
    SecondByteMeans(form, masked, n, data);
    LengthReads(form, n);
    assert data[2..2 + Width(form)] == opening[2..2 + Width(form)] == ToBytes(n, Width(form));
  }

  /** Parsing an encoded frame, whatever follows it, gives that frame. */
  lemma RoundTrip(form: Form, fin: bool, reserved: bv8, opcode: bv8, key: Option<Key>, payload: Bytes, trailing: Bytes)
    requires Fits(form, key.Some?, |payload|) && opcode < 16
    ensures Parse(Encode(form, fin, reserved, opcode, key, payload) + trailing)
         == Parsed(Frame(Num(opcode), payload, fin))
  {
    hide Num, Opening, SecondByte, Declared, Extended, Masked, Unmask, Start, End;
    var opening := Opening(form, fin, reserved, opcode, key.Some?, |payload|);
    var keyBytes := if key.Some? then key.value else [];
    var body := if key.Some? then Unmask(payload, key.value) else payload;
    var data := Encode(form, fin, reserved, opcode, key, payload) + trailing;
    assert data == opening + keyBytes + body + trailing;
    Pieces(opening, keyBytes, body, trailing);
    OpeningLength(form, fin, reserved, opcode, key.Some?, |payload|);
    OpeningReads(form, fin, reserved, opcode, key.Some?, |payload|, data);
    SecondByteMeans(form, key.Some?, |payload|, data);
    DeclaredFits(data);
    assert data[Start(data)..End(data)] == body;
    if key.Some? {
      assert data[Start(data) - 4..Start(data)] == key.value;
      UnmaskTwice(payload, key.value);
    }
  }

  lemma Pieces(a: Bytes, b: Bytes, c: Bytes, d: Bytes)
    ensures var all, i, j := a + b + c + d, |a| + |b|, |a| + |b| + |c|;
            all[..|a|] == a && all[|a|..i] == b && all[i..j] == c
  {
  }

  lemma OpeningLength(form: Form, fin: bool, reserved: bv8, opcode: bv8, masked: bool, n: nat)
    requires Fits(form, masked, n)
    ensures |Opening(form, fin, reserved, opcode, masked, n)| == 2 + Width(form)
  {
  }

  /** A frame cut off anywhere is rejected, and the error says how far it got. */
  lemma PrefixRejected(form: Form, fin: bool, reserved: bv8, opcode: bv8, key: Option<Key>, payload: Bytes, n: nat)
    requires Fits(form, key.Some?, |payload|) && opcode < 16
    requires n < |Encode(form, fin, reserved, opcode, key, payload)|
    ensures Parse(Encode(form, fin, reserved, opcode, key, payload)[..n])
         == if n < 2 then TooSmall else if n < 2 + Width(form) then InvalidLength else UnexpectedEOF
  {
    hide Num, Opening, SecondByte, Declared, Extended, Masked, Unmask;
    var opening := Opening(form, fin, reserved, opcode, key.Some?, |payload|);
    OpeningLength(form, fin, reserved, opcode, key.Some?, |payload|);
    var frame := Encode(form, fin, reserved, opcode, key, payload);
    assert opening <= frame;
    var data := frame[..n];
    if n >= 2 {
      OpeningReads(form, fin, reserved, opcode, key.Some?, |payload|, frame);
      assert data[1] == frame[1];
      SecondByteMeans(form, key.Some?, |payload|, data);
      if n >= 2 + Width(form) {
        OpeningReads(form, fin, reserved, opcode, key.Some?, |payload|, data);
        DeclaredFits(data);
      }
    }
  }

  // ---- everything that parses is an encoding ----

  function FormOf(data: Bytes): Form
    requires |data| >= 2
  {
    if Short(data) == 126 then Sixteen else if Short(data) == 127 then SixtyFour else Seven
  }

  function KeyOf(data: Bytes): Option<Key>
    requires |data| >= 2 && |data| >= Start(data)
  {
    if Masked(data) then
      var key: Key := data[Start(data) - 4..Start(data)];
      Some(key)
    else None
  }

  lemma BitsComplete(first: bv8)
    ensures first & 0x0f < 16 && FirstByte(first & 0x80 != 0, first, first & 0x0f) == first
  {
  }

  lemma LengthBitsComplete(second: bv8)
    ensures (if second & 0x80 != 0 then 0x80 else 0) | (second & 0x7f) == second
    ensures second & 0x7f < 128
  {
  }

  lemma SmallNum(b: bv8)
    requires b < 126
    ensures 0 <= Num(b) <= 125
  {
  }

  lemma SecondByteComplete(data: Bytes)
    requires |data| >= 2 && |data| >= 2 + Extended(data)
    requires Declared(data) >= 0 && Fits(FormOf(data), Masked(data), Declared(data))
    ensures SecondByte(FormOf(data), Masked(data), Declared(data)) == data[1]
  {
    hide Num, Byte, BigEndian;
    LengthBitsComplete(data[1]);
    ByteOfNum(Short(data));
  }

  lemma OpeningComplete(data: Bytes)
    requires |data| >= 2 && |data| >= 2 + Extended(data) && Start(data) + Declared(data) < SIGNED
    ensures Declared(data) >= 0 && Fits(FormOf(data), Masked(data), Declared(data))
    ensures data[0] & 0x0f < 16
    ensures Opening(FormOf(data), data[0] & 0x80 != 0, data[0], data[0] & 0x0f, Masked(data), Declared(data))
         == data[..2 + Extended(data)]
  {
    hide Num, Byte, BigEndian, ToBytes, FirstByte, SecondByte, Masked, Limit;
    BitsComplete(data[0]);
    Limits();
    DeclaredFits(data);
    var length := data[2..2 + Extended(data)];
    if FormOf(data).Seven? {
      LengthBitsComplete(data[1]);
      SmallNum(Short(data));
    } else {
      BigEndianBound(length);
      BigEndianThenToBytes(length);
    }
    SecondByteComplete(data);
  }

  /** The inverse of the round trip: what parses is the encoding of the frame it parses to, followed by
      bytes that do not matter. */
  lemma ParsedIsEncoded(data: Bytes)
    requires Parse(data).Parsed?
    ensures var f := Parse(data).frame;
            && |data| >= Start(data) && Fits(FormOf(data), Masked(data), |f.payload|)
            && data[0] & 0x0f < 16 && Num(data[0] & 0x0f) == f.opcode
            && data == Encode(FormOf(data), f.finished, data[0], data[0] & 0x0f, KeyOf(data), f.payload)
                       + data[End(data)..]
  {
    hide Num, Opening, Masked, Unmask, Declared, Extended, FormOf;
    DeclaredFits(data);
    OpeningComplete(data);
    var body := data[Start(data)..End(data)];
    if Masked(data) {
      UnmaskTwice(body, data[Start(data) - 4..Start(data)]);
    }
  }

  // ---- the buffer afterwards ----

  /** Parsing the same buffer again undoes the unmasking: it restores the bytes, and finds the masked
      payload in the same place. */
  lemma {:induction false} ParsingTwice(data: Bytes)
    requires Parse(data).Parsed?
    ensures var again := Parse(Afterwards(data));
            && again.Parsed? && Afterwards(Afterwards(data)) == data
            && again.frame.payload == data[Start(data)..End(data)]
            && again.frame.opcode == Parse(data).frame.opcode && again.frame.finished == Parse(data).frame.finished
  {
    hide Num, Masked, Unmask, Short, Declared, Extended, Start, End, Payload, Afterwards;
    var after := Afterwards(data);
    var start, end := Start(data), End(data);
    AfterwardsKeepsHeader(data);
    SameHeader(data, after);
    PayloadMeans(data);
    PayloadMeans(after);
    if Masked(data) {
      PrefixSlice(data, after, start, start - 4, start);
      UnmaskTwice(data[start..end], data[start - 4..start]);
    }
    AfterwardsMeans(after);
    assert data == data[..start] + data[start..end] + data[end..];
  }

  lemma PayloadMeans(data: Bytes)
    requires |data| >= 2 && |data| >= 2 + Extended(data) && Start(data) <= End(data) <= |data|
    ensures Start(data) >= 2 + Extended(data) + if Masked(data) then 4 else 0
    ensures |Payload(data)| == End(data) - Start(data)
    ensures Payload(data) ==
            if Masked(data) then Unmask(data[Start(data)..End(data)], data[Start(data) - 4..Start(data)])
            else data[Start(data)..End(data)]
  {
  }

  lemma AfterwardsMeans(data: Bytes)
    requires |data| >= 2 && |data| >= 2 + Extended(data) && Start(data) <= End(data) <= |data|
    ensures Afterwards(data) == data[..Start(data)] + Payload(data) + data[End(data)..]
  {
  }

  lemma AfterwardsKeepsHeader(data: Bytes)
    requires Parse(data).Parsed?
    ensures var after := Afterwards(data);
            && 2 + Extended(data) <= Start(data) <= End(data) <= |after| == |data|
            && after[..Start(data)] == data[..Start(data)]
            && after[Start(data)..End(data)] == Payload(data)
            && after[End(data)..] == data[End(data)..]
  {
    hide Num, Masked, Unmask, Short, Declared, Extended, Start, End, Payload;
    PayloadMeans(data);
  }

  lemma PrefixSlice(a: Bytes, b: Bytes, n: nat, i: nat, j: nat)
    requires i <= j <= n <= |a| && n <= |b| && a[..n] == b[..n]
    ensures a[i..j] == b[i..j]
    ensures forall k :: 0 <= k < n ==> a[k] == b[k]
  {
    assert a[i..j] == a[..n][i..j] && b[i..j] == b[..n][i..j];
    forall k | 0 <= k < n
      ensures a[k] == b[k]
    {
      assert a[k] == a[..n][k] && b[k] == b[..n][k];
    }
  }

  /** The header alone says where the payload is. */
  lemma SameHeader(a: Bytes, b: Bytes)
    requires |a| >= 2 && 2 + Extended(a) <= Start(a) <= |a| <= |b| && a[..Start(a)] == b[..Start(a)]
    ensures a[0] == b[0] && Masked(a) == Masked(b) && Extended(a) == Extended(b)
    ensures Start(a) == Start(b) && Declared(a) == Declared(b) && End(a) == End(b)
  {
    hide Wrapped, BigEndian, Num;
    PrefixSlice(a, b, Start(a), 2, 2 + Extended(a));
  }
}
