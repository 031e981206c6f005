/** What the parser returns, byte by byte. */
module FrameBytes {
  import opened Frames

  /** Three header forms: the length in the second byte itself, or in the two or eight bytes after it. */
  function LengthBytes(data: Bytes): nat
    requires |data| >= 2
  {
    if data[1] & 0x7f == 126 then 2 else if data[1] & 0x7f == 127 then 8 else 0
  }

  function FirstPayloadByte(data: Bytes): nat
    requires |data| >= 2
  {
    2 + LengthBytes(data) + if data[1] & 0x80 != 0 then 4 else 0
  }

  function HeaderLength(data: Bytes): int
    requires |data| >= 2 && |data| >= 2 + LengthBytes(data)
  {
    if LengthBytes(data) == 0 then (data[1] & 0x7f) as int
    else if LengthBytes(data) == 2 then data[2] as int * 0x100 + data[3] as int
    else (data[2] as int * 0x100_0000 + data[3] as int * 0x1_0000 + data[4] as int * 0x100 + data[5] as int)
         * 0x1_0000_0000
         + (data[6] as int * 0x100_0000 + data[7] as int * 0x1_0000 + data[8] as int * 0x100 + data[9] as int)
  }

  lemma TwoBytes(b: Bytes)
    requires |b| == 2
    ensures BigEndian(b) == Num(b[0]) * 0x100 + Num(b[1])
  {
    hide Num;
    assert b[..1][..0] == [];
    assert BigEndian(b[..1]) == Num(b[0]);
  }

  lemma Half(b: Bytes)
    requires |b| >= 4
    ensures BigEndian(b) == BigEndian(b[..|b| - 4]) * 0x1_0000_0000 + Num(b[|b| - 4]) * 0x100_0000
                            + Num(b[|b| - 3]) * 0x1_0000 + Num(b[|b| - 2]) * 0x100 + Num(b[|b| - 1])
  {
    hide Num;
    var n := |b|;
    assert b[..n - 1][..n - 2] == b[..n - 2] && b[..n - 2][..n - 3] == b[..n - 3] && b[..n - 3][..n - 4] == b[..n - 4];
    assert BigEndian(b) == BigEndian(b[..n - 1]) * 256 + Num(b[n - 1]);
    assert BigEndian(b[..n - 1]) == BigEndian(b[..n - 2]) * 256 + Num(b[n - 2]);
    assert BigEndian(b[..n - 2]) == BigEndian(b[..n - 3]) * 256 + Num(b[n - 3]);
    assert BigEndian(b[..n - 3]) == BigEndian(b[..n - 4]) * 256 + Num(b[n - 4]);
  }

  lemma EightBytes(b: Bytes)
    requires |b| == 8
    ensures BigEndian(b) ==
            (Num(b[0]) * 0x100_0000 + Num(b[1]) * 0x1_0000 + Num(b[2]) * 0x100 + Num(b[3])) * 0x1_0000_0000
            + (Num(b[4]) * 0x100_0000 + Num(b[5]) * 0x1_0000 + Num(b[6]) * 0x100 + Num(b[7]))
  {
    hide Num;
    Half(b);
    Half(b[..4]);
    assert b[..4][..0] == [];
  }

  lemma FormIs(data: Bytes)
    requires |data| >= 2
    ensures Extended(data) == LengthBytes(data) && Start(data) == FirstPayloadByte(data)
  {
  }

  lemma HeaderIs(data: Bytes)
    requires |data| >= 2 && |data| >= 2 + LengthBytes(data)
    ensures Declared(data) == HeaderLength(data)
  {
    hide BigEndian;
    if LengthBytes(data) == 2 {
      TwoBytes(data[2..4]);
    } else if LengthBytes(data) == 8 {
      EightBytes(data[2..10]);
    }
  }

  /** A frame holds what the bytes say: the low four bits and the top bit of the first byte, as many payload
      bytes as the header declares, from right behind it on; each of them, when the second byte has its top
      bit set, XORed with one of the four bytes before the payload, in turn. */
  predicate ReadsFrom(data: Bytes, f: Frame) {
    && |data| >= 2 && |data| >= 2 + LengthBytes(data)
    && f.opcode == (data[0] & 0x0f) as int && (f.finished <==> data[0] & 0x80 != 0)
    && |f.payload| == HeaderLength(data) && FirstPayloadByte(data) + |f.payload| <= |data|
    && forall i :: 0 <= i < |f.payload| ==>
         f.payload[i] == (if data[1] & 0x80 != 0
                          then data[FirstPayloadByte(data) + i] ^ data[FirstPayloadByte(data) - 4 + i % 4]
                          else data[FirstPayloadByte(data) + i])
  }

  lemma ParsedReads(data: Bytes)
    requires Parse(data).Parsed?
    ensures ReadsFrom(data, Parse(data).frame)
  {
    hide Num, BigEndian, Wrapped, Declared, HeaderLength, Start, Extended, Unmask, Payload;
    ParsedHeader(data);
    PayloadBytes(data);
    NumIs(data[0] & 0x0f);
  }

  lemma ParsedHeader(data: Bytes)
    requires Parse(data).Parsed?
    ensures |data| >= 2 && |data| >= 2 + LengthBytes(data) && |data| >= 2 + Extended(data)
    ensures Start(data) == FirstPayloadByte(data) <= End(data) == Start(data) + HeaderLength(data) <= |data|
  {
    hide Num, BigEndian, Wrapped, Declared, HeaderLength, Start, Extended, Payload;
    FormIs(data);
    HeaderIs(data);
    DeclaredFits(data);
  }

  lemma PayloadBytes(data: Bytes)
    requires |data| >= 2 && |data| >= 2 + Extended(data) && Start(data) == FirstPayloadByte(data) <= End(data) <= |data|
    ensures |Payload(data)| == End(data) - Start(data)
    ensures forall i :: 0 <= i < |Payload(data)| ==>
              Payload(data)[i] == (if data[1] & 0x80 != 0
                                   then data[Start(data) + i] ^ data[Start(data) - 4 + i % 4]
                                   else data[Start(data) + i])
  {
    hide Num, Start, End, Extended, FirstPayloadByte, Unmask, Payload;
    PayloadMeans(data);
    var start, body := Start(data), data[Start(data)..End(data)];
    if data[1] & 0x80 != 0 {
      UnmaskAt(data, start, End(data));
    }
  }

  lemma UnmaskAt(data: Bytes, start: nat, end: nat)
    requires 4 <= start <= end <= |data|
    ensures forall i :: 0 <= i < end - start ==>
              Unmask(data[start..end], data[start - 4..start])[i] == data[start + i] ^ data[start - 4 + i % 4]
  {
    forall i | 0 <= i < end - start
      ensures Unmask(data[start..end], data[start - 4..start])[i] == data[start + i] ^ data[start - 4 + i % 4]
    {
      assert data[start..end][i] == data[start + i];
      assert data[start - 4..start][i % 4] == data[start - 4 + i % 4];
    }
  }

  lemma NumIs(b: bv8)
    ensures Num(b) == b as int
  {
  }

  /** A buffer parses if and only if it is as long as its header declares, and that end fits a signed 64-bit
      integer; the first two errors say that it ends within the first two bytes or within the length. */
  lemma ParsesExactlyWhen(data: Bytes)
    ensures Parse(data).TooSmall? <==> |data| < 2
    ensures Parse(data).InvalidLength? <==> |data| >= 2 && |data| < 2 + LengthBytes(data)
    ensures Parse(data).Parsed? <==>
            && |data| >= 2 && |data| >= 2 + LengthBytes(data)
            && FirstPayloadByte(data) + HeaderLength(data) <= |data|
            && FirstPayloadByte(data) + HeaderLength(data) < 0x8000_0000_0000_0000
  {
    hide Num, BigEndian, Wrapped, Declared, HeaderLength;
    if |data| >= 2 && |data| >= 2 + LengthBytes(data) {
      FormIs(data);
      HeaderIs(data);
      DeclaredFits(data);
    }
  }

  /** Afterwards the buffer holds the payload in place of the bytes that it was read from, and is otherwise
      as it was. */
  lemma OnlyPayloadChanges(data: Bytes)
    requires Parse(data).Parsed?
    ensures var (f, start) := (Parse(data).frame, FirstPayloadByte(data));
            && |Afterwards(data)| == |data|
            && forall k :: 0 <= k < |data| ==>
                 Afterwards(data)[k] == if start <= k < start + |f.payload| then f.payload[k - start] else data[k]
  {
    hide Num, BigEndian, Wrapped, Declared, HeaderLength, Start, Extended, FirstPayloadByte, Payload;
    ParsedHeader(data);
    PayloadMeans(data);
  }

  const HELLO: Bytes := [0x48, 0x65, 0x6c, 0x6c, 0x6f]

  /** The two text frames "Hello" of section 5.7 of RFC 6455: without a mask. */
  lemma HelloParses()
    ensures Parse([0x81, 0x05] + HELLO) == Parsed(Frame(1, HELLO, true))
  {
    hide Parse;
    var data: Bytes := [0x81, 0x05] + HELLO;
    ParsesExactlyWhen(data);
    ParsedReads(data);
    assert Parse(data).frame.payload == HELLO;
  }

  /** And with the mask 37 fa 21 3d. */
  lemma MaskedHelloParses()
    ensures Parse([0x81, 0x85, 0x37, 0xfa, 0x21, 0x3d, 0x7f, 0x9f, 0x4d, 0x51, 0x58]) == Parsed(Frame(1, HELLO, true))
  {
    hide Parse;
    var data: Bytes := [0x81, 0x85, 0x37, 0xfa, 0x21, 0x3d, 0x7f, 0x9f, 0x4d, 0x51, 0x58];
    ParsesExactlyWhen(data);
    ParsedReads(data);
    var payload := Parse(data).frame.payload;
    assert FirstPayloadByte(data) == 6;
    assert payload[0] == data[6] ^ data[2] && payload[1] == data[7] ^ data[3] && payload[2] == data[8] ^ data[4];
    assert payload[3] == data[9] ^ data[5] && payload[4] == data[10] ^ data[2];
    assert payload == HELLO;
  }
}
