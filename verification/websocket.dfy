/** The frame parser over a byte buffer, unmasking the payload in place. */
module WebSocket {
  import opened FrameBytes
  import opened Frames

  /** Where the payload starts and how long it is declared to be, as a signed 64-bit integer. */
  method ReadLength(data: array<bv8>) returns (ok: bool, idx: nat, payloadLen: int)
    requires data.Length >= 2
    ensures ok <==> data.Length >= 2 + Extended(data[..])
    ensures ok ==> idx == Start(data[..]) && payloadLen == Wrapped(Declared(data[..]))
  {
    hide Num, BigEndian, Wrapped;
    ok, idx, payloadLen := true, 2, Num(data[1] & 0x7f);
    if data[1] & 0x7f == 126 {
      if data.Length < 4 {
        return false, 0, 0;
      }
      payloadLen := Num(data[2]) * 256 + Num(data[3]);
      TwoBytes(data[2..4]);
      assert data[..][2..4] == [data[2], data[3]];
      idx := 4;
    } else if data[1] & 0x7f == 127 {
      if data.Length < 10 {
        return false, 0, 0;
      }
      payloadLen := Wrapped(BigEndian(data[2..10]));
      assert data[..][2..10] == data[2..10];
      idx := 10;
    }
    SmallWraps(data[..]);
    if data[1] & 0x80 != 0 {
      idx := idx + 4;
    }
  }

  /** The payload of the returned frame is the part of the buffer that was unmasked. */
  method ParseFrame(data: array<bv8>) returns (r: Result)
    modifies data
    ensures r == Parse(old(data[..])) && data[..] == Afterwards(old(data[..]))
    ensures r.Parsed? ==> r.frame.payload == data[Start(old(data[..]))..End(old(data[..]))]
    ensures r.Parsed? ==> ReadsFrom(old(data[..]), r.frame)
  {
    hide Num, Declared, Wrapped, Extended, Unmask, ReadsFrom;
    ghost var bytes := data[..];
    if data.Length < 2 {
      return TooSmall;
    }
    var fin := data[0] & 0x80 != 0;
    var opcode := Num(data[0] & 0x0f);
    var mask := data[1] & 0x80 != 0;
    var ok, idx, payloadLen := ReadLength(data);
    if !ok {
      return InvalidLength;
    }
    var end := Wrapped(idx + payloadLen);
    if data.Length < end {
      return UnexpectedEOF;
    }
    if end < idx {
      return OutOfRange;
    }
    PayloadMeans(bytes);
    if mask {
      UnmaskInPlace(data, idx, end);
    }
    assert data[..] == data[..idx] + data[idx..end] + data[end..];
    ParsedReads(bytes);
    return Parsed(Frame(opcode, data[idx..end], fin));
  }

  lemma SmallWraps(bytes: Bytes)
    requires |bytes| >= 2 && |bytes| >= 2 + Extended(bytes)
    ensures Extended(bytes) < 8 ==> Wrapped(Declared(bytes)) == Declared(bytes)
  {
    hide Num, BigEndian, Limit;
    Limits();
    ByteOfNum(Short(bytes));
    if Extended(bytes) > 0 {
      BigEndianBound(bytes[2..2 + Extended(bytes)]);
    }
  }

  /** XORs the payload with the four bytes before it. */
  method UnmaskInPlace(data: array<bv8>, start: nat, end: nat)
    requires 4 <= start <= end <= data.Length
    modifies data
    ensures data[start..end] == Unmask(old(data[start..end]), old(data[start - 4..start]))
    ensures data[..start] == old(data[..start]) && data[end..] == old(data[end..])
  {
    ghost var key, payload := data[start - 4..start], data[start..end];
    for i := 0 to end - start
      invariant data[..start] == old(data[..start]) && data[end..] == old(data[end..])
      invariant forall k :: 0 <= k < i ==> data[start + k] == Unmask(payload, key)[k]
      invariant forall k :: i <= k < end - start ==> data[start + k] == payload[k]
    {
      assert data[start - 4 + i % 4] == data[..start][start - 4 + i % 4] == key[i % 4];
      data[start + i] := data[start + i] ^ data[start - 4 + i % 4];
    }
    assert data[start..end] == Unmask(payload, key);
  }
}
