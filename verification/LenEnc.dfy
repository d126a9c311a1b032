/** MySQL length-encoded integers (Protocol::LengthEncodedInteger): the writer appends to a
    buffer, the reader looks at the front of a byte slice. */
module LenEnc {
  import opened Bits

  const MARK_2: byte := 0xfc
  const MARK_3: byte := 0xfd
  const MARK_8: byte := 0xfe
  const NULL_CELL: byte := 0xfb

  /** The codeword of v. */
  function Encode(v: u64): (s: Bytes)
    ensures |s| == CodeLength(v)
  {
    if v < 0xfb then [v]
    else if v <= 0xffff then [MARK_2] + LittleEndian(v, 2)
    else if v <= 0xff_ffff then [MARK_3] + LittleEndian(v, 3)
    else [MARK_8] + LittleEndian(v, 8)
  }

  function CodeLength(v: u64): nat {
    if v < 0xfb then 1 else if v <= 0xffff then 3 else if v <= 0xff_ffff then 4 else 9
  }

  datatype Decoded = Decoded(value: u64, size: nat) | Short

  /** The number of bytes after the first one that a codeword starting with b has. */
  function Extra(b: byte): nat {
    if b == MARK_2 then 2 else if b == MARK_3 then 3 else if b == MARK_8 then 8 else 0
  }

  function Decode(b: Bytes): Decoded {
    if b == [] then Short
    else if Extra(b[0]) == 0 then Decoded(b[0], 1)
    else if |b| < 1 + Extra(b[0]) then Short
    else
      Value64(b[1..1 + Extra(b[0])]);
      Decoded(FromLittleEndian(b[1..1 + Extra(b[0])]), 1 + Extra(b[0]))
  }

  lemma Value64(s: Bytes)
    requires |s| <= 8
    ensures FromLittleEndian(s) < 0x1_0000_0000_0000_0000
  {
    FromLittleEndianBelow(s);
    Powers();
    Pow2Mono(8 * |s|, 64);
  }

  lemma Pow2Mono(i: nat, j: nat)
    requires i <= j
    ensures Pow2(i) <= Pow2(j)
  {
    if i < j { Pow2Mono(i, j - 1); }
  }

  /** A growing byte buffer, as bytes.Buffer is used by the packet writers. */
  class Buffer {
    var data: Bytes

    constructor ()
      ensures data == []
    {
      data := [];
    }

    method WriteByte(b: byte)
      modifies this
      ensures data == old(data) + [b]
    {
      data := data + [b];
    }

    method Write(s: Bytes)
      modifies this
      ensures data == old(data) + s
    {
      data := data + s;
    }

    method WriteLenEncInt(v: u64)
      modifies this
      ensures data == old(data) + Encode(v)
    {
      if v < 0xfb {
        WriteByte(v);
      } else if v <= 0xffff {
        WriteByte(MARK_2);
        WriteShifted(v, 2);
        assert old(data) + [MARK_2] + LittleEndian(v, 2) == old(data) + ([MARK_2] + LittleEndian(v, 2));
      } else if v <= 0xff_ffff {
        WriteByte(MARK_3);
        WriteShifted(v, 3);
        assert old(data) + [MARK_3] + LittleEndian(v, 3) == old(data) + ([MARK_3] + LittleEndian(v, 3));
      } else {
        WriteByte(MARK_8);
        WriteShifted(v, 8);
        assert old(data) + [MARK_8] + LittleEndian(v, 8) == old(data) + ([MARK_8] + LittleEndian(v, 8));
      }
    }

    /** byte(v), byte(v >> 8), ... n of them, low byte first. */
    method WriteShifted(v: u64, n: nat)
      modifies this
      ensures data == old(data) + LittleEndian(v, n)
    {
      for i := 0 to n
        invariant data == old(data) + LittleEndian(v, n)[..i]
      {
        LittleEndianAt(v, n, i);
        assert LittleEndian(v, n)[..i + 1] == LittleEndian(v, n)[..i] + [LittleEndian(v, n)[i]];
        WriteByte(v / Pow2(8 * i) % 256);
      }
      assert LittleEndian(v, n)[..n] == LittleEndian(v, n);
    }

    method WriteLenEncString(s: Bytes)
      modifies this
      ensures data == old(data) + EncodeString(s)
    {
      WriteLenEncInt(ToU64(|s|));
      Write(s);
      assert old(data) + Encode(ToU64(|s|)) + s == old(data) + EncodeString(s);
    }
  }

  /** A length-encoded string: its length, then its bytes. */
  function EncodeString(s: Bytes): Bytes {
    Encode(ToU64(|s|)) + s
  }

  /** The reader; ok is false exactly when the slice is too short for its first byte. */
  method ReadLenEncInt(b: Bytes) returns (value: u64, size: nat, ok: bool)
    ensures ok <==> Decode(b).Decoded?
    ensures ok ==> Decode(b) == Decoded(value, size)
  {
    value, size, ok := 0, 0, false;
    if |b| == 0 {
      return;
    }
    var extra := Extra(b[0]);
    if extra == 0 {
      value, size, ok := b[0], 1, true;
      return;
    }
    if |b| < 1 + extra {
      return;
    }
    var v: nat := 0;
    for i := 0 to extra
      invariant v == FromLittleEndian(b[1..1 + i])
    {
      OrNextByte(b[1..1 + i], b[1 + i]);
      assert b[1..1 + i] + [b[1 + i]] == b[1..1 + (i + 1)];
      v := BitOr(v, Shl(b[1 + i], 8 * i));
    }
    Value64(b[1..1 + extra]);
    value, size, ok := v, 1 + extra, true;
  }

  datatype Taken = Taken(text: Bytes, rest: Bytes) | Broken

  /** A length-encoded string at the front of b. */
  function TakeString(b: Bytes): Taken {
    match Decode(b)
    case Short => Broken
    case Decoded(n, size) => if size + n <= |b| then Taken(b[size..size + n], b[size + n..]) else Broken
  }

  lemma {:induction false} TakeRoundTrip(s: Bytes, rest: Bytes)
    requires |s| < TWO_64
    ensures TakeString(EncodeString(s) + rest) == Taken(s, rest)
  {
    var code := Encode(|s|);
    assert EncodeString(s) + rest == code + (s + rest);
    RoundTrip(|s|, s + rest);
    assert (code + (s + rest))[|code|..|code| + |s|] == s;
    assert (code + (s + rest))[|code| + |s|..] == rest;
  }

  lemma {:induction false} EncodeHead(v: u64)
    ensures Encode(v)[0] != NULL_CELL && Encode(v)[0] != 0xff
    ensures Extra(Encode(v)[0]) + 1 == |Encode(v)|
    ensures Encode(v)[0] == MARK_8 <==> v > 0xff_ffff
  {
  }

  /** Reading back a written integer, whatever follows it, gives the integer and its length. */
  lemma {:induction false} RoundTrip(v: u64, rest: Bytes)
    ensures Decode(Encode(v) + rest) == Decoded(v, |Encode(v)|)
    ensures |Encode(v)| == CodeLength(v)
  {
    var code := Encode(v);
    if v >= 0xfb {
      var n := |code| - 1;
      assert (code + rest)[1..1 + n] == LittleEndian(v, n);
      Powers();
      LittleEndianRoundTrip(v, n);
    }
  }

  /** No codeword is a prefix of another one: the code is self-delimiting. */
  lemma PrefixFree(v: u64, w: u64)
    requires Encode(v) <= Encode(w)
    ensures v == w
  {
    var rest := Encode(w)[|Encode(v)|..];
    assert Encode(w) == Encode(v) + rest;
    RoundTrip(v, rest);
    assert Encode(w) + [] == Encode(w);
    RoundTrip(w, []);
  }

  /** A NULL marker is neither a codeword of a length nor the start of one. */
  lemma NullIsNoCodeword(v: u64, rest: Bytes)
    ensures !([NULL_CELL] <= Encode(v) + rest)
    ensures !([0xff] <= Encode(v) + rest)
  {
    EncodeHead(v);
    assert (Encode(v) + rest)[0] == Encode(v)[0];
  }

  /** Only the shortest form is ever written, yet the reader accepts longer ones too: it is a
      left inverse of the writer and no more. */
  lemma LongFormIsAccepted()
    ensures Decode([MARK_2, 5, 0]) == Decoded(5, 3) && Encode(5) == [5]
  {
    assert [MARK_2, 5, 0][1..3] == [5, 0];
    assert FromLittleEndian([5, 0]) == 5 + 256 * FromLittleEndian([0]);
    assert [5, 0][1..] == [0];
    assert FromLittleEndian([0]) == 0;
  }
}
