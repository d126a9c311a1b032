/** MySQL packet framing ("MySQL Packets"): three length bytes, one sequence byte, the payload.
    A connection is the bytes still to be read and the bytes written so far. */
module Packets {
  import opened Bits

  const LIMIT: nat := 0x100_0000

  function SeqAfter(seqId: byte): byte {
    (seqId + 1) % 256
  }

  function Frame(seqId: byte, data: Bytes): Bytes {
    [|data| % 256, |data| / 0x100 % 256, |data| / 0x1_0000 % 256, seqId] + data
  }

  /** Three length bytes, low byte first. */
  function Length24(low: nat, mid: nat, high: nat): nat {
    low + 0x100 * mid + 0x1_0000 * high
  }

  datatype Received = Packet(payload: Bytes, seqId: byte, rest: Bytes) | Failed(unread: Bytes)

  /** What readPacket makes of an input: a partial header or body is consumed and fails, a
      length of zero fails after the header. */
  function Receive(input: Bytes): Received {
    if |input| < 4 then Failed([])
    else
      var n := Length24(input[0], input[1], input[2]);
      if n == 0 then Failed(input[4..])
      else if |input| < 4 + n then Failed([])
      else Packet(input[4..4 + n], input[3], input[4 + n..])
  }

  class Conn {
    var input: Bytes
    var output: Bytes

    constructor (input: Bytes)
      ensures this.input == input && output == []
    {
      this.input, output := input, [];
    }

    method WritePacket(seqId: byte, data: Bytes)
      modifies this`output
      ensures output == old(output) + Frame(seqId, data)
    {
      var length := |data|;
      var header := [length % 256, length / 0x100 % 256, length / 0x1_0000 % 256, seqId];
      output := output + (header + data);
    }

    /** io.ReadFull: n bytes, or everything that is left and a failure. */
    method ReadFull(n: nat) returns (data: Bytes, ok: bool)
      modifies this`input
      ensures ok <==> |old(input)| >= n
      ensures ok ==> data == old(input)[..n] && input == old(input)[n..]
      ensures !ok ==> input == []
    {
      if |input| < n {
        data, ok, input := input, false, [];
      } else {
        data, ok, input := input[..n], true, input[n..];
      }
    }

    method ReadPacket() returns (payload: Bytes, seqId: byte, ok: bool)
      modifies this`input
      ensures ok <==> Receive(old(input)).Packet?
      ensures ok ==> Receive(old(input)) == Packet(payload, seqId, input)
      ensures !ok ==> Receive(old(input)) == Failed(input)
    {
      payload, seqId := [], 0;
      var header;
      header, ok := ReadFull(4);
      if !ok {
        return;
      }
      HeaderLength(header);
      var length := BitOr(BitOr(header[0], Shl(header[1], 8)), Shl(header[2], 16));
      seqId := header[3];
      if length <= 0 {
        ok := false;
        return;
      }
      payload, ok := ReadFull(length);
      assert ok ==> payload == old(input)[4..4 + length];
      assert ok ==> input == old(input)[4 + length..];
    }
  }

  /** OR-ing the three shifted header bytes is the little-endian sum. */
  lemma HeaderLength(header: Bytes)
    requires |header| == 4
    ensures BitOr(BitOr(header[0], Shl(header[1], 8)), Shl(header[2], 16))
         == Length24(header[0], header[1], header[2])
  {
    Powers();
    OrHighOf(header[0], header[1], 8, 0x100);
    OrHighOf(Length24(header[0], header[1], 0), header[2], 16, 0x1_0000);
  }

  lemma OrHighOf(a: nat, b: byte, k: nat, p: nat)
    requires p == Pow2(k) && a < p
    ensures Shl(b, k) == p * b && BitOr(a, Shl(b, k)) == a + p * b
  {
    MultipleMod(b, p);
    OrHigh(a, Shl(b, k), k);
  }

  /** A framed payload reads back exactly when it is nonempty and shorter than 2^24 bytes. */
  lemma FrameRoundTrip(seqId: byte, data: Bytes, rest: Bytes)
    ensures 0 < |data| < LIMIT <==> Receive(Frame(seqId, data) + rest) == Packet(data, seqId, rest)
  {
    var all := Frame(seqId, data) + rest;
    assert all[4..] == data + rest;
    var n := Length24(all[0], all[1], all[2]);
    assert 0 <= n < LIMIT;
    if |data| < LIMIT {
      assert n == |data|;
      if n > 0 {
        assert all[4..4 + n] == data;
        assert all[4 + n..] == rest;
      }
    }
  }

  /** Payloads framed one after the other, sequence ids running on modulo 256. */
  function Frames(seqId: byte, payloads: seq<Bytes>): Bytes
    decreases |payloads|
  {
    if payloads == [] then [] else Frame(seqId, payloads[0]) + Frames(SeqAfter(seqId), payloads[1..])
  }

  function SeqPlus(seqId: byte, n: nat): byte {
    (seqId + n) % 256
  }

  lemma SeqPlusNext(seqId: byte, n: nat)
    ensures SeqPlus(SeqAfter(seqId), n) == SeqPlus(seqId, n + 1)
  {
  }

  lemma {:induction false} FramesAppend(seqId: byte, payloads: seq<Bytes>, more: seq<Bytes>)
    ensures Frames(seqId, payloads + more)
         == Frames(seqId, payloads) + Frames(SeqPlus(seqId, |payloads|), more)
    decreases |payloads|
  {
    if payloads == [] {
      assert [] + more == more;
    } else {
      hide Frame;
      var p, tail, next := payloads[0], payloads[1..], SeqAfter(seqId);
      calc {
        Frames(seqId, payloads + more);
        { assert payloads + more == [p] + (tail + more); FramesCons(seqId, p, tail + more); }
        Frame(seqId, p) + Frames(next, tail + more);
        { FramesAppend(next, tail, more); SeqPlusNext(seqId, |tail|); }
        Frame(seqId, p) + (Frames(next, tail) + Frames(SeqPlus(seqId, |payloads|), more));
        { Assoc(Frame(seqId, p), Frames(next, tail), Frames(SeqPlus(seqId, |payloads|), more)); }
        Frame(seqId, p) + Frames(next, tail) + Frames(SeqPlus(seqId, |payloads|), more);
        { assert payloads == [p] + tail; FramesCons(seqId, p, tail); }
        Frames(seqId, payloads) + Frames(SeqPlus(seqId, |payloads|), more);
      }
    }
  }

  lemma FramesCons(seqId: byte, p: Bytes, tail: seq<Bytes>)
    ensures Frames(seqId, [p] + tail) == Frame(seqId, p) + Frames(SeqAfter(seqId), tail)
  {
    assert ([p] + tail)[1..] == tail;
  }

  lemma Assoc(a: Bytes, b: Bytes, c: Bytes)
    ensures a + (b + c) == a + b + c
  {
  }

  /** One more packet at the end. */
  lemma FramesSnoc(seqId: byte, payloads: seq<Bytes>, p: Bytes)
    ensures Frames(seqId, payloads + [p]) == Frames(seqId, payloads) + Frame(SeqPlus(seqId, |payloads|), p)
  {
    FramesAppend(seqId, payloads, [p]);
    var next := SeqPlus(seqId, |payloads|);
    assert Frames(next, [p]) == Frame(next, p) + Frames(SeqAfter(next), [p][1..]);
    assert [p][1..] == [];
    assert Frame(next, p) + [] == Frame(next, p);
  }
}
