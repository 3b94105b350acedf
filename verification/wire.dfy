/**
  The byte encoding of 16-bit samples shared by both ends of the link.

  A sample is an unsigned 16-bit value; on every byte-oriented transport it
  travels as its low byte followed by its high byte, and the receiver puts
  the pair back together. The C code writes the split as `x & 0xFF` and
  `(x >> 8) & 0xFF`, the Python receiver writes the join as
  `(upper << 8) | lower`; on unsigned values in range these are exactly the
  arithmetic `x % 256`, `x / 256` and `upper * 256 + lower` used here.
 */
module Wire {

  type byte = x: int | 0 <= x < 0x100
  type u16 = x: int | 0 <= x < 0x1_0000
  type u32 = x: int | 0 <= x < 0x1_0000_0000

  /** `data[i] & 0xFF`: the byte sent first. */
  function LowByte(w: u16): byte {
    w % 0x100
  }

  /** `(data[i] >> 8) & 0xFF`: the byte sent second (on a 16-bit value the
      shift already leaves at most eight bits, so the mask keeps them all). */
  function HighByte(w: u16): byte {
    w / 0x100
  }

  /** `(upper << 8) | lower`: the receiver's recombination of one pair. */
  function Combine(lower: byte, upper: byte): (w: u16)
    ensures LowByte(w) == lower && HighByte(w) == upper
  {
    upper * 0x100 + lower
  }

  /** Splitting a sample and joining the two halves gives the sample back. */
  lemma CombineSplit(w: u16)
    ensures Combine(LowByte(w), HighByte(w)) == w
    ensures LowByte(w) + 0x100 * HighByte(w) == w
  {
  }

  /** The byte stream for a sequence of samples: low byte then high byte,
      sample after sample in index order. */
  function Serialize(ws: seq<u16>): (bs: seq<byte>)
    ensures |bs| == 2 * |ws|
  {
    if ws == [] then []
    else Serialize(ws[..|ws| - 1]) + [LowByte(ws[|ws| - 1]), HighByte(ws[|ws| - 1])]
  }

  /** The samples rebuilt from a byte stream of whole pairs, pair after pair. */
  function Deserialize(bs: seq<byte>): (ws: seq<u16>)
    requires |bs| % 2 == 0
    ensures 2 * |ws| == |bs|
  {
    if bs == [] then []
    else Deserialize(bs[..|bs| - 2]) + [Combine(bs[|bs| - 2], bs[|bs| - 1])]
  }

  /** Byte 2i of the stream is the low byte of sample i and byte 2i+1 its high byte. */
  lemma {:induction false} SerializeAt(ws: seq<u16>, i: nat)
    requires i < |ws|
    ensures Serialize(ws)[2 * i] == LowByte(ws[i])
    ensures Serialize(ws)[2 * i + 1] == HighByte(ws[i])
  {
    var n := |ws| - 1;
    if i < n {
      SerializeAt(ws[..n], i);
      assert Serialize(ws) == Serialize(ws[..n]) + [LowByte(ws[n]), HighByte(ws[n])];
      assert ws[..n][i] == ws[i];
    }
  }

  /** Conversely, a byte sequence twice as long as the samples that holds the
      low byte of sample i at 2i and its high byte at 2i+1 is their stream. */
  lemma SerializeByLayout(ws: seq<u16>, bs: seq<byte>)
    requires |bs| == 2 * |ws|
    requires forall i :: 0 <= i < |ws| ==> bs[2 * i] == LowByte(ws[i]) && bs[2 * i + 1] == HighByte(ws[i])
    ensures bs == Serialize(ws)
  {
    forall k | 0 <= k < |bs|
      ensures bs[k] == Serialize(ws)[k]
    {
      var i := k / 2;
      SerializeAt(ws, i);
      if k % 2 == 0 {
        assert k == 2 * i;
      } else {
        assert k == 2 * i + 1;
      }
    }
  }

  /** Sample i of the rebuilt sequence joins bytes 2i and 2i+1. */
  lemma {:induction false} DeserializeAt(bs: seq<byte>, i: nat)
    requires |bs| % 2 == 0 && 2 * i + 1 < |bs|
    ensures Deserialize(bs)[i] == Combine(bs[2 * i], bs[2 * i + 1])
  {
    var m := |bs| - 2;
    if 2 * i + 1 < m {
      DeserializeAt(bs[..m], i);
      assert bs[..m][2 * i] == bs[2 * i] && bs[..m][2 * i + 1] == bs[2 * i + 1];
    }
  }

  /** Serialising a prefix one sample longer appends exactly that sample's two bytes. */
  lemma SerializeSnoc(ws: seq<u16>, w: u16)
    ensures Serialize(ws + [w]) == Serialize(ws) + [LowByte(w), HighByte(w)]
  {
    assert (ws + [w])[..|ws|] == ws;
  }

  /** Serialisation distributes over concatenation. */
  lemma {:induction false} SerializeAppend(xs: seq<u16>, ys: seq<u16>)
    ensures Serialize(xs + ys) == Serialize(xs) + Serialize(ys)
  {
    if ys == [] {
      assert xs + ys == xs;
    } else {
      var n := |ys| - 1;
      SerializeAppend(xs, ys[..n]);
      assert (xs + ys)[..|xs + ys| - 1] == xs + ys[..n];
    }
  }

  /** Round trip, sender to receiver: the receiver rebuilds exactly the samples sent. */
  lemma {:induction false} DeserializeSerialize(ws: seq<u16>)
    ensures Deserialize(Serialize(ws)) == ws
  {
    if ws != [] {
      var n := |ws| - 1;
      var bs := Serialize(ws);
      assert bs[..|bs| - 2] == Serialize(ws[..n]);
      DeserializeSerialize(ws[..n]);
      CombineSplit(ws[n]);
    }
  }

  /** Round trip, receiver to sender: any stream of whole pairs is the
      serialisation of the samples rebuilt from it. */
  lemma {:induction false} SerializeDeserialize(bs: seq<byte>)
    requires |bs| % 2 == 0
    ensures Serialize(Deserialize(bs)) == bs
  {
    if bs != [] {
      var m := |bs| - 2;
      SerializeDeserialize(bs[..m]);
      var ws := Deserialize(bs);
      assert ws[..|ws| - 1] == Deserialize(bs[..m]);
      assert bs == bs[..m] + [bs[m], bs[m + 1]];
    }
  }
}
