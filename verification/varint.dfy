/** Base 128 varints of the Protocol Buffers wire format, as
    `ProtobufEncoder.encode_varint` writes them, and a reader for them. */
module Varint {
  import opened Bytes
  import opened Wrappers

  /** `encode_varint`: 7-bit groups, least significant first, with the
      continuation bit 0x80 on every byte but the last. For a negative value
      the loop never runs and the single byte is Python's `value & 0x7f`,
      which Dafny's Euclidean `%` reproduces. */
  function EncodeVarint(v: int): (r: seq<byte>)
    ensures |r| >= 1
    ensures forall i :: 0 <= i < |r| - 1 ==> r[i] >= 0x80
    ensures r[|r| - 1] < 0x80
    ensures v <= 0x7f <==> |r| == 1
    ensures 0 <= v <= 0x7f ==> r == [v]
    decreases if v > 0x7f then v else 0
  {
    if v > 0x7f then [v % 0x80 + 0x80] + EncodeVarint(v / 0x80)
    else [v % 0x80]
  }

  /** The number the 7-bit groups of `bs` spell, least significant group first. */
  function GroupsValue(bs: seq<byte>): nat {
    if |bs| == 0 then 0 else bs[0] % 0x80 + 0x80 * GroupsValue(bs[1..])
  }

  /** 128 to the power `n`. */
  function Pow128(n: nat): nat {
    if n == 0 then 1 else 0x80 * Pow128(n - 1)
  }

  /** Adding the continuation bit leaves a 7-bit group's value alone. */
  lemma LowGroup(low: int)
    requires 0 <= low < 0x80
    ensures (low + 0x80) % 0x80 == low
  {
  }

  /** Reassembling the 7-bit groups of an encoding gives back the value. */
  lemma {:induction false} EncodeVarintValue(v: nat)
    ensures GroupsValue(EncodeVarint(v)) == v
    decreases v
  {
    if v > 0x7f {
      var e := EncodeVarint(v);
      EncodeVarintValue(v / 0x80);
      assert e[1..] == EncodeVarint(v / 0x80);
      var low := v % 0x80;
      assert e[0] == low + 0x80;
      LowGroup(low);
      assert GroupsValue(e) == v % 0x80 + 0x80 * (v / 0x80);
    }
  }

  /** The encoding is the shortest one: it has exactly as many bytes as `v`
      has 7-bit groups. */
  lemma {:induction false} EncodeVarintLength(v: nat)
    ensures v < Pow128(|EncodeVarint(v)|)
    ensures |EncodeVarint(v)| > 1 ==> Pow128(|EncodeVarint(v)| - 1) <= v
    decreases v
  {
    if v > 0x7f {
      EncodeVarintLength(v / 0x80);
      assert |EncodeVarint(v)| == 1 + |EncodeVarint(v / 0x80)|;
    }
  }

  /** Reads one varint from the front of `bs`: its value and how many bytes it
      took, or `None` when the bytes run out before a final byte. */
  function DecodeVarint(bs: seq<byte>): (r: Option<(nat, nat)>)
    ensures r.Some? ==> 1 <= r.value.1 <= |bs|
    decreases |bs|
  {
    if |bs| == 0 then None
    else if bs[0] < 0x80 then Some((bs[0], 1))
    else match DecodeVarint(bs[1..])
      case None => None
      case Some((v, n)) => Some((bs[0] - 0x80 + 0x80 * v, n + 1))
  }

  /** A byte with the continuation bit adds its low 7 bits below the value
      of the varint after it. */
  lemma DecodeContinued(b: byte, tail: seq<byte>)
    requires b >= 0x80 && DecodeVarint(tail).Some?
    ensures DecodeVarint([b] + tail)
         == Some((b - 0x80 + 0x80 * DecodeVarint(tail).value.0, DecodeVarint(tail).value.1 + 1))
  {
    assert ([b] + tail)[1..] == tail;
  }

  /** An encoding is read back whole from the front of any byte sequence:
      the encoding is prefix-free. */
  lemma {:induction false} DecodeEncodeVarint(v: nat, rest: seq<byte>)
    ensures DecodeVarint(EncodeVarint(v) + rest) == Some((v, |EncodeVarint(v)|))
    decreases v
  {
    if v > 0x7f {
      var q := v / 0x80;
      var b: byte := v % 0x80 + 0x80;
      DecodeEncodeVarint(q, rest);
      assert EncodeVarint(v) + rest == [b] + (EncodeVarint(q) + rest);
      DecodeContinued(b, EncodeVarint(q) + rest);
    } else {
      assert (EncodeVarint(v) + rest)[0] == v;
    }
  }
}
