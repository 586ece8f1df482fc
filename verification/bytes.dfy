/** Bytes, 16-bit unsigned fields and the UTF-8 encoding Python's
    `str.encode('utf-8')` performs. */
module Bytes {

  type byte = x: int | 0 <= x < 0x100
  type uint16 = x: int | 0 <= x < 0x1_0000

  /** Largest value a 16-bit unsigned field holds. */
  const MaxUint16: nat := 0xFFFF

  /** The value of a big-endian 16-bit field. */
  function BigEndian16(hi: byte, lo: byte): uint16 {
    hi * 0x100 + lo
  }

  /** `struct.pack('>H', v)`: the two bytes whose big-endian value is `v`. */
  function PackUint16(v: uint16): (r: seq<byte>)
    ensures |r| == 2 && BigEndian16(r[0], r[1]) == v
  {
    [v / 0x100, v % 0x100]
  }

  /** Packing the value of two bytes gives the same two bytes back. */
  lemma PackBigEndian16(hi: byte, lo: byte)
    ensures PackUint16(BigEndian16(hi, lo)) == [hi, lo]
  {
    var v := BigEndian16(hi, lo);
    assert v / 0x100 == hi;
    assert v % 0x100 == lo;
  }

  /** UTF-8 encoding of one Unicode scalar value: ASCII characters are one
      byte equal to their code point, others 2 to 4 bytes with the high bit set. */
  function EncodeChar(c: char): (r: seq<byte>)
    ensures 1 <= |r| <= 4
    ensures c as int < 0x80 ==> r == [c as int]
    ensures c as int >= 0x80 ==> forall i :: 0 <= i < |r| ==> r[i] >= 0x80
  {
    var n := c as int;
    if n < 0x80 then [n]
    else if n < 0x800 then [0xC0 + n / 0x40, 0x80 + n % 0x40]
    else if n < 0x1_0000 then [0xE0 + n / 0x1000, 0x80 + (n / 0x40) % 0x40, 0x80 + n % 0x40]
    else [0xF0 + n / 0x4_0000, 0x80 + (n / 0x1000) % 0x40, 0x80 + (n / 0x40) % 0x40, 0x80 + n % 0x40]
  }

  /** `s.encode('utf-8')`. */
  function Utf8(s: string): (r: seq<byte>)
    ensures |r| >= |s|
    ensures |r| == 0 <==> |s| == 0
  {
    if |s| == 0 then [] else EncodeChar(s[0]) + Utf8(s[1..])
  }

  predicate IsAscii(s: string) {
    forall i :: 0 <= i < |s| ==> s[i] as int < 0x80
  }

  /** An ASCII string encodes to its code points, one byte per character. */
  lemma {:induction false} Utf8Ascii(s: string)
    requires IsAscii(s)
    ensures Utf8(s) == seq(|s|, i requires 0 <= i < |s| => s[i] as int)
  {
    if |s| > 0 {
      Utf8Ascii(s[1..]);
    }
  }

  /** Encoding is per character: the encoding of a concatenation is the
      concatenation of the encodings. */
  lemma {:induction false} Utf8Concat(a: string, b: string)
    ensures Utf8(a + b) == Utf8(a) + Utf8(b)
    decreases |a|
  {
    if |a| == 0 {
      assert a + b == b;
    } else {
      var ab := a + b;
      assert ab[0] == a[0] && ab[1..] == a[1..] + b;
      var e := EncodeChar(a[0]);
      Utf8Concat(a[1..], b);
      calc {
        Utf8(ab);
        e + Utf8(a[1..] + b);
        e + (Utf8(a[1..]) + Utf8(b));
        (e + Utf8(a[1..])) + Utf8(b);
        Utf8(a) + Utf8(b);
      }
    }
  }

  function Min(a: nat, b: nat): nat {
    if a <= b then a else b
  }

  /** `sock.recv(n)` on a peer that has sent `input` and nothing more: at most
      `n` bytes, all of them when fewer are left. Returns what was read and
      what stays unread. */
  function Recv(input: seq<byte>, n: nat): (r: (seq<byte>, seq<byte>))
    ensures r.0 + r.1 == input
    ensures |r.0| == Min(n, |input|)
  {
    if n <= |input| then (input[..n], input[n..]) else (input, [])
  }
}
