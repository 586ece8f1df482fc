/** The 8-byte VTM packet framing: `0x24 | channel | length | sequence | code`,
    the three 16-bit fields big-endian, followed by `length` payload bytes. */
module VtmPacket {
  import opened Bytes
  import opened Wrappers
  import opened Errors

  const Magic: byte := 0x24
  const HeaderSize: nat := 8

  const MsgStreamInfoReq: uint16 := 0x13b
  const MsgStreamInfoRsp: uint16 := 0x13c
  const MsgKeepaliveReq: uint16 := 0x135

  const ChannelUnencMessage: byte := 0x00
  const ChannelUnencStream: byte := 0x01
  const ChannelEncMessage: byte := 0x0a
  const ChannelEncStream: byte := 0x0b

  /** The decoded header fields (the magic byte is always `Magic`). */
  datatype Header = Header(channel: byte, length: uint16, sequence: uint16, code: uint16)

  /** `struct.pack('>BBHHH', 0x24, channel, length, sequence, code)`. */
  function PackHeader(h: Header): (r: seq<byte>)
    ensures |r| == HeaderSize
  {
    [Magic, h.channel] + PackUint16(h.length) + PackUint16(h.sequence) + PackUint16(h.code)
  }

  /** The values `struct.pack` accepts for the header fields. */
  predicate FitsHeader(length: int, code: int, channel: int, sequence: int) {
    0 <= length <= MaxUint16 && 0 <= channel < 0x100 && 0 <= sequence <= MaxUint16 && 0 <= code <= MaxUint16
  }

  /** `VTMPacket.encode`: the header, then the payload. A payload longer than
      65535 bytes or a field out of range makes `struct.pack` raise. */
  function Encode(data: seq<byte>, code: int, channel: int, sequence: int): (r: Result<seq<byte>, Error>)
    ensures r.Failure? <==> !FitsHeader(|data|, code, channel, sequence)
    ensures r.Failure? ==> r.error == StructError
    ensures r.Success? ==>
      && |r.value| == HeaderSize + |data|
      && r.value[0] == Magic
      && r.value[1] == channel
      && BigEndian16(r.value[2], r.value[3]) == |data|
      && BigEndian16(r.value[4], r.value[5]) == sequence
      && BigEndian16(r.value[6], r.value[7]) == code
      && r.value[HeaderSize..] == data
  {
    if FitsHeader(|data|, code, channel, sequence) then
      Success(PackHeader(Header(channel, |data|, sequence, code)) + data)
    else
      Failure(StructError)
  }

  /** `VTMPacket.decode_header`: fails exactly when the input is not 8 bytes
      long or does not start with the magic byte. */
  function DecodeHeader(h: seq<byte>): (r: Result<Header, Error>)
    ensures r.Failure? <==> |h| != HeaderSize || h[0] != Magic
  {
    if |h| != HeaderSize then Failure(InvalidHeaderLength(|h|))
    else if h[0] != Magic then Failure(InvalidMagic(h[0]))
    else Success(Header(h[1], BigEndian16(h[2], h[3]), BigEndian16(h[4], h[5]), BigEndian16(h[6], h[7])))
  }

  /** `EzvizCamera._parse_header`: rejects fewer than 8 bytes and a bad magic
      byte (both `ValueError`); more than 8 bytes makes `struct.unpack` raise.
      On exactly 8 bytes it agrees with `DecodeHeader`. */
  function ParseHeader(h: seq<byte>): (r: Result<Header, Error>)
    ensures |h| < HeaderSize ==> r == Failure(HeaderTooShort)
    ensures |h| == HeaderSize ==> r == DecodeHeader(h)
    ensures r.Failure? <==> |h| != HeaderSize || h[0] != Magic
  {
    if |h| < HeaderSize then Failure(HeaderTooShort)
    else if |h| > HeaderSize then Failure(StructError)
    else if h[0] != Magic then Failure(InvalidMagic(h[0]))
    else Success(Header(h[1], BigEndian16(h[2], h[3]), BigEndian16(h[4], h[5]), BigEndian16(h[6], h[7])))
  }

  /** Decoding a packed header gives the same fields back. */
  lemma DecodePackHeader(h: Header)
    ensures DecodeHeader(PackHeader(h)) == Success(h)
  {
    var p := PackHeader(h);
    assert p == [Magic, h.channel] + PackUint16(h.length) + PackUint16(h.sequence) + PackUint16(h.code);
    assert p[2..4] == PackUint16(h.length);
    assert p[4..6] == PackUint16(h.sequence);
    assert p[6..8] == PackUint16(h.code);
  }

  /** A header that decodes is the packing of what it decodes to: headers and
      their fields are in one-to-one correspondence. */
  lemma PackDecodedHeader(bs: seq<byte>, h: Header)
    requires DecodeHeader(bs) == Success(h)
    ensures PackHeader(h) == bs
  {
    PackBigEndian16(bs[2], bs[3]);
    PackBigEndian16(bs[4], bs[5]);
    PackBigEndian16(bs[6], bs[7]);
    assert bs == [bs[0], bs[1]] + [bs[2], bs[3]] + [bs[4], bs[5]] + [bs[6], bs[7]];
  }

  /** The header of an encoded packet decodes to the channel, payload length,
      sequence and code it was built from, and the payload follows it. */
  lemma EncodeDecodeHeader(data: seq<byte>, code: int, channel: int, sequence: int)
    requires FitsHeader(|data|, code, channel, sequence)
    ensures Encode(data, code, channel, sequence).Success?
    ensures var p := Encode(data, code, channel, sequence).value;
      && DecodeHeader(p[..HeaderSize]) == Success(Header(channel, |data|, sequence, code))
      && p[HeaderSize..] == data
  {
    var h := Header(channel, |data|, sequence, code);
    DecodePackHeader(h);
    assert (PackHeader(h) + data)[..HeaderSize] == PackHeader(h);
  }

  /** Whatever the other seven bytes are, a header with the wrong first byte
      is rejected by both decoders. */
  lemma BadMagicRejected(h: seq<byte>)
    requires |h| == HeaderSize && h[0] != Magic
    ensures DecodeHeader(h) == Failure(InvalidMagic(h[0]))
    ensures ParseHeader(h) == Failure(InvalidMagic(h[0]))
  {
  }
}
