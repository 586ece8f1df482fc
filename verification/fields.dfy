/** The three field encoders `ProtobufEncoder` offers and the stream-info
    request they assemble, with a reader of the Protocol Buffers wire format
    ("Base 128 Varints" and "Length-delimited records") that takes them apart
    again. */
module Fields {
  import opened Bytes
  import opened Varint
  import opened Wrappers

  const WireVarint: nat := 0
  const WireLengthDelimited: nat := 2

  /** Client version string the request carries in fields 3 and 6. */
  const ClientVersion: string := "v3.6.3.20221124"

  /** `ClientVersion.encode('utf-8')`, spelled out (see `ClientVersionEncoding`). */
  const ClientVersionUtf8: seq<byte> :=
    [0x76, 0x33, 0x2e, 0x36, 0x2e, 0x33, 0x2e, 0x32, 0x30, 0x32, 0x32, 0x31, 0x31, 0x32, 0x34]

  lemma ClientVersionEncoding()
    ensures Utf8(ClientVersion) == ClientVersionUtf8
  {
    ClientVersionIsAscii();
    Utf8Ascii(ClientVersion);
    ClientVersionCodePoints();
  }

  lemma ClientVersionCodePoints()
    ensures seq(|ClientVersion|, i requires 0 <= i < |ClientVersion| => ClientVersion[i] as int)
         == ClientVersionUtf8
  {
  }

  lemma ClientVersionIsAscii()
    ensures IsAscii(ClientVersion)
  {
  }

  /** `(field_number << 3) | wire_type`. */
  function Tag(field: nat, wire: nat): nat
    requires wire < 8
  {
    field * 8 + wire
  }

  /** A length-delimited field: tag with wire type 2, the payload length,
      then the payload. */
  function EncodeLengthDelimited(field: nat, payload: seq<byte>): (r: seq<byte>)
    ensures |r| >= 2 + |payload|
  {
    EncodeVarint(Tag(field, WireLengthDelimited)) + EncodeVarint(|payload|) + payload
  }

  /** `encode_string`: the UTF-8 encoding of `value` as a length-delimited
      field. */
  function EncodeString(field: nat, value: string): (r: seq<byte>)
    ensures |r| >= 2 + |Utf8(value)|
    ensures ParseField(r) == Some((LengthDelimited(field, Utf8(value)), []))
  {
    var r := EncodeLengthDelimited(field, Utf8(value));
    ParseEncodedPayload(field, Utf8(value), []);
    assert r + [] == r;
    r
  }

  /** `encode_int32`: tag with wire type 0, then the value as a varint. */
  function EncodeInt32(field: nat, value: int): (r: seq<byte>)
    ensures |r| >= 2
    ensures value >= 0 ==> ParseField(r) == Some((VarintField(field, value), []))
  {
    var r := EncodeVarint(Tag(field, WireVarint)) + EncodeVarint(value);
    if value >= 0 then
      ParseVarintField(field, value, []);
      assert r + [] == r;
      r
    else r
  }

  /** `create_stream_info_req`: fields 1 (URL), 2 (stream key, only when
      non-empty), 3 (version), 4 (zero) and 6 (version), in that order. The
      bytes read back, field by field, as URL, optional key, version, zero
      and version. */
  function CreateStreamInfoReq(url: string, key: string): (r: seq<byte>)
    ensures ParseFields(r) == Some(StreamInfoFields(url, key))
  {
    StreamInfoReqParses(url, key);
    StreamInfoReqBytes(url, key)
  }

  /** The bytes of the request, field after field. */
  function StreamInfoReqBytes(url: string, key: string): seq<byte> {
    var message := EncodeString(1, url);
    var message := if key != "" then message + EncodeString(2, key) else message;
    message + EncodeLengthDelimited(3, ClientVersionUtf8) + EncodeInt32(4, 0)
      + EncodeLengthDelimited(6, ClientVersionUtf8)
  }

  /** A decoded field: its number and its varint value or its payload. */
  datatype Field =
    | VarintField(number: nat, value: nat)
    | LengthDelimited(number: nat, payload: seq<byte>)

  /** Reads one field from the front of `bs`; `None` on a truncated field or
      a wire type other than 0 and 2. */
  function ParseField(bs: seq<byte>): (r: Option<(Field, seq<byte>)>)
    ensures r.Some? ==> |r.value.1| < |bs|
  {
    match DecodeVarint(bs)
    case None => None
    case Some((tag, n)) => ParseFieldValue(tag, bs[n..])
  }

  /** The part of `ParseField` after the tag: the value or the payload. */
  function ParseFieldValue(tag: nat, body: seq<byte>): (r: Option<(Field, seq<byte>)>)
    ensures r.Some? ==> |r.value.1| < |body| && r.value.0.number == tag / 8
  {
    match DecodeVarint(body)
    case None => None
    case Some((v, m)) =>
      if tag % 8 == WireVarint then Some((VarintField(tag / 8, v), body[m..]))
      else if tag % 8 == WireLengthDelimited && v <= |body| - m then
        Some((LengthDelimited(tag / 8, body[m..m + v]), body[m + v..]))
      else None
  }

  /** Reads a whole message as a sequence of fields. */
  function ParseFields(bs: seq<byte>): (r: Option<seq<Field>>)
    decreases |bs|
  {
    if |bs| == 0 then Some([])
    else match ParseField(bs)
      case None => None
      case Some((f, rest)) =>
        match ParseFields(rest)
        case None => None
        case Some(fs) => Some([f] + fs)
  }

  /** The field numbers of a field sequence, in order. */
  function Numbers(fs: seq<Field>): seq<nat> {
    if |fs| == 0 then [] else [fs[0].number] + Numbers(fs[1..])
  }

  lemma TagFields(field: nat, wire: nat)
    requires wire < 8
    ensures Tag(field, wire) % 8 == wire && Tag(field, wire) / 8 == field
  {
  }

  /** `ParseField` reads the tag and hands the rest to `ParseFieldValue`. */
  lemma ParseFieldAfterTag(t: seq<byte>, body: seq<byte>, tag: nat)
    requires DecodeVarint(t + body) == Some((tag, |t|))
    ensures ParseField(t + body) == ParseFieldValue(tag, body)
  {
    assert (t + body)[|t|..] == body;
  }

  /** A payload length followed by at least that many bytes reads as a
      length-delimited field. */
  lemma ParsePayloadAfterTag(body: seq<byte>, tag: nat, len: nat, m: nat)
    requires DecodeVarint(body) == Some((len, m))
    requires tag % 8 == WireLengthDelimited && m + len <= |body|
    ensures ParseFieldValue(tag, body) == Some((LengthDelimited(tag / 8, body[m..m + len]), body[m + len..]))
  {
  }

  /** The middle and the end of `l + (u + rest)`, by offsets. */
  lemma SlicesOfConcat(l: seq<byte>, u: seq<byte>, rest: seq<byte>)
    ensures (l + (u + rest))[|l|..|l| + |u|] == u
    ensures (l + (u + rest))[|l| + |u|..] == rest
  {
  }

  /** A length-delimited field reads back as its number and its payload, leaving
      whatever follows it untouched. */
  lemma ParseEncodedPayload(field: nat, u: seq<byte>, rest: seq<byte>)
    ensures ParseField(EncodeLengthDelimited(field, u) + rest)
         == Some((LengthDelimited(field, u), rest))
  {
    var tag := Tag(field, WireLengthDelimited);
    var t := EncodeVarint(tag);
    var l := EncodeVarint(|u|);
    assert EncodeLengthDelimited(field, u) + rest == t + (l + (u + rest));
    DecodeEncodeVarint(tag, l + (u + rest));
    DecodeEncodeVarint(|u|, u + rest);
    TagFields(field, WireLengthDelimited);
    ParseFieldAfterTag(t, l + (u + rest), tag);
    var body := l + (u + rest);
    ParsePayloadAfterTag(body, tag, |u|, |l|);
    SlicesOfConcat(l, u, rest);
  }

  /** An integer field reads back as its number and its value, leaving
      whatever follows it untouched. */
  lemma ParseEncodedInt32(field: nat, value: nat, rest: seq<byte>)
    ensures ParseField(EncodeInt32(field, value) + rest) == Some((VarintField(field, value), rest))
  {
    ParseVarintField(field, value, rest);
  }

  /** `ParseEncodedInt32` on the bytes of the field spelled out. */
  lemma ParseVarintField(field: nat, value: nat, rest: seq<byte>)
    ensures ParseField(EncodeVarint(Tag(field, WireVarint)) + EncodeVarint(value) + rest)
         == Some((VarintField(field, value), rest))
  {
    var tag := Tag(field, WireVarint);
    var t := EncodeVarint(tag);
    var e := EncodeVarint(value);
    var bs := t + e + rest;
    var body := e + rest;
    assert bs == t + body;
    DecodeEncodeVarint(tag, body);
    assert bs[|t|..] == body;
    DecodeEncodeVarint(value, rest);
    assert body[|e|..] == rest;
    TagFields(field, WireVarint);
    assert DecodeVarint(bs) == Some((tag, |t|));
    assert DecodeVarint(body) == Some((value, |e|));
  }

  /** Parsing a message whose first field reads as `f` conses `f` onto the
      fields of the remainder. */
  lemma ParseFieldsCons(bs: seq<byte>, f: Field, rest: seq<byte>)
    requires ParseField(bs) == Some((f, rest))
    requires ParseFields(rest).Some?
    ensures ParseFields(bs) == Some([f] + ParseFields(rest).value)
  {
  }

  /** The fields of the stream-info request, as the relay reads them. */
  function StreamInfoFields(url: string, key: string): seq<Field> {
    [LengthDelimited(1, Utf8(url))]
    + (if key != "" then [LengthDelimited(2, Utf8(key))] else [])
    + [LengthDelimited(3, ClientVersionUtf8), VarintField(4, 0), LengthDelimited(6, ClientVersionUtf8)]
  }

  /** The three fields every request ends with read back as version, zero
      and version. */
  lemma TrailerParses(v: seq<byte>)
    ensures ParseFields(EncodeLengthDelimited(3, v) + (EncodeInt32(4, 0) + EncodeLengthDelimited(6, v)))
         == Some([LengthDelimited(3, v), VarintField(4, 0), LengthDelimited(6, v)])
  {
    var f6 := EncodeLengthDelimited(6, v);
    var f4 := EncodeInt32(4, 0);
    var f3 := EncodeLengthDelimited(3, v);
    ParseEncodedPayload(6, v, []);
    assert f6 + [] == f6;
    ParseFieldsCons(f6, LengthDelimited(6, v), []);
    ParseEncodedInt32(4, 0, f6);
    ParseFieldsCons(f4 + f6, VarintField(4, 0), f6);
    ParseEncodedPayload(3, v, f4 + f6);
    ParseFieldsCons(f3 + (f4 + f6), LengthDelimited(3, v), f4 + f6);
    assert [LengthDelimited(3, v)] + ([VarintField(4, 0)] + ([LengthDelimited(6, v)] + []))
        == [LengthDelimited(3, v), VarintField(4, 0), LengthDelimited(6, v)];
  }

  lemma Associate(a: seq<byte>, b: seq<byte>, c: seq<byte>, d: seq<byte>)
    ensures a + b + c + d == a + (b + (c + d))
  {
  }

  /** The request without a stream key, in generic form: a first string
      field, then the trailer. */
  lemma MessageParsesNoKey(u: seq<byte>, v: seq<byte>)
    ensures ParseFields(EncodeLengthDelimited(1, u)
              + (EncodeLengthDelimited(3, v) + (EncodeInt32(4, 0) + EncodeLengthDelimited(6, v))))
         == Some([LengthDelimited(1, u)] + [LengthDelimited(3, v), VarintField(4, 0), LengthDelimited(6, v)])
  {
    var trailer := EncodeLengthDelimited(3, v) + (EncodeInt32(4, 0) + EncodeLengthDelimited(6, v));
    var trailerFields := [LengthDelimited(3, v), VarintField(4, 0), LengthDelimited(6, v)];
    TrailerParses(v);
    var d1 := LengthDelimited(1, u);
    ParseEncodedPayload(1, u, trailer);
    ParseFieldsCons(EncodeLengthDelimited(1, u) + trailer, d1, trailer);
  }

  /** The request with a stream key, in generic form: two string fields, then
      the trailer. */
  lemma MessageParsesKey(u: seq<byte>, k: seq<byte>, v: seq<byte>)
    ensures ParseFields(EncodeLengthDelimited(1, u) + EncodeLengthDelimited(2, k)
              + (EncodeLengthDelimited(3, v) + (EncodeInt32(4, 0) + EncodeLengthDelimited(6, v))))
         == Some([LengthDelimited(1, u)] + [LengthDelimited(2, k)]
                 + [LengthDelimited(3, v), VarintField(4, 0), LengthDelimited(6, v)])
  {
    var trailer := EncodeLengthDelimited(3, v) + (EncodeInt32(4, 0) + EncodeLengthDelimited(6, v));
    var trailerFields := [LengthDelimited(3, v), VarintField(4, 0), LengthDelimited(6, v)];
    TrailerParses(v);
    var f1 := EncodeLengthDelimited(1, u);
    var f2 := EncodeLengthDelimited(2, k);
    var d1 := LengthDelimited(1, u);
    var d2 := LengthDelimited(2, k);
    ParseEncodedPayload(2, k, trailer);
    ParseFieldsCons(f2 + trailer, d2, trailer);
    ParseEncodedPayload(1, u, f2 + trailer);
    ParseFieldsCons(f1 + (f2 + trailer), d1, f2 + trailer);
    assert f1 + f2 + trailer == f1 + (f2 + trailer);
    assert [d1] + ([d2] + trailerFields) == [d1] + [d2] + trailerFields;
  }

  /** The request bytes read back as the request's fields. */
  lemma StreamInfoReqParses(url: string, key: string)
    ensures ParseFields(StreamInfoReqBytes(url, key)) == Some(StreamInfoFields(url, key))
  {
    if key != "" {
      StreamInfoReqParsesKey(url, key);
    } else {
      StreamInfoReqParsesNoKey(url);
    }
  }

  lemma StreamInfoReqParsesKey(url: string, key: string)
    requires key != ""
    ensures ParseFields(StreamInfoReqBytes(url, key)) == Some(StreamInfoFields(url, key))
  {
    var v := ClientVersionUtf8;
    var f1 := EncodeLengthDelimited(1, Utf8(url));
    var f2 := EncodeLengthDelimited(2, Utf8(key));
    assert StreamInfoReqBytes(url, key)
        == f1 + f2 + EncodeLengthDelimited(3, v) + EncodeInt32(4, 0) + EncodeLengthDelimited(6, v);
    Associate(f1 + f2, EncodeLengthDelimited(3, v), EncodeInt32(4, 0), EncodeLengthDelimited(6, v));
    MessageParsesKey(Utf8(url), Utf8(key), v);
  }

  lemma StreamInfoReqParsesNoKey(url: string)
    ensures ParseFields(StreamInfoReqBytes(url, "")) == Some(StreamInfoFields(url, ""))
  {
    var v := ClientVersionUtf8;
    var f1 := EncodeLengthDelimited(1, Utf8(url));
    assert StreamInfoReqBytes(url, "")
        == f1 + EncodeLengthDelimited(3, v) + EncodeInt32(4, 0) + EncodeLengthDelimited(6, v);
    Associate(f1, EncodeLengthDelimited(3, v), EncodeInt32(4, 0), EncodeLengthDelimited(6, v));
    MessageParsesNoKey(Utf8(url), v);
    var d1 := [LengthDelimited(1, Utf8(url))];
    var trailer := [LengthDelimited(3, v), VarintField(4, 0), LengthDelimited(6, v)];
    assert d1 + [] + trailer == d1 + trailer;
  }

  /** The field list of the request, read off. */
  lemma StreamInfoFieldsLayout(url: string, key: string, fs: seq<Field>)
    requires fs == StreamInfoFields(url, key)
    ensures |fs| == if key != "" then 5 else 4
    ensures Numbers(fs) == (if key != "" then [1, 2, 3, 4, 6] else [1, 3, 4, 6])
    ensures fs[0] == LengthDelimited(1, Utf8(url))
    ensures key != "" ==> fs[1] == LengthDelimited(2, Utf8(key))
    ensures fs[|fs| - 3] == LengthDelimited(3, ClientVersionUtf8)
    ensures fs[|fs| - 2] == VarintField(4, 0)
    ensures fs[|fs| - 1] == LengthDelimited(6, ClientVersionUtf8)
  {
    var v := ClientVersionUtf8;
    var d1 := LengthDelimited(1, Utf8(url));
    var trailer := [LengthDelimited(3, v), VarintField(4, 0), LengthDelimited(6, v)];
    NumbersTrailer(v);
    if key != "" {
      var d2 := LengthDelimited(2, Utf8(key));
      assert fs == [d1] + ([d2] + trailer);
      NumbersCons(d2, trailer);
      NumbersCons(d1, [d2] + trailer);
    } else {
      assert fs == [d1] + trailer;
      NumbersCons(d1, trailer);
    }
  }

  /** The request's field tags come in the order 1, 2, 3, 4, 6; field 2 is
      present exactly when the key is non-empty; field 4 carries 0; fields 3
      and 6 carry the same version string, the UTF-8 encoding of
      `ClientVersion` (`ClientVersionEncoding`). */
  lemma StreamInfoReqLayout(url: string, key: string, fs: seq<Field>)
    requires ParseFields(CreateStreamInfoReq(url, key)) == Some(fs)
    ensures |fs| == if key != "" then 5 else 4
    ensures Numbers(fs) == (if key != "" then [1, 2, 3, 4, 6] else [1, 3, 4, 6])
    ensures fs[0] == LengthDelimited(1, Utf8(url))
    ensures key != "" ==> fs[1] == LengthDelimited(2, Utf8(key))
    ensures fs[|fs| - 2] == VarintField(4, 0)
    ensures fs[|fs| - 3] == LengthDelimited(3, ClientVersionUtf8)
    ensures fs[|fs| - 1] == LengthDelimited(6, ClientVersionUtf8)
  {
    StreamInfoFieldsLayout(url, key, fs);
  }

  lemma NumbersCons(f: Field, fs: seq<Field>)
    ensures Numbers([f] + fs) == [f.number] + Numbers(fs)
  {
    assert ([f] + fs)[1..] == fs;
  }

  lemma NumbersTrailer(v: seq<byte>)
    ensures Numbers([LengthDelimited(3, v), VarintField(4, 0), LengthDelimited(6, v)]) == [3, 4, 6]
  {
    var fs := [LengthDelimited(3, v), VarintField(4, 0), LengthDelimited(6, v)];
    assert fs[1..] == [VarintField(4, 0), LengthDelimited(6, v)];
    assert fs[1..][1..] == [LengthDelimited(6, v)];
    assert Numbers(fs[1..][1..]) == [6];
    assert Numbers(fs[1..]) == [4, 6];
  }
}
