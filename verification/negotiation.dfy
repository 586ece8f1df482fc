/** The stream negotiation with the first-hop relay: the stream URL the client
    sends, the request packet that carries it, the reply it reads back, and
    the extraction of the media relay's address from that reply. */
module Negotiation {
  import opened Wrappers
  import opened Errors
  import opened Bytes
  import opened Text
  import opened Fields
  import opened VtmPacket
  import opened Session

  /** The scheme of every relay URL. */
  const Scheme: string := "ysproto://"

  /** `_build_stream_url`, with the millisecond wall-clock reading passed in
      as `timestamp`. */
  function BuildStreamUrl(ip: string, port: nat, serial: string, token: string, timestamp: nat): (url: string)
    ensures OccursAt(url, Scheme, 0)
    ensures '\0' !in ip && '\0' !in serial && '\0' !in token ==> '\0' !in url
  {
    var digits := NatToDecimal(port);
    var url := Scheme + ip + ":" + digits + StreamQuery(serial, token, timestamp);
    DigitsHaveNoNul(digits);
    assert '\0' !in Scheme;
    url
  }

  /** The relay host and port written into a stream URL are the groups the
      redirect pattern finds at its start, and so the ones it parses back. */
  lemma BuildStreamUrlParses(ip: string, port: nat, serial: string, token: string, timestamp: nat)
    requires ip != "" && ':' !in ip
    ensures var url := BuildStreamUrl(ip, port, serial, token, timestamp);
      MatchAt(url, 0) == Some((ip, port)) && ParseRedirect(url) == Success((ip, port))
  {
    MatchHostPort(ip, NatToDecimal(port), StreamQuery(serial, token, timestamp));
  }

  /** A URL of the shape `ysproto://host:digits/...` matches at its start,
      with the host and the digits' value as the groups, and so parses to
      them. */
  lemma MatchHostPort(host: string, d: string, rest: string)
    requires host != "" && ':' !in host
    requires d != "" && AllDigits(d)
    requires |rest| >= 1 && rest[0] == '/'
    ensures MatchAt(Scheme + host + ":" + d + rest, 0) == Some((host, DecimalValue(d)))
    ensures ParseRedirect(Scheme + host + ":" + d + rest) == Success((host, DecimalValue(d)))
  {
    var url := Scheme + host + ":" + d + rest;
    OccursAtFront(Scheme + host + ":" + d, rest);
    assert Scheme + host + ":" + d + [rest[0]] == Scheme + host + ":" + d + "/";
    MatchAtComplete(url, 0, host, d);
    assert SearchFrom(url, 0) == Some((host, DecimalValue(d)));
  }

  /** A text followed by anything starts with the text and the first
      character after it. */
  lemma OccursAtFront(a: string, b: string)
    requires |b| >= 1
    ensures OccursAt(a + b, a + [b[0]], 0)
  {
    assert (a + b)[..|a| + 1] == a + [b[0]];
  }

  /** The path and query of a stream URL: the device, fixed channel and
      client parameters, the session token and the timestamp. */
  function StreamQuery(serial: string, token: string, timestamp: nat): (q: string)
    ensures |q| >= 1 && q[0] == '/'
    ensures '\0' !in serial && '\0' !in token ==> '\0' !in q
  {
    DigitsHaveNoNul(NatToDecimal(timestamp));
    QueryLiteralsHaveNoNul();
    "/live?" + "dev=" + serial + "&chn=1&stream=1&cln=9&isp=0&auth=1&"
      + "ssn=" + token + "&biz=1&vip=0&timestamp=" + NatToDecimal(timestamp)
  }

  /** `_create_stream_request` and the sending half of `_send_stream_request`:
      a StreamInfoReq without a stream key, framed as an unencrypted message
      with sequence 0. Only a URL too long for the 16-bit length field fails. */
  function CreateStreamRequest(url: string): (r: Result<seq<byte>, Error>)
    ensures r.Failure? <==> |CreateStreamInfoReq(url, "")| > MaxUint16
    ensures r.Failure? ==> r.error == StructError
    ensures r.Success? ==>
      && |r.value| >= HeaderSize
      && var h := DecodeHeader(r.value[..HeaderSize]);
      && h.Success?
      && h.value.channel == ChannelUnencMessage
      && h.value.length == |CreateStreamInfoReq(url, "")|
      && h.value.sequence == 0
      && h.value.code == MsgStreamInfoReq
      && ParseFields(r.value[HeaderSize..]) == Some(StreamInfoFields(url, ""))
  {
    var payload := CreateStreamInfoReq(url, "");
    var r := Encode(payload, MsgStreamInfoReq, ChannelUnencMessage, 0);
    if r.Success? then
      FramedRequest(payload, StreamInfoFields(url, ""));
      r
    else r
  }

  /** A message framed as a stream-info request: the header announces an
      unencrypted message of the payload's length with sequence 0, and the
      payload's fields read back after the header. */
  lemma FramedRequest(payload: seq<byte>, fields: seq<Field>)
    requires |payload| <= MaxUint16
    requires ParseFields(payload) == Some(fields)
    ensures Encode(payload, MsgStreamInfoReq, ChannelUnencMessage, 0).Success?
    ensures var e := Encode(payload, MsgStreamInfoReq, ChannelUnencMessage, 0).value;
      && |e| >= HeaderSize
      && var h := DecodeHeader(e[..HeaderSize]);
      && h.Success?
      && h.value.channel == ChannelUnencMessage
      && h.value.length == |payload|
      && h.value.sequence == 0
      && h.value.code == MsgStreamInfoReq
      && ParseFields(e[HeaderSize..]) == Some(fields)
  {
    EncodeDecodeHeader(payload, MsgStreamInfoReq, ChannelUnencMessage, 0);
  }

  /** The receiving half of `_send_stream_request`: one read of 8 header bytes,
      then one read of the length the header announces. Gives the header, the
      body and the bytes left unread. */
  function ReadResponse(input: seq<byte>): (r: Result<(Header, seq<byte>, seq<byte>), Error>)
    ensures r.Failure? <==> |input| < HeaderSize || input[0] != Magic
    ensures r.Success? ==> |r.value.1| == Min(r.value.0.length, |input| - HeaderSize)
    ensures r.Success? ==> input == PackHeader(r.value.0) + r.value.1 + r.value.2
  {
    var (header, afterHeader) := Recv(input, HeaderSize);
    match DecodeHeader(header)
    case Failure(e) => Failure(e)
    case Success(h) =>
      var (body, unread) := Recv(afterHeader, h.length);
      PackDecodedHeader(header, h);
      Success((h, body, unread))
  }

  /** A reply framed by `Encode` is read back whole: its header, its payload,
      and nothing of what follows. */
  lemma ReadEncodedResponse(data: seq<byte>, code: int, channel: int, sequence: int, more: seq<byte>)
    requires FitsHeader(|data|, code, channel, sequence)
    ensures Encode(data, code, channel, sequence).Success?
    ensures ReadResponse(Encode(data, code, channel, sequence).value + more)
         == Success((Header(channel, |data|, sequence, code), data, more))
  {
    var h := Header(channel, |data|, sequence, code);
    var input := PackHeader(h) + data + more;
    DecodePackHeader(h);
    assert input[..HeaderSize] == PackHeader(h);
    assert input[HeaderSize..] == data + more;
    assert (data + more)[..|data|] == data;
    assert (data + more)[|data|..] == more;
  }

  /** `body.decode('utf-8', errors='ignore')` for the ASCII part of the body:
      ASCII bytes become their characters and all other bytes are dropped. */
  function DecodeText(bs: seq<byte>): (s: string)
    ensures |s| <= |bs|
    ensures IsAscii(s)
    ensures |s| == |bs| <==> forall i :: 0 <= i < |bs| ==> bs[i] < 0x80
    ensures |s| == |bs| ==> forall i :: 0 <= i < |s| ==> s[i] as int == bs[i] as int
    ensures |bs| == 1 && bs[0] < 0x80 ==> s == [bs[0] as char]
    ensures |bs| == 1 && bs[0] >= 0x80 ==> s == ""
    decreases |bs|
  {
    if |bs| == 0 then ""
    else ByteText(bs[0]) + DecodeText(bs[1..])
  }

  /** What one byte decodes to: its character when it is ASCII, else nothing. */
  function ByteText(b: byte): string {
    if b < 0x80 then [b as char] else []
  }

  lemma DecodeTextFront(bs: seq<byte>)
    requires |bs| > 0
    ensures DecodeText(bs) == ByteText(bs[0]) + DecodeText(bs[1..])
  {
  }

  /** Decoding is per byte: a concatenation decodes to the concatenation of
      the decoded parts, so the ASCII bytes of a body are kept in order
      whatever other bytes surround them. */
  lemma {:induction false} DecodeTextConcat(a: seq<byte>, b: seq<byte>)
    ensures DecodeText(a + b) == DecodeText(a) + DecodeText(b)
    decreases |a|
  {
    if |a| == 0 {
      assert a + b == b;
    } else {
      var ab := a + b;
      assert ab[0] == a[0] && ab[1..] == a[1..] + b;
      var t := ByteText(a[0]);
      var x := DecodeText(a[1..]);
      var y := DecodeText(b);
      DecodeTextConcat(a[1..], b);
      calc {
        DecodeText(ab);
        { DecodeTextFront(ab); }
        t + DecodeText(a[1..] + b);
        t + (x + y);
        (t + x) + y;
        { DecodeTextFront(a); }
        DecodeText(a) + y;
      }
    }
  }

  /** Decoding the encoding of an ASCII string gives the string back. */
  lemma {:induction false} DecodeAsciiText(s: string)
    requires IsAscii(s)
    ensures DecodeText(Utf8(s)) == s
    decreases |s|
  {
    if |s| > 0 {
      DecodeAsciiText(s[1..]);
      var e := Utf8(s);
      assert e == [s[0] as int] + Utf8(s[1..]);
      assert e[1..] == Utf8(s[1..]);
      assert [s[0]] + s[1..] == s;
    }
  }

  /** The redirect extraction of `_get_stream_info`: the text from the first
      `ysproto://` up to the first NUL. When the scheme is absent Python's
      `find` returns -1 and the slice keeps only the last character. */
  function ExtractRedirect(text: string): (url: string)
    ensures '\0' !in url
    ensures Find(text, Scheme).None? ==> |url| <= 1
  {
    var tail := match Find(text, Scheme)
      case Some(k) => text[k..]
      case None => if |text| == 0 then "" else text[|text| - 1..];
    Split(tail, '\0')[0]
  }

  /** When the scheme occurs, the extracted URL is the NUL-free run of text
      starting at its first occurrence, and it keeps the scheme. */
  lemma RedirectAtScheme(text: string, k: nat)
    requires Find(text, Scheme) == Some(k)
    ensures var url := ExtractRedirect(text);
      && k + |url| <= |text|
      && text[k..k + |url|] == url
      && (k + |url| == |text| || text[k + |url|] == '\0')
      && OccursAt(url, Scheme, 0)
  {
    var tail := text[k..];
    var url := Split(tail, '\0')[0];
    SplitHead(tail, '\0');
    assert OccursAt(tail, Scheme, 0);
    SplitHeadKeepsPrefix(tail, Scheme, '\0');
  }

  /** Offset of the first `c` at or after `i`, or `|s|` when there is none. */
  function IndexFrom(s: string, c: char, i: nat): (k: nat)
    requires i <= |s|
    ensures i <= k <= |s|
    ensures forall j :: i <= j < k ==> s[j] != c
    ensures k < |s| ==> s[k] == c
    decreases |s| - i
  {
    if i == |s| || s[i] == c then i else IndexFrom(s, c, i + 1)
  }

  /** End of the run of ASCII digits that starts at `i`. */
  function DigitsEnd(s: string, i: nat): (k: nat)
    requires i <= |s|
    ensures i <= k <= |s|
    ensures forall j :: i <= j < k ==> IsDigit(s[j])
    ensures k < |s| ==> !IsDigit(s[k])
    decreases |s| - i
  {
    if i == |s| || !IsDigit(s[i]) then i else DigitsEnd(s, i + 1)
  }

  /** A match of `ysproto://([^:]+):(\d+)/` starting at offset `i`: the host
      group runs to the first colon (it cannot contain one), the port group is
      the digit run after it, and a slash must follow. */
  function MatchAt(s: string, i: nat): (m: Option<(string, nat)>)
    requires i <= |s|
    ensures m.Some? ==> OccursAt(s, Scheme, i)
    ensures m.Some? ==> m.value.0 != "" && ':' !in m.value.0
    ensures m.Some? ==> OccursAt(s, Scheme + m.value.0 + ":", i)
    ensures m.Some? ==> exists d :: MatchShape(s, i, m.value.0, d) && m.value.1 == DecimalValue(d)
  {
    if !OccursAt(s, Scheme, i) then None
    else
      var hostStart := i + |Scheme|;
      var colon := IndexFrom(s, ':', hostStart);
      if colon == hostStart || colon == |s| then None
      else
        var digitsEnd := DigitsEnd(s, colon + 1);
        if digitsEnd == colon + 1 || digitsEnd == |s| || s[digitsEnd] != '/' then None
        else
          var host := s[hostStart..colon];
          assert s[i..colon + 1] == Scheme + host + ":";
          var d := s[colon + 1..digitsEnd];
          assert AllDigits(d);
          assert s[i..digitsEnd + 1] == Scheme + host + ":" + d + "/";
          assert MatchShape(s, i, host, d);
          Some((host, DecimalValue(d)))
  }

  /** The text at offset `i` has the shape `ysproto://host:digits/` the
      redirect pattern looks for, with these groups. */
  predicate MatchShape(s: string, i: nat, host: string, digits: string) {
    && host != "" && ':' !in host
    && digits != "" && AllDigits(digits)
    && OccursAt(s, Scheme + host + ":" + digits + "/", i)
  }

  /** The converse of `MatchAt`: wherever the text has the pattern's shape,
      the match at that offset exists and has exactly those groups (the host
      group cannot stop before the colon, nor the port group before the
      slash). */
  lemma MatchAtComplete(s: string, i: nat, host: string, d: string)
    requires MatchShape(s, i, host, d)
    ensures i <= |s| && MatchAt(s, i) == Some((host, DecimalValue(d)))
  {
    var p := Scheme + host + ":" + d + "/";
    var hostStart := i + |Scheme|;
    var colon := hostStart + |host|;
    var digitsEnd := colon + 1 + |d|;
    ShapePieces(Scheme, host, d);
    SliceOfOccurrence(s, p, i, 0, |Scheme|);
    SliceOfOccurrence(s, p, i, |Scheme|, |Scheme| + |host|);
    SliceOfOccurrence(s, p, i, |Scheme| + |host| + 1, |Scheme| + |host| + 1 + |d|);
    CharOfOccurrence(s, p, i, |Scheme| + |host|);
    CharOfOccurrence(s, p, i, |Scheme| + |host| + 1 + |d|);
    assert s[hostStart..colon] == host;
    assert s[colon + 1..digitsEnd] == d;
    NoCharInSlice(s, hostStart, colon, ':');
    IndexFromIs(s, ':', hostStart, colon);
    DigitsInSlice(s, colon + 1, digitsEnd);
    DigitsEndIs(s, colon + 1, digitsEnd);
    MatchAtFromParts(s, i, colon, digitsEnd);
  }

  /** A character absent from a slice is absent at each of its offsets. */
  lemma NoCharInSlice(s: string, a: nat, b: nat, c: char)
    requires a <= b <= |s| && c !in s[a..b]
    ensures forall j :: a <= j < b ==> s[j] != c
  {
    forall j | a <= j < b
      ensures s[j] != c
    {
      assert s[j] == s[a..b][j - a];
    }
  }

  /** A slice of digits has a digit at each of its offsets. */
  lemma DigitsInSlice(s: string, a: nat, b: nat)
    requires a <= b <= |s| && AllDigits(s[a..b])
    ensures forall j :: a <= j < b ==> IsDigit(s[j])
  {
    forall j | a <= j < b
      ensures IsDigit(s[j])
    {
      assert s[j] == s[a..b][j - a];
    }
  }

  /** The first `c` from `i` on is at `k`. */
  lemma IndexFromIs(s: string, c: char, i: nat, k: nat)
    requires i <= k < |s| && s[k] == c
    requires forall j :: i <= j < k ==> s[j] != c
    ensures IndexFrom(s, c, i) == k
  {
  }

  /** The digit run from `i` on ends at `k`. */
  lemma DigitsEndIs(s: string, i: nat, k: nat)
    requires i <= k < |s| && !IsDigit(s[k])
    requires forall j :: i <= j < k ==> IsDigit(s[j])
    ensures DigitsEnd(s, i) == k
  {
  }

  /** `MatchAt` read off from where the host group and the port group end. */
  lemma MatchAtFromParts(s: string, i: nat, colon: nat, digitsEnd: nat)
    requires OccursAt(s, Scheme, i)
    requires i + |Scheme| < colon < digitsEnd <= |s|
    requires IndexFrom(s, ':', i + |Scheme|) == colon
    requires colon + 1 < digitsEnd < |s| && DigitsEnd(s, colon + 1) == digitsEnd && s[digitsEnd] == '/'
    ensures AllDigits(s[colon + 1..digitsEnd])
    ensures MatchAt(s, i) == Some((s[i + |Scheme|..colon], DecimalValue(s[colon + 1..digitsEnd])))
  {
  }

  /** The pieces of `a + host + ":" + d + "/"`, by offsets. */
  lemma ShapePieces(a: string, host: string, d: string)
    ensures var p := a + host + ":" + d + "/";
      && |p| == |a| + |host| + |d| + 2
      && p[..|a|] == a
      && p[|a|..|a| + |host|] == host
      && p[|a| + |host|] == ':'
      && p[|a| + |host| + 1..|a| + |host| + 1 + |d|] == d
      && p[|a| + |host| + 1 + |d|] == '/'
  {
  }

  /** A slice of an occurrence of `p` is the same slice of `p`. */
  lemma SliceOfOccurrence(s: string, p: string, i: nat, a: nat, b: nat)
    requires OccursAt(s, p, i) && a <= b <= |p|
    ensures s[i + a..i + b] == p[a..b]
  {
    forall k | 0 <= k < b - a
      ensures s[i + a..i + b][k] == p[a..b][k]
    {
      assert s[i + a + k] == s[i..i + |p|][a + k];
    }
  }

  /** A character of an occurrence of `p` is the same character of `p`. */
  lemma CharOfOccurrence(s: string, p: string, i: nat, a: nat)
    requires OccursAt(s, p, i) && a < |p|
    ensures s[i + a] == p[a]
  {
    assert s[i..i + |p|][a] == s[i + a];
  }


  /** `re.search`: the match at the leftmost offset where one exists. */
  function SearchFrom(s: string, i: nat): (m: Option<(string, nat)>)
    requires i <= |s|
    ensures m.Some? ==> exists j :: i <= j <= |s| && MatchAt(s, j) == m
    ensures (forall j :: i <= j ==> !OccursAt(s, Scheme, j)) ==> m.None?
    decreases |s| - i
  {
    match MatchAt(s, i)
    case Some(found) => Some(found)
    case None => if i == |s| then None else SearchFrom(s, i + 1)
  }

  /** The search finds the leftmost match, and finds none only when there is
      none at any offset. */
  lemma {:induction false} SearchFromLeftmost(s: string, i: nat)
    requires i <= |s|
    ensures SearchFrom(s, i).Some? ==> exists j :: (i <= j <= |s| && MatchAt(s, j) == SearchFrom(s, i)
      && forall k :: i <= k < j ==> MatchAt(s, k).None?)
    ensures SearchFrom(s, i).None? <==> forall j :: i <= j <= |s| ==> MatchAt(s, j).None?
  {
    var j := SearchFromFirst(s, i);
    SearchFromNone(s, i);
  }

  /** A found match is at the leftmost matching offset, returned as `j`. */
  lemma {:induction false} SearchFromFirst(s: string, i: nat) returns (j: nat)
    requires i <= |s|
    ensures SearchFrom(s, i).Some? ==> i <= j <= |s| && MatchAt(s, j) == SearchFrom(s, i)
    ensures SearchFrom(s, i).Some? ==> forall k :: i <= k < j ==> MatchAt(s, k).None?
    decreases |s| - i
  {
    j := i;
    if MatchAt(s, i).Some? {
      assert SearchFrom(s, i) == MatchAt(s, i);
    } else if i < |s| {
      j := SearchFromFirst(s, i + 1);
      assert SearchFrom(s, i) == SearchFrom(s, i + 1);
    }
  }

  /** An empty search means no offset matches. */
  lemma {:induction false} SearchFromNone(s: string, i: nat)
    requires i <= |s|
    ensures SearchFrom(s, i).None? ==> forall j :: i <= j <= |s| ==> MatchAt(s, j).None?
    decreases |s| - i
  {
    if SearchFrom(s, i).None? && i < |s| {
      assert MatchAt(s, i).None?;
      assert SearchFrom(s, i + 1).None?;
      SearchFromNone(s, i + 1);
    }
  }

  /** The host and port of the media relay named in a redirect URL. The
      source takes `.group()` of the match unguarded, so a reply without a
      match raises there; here that is `RedirectNotFound`. */
  function ParseRedirect(url: string): (r: Result<(string, nat), Error>)
    ensures r.Success? ==> r.value.0 != "" && ':' !in r.value.0
    ensures r.Success? ==> Contains(url, Scheme + r.value.0 + ":")
    ensures r.Success? ==> exists j :: (0 <= j <= |url| && MatchAt(url, j) == Some(r.value)
      && forall k :: 0 <= k < j ==> MatchAt(url, k).None?)
    ensures r.Failure? <==> forall j :: 0 <= j <= |url| ==> MatchAt(url, j).None?
    ensures r.Failure? ==> r.error == RedirectNotFound
    ensures !Contains(url, Scheme) ==> r == Failure(RedirectNotFound)
  {
    SearchFromLeftmost(url, 0);
    match SearchFrom(url, 0)
    case Some(found) => Success(found)
    case None => Failure(RedirectNotFound)
  }

  /** A reply whose text carries a stream URL, preceded by text without the
      scheme and followed by a NUL, yields exactly that URL. */
  lemma ExtractFramedRedirect(pre: string, url: string, garbage: string)
    requires Find(pre + Scheme, Scheme) == Some(|pre|)
    requires OccursAt(url, Scheme, 0) && '\0' !in url
    ensures ExtractRedirect(pre + url + "\0" + garbage) == url
  {
    var text := pre + url + "\0" + garbage;
    assert url == Scheme + url[|Scheme|..];
    assert text == (pre + Scheme) + (url[|Scheme|..] + "\0" + garbage);
    FindExtend(pre + Scheme, url[|Scheme|..] + "\0" + garbage, Scheme, |pre|);
    assert text[|pre|..] == url + ['\0'] + garbage;
    SplitPrefix(url, '\0', garbage);
  }

  /** What `_get_stream_info` returns: the media relay's host, port and URL. */
  datatype StreamInfo = StreamInfo(vtduIp: string, vtduPort: nat, vtduUrl: string)

  /** The reply-processing tail of `_get_stream_info`: read the reply packet,
      decode its body, extract the redirect URL and parse the relay address
      out of it. */
  function RedirectFromReply(reply: seq<byte>): (r: Result<StreamInfo, Error>)
    ensures ReadResponse(reply).Failure? ==> r.Failure?
    ensures r.Success? ==> '\0' !in r.value.vtduUrl
    ensures r.Success? ==> r.value.vtduIp != "" && ':' !in r.value.vtduIp
    ensures r.Success? ==> Contains(r.value.vtduUrl, Scheme + r.value.vtduIp + ":")
    ensures r.Success? ==> && ReadResponse(reply).Success?
                           && r.value.vtduUrl == ExtractRedirect(DecodeText(ReadResponse(reply).value.1))
                           && ParseRedirect(r.value.vtduUrl) == Success((r.value.vtduIp, r.value.vtduPort))
    ensures ReadResponse(reply).Success? ==>
      (r.Failure? <==> ParseRedirect(ExtractRedirect(DecodeText(ReadResponse(reply).value.1))).Failure?)
  {
    match ReadResponse(reply)
    case Failure(e) => Failure(e)
    case Success((_, body, _)) =>
      var url := ExtractRedirect(DecodeText(body));
      match ParseRedirect(url)
      case Failure(e) => Failure(e)
      case Success((ip, port)) => Success(StreamInfo(ip, port, url))
  }

  /** End to end: a relay reply framed by `Encode`, whose body holds the
      bytes of an ASCII stream URL after bytes that decode to text without
      the scheme, followed by a NUL byte and any bytes at all, yields that
      URL and the address written into it. */
  lemma RedirectFromFramedReply(pre: seq<byte>, ip: string, port: nat, serial: string, token: string,
                                timestamp: nat, garbage: seq<byte>, code: int, channel: int, sequence: int,
                                more: seq<byte>)
    requires ip != "" && ':' !in ip
    requires '\0' !in ip && '\0' !in serial && '\0' !in token
    requires IsAscii(BuildStreamUrl(ip, port, serial, token, timestamp))
    requires Find(DecodeText(pre) + Scheme, Scheme) == Some(|DecodeText(pre)|)
    requires FitsHeader(|pre + Utf8(BuildStreamUrl(ip, port, serial, token, timestamp)) + [0] + garbage|,
                        code, channel, sequence)
    ensures Encode(pre + Utf8(BuildStreamUrl(ip, port, serial, token, timestamp)) + [0] + garbage,
                   code, channel, sequence).Success?
    ensures RedirectFromReply(Encode(pre + Utf8(BuildStreamUrl(ip, port, serial, token, timestamp)) + [0] + garbage,
                                     code, channel, sequence).value + more)
         == Success(StreamInfo(ip, port, BuildStreamUrl(ip, port, serial, token, timestamp)))
  {
    var url := BuildStreamUrl(ip, port, serial, token, timestamp);
    var data := pre + Utf8(url) + [0] + garbage;
    ReadEncodedResponse(data, code, channel, sequence, more);
    FramedBodyText(pre, url, garbage);
    ExtractFramedRedirect(DecodeText(pre), url, DecodeText(garbage));
    BuildStreamUrlParses(ip, port, serial, token, timestamp);
  }

  /** The text of a body holding an ASCII URL and a NUL between other bytes. */
  lemma FramedBodyText(pre: seq<byte>, url: string, garbage: seq<byte>)
    requires IsAscii(url)
    ensures DecodeText(pre + Utf8(url) + [0] + garbage) == DecodeText(pre) + url + "\0" + DecodeText(garbage)
  {
    DecodeTextConcat(pre + Utf8(url) + [0], garbage);
    DecodeTextConcat(pre + Utf8(url), [0]);
    DecodeTextConcat(pre, Utf8(url));
    DecodeAsciiText(url);
    assert DecodeText([0]) == "\0";
  }

  /** The fixed parts of the query have no NUL. */
  lemma QueryLiteralsHaveNoNul()
    ensures '\0' !in "/live?" + "dev="
    ensures '\0' !in "&chn=1&stream=1&cln=9&isp=0&auth=1&" + "ssn="
    ensures '\0' !in "&biz=1&vip=0&timestamp="
  {
  }

  lemma DigitsHaveNoNul(d: string)
    requires AllDigits(d)
    ensures '\0' !in d
  {
  }

  /** The stream-info request for this relay, device and token fits the
      16-bit length field of the packet header, which is exactly when
      `CreateStreamRequest` can frame it. */
  predicate RequestFits(relay: VtmInfo, serial: string, token: string, timestamp: nat) {
    |CreateStreamInfoReq(BuildStreamUrl(relay.externalIp, relay.port, serial, token, timestamp), "")| <= MaxUint16
  }

  /** `_get_stream_info` gets as far as asking for tokens: connected, a relay
      entry for the first selectable resource, and a session that
      `get_vtdu_tokens` accepts. */
  predicate ReachesTokens(connected: bool, listing: Option<DeviceListing>, serial: string,
                          authUrl: Option<string>, sessionId: string) {
    && connected && listing.Some? && SelectedRelay(listing.value, serial).Success?
    && ClaimsSegment(authUrl, sessionId).Success?
  }

  /** `_get_stream_info`: the client must be connected and hold the device
      listing; the device needs a relay entry; `get_vtdu_tokens` needs the
      auth server and a three-part session token, and must return a token.
      The request sent to the first-hop relay carries the stream URL built
      from them; its reply names the media relay. */
  method GetStreamInfo(connected: bool, listing: Option<DeviceListing>, serial: string,
                       authUrl: Option<string>, sessionId: string,
                       tokens: Option<seq<string>>, timestamp: nat, reply: seq<byte>)
    returns (r: Result<StreamInfo, Error>)
    ensures !connected ==> r == Failure(NotConnected)
    ensures connected && listing.None? ==> r == Failure(DeviceListUnavailable)
    ensures connected && listing.Some? && NoneSelectable(listing.value.resourceInfos, serial)
      ==> r == Failure(DeviceNotFound)
    ensures connected && listing.Some? && SelectedRelay(listing.value, serial) == Failure(VtmInfoNotFound)
      ==> r == Failure(VtmInfoNotFound)
    ensures (connected && listing.Some? && SelectedRelay(listing.value, serial).Success?
             && ClaimsSegment(authUrl, sessionId).Failure?)
      ==> r == Failure(ClaimsSegment(authUrl, sessionId).error)
    ensures (ReachesTokens(connected, listing, serial, authUrl, sessionId)
             && (tokens.None? || |tokens.value| == 0)) ==> r == Failure(TokensUnavailable)
    ensures (ReachesTokens(connected, listing, serial, authUrl, sessionId)
             && tokens.Some? && |tokens.value| > 0
             && !RequestFits(SelectedRelay(listing.value, serial).value, serial, tokens.value[0], timestamp))
      ==> r == Failure(StructError)
    ensures (ReachesTokens(connected, listing, serial, authUrl, sessionId)
             && tokens.Some? && |tokens.value| > 0
             && RequestFits(SelectedRelay(listing.value, serial).value, serial, tokens.value[0], timestamp))
      ==> r == RedirectFromReply(reply)
    ensures r.Success? ==> r == RedirectFromReply(reply)
    ensures r.Success? ==> (ReachesTokens(connected, listing, serial, authUrl, sessionId)
      && tokens.Some? && |tokens.value| > 0)
  {
    if !connected {
      r := Failure(NotConnected);
    } else {
      var relay := RelayAddress(listing, serial);
      r := StreamInfoVia(relay, serial, authUrl, sessionId, tokens, timestamp, reply);
      if listing.Some? {
        assert relay == SelectedRelay(listing.value, serial);
        assert ReachesTokens(connected, listing, serial, authUrl, sessionId)
          <==> relay.Success? && ClaimsSegment(authUrl, sessionId).Success?;
      } else {
        assert relay == Failure(DeviceListUnavailable);
      }
    }
  }

  /** The steps after the relay lookup: a failed lookup is passed on, then
      the session is checked, the tokens are checked and the request is
      sent. */
  method StreamInfoVia(relay: Result<VtmInfo, Error>, serial: string, authUrl: Option<string>,
                       sessionId: string, tokens: Option<seq<string>>, timestamp: nat, reply: seq<byte>)
    returns (r: Result<StreamInfo, Error>)
    ensures relay.Failure? ==> r == Failure(relay.error)
    ensures relay.Success? && ClaimsSegment(authUrl, sessionId).Failure?
      ==> r == Failure(ClaimsSegment(authUrl, sessionId).error)
    ensures (relay.Success? && ClaimsSegment(authUrl, sessionId).Success?
             && (tokens.None? || |tokens.value| == 0)) ==> r == Failure(TokensUnavailable)
    ensures (relay.Success? && ClaimsSegment(authUrl, sessionId).Success?
             && tokens.Some? && |tokens.value| > 0
             && !RequestFits(relay.value, serial, tokens.value[0], timestamp)) ==> r == Failure(StructError)
    ensures (relay.Success? && ClaimsSegment(authUrl, sessionId).Success?
             && tokens.Some? && |tokens.value| > 0
             && RequestFits(relay.value, serial, tokens.value[0], timestamp)) ==> r == RedirectFromReply(reply)
    ensures r.Success? ==> (relay.Success? && ClaimsSegment(authUrl, sessionId).Success?
      && tokens.Some? && |tokens.value| > 0)
  {
    if relay.Failure? {
      r := Failure(relay.error);
    } else {
      var claims := ClaimsSegment(authUrl, sessionId);
      if claims.Failure? {
        r := Failure(claims.error);
      } else {
        var token := FirstToken(tokens);
        if token.Failure? {
          r := Failure(token.error);
        } else {
          r := SendStreamRequest(relay.value, serial, token.value, timestamp, reply);
        }
      }
    }
  }

  /** The exchange with the first-hop relay: the request for the stream URL
      is sent when it fits a packet, and the relay's reply is read. */
  method SendStreamRequest(relay: VtmInfo, serial: string, token: string, timestamp: nat, reply: seq<byte>)
    returns (r: Result<StreamInfo, Error>)
    ensures !RequestFits(relay, serial, token, timestamp) ==> r == Failure(StructError)
    ensures RequestFits(relay, serial, token, timestamp) ==> r == RedirectFromReply(reply)
  {
    var url := BuildStreamUrl(relay.externalIp, relay.port, serial, token, timestamp);
    var request := CreateStreamRequest(url);
    if request.Failure? {
      assert !RequestFits(relay, serial, token, timestamp);
      r := Failure(request.error);
    } else {
      assert RequestFits(relay, serial, token, timestamp);
      r := RedirectFromReply(reply);
    }
  }
}
