# EZVIZ stream capture and on-demand manager, modelled in Dafny

This project models the sequential core of the EZVIZ Home Assistant add-on. It has three parts.

- **Wire codec and negotiation** (`ezviz_stream.py`):
  - the hand-written Protocol Buffers encoder for the StreamInfoReq message;
  - the 8-byte VTM packet framing;
  - the region-to-host fallback;
  - the base64url padding of the session token's claims segment;
  - the first-match device lookup;
  - the stream URL the client sends;
  - the extraction of the media relay's address from the relay's reply.
- **Pipe streamer** (`ezviz-camera/stream_to_pipe.py`): the loop that reads relay packets and writes the unencrypted stream bodies to standard output. It is modelled as a pure function from the bytes the relay sends to the bytes written, the packet count and the stop reason.
- **Stream manager** (`ezviz-camera/stream_manager.py`):
  - the start, stop, touch and monitor transitions;
  - `is_streaming`;
  - the segment retention rule;
  - the trigger and status logic of `do_GET`.

  Each transition is a pure function on a state record. Time is an integer passed in by the caller.

Modules, one per file:

| file | module | content |
|---|---|---|
| wrappers.dfy | `Wrappers`, `Errors` | `Option`, `Result`; the error kinds the code raises |
| text.dfy | `Text` | `str.split`, `str.find`, `lower`, decimal digits |
| bytes.dfy | `Bytes` | bytes, 16-bit big-endian fields, UTF-8 encoding, `recv` |
| varint.dfy | `Varint` | base 128 varints and a reader for them |
| fields.dfy | `Fields` | field encoders, the StreamInfoReq message, a field parser |
| packet.dfy | `VtmPacket` | packet header encode/decode, `_parse_header` |
| session.dfy | `Session` | regions, token padding, device and relay lookup |
| negotiation.dfy | `Negotiation` | stream URL, request, reply, redirect extraction |
| reader.dfy | `PipeStreamer` | the read loop of `stream_to_pipe` |
| segments.dfy | `Segments` | `_cleanup_segments` |
| manager.dfy | `StreamManager` | the manager's transitions and `do_GET` |

The socket is modelled as the byte sequence the peer sends. `recv(n)` takes `min(n, remaining)` bytes from it. The function that decodes the relay's reply text decodes only its ASCII bytes, as stated under Left out. Process handles are indices into a list of every process ever spawned, each with an alive flag.

Two behaviours of the code are worth stating up front:
- The region table maps six region names to four host codes ("ieu", "isgp", "ius", "isa"); a name outside the table gets "ieu".
- After an idle timeout the monitor does not stop the pipeline. It clears `running` itself, so the `stop_stream` it calls returns immediately (see Findings).

## Model

| member | source | states |
|---|---|---|
| Varint.EncodeVarint | ezviz_stream.py:68-75 | every byte but the last has the continuation bit and the last has not; values up to 127 are one byte equal to the value, larger values take more |
| Varint.EncodeVarintValue | ezviz_stream.py:68-75 | reassembling the 7-bit groups of the encoding, least significant first, gives back the value |
| Varint.EncodeVarintLength | ezviz_stream.py:71-74 | the encoding has exactly as many bytes as the value has 7-bit groups |
| Varint.DecodeEncodeVarint | ezviz_stream.py:68-75 | an encoding is read back whole from the front of any byte sequence (the encoding is prefix-free) |
| Fields.TagFields | ezviz_stream.py:80 | the tag `(field << 3) \| wire` keeps the wire type in its low 3 bits and the field number above them |
| Fields.ParseEncodedPayload | ezviz_stream.py:78-84 | a length-delimited field is its tag, the payload length as a varint, then the payload, and parses back to the same field and payload |
| Fields.ParseEncodedInt32 | ezviz_stream.py:86-90 | an int32 field is its tag with wire type 0 and the value as a varint, and parses back to the same field and value |
| Fields.ParseFieldAfterTag | ezviz_stream.py:80-83 | the tag varint at the front of a field is read whole, and the rest of the field follows it |
| Fields.EncodeString | ezviz_stream.py:78-84 | a string field parses back, with nothing left over, as that field number and the UTF-8 bytes of the string |
| Fields.EncodeInt32 | ezviz_stream.py:86-90 | a non-negative int32 field parses back, with nothing left over, as that field number and value |
| Fields.ParseVarintField | ezviz_stream.py:86-90 | a varint tag with wire type 0 followed by a varint value is read as that field and value, leaving what follows unread |
| Fields.CreateStreamInfoReq | ezviz_stream.py:93-102 | the message parses into exactly the URL field, the key field when the key is non-empty, the version, 0 and the version again |
| Fields.ParsePayloadAfterTag | ezviz_stream.py:82-84 | a length varint followed by at least that many bytes reads as that many payload bytes, with the rest left over |
| Fields.ClientVersionEncoding | ezviz_stream.py:99-101 | the version string is encoded as its 15 ASCII bytes |
| Fields.StreamInfoReqParses | ezviz_stream.py:93-102 | the StreamInfoReq bytes parse into exactly the expected field sequence |
| Fields.MessageParsesNoKey | ezviz_stream.py:96-101 | a URL field followed by the version, zero and version fields parses into exactly those four fields |
| Fields.MessageParsesKey | ezviz_stream.py:96-101 | a URL field and a key field followed by the trailer parse into exactly those five fields |
| Fields.StreamInfoReqLayout | ezviz_stream.py:93-102 | the message's fields are numbered 1, 2, 3, 4, 6 in that order, with field 2 present iff the stream key is non-empty; field 1 holds the URL; field 4 holds 0; fields 3 and 6 hold the same version string |
| Bytes.PackUint16 | ezviz_stream.py:124-131 | a 16-bit field packs into two bytes whose big-endian value is the field |
| Bytes.PackBigEndian16 | ezviz_stream.py:140 | unpacking two bytes and packing the value again gives the same two bytes |
| Bytes.Utf8 | ezviz_stream.py:81 | the UTF-8 encoding is at least as long as the string and is empty iff the string is |
| Bytes.Utf8Ascii | ezviz_stream.py:81 | an ASCII string encodes to its code points, one byte per character |
| Bytes.Utf8Concat | ezviz_stream.py:81 | encoding is a homomorphism: the encoding of a concatenation is the concatenation of the encodings |
| Bytes.Recv | ezviz-camera/stream_to_pipe.py:63 | a read takes at most the requested number of bytes, all of them when enough are left, and leaves the rest unread in order |
| VtmPacket.Encode | ezviz_stream.py:113-132 | fails (`struct.error`) iff a field or the payload length is out of range; otherwise the output is 8 + len bytes: 0x24, the channel, the big-endian length, sequence and code, then the payload |
| VtmPacket.DecodeHeader | ezviz_stream.py:135-151 | fails iff the input is not 8 bytes long or does not start with 0x24, whatever the other bytes are |
| VtmPacket.ParseHeader | ezviz_stream.py:621-631 | rejects fewer than 8 bytes and a bad magic byte; on 8 bytes it agrees with `decode_header` |
| VtmPacket.DecodePackHeader | ezviz_stream.py:124-151 | decoding a packed header gives its fields back |
| VtmPacket.PackDecodedHeader | ezviz_stream.py:135-151 | a header that decodes is the packing of what it decodes to |
| VtmPacket.EncodeDecodeHeader | ezviz_stream.py:113-151 | the first 8 bytes of an encoded packet decode to its channel, payload length, sequence and code, and the payload follows them |
| VtmPacket.BadMagicRejected | ezviz_stream.py:142-143 | an 8-byte header with a wrong first byte is rejected by both decoders |
| Text.Split | ezviz_stream.py:265 | `split` gives one more part than there are separators, no part contains the separator, and joining the parts restores the string |
| Text.SplitHead | ezviz_stream.py:596 | the first part of a split is the text before the first separator |
| Text.SplitPrefix | ezviz_stream.py:265 | a separator-free prefix followed by the separator splits off as the first part |
| Text.SplitHeadKeepsPrefix | ezviz_stream.py:595-596 | a text that starts with a NUL-free scheme keeps the whole scheme in the part before the first NUL |
| Text.FindFrom | ezviz_stream.py:595 | `find` reports the first occurrence, or none when the pattern does not occur |
| Text.FindExtend | ezviz_stream.py:595 | appending text after the first occurrence does not move it |
| Text.NatToDecimal | ezviz_stream.py:318-321 | `str(n)` is a non-empty run of ASCII digits whose value is `n`, starting with 0 iff `n` is 0, so with no leading zero |
| Text.DecimalCanonical | ezviz_stream.py:318-321 | a non-empty digit run without a leading zero is exactly `str` of its value, so `str` is the inverse of reading digits back |
| Session.RegionCode | ezviz_stream.py:165 | the host code is one of the four codes; a known region gets its table entry and an unknown one gets Europe's "ieu" |
| Session.ApiUrl | ezviz_stream.py:165-166 | the API base URL is "https://api", the region code, ".ezvizlife.com"; an unknown region gets the Europe host |
| Session.SameApiUrlIffSameCode | ezviz_stream.py:165-166 | two regions get the same API base URL iff they map to the same host code |
| Session.PadBase64 | ezviz_stream.py:269-272 | the padded segment starts with the segment, its length is a multiple of 4, at most 3 characters are added and all are '=', and none are added when the length already is a multiple of 4 |
| Session.ClaimsSegment | ezviz_stream.py:260-272 | fails when the auth server is unknown; otherwise fails iff the token does not have exactly two dots; on success the padded claims length is a multiple of 4 |
| Session.ClaimsOfThreePartToken | ezviz_stream.py:265-272 | a token `header.claims.signature` yields its claims segment, padded |
| Session.FindResource | ezviz_stream.py:561-568 | the loop finds exactly the first resource with the serial and a positive resource type (absent counts as 0), as the recursive reference `FirstSelectable` picks it; it fails as not found iff there is none |
| Session.FirstSelectable | ezviz_stream.py:561-568 | gives an index iff some resource is selectable, and that index is the unique one with a selectable resource and none before it |
| Session.SelectedRelay | ezviz_stream.py:567-575 | for a listing: no selectable resource fails as device not found; a first selectable resource whose id has no relay entry fails as relay info not found; otherwise the result is the relay entry of the first selectable resource |
| Session.RelayAddress | ezviz_stream.py:556-575 | no listing fails as list unavailable; otherwise the result is the relay of the first selectable resource: device not found iff none is selectable, relay info not found iff its id has no relay entry, and otherwise that entry |
| Session.FirstToken | ezviz_stream.py:581-585 | fails iff the token request returned nothing or an empty list; otherwise gives the first token |
| Negotiation.BuildStreamUrl | ezviz_stream.py:315-322 | the URL starts with `ysproto://` and contains no NUL unless the host, serial or token does |
| Negotiation.BuildStreamUrlParses | ezviz_stream.py:315-322 | for a non-empty host without a colon, the redirect pattern matches at the start of the built URL and parses the host and port written into it back out |
| Negotiation.StreamQuery | ezviz_stream.py:319-321 | the query part starts with `/`, so it closes the port group, and holds no NUL unless the serial or the token does |
| Negotiation.CreateStreamRequest | ezviz_stream.py:615-619 | fails with `struct.error` iff the message is longer than 65535 bytes; otherwise its header says an unencrypted message, sequence 0, code 0x13b and the message length, and its payload parses as a StreamInfoReq without a stream key |
| Negotiation.FramedRequest | ezviz_stream.py:113-151 | a framed request starts with a header holding the channel, payload length, sequence 0 and code, and its payload parses as the message fields |
| Negotiation.ReadResponse | ezviz_stream.py:331-338 | fails iff fewer than 8 bytes arrive or the first is not 0x24; otherwise the input is the header, a body of min(length, available) bytes, and the unread rest |
| Negotiation.ReadEncodedResponse | ezviz_stream.py:331-338 | a reply framed by `encode` is read back as its header and payload, leaving what follows unread |
| Negotiation.DecodeText | ezviz_stream.py:594 | a single ASCII byte decodes to its character and a single non-ASCII byte to nothing; the decoded text keeps every byte iff all are ASCII, and then each character has the byte's code |
| Negotiation.DecodeTextConcat | ezviz_stream.py:594 | decoding works byte by byte: the text of a concatenation is the concatenation of the texts, whatever bytes either part holds |
| Negotiation.FramedBodyText | ezviz_stream.py:594 | a body made of arbitrary bytes, an ASCII URL, a NUL and arbitrary bytes decodes to the text of the first part, the URL, the NUL and the text of the last part |
| Negotiation.DecodeAsciiText | ezviz_stream.py:594 | decoding the UTF-8 encoding of an ASCII string gives the string back |
| Negotiation.ExtractRedirect | ezviz_stream.py:595-596 | the extracted URL contains no NUL; without the scheme in the reply it is at most one character (the slice from -1) |
| Negotiation.RedirectAtScheme | ezviz_stream.py:595-596 | when the scheme occurs, the URL is the text from its first occurrence up to the first NUL or the end, and it starts with the scheme |
| Negotiation.ExtractFramedRedirect | ezviz_stream.py:594-596 | a reply text holding a URL after text without the scheme and before a NUL yields exactly that URL |
| Negotiation.IndexFrom | ezviz_stream.py:599 | the host group ends at the first colon after it |
| Negotiation.DigitsEnd | ezviz_stream.py:599 | the port group is the longest run of digits after the colon |
| Negotiation.MatchAt | ezviz_stream.py:599 | a match at an offset is text `ysproto://host:digits/` there, with a non-empty colon-free host and the digits' value as the port |
| Negotiation.MatchAtComplete | ezviz_stream.py:599 | wherever text of the shape `ysproto://host:digits/` occurs, the pattern matches there with exactly that host and the digits' value (the converse of `MatchAt`) |
| Negotiation.SearchFrom | ezviz_stream.py:599 | a search result is a match at some offset at or after the start; without the scheme there is none |
| Negotiation.SearchFromLeftmost | ezviz_stream.py:599 | `re.search` semantics: a result is the match at the leftmost matching offset, and there is no result iff no offset matches |
| Negotiation.ParseRedirect | ezviz_stream.py:599-601 | succeeds iff the pattern matches somewhere, with the groups of the leftmost match; otherwise fails as redirect not found; a URL without the scheme fails |
| Negotiation.MatchHostPort | ezviz_stream.py:599-601 | `ysproto://host:digits/...` matches at its start and the redirect parses to the host and the digits' value |
| Negotiation.RedirectFromReply | ezviz_stream.py:593-606 | a reply that cannot be read fails; otherwise it fails iff the pattern finds no match in the extracted URL, and a success is that URL with the host and port the pattern parses from it |
| Negotiation.RedirectFromFramedReply | ezviz_stream.py:593-606 | a framed relay reply whose body is any bytes, then a stream URL, a NUL and any bytes, yields that URL and the host and port written into it, provided the first occurrence of the scheme in the decoded text is where the URL starts |
| Negotiation.GetStreamInfo | ezviz_stream.py:544-606 | each failure in the order of the source: not connected, no listing, no device, no relay entry, then the token request's own checks (auth server unset, a session token without three dot-separated parts, ezviz_stream.py:259-267), no tokens, a request too long to frame; when every step succeeds the result is the redirect read from the reply, and only then |
| Negotiation.StreamInfoVia | ezviz_stream.py:567-593 | a failed relay lookup is passed on; then a failure of the token request's auth-server or session-token check (ezviz_stream.py:259-267) is passed on, no tokens fails as tokens unavailable, a request too long to frame fails with `struct.error`, and otherwise the result is the redirect read from the reply; success implies a relay, a well-formed session token and a token |
| Negotiation.SendStreamRequest | ezviz_stream.py:588-593 | the request built from the relay, serial, first token and timestamp fails with `struct.error` iff it does not fit the 16-bit length; otherwise the result is the redirect read from the reply |
| PipeStreamer.ReadBody | ezviz-camera/stream_to_pipe.py:75-82 | the body loop reads min(length, available) bytes and leaves the rest unread |
| PipeStreamer.NextStep | ezviz-camera/stream_to_pipe.py:63-82 | a turn closes iff fewer than 8 bytes are left; it skips iff 8 bytes are left and the first is not 0x24, dropping exactly those 8; a read packet has a header that decodes, then a body of min(length, available) bytes, then the rest |
| PipeStreamer.Demux | ezviz-camera/stream_to_pipe.py:61-96 | the loop never writes more than it reads, stops on a short header with fewer than 8 bytes, and stops for the pipe only when the pipe refuses the next write |
| PipeStreamer.Frame | ezviz_stream.py:113-132 | a framed packet is its 8-byte header plus its body |
| PipeStreamer.ReadFrame | ezviz-camera/stream_to_pipe.py:63-82 | a framed packet is read back as its channel and body |
| PipeStreamer.DemuxShort | ezviz-camera/stream_to_pipe.py:63-66 | fewer than 8 bytes end the loop, reporting how many arrived |
| PipeStreamer.DemuxPass | ezviz-camera/stream_to_pipe.py:68-85 | a turn that skips a bad header, or reads a body that is not written, goes on with the bytes after it and the same count |
| PipeStreamer.DemuxWrite | ezviz-camera/stream_to_pipe.py:85-90 | a turn whose body is written while the pipe is open outputs that body first and goes on with the count one higher |
| PipeStreamer.DemuxFrame | ezviz-camera/stream_to_pipe.py:68-91 | one packet's body is written iff it is on channel 0x01 and non-empty, and the loop continues after it |
| PipeStreamer.DemuxFrames | ezviz-camera/stream_to_pipe.py:61-91 | on framed packets the output is the in-order concatenation of the non-empty channel 0x01 bodies, packets on other channels are consumed without output, and `packet_count` is the number written |
| PipeStreamer.DemuxSkipsBadHeader | ezviz-camera/stream_to_pipe.py:68-72 | an 8-byte chunk not starting with 0x24 is dropped and reading resumes right after it |
| PipeStreamer.DemuxPipeLimit | ezviz-camera/stream_to_pipe.py:85-96 | a pipe closing after n writes receives a prefix of what an open pipe would; the count is min(n, unlimited count); the loop stops for the pipe iff it would otherwise write more |
| PipeStreamer.StreamToPipe | ezviz-camera/stream_to_pipe.py:41-96 | the output is never longer than the input; with an open pipe the run ends because the peer closed |
| PipeStreamer.StreamToPipeShort | ezviz-camera/stream_to_pipe.py:41-66 | fewer than 8 bytes in all: nothing is written and the loop stops at once with 0 bytes received |
| PipeStreamer.StreamToPipeBadHeader | ezviz-camera/stream_to_pipe.py:41-51 | an initial response without the magic byte is only a warning; the loop starts right after its 8 bytes |
| PipeStreamer.StreamToPipeGoodHeader | ezviz-camera/stream_to_pipe.py:41-51 | a well-formed initial response has its body read and dropped; the loop starts right after it |
| PipeStreamer.StreamToPipeFrames | ezviz-camera/stream_to_pipe.py:41-91 | after an initial response of any kind, framed packets are written out as their non-empty channel 0x01 bodies, counted |
| Segments.SegmentsOf | ezviz-camera/stream_manager.py:165 | the glob keeps exactly the `.ts` entries of the directory |
| Segments.Insert | ezviz-camera/stream_manager.py:165 | inserting into a time-ordered list keeps it ordered and adds exactly the one entry |
| Segments.InsertSorted | ezviz-camera/stream_manager.py:165 | putting the oldest entry back in front of an ordered insertion keeps the order |
| Segments.SortByMtime | ezviz-camera/stream_manager.py:165 | the sort is a permutation of its input, ordered by modification time |
| Segments.DeleteInOrder | ezviz-camera/stream_manager.py:166-169 | deletion goes in order and stops at the first entry that cannot be deleted |
| Segments.AllButNewest | ezviz-camera/stream_manager.py:166 | `segments[:-30]` is the prefix without the last 30, and empty when there are at most 30 |
| Segments.Cleanup | ezviz-camera/stream_manager.py:162-169 | only `.ts` files that could be deleted are deleted; with at most 30 segments nothing is |
| Segments.CleanupDeletesOldest | ezviz-camera/stream_manager.py:162-169 | the deleted files are a prefix of the segments sorted by time, none newer than any kept; at least min(n, 30) remain; exactly n - 30 go when all deletions succeed; otherwise deletion stopped at an entry that could not be deleted |
| StreamManager.IsStreaming | ezviz-camera/stream_manager.py:171-174 | streaming iff running and the encoder handle names a live process |
| StreamManager.StartStream | ezviz-camera/stream_manager.py:42-104 | afterwards the manager is streaming with activity now; while streaming only the activity time changes; otherwise the count goes up by one, a new live capture and encoder pair is appended, and the handles name it |
| StreamManager.Kill | ezviz-camera/stream_manager.py:116-128 | terminating a handle's process leaves every other process as it was |
| StreamManager.StopStream | ezviz-camera/stream_manager.py:106-131 | a no-op when not running; otherwise not running, both handles cleared, both processes terminated, and no other process touched |
| StreamManager.TouchActivity | ezviz-camera/stream_manager.py:133-135 | the activity time becomes now and nothing else changes |
| StreamManager.ProcessExit | ezviz-camera/stream_manager.py:174 | a process exiting on its own clears only its alive flag |
| StreamManager.MonitorTick | ezviz-camera/stream_manager.py:137-160 | running is cleared iff it was set and more than `timeout` seconds have passed (so exactly `timeout` keeps streaming); handles and processes are untouched; segments are cleaned up only on that path |
| StreamManager.CorrectedMonitorTick | ezviz-camera/stream_manager.py:137-160 | an idle stream is stopped: not running, handles cleared, both processes terminated, segments cleaned up; otherwise nothing changes |
| StreamManager.HandleGet | ezviz-camera/stream_manager.py:195-217 | a playlist or segment request leaves the manager streaming with activity now, counting a restart iff it was not streaming; other paths leave it unchanged; `/status` reports `is_streaming`; everything else is served as a file |
| StreamManager.StatusHasNoSegment | ezviz-camera/stream_manager.py:200-209 | `/status` is not a playlist or segment request |
| StreamManager.StartTwiceCountsOnce | ezviz-camera/stream_manager.py:45-50 | two consecutive starts count at most one restart and spawn at most one pair |
| StreamManager.StartSpawnsEncoder | ezviz-camera/stream_manager.py:79-96 | starting when not streaming appends a live encoder named by the handle and leaves the older processes alone |
| StreamManager.ApplyKeepsConsistent | ezviz-camera/stream_manager.py:85-131 | every transition keeps `process` naming an encoder and `_python_proc` a capture |
| StreamManager.RunKeepsConsistent | ezviz-camera/stream_manager.py:42-217 | every reachable state keeps the handles consistent |
| StreamManager.IdleTickLeavesPipelineAlive | ezviz-camera/stream_manager.py:148-157 | after an idle tick `is_streaming` is false, yet the encoder handle is set and its process alive; the next start leaves two live encoders |
| StreamManager.IdleRestartRunsTwoEncoders | ezviz-camera/stream_manager.py:148-157 | with a 30 s timeout, a playlist or segment request at 0 s, ticks at 30 s and 31 s, and a request at 32 s leave two encoders running after two starts; the tick at exactly 30 s does not stop the stream |
| StreamManager.PlaylistTriggers | ezviz-camera/stream_manager.py:197-200 | a request for `/stream.m3u8` triggers the stream |
| StreamManager.GetStartsWhenIdle | ezviz-camera/stream_manager.py:200-204 | a playlist or segment request while not streaming records the activity and then starts the stream |
| StreamManager.TickOnlyClearsRunning | ezviz-camera/stream_manager.py:142-157 | a monitor tick as written changes nothing but `running`, which it clears iff the stream is idle |
| StreamManager.StartKeepsOnePipeline | ezviz-camera/stream_manager.py:45-96 | starting keeps at most one live encoder, the one the handle names |
| StreamManager.CorrectedStepKeepsOnePipeline | ezviz-camera/stream_manager.py:42-217 | with the corrected monitor, every event keeps at most one live encoder and no handle while stopped |
| StreamManager.CorrectedManagerKeepsOnePipeline | ezviz-camera/stream_manager.py:42-217 | with the corrected monitor, any run never has two live encoders |
| StreamManager.InitOnePipeline | ezviz-camera/stream_manager.py:34-38 | the initial state runs no pipeline |

## Left out

- HTTP calls to the vendor API (login, server info, device list, token request), MD5 hashing, and the base64 and JSON decoding of the token claims. These are network and library work. The model starts from their results: an optional device listing and an optional token list.
- Sockets: connect, send, timeouts and close. `recv` is modelled as taking `min(n, remaining)` bytes, so a short read means the peer sent nothing more. A socket timeout, which ends the loop with an error, is not modelled.
- Processes, threads, the lock and the stop event. Each manager method is one atomic transition. Termination always succeeds; the 5-second wait and the escalation to kill are not modelled. The monitor thread is not represented: a tick is a no-op while not running, and every start makes sure the monitor runs.
- Wall-clock time. `time.time()` is a float and `time.sleep` is real time; time is an integer number of seconds passed in. The 2-second sleep after a start in `do_GET` is not modelled.
- The session identifier in segment file names (`int(time.time())` and the restart count). It affects only names.
- `_capture_stream` (ezviz_stream.py:420-465): it is bounded by wall-clock time and duplicates the pipe streamer's loop.
- `ezviz-camera/http_server.py` is not part of this model. Neither are the static file serving, CORS headers, logging, `run_on_demand_server`, argument parsing and printing.
- Negotiation.DecodeText: `decode('utf-8', errors='ignore')` is modelled for ASCII bytes only. Non-ASCII bytes are dropped rather than decoded into characters, so a reply whose URL contains non-ASCII characters is not modelled faithfully.
- Negotiation.ParseRedirect: the source raises `AttributeError` on `None.group`. It is modelled as the error `RedirectNotFound`. The port group accepts ASCII digits only. Python's decoding keeps non-ASCII digits, which `\d` matches and `int()` accepts; the model's decoding drops every non-ASCII byte, so such a port is not modelled.
- Negotiation.GetStreamInfo: of the token request (ezviz_stream.py:259-294) only the auth-server check and the three-part session token check are modelled. The base64 and JSON decoding of the claims, the "No 's' field" failure (ezviz_stream.py:274-278) and the HTTP call are not: their outcome is the given optional token list.
- Negotiation.BuildStreamUrl: a port read from JSON is any integer; the model takes a natural number.
- Session.RelayAddress: a listing without a `VTM` key raises `KeyError` in the source. The model always has a relay map.
- Segments.SortByMtime: it is proved to be an ordered permutation. The stability of Python's sort for equal times is built in but not stated. A `stat` failure during sorting, which abandons the cleanup, is not modelled.
- StreamManager.HandleGet: the handler's manager is always set. The branch for a missing manager (status false, no trigger) is not modelled.
- Varint.EncodeVarint: for a negative value the source emits the single byte `value & 0x7f`, and the model does the same. The round-trip lemmas are stated for natural numbers only.

## Findings

| source | as written | input that shows it | evidently intended | confidence | as-written member | corrected member |
|---|---|---|---|---|---|---|
| ezviz-camera/stream_manager.py:148-157 | on idle the monitor sets `running = False` and then calls `stop_stream`, which returns at once because `running` is false; the processes keep running and the handles stay set | idle timeout 30 s: a playlist request at 0 s, monitor ticks at 30 s and 31 s, another request at 32 s; two encoder processes run (`IdleTickLeavesPipelineAlive` states the general case) | `stop_stream` terminates both processes and clears the handles, so at most one pipeline runs | not executed | StreamManager.IdleRestartRunsTwoEncoders | StreamManager.CorrectedManagerKeepsOnePipeline |
