# SOCKS5 wire codec

A Dafny model of the message codec of a small SOCKS5 proxy (RFC 1928).
The code it models is written in Python. It covers:

- the method-selection exchange (section 3);
- the request (section 4) and its three address forms (section 5);
- the reply (section 6);
- the UDP request header (section 7).

It models two codecs:

- **parser.py** has a cursor class `Parser` that reads one field after
  another from a byte string, and a class `Packer` with an append-only
  byte buffer. Both work in network byte order. These two classes are the
  classes `Cursor.Parser` and `Cursor.Packer`, with their fields and
  `modifies` frames. The seven message functions built on them are methods
  in `Messages`. Each method is proved equal to a layout function stated
  by octet offsets (`HandShakeLayout`, `ConnectionLayout`, `UdpLayout`,
  `UdpReplyLayout`, `AssociateReplyLayout`). `MessageProperties` proves
  what those layouts promise.
- **socks5.py** is the earlier codec. It cuts each field out with a fixed
  slice and hands it to `struct.unpack`. It is pure and is modelled by
  functions in `Legacy`, together with lemmas that compare it with
  parser.py.

The Python library behaviour these codecs rely on is modelled explicitly:

- `Py`: Python's objects, its exceptions (as a `Result`) and slice clamping.
- `Struct`: the 'B', 'H' and 's' codes of `struct.pack`/`struct.unpack` in
  either byte order. An unpack raises unless the buffer has exactly the
  format's size. Packing raises on a wrong argument count, a non-integer
  or an out-of-range value.
- `Text`: `str(i)`, `int(s)` (whitespace, sign, digit groups with
  underscores), `s.split(".")` and `".".join(...)`.

Quirks of the source are modelled as written and stated as lemmas:

- RFC 1928 section 5 lays out an IPv6 address as 16 octets. parser.py
  reads it as sixteen two-octet words, which is 32 octets.
- In socks5.py, the request decoder demands that the port be the final
  two octets, so it refuses trailing data.
- In socks5.py, the reply's port is packed in the host's byte order.
  RFC 1928 puts it in network byte order.
- An unknown request address tag raises a bare `Exception`
  (parser.py:60-61, socks5.py:48-49).
- In parser.py, the UDP decoder raises `UnboundLocalError` for IPv6 and for
  unknown tags.
- A decoded address goes back into a reply only in the IPv4 form. A domain
  destination cannot be packed back into a UDP reply, because its address
  is `bytes`. The IPv6 form decodes to a tuple of words, and the UDP
  decoder does not bind one at all.

## Model

| member | source | states |
|---|---|---|
| Struct.Unpack | parser.py:178 | `struct.unpack` succeeds exactly when the buffer has `calcsize` octets, and otherwise raises `struct.error` |
| Struct.Fit | parser.py:203 | "ns" packing cuts the byte string to n octets or pads it with zero octets, keeping its prefix |
| Struct.EncodeDecode | parser.py:200 | a 'B' or 'H' value decoded from its octets is in range and re-encodes to the same octets, in either byte order |
| Struct.UnpackOfPack | parser.py:200-203 | packing a canonical argument list succeeds with `calcsize` octets, and unpacking those octets gives the arguments back |
| Struct.PackOfUnpack | parser.py:178 | whatever unpacks is canonical, and packing it gives the buffer back |
| Struct.PackLength | parser.py:200-203 | a successful pack has `calcsize` octets, and any failure is `struct.error` |
| Text.DecimalCanonical | parser.py:51 | `str(n)` gives canonical digits (no leading zero) denoting n |
| Text.CanonicalIsDecimal | parser.py:51 | a property of `str()` itself, stated as the inverse of `DecimalCanonical`: canonical digits are `str` of the number they denote |
| Text.ParseDecimal | parser.py:128 | `int(str(n))` is n for every natural number |
| Text.ParseIntToStr | parser.py:128 | `int(str(i))` is i for every integer, negative ones included |
| Text.ParseZeroPadded | parser.py:144 | `int()` also accepts a leading zero: `int("0" + str(n))` is n |
| Text.IntToStrNoDot | parser.py:51 | `str(i)` is non-empty and contains no dot |
| Text.SplitDotFree | parser.py:128 | splitting a dot-free prefix followed by text t puts the prefix onto the first piece of t's split |
| Text.SplitOfJoin | parser.py:128 | `".".join(parts).split(".")` gives back any non-empty list of dot-free parts |
| Text.JoinOfSplit | parser.py:128 | a property of `str.split` and `str.join` themselves, stated as the inverse of `SplitOfJoin`: `".".join(s.split("."))` is s for every string |
| Text.ParseIntsOfStr | parser.py:144 | `[int(p) for p in [str(i) for i in xs]]` is xs |
| Text.DottedRoundTrip | parser.py:128 | parsing the pieces of `".".join(str(i) for i in xs)` gives xs back |
| Cursor.Parser.constructor | parser.py:163-165 | a new parser holds the data with its index at 0 |
| Cursor.Parser.NextValue | parser.py:175-186 | succeeds exactly when size × num octets remain, and raises without moving otherwise; advances by exactly that many octets; returns a byte string for 's', a scalar for one value, and a tuple of octets or big-endian words otherwise |
| Cursor.Parser.RemData | parser.py:188-189 | returns the octets after the index, which together with the consumed prefix make up the data |
| Cursor.FieldValues | parser.py:176-178 | what "!nB", "!nH" and "!ns" unpack from a buffer of the right size |
| Cursor.Packer.constructor | parser.py:193-194 | a new packer's buffer is empty |
| Cursor.Packer.Append | parser.py:196-200 | the two-argument form appends one value's network-order octets when 'B'/'H' accepts it or the value is a byte string for 's'; otherwise it raises `struct.error` and leaves the buffer as it was |
| Cursor.Packer.AppendMany | parser.py:201-203 | the three-argument form succeeds exactly when num values in range are given (one byte string for 's'); it appends their octets, or the byte string cut/padded to num; on failure it raises `struct.error` with the buffer unchanged |
| Cursor.PackField | parser.py:200-203 | when "!nB", "!nH" and "!ns" pack successfully, and the octets they produce |
| Messages.UnpackHandShake | parser.py:4-16 | returns `HandShakeLayout`: VER, NMETHODS, and the methods (an int when exactly one), raising `struct.error` when fewer than 2 + NMETHODS octets exist |
| Messages.PackHandShakeServer | parser.py:19-32 | always `05 00`: "no authentication required" |
| Messages.NextDest | parser.py:49-56 | the IPv4 and domain DST.ADDR/DST.PORT read at the parser's index agree with `DestLayout`, including its errors, and leave the index just after the port |
| Messages.UnpackConnection | parser.py:36-62 | returns `ConnectionLayout` for every input: the three address forms, `struct.error` on short input, and `Exception` on an unknown tag |
| Messages.PackConnectionReply | parser.py:65-86 | always the placeholder `05 00 00 01 00 00 00 00 04 40` |
| Messages.ParseUdpRelay | parser.py:89-113 | returns `UdpLayout`: RSV, FRAG, ATYP, the destination, and the rest of the datagram as payload; `UnboundLocalError` for any tag other than 1 or 3 |
| Messages.AppendAddressPort | parser.py:128-130 | appends the four octets of a dotted-quad string and the port exactly when `AddressPortOctets` succeeds, and raises the same exception otherwise |
| Messages.QuadObjs | parser.py:129 | "!4B" accepts `[int(i) for i in ...]` exactly when it is four integers in 0..255, and then packs those integers |
| Messages.PackUdpRelay | parser.py:116-131 | returns `UdpReplyLayout`: 00 00 00 ATYP, four address octets, the port, then the payload, raising as `split`, `int` and `struct.pack` do |
| Messages.PackUdpAssociateReply | parser.py:134-146 | returns `AssociateReplyLayout`: 05 00 00 01, the four address octets and the port |
| MessageProperties.HandShakeDecodes | parser.py:12-16 | a VER NMETHODS METHODS message decodes to its fields, with a single method as a scalar |
| MessageProperties.HandShakeConsumes | parser.py:12-16 | the decoder reads exactly 2 + NMETHODS octets: later octets are ignored, and any shorter prefix raises |
| MessageProperties.ConnectionIPv4 | parser.py:49-52 | an IPv4 request decodes to the dotted decimal of its four octets and its big-endian port, whatever follows |
| MessageProperties.ConnectionIPv4Example | parser.py:44-52 | `05 01 00 01 01 02 03 04 00 50` is CONNECT to "1.2.3.4" port 80 |
| MessageProperties.DottedExample | parser.py:51 | the octets 1, 2, 3, 4 are written "1.2.3.4" |
| MessageProperties.ConnectionDomain | parser.py:53-56 | a domain request decodes to the raw name octets after the length octet and then the port, whatever follows |
| MessageProperties.ConnectionIPv6Words | parser.py:57-59 | an IPv6 request is read as sixteen big-endian words (32 octets) followed by the port |
| MessageProperties.ConnectionIPv6Short | parser.py:58 | so every IPv6 request shorter than 38 octets raises, including the 22-octet form of RFC 1928 section 5 |
| MessageProperties.ConnectionBadTag | parser.py:60-61 | a tag other than 1, 3 or 4 raises the bare `Exception` |
| MessageProperties.DestPrefix | parser.py:49-59 | the destination depends only on the octets up to its end and needs all of them |
| MessageProperties.ConnectionConsumes | parser.py:44-62 | a request's decoder uses exactly the octets up to the end of DST.PORT: trailing octets are ignored, and a shorter prefix raises |
| MessageProperties.ConnectionReplyDecodes | parser.py:73-86 | the placeholder CONNECT reply is 10 octets and reads back as a success bound to "0.0.0.0" port 1088 |
| MessageProperties.QuadOctets | parser.py:128-130 | the address text `str` writes for four octets packs back to those four octets, followed by the port |
| MessageProperties.AssociateReplyRoundTrip | parser.py:134-146 | the UDP ASSOCIATE reply for a dotted quad is 10 octets and reads back as an IPv4 reply with that address and port |
| MessageProperties.AssociateReplyPlaceholder | parser.py:134-146 | with "0.0.0.0" and port 1088 it is exactly the CONNECT reply |
| MessageProperties.AssociateReplyHostName | parser.py:144 | a host name such as "localhost" makes both the ASSOCIATE reply and the UDP reply, for any tag and payload, raise `ValueError` |
| MessageProperties.UdpRoundTrip | parser.py:116-131 | packing an IPv4 UDP header and parsing it gives RSV 0, FRAG 0, the tag, the address text, the port and exactly the payload |
| MessageProperties.UdpReplyEchoesDestination | parser.py:89-113 | the reply to a parsed IPv4 datagram repeats its six destination octets before the answer |
| MessageProperties.UdpDomainReplyRaises | parser.py:107 | a parsed domain destination is a byte string, so packing the reply for it raises `TypeError` |
| MessageProperties.UdpTruncated | parser.py:97-108 | a UDP header cut short anywhere before the end of DST.PORT raises `struct.error`, so no partial header is returned |
| MessageProperties.UdpUnboundTag | parser.py:109-113 | any tag other than 1 or 3, IPv6 included, raises `UnboundLocalError` |
| MessageProperties.UdpNonCanonicalQuad | parser.py:128 | a zero-padded quad such as "01.2.3.4" packs like the canonical text, so parsing gives back the canonical text, not the text given |
| MessageProperties.PaddedQuadInts | parser.py:128 | `int()` reads a zero-padded first octet as the octet |
| Legacy.UnpackOctets | socks5.py:36 | "nB" unpacks exactly n octets and raises otherwise |
| Legacy.UnpackPort | socks5.py:38 | "!H" unpacks exactly two octets as a big-endian value and raises otherwise |
| Legacy.UnpackName | socks5.py:41 | "{n}s" unpacks exactly n octets as a byte string and raises otherwise |
| Legacy.UnpackHandShake | socks5.py:16-20 | succeeds exactly when the message has 2 + NMETHODS octets, no more and no fewer; the methods always come back as a tuple |
| Legacy.PackHandShakeServer | socks5.py:23-27 | always `05 00` |
| Legacy.PackOctets | socks5.py:27 | "nB" packs n octet values to themselves |
| Legacy.UnpackConnection | socks5.py:30-50 | fewer than four octets raises `struct.error`; IPv4 succeeds exactly at 10 octets, domain exactly at 7 + length, IPv6 exactly at 22 (16 octets); the port is the last two octets; any other tag raises `Exception` |
| Legacy.PackConnectionReply | socks5.py:53-61 | ten octets: `05 00 00 01 00 00 00 00` and then port 1088 in the host's byte order |
| Legacy.ReplyPack | socks5.py:54-61 | "BBBB4BH" packs the placeholder reply's nine values to those octets |
| Legacy.RunOctets | socks5.py:61 | 'B' packs each octet value to itself in either byte order |
| Legacy.ReplyByteOrder | socks5.py:53-61 | on a big-endian host the reply is parser.py's; on a little-endian host the port octets are swapped and the reply advertises port 16388 |
| Legacy.IPv6Disagreement | socks5.py:44-47 | a 22-octet IPv6 request as RFC 1928 lays it out decodes in socks5.py (16 octets) but raises in parser.py |
| Legacy.RequestAgreement | socks5.py:30-43 | for IPv4 and domain requests, socks5.py decodes exactly when parser.py does and no octet follows the port, and then both give the same fields |
| Legacy.HandShakeAgreement | socks5.py:16-20 | socks5.py decodes a handshake exactly when parser.py does and no octet trails; they agree on every field, except that parser.py returns a single method as an int |

## Left out

- server.py and the networking half of socks5.py (sockets, `curio` tasks, the UDP relay loop, copying between connections) are I/O and concurrency. The request and reply values they exchange are modelled; their sending and receiving are not.
- The `Char` and `Short` field constants (parser.py:155, 157) are not modelled, because no message function uses them.
- The `byte_order` argument of `Parser.__init__` and its `RuntimeError` (parser.py:166-173) are not modelled, because every caller uses the network default.
- `Packer.append` with other than two or three arguments silently does nothing (parser.py:196-203). The model has `Append` and `AppendMany` only, because no caller uses any other count.
- Python's `int()` also accepts non-ASCII digits and Unicode whitespace. The model has ASCII only.
- CPython 3.11 and later make `int()` raise `ValueError` on a decimal string of more than 4300 digits. The model has no such limit and parses the string, so for such an address `pack_udp_relay` and `pack_udp_associate_reply` raise `struct.error` in the model where Python raises `ValueError`.
- No modelled format puts an 'H' at an odd offset, so native alignment in socks5.py's unprefixed formats is not modelled.
- socks5.py's "B" * nmethods format is modelled as the equivalent "nB".
- `print(addr)` at socks5.py:42 is output only and is left out.
- `Exception`'s message text and the module-level printing at parser.py:206-208 are left out.
- The `str`/`bytes` distinction is kept only where it changes behaviour: `split(".")` on `bytes` raises `TypeError`, and on any other object `AttributeError`.
- The `atyp` argument of `pack_udp_relay` is modelled as an integer, so a non-integer tag, which would raise `struct.error`, is not modelled.
- The port argument of `pack_udp_relay` and `pack_udp_associate_reply` is modelled as an integer, so a non-integer port, which would raise `struct.error`, is not modelled.
- The `data` argument of `pack_udp_relay` is modelled as a byte string, so the `TypeError` that `+` raises for anything else is not modelled.
- `HAND_SHAKE_CLIENT` and `HAND_SHAKE_CLIENT_FORMAT` (socks5.py:13-14) are unused constants and are left out.
