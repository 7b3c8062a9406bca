/** What parser.py's message layouts promise: the fields each decoder reads
    and the octets it consumes, failure on short input and on unknown tags,
    the fixed replies, and the UDP header round trip. */
module MessageProperties {
  import opened Py
  import opened Text
  import opened Cursor
  import opened Messages

  // ---------------------------------------------------------------------
  // Method selection (RFC 1928 section 3)

  /** A client's VER NMETHODS METHODS message decodes to its fields, with
      the methods as a scalar when exactly one is offered. */
  lemma HandShakeDecodes(ver: byte, methods: seq<byte>, extra: seq<byte>)
    requires |methods| < 256
    ensures HandShakeLayout([ver, |methods|] + methods + extra) ==
      Ok(HandShake(ver, |methods|, if |methods| == 1 then Int(methods[0]) else Tuple(ByteObjs(methods))))
  {
    var data := [ver, |methods|] + methods + extra;
    assert data[2..2 + |methods|] == methods;
  }

  /** The decoder consumes exactly 2 + NMETHODS octets: what follows them
      is ignored, and any shorter prefix raises. */
  lemma HandShakeConsumes(data: seq<byte>, extra: seq<byte>, m: nat)
    requires HandShakeLayout(data).Ok?
    ensures 2 + data[1] as int <= |data|
    ensures HandShakeLayout(data[..2 + data[1] as int] + extra) == HandShakeLayout(data)
    ensures m < 2 + data[1] as int ==> HandShakeLayout(data[..m]) == Err(StructError)
  {
    var n := 2 + data[1] as int;
    var d' := data[..n] + extra;
    assert d'[2..n] == data[2..n];
    if m < n && m >= 2 {
      assert data[..m][1] == data[1];
    }
  }

  // ---------------------------------------------------------------------
  // Requests (sections 4 and 5)

  /** An IPv4 request decodes to the dotted decimal of its four address
      octets and a big-endian port; later octets are ignored. */
  lemma ConnectionIPv4(ver: byte, cmd: byte, rsv: byte, octets: seq<byte>, port: int, extra: seq<byte>)
    requires |octets| == 4 && 0 <= port < 65536
    ensures ConnectionLayout([ver, cmd, rsv, IPV4] + octets + PortOctets(port) + extra) ==
      Ok(Request(ver, cmd, rsv, IPV4, Str(Dotted(octets)), port))
  {
    var data := [ver, cmd, rsv, IPV4] + octets + PortOctets(port) + extra;
    assert data[4..8] == octets;
  }

  /** `05 01 00 01 01 02 03 04 00 50` is a CONNECT to 1.2.3.4 port 80. */
  lemma ConnectionIPv4Example()
    ensures ConnectionLayout([5, 1, 0, 1, 1, 2, 3, 4, 0, 80]) == Ok(Request(5, 1, 0, 1, Str("1.2.3.4"), 80))
  {
    ConnectionIPv4(5, 1, 0, [1, 2, 3, 4], 80, []);
    assert PortOctets(80) == [0, 80];
    assert [5, 1, 0, 1] + [1, 2, 3, 4] + [0, 80] + [] == [5, 1, 0, 1, 1, 2, 3, 4, 0, 80];
    DottedExample();
  }

  lemma DottedExample()
    ensures Dotted([1, 2, 3, 4]) == "1.2.3.4"
  {
    DottedFour([1, 2, 3, 4]);
    SmallIntToStr(1);
    SmallIntToStr(2);
    SmallIntToStr(3);
    SmallIntToStr(4);
  }

  lemma ZeroQuadText()
    ensures Dotted([0, 0, 0, 0]) == "0.0.0.0"
  {
    DottedFour([0, 0, 0, 0]);
    SmallIntToStr(0);
  }

  /** The text of four integers is their decimals joined by dots. */
  lemma DottedFour(xs: seq<int>)
    requires |xs| == 4
    ensures Dotted(xs) == IntToStr(xs[0]) + "." + IntToStr(xs[1]) + "." + IntToStr(xs[2]) + "." + IntToStr(xs[3])
  {
    var a, b, c, d := IntToStr(xs[0]), IntToStr(xs[1]), IntToStr(xs[2]), IntToStr(xs[3]);
    assert Strs(xs) == [a, b, c, d];
    JoinFour(a, b, c, d);
  }

  lemma JoinFour(a: string, b: string, c: string, d: string)
    ensures JoinDots([a, b, c, d]) == a + "." + b + "." + c + "." + d
  {
    assert [c, d][1..] == [d];
    assert JoinDots([c, d]) == c + "." + d;
    assert [b, c, d][1..] == [c, d];
    assert JoinDots([b, c, d]) == b + "." + (c + "." + d);
    assert [a, b, c, d][1..] == [b, c, d];
    assert JoinDots([a, b, c, d]) == a + "." + (b + "." + (c + "." + d));
  }

  lemma SmallIntToStr(d: int)
    requires 0 <= d < 10
    ensures IntToStr(d) == [DigitChar(d)]
  {
  }

  /** A domain request decodes to the raw name octets after the length
      octet, then the port; later octets are ignored. */
  lemma ConnectionDomain(ver: byte, cmd: byte, rsv: byte, name: seq<byte>, port: int, extra: seq<byte>)
    requires |name| < 256 && 0 <= port < 65536
    ensures ConnectionLayout([ver, cmd, rsv, DOMAIN, |name|] + name + PortOctets(port) + extra) ==
      Ok(Request(ver, cmd, rsv, DOMAIN, Bytes(name), port))
  {
    var data := [ver, cmd, rsv, DOMAIN, |name|] + name + PortOctets(port) + extra;
    assert data[5..5 + |name|] == name;
    assert data[5 + |name|] == PortOctets(port)[0] && data[6 + |name|] == PortOctets(port)[1];
  }

  /** The IPv6 form is read as sixteen two-octet words: 32 address octets,
      not the 16 of RFC 1928 section 5, then the port. */
  lemma ConnectionIPv6Words(ver: byte, cmd: byte, rsv: byte, addr: seq<byte>, port: int, extra: seq<byte>)
    requires |addr| == 32 && 0 <= port < 65536
    ensures ConnectionLayout([ver, cmd, rsv, IPV6] + addr + PortOctets(port) + extra) ==
      Ok(Request(ver, cmd, rsv, IPV6, Tuple(Words(addr)), port))
  {
    var data := [ver, cmd, rsv, IPV6] + addr + PortOctets(port) + extra;
    assert data[4..36] == addr;
  }

  /** Hence an IPv6 request shorter than 38 octets raises, and this includes
      every request laid out as section 5 of RFC 1928 prescribes (22 octets). */
  lemma ConnectionIPv6Short(data: seq<byte>)
    requires 4 <= |data| < 38 && data[3] == IPV6
    ensures ConnectionLayout(data) == Err(StructError)
  {
  }

  /** A tag other than 1, 3 or 4 raises the bare `Exception`. */
  lemma ConnectionBadTag(data: seq<byte>)
    requires |data| >= 4 && data[3] != IPV4 && data[3] != DOMAIN && data[3] != IPV6
    ensures ConnectionLayout(data) == Err(Exception)
  {
  }

  /** DST.ADDR and DST.PORT depend only on the octets up to their end, and
      need all of them. */
  lemma {:induction false} DestPrefix(atyp: byte, data: seq<byte>, at: nat, extra: seq<byte>, m: nat)
    requires DestLayout(atyp, data, at).Ok?
    ensures DestLayout(atyp, data, at).value.end <= |data|
    ensures DestLayout(atyp, data[..DestLayout(atyp, data, at).value.end] + extra, at) == DestLayout(atyp, data, at)
    ensures m < DestLayout(atyp, data, at).value.end ==> DestLayout(atyp, data[..m], at) == Err(StructError)
  {
    var e := DestLayout(atyp, data, at).value.end;
    var d' := data[..e] + extra;
    assert d'[..e] == data[..e];
    assert forall k :: 0 <= k < e ==> d'[k] == data[k];
    if atyp == IPV4 {
      assert d'[at..at + 4] == data[at..at + 4];
    } else if atyp == DOMAIN {
      assert d'[at] == data[at];
      assert d'[at + 1..at + 1 + data[at] as int] == data[at + 1..at + 1 + data[at] as int];
      if at < m < e {
        assert data[..m][at] == data[at];
      }
    } else {
      assert d'[at..at + 32] == data[at..at + 32];
    }
  }

  /** A request's decoder consumes exactly the octets up to the end of
      DST.PORT: what follows is ignored, and any shorter prefix raises
      without returning partial fields. */
  lemma ConnectionConsumes(data: seq<byte>, extra: seq<byte>, m: nat)
    requires ConnectionLayout(data).Ok?
    ensures var e := DestLayout(data[3], data, 4).value.end;
      e <= |data| &&
      ConnectionLayout(data[..e] + extra) == ConnectionLayout(data) &&
      (m < e ==> ConnectionLayout(data[..m]) == Err(StructError))
  {
    var e := DestLayout(data[3], data, 4).value.end;
    DestPrefix(data[3], data, 4, extra, m);
    var d' := data[..e] + extra;
    assert d'[..4] == data[..4];
    if 4 <= m < e {
      assert data[..m][3] == data[3];
    }
  }

  // ---------------------------------------------------------------------
  // Replies (section 6)

  /** The CONNECT reply is a well-formed IPv4 reply: success, bound to
      0.0.0.0 port 1088, whatever the request was. */
  lemma ConnectionReplyDecodes()
    ensures |CONNECTION_REPLY| == 10
    ensures ConnectionLayout(CONNECTION_REPLY) == Ok(Request(5, 0, 0, 1, Str("0.0.0.0"), 1088))
  {
    ConnectionIPv4(5, 0, 0, [0, 0, 0, 0], 1088, []);
    assert [5, 0, 0, 1] + [0, 0, 0, 0] + PortOctets(1088) + [] == CONNECTION_REPLY;
    ZeroQuadText();
  }

  /** The octets of a dotted quad written as `str` writes it. */
  lemma QuadOctets(octets: seq<int>, port: int)
    requires IsQuad(octets) && 0 <= port < 65536
    ensures AddressPortOctets(Str(Dotted(octets)), port) == Ok([octets[0], octets[1], octets[2], octets[3]] + PortOctets(port))
  {
    DottedRoundTrip(octets);
  }

  /** The UDP ASSOCIATE reply carries the given address and port, and reads
      back as an IPv4 reply with exactly those. */
  lemma AssociateReplyRoundTrip(octets: seq<int>, port: int)
    requires IsQuad(octets) && 0 <= port < 65536
    ensures AssociateReplyLayout(Str(Dotted(octets)), port).Ok?
    ensures var b := AssociateReplyLayout(Str(Dotted(octets)), port).value;
      |b| == 10 && b[..4] == [5, 0, 0, 1] && b[4..8] == octets &&
      ConnectionLayout(b) == Ok(Request(5, 0, 0, 1, Str(Dotted(octets)), port))
  {
    QuadOctets(octets, port);
    var q: seq<byte> := [octets[0], octets[1], octets[2], octets[3]];
    assert q == octets;
    ConnectionIPv4(5, 0, 0, q, port, []);
    assert [5, 0, 0, 1] + (q + PortOctets(port)) == [5, 0, 0, IPV4] + q + PortOctets(port) + [];
  }

  /** With the address 0.0.0.0 and port 1088 it is the CONNECT reply. */
  lemma AssociateReplyPlaceholder()
    ensures AssociateReplyLayout(Str("0.0.0.0"), 1088) == Ok(CONNECTION_REPLY)
  {
    ZeroQuadText();
    ZeroAddressReply([0, 0, 0, 0]);
  }

  lemma ZeroAddressReply(zero: seq<int>)
    requires zero == [0, 0, 0, 0]
    ensures AssociateReplyLayout(Str(Dotted(zero)), 1088) == Ok(CONNECTION_REPLY)
  {
    QuadReply(zero, 1088, Dotted(zero));
    assert PortOctets(1088) == [4, 64];
    assert [5, 0, 0, 1] + zero + [4, 64] == CONNECTION_REPLY;
  }

  lemma QuadReply(octets: seq<int>, port: int, text: string)
    requires IsQuad(octets) && 0 <= port < 65536 && text == Dotted(octets)
    ensures AssociateReplyLayout(Str(text), port) == Ok([5, 0, 0, 1] + octets + PortOctets(port))
  {
    QuadOctets(octets, port);
    var q := [octets[0], octets[1], octets[2], octets[3]];
    assert q == octets;
    assert [5, 0, 0, 1] + (q + PortOctets(port)) == [5, 0, 0, 1] + octets + PortOctets(port);
  }

  /** A host given by name, such as "localhost", is refused by `int()`:
      any dot-free text that starts with a letter and does not end in
      whitespace raises `ValueError`. */
  lemma AssociateReplyHostName(name: string, port: int, atyp: int, payload: seq<byte>)
    requires name != [] && NoDot(name) && ('a' <= name[0] <= 'z' || 'A' <= name[0] <= 'Z')
    requires !IsSpace(name[|name| - 1])
    requires 0 <= atyp < 256
    ensures AssociateReplyLayout(Str(name), port) == Err(ValueError)
    ensures UdpReplyLayout(atyp, Str(name), port, payload) == Err(ValueError)
  {
    SplitDotFree(name, []);
    assert name + [] == name;
    assert SplitDots(name) == [name];
    ParseTrimmed(name);
    assert !IsDigitGroups(name);
    assert ParseInt(name) == Err(ValueError);
    assert SplitDots(name)[1..] == [];
  }

  // ---------------------------------------------------------------------
  // UDP request header (section 7)

  /** Packing an IPv4 header with a canonical dotted quad gives 10 octets
      plus the payload, and parsing that gives back RSV 0, FRAG 0, the tag,
      the address text, the port and exactly the payload. */
  lemma UdpRoundTrip(octets: seq<int>, port: int, payload: seq<byte>)
    requires IsQuad(octets) && 0 <= port < 65536
    ensures UdpReplyLayout(1, Str(Dotted(octets)), port, payload).Ok?
    ensures var b := UdpReplyLayout(1, Str(Dotted(octets)), port, payload).value;
      |b| == 10 + |payload| &&
      UdpLayout(b) == Ok(UdpHeader(0, 0, 1, Str(Dotted(octets)), port, payload))
  {
    QuadOctets(octets, port);
    var q: seq<byte> := [octets[0], octets[1], octets[2], octets[3]];
    assert q == octets;
    var b := [0, 0, 0, 1] + (q + PortOctets(port)) + payload;
    assert b[4..8] == q;
    assert b[10..] == payload;
  }

  /** The relay's reply to an IPv4 datagram repeats the request's
      destination octets, with RSV and FRAG zero, before the answer. */
  lemma UdpReplyEchoesDestination(data: seq<byte>, answer: seq<byte>)
    requires UdpLayout(data).Ok? && data[3] == IPV4
    ensures var h := UdpLayout(data).value;
      UdpReplyLayout(h.atyp, h.addr, h.port, answer) == Ok([0, 0, 0, 1] + data[4..10] + answer)
  {
    var h := UdpLayout(data).value;
    var o: seq<int> := data[4..8];
    QuadOctets(o, h.port);
    assert [o[0], o[1], o[2], o[3]] + PortOctets(h.port) == data[4..10];
  }

  /** A domain destination parses, but packing the reply for it raises
      `TypeError`: the address is a byte string and `split(".")` wants a
      byte separator. */
  lemma UdpDomainReplyRaises(data: seq<byte>, answer: seq<byte>)
    requires UdpLayout(data).Ok? && data[3] == DOMAIN
    ensures var h := UdpLayout(data).value;
      h.addr.Bytes? && UdpReplyLayout(h.atyp, h.addr, h.port, answer) == Err(TypeError)
  {
  }

  /** A tag other than 1 or 3, IPv6 included, leaves the address unbound. */
  lemma UdpUnboundTag(data: seq<byte>)
    requires |data| >= 4 && data[3] != IPV4 && data[3] != DOMAIN
    ensures UdpLayout(data) == Err(UnboundLocalError)
  {
  }

  /** A UDP header cut short anywhere before the end of DST.PORT raises, so
      no partial header is ever returned. */
  lemma UdpTruncated(data: seq<byte>, m: nat)
    requires UdpLayout(data).Ok?
    ensures m < DestLayout(data[3], data, 4).value.end ==> UdpLayout(data[..m]) == Err(StructError)
  {
    if 4 <= m < DestLayout(data[3], data, 4).value.end {
      DestPrefix(data[3], data, 4, [], m);
      assert data[..m][3] == data[3];
    }
  }

  /** The round trip needs canonical text: a zero written before the first
      octet, as in "01.2.3.4", is accepted by `int()`, packs like the
      canonical text and so parses back without it. */
  lemma UdpNonCanonicalQuad(octets: seq<int>, port: int, payload: seq<byte>)
    requires IsQuad(octets) && 0 <= port < 65536
    ensures UdpReplyLayout(1, Str("0" + Dotted(octets)), port, payload) == UdpReplyLayout(1, Str(Dotted(octets)), port, payload)
    ensures UdpReplyLayout(1, Str("0" + Dotted(octets)), port, payload).Ok?
    ensures UdpLayout(UdpReplyLayout(1, Str("0" + Dotted(octets)), port, payload).value) ==
      Ok(UdpHeader(0, 0, 1, Str(Dotted(octets)), port, payload))
    ensures Str(Dotted(octets)) != Str("0" + Dotted(octets))
  {
    PaddedQuadInts(octets);
    DottedRoundTrip(octets);
    UdpRoundTrip(octets, port, payload);
    assert |"0" + Dotted(octets)| != |Dotted(octets)|;
  }

  lemma PaddedQuadInts(octets: seq<int>)
    requires IsQuad(octets)
    ensures AddressInts(Str("0" + Dotted(octets))) == Ok(octets)
  {
    var parts := Strs(octets);
    forall k | 0 <= k < |parts| ensures NoDot(parts[k]) {
      IntToStrNoDot(octets[k]);
    }
    SplitOfJoin(parts);
    SplitDotFree("0", Dotted(octets));
    var padded := ["0" + parts[0]] + parts[1..];
    assert SplitDots("0" + Dotted(octets)) == padded;
    ParseIntsOfStr(octets);
    assert ParseInts(parts[1..]) == Ok(octets[1..]);
    ParseZeroPadded(octets[0]);
    assert padded[1..] == parts[1..];
    assert [octets[0]] + octets[1..] == octets;
  }
}
