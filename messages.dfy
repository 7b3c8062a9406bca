/** The SOCKS5 messages of RFC 1928 as parser.py encodes and decodes them:
    the method-selection exchange (section 3), the request (section 4) with
    its address forms (section 5), the reply (section 6) and the UDP request
    header (section 7). Each decoder drives a `Parser` and each encoder a
    `Packer` through a straight sequence of calls; each is proved equal to
    a layout function stated by octet offsets, and the lemmas below state
    what the layouts promise. */
module Messages {
  import opened Py
  import opened Struct
  import opened Text
  import opened Cursor

  /** `(ver, nmethods, methods)`; `methods` is an int when one method is
      offered and a tuple otherwise, as `next_value` returns it. */
  datatype HandShake = HandShake(ver: int, nmethods: int, methods: Obj)

  /** `(ver, cmd, rsv, atyp, dst_addr, dst_port)`. */
  datatype Request = Request(ver: int, cmd: int, rsv: int, atyp: int, addr: Obj, port: int)

  /** `(rsv, frag, atyp, dst_addr, dst_port, data)`. */
  datatype UdpHeader = UdpHeader(rsv: int, frag: int, atyp: int, addr: Obj, port: int, payload: seq<byte>)

  /** A decoded DST.ADDR and DST.PORT, and the offset just after them. */
  datatype Dest = Dest(addr: Obj, port: int, end: nat)

  const IPV4: byte := 1
  const DOMAIN: byte := 3
  const IPV6: byte := 4

  /** The two network-order octets of a port. */
  function PortOctets(p: int): (r: seq<byte>)
    requires 0 <= p < 65536
    ensures |r| == 2 && Be16(r[0], r[1]) == p
  {
    var r := Encode(Big, UShort, p);
    assert r == [r[0], r[1]];
    r
  }

  // ---------------------------------------------------------------------
  // Layouts stated by octet offsets

  /** VER NMETHODS METHODS: two octets and NMETHODS more; later octets are
      ignored. */
  function HandShakeLayout(data: seq<byte>): Result<HandShake>
  {
    if |data| < 2 || |data| < 2 + data[1] as int then Err(StructError)
    else
      var n := data[1];
      Ok(HandShake(data[0], n, if n == 1 then Int(data[2]) else Tuple(ByteObjs(data[2..2 + n as int]))))
  }

  /** DST.ADDR and DST.PORT at offset `at` for the tag `atyp`: four octets
      shown in dotted decimal, a length octet and that many raw octets, or
      sixteen two-octet words (32 octets), each followed by a port. Any other
      tag raises the bare `Exception`. */
  function DestLayout(atyp: byte, data: seq<byte>, at: nat): Result<Dest>
  {
    if atyp == IPV4 then
      if |data| < at + 6 then Err(StructError)
      else Ok(Dest(Str(Dotted(data[at..at + 4])), Be16(data[at + 4], data[at + 5]), at + 6))
    else if atyp == DOMAIN then
      if |data| < at + 1 || |data| < at + 3 + data[at] as int then Err(StructError)
      else
        var e := at + 1 + data[at] as int;
        Ok(Dest(Bytes(data[at + 1..e]), Be16(data[e], data[e + 1]), e + 2))
    else if atyp == IPV6 then
      if |data| < at + 34 then Err(StructError)
      else Ok(Dest(Tuple(Words(data[at..at + 32])), Be16(data[at + 32], data[at + 33]), at + 34))
    else Err(Exception)
  }

  /** VER CMD RSV ATYP DST.ADDR DST.PORT; later octets are ignored. */
  function ConnectionLayout(data: seq<byte>): Result<Request>
  {
    if |data| < 4 then Err(StructError)
    else
      match DestLayout(data[3], data, 4)
      case Err(e) => Err(e)
      case Ok(d) => Ok(Request(data[0], data[1], data[2], data[3], d.addr, d.port))
  }

  /** RSV(2) FRAG ATYP DST.ADDR DST.PORT DATA. Only the IPv4 and domain
      forms bind an address; any other tag ends in `UnboundLocalError`. */
  function UdpLayout(data: seq<byte>): Result<UdpHeader>
  {
    if |data| < 4 then Err(StructError)
    else if data[3] != IPV4 && data[3] != DOMAIN then Err(UnboundLocalError)
    else
      match DestLayout(data[3], data, 4)
      case Err(e) => Err(e)
      case Ok(d) => Ok(UdpHeader(Be16(data[0], data[1]), data[2], data[3], d.addr, d.port, data[d.end..]))
  }

  /** `[int(i) for i in addr.split(".")]`: only a `str` has a `split` that
      takes a `str` separator. */
  function AddressInts(addr: Obj): Result<seq<int>>
  {
    match addr
    case Str(s) => ParseInts(SplitDots(s))
    case Bytes(_) => Err(TypeError)
    case _ => Err(AttributeError)
  }

  /** Four integers that "!4B" accepts. */
  predicate IsQuad(xs: seq<int>)
  {
    |xs| == 4 && forall k :: 0 <= k < 4 ==> 0 <= xs[k] < 256
  }

  /** The octets of an IPv4 address in text form followed by a port, with
      the exceptions `pack_udp_relay` and `pack_udp_associate_reply` raise. */
  function AddressPortOctets(addr: Obj, port: int): Result<seq<byte>>
  {
    match AddressInts(addr)
    case Err(e) => Err(e)
    case Ok(xs) =>
      if !IsQuad(xs) || !(0 <= port < 65536) then Err(StructError)
      else Ok([xs[0], xs[1], xs[2], xs[3]] + PortOctets(port))
  }

  /** RSV(2)=0 FRAG=0 ATYP, four address octets, DST.PORT, then the payload. */
  function UdpReplyLayout(atyp: int, addr: Obj, port: int, payload: seq<byte>): Result<seq<byte>>
  {
    if !(0 <= atyp < 256) then Err(StructError)
    else
      match AddressPortOctets(addr, port)
      case Err(e) => Err(e)
      case Ok(b) => Ok([0, 0, 0, atyp] + b + payload)
  }

  /** VER=5 REP=0 RSV=0 ATYP=1 BND.ADDR BND.PORT. */
  function AssociateReplyLayout(addr: Obj, port: int): Result<seq<byte>>
  {
    match AddressPortOctets(addr, port)
    case Err(e) => Err(e)
    case Ok(b) => Ok([5, 0, 0, 1] + b)
  }

  /** The placeholder reply: success, bound to 0.0.0.0 port 1088. */
  const CONNECTION_REPLY: seq<byte> := [5, 0, 0, 1, 0, 0, 0, 0, 4, 64]

  // ---------------------------------------------------------------------
  // The codec functions of parser.py

  method UnpackHandShake(data: seq<byte>) returns (r: Result<HandShake>)
    ensures r == HandShakeLayout(data)
  {
    var parser := new Parser(data);
    var ver :- parser.NextValue(Uchar, 1);
    var nmethods :- parser.NextValue(Uchar, 1);
    var methods :- parser.NextValue(Uchar, nmethods.i);
    r := Ok(HandShake(ver.i, nmethods.i, methods));
  }

  /** The method-selection reply: always "no authentication required",
      whatever the client offered. */
  method PackHandShakeServer() returns (r: seq<byte>)
    ensures r == [5, 0]
  {
    var packer := new Packer();
    var o := packer.Append(Uchar, Int(5));
    assert o.Pass?;
    o := packer.Append(Uchar, Int(0));
    assert o.Pass?;
    r := packer.data;
  }

  /** DST.ADDR and DST.PORT of the IPv4 and domain forms, read at the
      parser's index; shared by the request and UDP decoders. */
  method NextDest(parser: Parser, atyp: byte) returns (r: Result<(Obj, int)>)
    requires parser.Valid() && (atyp == IPV4 || atyp == DOMAIN)
    modifies parser
    ensures parser.Valid()
    ensures r.Ok? <==> DestLayout(atyp, parser.data, old(parser.idx)).Ok?
    ensures r.Err? ==> r.exc == DestLayout(atyp, parser.data, old(parser.idx)).exc
    ensures r.Ok? ==>
      var d := DestLayout(atyp, parser.data, old(parser.idx)).value;
      r.value == (d.addr, d.port) && parser.idx == d.end
  {
    ghost var at := parser.idx;
    var data := parser.data;
    if atyp == IPV4 {
      var addr :- parser.NextValue(Uchar, 4);
      var octets := Ints(addr.items);
      assert octets == data[at..at + 4];
      var port :- parser.NextValue(Ushort, 1);
      r := Ok((Str(Dotted(octets)), port.i));
    } else {
      var size :- parser.NextValue(Uchar, 1);
      var addr :- parser.NextValue(String, size.i);
      var port :- parser.NextValue(Ushort, 1);
      r := Ok((addr, port.i));
    }
  }

  method UnpackConnection(data: seq<byte>) returns (r: Result<Request>)
    ensures r == ConnectionLayout(data)
  {
    var parser := new Parser(data);
    var ver :- parser.NextValue(Uchar, 1);
    var cmd :- parser.NextValue(Uchar, 1);
    var rsv :- parser.NextValue(Uchar, 1);
    var atyp :- parser.NextValue(Uchar, 1);
    if atyp.i == IPV4 as int || atyp.i == DOMAIN as int {
      var dest :- NextDest(parser, atyp.i);
      r := Ok(Request(ver.i, cmd.i, rsv.i, atyp.i, dest.0, dest.1));
    } else if atyp.i == IPV6 as int {
      var addr :- parser.NextValue(Ushort, 16);
      var port :- parser.NextValue(Ushort, 1);
      r := Ok(Request(ver.i, cmd.i, rsv.i, atyp.i, addr, port.i));
    } else {
      r := Err(Exception);
    }
  }

  /** The CONNECT reply: always success with the placeholder 0.0.0.0:1088. */
  method PackConnectionReply() returns (r: seq<byte>)
    ensures r == CONNECTION_REPLY
  {
    var packer := new Packer();
    var o := packer.Append(Uchar, Int(5));
    assert o.Pass?;
    o := packer.Append(Uchar, Int(0));
    assert o.Pass?;
    o := packer.Append(Uchar, Int(0));
    assert o.Pass?;
    o := packer.Append(Uchar, Int(1));
    assert o.Pass?;
    o := packer.AppendMany(4, Uchar, [Int(0), Int(0), Int(0), Int(0)]);
    assert o.Pass?;
    o := packer.Append(Ushort, Int(1088));
    assert o.Pass?;
    r := packer.data;
  }

  method ParseUdpRelay(data: seq<byte>) returns (r: Result<UdpHeader>)
    ensures r == UdpLayout(data)
  {
    var parser := new Parser(data);
    var rsv :- parser.NextValue(Ushort, 1);
    var frag :- parser.NextValue(Uchar, 1);
    var atyp :- parser.NextValue(Uchar, 1);
    var dest: Option<(Obj, int)> := None;
    if atyp.i == IPV4 as int || atyp.i == DOMAIN as int {
      var d :- NextDest(parser, atyp.i);
      dest := Some(d);
    } else if atyp.i == IPV6 as int {
      // not implemented: DST.ADDR stays unbound
    }
    var rest := parser.RemData();
    if dest.None? {
      return Err(UnboundLocalError);
    }
    r := Ok(UdpHeader(rsv.i, frag.i, atyp.i, dest.value.0, dest.value.1, rest));
  }

  /** Writes the four address octets and the port of an IPv4 address in
      text form, raising as `split`, `int` and "!4B"/"!H" do. */
  method AppendAddressPort(packer: Packer, addr: Obj, port: int) returns (r: Outcome)
    modifies packer
    ensures r.Pass? <==> AddressPortOctets(addr, port).Ok?
    ensures r.Fail? ==> r.exc == AddressPortOctets(addr, port).exc
    ensures r.Pass? ==> packer.data == old(packer.data) + AddressPortOctets(addr, port).value
  {
    var ints: seq<int>;
    match addr {
      case Str(s) =>
        var pieces := SplitDots(s);
        var parsed := ParseInts(pieces);
        if parsed.Err? {
          return Fail(parsed.exc);
        }
        ints := parsed.value;
      case Bytes(_) =>
        return Fail(TypeError);
      case _ =>
        return Fail(AttributeError);
    }
    QuadObjs(ints);
    ghost var before := packer.data;
    var o := packer.AppendMany(4, Uchar, IntObjs(ints));
    if o.Fail? {
      return Fail(o.exc);
    }
    assert packer.data == before + [ints[0], ints[1], ints[2], ints[3]];
    o := packer.Append(Ushort, Int(port));
    if o.Fail? {
      return Fail(o.exc);
    }
    assert packer.data == before + ([ints[0], ints[1], ints[2], ints[3]] + PortOctets(port));
    r := Pass;
  }

  /** The objects "!4B" receives from `[int(i) for i in ...]`. */
  lemma QuadObjs(ints: seq<int>)
    ensures (|IntObjs(ints)| == 4 && forall k :: 0 <= k < 4 ==> Fits(UByte, IntObjs(ints)[k])) <==> IsQuad(ints)
    ensures IsQuad(ints) ==> Ints(IntObjs(ints)) == [ints[0], ints[1], ints[2], ints[3]]
  {
  }

  method PackUdpRelay(atyp: int, dstAddr: Obj, dstPort: int, payload: seq<byte>) returns (r: Result<seq<byte>>)
    ensures r == UdpReplyLayout(atyp, dstAddr, dstPort, payload)
  {
    var packer := new Packer();
    var o := packer.Append(Ushort, Int(0));
    assert o.Pass?;
    o := packer.Append(Uchar, Int(0));
    assert o.Pass?;
    o := packer.Append(Uchar, Int(atyp));
    if o.Fail? {
      return Err(o.exc);
    }
    assert packer.data == [0, 0, 0, atyp];
    o := AppendAddressPort(packer, dstAddr, dstPort);
    if o.Fail? {
      return Err(o.exc);
    }
    r := Ok(packer.data + payload);
  }

  method PackUdpAssociateReply(addr: Obj, port: int) returns (r: Result<seq<byte>>)
    ensures r == AssociateReplyLayout(addr, port)
  {
    var packer := new Packer();
    var o := packer.Append(Uchar, Int(5));
    assert o.Pass?;
    o := packer.Append(Uchar, Int(0));
    assert o.Pass?;
    o := packer.Append(Uchar, Int(0));
    assert o.Pass?;
    o := packer.Append(Uchar, Int(1));
    assert o.Pass?;
    assert packer.data == [5, 0, 0, 1];
    o := AppendAddressPort(packer, addr, port);
    if o.Fail? {
      return Err(o.exc);
    }
    r := Ok(packer.data);
  }
}
