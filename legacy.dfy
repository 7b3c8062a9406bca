/** The earlier codec of socks5.py: each field is cut out of the message by
    a fixed slice and handed to `struct.unpack`, which raises unless the
    slice has exactly the format's size. Formats written without a prefix
    use the host's byte order; for 'B' that makes no difference, so those
    are written here with `Big`, while the reply's 'H' takes the host's
    order as a parameter. */
module Legacy {
  import opened Py
  import opened Struct
  import opened Text
  import opened Cursor
  import opened Messages

  /** "nB" (or its spelled-out form "BB…B") as a unit list. */
  function Octets(n: nat): Format
  {
    Format(Big, [Item(n, UByte)])
  }

  /** "!H". */
  const NetworkPort: Format := Format(Big, [Item(1, UShort)])

  /** `struct.unpack` of "nB" on `chunk`. */
  lemma UnpackOctets(n: nat, chunk: seq<byte>)
    ensures Unpack(Octets(n), chunk) == if |chunk| == n then Ok(ByteObjs(chunk)) else Err(StructError)
  {
    SingleSizes(Item(n, UByte));
    if |chunk| == n {
      FieldValues(Uchar, n, chunk);
    }
  }

  /** `struct.unpack("!H", chunk)`. */
  lemma UnpackPort(chunk: seq<byte>)
    ensures Unpack(NetworkPort, chunk) ==
      if |chunk| == 2 then Ok([Int(Be16(chunk[0], chunk[1]))]) else Err(StructError)
  {
    SingleSizes(Item(1, UShort));
    if |chunk| == 2 {
      FieldValues(Ushort, 1, chunk);
      assert Words(chunk) == [Int(Be16(chunk[0], chunk[1]))];
    }
  }

  /** `struct.unpack("{n}s", chunk)`. */
  lemma UnpackName(n: nat, chunk: seq<byte>)
    ensures Unpack(Format(Big, [Item(n, Chars)]), chunk) == if |chunk| == n then Ok([Bytes(chunk)]) else Err(StructError)
  {
    SingleSizes(Item(n, Chars));
    if |chunk| == n {
      FieldValues(String, n, chunk);
    }
  }

  /** `unpack_hand_shake`: VER and NMETHODS from the first two octets, then
      every remaining octet as a method, of which there must be exactly
      NMETHODS. The methods always come back as a tuple. */
  function UnpackHandShake(data: seq<byte>): (r: Result<HandShake>)
    ensures r.Ok? <==> 2 <= |data| && |data| == 2 + data[1] as int
    ensures r.Err? ==> r.exc == StructError
    ensures r.Ok? ==> r.value == HandShake(data[0], data[1], Tuple(ByteObjs(data[2..])))
  {
    UnpackOctets(2, Slice(data, 0, 2));
    var head :- Unpack(Octets(2), Slice(data, 0, 2));
    var nmethods := head[1].i;
    UnpackOctets(nmethods, SliceFrom(data, 2));
    var methods :- Unpack(Octets(nmethods), SliceFrom(data, 2));
    Ok(HandShake(head[0].i, nmethods, Tuple(methods)))
  }

  /** `pack_hand_shake_server`: "no authentication required". */
  function PackHandShakeServer(): (r: seq<byte>)
    ensures r == [5, 0]
  {
    PackOctets([5, 0]);
    Pack(Octets(2), IntObjs([5, 0])).value
  }

  /** `struct.pack` of "nB" on n octet values. */
  lemma PackOctets(vals: seq<byte>)
    ensures Pack(Octets(|vals|), IntObjs(vals)) == Ok(vals)
  {
    var args := IntObjs(vals);
    PackSingle(Big, Item(|vals|, UByte), args);
    assert forall j :: 0 <= j < |args| ==> Fits(UByte, args[j]);
    RunRoundTrip(Big, UByte, args);
    var out := PackRun(Big, UByte, args).value;
    forall k | 0 <= k < |vals| ensures out[k] == vals[k] {
      PackRunAt(Big, UByte, args, k);
      assert out[k..k + 1] == [vals[k]];
    }
    assert out == vals;
  }

  /** `unpack_connection`: VER CMD RSV ATYP from the first four octets, then
      the address and the port from fixed slices. The port slice runs to
      the end of the message, so the port must be its last two octets. */
  function UnpackConnection(data: seq<byte>): (r: Result<Request>)
    ensures |data| < 4 ==> r == Err(StructError)
    ensures r.Err? ==> r.exc == StructError || r.exc == Exception
    ensures |data| >= 4 && data[3] == IPV4 ==>
      (r.Ok? <==> |data| == 10) &&
      (r.Ok? ==> r.value == Request(data[0], data[1], data[2], IPV4, Str(Dotted(data[4..8])), Be16(data[8], data[9])))
    ensures |data| >= 4 && data[3] == DOMAIN ==>
      (r.Ok? <==> 5 <= |data| && |data| == 7 + data[4] as int) &&
      (r.Ok? ==> r.value == Request(data[0], data[1], data[2], DOMAIN, Bytes(data[5..|data| - 2]),
                                    Be16(data[|data| - 2], data[|data| - 1])))
    ensures |data| >= 4 && data[3] == IPV6 ==>
      (r.Ok? <==> |data| == 22) &&
      (r.Ok? ==> r.value == Request(data[0], data[1], data[2], IPV6, Tuple(ByteObjs(data[4..20])), Be16(data[20], data[21])))
    ensures |data| >= 4 && data[3] != IPV4 && data[3] != DOMAIN && data[3] != IPV6 ==> r == Err(Exception)
  {
    UnpackOctets(4, Slice(data, 0, 4));
    var head :- Unpack(Octets(4), Slice(data, 0, 4));
    var ver, cmd, rsv, atyp := head[0].i, head[1].i, head[2].i, head[3].i;
    if atyp == 1 then
      UnpackOctets(4, Slice(data, 4, 8));
      var octets :- Unpack(Octets(4), Slice(data, 4, 8));
      UnpackPort(SliceFrom(data, 8));
      var port :- Unpack(NetworkPort, SliceFrom(data, 8));
      assert Ints(octets) == data[4..8];
      Ok(Request(ver, cmd, rsv, atyp, Str(Dotted(Ints(octets))), port[0].i))
    else if atyp == 3 then
      UnpackOctets(1, Slice(data, 4, 5));
      var size :- Unpack(Octets(1), Slice(data, 4, 5));
      var len := size[0].i;
      var name := Slice(data, 5, 5 + len);
      UnpackName(len, name);
      var addr :- Unpack(Format(Big, [Item(len, Chars)]), name);
      UnpackPort(SliceFrom(data, 5 + len));
      var port :- Unpack(NetworkPort, SliceFrom(data, 5 + len));
      Ok(Request(ver, cmd, rsv, atyp, addr[0], port[0].i))
    else if atyp == 4 then
      UnpackOctets(16, Slice(data, 4, 20));
      var addr :- Unpack(Octets(16), Slice(data, 4, 20));
      UnpackPort(SliceFrom(data, 20));
      var port :- Unpack(NetworkPort, SliceFrom(data, 20));
      Ok(Request(ver, cmd, rsv, atyp, Tuple(addr), port[0].i))
    else
      Err(Exception)
  }

  /** "BBBB4BH" without a prefix: four octets, four octets and one 16-bit
      value in the host's order ("BBBB" and "4B" are the same units). The
      'H' falls at offset 8, so native alignment adds no padding. */
  const ReplyFormat: seq<Item> := [Item(4, UByte), Item(4, UByte), Item(1, UShort)]

  /** `pack_connection_reply` on a host of the given byte order. */
  function PackConnectionReply(host: Endian): (r: seq<byte>)
    ensures |r| == 10
    ensures r[..8] == [5, 0, 0, 1, 0, 0, 0, 0]
    ensures r[8..] == Encode(host, UShort, 1088)
  {
    ReplyPack(host);
    Pack(Format(host, ReplyFormat), IntObjs([5, 0, 0, 1, 0, 0, 0, 0, 1088])).value
  }

  lemma ReplyPack(host: Endian)
    ensures Pack(Format(host, ReplyFormat), IntObjs([5, 0, 0, 1, 0, 0, 0, 0, 1088])) ==
      Ok([5, 0, 0, 1, 0, 0, 0, 0] + Encode(host, UShort, 1088))
  {
    var args := IntObjs([5, 0, 0, 1, 0, 0, 0, 0, 1088]);
    var items := ReplyFormat;
    assert Arity(items[2..]) == 1 by {
      assert items[2..][1..] == [];
    }
    assert Arity(items[1..]) == 4 + Arity(items[2..]);
    assert Arity(items) == 9;
    var a0, a1, a2 := args[..4], args[4..][..4], args[4..][4..];
    assert a0 == IntObjs([5, 0, 0, 1]);
    assert a1 == IntObjs([0, 0, 0, 0]);
    assert a2 == [Int(1088)];
    RunOctets(host, [5, 0, 0, 1]);
    RunOctets(host, [0, 0, 0, 0]);
    var port := Encode(host, UShort, 1088);
    assert PackRun(host, UShort, a2) == Ok(port + []);
    assert items[2..][1..] == [];
    assert a2[..1] == a2 && a2[1..] == [];
    assert items[2..] == [Item(1, UShort)];
    PackSingle(host, Item(1, UShort), a2);
    SingleSizes(Item(1, UShort));
    assert Pack(Format(host, [Item(1, UShort)]), a2) == PackItems(host, items[2..], a2);
    assert PackItems(host, items[2..], a2) == Ok(port + []);
    assert PackItems(host, items[1..], args[4..]) == Ok([0, 0, 0, 0] + (port + []));
    assert PackItems(host, items, args) == Ok([5, 0, 0, 1] + ([0, 0, 0, 0] + (port + [])));
    assert [5, 0, 0, 1] + ([0, 0, 0, 0] + (port + [])) == [5, 0, 0, 1, 0, 0, 0, 0] + port;
    assert |args| == Arity(items);
  }

  /** 'B' packs each octet value as itself, in any byte order. */
  lemma RunOctets(order: Endian, vals: seq<byte>)
    ensures PackRun(order, UByte, IntObjs(vals)) == Ok(vals)
  {
    var args := IntObjs(vals);
    assert forall j :: 0 <= j < |args| ==> Fits(UByte, args[j]);
    RunRoundTrip(order, UByte, args);
    var out := PackRun(order, UByte, args).value;
    forall k | 0 <= k < |vals| ensures out[k] == vals[k] {
      PackRunAt(order, UByte, args, k);
      assert out[k..k + 1] == [vals[k]];
    }
    assert out == vals;
  }

  // ---------------------------------------------------------------------
  // How the two codecs differ

  /** On a big-endian host the reply is the one parser.py packs; on a
      little-endian host the port octets are swapped, advertising port
      16388 instead of 1088. */
  lemma ReplyByteOrder()
    ensures PackConnectionReply(Big) == CONNECTION_REPLY
    ensures PackConnectionReply(Little) == [5, 0, 0, 1, 0, 0, 0, 0, 64, 4]
    ensures ConnectionLayout(PackConnectionReply(Little)).Ok?
    ensures ConnectionLayout(PackConnectionReply(Little)).value.port == 16388
  {
    var b := PackConnectionReply(Big);
    assert b == b[..8] + b[8..];
    var l := PackConnectionReply(Little);
    assert l == l[..8] + l[8..];
  }

  /** An IPv6 request as RFC 1928 section 5 lays it out (16 address octets,
      22 in all) decodes here, address as 16 octets, but raises in parser.py,
      which wants 32 address octets. */
  lemma IPv6Disagreement(data: seq<byte>)
    requires |data| == 22 && data[3] == IPV6
    ensures UnpackConnection(data).Ok?
    ensures UnpackConnection(data).value.addr == Tuple(ByteObjs(data[4..20]))
    ensures ConnectionLayout(data) == Err(StructError)
  {
  }

  /** Where both decode an IPv4 or domain request they agree, and they both
      decode it exactly when parser.py does and no octet follows the port:
      parser.py ignores trailing octets, socks5.py refuses them. */
  lemma RequestAgreement(data: seq<byte>)
    requires |data| >= 4 && (data[3] == IPV4 || data[3] == DOMAIN)
    ensures UnpackConnection(data).Ok? <==>
      ConnectionLayout(data).Ok? && DestLayout(data[3], data, 4).value.end == |data|
    ensures UnpackConnection(data).Ok? ==> UnpackConnection(data) == ConnectionLayout(data)
  {
    if data[3] == DOMAIN && 5 <= |data| {
      var e := 5 + data[4] as int;
      if |data| == e + 2 {
        assert data[5..|data| - 2] == data[5..e];
      }
    }
  }

  /** The two handshake decoders both need 2 + NMETHODS octets; socks5.py
      also refuses any more. They agree on VER and NMETHODS, and on the
      methods except that parser.py returns a single method as an int. */
  lemma HandShakeAgreement(data: seq<byte>)
    ensures UnpackHandShake(data).Ok? <==> HandShakeLayout(data).Ok? && |data| == 2 + data[1] as int
    ensures UnpackHandShake(data).Ok? ==>
      var a, b := UnpackHandShake(data).value, HandShakeLayout(data).value;
      a.ver == b.ver && a.nmethods == b.nmethods &&
      (if a.nmethods == 1 then a.methods == Tuple([b.methods]) else a.methods == b.methods)
  {
    if UnpackHandShake(data).Ok? {
      assert data[2..] == data[2..2 + data[1] as int];
    }
  }
}
