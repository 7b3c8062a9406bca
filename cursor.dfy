/** The two cursor primitives every message codec of parser.py is built on:
    `Parser`, a read index over a byte string that advances field by field,
    and `Packer`, an append-only byte buffer. Both use network byte order. */
module Cursor {
  import opened Py
  import opened Struct

  /** The field kinds the message functions use: `Uchar` ('B', one octet),
      `Ushort` ('H', two octets) and `String` ('s', one octet per unit). */
  datatype Field = Uchar | Ushort | String {
    function Size(): nat
    {
      Width(Code())
    }

    function Code(): Code
    {
      match this
      case Uchar => UByte
      case Ushort => UShort
      case String => Chars
    }
  }

  /** A big-endian 16-bit value. */
  function Be16(hi: byte, lo: byte): nat
  {
    hi as int * 256 + lo
  }

  /** Each octet as an `Int`: what "!nB" yields. */
  function ByteObjs(bs: seq<byte>): (r: seq<Obj>)
    ensures |r| == |bs| && forall k :: 0 <= k < |bs| ==> r[k] == Int(bs[k])
  {
    seq(|bs|, k requires 0 <= k < |bs| => Int(bs[k]))
  }

  /** Each pair of octets as a big-endian `Int`: what "!nH" yields. */
  function Words(bs: seq<byte>): (r: seq<Obj>)
    requires |bs| % 2 == 0
    ensures |r| == |bs| / 2
    ensures forall k :: 0 <= k < |bs| / 2 ==> r[k] == Int(Be16(bs[2 * k], bs[2 * k + 1]))
  {
    seq(|bs| / 2, k requires 0 <= k < |bs| / 2 => Int(Be16(bs[2 * k], bs[2 * k + 1])))
  }

  /** `Be16` is 'H' decoded in network order. */
  lemma Be16IsDecode(hi: byte, lo: byte)
    ensures Be16(hi, lo) == Decode(Big, [hi, lo])
  {
  }

  /** `ByteObjs` is `IntObjs` on octets. */
  lemma ByteObjsAreIntObjs(bs: seq<byte>)
    ensures ByteObjs(bs) == IntObjs(bs)
  {
  }

  /** A value the two-argument `Packer.append` takes for the field. */
  predicate Accepts(field: Field, value: Obj)
  {
    if field == String then value.Bytes? else Fits(field.Code(), value)
  }

  class Parser {
    const data: seq<byte>
    var idx: nat

    ghost predicate Valid()
      reads this
    {
      idx <= |data|
    }

    constructor (data: seq<byte>)
      ensures Valid()
      ensures this.data == data && idx == 0
    {
      this.data := data;
      idx := 0;
    }

    /** Reads `num` values of `field` at the index. Exactly
        `field.Size() * num` octets are consumed; when fewer remain the call
        raises and the index stays. A single value comes back as a scalar,
        several as a tuple, and a `String` field as one byte string. */
    method NextValue(field: Field, num: nat) returns (r: Result<Obj>)
      requires Valid()
      modifies this
      ensures Valid()
      ensures r.Ok? <==> old(idx) + field.Size() * num <= |data|
      ensures r.Ok? ==> idx == old(idx) + field.Size() * num
      ensures r.Err? ==> r.exc == StructError && idx == old(idx)
      ensures r.Ok? && field == String ==> r.value == Bytes(data[old(idx)..idx])
      ensures r.Ok? && field == Uchar ==>
        r.value == if num == 1 then Int(data[old(idx)]) else Tuple(ByteObjs(data[old(idx)..idx]))
      ensures r.Ok? && field == Ushort ==>
        r.value == if num == 1 then Int(Be16(data[old(idx)], data[old(idx) + 1]))
                   else Tuple(Words(data[old(idx)..idx]))
    {
      var fmt := Format(Big, [Item(num, field.Code())]);
      var start := idx;
      var chunk := Slice(data, start, start + field.Size() * num);
      SingleSizes(Item(num, field.Code()));
      var res :- Unpack(fmt, chunk);
      FieldValues(field, num, chunk);
      idx := start + field.Size() * num;
      assert chunk == data[start..idx];
      if field == String || num == 1 {
        assert field != String ==> res[0] == if field == Uchar then Int(chunk[0]) else Int(Be16(chunk[0], chunk[1]));
        r := Ok(res[0]);
      } else {
        r := Ok(Tuple(res));
      }
    }

    /** `data[idx:]`: the octets not yet consumed. */
    method RemData() returns (r: seq<byte>)
      requires Valid()
      ensures |r| == |data| - idx
      ensures data[..idx] + r == data
    {
      r := SliceFrom(data, idx);
    }
  }

  /** What "!nB", "!nH" and "!ns" unpack from a buffer of the right size. */
  lemma FieldValues(field: Field, num: nat, chunk: seq<byte>)
    requires |chunk| == field.Size() * num
    ensures field == String ==> Unpack(Format(Big, [Item(num, field.Code())]), chunk) == Ok([Bytes(chunk)])
    ensures field == Uchar ==> Unpack(Format(Big, [Item(num, field.Code())]), chunk) == Ok(ByteObjs(chunk))
    ensures field == Ushort ==> Unpack(Format(Big, [Item(num, field.Code())]), chunk) == Ok(Words(chunk))
  {
    UnpackSingle(Big, Item(num, field.Code()), chunk);
    if field == Uchar {
      RunOfBytes(num, chunk);
    } else if field == Ushort {
      RunOfShorts(num, chunk);
    }
  }

  lemma RunOfBytes(num: nat, chunk: seq<byte>)
    requires |chunk| == num
    ensures UnpackRun(Big, UByte, num, chunk) == ByteObjs(chunk)
  {
    var run := UnpackRun(Big, UByte, num, chunk);
    UnpackRunLength(Big, UByte, num, chunk);
    forall k | 0 <= k < num ensures run[k] == Int(chunk[k]) {
      UnpackRunAt(Big, UByte, num, chunk, k);
    }
  }

  lemma RunOfShorts(num: nat, chunk: seq<byte>)
    requires |chunk| == 2 * num
    ensures UnpackRun(Big, UShort, num, chunk) == Words(chunk)
  {
    var run := UnpackRun(Big, UShort, num, chunk);
    UnpackRunLength(Big, UShort, num, chunk);
    forall k | 0 <= k < num ensures run[k] == Int(Be16(chunk[2 * k], chunk[2 * k + 1])) {
      UnpackRunAt(Big, UShort, num, chunk, k);
      assert chunk[2 * k..2 * k + 2] == [chunk[2 * k], chunk[2 * k + 1]];
    }
  }

  class Packer {
    var data: seq<byte>

    constructor ()
      ensures data == []
    {
      data := [];
    }

    /** The two-argument form: appends one value of the field in network
        order, or raises `struct.error` and leaves the buffer as it was. */
    method Append(field: Field, value: Obj) returns (r: Outcome)
      modifies this
      ensures r.Pass? <==> Accepts(field, value)
      ensures r.Fail? ==> r.exc == StructError && data == old(data)
      ensures r.Pass? && field == Uchar ==> data == old(data) + [value.i]
      ensures r.Pass? && field == Ushort ==> data == old(data) + [value.i / 256, value.i % 256]
      ensures r.Pass? && field == String ==> data == old(data) + Fit(value.b, 1)
    {
      var fmt := Format(Big, [Item(1, field.Code())]);
      var out := Pack(fmt, [value]);
      PackSingle(Big, Item(1, field.Code()), [value]);
      if field != String {
        PackRunOk(Big, field.Code(), [value]);
        if out.Ok? {
          PackRunAt(Big, field.Code(), [value], 0);
        }
      }
      if out.Err? {
        return Fail(out.exc);
      }
      data := data + out.value;
      r := Pass;
    }

    /** The three-argument form: `num` values of the field in network order.
        A `String` field takes one byte string, cut or padded to `num`. */
    method AppendMany(num: nat, field: Field, values: seq<Obj>) returns (r: Outcome)
      modifies this
      ensures field != String ==>
        (r.Pass? <==> |values| == num && forall k :: 0 <= k < num ==> Fits(field.Code(), values[k]))
      ensures field == String ==> (r.Pass? <==> |values| == 1 && values[0].Bytes?)
      ensures r.Fail? ==> r.exc == StructError && data == old(data)
      ensures r.Pass? ==> |data| == |old(data)| + field.Size() * num && data[..|old(data)|] == old(data)
      ensures r.Pass? && field == Uchar ==> data == old(data) + Ints(values)
      ensures r.Pass? && field == Ushort ==>
        forall k :: 0 <= k < num ==>
          data[|old(data)| + 2 * k] == values[k].i / 256 && data[|old(data)| + 2 * k + 1] == values[k].i % 256
      ensures r.Pass? && field == String ==> data[|old(data)|..] == Fit(values[0].b, num)
    {
      var out := Pack(Format(Big, [Item(num, field.Code())]), values);
      PackField(num, field, values);
      if out.Err? {
        return Fail(out.exc);
      }
      var prev := data;
      data := data + out.value;
      assert data[..|prev|] == prev && data[|prev|..] == out.value;
      r := Pass;
    }
  }

  /** What "!nB", "!nH" and "!ns" pack: when they succeed, and the octets. */
  lemma PackField(num: nat, field: Field, values: seq<Obj>)
    ensures var out := Pack(Format(Big, [Item(num, field.Code())]), values);
      (field != String ==> (out.Ok? <==> |values| == num && forall k :: 0 <= k < num ==> Fits(field.Code(), values[k]))) &&
      (field == String ==> (out.Ok? <==> |values| == 1 && values[0].Bytes?)) &&
      (out.Err? ==> out.exc == StructError) &&
      (out.Ok? ==> |out.value| == field.Size() * num) &&
      (out.Ok? && field == Uchar ==> out.value == Ints(values)) &&
      (out.Ok? && field == Ushort ==>
        forall k :: 0 <= k < num ==> out.value[2 * k] == values[k].i / 256 && out.value[2 * k + 1] == values[k].i % 256) &&
      (out.Ok? && field == String ==> out.value == Fit(values[0].b, num))
  {
    var it := Item(num, field.Code());
    SingleSizes(it);
    if |values| == ItemArity(it) {
      PackSingle(Big, it, values);
      if field != String {
        PackRunValues(num, field.Code(), values);
      }
    }
  }

  /** "!nB" and "!nH" on n values: each value's octets in turn. */
  lemma PackRunValues(num: nat, c: Code, values: seq<Obj>)
    requires c != Chars && |values| == num
    ensures PackRun(Big, c, values).Ok? <==> forall k :: 0 <= k < num ==> Fits(c, values[k])
    ensures PackRun(Big, c, values).Ok? ==> |PackRun(Big, c, values).value| == Width(c) * num
    ensures PackRun(Big, c, values).Ok? && c == UByte ==> PackRun(Big, c, values).value == Ints(values)
    ensures PackRun(Big, c, values).Ok? && c == UShort ==>
      forall k :: 0 <= k < num ==>
        PackRun(Big, c, values).value[2 * k] == values[k].i / 256 &&
        PackRun(Big, c, values).value[2 * k + 1] == values[k].i % 256
  {
    PackRunOk(Big, c, values);
    var out := PackRun(Big, c, values);
    if out.Ok? {
      PackRunLength(Big, c, values);
      forall k | 0 <= k < num
        ensures out.value[k * Width(c)..k * Width(c) + Width(c)] == Encode(Big, c, values[k].i)
      {
        PackRunAt(Big, c, values, k);
      }
      if c == UShort {
        forall k | 0 <= k < num
          ensures out.value[2 * k] == values[k].i / 256 && out.value[2 * k + 1] == values[k].i % 256
        {
          assert out.value[2 * k..2 * k + 2] == Encode(Big, c, values[k].i);
        }
      } else {
        forall k | 0 <= k < num ensures out.value[k] == values[k].i {
          assert out.value[k..k + 1] == Encode(Big, c, values[k].i);
        }
        assert out.value == Ints(values);
      }
    }
  }
}
