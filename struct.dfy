/** The part of Python's `struct` module that the codec uses: the format
    characters 'B' (unsigned 8-bit), 'H' (unsigned 16-bit) and 's' (a byte
    string of a given length), each with a repeat count, in big-endian
    ('!', network) or little-endian byte order. */
module Struct {
  import opened Py

  datatype Code = UByte | UShort | Chars

  /** One format unit such as "4B", "H" or "11s". */
  datatype Item = Item(count: nat, code: Code)

  /** '!' gives Big; a format without a prefix uses the host's order. */
  datatype Endian = Big | Little

  datatype Format = Format(order: Endian, items: seq<Item>)

  /** Octets per value: 's' counts one octet per unit of its count. */
  function Width(c: Code): nat
  {
    if c == UShort then 2 else 1
  }

  /** Exclusive upper bound of a 'B' or 'H' value. */
  function Bound(c: Code): nat
  {
    if c == UShort then 65536 else 256
  }

  function ItemSize(it: Item): nat
  {
    if it.code == UShort then 2 * it.count else it.count
  }

  /** `struct.calcsize`: the octets a buffer must have. */
  function CalcSize(items: seq<Item>): nat
  {
    if items == [] then 0 else ItemSize(items[0]) + CalcSize(items[1..])
  }

  /** How many Python values a unit stands for: one for "Ns", N for "NB"/"NH". */
  function ItemArity(it: Item): nat
  {
    if it.code == Chars then 1 else it.count
  }

  function Arity(items: seq<Item>): nat
  {
    if items == [] then 0 else ItemArity(items[0]) + Arity(items[1..])
  }

  /** The unsigned value of one ('B') or two ('H') octets. */
  function Decode(order: Endian, b: seq<byte>): nat
    requires |b| == 1 || |b| == 2
  {
    if |b| == 1 then b[0]
    else if order == Big then b[0] as int * 256 + b[1]
    else b[1] as int * 256 + b[0]
  }

  /** The octets of one 'B' or 'H' value. */
  function Encode(order: Endian, c: Code, n: int): (r: seq<byte>)
    requires c != Chars && 0 <= n < Bound(c)
    ensures |r| == Width(c)
    ensures Decode(order, r) == n
  {
    if c == UByte then [n]
    else if order == Big then [n / 256, n % 256]
    else [n % 256, n / 256]
  }

  lemma EncodeDecode(order: Endian, c: Code, b: seq<byte>)
    requires c != Chars && |b| == Width(c)
    ensures Decode(order, b) < Bound(c)
    ensures Encode(order, c, Decode(order, b)) == b
  {
  }

  /** A value that 'B' or 'H' accepts: an integer in range. */
  predicate Fits(c: Code, v: Obj)
  {
    v.Int? && 0 <= v.i < Bound(c)
  }

  /** "nB"/"nH" applied to exactly n * Width(c) octets. */
  function UnpackRun(order: Endian, c: Code, n: nat, buf: seq<byte>): seq<Obj>
    requires c != Chars && |buf| == n * Width(c)
    decreases n
  {
    if n == 0 then []
    else
      var w := Width(c);
      [Int(Decode(order, buf[..w]))] + UnpackRun(order, c, n - 1, buf[w..])
  }

  /** The values of one unit: a byte string for 's', a run otherwise. */
  function UnpackHead(order: Endian, it: Item, chunk: seq<byte>): seq<Obj>
    requires |chunk| == ItemSize(it)
  {
    if it.code == Chars then [Bytes(chunk)] else UnpackRun(order, it.code, it.count, chunk)
  }

  function UnpackItems(order: Endian, items: seq<Item>, buf: seq<byte>): seq<Obj>
    requires |buf| == CalcSize(items)
  {
    if items == [] then []
    else
      var size := ItemSize(items[0]);
      UnpackHead(order, items[0], buf[..size]) + UnpackItems(order, items[1..], buf[size..])
  }

  /** `struct.unpack`: raises `struct.error` unless the buffer has exactly
      `calcsize` octets. */
  function Unpack(f: Format, buf: seq<byte>): (r: Result<seq<Obj>>)
    ensures r.Ok? <==> |buf| == CalcSize(f.items)
    ensures r.Err? ==> r.exc == StructError
  {
    if |buf| != CalcSize(f.items) then Err(StructError)
    else Ok(UnpackItems(f.order, f.items, buf))
  }

  /** 'B'/'H' applied to each argument; any non-integer or out-of-range
      argument raises `struct.error`. */
  function PackRun(order: Endian, c: Code, args: seq<Obj>): Result<seq<byte>>
    requires c != Chars
  {
    if args == [] then Ok([])
    else if !Fits(c, args[0]) then Err(StructError)
    else
      match PackRun(order, c, args[1..])
      case Err(e) => Err(e)
      case Ok(rest) => Ok(Encode(order, c, args[0].i) + rest)
  }

  /** "ns" packing: the byte string cut or padded with zero octets to n. */
  function Fit(b: seq<byte>, n: nat): (r: seq<byte>)
    ensures |r| == n
    ensures |b| == n ==> r == b
    ensures forall k :: 0 <= k < |b| && k < n ==> r[k] == b[k]
    ensures forall k :: |b| <= k < n ==> r[k] == 0
  {
    if n <= |b| then b[..n] else b + seq(n - |b|, _ => 0)
  }

  /** The octets of one unit's arguments. */
  function PackHead(order: Endian, it: Item, args: seq<Obj>): Result<seq<byte>>
    requires |args| == ItemArity(it)
  {
    if it.code == Chars then
      (if args[0].Bytes? then Ok(Fit(args[0].b, it.count)) else Err(StructError))
    else PackRun(order, it.code, args)
  }

  function PackItems(order: Endian, items: seq<Item>, args: seq<Obj>): Result<seq<byte>>
    requires |args| == Arity(items)
  {
    if items == [] then Ok([])
    else
      var k := ItemArity(items[0]);
      match PackHead(order, items[0], args[..k])
      case Err(e) => Err(e)
      case Ok(h) =>
        match PackItems(order, items[1..], args[k..])
        case Err(e) => Err(e)
        case Ok(t) => Ok(h + t)
  }

  /** `struct.pack`: raises `struct.error` on a wrong number of arguments,
      an argument of the wrong type, or an integer out of range. */
  function Pack(f: Format, args: seq<Obj>): (r: Result<seq<byte>>)
    ensures r.Err? ==> r.exc == StructError
  {
    if |args| != Arity(f.items) then Err(StructError)
    else PackLength(f.order, f.items, args); PackItems(f.order, f.items, args)
  }

  /** Arguments that pack without error and come back unchanged: integers in
      range, and byte strings of exactly the unit's length for 's'. */
  predicate Canonical(items: seq<Item>, args: seq<Obj>)
  {
    if items == [] then args == []
    else
      var it := items[0];
      var k := ItemArity(it);
      k <= |args| &&
      (if it.code == Chars then args[0].Bytes? && |args[0].b| == it.count
       else forall j :: 0 <= j < k ==> Fits(it.code, args[j])) &&
      Canonical(items[1..], args[k..])
  }

  // ---------------------------------------------------------------------
  // Runs of 'B'/'H' values

  /** Offsets in a run are linear in the index. */
  lemma WidthTimes(c: Code, k: nat)
    ensures k * Width(c) == if c == UShort then 2 * k else k
  {
  }

  lemma SuffixSlice<T>(s: seq<T>, w: nat, lo: nat, n: nat)
    requires w + lo + n <= |s|
    ensures s[w..][lo..lo + n] == s[w + lo..w + lo + n]
  {
  }

  lemma ConcatSlice<T>(a: seq<T>, b: seq<T>, lo: nat, n: nat)
    requires lo + n <= |b|
    ensures (a + b)[|a| + lo..|a| + lo + n] == b[lo..lo + n]
  {
  }

  lemma {:induction false} UnpackRunAt(order: Endian, c: Code, n: nat, buf: seq<byte>, k: nat)
    requires c != Chars && |buf| == n * Width(c) && k < n
    ensures |UnpackRun(order, c, n, buf)| == n
    ensures k * Width(c) + Width(c) <= |buf|
    ensures UnpackRun(order, c, n, buf)[k] == Int(Decode(order, buf[k * Width(c)..k * Width(c) + Width(c)]))
  {
    var w := Width(c);
    UnpackRunLength(order, c, n, buf);
    if k > 0 {
      WidthTimes(c, k - 1);
      WidthTimes(c, k);
      WidthTimes(c, n - 1);
      WidthTimes(c, n);
      assert |buf[w..]| == (n - 1) * w;
      UnpackRunAt(order, c, n - 1, buf[w..], k - 1);
      SuffixSlice(buf, w, (k - 1) * w, w);
    }
  }

  lemma {:induction false} UnpackRunLength(order: Endian, c: Code, n: nat, buf: seq<byte>)
    requires c != Chars && |buf| == n * Width(c)
    ensures |UnpackRun(order, c, n, buf)| == n
    ensures forall j :: 0 <= j < n ==> UnpackRun(order, c, n, buf)[j].Int?
    ensures forall j :: 0 <= j < n ==> Fits(c, UnpackRun(order, c, n, buf)[j])
    decreases n
  {
    if n > 0 {
      var w := Width(c);
      UnpackRunLength(order, c, n - 1, buf[w..]);
      EncodeDecode(order, c, buf[..w]);
    }
  }

  /** A run packs exactly when every argument fits. */
  lemma {:induction false} PackRunOk(order: Endian, c: Code, args: seq<Obj>)
    requires c != Chars
    ensures PackRun(order, c, args).Ok? <==> forall j :: 0 <= j < |args| ==> Fits(c, args[j])
    ensures PackRun(order, c, args).Err? ==> PackRun(order, c, args).exc == StructError
  {
    if args != [] {
      PackRunOk(order, c, args[1..]);
      if PackRun(order, c, args[1..]).Err? {
        var j :| 0 <= j < |args[1..]| && !Fits(c, args[1..][j]);
        assert !Fits(c, args[j + 1]);
      }
      if Fits(c, args[0]) && PackRun(order, c, args[1..]).Ok? {
        forall j | 0 <= j < |args| ensures Fits(c, args[j]) {
          if j > 0 { assert args[j] == args[1..][j - 1]; }
        }
      }
    }
  }

  /** A packed run holds one encoded value per argument, in order. */
  lemma {:induction false} PackRunAt(order: Endian, c: Code, args: seq<Obj>, j: nat)
    requires c != Chars && PackRun(order, c, args).Ok? && j < |args|
    ensures |PackRun(order, c, args).value| == |args| * Width(c)
    ensures Fits(c, args[j])
    ensures PackRun(order, c, args).value[j * Width(c)..j * Width(c) + Width(c)] == Encode(order, c, args[j].i)
  {
    var w := Width(c);
    PackRunLength(order, c, args);
    var rest := PackRun(order, c, args[1..]).value;
    var out := Encode(order, c, args[0].i) + rest;
    assert PackRun(order, c, args).value == out;
    if j > 0 {
      PackRunAt(order, c, args[1..], j - 1);
      PackRunLength(order, c, args[1..]);
      WidthTimes(c, j - 1);
      WidthTimes(c, j);
      ConcatSlice(Encode(order, c, args[0].i), rest, (j - 1) * w, w);
      assert args[j] == args[1..][j - 1];
    }
  }

  lemma {:induction false} PackRunLength(order: Endian, c: Code, args: seq<Obj>)
    requires c != Chars && PackRun(order, c, args).Ok?
    ensures |PackRun(order, c, args).value| == |args| * Width(c)
  {
    if args != [] {
      PackRunLength(order, c, args[1..]);
    }
  }

  lemma {:induction false} RunRoundTrip(order: Endian, c: Code, args: seq<Obj>)
    requires c != Chars && forall j :: 0 <= j < |args| ==> Fits(c, args[j])
    ensures PackRun(order, c, args).Ok?
    ensures |PackRun(order, c, args).value| == |args| * Width(c)
    ensures UnpackRun(order, c, |args|, PackRun(order, c, args).value) == args
  {
    PackRunOk(order, c, args);
    if args != [] {
      var w := Width(c);
      RunRoundTrip(order, c, args[1..]);
      var rest := PackRun(order, c, args[1..]).value;
      var out := Encode(order, c, args[0].i) + rest;
      assert out[..w] == Encode(order, c, args[0].i);
      assert out[w..] == rest;
      assert [args[0]] + args[1..] == args;
    }
  }

  lemma {:induction false} RunPackOfUnpack(order: Endian, c: Code, n: nat, buf: seq<byte>)
    requires c != Chars && |buf| == n * Width(c)
    ensures PackRun(order, c, UnpackRun(order, c, n, buf)) == Ok(buf)
    decreases n
  {
    if n > 0 {
      var w := Width(c);
      RunPackOfUnpack(order, c, n - 1, buf[w..]);
      EncodeDecode(order, c, buf[..w]);
      var vals := UnpackRun(order, c, n, buf);
      assert vals[1..] == UnpackRun(order, c, n - 1, buf[w..]);
      assert buf[..w] + buf[w..] == buf;
    }
  }

  // ---------------------------------------------------------------------
  // Formats of a single unit, such as "!4B" or "!11s"

  lemma SingleSizes(it: Item)
    ensures Arity([it]) == ItemArity(it)
    ensures CalcSize([it]) == ItemSize(it)
  {
    assert [it][1..] == [];
  }

  lemma UnpackSingle(order: Endian, it: Item, buf: seq<byte>)
    requires |buf| == ItemSize(it)
    ensures Unpack(Format(order, [it]), buf) ==
      Ok(if it.code == Chars then [Bytes(buf)] else UnpackRun(order, it.code, it.count, buf))
  {
    var items := [it];
    assert items[1..] == [];
    assert CalcSize(items) == ItemSize(it) + CalcSize(items[1..]);
    var size := ItemSize(it);
    assert buf[..size] == buf;
    assert buf[size..] == [];
    var head := if it.code == Chars then [Bytes(buf)] else UnpackRun(order, it.code, it.count, buf);
    assert UnpackItems(order, items, buf) == head + UnpackItems(order, items[1..], buf[size..]);
    assert head + [] == head;
  }

  lemma PackSingle(order: Endian, it: Item, args: seq<Obj>)
    requires |args| == ItemArity(it)
    ensures Pack(Format(order, [it]), args) ==
      if it.code == Chars then
        (if args[0].Bytes? then Ok(Fit(args[0].b, it.count)) else Err(StructError))
      else PackRun(order, it.code, args)
  {
    var items := [it];
    var k := ItemArity(it);
    assert items[1..] == [];
    assert Arity(items) == k + Arity(items[1..]);
    assert args[..k] == args;
    assert args[k..] == [];
    assert PackItems(order, items[1..], args[k..]) == Ok([]);
    var head :=
      if it.code == Chars then
        (if args[0].Bytes? then Ok(Fit(args[0].b, it.count)) else Err(StructError))
      else PackRun(order, it.code, args[..k]);
    if head.Ok? {
      assert head.value + [] == head.value;
      assert PackItems(order, items, args) == Ok(head.value + []);
    } else {
      assert PackItems(order, items, args) == Err(head.exc);
    }
  }

  // ---------------------------------------------------------------------
  // Whole formats

  lemma {:induction false} PackLength(order: Endian, items: seq<Item>, args: seq<Obj>)
    requires |args| == Arity(items)
    ensures PackItems(order, items, args).Ok? ==> |PackItems(order, items, args).value| == CalcSize(items)
    ensures PackItems(order, items, args).Err? ==> PackItems(order, items, args).exc == StructError
  {
    if items != [] {
      var k := ItemArity(items[0]);
      PackLength(order, items[1..], args[k..]);
      HeadLength(order, items[0], args[..k]);
    }
  }

  lemma HeadLength(order: Endian, it: Item, a: seq<Obj>)
    requires |a| == ItemArity(it)
    ensures PackHead(order, it, a).Ok? ==> |PackHead(order, it, a).value| == ItemSize(it)
    ensures PackHead(order, it, a).Err? ==> PackHead(order, it, a).exc == StructError
  {
    if it.code != Chars {
      PackRunOk(order, it.code, a);
      if PackRun(order, it.code, a).Ok? {
        PackRunLength(order, it.code, a);
        assert |a| * Width(it.code) == ItemSize(it);
      }
    }
  }

  /** Packing canonical arguments succeeds, and unpacking the octets gives
      the arguments back. */
  lemma {:induction false} UnpackOfPack(f: Format, args: seq<Obj>)
    requires Canonical(f.items, args)
    ensures Pack(f, args).Ok?
    ensures |Pack(f, args).value| == CalcSize(f.items)
    ensures Unpack(f, Pack(f, args).value) == Ok(args)
  {
    ItemsRoundTrip(f.order, f.items, args);
  }

  lemma {:induction false} CanonicalArity(items: seq<Item>, args: seq<Obj>)
    requires Canonical(items, args)
    ensures |args| == Arity(items)
  {
    if items != [] {
      CanonicalArity(items[1..], args[ItemArity(items[0])..]);
    }
  }

  lemma {:induction false} ItemsRoundTrip(order: Endian, items: seq<Item>, args: seq<Obj>)
    requires Canonical(items, args)
    ensures |args| == Arity(items)
    ensures PackItems(order, items, args).Ok?
    ensures |PackItems(order, items, args).value| == CalcSize(items)
    ensures UnpackItems(order, items, PackItems(order, items, args).value) == args
  {
    CanonicalArity(items, args);
    if items != [] {
      var it := items[0];
      var k := ItemArity(it);
      assert k <= |args| && Canonical(items[1..], args[k..]);
      ItemsRoundTrip(order, items[1..], args[k..]);
      var a := args[..k];
      assert it.code == Chars ==> a[0] == args[0] && a[0].Bytes? && |a[0].b| == it.count;
      assert it.code != Chars ==> forall j :: 0 <= j < |a| ==> Fits(it.code, a[j]);
      HeadRoundTrip(order, it, a);
      ConsRoundTrip(order, items, args, PackHead(order, it, a).value, PackItems(order, items[1..], args[k..]).value);
    }
  }

  /** The step of `ItemsRoundTrip`: the first unit's round trip followed by
      the rest's. */
  lemma ConsRoundTrip(order: Endian, items: seq<Item>, args: seq<Obj>, h: seq<byte>, t: seq<byte>)
    requires items != [] && |args| == Arity(items) && ItemArity(items[0]) <= |args|
    requires |h| == ItemSize(items[0]) && |t| == CalcSize(items[1..])
    requires PackHead(order, items[0], args[..ItemArity(items[0])]) == Ok(h)
    requires UnpackHead(order, items[0], h) == args[..ItemArity(items[0])]
    requires PackItems(order, items[1..], args[ItemArity(items[0])..]) == Ok(t)
    requires UnpackItems(order, items[1..], t) == args[ItemArity(items[0])..]
    ensures PackItems(order, items, args) == Ok(h + t)
    ensures |h + t| == CalcSize(items)
    ensures UnpackItems(order, items, h + t) == args
  {
    ConsUnpack(order, items, h, t);
    assert args[..ItemArity(items[0])] + args[ItemArity(items[0])..] == args;
  }

  /** Unpacking a concatenation unit by unit. */
  lemma ConsUnpack(order: Endian, items: seq<Item>, h: seq<byte>, t: seq<byte>)
    requires items != [] && |h| == ItemSize(items[0]) && |t| == CalcSize(items[1..])
    ensures |h + t| == CalcSize(items)
    ensures UnpackItems(order, items, h + t) == UnpackHead(order, items[0], h) + UnpackItems(order, items[1..], t)
  {
    assert (h + t)[..|h|] == h;
    assert (h + t)[|h|..] == t;
  }

  /** One unit's round trip: canonical values pack to `ItemSize` octets and
      unpack to themselves. */
  lemma HeadRoundTrip(order: Endian, it: Item, a: seq<Obj>)
    requires |a| == ItemArity(it)
    requires it.code == Chars ==> a[0].Bytes? && |a[0].b| == it.count
    requires it.code != Chars ==> forall j :: 0 <= j < |a| ==> Fits(it.code, a[j])
    ensures PackHead(order, it, a).Ok?
    ensures |PackHead(order, it, a).value| == ItemSize(it)
    ensures UnpackHead(order, it, PackHead(order, it, a).value) == a
  {
    if it.code != Chars {
      RunRoundTrip(order, it.code, a);
      if it.code == UShort {
        assert |a| * Width(it.code) == 2 * it.count;
      } else {
        assert |a| * Width(it.code) == it.count;
      }
    } else {
      assert a == [a[0]];
    }
  }

  /** Packing what was unpacked gives the buffer back. */
  lemma {:induction false} PackOfUnpack(f: Format, buf: seq<byte>)
    requires Unpack(f, buf).Ok?
    ensures Canonical(f.items, Unpack(f, buf).value)
    ensures Pack(f, Unpack(f, buf).value) == Ok(buf)
  {
    ItemsPackOfUnpack(f.order, f.items, buf);
    CanonicalArity(f.items, Unpack(f, buf).value);
  }

  lemma {:induction false} ItemsPackOfUnpack(order: Endian, items: seq<Item>, buf: seq<byte>)
    requires |buf| == CalcSize(items)
    ensures Canonical(items, UnpackItems(order, items, buf))
    ensures |UnpackItems(order, items, buf)| == Arity(items)
    ensures PackItems(order, items, UnpackItems(order, items, buf)) == Ok(buf)
  {
    if items != [] {
      var size := ItemSize(items[0]);
      var h, t := buf[..size], buf[size..];
      ItemsPackOfUnpack(order, items[1..], t);
      HeadPackOfUnpack(order, items[0], h);
      ConsPackOfUnpack(order, items, h, t, UnpackHead(order, items[0], h), UnpackItems(order, items[1..], t));
      assert h + t == buf;
    }
  }

  /** One unit's values repack to the octets they came from. */
  lemma HeadPackOfUnpack(order: Endian, it: Item, chunk: seq<byte>)
    requires |chunk| == ItemSize(it)
    ensures |UnpackHead(order, it, chunk)| == ItemArity(it)
    ensures it.code == Chars ==> UnpackHead(order, it, chunk)[0] == Bytes(chunk) && |chunk| == it.count
    ensures it.code != Chars ==> forall j :: 0 <= j < it.count ==> Fits(it.code, UnpackHead(order, it, chunk)[j])
    ensures PackHead(order, it, UnpackHead(order, it, chunk)) == Ok(chunk)
  {
    if it.code != Chars {
      UnpackRunLength(order, it.code, it.count, chunk);
      RunPackOfUnpack(order, it.code, it.count, chunk);
    }
  }

  /** The step of `ItemsPackOfUnpack`. */
  lemma ConsPackOfUnpack(order: Endian, items: seq<Item>, h: seq<byte>, t: seq<byte>, hv: seq<Obj>, tv: seq<Obj>)
    requires items != [] && |h| == ItemSize(items[0]) && |t| == CalcSize(items[1..])
    requires hv == UnpackHead(order, items[0], h) && |hv| == ItemArity(items[0])
    requires items[0].code == Chars ==> hv[0] == Bytes(h) && |h| == items[0].count
    requires items[0].code != Chars ==> forall j :: 0 <= j < items[0].count ==> Fits(items[0].code, hv[j])
    requires PackHead(order, items[0], hv) == Ok(h)
    requires tv == UnpackItems(order, items[1..], t) && Canonical(items[1..], tv) && |tv| == Arity(items[1..])
    requires PackItems(order, items[1..], tv) == Ok(t)
    ensures UnpackItems(order, items, h + t) == hv + tv
    ensures Canonical(items, hv + tv)
    ensures |hv + tv| == Arity(items)
    ensures PackItems(order, items, hv + tv) == Ok(h + t)
  {
    var k := |hv|;
    ConsUnpack(order, items, h, t);
    assert (hv + tv)[..k] == hv;
    assert (hv + tv)[k..] == tv;
  }
}
