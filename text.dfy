/** Text conversions the codec uses on dotted-quad addresses: `str(i)` of an
    integer, `int(s)` of a string, `s.split(".")` and `".".join(parts)`. */
module Text {
  import opened Py

  predicate IsDigit(c: char)
  {
    '0' <= c <= '9'
  }

  predicate AllDigits(s: string)
  {
    forall k :: 0 <= k < |s| ==> IsDigit(s[k])
  }

  function DigitChar(d: nat): (c: char)
    requires d < 10
    ensures IsDigit(c)
  {
    (48 + d) as char
  }

  function DigitValue(c: char): (d: nat)
    requires IsDigit(c)
    ensures d < 10 && DigitChar(d) == c
  {
    c as int - 48
  }

  /** The number a string of decimal digits denotes. */
  function DigitsValue(s: string): nat
    requires AllDigits(s)
  {
    if s == [] then 0 else DigitsValue(s[..|s| - 1]) * 10 + DigitValue(s[|s| - 1])
  }

  /** Decimal digits as `str` writes them: at least one digit, and no
      leading zero unless the number is zero. */
  predicate IsCanonicalDigits(s: string)
  {
    s != [] && AllDigits(s) && (s[0] == '0' ==> |s| == 1)
  }

  /** `str(n)` for a non-negative integer. */
  function Decimal(n: nat): string
    decreases n
  {
    if n < 10 then [DigitChar(n)] else Decimal(n / 10) + [DigitChar(n % 10)]
  }

  /** `str(i)` for any integer. */
  function IntToStr(i: int): string
  {
    if i < 0 then "-" + Decimal(-i) else Decimal(i)
  }

  /** The whitespace `int()` strips, restricted to ASCII. */
  predicate IsSpace(c: char)
  {
    c == ' ' || c == '\t' || c == '\n' || c == '\r' || c as int == 11 || c as int == 12
  }

  function TrimLeft(s: string): string
  {
    if s != [] && IsSpace(s[0]) then TrimLeft(s[1..]) else s
  }

  function TrimRight(s: string): string
  {
    if s != [] && IsSpace(s[|s| - 1]) then TrimRight(s[..|s| - 1]) else s
  }

  /** Digits in groups separated by single underscores, as `int()` accepts. */
  predicate IsDigitGroups(s: string)
  {
    s != [] && IsDigit(s[0]) && IsDigit(s[|s| - 1]) &&
    (forall k :: 0 <= k < |s| ==> IsDigit(s[k]) || s[k] == '_') &&
    (forall k :: 0 <= k < |s| - 1 ==> s[k] == '_' ==> s[k + 1] != '_')
  }

  function DropUnderscores(s: string): (r: string)
    ensures (forall k :: 0 <= k < |s| ==> IsDigit(s[k]) || s[k] == '_') ==> AllDigits(r)
  {
    if s == [] then []
    else (if s[0] == '_' then [] else [s[0]]) + DropUnderscores(s[1..])
  }

  /** `int(s)` for a string: surrounding whitespace, an optional sign, then
      digit groups; anything else raises `ValueError`. */
  function ParseInt(s: string): Result<int>
  {
    var t := TrimRight(TrimLeft(s));
    if t == [] then Err(ValueError)
    else
      var neg := t[0] == '-';
      var body := if t[0] == '-' || t[0] == '+' then t[1..] else t;
      if !IsDigitGroups(body) then Err(ValueError)
      else
        var v: int := DigitsValue(DropUnderscores(body));
        Ok(if neg then -v else v)
  }

  /** `[int(p) for p in pieces]`: the first piece `int()` refuses raises. */
  function ParseInts(pieces: seq<string>): Result<seq<int>>
  {
    if pieces == [] then Ok([])
    else
      match ParseInt(pieces[0])
      case Err(e) => Err(e)
      case Ok(v) =>
        match ParseInts(pieces[1..])
        case Err(e) => Err(e)
        case Ok(vs) => Ok([v] + vs)
  }

  /** `s.split(".")`: the maximal dot-free pieces, always at least one. */
  function SplitDots(s: string): (r: seq<string>)
    ensures |r| >= 1
  {
    if s == [] then [[]]
    else
      var rest := SplitDots(s[1..]);
      if s[0] == '.' then [[]] + rest else [[s[0]] + rest[0]] + rest[1..]
  }

  /** `".".join(parts)`. */
  function JoinDots(parts: seq<string>): string
  {
    if parts == [] then []
    else if |parts| == 1 then parts[0]
    else parts[0] + "." + JoinDots(parts[1..])
  }

  /** `[str(i) for i in xs]`. */
  function Strs(xs: seq<int>): (r: seq<string>)
    ensures |r| == |xs| && forall k :: 0 <= k < |xs| ==> r[k] == IntToStr(xs[k])
  {
    seq(|xs|, k requires 0 <= k < |xs| => IntToStr(xs[k]))
  }

  /** `".".join([str(i) for i in xs])`. */
  function Dotted(xs: seq<int>): string
  {
    JoinDots(Strs(xs))
  }

  predicate NoDot(s: string)
  {
    forall k :: 0 <= k < |s| ==> s[k] != '.'
  }

  // ---------------------------------------------------------------------
  // str and int

  /** `str(n)` writes canonical digits and denotes n. */
  lemma {:induction false} DecimalCanonical(n: nat)
    ensures IsCanonicalDigits(Decimal(n))
    ensures DigitsValue(Decimal(n)) == n
    decreases n
  {
    if n >= 10 {
      DecimalCanonical(n / 10);
      var s := Decimal(n);
      assert s[..|s| - 1] == Decimal(n / 10);
    }
  }

  /** Conversely every canonical digit string is what `str` writes for its
      value: canonical strings and natural numbers correspond one to one. */
  lemma {:induction false} CanonicalIsDecimal(s: string)
    requires IsCanonicalDigits(s)
    ensures Decimal(DigitsValue(s)) == s
    decreases |s|
  {
    if |s| > 1 {
      var init := s[..|s| - 1];
      assert init[0] == s[0];
      LeadingDigitPositive(init);
      CanonicalIsDecimal(init);
      var v := DigitsValue(s);
      var d := DigitValue(s[|s| - 1]);
      assert v == DigitsValue(init) * 10 + d;
      assert v / 10 == DigitsValue(init) && v % 10 == d;
      assert s == init + [s[|s| - 1]];
    } else {
      assert s == [DigitChar(DigitValue(s[0]))];
    }
  }

  lemma {:induction false} LeadingDigitPositive(s: string)
    requires AllDigits(s) && s != [] && s[0] != '0'
    ensures DigitsValue(s) >= 1
    decreases |s|
  {
    if |s| > 1 {
      var init := s[..|s| - 1];
      assert init[0] == s[0];
      LeadingDigitPositive(init);
    }
  }

  lemma StripNoSpace(s: string)
    requires s != [] && !IsSpace(s[0]) && !IsSpace(s[|s| - 1])
    ensures TrimRight(TrimLeft(s)) == s
  {
  }

  lemma {:induction false} DropNoUnderscore(s: string)
    requires AllDigits(s)
    ensures DropUnderscores(s) == s
    decreases |s|
  {
    if s != [] {
      DropNoUnderscore(s[1..]);
      assert [s[0]] + s[1..] == s;
    }
  }

  /** `int()` of a string with no surrounding whitespace: an optional sign,
      then digit groups. */
  lemma ParseTrimmed(s: string)
    requires s != [] && !IsSpace(s[0]) && !IsSpace(s[|s| - 1])
    ensures var body := if s[0] == '-' || s[0] == '+' then s[1..] else s;
      ParseInt(s) ==
        if !IsDigitGroups(body) then Err(ValueError)
        else Ok(if s[0] == '-' then -(DigitsValue(DropUnderscores(body)) as int) else DigitsValue(DropUnderscores(body)))
  {
    StripNoSpace(s);
  }

  /** `int()` of a non-empty digit string is the number it denotes. */
  lemma ParseDigits(s: string)
    requires s != [] && AllDigits(s)
    ensures ParseInt(s) == Ok(DigitsValue(s))
  {
    assert IsDigit(s[0]) && IsDigit(s[|s| - 1]);
    ParseTrimmed(s);
    assert IsDigitGroups(s);
    DropNoUnderscore(s);
  }

  /** `int()` of a minus sign and a non-empty digit string is its negation. */
  lemma ParseNegatedDigits(s: string)
    requires |s| >= 2 && s[0] == '-' && AllDigits(s[1..])
    ensures ParseInt(s) == Ok(-(DigitsValue(s[1..]) as int))
  {
    var d := s[1..];
    assert s[|s| - 1] == d[|d| - 1] && IsDigit(d[|d| - 1]);
    ParseTrimmed(s);
    assert IsDigitGroups(d);
    DropNoUnderscore(d);
  }

  /** `int(str(n))` is n. */
  lemma ParseDecimal(n: nat)
    ensures ParseInt(Decimal(n)) == Ok(n)
  {
    DecimalCanonical(n);
    ParseDigits(Decimal(n));
  }

  /** `int(str(i))` is i for every integer, negative ones included. */
  lemma ParseIntToStr(i: int)
    ensures ParseInt(IntToStr(i)) == Ok(i)
  {
    if i < 0 {
      var s := IntToStr(i);
      NegativeStr(i, s);
      ParseNegatedDigits(s);
    } else {
      ParseDecimal(i);
    }
  }

  /** `str(i)` of a negative i is a minus sign and the digits of -i. */
  lemma NegativeStr(i: int, s: string)
    requires i < 0 && s == IntToStr(i)
    ensures |s| >= 2 && s[0] == '-' && s[1..] == Decimal(-i)
    ensures AllDigits(s[1..]) && DigitsValue(s[1..]) == -i
  {
    DecimalCanonical(-i);
  }

  /** A leading zero changes neither what `int()` accepts nor the value. */
  lemma {:induction false} ZeroPrefixValue(s: string)
    requires AllDigits(s)
    ensures AllDigits("0" + s) && DigitsValue("0" + s) == DigitsValue(s)
    decreases |s|
  {
    var z := "0" + s;
    if s != [] {
      ZeroPrefixValue(s[..|s| - 1]);
      assert z[..|z| - 1] == "0" + s[..|s| - 1];
      assert z[|z| - 1] == s[|s| - 1];
    } else {
      assert z[..0] == [];
    }
  }

  /** `int("0" + str(n))` is n: `int()` does not insist on canonical digits. */
  lemma ParseZeroPadded(n: nat)
    ensures ParseInt("0" + Decimal(n)) == Ok(n)
  {
    DecimalCanonical(n);
    ZeroPrefixValue(Decimal(n));
    ParseDigits("0" + Decimal(n));
  }

  lemma IntToStrNoDot(i: int)
    ensures NoDot(IntToStr(i))
    ensures IntToStr(i) != []
  {
    DecimalCanonical(if i < 0 then -i else i);
  }

  // ---------------------------------------------------------------------
  // split and join

  lemma {:induction false} SplitDotFree(a: string, t: string)
    requires NoDot(a)
    ensures SplitDots(a + t) == [a + SplitDots(t)[0]] + SplitDots(t)[1..]
    decreases |a|
  {
    if a != [] {
      SplitDotFree(a[1..], t);
      assert (a + t)[1..] == a[1..] + t;
      assert [a[0]] + (a[1..] + SplitDots(t)[0]) == a + SplitDots(t)[0];
      var rest := SplitDots((a + t)[1..]);
      assert rest[0] == a[1..] + SplitDots(t)[0];
      assert rest[1..] == SplitDots(t)[1..];
    } else {
      assert a + t == t;
      assert a + SplitDots(t)[0] == SplitDots(t)[0];
      assert SplitDots(t) == [SplitDots(t)[0]] + SplitDots(t)[1..];
    }
  }

  /** Splitting a join of dot-free pieces gives the pieces back. */
  lemma {:induction false} SplitOfJoin(parts: seq<string>)
    requires parts != []
    requires forall k :: 0 <= k < |parts| ==> NoDot(parts[k])
    ensures SplitDots(JoinDots(parts)) == parts
    decreases |parts|
  {
    if |parts| == 1 {
      SplitDotFree(parts[0], []);
      assert parts[0] + [] == parts[0];
      assert SplitDots([]) == [[]];
      assert [parts[0] + SplitDots([])[0]] + SplitDots([])[1..] == [parts[0]];
    } else {
      var j := JoinDots(parts[1..]);
      SplitOfJoin(parts[1..]);
      SplitDotFree(parts[0], "." + j);
      assert parts[0] + "." + j == parts[0] + ("." + j);
      assert ("." + j)[1..] == j;
      var dj := "." + j;
      assert dj[0] == '.' && dj[1..] == j;
      assert SplitDots(dj) == [[]] + SplitDots(j);
      assert SplitDots(dj)[0] == [] && SplitDots(dj)[1..] == parts[1..];
      assert parts[0] + SplitDots(dj)[0] == parts[0];
      assert JoinDots(parts) == parts[0] + dj;
      assert parts == [parts[0]] + parts[1..];
    }
  }

  /** Joining the pieces of a split gives the string back, for every string. */
  lemma {:induction false} JoinOfSplit(s: string)
    ensures JoinDots(SplitDots(s)) == s
    decreases |s|
  {
    if s != [] {
      JoinOfSplit(s[1..]);
      var rest := SplitDots(s[1..]);
      if |rest| >= 2 {
        assert JoinDots(rest) == rest[0] + "." + JoinDots(rest[1..]);
      }
      if s[0] != '.' && |rest| >= 2 {
        var parts := [[s[0]] + rest[0]] + rest[1..];
        assert parts[1..] == rest[1..];
      }
      assert s == [s[0]] + s[1..];
    }
  }

  /** `[int(p) for p in ".".join(str(i) for i in xs).split(".")]` is xs for
      every non-empty list of integers. */
  lemma {:induction false} DottedRoundTrip(xs: seq<int>)
    requires xs != []
    ensures ParseInts(SplitDots(Dotted(xs))) == Ok(xs)
  {
    var parts := Strs(xs);
    forall k | 0 <= k < |parts| ensures NoDot(parts[k]) {
      IntToStrNoDot(xs[k]);
    }
    SplitOfJoin(parts);
    ParseIntsOfStr(xs);
  }

  lemma {:induction false} ParseIntsOfStr(xs: seq<int>)
    ensures ParseInts(Strs(xs)) == Ok(xs)
    decreases |xs|
  {
    var parts := Strs(xs);
    if xs != [] {
      ParseIntsOfStr(xs[1..]);
      assert parts[1..] == Strs(xs[1..]);
      ParseIntToStr(xs[0]);
      ParseIntsCons(parts, xs[0], xs[1..]);
      assert [xs[0]] + xs[1..] == xs;
    }
  }

  lemma ParseIntsCons(pieces: seq<string>, v: int, vs: seq<int>)
    requires pieces != [] && ParseInt(pieces[0]) == Ok(v) && ParseInts(pieces[1..]) == Ok(vs)
    ensures ParseInts(pieces) == Ok([v] + vs)
  {
  }
}
