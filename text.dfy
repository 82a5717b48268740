/** The string operations of the .NET library that the session channel relies on:
    `TrimStart`, `Split` and `Join` on a single separator character, `IndexOf`, the
    `X2` hexadecimal format with its parser, and decimal `ToString` with its parsers. */
module Text {
  import opened Basics
  import opened Bytes

  /** `char.IsWhiteSpace`: the Unicode separators and the control characters U+0009-U+000D,
      U+0085. */
  predicate IsWhiteSpace(c: char) {
    || ('\t' <= c <= '\r') || c == ' ' || c == '\U{85}' || c == '\U{A0}' || c == '\U{1680}'
    || ('\U{2000}' <= c <= '\U{200A}') || c == '\U{2028}' || c == '\U{2029}' || c == '\U{202F}'
    || c == '\U{205F}' || c == '\U{3000}'
  }

  /** `String.TrimStart()`: the input without its leading white space. */
  function TrimStart(s: string): (r: string)
    ensures |r| <= |s| && r == s[|s| - |r|..]
    ensures r == [] || !IsWhiteSpace(r[0])
    ensures forall i :: 0 <= i < |s| - |r| ==> IsWhiteSpace(s[i])
  {
    if |s| > 0 && IsWhiteSpace(s[0]) then TrimStart(s[1..]) else s
  }

  /** `String.IndexOf(char)`: the first position of `c`, or -1. */
  function IndexOf(s: string, c: char): (r: int)
    ensures -1 <= r < |s|
    ensures r == -1 <==> c !in s
    ensures r >= 0 ==> s[r] == c && c !in s[..r]
  {
    if |s| == 0 then -1
    else if s[0] == c then 0
    else
      var k := IndexOf(s[1..], c);
      if k < 0 then -1
      else
        assert s[..k + 1] == [s[0]] + s[1..][..k];
        k + 1
  }

  lemma IndexOfAfter(a: string, c: char, b: string)
    requires c !in a
    ensures IndexOf(a + [c] + b, c) == |a|
  {
    var s := a + [c] + b;
    assert s[|a|] == c;
    assert s[..|a|] == a;
  }

  /** A split at the first separator. */
  lemma SplitCons(a: string, c: char, b: string)
    requires c !in a
    ensures Split(a + [c] + b, c) == [a] + Split(b, c)
  {
    var s := a + [c] + b;
    IndexOfAfter(a, c, b);
    assert s[..|a|] == a;
    assert s[|a| + 1..] == b;
  }

  /** `String.Split(char)`: the pieces between the separators, empty pieces included;
      there is always at least one piece. */
  function Split(s: string, c: char): (r: seq<string>)
    ensures |r| >= 1
    ensures forall k :: 0 <= k < |r| ==> c !in r[k]
    decreases |s|
  {
    var i := IndexOf(s, c);
    if i < 0 then [s] else [s[..i]] + Split(s[i + 1..], c)
  }

  /** `String.Join` with a one-character separator. */
  function Join(ts: seq<string>, c: char): string {
    if |ts| == 0 then ""
    else if |ts| == 1 then ts[0]
    else ts[0] + [c] + Join(ts[1..], c)
  }

  /** A character in none of the pieces, and not the separator, is not in their join. */
  lemma {:induction false} JoinLacks(ts: seq<string>, sep: char, c: char)
    requires c != sep && forall k :: 0 <= k < |ts| ==> c !in ts[k]
    ensures c !in Join(ts, sep)
    decreases |ts|
  {
    if |ts| > 1 {
      assert forall k :: 0 <= k < |ts| - 1 ==> ts[1..][k] == ts[k + 1];
      JoinLacks(ts[1..], sep, c);
    }
  }

  /** Splitting a join gives back the pieces when no piece contains the separator. */
  lemma {:induction false} SplitJoin(ts: seq<string>, c: char)
    requires |ts| >= 1
    requires forall k :: 0 <= k < |ts| ==> c !in ts[k]
    ensures Split(Join(ts, c), c) == ts
    decreases |ts|
  {
    if |ts| > 1 {
      SplitCons(ts[0], c, Join(ts[1..], c));
      SplitJoin(ts[1..], c);
      assert [ts[0]] + ts[1..] == ts;
    }
  }

  /** Joining the pieces of a split gives back the string. */
  lemma {:induction false} JoinSplit(s: string, c: char)
    ensures Join(Split(s, c), c) == s
    decreases |s|
  {
    var i := IndexOf(s, c);
    if i >= 0 {
      var tail := Split(s[i + 1..], c);
      JoinSplit(s[i + 1..], c);
      assert ([s[..i]] + tail)[1..] == tail;
      assert s == s[..i] + [c] + s[i + 1..];
    }
  }

  // ---------------------------------------------------------------------------
  // Hexadecimal

  function HexDigit(n: nat): (c: char)
    requires n < 16
  {
    if n < 10 then ('0' as int + n) as char else ('A' as int + n - 10) as char
  }

  /** The value of a hexadecimal digit in either case, as `Convert.ToByte(s, 16)` reads it. */
  function HexValue(c: char): Option<nat> {
    if '0' <= c <= '9' then Some(c as int - '0' as int)
    else if 'A' <= c <= 'F' then Some(c as int - 'A' as int + 10)
    else if 'a' <= c <= 'f' then Some(c as int - 'a' as int + 10)
    else None
  }

  predicate IsHexDigit(c: char) {
    HexValue(c).Some?
  }

  lemma HexValueOfDigit(n: nat)
    requires n < 16
    ensures HexValue(HexDigit(n)) == Some(n)
  {
  }

  /** `b.ToString("X2")`: two upper-case hexadecimal digits, high nibble first. */
  function HexByte(b: byte): (r: string)
    ensures |r| == 2
  {
    [HexDigit(b / 16), HexDigit(b % 16)]
  }

  /** `Convert.ToByte(s, 16)` on a two-character string. */
  function ParseHexPair(hi: char, lo: char): (r: Result<byte>)
    ensures r.Ok? <==> IsHexDigit(hi) && IsHexDigit(lo)
  {
    match (HexValue(hi), HexValue(lo))
    case (Some(h), Some(l)) => Ok(h * 16 + l)
    case _ => Throws(Format)
  }

  lemma ParseHexByte(b: byte)
    ensures ParseHexPair(HexByte(b)[0], HexByte(b)[1]) == Ok(b)
  {
    HexValueOfDigit(b / 16);
    HexValueOfDigit(b % 16);
  }

  /** The `X2` digits of each byte in turn. */
  function HexString(bs: seq<byte>): (r: string)
    ensures |r| == 2 * |bs|
  {
    if bs == [] then "" else HexByte(bs[0]) + HexString(bs[1..])
  }

  /** The pairwise hexadecimal decoding `SendAPDU` applies to `rec_data`:
      `Substring(i, 2)` of an odd-length string fails at its last character. */
  function HexDecode(s: string): (r: Result<seq<byte>>)
    ensures r.Ok? ==> |r.value| * 2 == |s|
    decreases |s|
  {
    if |s| == 0 then Ok([])
    else if |s| < 2 then Throws(ArgumentOutOfRange)
    else
      match ParseHexPair(s[0], s[1])
      case Throws(e) => Throws(e)
      case Ok(b) =>
        match HexDecode(s[2..])
        case Throws(e) => Throws(e)
        case Ok(rest) => Ok([b] + rest)
  }

  /** Decoding the `X2` encoding gives back the bytes. */
  lemma {:induction false} HexDecodeString(bs: seq<byte>)
    ensures HexDecode(HexString(bs)) == Ok(bs)
  {
    if bs != [] {
      var s := HexString(bs);
      assert s[2..] == HexString(bs[1..]);
      ParseHexByte(bs[0]);
      HexDecodeString(bs[1..]);
      assert [bs[0]] + bs[1..] == bs;
    }
  }

  /** Decoding succeeds exactly on strings of an even number of hexadecimal digits. */
  lemma {:induction false} HexDecodeOk(s: string)
    ensures HexDecode(s).Ok? <==> |s| % 2 == 0 && forall i :: 0 <= i < |s| ==> IsHexDigit(s[i])
    decreases |s|
  {
    if |s| >= 2 {
      HexDecodeOk(s[2..]);
      assert forall i :: 2 <= i < |s| ==> s[i] == s[2..][i - 2];
    }
  }

  /** The number a string of hexadecimal digits denotes. */
  function HexDigitsValue(s: string): nat
    requires forall i :: 0 <= i < |s| ==> IsHexDigit(s[i])
  {
    if |s| == 0 then 0
    else
      var last := s[|s| - 1];
      assert IsHexDigit(last);
      HexDigitsValue(s[..|s| - 1]) * 16 + HexValue(last).value
  }

  // ---------------------------------------------------------------------------
  // Decimal

  predicate IsDigit(c: char) {
    '0' <= c <= '9'
  }

  function DecimalDigit(n: nat): (c: char)
    requires n < 10
    ensures IsDigit(c)
  {
    ('0' as int + n) as char
  }

  /** `ToString()` of a non-negative number: its decimal digits, no leading zero. */
  function NatString(n: nat): (r: string)
    ensures |r| >= 1 && forall i :: 0 <= i < |r| ==> IsDigit(r[i])
  {
    if n < 10 then [DecimalDigit(n)] else NatString(n / 10) + [DecimalDigit(n % 10)]
  }

  /** `int.ToString()`: a minus sign before the digits of a negative number. */
  function IntString(i: int): string {
    if i < 0 then "-" + NatString(-i) else NatString(i)
  }

  /** The number a string of decimal digits denotes. */
  function DigitsValue(s: string): nat
    requires forall i :: 0 <= i < |s| ==> IsDigit(s[i])
  {
    if |s| == 0 then 0
    else
      var last := s[|s| - 1];
      assert IsDigit(last);
      DigitsValue(s[..|s| - 1]) * 10 + (last as int - '0' as int)
  }

  /** An optional minus sign followed by at least one decimal digit. */
  function ParseInteger(s: string): Option<int> {
    if |s| > 0 && s[0] == '-' then
      var d := s[1..];
      if |d| > 0 && forall i :: 0 <= i < |d| ==> IsDigit(d[i]) then Some(0 - DigitsValue(d)) else None
    else if |s| > 0 && forall i :: 0 <= i < |s| ==> IsDigit(s[i]) then Some(DigitsValue(s) as int)
    else None
  }

  /** `int.Parse`. */
  function ParseInt32(s: string): (r: Result<i32>)
    ensures r.Ok? <==> ParseInteger(s).Some? && -0x8000_0000 <= ParseInteger(s).value < 0x8000_0000
  {
    match ParseInteger(s)
    case None => Throws(Format)
    case Some(v) => if -0x8000_0000 <= v < 0x8000_0000 then Ok(v) else Throws(Overflow)
  }

  /** `ushort.Parse`. */
  function ParseUInt16(s: string): (r: Result<u16>)
    ensures r.Ok? <==> ParseInteger(s).Some? && 0 <= ParseInteger(s).value < 0x1_0000
  {
    match ParseInteger(s)
    case None => Throws(Format)
    case Some(v) => if 0 <= v < 0x1_0000 then Ok(v) else Throws(Overflow)
  }

  lemma {:induction false} DigitsValueOfNatString(n: nat)
    ensures DigitsValue(NatString(n)) == n
  {
    if n >= 10 {
      var r := NatString(n);
      assert r[..|r| - 1] == NatString(n / 10);
      DigitsValueOfNatString(n / 10);
    }
  }

  /** Parsing the decimal text of a number gives back the number. */
  lemma ParseIntegerOfIntString(i: int)
    ensures ParseInteger(IntString(i)) == Some(i)
  {
    if i < 0 {
      ParseNegative(-i);
    } else {
      ParseNatural(i);
    }
  }

  lemma ParseNatural(n: nat)
    ensures ParseInteger(NatString(n)) == Some(n)
  {
    var s := NatString(n);
    assert s[0] != '-' by {
      assert IsDigit(s[0]);
    }
    DigitsValueOfNatString(n);
  }

  lemma ParseNegative(n: nat)
    requires n > 0
    ensures ParseInteger("-" + NatString(n)) == Some(-(n as int))
  {
    var s := "-" + NatString(n);
    assert s[0] == '-';
    assert s[1..] == NatString(n);
    DigitsValueOfNatString(n);
  }

  lemma ParseInt32OfIntString(i: i32)
    ensures ParseInt32(IntString(i)) == Ok(i)
  {
    ParseIntegerOfIntString(i);
  }

  lemma ParseUInt16OfNatString(p: u16)
    ensures ParseUInt16(NatString(p)) == Ok(p)
  {
    ParseIntegerOfIntString(p);
  }

  /** Different numbers have different decimal texts. */
  lemma IntStringInjective(i: int, j: int)
    requires i != j
    ensures IntString(i) != IntString(j)
  {
    ParseIntegerOfIntString(i);
    ParseIntegerOfIntString(j);
  }
}
