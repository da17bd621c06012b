/** The text forms the bridge gives to bus values: two-digit hex for the raw
    dump (`printf("%02x")`), unpadded lower-case hex for time-series tags
    (`String(b, 16)`), and decimal for published values (`String(int)`).
    Each form comes with its parser and a round-trip lemma, so that no
    formatted value loses information. */
module Format {
  import opened BusTypes

  // ---------------------------------------------------------------------
  // Hexadecimal

  predicate IsHexDigit(c: char)
  {
    ('0' <= c <= '9') || ('a' <= c <= 'f')
  }

  /** The lower-case hex digit of a value below 16. */
  function HexDigit(d: nat): (c: char)
    requires d < 16
    ensures IsHexDigit(c)
  {
    if d < 10 then ('0' as int + d) as char else ('a' as int + d - 10) as char
  }

  function HexValue(c: char): (d: nat)
    requires IsHexDigit(c)
    ensures d < 16
  {
    if c <= '9' then c as int - '0' as int else c as int - 'a' as int + 10
  }

  lemma HexDigitRoundTrip(d: nat)
    requires d < 16
    ensures HexValue(HexDigit(d)) == d
  {
  }

  /** `%02x`: exactly two lower-case hex digits, high nibble first. */
  function Hex2(b: Byte): (s: string)
    ensures |s| == 2 && IsHexDigit(s[0]) && IsHexDigit(s[1])
  {
    [HexDigit(b / 16), HexDigit(b % 16)]
  }

  function ParseHex2(s: string): (r: Option<Byte>)
  {
    if |s| == 2 && IsHexDigit(s[0]) && IsHexDigit(s[1])
    then Some(16 * HexValue(s[0]) + HexValue(s[1]))
    else None
  }

  lemma Hex2RoundTrip(b: Byte)
    ensures ParseHex2(Hex2(b)) == Some(b)
  {
    HexDigitRoundTrip(b / 16);
    HexDigitRoundTrip(b % 16);
  }

  /** `String(b, 16)`: lower-case hex without leading zeros. */
  function HexTag(b: Byte): (s: string)
    ensures 1 <= |s| <= 2
    ensures |s| == 2 ==> s[0] != '0'
  {
    if b < 16 then [HexDigit(b)] else Hex2(b)
  }

  function ParseHexTag(s: string): (r: Option<Byte>)
  {
    if |s| == 1 && IsHexDigit(s[0]) then Some(HexValue(s[0]))
    else if |s| == 2 && s[0] != '0' then ParseHex2(s)
    else None
  }

  lemma HexTagRoundTrip(b: Byte)
    ensures ParseHexTag(HexTag(b)) == Some(b)
  {
    if b < 16 {
      HexDigitRoundTrip(b);
    } else {
      Hex2RoundTrip(b);
      HexDigitRoundTrip(b / 16);
    }
  }

  // ---------------------------------------------------------------------
  // The raw dump line: "[%02x]" for the first byte, " %02x" for each
  // further byte, then a newline.

  /** " %02x" for every byte of `s`. */
  function HexTail(s: seq<Byte>): (t: string)
    ensures |t| == 3 * |s|
  {
    if s == [] then "" else " " + Hex2(s[0]) + HexTail(s[1..])
  }

  function DumpText(f: Frame): (line: string)
    requires |f| >= 1
    ensures |line| == 3 * |f| + 2
    ensures line[0] == '[' && line[3] == ']' && line[|line| - 1] == '\n'
  {
    "[" + Hex2(f[0]) + "]" + HexTail(f[1..]) + "\n"
  }

  function ParseHexTail(t: string): (r: Option<seq<Byte>>)
    decreases |t|
  {
    if t == [] then Some([])
    else if |t| < 3 || t[0] != ' ' then None
    else
      match ParseHex2(t[1..3])
      case None => None
      case Some(b) =>
        match ParseHexTail(t[3..])
        case None => None
        case Some(rest) => Some([b] + rest)
  }

  /** Reads a dump line back into the frame it was printed from. */
  function ParseDump(line: string): (r: Option<Frame>)
    ensures r.Some? ==> |r.value| >= 1
  {
    if |line| < 5 || line[0] != '[' || line[3] != ']' || line[|line| - 1] != '\n' then None
    else
      match ParseHex2(line[1..3])
      case None => None
      case Some(b) =>
        match ParseHexTail(line[4..|line| - 1])
        case None => None
        case Some(rest) => Some([b] + rest)
  }

  lemma {:induction false} HexTailRoundTrip(s: seq<Byte>)
    ensures ParseHexTail(HexTail(s)) == Some(s)
  {
    if s != [] {
      var t := HexTail(s);
      assert t[1..3] == Hex2(s[0]);
      assert t[3..] == HexTail(s[1..]);
      Hex2RoundTrip(s[0]);
      HexTailRoundTrip(s[1..]);
      assert [s[0]] + s[1..] == s;
    }
  }

  /** The dump line of a frame determines the frame. */
  lemma DumpRoundTrip(f: Frame)
    requires |f| >= 1
    ensures ParseDump(DumpText(f)) == Some(f)
  {
    var line := DumpText(f);
    assert line[1..3] == Hex2(f[0]);
    assert line[4..|line| - 1] == HexTail(f[1..]);
    Hex2RoundTrip(f[0]);
    HexTailRoundTrip(f[1..]);
    assert [f[0]] + f[1..] == f;
  }

  // ---------------------------------------------------------------------
  // Decimal

  predicate IsDigit(c: char)
  {
    '0' <= c <= '9'
  }

  predicate AllDigits(s: string)
  {
    forall i :: 0 <= i < |s| ==> IsDigit(s[i])
  }

  function DecimalDigit(d: nat): (c: char)
    requires d < 10
    ensures IsDigit(c)
  {
    ('0' as int + d) as char
  }

  /** Decimal digits of `n`, most significant first, without leading zeros. */
  function NatToDecimal(n: nat): (s: string)
    ensures |s| >= 1 && AllDigits(s)
    ensures s[0] == '0' ==> n == 0
    decreases n
  {
    if n < 10 then [DecimalDigit(n)] else NatToDecimal(n / 10) + [DecimalDigit(n % 10)]
  }

  /** `String(int)`: a minus sign for negative values, then the digits. */
  function IntToDecimal(i: int): (s: string)
    ensures |s| >= 1 && (IsDigit(s[0]) || s[0] == '-')
  {
    if i < 0 then "-" + NatToDecimal(-i) else NatToDecimal(i)
  }

  function DigitsValue(s: string): nat
    requires AllDigits(s)
    decreases |s|
  {
    if s == [] then 0 else 10 * DigitsValue(s[..|s| - 1]) + (s[|s| - 1] as int - '0' as int)
  }

  function ParseInt(s: string): (r: Option<int>)
  {
    if |s| >= 1 && AllDigits(s) then Some(DigitsValue(s))
    else if |s| >= 2 && s[0] == '-' && AllDigits(s[1..]) then Some(-(DigitsValue(s[1..]) as int))
    else None
  }

  lemma {:induction false} NatToDecimalRoundTrip(n: nat)
    ensures DigitsValue(NatToDecimal(n)) == n
    decreases n
  {
    if n >= 10 {
      var s := NatToDecimal(n);
      assert s[..|s| - 1] == NatToDecimal(n / 10);
      NatToDecimalRoundTrip(n / 10);
    }
  }

  /** Every published integer reads back as itself. */
  lemma IntToDecimalRoundTrip(i: int)
    ensures ParseInt(IntToDecimal(i)) == Some(i)
  {
    if i < 0 {
      var s := IntToDecimal(i);
      assert s[1..] == NatToDecimal(-i);
      NatToDecimalRoundTrip(-i);
    } else {
      NatToDecimalRoundTrip(i);
    }
  }
}
