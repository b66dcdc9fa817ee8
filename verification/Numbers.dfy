/**
 * Bounded number parsing (src/detail.cpp) and the two decimal printers
 * (src/derivation_path.cpp, src/address.cpp). The meaning of a digit string is
 * its unbounded value; the machine-width code is proved exact against it.
 */
module Numbers {
  import opened Wrappers

  /** A C++ `std::uint32_t`. */
  type u32 = x: nat | x < 0x1_0000_0000

  /** A C++ `std::uint64_t`: leaving the range is a verification error, so nothing below wraps. */
  newtype uint64 = x: int | 0 <= x < 0x1_0000_0000_0000_0000

  type Base = b: nat | b == 10 || b == 16 witness 10

  const LEVEL_LIMIT: nat := 0x8000_0000

  // ---- the value of a digit string ---------------------------------------

  predicate IsDigit(c: char, base: Base) {
    '0' <= c <= '9' || (base == 16 && ('a' <= c <= 'f' || 'A' <= c <= 'F'))
  }

  function DigitValue(c: char, base: Base): (d: nat)
    requires IsDigit(c, base)
    ensures d < base
  {
    if '0' <= c <= '9' then c as int - '0' as int
    else if 'a' <= c <= 'f' then c as int - 'a' as int + 10
    else c as int - 'A' as int + 10
  }

  // The digits and their values once more, written out.

  lemma DecimalDigits(d: nat)
    requires d < 10
    ensures var c := "0123456789"[d]; IsDigit(c, 10) && IsDigit(c, 16) && DigitValue(c, 10) == d == DigitValue(c, 16)
  {
    assert "0123456789"[d] as int == '0' as int + d;
  }

  lemma LetterDigits(d: nat)
    requires d < 6
    ensures var c := "abcdef"[d]; IsDigit(c, 16) && !IsDigit(c, 10) && DigitValue(c, 16) == 10 + d
    ensures var c := "ABCDEF"[d]; IsDigit(c, 16) && !IsDigit(c, 10) && DigitValue(c, 16) == 10 + d
  {
    assert "abcdef"[d] as int == 'a' as int + d;
    assert "ABCDEF"[d] as int == 'A' as int + d;
  }

  lemma NoOtherDigits(c: char)
    requires IsDigit(c, 16)
    ensures c in "0123456789" || c in "abcdef" || c in "ABCDEF"
    ensures IsDigit(c, 10) ==> c in "0123456789"
  {
    if '0' <= c <= '9' {
      assert "0123456789"[c as int - '0' as int] == c;
    } else if 'a' <= c <= 'f' {
      assert "abcdef"[c as int - 'a' as int] == c;
    } else if 'A' <= c <= 'F' {
      assert "ABCDEF"[c as int - 'A' as int] == c;
    }
  }

  predicate AllDigits(s: string, base: Base) {
    forall i :: 0 <= i < |s| ==> IsDigit(s[i], base)
  }

  function Value(s: string, base: Base): nat
    requires AllDigits(s, base)
  {
    if s == "" then 0 else Value(s[..|s| - 1], base) * base + DigitValue(s[|s| - 1], base)
  }

  function Power(base: nat, k: nat): nat {
    if k == 0 then 1 else base * Power(base, k - 1)
  }

  /** Positional notation: the first digit counts for the power of its place. */
  lemma {:induction false} ValueHead(c: char, s: string, base: Base)
    requires IsDigit(c, base) && AllDigits(s, base)
    ensures Value("", base) == 0
    ensures Value([c] + s, base) == DigitValue(c, base) * Power(base, |s|) + Value(s, base)
  {
    var all := [c] + s;
    if s == "" {
      assert all[..0] == "" && Value(all[..0], base) == 0;
    } else {
      var t, d := s[..|s| - 1], s[|s| - 1];
      assert all[..|s|] == [c] + t;
      ValueHead(c, t, base);
      Shifted(DigitValue(c, base), Power(base, |t|), Value(t, base), base);
    }
  }

  lemma Shifted(v: nat, p: nat, t: nat, base: nat)
    ensures (v * p + t) * base == v * (base * p) + t * base
  {
  }

  lemma {:induction false} ValuePrefix(s: string, base: Base, k: nat)
    requires AllDigits(s, base) && k <= |s|
    ensures Value(s[..k], base) <= Value(s, base)
  {
    if k == |s| {
      assert s[..k] == s;
    } else {
      assert s[..|s| - 1][..k] == s[..k];
      ValuePrefix(s[..|s| - 1], base, k);
      var v := Value(s[..|s| - 1], base);
      assert v <= v * base;
    }
  }

  // ---- bounded parsing ----------------------------------------------------

  /** A non-empty digit string whose value is below `limit`. */
  function ParseBelow(s: string, base: Base, limit: nat): Option<nat> {
    if s != "" && AllDigits(s, base) && Value(s, base) < limit then Some(Value(s, base)) else None
  }

  /** Digit by digit with an overflow test before each step; the early exits are exact. */
  method ParseInBase(s: string, base: Base) returns (r: Option<uint64>)
    ensures match r
            case Some(v) => ParseBelow(s, base, 0x1_0000_0000_0000_0000) == Some(v as nat)
            case None => ParseBelow(s, base, 0x1_0000_0000_0000_0000) == None
  {
    if s == "" {
      return None;
    }
    var value: uint64 := 0;
    for i := 0 to |s|
      invariant AllDigits(s[..i], base)
      invariant value as nat == Value(s[..i], base)
    {
      var c := s[i];
      var digit: uint64;
      if '0' <= c <= '9' {
        digit := (c as int - '0' as int) as uint64;
      } else if base == 16 && 'a' <= c <= 'f' {
        digit := (c as int - 'a' as int + 10) as uint64;
      } else if base == 16 && 'A' <= c <= 'F' {
        digit := (c as int - 'A' as int + 10) as uint64;
      } else {
        return None;
      }
      var b := base as uint64;
      if digit >= b {
        return None;
      }
      assert s[..i + 1][..i] == s[..i];
      if value > (0xFFFF_FFFF_FFFF_FFFF - digit) / b {
        if AllDigits(s, base) {
          ValuePrefix(s, base, i + 1);
          OverflowTest(value as nat, digit as nat, base);
        }
        return None;
      }
      OverflowTest(value as nat, digit as nat, base);
      value := value * b + digit;
    }
    assert s[..|s|] == s;
    return Some(value);
  }

  lemma OverflowTest(value: nat, digit: nat, base: Base)
    requires digit < base
    ensures value > (0xFFFF_FFFF_FFFF_FFFF - digit) / base <==> value * base + digit > 0xFFFF_FFFF_FFFF_FFFF
  {
  }

  function ParseUint32(s: string): (r: Option<u32>) {
    var body := if HexPrefixed(s) then s[2..] else s;
    match ParseBelow(body, if HexPrefixed(s) then 16 else 10, 0x1_0000_0000)
    case Some(v) => (var w: u32 := v; Some(w))
    case None => None
  }

  predicate HexPrefixed(s: string) {
    |s| >= 2 && s[0] == '0' && (s[1] == 'x' || s[1] == 'X')
  }

  lemma HexPrefix(s: string)
    ensures HexPrefixed(s) <==> |s| >= 2 && (s[..2] == "0x" || s[..2] == "0X")
    ensures HexPrefixed(s) ==> !AllDigits(s, 10)
  {
    if |s| >= 2 {
      assert s[..2] == [s[0], s[1]];
    }
    if HexPrefixed(s) {
      assert !IsDigit(s[1], 10);
    }
  }

  /** The two spellings of a 32-bit number: decimal, or hexadecimal after 0x or 0X. */
  lemma Uint32Exactly(s: string, v: u32)
    ensures ParseUint32(s) == Some(v) <==>
            || (s != "" && AllDigits(s, 10) && Value(s, 10) == v)
            || (|s| > 2 && (s[..2] == "0x" || s[..2] == "0X") && AllDigits(s[2..], 16) && Value(s[2..], 16) == v)
  {
    HexPrefix(s);
  }

  method ComputeParseUint32(s: string) returns (r: Option<u32>)
    ensures r == ParseUint32(s)
  {
    if s == "" {
      return None;
    }
    var base: Base := 10;
    var body := s;
    if |body| >= 2 && body[0] == '0' && (body[1] == 'x' || body[1] == 'X') {
      base := 16;
      body := body[2..];
      if body == "" {
        return None;
      }
    }
    var value := ParseInBase(body, base);
    if value.None? || value.value > 0xFFFF_FFFF {
      return None;
    }
    return Some(value.value as u32);
  }

  /** A path level index: strictly decimal, below 2^31. */
  function ParseUint31(s: string): (r: Option<u32>)
    ensures r.Some? ==> r.value < LEVEL_LIMIT
  {
    match ParseBelow(s, 10, LEVEL_LIMIT)
    case Some(v) => (var w: u32 := v; Some(w))
    case None => None
  }

  /** A level index is decimal only, and below 2^31. */
  lemma Uint31Exactly(s: string, v: u32)
    ensures ParseUint31(s) == Some(v) <==> v < 2147483648 && s != "" && AllDigits(s, 10) && Value(s, 10) == v
  {
  }

  method ComputeParseUint31(s: string) returns (r: Option<u32>)
    ensures r == ParseUint31(s)
  {
    var value := ParseInBase(s, 10);
    if value.None? || value.value >= 0x8000_0000 {
      return None;
    }
    return Some(value.value as u32);
  }

  // ---- printing -----------------------------------------------------------

  /** The lowercase hexadecimal digits. */
  const HEX := "0123456789abcdef"

  function DigitChar(d: nat): (c: char)
    requires d < 10
    ensures '0' <= c <= '9' && DigitValue(c, 10) == d
  {
    ('0' as int + d) as char
  }

  /** Significant digits; none for zero. */
  function Digits(v: nat): string {
    if v == 0 then "" else Digits(v / 10) + [DigitChar(v % 10)]
  }

  function Decimal(v: nat): string {
    if v == 0 then "0" else Digits(v)
  }

  /** A decimal number with no superfluous leading zero. */
  predicate CanonicalNumeral(s: string) {
    s != "" && AllDigits(s, 10) && (|s| == 1 || s[0] != '0')
  }

  lemma {:induction false} DigitsSound(v: nat)
    ensures AllDigits(Digits(v), 10) && Value(Digits(v), 10) == v
    ensures v > 0 ==> Digits(v) != "" && Digits(v)[0] != '0'
  {
    if v > 0 {
      DigitsSound(v / 10);
      assert Digits(v)[..|Digits(v)| - 1] == Digits(v / 10);
    }
  }

  /** Printing then reading gives the number back, in canonical spelling. */
  lemma DecimalSound(v: nat)
    ensures CanonicalNumeral(Decimal(v)) && Value(Decimal(v), 10) == v
  {
    DigitsSound(v);
    assert "0"[..0] == "";
    assert Value("0", 10) == Value("0"[..0], 10) * 10 + 0;
  }

  lemma ValueSplit(s: string)
    requires s != "" && AllDigits(s, 10)
    ensures Value(s, 10) / 10 == Value(s[..|s| - 1], 10)
    ensures DigitChar(Value(s, 10) % 10) == s[|s| - 1]
  {
    assert Value(s, 10) == Value(s[..|s| - 1], 10) * 10 + DigitValue(s[|s| - 1], 10);
  }

  lemma LeadingDigit(s: string)
    requires s != "" && AllDigits(s, 10) && s[0] != '0'
    ensures Value(s, 10) != 0
  {
    ValuePrefix(s, 10, 1);
    assert s[..1][..0] == "" && Value(s[..1], 10) == DigitValue(s[0], 10);
  }

  lemma {:induction false} DigitsComplete(s: string)
    requires AllDigits(s, 10) && (s != "" ==> s[0] != '0')
    ensures Digits(Value(s, 10)) == s
  {
    if s != "" {
      ValueSplit(s);
      LeadingDigit(s);
      DigitsComplete(s[..|s| - 1]);
      assert s == s[..|s| - 1] + [s[|s| - 1]];
    }
  }

  /** Reading then printing gives a canonical spelling back: it is the only one of its value. */
  lemma DecimalComplete(s: string)
    requires CanonicalNumeral(s)
    ensures Decimal(Value(s, 10)) == s
  {
    if s[0] == '0' {
      assert s[..0] == "" && Value(s, 10) == Value(s[..0], 10) * 10 + 0;
      assert s == "0";
    } else {
      DigitsComplete(s);
      DigitsSound(Value(s, 10));
    }
  }

  function Pow10(k: nat): nat {
    if k == 0 then 1 else 10 * Pow10(k - 1)
  }

  lemma {:induction false} DigitsLength(v: nat, k: nat)
    requires v < Pow10(k)
    ensures |Digits(v)| <= k
  {
    if v > 0 {
      DigitsLength(v / 10, k - 1);
    }
  }

  lemma Pow10Ten()
    ensures Pow10(10) == 10_000_000_000
  {
    assert Pow10(5) == 100_000;
    assert Pow10(8) == 1000 * Pow10(5);
  }

  lemma DecimalLength(v: u32)
    ensures 1 <= |Decimal(v)| <= 10
  {
    Pow10Ten();
    DigitsLength(v, 10);
    DigitsSound(v);
  }

  /** Both readers give back a printed number that is in their range. */
  lemma ParsePrinted(v: u32)
    ensures ParseUint32(Decimal(v)) == Some(v)
    ensures ParseUint31(Decimal(v)) == if v < LEVEL_LIMIT then Some(v) else None
  {
    DecimalSound(v);
    var s := Decimal(v);
    assert |s| >= 2 ==> IsDigit(s[1], 10);
  }

  // ---- the digit buffers of append_uint32 ---------------------------------

  /** The digit loop shared by both printers: least significant digit first, at most ten. */
  method FillDigits(v: u32, tmp: array<char>) returns (n: nat)
    requires tmp.Length == 16 && v > 0
    modifies tmp
    ensures n == |Decimal(v)| <= 10
    ensures forall k :: 0 <= k < n ==> tmp[k] == Decimal(v)[n - 1 - k]
  {
    n := 0;
    var rest: nat := v;
    DecimalLength(v);
    var d := Decimal(v);
    while rest > 0
      invariant |Digits(rest)| + n == |d|
      invariant Digits(rest) == d[..|d| - n]
      invariant forall k :: 0 <= k < n ==> tmp[k] == d[|d| - 1 - k]
    {
      tmp[n] := DigitChar(rest % 10);
      assert Digits(rest / 10) == Digits(rest)[..|Digits(rest)| - 1];
      n, rest := n + 1, rest / 10;
    }
  }

  /** `append_uint32` of src/derivation_path.cpp, which copies through a second buffer. */
  method AppendUint32(out: string, v: u32) returns (r: string)
    ensures r == out + Decimal(v)
  {
    var buf := new char[16];
    var n := 0;
    if v == 0 {
      buf[n] := '0';
      n := n + 1;
    } else {
      var tmp := new char[16];
      var t := FillDigits(v, tmp);
      for i := 0 to t
        invariant n == i
        invariant forall k :: 0 <= k < t ==> tmp[k] == Decimal(v)[t - 1 - k]
        invariant forall k :: 0 <= k < n ==> buf[k] == Decimal(v)[k]
      {
        buf[n] := tmp[t - i - 1];
        n := n + 1;
      }
    }
    assert buf[..n] == Decimal(v);
    return out + buf[..n];
  }

  /** `append_uint32` of src/address.cpp, which appends straight to the output. */
  method PushUint32(out: string, v: u32) returns (r: string)
    ensures r == out + Decimal(v)
  {
    r := out;
    if v == 0 {
      r := r + ['0'];
      return;
    }
    var tmp := new char[16];
    var n := FillDigits(v, tmp);
    var i := n - 1;
    while i >= 0
      invariant -1 <= i < n
      invariant r == out + Decimal(v)[..n - 1 - i]
    {
      r := r + [tmp[i]];
      i := i - 1;
    }
    assert Decimal(v)[..n] == Decimal(v);
  }
}
