/**
  * Decimal text for the numeric fields of a record: Rust's `u32::from_str`
  * and `Display` for the quantity, an integer stand-in for the `f32`
  * price, and the fixed-width digit groups of a date.
  */
module Decimal {
  import opened Wrappers

  const U32Limit: int := 0x1_0000_0000

  /** Rust's `u32`. */
  type U32 = x: int | 0 <= x < U32Limit

  predicate IsDigit(c: char) {
    '0' <= c <= '9'
  }

  predicate AllDigits(s: string) {
    forall i :: 0 <= i < |s| ==> IsDigit(s[i])
  }

  function DigitChar(d: nat): (c: char)
    requires d < 10
    ensures IsDigit(c) && c as int - '0' as int == d
  {
    ('0' as int + d) as char
  }

  /** The number a string of decimal digits spells, most significant first. */
  function DigitsValue(s: string): (n: nat)
    requires AllDigits(s)
  {
    if s == [] then 0
    else DigitsValue(s[..|s| - 1]) * 10 + (s[|s| - 1] as int - '0' as int)
  }

  function Pow10(w: nat): (p: nat)
    ensures p >= 1
  {
    if w == 0 then 1 else 10 * Pow10(w - 1)
  }

  /**
    * `Display` for an unsigned integer: its decimal digits with no leading
    * zero (only 0 itself is written "0").
    */
  function NatToDecimal(n: nat): (s: string)
    ensures s != [] && AllDigits(s)
    ensures DigitsValue(s) == n
    ensures s[0] == '0' ==> s == "0"
  {
    if n < 10 then [DigitChar(n)]
    else
      var pre := NatToDecimal(n / 10);
      var s := pre + [DigitChar(n % 10)];
      assert s[..|s| - 1] == pre;
      s
  }

  /** `n` written with exactly `w` digits, padded with leading zeros (`{:0w}`). */
  function Padded(n: nat, w: nat): (s: string)
    requires n < Pow10(w)
    ensures |s| == w && AllDigits(s)
    ensures DigitsValue(s) == n
  {
    if w == 0 then []
    else
      var pre := Padded(n / 10, w - 1);
      var s := pre + [DigitChar(n % 10)];
      assert s[..|s| - 1] == pre;
      s
  }

  /**
    * `u32::from_str`: an optional '+', then one or more decimal digits
    * (leading zeros allowed) spelling a value that fits in 32 bits.
    */
  function ParseU32(s: string): (r: Option<U32>)
    ensures r.Some? ==> s != [] && s != "+"
  {
    var digits := if s != [] && s[0] == '+' then s[1..] else s;
    if digits != [] && AllDigits(digits) && DigitsValue(digits) < U32Limit
    then Some(DigitsValue(digits))
    else None
  }

  /** Formatting a quantity and parsing it back gives the quantity. */
  lemma QuantityRoundTrip(q: U32)
    ensures ParseU32(NatToDecimal(q)) == Some(q)
  {
    var s := NatToDecimal(q);
    assert s[0] != '+';
  }

  /** Parsing accepts a '+' sign and leading zeros, so it is not injective. */
  lemma QuantityParseLenient()
    ensures ParseU32("+7") == Some(7) && ParseU32("007") == Some(7)
    ensures ParseU32("") == None && ParseU32("+") == None && ParseU32("-1") == None
  {
    assert "+7"[1..] == "7";
    assert "7"[..0] == "";
    assert DigitsValue("7") == 7;
    assert "007"[..2] == "00" && "00"[..1] == "0" && "0"[..0] == "";
    assert DigitsValue("0") == 0;
    assert DigitsValue("00") == 0;
    assert DigitsValue("007") == 7;
  }

  /** The price stand-in written as an optional '-' and its decimal digits. */
  function PriceText(p: int): (s: string)
    ensures s != []
    ensures s[0] == '-' <==> p < 0
    ensures forall i :: 0 <= i < |s| ==> IsDigit(s[i]) || (i == 0 && s[i] == '-')
  {
    if p < 0 then
      var digits := NatToDecimal(0 - p);
      assert forall i :: 1 <= i < |digits| + 1 ==> ("-" + digits)[i] == digits[i - 1];
      "-" + digits
    else NatToDecimal(p)
  }

  /** Price text: an optional '+' or '-' sign, then one or more decimal digits. */
  function ParsePrice(s: string): (r: Option<int>)
    ensures r.Some? ==> s != []
  {
    var negative := s != [] && s[0] == '-';
    var digits := if s != [] && (s[0] == '+' || s[0] == '-') then s[1..] else s;
    if digits != [] && AllDigits(digits)
    then
      var n: int := DigitsValue(digits);
      var v: int := if negative then 0 - n else n;
      Some(v)
    else None
  }

  /** Formatting a price and parsing it back gives the price. */
  lemma PriceRoundTrip(p: int)
    ensures ParsePrice(PriceText(p)) == Some(p)
  {
    if p < 0 {
      var s := PriceText(p);
      assert s[1..] == NatToDecimal(0 - p);
    } else {
      assert PriceText(p)[0] != '-' && PriceText(p)[0] != '+';
    }
  }
}
