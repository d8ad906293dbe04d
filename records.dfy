/** Products, purchases and their calendar dates. */
module Records {
  import opened Wrappers
  import opened Text
  import opened Decimal
  import opened Category

  /** A calendar date as year, month (1-12) and day of month. */
  datatype Ymd = Ymd(year: int, month: int, day: int)

  predicate IsLeapYear(y: int) {
    (y % 4 == 0 && y % 100 != 0) || y % 400 == 0
  }

  /** Days in a month of the proleptic Gregorian calendar. */
  function DaysInMonth(y: int, m: int): (n: int)
    requires 1 <= m <= 12
    ensures 28 <= n <= 31
  {
    if m == 2 then (if IsLeapYear(y) then 29 else 28)
    else if m == 4 || m == 6 || m == 9 || m == 11 then 30
    else 31
  }

  predicate IsCalendarDate(d: Ymd) {
    0 <= d.year <= 9999 && 1 <= d.month <= 12 && 1 <= d.day <= DaysInMonth(d.year, d.month)
  }

  /** chrono's `NaiveDate`, limited to the four-digit years. */
  type NaiveDate = d: Ymd | IsCalendarDate(d) witness Ymd(1970, 1, 1)

  /** `Display` for `NaiveDate`: `YYYY-MM-DD`, zero-padded. */
  function DateText(d: NaiveDate): (s: string)
    ensures |s| == 10 && s[4] == '-' && s[7] == '-'
    ensures IsDigit(s[0]) && IsDigit(s[9])
  {
    Padded(d.year, 4) + "-" + Padded(d.month, 2) + "-" + Padded(d.day, 2)
  }

  /** `%Y-%m-%d` parsing: four, two and two digits separated by '-', naming a real day. */
  function ParseDate(s: string): (r: Option<NaiveDate>)
    ensures r.Some? ==> |s| == 10
  {
    if |s| == 10 && s[4] == '-' && s[7] == '-'
       && AllDigits(s[..4]) && AllDigits(s[5..7]) && AllDigits(s[8..])
    then
      var d := Ymd(DigitsValue(s[..4]), DigitsValue(s[5..7]), DigitsValue(s[8..]));
      if IsCalendarDate(d) then Some(d) else None
    else None
  }

  /** Formatting a date and parsing it back gives the date. */
  lemma DateRoundTrip(d: NaiveDate)
    ensures ParseDate(DateText(d)) == Some(d)
  {
    var s := DateText(d);
    assert s[..4] == Padded(d.year, 4);
    assert s[5..7] == Padded(d.month, 2);
    assert s[8..] == Padded(d.day, 2);
  }

  /**
    * Text that names no calendar day is refused. The model, unlike chrono,
    * also refuses a month or day written with one digit.
    */
  lemma DateRejects()
    ensures ParseDate("2023-02-29") == None
    ensures ParseDate("2024-1-15") == None
  {
    var s := "2023-02-29";
    assert s[..4] == "2023" && s[5..7] == "02" && s[8..] == "29";
    assert DigitsValue("2023") == 2023 by {
      assert "2023"[..3] == "202" && "202"[..2] == "20" && "20"[..1] == "2" && "2"[..0] == "";
    }
    assert DigitsValue("02") == 2 by { assert "02"[..1] == "0" && "0"[..0] == ""; }
    assert DigitsValue("29") == 29 by { assert "29"[..1] == "2" && "2"[..0] == ""; }
  }

  /** A price, abstracted from `f32` to an exact integer amount. */
  type Price = int

  datatype Product = Product(name: string, price: Price, productType: ProductType)

  datatype Purchase = Purchase(product: Product, quantity: U32, date: NaiveDate)

  /** The name normalisation of `Product::new`: trim, then lower-case. */
  function NormalizeName(name: string): (r: string)
    ensures |r| <= |name|
    ensures r == [] || (!IsSpace(r[0]) && !IsSpace(r[|r| - 1]))
    ensures forall i :: 0 <= i < |r| ==> !IsUpper(r[i])
  {
    ToLower(Trim(name))
  }

  /** A text that is already trimmed and lower-case is left alone by the normalisation. */
  lemma {:induction false} NormalizeFixes(s: string)
    requires s == [] || (!IsSpace(s[0]) && !IsSpace(s[|s| - 1]))
    requires forall i :: 0 <= i < |s| ==> !IsUpper(s[i])
    ensures NormalizeName(s) == s
  {
    assert TrimStart(s) == s;
    assert TrimEnd(s) == s;
    assert ToLower(s) == s;
  }

  /** Normalising twice is normalising once. */
  lemma NormalizeIdempotent(name: string)
    ensures NormalizeName(NormalizeName(name)) == NormalizeName(name)
  {
    NormalizeFixes(NormalizeName(name));
  }

  /** `Product::new`: stores the normalised name, and the price and category unchanged. */
  function NewProduct(name: string, price: Price, t: ProductType): (p: Product)
    ensures p.price == price && p.productType == t
    ensures p.name == [] || (!IsSpace(p.name[0]) && !IsSpace(p.name[|p.name| - 1]))
    ensures forall i :: 0 <= i < |p.name| ==> !IsUpper(p.name[i])
  {
    Product(NormalizeName(name), price, t)
  }

  /**
    * The interactive entry normalises the name before `Product::new` does it
    * again; the stored product is the same as with a single normalisation.
    */
  lemma NewProductAbsorbsNormalisation(name: string, price: Price, t: ProductType)
    ensures NewProduct(NormalizeName(name), price, t) == NewProduct(name, price, t)
  {
    NormalizeIdempotent(name);
  }

  /** Upper case and surrounding blanks do not survive construction. */
  lemma NewProductExample()
    ensures NewProduct(" A\n", 350, Food).name == "a"
  {
    assert " A\n"[1..] == "A\n";
    assert TrimStart(" A\n") == "A\n";
    assert "A\n"[..1] == "A";
    assert TrimEnd("A\n") == "A";
    assert ToLower("A") == "a";
  }

  /** `Purchase::new`. */
  function NewPurchase(product: Product, quantity: U32, date: NaiveDate): (p: Purchase)
    ensures p.product == product && p.quantity == quantity && p.date == date
  {
    Purchase(product, quantity, date)
  }

  /** `Purchase::value`: price times quantity. */
  function Value(p: Purchase): (v: int)
    ensures p.quantity == 0 ==> v == 0
    ensures p.product.price >= 0 ==> v >= 0
    ensures p.quantity == 1 ==> v == p.product.price
  {
    p.product.price * p.quantity
  }
}
