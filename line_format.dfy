/**
  * The store's text format: one purchase per line, fields
  * `name, price, category, quantity, date` joined by ", ", lines joined
  * by '\n'. Nothing is escaped.
  */
module LineFormat {
  import opened Wrappers
  import opened Text
  import opened Decimal
  import opened Category
  import opened Records
  import opened Seqs

  /** The `expect` messages of the reader, each of which aborts the whole read. */
  datatype ReadError = PriceNotAFloat | QuantityNotAnInteger | DateUnparsable

  /** What the reader makes of one line. */
  datatype LineOutcome = Skipped | Decoded(purchase: Purchase) | Aborted(error: ReadError)

  /** The five field texts of a purchase, in file order; only the name may hold ',' or '\n'. */
  function Fields(p: Purchase): (f: seq<string>)
    ensures |f| == 5 && f[0] == p.product.name
    ensures forall j :: 1 <= j < 5 ==> ',' !in f[j] && '\n' !in f[j]
    ensures f[4] != [] && IsDigit(f[4][|f[4]| - 1])
  {
    var price := PriceText(p.product.price);
    var category := ToString(p.product.productType);
    var quantity := NatToDecimal(p.quantity);
    var date := DateText(p.date);
    PriceTextNoSeparator(p.product.price);
    DateTextNoSeparator(p.date);
    DigitsHaveNoSeparator(quantity);
    CategoryNoSeparator(p.product.productType);
    assert date[|date| - 1] == date[9];
    [p.product.name, price, category, quantity, date]
  }

  lemma CategoryNoSeparator(t: ProductType)
    ensures ',' !in ToString(t) && '\n' !in ToString(t)
  {
  }

  lemma PriceTextNoSeparator(price: int)
    ensures ',' !in PriceText(price) && '\n' !in PriceText(price)
  {
    if price < 0 {
      var digits := NatToDecimal(0 - price);
      DigitsHaveNoSeparator(digits);
      assert PriceText(price) == "-" + digits;
    } else {
      DigitsHaveNoSeparator(NatToDecimal(price));
    }
  }

  lemma DateTextNoSeparator(d: NaiveDate)
    ensures ',' !in DateText(d) && '\n' !in DateText(d)
  {
    var y, m, dd := Padded(d.year, 4), Padded(d.month, 2), Padded(d.day, 2);
    DigitsHaveNoSeparator(y);
    DigitsHaveNoSeparator(m);
    DigitsHaveNoSeparator(dd);
    assert DateText(d) == y + "-" + m + "-" + dd;
  }

  lemma DigitsHaveNoSeparator(s: string)
    requires AllDigits(s)
    ensures '\n' !in s && ',' !in s
  {
  }

  /** A text without ',' cannot contain ", ". */
  lemma NoCommaFree(s: string)
    requires ',' !in s
    ensures Free(s, Sep)
  {
    forall k | 0 <= k && k + 2 <= |s| ensures !OccursAt(s, Sep, k) {
      assert s[k..k + 2][0] == s[k];
    }
  }

  /** The `"{}, {}, {}, {}, {}"` line of `write_to_file`: the fields joined by ", ". */
  function EncodeLine(p: Purchase): (line: string)
    ensures line == Join(Fields(p), Sep)
  {
    var f := Fields(p);
    JoinFive(f[0], f[1], f[2], f[3], f[4], Sep);
    assert f == [f[0], f[1], f[2], f[3], f[4]];
    f[0] + Sep + f[1] + Sep + f[2] + Sep + f[3] + Sep + f[4]
  }

  /** An encoded line ends with a digit of the date, and holds a line break only if the name does. */
  lemma EncodeLineShape(p: Purchase)
    ensures EndsMidLine(EncodeLine(p))
    ensures '\n' !in p.product.name ==> '\n' !in EncodeLine(p)
  {
    var f := Fields(p);
    var line := EncodeLine(p);
    var front := f[0] + Sep + f[1] + Sep + f[2] + Sep + f[3] + Sep;
    assert line == front + f[4];
    assert line[|line| - 1] == f[4][|f[4]| - 1];
    if '\n' !in p.product.name {
      assert '\n' !in f[0] && '\n' !in f[1] && '\n' !in f[2] && '\n' !in f[3] && '\n' !in f[4];
      assert '\n' !in front;
    }
  }

  /** Decoding of the five leading fields of a line (`read_from_file`, in its evaluation order). */
  function DecodeFields(name: string, price: string, category: string, quantity: string, date: string): (r: LineOutcome)
    ensures r != Skipped
    ensures r == Aborted(PriceNotAFloat) <==> ParsePrice(price).None?
    ensures r.Aborted? <==> ParsePrice(price).None? || ParseU32(quantity).None? || ParseDate(date).None?
    ensures r.Decoded? ==>
              && r.purchase.product.name == name
              && r.purchase.product.productType == FromString(category)
              && Some(r.purchase.product.price) == ParsePrice(price)
              && Some(r.purchase.quantity) == ParseU32(quantity)
              && Some(r.purchase.date) == ParseDate(date)
  {
    match ParsePrice(price)
    case None => Aborted(PriceNotAFloat)
    case Some(pr) =>
      match ParseU32(quantity)
      case None => Aborted(QuantityNotAnInteger)
      case Some(q) =>
        match ParseDate(date)
        case None => Aborted(DateUnparsable)
        case Some(d) => Decoded(Purchase(Product(name, pr, FromString(category)), q, d))
  }

  /** One line: split on ", "; fewer than five pieces skip the line, otherwise the first five are decoded. */
  function DecodeLine(line: string): (r: LineOutcome)
    ensures r.Decoded? ==> r.purchase.product.name <= line && Free(r.purchase.product.name, Sep)
  {
    var f := Split(line, Sep);
    JoinStartsWithFirst(f, Sep);
    if |f| < 5 then Skipped else DecodeFields(f[0], f[1], f[2], f[3], f[4])
  }

  /** A line of fewer than five fields is dropped without an error, whatever the fields hold. */
  lemma ShortLineSkipped(fields: seq<string>)
    requires 1 <= |fields| < 5
    requires forall j :: 0 <= j < |fields| ==> Free(fields[j], Sep)
    ensures DecodeLine(Join(fields, Sep)) == Skipped
  {
    SplitJoin(fields);
  }

  /** Pieces after the fifth are ignored. */
  lemma ExtraFieldsIgnored(fields: seq<string>, extra: seq<string>)
    requires |fields| == 5
    requires forall j :: 0 <= j < |fields| ==> Free(fields[j], Sep)
    requires forall j :: 0 <= j < |extra| ==> Free(extra[j], Sep)
    ensures DecodeLine(Join(fields + extra, Sep)) == DecodeLine(Join(fields, Sep))
    ensures DecodeLine(Join(fields, Sep)) == DecodeFields(fields[0], fields[1], fields[2], fields[3], fields[4])
  {
    SplitJoin(fields + extra);
    SplitJoin(fields);
  }

  /** A stored line with three fields is dropped. */
  lemma ShortLineExample()
    ensures DecodeLine("x, 1, food") == Skipped
  {
    var short := ["x", "1", "food"];
    assert Join(short, Sep) == "x, 1, food" by {
      assert short[1..] == ["1", "food"] && short[1..][1..] == ["food"];
    }
    NoCommaFree("x"); NoCommaFree("1"); NoCommaFree("food");
    ShortLineSkipped(short);
  }

  /**
    * A line of five or more fields with a bad number or date aborts the read;
    * the price is looked at first, then the quantity, then the date.
    */
  lemma BadFieldAborts(fields: seq<string>)
    requires |fields| >= 5
    requires forall j :: 0 <= j < |fields| ==> Free(fields[j], Sep)
    ensures ParsePrice(fields[1]).None? ==> DecodeLine(Join(fields, Sep)) == Aborted(PriceNotAFloat)
    ensures ParsePrice(fields[1]).Some? && ParseU32(fields[3]).None? ==>
              DecodeLine(Join(fields, Sep)) == Aborted(QuantityNotAnInteger)
    ensures ParsePrice(fields[1]).Some? && ParseU32(fields[3]).Some? && ParseDate(fields[4]).None? ==>
              DecodeLine(Join(fields, Sep)) == Aborted(DateUnparsable)
  {
    SplitJoin(fields);
  }

  /** A name that the format can carry: no ", " and no line break. */
  ghost predicate Writable(p: Purchase) {
    Free(p.product.name, Sep) && '\n' !in p.product.name
  }

  /** The fields of a writable purchase decode to the purchase. */
  lemma LineRoundTrip(p: Purchase)
    requires Writable(p)
    ensures DecodeLine(EncodeLine(p)) == Decoded(p)
  {
    var f := Fields(p);
    NoCommaFree(f[1]);
    NoCommaFree(f[2]);
    NoCommaFree(f[3]);
    NoCommaFree(f[4]);
    SplitJoin(f);
    PriceRoundTrip(p.product.price);
    QuantityRoundTrip(p.quantity);
    DateRoundTrip(p.date);
    Category.RoundTrip(p.product.productType);
  }

  /** The fields after the name never contain ", ". */
  lemma TailFieldsFree(p: Purchase)
    ensures forall j :: 0 <= j < 4 ==> Free(Fields(p)[1..][j], Sep)
  {
    var rest := Fields(p)[1..];
    forall j | 0 <= j < 4 ensures Free(rest[j], Sep) {
      NoCommaFree(rest[j]);
    }
  }

  /** The line of a purchase is its name, ", ", and the other four fields joined. */
  lemma LineAfterName(p: Purchase)
    ensures EncodeLine(p) == p.product.name + Sep + Join(Fields(p)[1..], Sep)
  {
    var fields := Fields(p);
    assert |fields| > 1;
  }

  /**
    * A name made of the pieces `f` joined by ", " splits the line of its
    * purchase into those pieces followed by the four other fields.
    */
  lemma NameSplitsLine(p: Purchase, f: seq<string>)
    requires |f| >= 1
    requires forall j :: 0 <= j < |f| ==> Free(f[j], Sep)
    requires p.product.name == Join(f, Sep)
    ensures Split(EncodeLine(p), Sep) == f + Fields(p)[1..]
  {
    LineAfterName(p);
    TailFieldsFree(p);
    SplitTwoJoins(f, Fields(p)[1..]);
  }

  /** No category name reads as a quantity or as a date. */
  lemma CategoryNotNumber(t: ProductType)
    ensures ParseU32(ToString(t)).None?
    ensures ParseDate(ToString(t)).None?
  {
    var s := ToString(t);
    assert !IsDigit(s[0]) && s[0] != '+';
    assert |s| != 10 || s[4] == 'n';
  }

  /** No price text reads as a date: it has no '-' after its first character. */
  lemma PriceNotDate(price: int)
    ensures ParseDate(PriceText(price)).None?
  {
    var s := PriceText(price);
    if |s| == 10 {
      assert IsDigit(s[4]);
    }
  }

  /**
    * The format does not escape ", " in a name. With one to three of them
    * in the name, the fields shift and the line aborts the read: the
    * quantity or date field then holds the category name or the price.
    */
  lemma FewSeparatorsAbort(p: Purchase, f: seq<string>)
    requires 2 <= |f| <= 4
    requires forall j :: 0 <= j < |f| ==> Free(f[j], Sep)
    requires p.product.name == Join(f, Sep)
    ensures DecodeLine(EncodeLine(p)).Aborted?
  {
    NameSplitsLine(p, f);
    CategoryNotNumber(p.product.productType);
    PriceNotDate(p.product.price);
    ShiftedFieldsAbort(EncodeLine(p), f, Fields(p)[1..]);
  }

  /**
    * A line whose pieces are two to four name pieces and then a price and a
    * category that read neither as a quantity nor as a date aborts the read.
    */
  lemma ShiftedFieldsAbort(line: string, f: seq<string>, rest: seq<string>)
    requires 2 <= |f| <= 4 && |rest| == 4 && Split(line, Sep) == f + rest
    requires ParseDate(rest[0]).None? && ParseU32(rest[1]).None? && ParseDate(rest[1]).None?
    ensures DecodeLine(line).Aborted?
  {
    var g := f + rest;
    if |f| == 2 {
      assert g[3] == rest[1];
    } else if |f| == 3 {
      assert g[4] == rest[1];
    } else {
      assert g[4] == rest[0];
    }
    BadQuantityOrDateAborts(line, g);
  }

  /** A line of five or more pieces whose fourth or fifth piece does not parse aborts the read. */
  lemma BadQuantityOrDateAborts(line: string, g: seq<string>)
    requires |g| >= 5 && Split(line, Sep) == g
    requires ParseU32(g[3]).None? || ParseDate(g[4]).None?
    ensures DecodeLine(line).Aborted?
  {
  }

  /** A name of five or more ", "-free pieces puts its first five pieces where the reader looks. */
  lemma NameFieldsDecoded(p: Purchase, f: seq<string>)
    requires |f| >= 5
    requires forall j :: 0 <= j < |f| ==> Free(f[j], Sep)
    requires p.product.name == Join(f, Sep)
    ensures DecodeLine(EncodeLine(p)) == DecodeFields(f[0], f[1], f[2], f[3], f[4])
  {
    NameSplitsLine(p, f);
    FirstFiveDecoded(EncodeLine(p), f, Fields(p)[1..]);
  }

  /** A line that splits into `f` and more pieces decodes from the first five pieces of `f`. */
  lemma FirstFiveDecoded(line: string, f: seq<string>, more: seq<string>)
    requires |f| >= 5 && Split(line, Sep) == f + more
    ensures DecodeLine(line) == DecodeFields(f[0], f[1], f[2], f[3], f[4])
  {
    var g := f + more;
    assert g[0] == f[0] && g[1] == f[1] && g[2] == f[2] && g[3] == f[3] && g[4] == f[4];
  }

  /**
    * With four or more ", " in a name, the name alone supplies the five
    * fields the reader looks at: the line decodes from those pieces, and
    * never to the purchase that was written.
    */
  lemma ManySeparatorsMisread(p: Purchase, f: seq<string>)
    requires |f| >= 5
    requires forall j :: 0 <= j < |f| ==> Free(f[j], Sep)
    requires p.product.name == Join(f, Sep)
    ensures DecodeLine(EncodeLine(p)) == DecodeFields(f[0], f[1], f[2], f[3], f[4])
    ensures DecodeLine(EncodeLine(p)) != Decoded(p)
  {
    NameFieldsDecoded(p, f);
    JoinLonger(f, Sep);
  }

  /**
    * The lines of a file, decoded one after the other: skipped lines add
    * nothing, and the first aborting line ends the read with its error.
    */
  function DecodeLines(lines: seq<string>): (r: Result<seq<Purchase>, ReadError>)
    ensures r.Ok? ==> |r.value| <= |lines|
  {
    if lines == [] then Ok([])
    else
      match DecodeLines(lines[..|lines| - 1])
      case Err(e) => Err(e)
      case Ok(ps) =>
        match DecodeLine(lines[|lines| - 1])
        case Skipped => Ok(ps)
        case Decoded(p) => Ok(ps + [p])
        case Aborted(e) => Err(e)
  }

  /** `read_from_file` on the file's text. */
  function DecodeContents(contents: string): (r: Result<seq<Purchase>, ReadError>)
    ensures contents == [] ==> r == Ok([])
    ensures r.Ok? ==> |r.value| <= |Lines(contents)|
  {
    DecodeLines(Lines(contents))
  }

  /** The purchases of the decodable lines, in line order, ignoring errors. */
  function DecodedRecords(lines: seq<string>): (ps: seq<Purchase>)
    ensures |ps| <= |lines|
  {
    if lines == [] then []
    else
      var last := DecodeLine(lines[|lines| - 1]);
      DecodedRecords(lines[..|lines| - 1]) + (if last.Decoded? then [last.purchase] else [])
  }

  /**
    * The read fails exactly when some line aborts, with the error of the
    * first such line; otherwise it yields every decoded record in order.
    */
  lemma {:induction false} DecodeLinesSpec(lines: seq<string>)
    ensures DecodeLines(lines).Ok? <==> forall i :: 0 <= i < |lines| ==> !DecodeLine(lines[i]).Aborted?
    ensures DecodeLines(lines).Ok? ==> DecodeLines(lines).value == DecodedRecords(lines)
    ensures DecodeLines(lines).Err? ==>
              exists i :: 0 <= i < |lines| && DecodeLine(lines[i]) == Aborted(DecodeLines(lines).error)
                          && forall j :: 0 <= j < i ==> !DecodeLine(lines[j]).Aborted?
  {
    if lines != [] {
      var pre := lines[..|lines| - 1];
      DecodeLinesSpec(pre);
      assert forall i :: 0 <= i < |pre| ==> pre[i] == lines[i];
      if DecodeLines(pre).Err? {
        var i :| 0 <= i < |pre| && DecodeLine(pre[i]) == Aborted(DecodeLines(pre).error)
                 && forall j :: 0 <= j < i ==> !DecodeLine(pre[j]).Aborted?;
        assert DecodeLine(lines[i]).Aborted?;
      } else if DecodeLine(lines[|lines| - 1]).Aborted? {
        assert DecodeLine(lines[|pre|]) == Aborted(DecodeLines(lines).error);
      }
    }
  }

  /** Once a prefix of the lines aborts, the rest of the file is never looked at. */
  lemma {:induction false} AbortIsFinal(lines: seq<string>, k: nat)
    requires k <= |lines|
    requires DecodeLines(lines[..k]).Err?
    ensures DecodeLines(lines) == DecodeLines(lines[..k])
    decreases |lines|
  {
    if k < |lines| {
      var pre := lines[..|lines| - 1];
      assert pre[..k] == lines[..k];
      AbortIsFinal(pre, k);
    } else {
      assert lines[..k] == lines;
    }
  }

  /** The file after `write_to_file`: the line alone in an empty file, otherwise appended after a '\n'. */
  function AfterWrite(contents: string, p: Purchase): (r: string)
    ensures contents <= r && |contents| < |r|
    ensures contents != [] ==> r[|contents|] == '\n'
    ensures EndsMidLine(r)
  {
    EncodeLineShape(p);
    if contents == [] then EncodeLine(p) else contents + "\n" + EncodeLine(p)
  }

  /** A write adds one line to a file written by the program and leaves its lines as they were. */
  lemma AfterWriteLines(contents: string, p: Purchase)
    requires contents == [] || EndsMidLine(contents)
    requires '\n' !in p.product.name
    ensures Lines(AfterWrite(contents, p)) == Lines(contents) + [EncodeLine(p)]
  {
    EncodeLineShape(p);
    LinesSingle(EncodeLine(p));
    if contents != [] {
      LinesAppend(contents, EncodeLine(p));
    }
  }

  /** The file after writing `ps` one by one, starting from an empty or missing file. */
  function WriteAll(ps: seq<Purchase>): (r: string)
    ensures r == [] <==> ps == []
    ensures r != [] ==> EndsMidLine(r)
  {
    if ps == [] then [] else AfterWrite(WriteAll(ps[..|ps| - 1]), ps[|ps| - 1])
  }

  /** The encoded lines of `ps`, in order. */
  function EncodeAll(ps: seq<Purchase>): (lines: seq<string>)
    ensures |lines| == |ps|
    ensures forall i :: 0 <= i < |ps| ==> lines[i] == EncodeLine(ps[i])
  {
    if ps == [] then [] else EncodeAll(ps[..|ps| - 1]) + [EncodeLine(ps[|ps| - 1])]
  }

  /** Each written purchase occupies one line, in write order. */
  lemma {:induction false} WriteAllLines(ps: seq<Purchase>)
    requires forall i :: 0 <= i < |ps| ==> '\n' !in ps[i].product.name
    ensures Lines(WriteAll(ps)) == EncodeAll(ps)
  {
    if ps != [] {
      var pre := ps[..|ps| - 1];
      WriteAllLines(pre);
      AfterWriteLines(WriteAll(pre), ps[|ps| - 1]);
    }
  }

  /** Decoding one more line of a file whose first `i` lines decoded without error. */
  lemma DecodeNextLine(lines: seq<string>, i: nat, ps: seq<Purchase>)
    requires i < |lines| && DecodeLines(lines[..i]) == Ok(ps)
    ensures DecodeLine(lines[i]).Skipped? ==> DecodeLines(lines[..i + 1]) == Ok(ps)
    ensures DecodeLine(lines[i]).Decoded? ==> DecodeLines(lines[..i + 1]) == Ok(ps + [DecodeLine(lines[i]).purchase])
    ensures DecodeLine(lines[i]).Aborted? ==> DecodeLines(lines[..i + 1]) == Err(DecodeLine(lines[i]).error)
  {
    assert lines[..i + 1][..i] == lines[..i];
  }

  /** A decodable line after a decodable prefix adds its record at the end. */
  lemma DecodeOneMore(lines: seq<string>, line: string, ps: seq<Purchase>)
    requires DecodeLines(lines) == Ok(ps)
    ensures DecodeLine(line).Decoded? ==> DecodeLines(lines + [line]) == Ok(ps + [DecodeLine(line).purchase])
  {
    assert (lines + [line])[..|lines|] == lines;
  }

  /** Decoding the lines of writable purchases gives the purchases back. */
  lemma {:induction false} DecodeEncodedLines(ps: seq<Purchase>)
    requires forall i :: 0 <= i < |ps| ==> Writable(ps[i])
    ensures DecodeLines(EncodeAll(ps)) == Ok(ps)
  {
    if ps != [] {
      var pre, last := ps[..|ps| - 1], ps[|ps| - 1];
      LastSplit(ps);
      DecodeEncodedLines(pre);
      LineRoundTrip(last);
      DecodeOneMore(EncodeAll(pre), EncodeLine(last), pre);
    }
  }

  /**
    * Writing purchases one by one into an empty file and reading the file
    * back gives the same purchases in write order, provided no name holds
    * ", " or a line break.
    */
  lemma WriteThenRead(ps: seq<Purchase>)
    requires forall i :: 0 <= i < |ps| ==> Writable(ps[i])
    ensures DecodeContents(WriteAll(ps)) == Ok(ps)
  {
    WriteAllLines(ps);
    DecodeEncodedLines(ps);
  }
}
