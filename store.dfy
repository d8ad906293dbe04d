/**
  * The store file `purchase.txt`, seen as its text. A missing file and an
  * empty one are the same empty text.
  */
module Store {
  import opened Wrappers
  import opened Text
  import opened Records
  import opened LineFormat

  class PurchaseFile {
    /** The whole text of the file. */
    var contents: string

    /** A file that does not exist yet. */
    constructor ()
      ensures contents == []
    {
      contents := [];
    }

    /** A file that already holds `existing`. */
    constructor Open(existing: string)
      ensures contents == existing
    {
      contents := existing;
    }

    /**
      * `write_to_file`: an empty file receives the line alone; otherwise the
      * old text is read, "\n" and the line are pushed onto it, and the file
      * is rewritten with the result.
      */
    method WriteToFile(p: Purchase)
      modifies this
      ensures contents == AfterWrite(old(contents), p)
      ensures old(contents) <= contents
    {
      if |contents| == 0 {
        contents := EncodeLine(p);
      } else {
        var text := contents;
        var purchaseString := "\n" + EncodeLine(p);
        text := text + purchaseString;
        contents := text;
      }
    }

    /**
      * `read_from_file`: walks the lines, skips those with fewer than five
      * fields, collects the decoded purchases, and gives up at the first
      * line whose price, quantity or date does not parse.
      */
    method ReadFromFile() returns (r: Result<seq<Purchase>, ReadError>)
      ensures r == DecodeContents(contents)
      ensures r.Ok? ==> r.value == DecodedRecords(Lines(contents))
    {
      var lines := Lines(contents);
      var purchases: seq<Purchase> := [];
      var i := 0;
      while i < |lines|
        invariant 0 <= i <= |lines|
        invariant DecodeLines(lines[..i]) == Ok(purchases)
      {
        DecodeNextLine(lines, i, purchases);
        match DecodeLine(lines[i]) {
          case Skipped =>
          case Decoded(p) =>
            purchases := purchases + [p];
          case Aborted(e) =>
            AbortIsFinal(lines, i + 1);
            return Err(e);
        }
        i := i + 1;
      }
      assert lines[..i] == lines;
      DecodeLinesSpec(lines);
      return Ok(purchases);
    }
  }
}
