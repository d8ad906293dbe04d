# fima expense tracker — a verified model of its core

The tracker records purchases in a text file `purchase.txt`. It then
reports how much was spent per category, largest total first. Each
purchase is a product (name, price, category), a quantity and a date.

This project models, in Dafny:

- the eight product categories and their text names;
- the constructors of products and purchases, including the name
  normalisation (trim, then lower-case);
- the value of a purchase;
- the one-line text format of a purchase and how `write_to_file` grows
  the file. The file is a class whose `contents` the write method
  updates;
- how `read_from_file` decodes the file line by line: short lines are
  skipped, extra fields are ignored, and the first bad price, quantity
  or date aborts the whole read;
- the grouping of purchases into eight buckets, one per category, and
  the value of a bucket;
- the stable sort of the buckets by value, largest first, as an in-place
  sort on an array.

Module layout:

| file | module | contents |
|---|---|---|
| `wrappers.dfy` | `Wrappers` | `Option`, `Result` |
| `seqs.dfy` | `Seqs` | small generic facts about sequence slices |
| `text.dfy` | `Text` | ASCII `trim`, `to_lowercase`, `split(", ")`, `lines()` |
| `decimal.dfy` | `Decimal` | digits, `u32` parsing and display, the price text |
| `category.dfy` | `Category` | `ProductType`, `from_string`, `to_string` |
| `records.dfy` | `Records` | dates, `Product`, `Purchase`, `value` |
| `line_format.dfy` | `LineFormat` | encoding and decoding of lines and files |
| `store.dfy` | `Store` | the file as a class: `write_to_file`, `read_from_file` |
| `buckets.dfy` | `Buckets` | `Bucket`, `sort_type_buckets`, `eval_bucket_value` |
| `ranking.dfy` | `Ranking` | `sort_by` by bucket value, largest first |

The main results:

- **Write then read.** Purchases are written one by one into a missing
  file. Reading the file back gives the same purchases in write order
  (`LineFormat.WriteThenRead`).
  - The format escapes nothing, so this holds only when no product name
    contains `", "` or a line break.
  - A name with one to three `", "` shifts the fields of its line. The
    quantity or date field then holds the category name or the price,
    and the read aborts (`LineFormat.FewSeparatorsAbort`).
  - A name with four or more `", "` supplies by itself the five fields
    the reader looks at. The line decodes from the pieces of the name,
    so the read can succeed with a record that is not the one written
    (`LineFormat.ManySeparatorsMisread`).
- **Reading.** A read fails exactly when some line aborts, and it
  reports the error of the first such line. Otherwise it returns every
  decoded record in line order (`LineFormat.DecodeLinesSpec`).
- **Bucketing.** Bucketing is a partition. Each purchase lands in
  exactly the bucket of its category, input order is kept, and bucket
  values add up to the total value.
- **Ranking.** The ranking is sorted, is a permutation, and is stable:
  buckets of equal value keep their order.

Names read back from the file are taken as stored. The reader builds
`Product` directly and does not call `Product::new`, so it does not
normalise them again (`src/main.rs:217-221`). The model follows this.

## Model

| member | source | states |
|---|---|---|
| Category.FromString | src/main.rs:19-31 | the text maps to `Other` exactly when it is not one of the seven lower-case names; the match is exact and case-sensitive |
| Category.ToString | src/main.rs:33-45 | the result is one of the eight canonical names, and it is "other" exactly for `Other` |
| Category.RoundTrip | src/main.rs:19-45 | parsing the name of a category gives the category back |
| Category.ToStringInjective | src/main.rs:33-45 | two categories with the same name are the same category |
| Category.ParseThenFormat | src/main.rs:19-45 | formatting the parse of a text gives that text back exactly when it is one of the eight canonical names |
| Category.UnknownTextIsOther | src/main.rs:21-30 | "Food", the empty text, " food" and "other" all parse to `Other` |
| Category.AllTypesComplete | src/main.rs:7-16 | the list of categories in declaration order holds every category exactly once |
| Text.Trim | src/main.rs:60 | the trimmed text is no longer than the input, and it neither starts nor ends with whitespace |
| Text.TrimIsSlice | src/main.rs:60 | the trimmed text is one slice of the input, with only whitespace before and after it |
| Text.ToLower | src/main.rs:60 | same length; each character is lowered and nothing else changes |
| Text.Split | src/main.rs:207 | at least one piece; joining the pieces with the separator gives the input back; no piece contains the separator |
| Text.SplitJoin | src/main.rs:207 | splitting the join of separator-free pieces gives back exactly those pieces |
| Text.JoinAppend | src/main.rs:103-110 | joining two non-empty lists of pieces is joining each with the separator between them |
| Text.SplitTwoJoins | src/main.rs:207 | two joins of ", "-free pieces with ", " between them split into the pieces of both |
| Text.JoinFive | src/main.rs:103-110 | five pieces joined by a separator are the pieces with the separator between each two |
| Text.Lines | src/main.rs:206 | no lines exactly for the empty text; no line contains a line break |
| Text.LinesAppend | src/main.rs:116-124 | appending "\n" and more text after a text that ends mid-line adds exactly the lines of the new text |
| Text.LinesSingle | src/main.rs:206 | a non-empty text without '\n' is a single line |
| Decimal.NatToDecimal | src/main.rs:108 | a non-empty digit string that spells the number, with no leading zero |
| Decimal.ParseU32 | src/main.rs:224 | a parse succeeds only on a non-empty text that is not just "+" |
| Decimal.QuantityRoundTrip | src/main.rs:224 | parsing the written quantity gives the quantity back |
| Decimal.QuantityParseLenient | src/main.rs:224 | "+7" and "007" both parse to 7; "", "+" and "-1" are refused |
| Decimal.PriceText | src/main.rs:106 | the written price is non-empty, starts with '-' exactly when the price is negative, and is otherwise all digits; its partner is `Decimal.PriceRoundTrip` |
| Decimal.ParsePrice | src/main.rs:219 | a parse succeeds only on a non-empty text |
| Decimal.PriceRoundTrip | src/main.rs:219 | parsing the written price gives the price back, negative prices included |
| Records.DateText | src/main.rs:109 | ten characters, dashes at positions 4 and 7, digits at both ends |
| Records.ParseDate | src/main.rs:225 | a parse succeeds only on a ten-character text |
| Records.DateRoundTrip | src/main.rs:225 | parsing the written date gives the date back |
| Records.DateRejects | src/main.rs:225 | 29 February of a non-leap year is refused; the model, unlike chrono, also refuses a one-digit month |
| Records.NormalizeName | src/main.rs:60 | the name is no longer than the input, neither starts nor ends with whitespace, and has no upper-case letter |
| Records.NormalizeFixes | src/main.rs:60 | a name that is already trimmed and lower-case is left unchanged |
| Records.NormalizeIdempotent | src/main.rs:60 | normalising twice gives the same name as normalising once |
| Records.NewProduct | src/main.rs:56-66 | price and category are stored unchanged; the stored name is trimmed and lower-case |
| Records.NewProductAbsorbsNormalisation | src/main.rs:140 | normalising the name before `Product::new`, as the interactive entry does, changes nothing |
| Records.NewProductExample | src/main.rs:60 | " A\n" is stored as "a" |
| Records.NewPurchase | src/main.rs:77-85 | product, quantity and date are stored as given |
| Records.Value | src/main.rs:87-91 | quantity 0 gives 0; quantity 1 gives the price; a non-negative price gives a non-negative value |
| LineFormat.Fields | src/main.rs:103-110 | five fields in file order, the name first; only the name may contain ',' or '\n'; the last field ends with a digit |
| LineFormat.EncodeLine | src/main.rs:103-110 | the line is the five fields joined by ", " |
| LineFormat.EncodeLineShape | src/main.rs:103-110 | a line ends mid-line, and it contains a line break only when the name does |
| LineFormat.DecodeFields | src/main.rs:216-226 | never skips; aborts with the price error exactly when the price does not parse; aborts exactly when a price, quantity or date does not parse; otherwise holds the name as given, the parsed category, price, quantity and date |
| LineFormat.DecodeLine | src/main.rs:207-215 | a decoded name is a prefix of the line and contains no ", "; `ShortLineSkipped`, `ExtraFieldsIgnored` and `BadFieldAborts` give the split, skip and first-five rule |
| LineFormat.ShortLineSkipped | src/main.rs:209-215 | a line of fewer than five fields is skipped without error |
| LineFormat.ExtraFieldsIgnored | src/main.rs:207-215 | fields after the fifth change nothing; a line of five or more fields decodes its first five |
| LineFormat.ShortLineExample | src/main.rs:209-229 | the line "x, 1, food" is skipped |
| LineFormat.BadFieldAborts | src/main.rs:219-225 | a bad price aborts with the price error; otherwise a bad quantity aborts with the quantity error; otherwise a bad date aborts with the date error |
| LineFormat.LineRoundTrip | src/main.rs:207-226 | a purchase whose name has neither ", " nor a line break decodes from its line to itself |
| LineFormat.DecodeLines | src/main.rs:206-231 | a successful read yields at most one record per line; `DecodeLinesSpec` gives its full meaning |
| LineFormat.DecodeContents | src/main.rs:198-231 | an empty file reads as no purchases; a successful read yields at most one record per line of the text |
| LineFormat.DecodeLinesSpec | src/main.rs:206-231 | the read succeeds exactly when no line aborts, and then yields the decoded records in line order; a failure carries the error of the first aborting line |
| LineFormat.AbortIsFinal | src/main.rs:219-225 | after the first aborting line, the lines that follow do not change the outcome |
| LineFormat.DecodeNextLine | src/main.rs:206-229 | one more line: a skipped line adds nothing, a decoded line appends its record, an aborting line ends the read with its error |
| LineFormat.AfterWrite | src/main.rs:101-127 | the old text is a strict prefix of the new one; a non-empty old text is followed by '\n'; the new text ends mid-line |
| LineFormat.AfterWriteLines | src/main.rs:114-124 | on a file the program wrote, a write adds exactly one line at the end and keeps the earlier lines |
| LineFormat.WriteAll | src/main.rs:94-127 | writing nothing leaves the file empty; otherwise the file ends mid-line |
| LineFormat.WriteAllLines | src/main.rs:94-127 | each written purchase takes one line, in write order |
| LineFormat.DecodeEncodedLines | src/main.rs:206-231 | decoding the lines of writable purchases gives back the purchases |
| LineFormat.NameSplitsLine | src/main.rs:103-110 | a name made of ", "-free pieces splits its line into those pieces followed by the other four fields |
| LineFormat.CategoryNotNumber | src/main.rs:224-225 | no category name parses as a quantity or as a date |
| LineFormat.PriceNotDate | src/main.rs:225 | no written price parses as a date |
| LineFormat.FewSeparatorsAbort | src/main.rs:207-225 | a name with one to three ", " makes the read of its line abort |
| LineFormat.ManySeparatorsMisread | src/main.rs:207-226 | a name with four or more ", " makes its line decode from the pieces of the name, never to the purchase written |
| LineFormat.WriteThenRead | src/main.rs:198-231 | reading a file written purchase by purchase gives back the purchases in write order |
| Store.PurchaseFile.constructor | src/main.rs:99 | a file that does not exist yet reads as empty text |
| Store.PurchaseFile.Open | src/main.rs:202-204 | an existing file holds its text |
| Store.PurchaseFile.WriteToFile | src/main.rs:94-127 | the new text is the old one followed by the line, with '\n' between them unless the file was empty; the old text stays a prefix |
| Store.PurchaseFile.ReadFromFile | src/main.rs:198-231 | the loop returns the decoding of the whole text; on success, the records of the decodable lines in order |
| Buckets.OfType | src/main.rs:262-273 | a bucket is no longer than the input and holds only purchases of its category |
| Buckets.OfTypeMembers | src/main.rs:262-273 | a purchase is in a bucket exactly when it is in the input and has the bucket's category |
| Buckets.OfTypeAppend | src/main.rs:262-273 | bucketing a concatenation concatenates the buckets, so input order is kept |
| Buckets.OfTypeNext | src/main.rs:262-273 | one more purchase goes to its own category's bucket and to no other |
| Buckets.OfTypeCount | src/main.rs:262-273 | a purchase occurs in its own category's bucket as often as in the input, and in no other bucket |
| Buckets.GroupSizesCount | src/main.rs:262-273 | the eight bucket sizes add up to the number of purchases |
| Buckets.SortTypeBuckets | src/main.rs:250-284 | eight buckets in declaration order; bucket i holds exactly the purchases of category i in input order; the sizes add up to the input size |
| Buckets.SumValuesAppend | src/main.rs:290-293 | the value of a concatenation is the sum of the values of its parts |
| Buckets.FoldValue | src/main.rs:290-293 | the fold from an accumulator is the accumulator plus the sum of the purchase values |
| Buckets.BucketValue | src/main.rs:286-294 | the bucket value is the sum of its purchases' values, 0 for an empty bucket |
| Buckets.NonNegativeValue | src/main.rs:286-294 | with no negative price, a bucket's value is not negative |
| Buckets.SumOfTypeStep | src/main.rs:262-273 | one more purchase adds its value to its own category's bucket only |
| Buckets.GroupValuesTotal | src/main.rs:250-294 | the values of the eight buckets add up to the value of all purchases |
| Ranking.WithKey | src/main.rs:301-305 | the elements with one key are never more than the whole sequence |
| Ranking.WithKeyAppend | src/main.rs:301-305 | the elements with one key, taken from a concatenation, are those from each part, in order |
| Ranking.Insert | src/main.rs:301-305 | inserting adds exactly one element |
| Ranking.InsertPermutes | src/main.rs:301-305 | inserting adds the element and loses none |
| Ranking.InsertSorted | src/main.rs:301-305 | inserting into a sequence sorted largest first keeps it sorted |
| Ranking.InsertStable | src/main.rs:301-305 | the inserted element goes after all elements of equal key, and no other key group changes |
| Ranking.InsertPoint | src/main.rs:301-305 | the element goes right after the last element whose key is at least its own |
| Ranking.SortDesc | src/main.rs:301-305 | the sort keeps the length |
| Ranking.SortSorted | src/main.rs:301-305 | the sort is ordered by value, largest first |
| Ranking.SortPermutes | src/main.rs:301-305 | the sort is a permutation of its input |
| Ranking.SortStable | src/main.rs:301-305 | for every value, the elements with that value appear in input order |
| Ranking.SortStep | src/main.rs:301-305 | sorting one more input element inserts it into the sorted prefix |
| Ranking.InsertAt | src/main.rs:301-305 | one in-place pass inserts the next element into the sorted prefix and leaves the rest of the array alone |
| Ranking.SortByKeyDesc | src/main.rs:301-305 | the array ends up as the stable sort of its old contents: sorted largest first, a permutation, and equal keys in their old order |
| Ranking.CompareBuckets | src/main.rs:296-305 | the buckets end up sorted by value, largest first; they are a permutation of the old ones; buckets of equal value keep their order |

## Left out

- `cli_update`, `exec_bucket_comparison` and `main` are interactive I/O and wiring. The only logic of `cli_update` kept here is the name normalisation it does before `Product::new` (`Records.NewProductAbsorbsNormalisation`).
- Printing is left out: the `println!` lines of `compare_buckets` and the messages of the interactive entry.
- Real file I/O is left out. The file is its text (`Store.PurchaseFile.contents`), and a missing file and an empty one are the same empty text.
  - `read_from_file` on a missing file panics at `File::open(...).unwrap()`; this is not modelled.
  - `write_to_file` opens an existing file read-only with `File::open`. Writing the first line into an existing empty file therefore fails at `unwrap()` in the source. The model writes the line, as it does for a missing file.
- Errors are values. The reader's `expect` panics are the three `ReadError` values of an `Err` result.
- The price is an exact integer instead of `f32`.
  - The model leaves out `f32` rounding, `Display` for floats (e.g. "3.5"), float parsing (exponents, "inf", "NaN") and the float fold.
  - It also leaves out the panic of `partial_cmp(...).unwrap()` on NaN in `compare_buckets`.
  - A price is written as an optional '-' and its decimal digits, and parsed with an optional sign.
- Records.Value: price times quantity on integers; the rounding of the `f32` multiplication is not modelled.
- Dates come from chrono's `NaiveDate`. The model limits them to years 0 through 9999 of the proleptic Gregorian calendar.
  - Writing is `YYYY-MM-DD`.
  - Records.ParseDate: accepts exactly four, two and two digits separated by '-'. chrono's `FromStr` is more lenient with the widths of the fields; that leniency is not modelled.
- Records.DateRejects: its refusal of "2024-1-15" is the model's strictness. chrono's `FromStr` reads a one-digit month, so the program accepts that text.
- Trimming and lower-casing are ASCII-only. Rust's `trim` also drops Unicode whitespace, and `to_lowercase` lowers every Unicode letter.
- `Bucket` holds purchases by value, not as references to the read vector. `Bucket::new` is the datatype constructor.
- Rust's `sort_by` is a merge-based stable sort; the model sorts by stable insertion instead.
  - The final order is the same, because a stable sort by key has exactly one possible result.
  - The number of comparisons and the intermediate states are not modelled.
