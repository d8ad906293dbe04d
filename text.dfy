/**
  * ASCII text primitives the tracker relies on: Rust's `str::trim`,
  * `str::to_lowercase`, `str::split(&str)` and `str::lines`, restricted
  * to ASCII characters.
  */
module Text {
  import opened Wrappers

  /** Rust's `char::is_whitespace`, restricted to ASCII. */
  predicate IsSpace(c: char) {
    c == ' ' || c == '\t' || c == '\n' || c == '\r' || c == '\U{B}' || c == '\U{C}'
  }

  predicate IsUpper(c: char) {
    'A' <= c <= 'Z'
  }

  function ToLowerChar(c: char): (r: char)
    ensures !IsUpper(r)
    ensures IsSpace(r) <==> IsSpace(c)
    ensures !IsUpper(c) ==> r == c
  {
    if IsUpper(c) then (c as int + 32) as char else c
  }

  /** `str::to_lowercase` on ASCII: every upper-case letter is lowered, nothing else moves. */
  function ToLower(s: string): (r: string)
    ensures |r| == |s|
    ensures forall i :: 0 <= i < |s| ==> r[i] == ToLowerChar(s[i])
  {
    if s == [] then [] else [ToLowerChar(s[0])] + ToLower(s[1..])
  }

  /** `str::trim_start` on ASCII whitespace. */
  function TrimStart(s: string): (r: string)
    ensures |r| <= |s| && r == s[|s| - |r|..]
    ensures forall i :: 0 <= i < |s| - |r| ==> IsSpace(s[i])
    ensures r == [] || !IsSpace(r[0])
  {
    if s != [] && IsSpace(s[0]) then TrimStart(s[1..]) else s
  }

  /** `str::trim_end` on ASCII whitespace. */
  function TrimEnd(s: string): (r: string)
    ensures |r| <= |s| && r == s[..|r|]
    ensures forall i :: |r| <= i < |s| ==> IsSpace(s[i])
    ensures r == [] || !IsSpace(r[|r| - 1])
  {
    if s != [] && IsSpace(s[|s| - 1]) then TrimEnd(s[..|s| - 1]) else s
  }

  /** `str::trim`: drops the leading and the trailing whitespace. */
  function Trim(s: string): (r: string)
    ensures |r| <= |s|
    ensures r == [] || (!IsSpace(r[0]) && !IsSpace(r[|r| - 1]))
  {
    TrimEnd(TrimStart(s))
  }

  /** What `Trim` keeps is one slice of its input, with only whitespace around it. */
  lemma TrimIsSlice(s: string)
    ensures exists i :: TrimmedAt(s, Trim(s), i)
  {
    var t := TrimStart(s);
    var r := TrimEnd(t);
    var i := |s| - |t|;
    assert r == Trim(s);
    assert r == s[i..i + |r|];
    assert TrimmedAt(s, r, i);
  }

  /** `r` is the slice of `s` starting at `i`, and only whitespace lies outside it. */
  predicate TrimmedAt(s: string, r: string, i: int) {
    0 <= i <= |s| - |r| && r == s[i..i + |r|]
    && (forall k :: 0 <= k < i ==> IsSpace(s[k]))
    && (forall k :: i + |r| <= k < |s| ==> IsSpace(s[k]))
  }

  /** `s` holds `sep` starting at position `k`. */
  predicate OccursAt(s: string, sep: string, k: int) {
    0 <= k && k + |sep| <= |s| && s[k..k + |sep|] == sep
  }

  /** `sep` occurs nowhere in `s`. */
  ghost predicate Free(s: string, sep: string) {
    forall k :: !OccursAt(s, sep, k)
  }

  /** The first position at which `sep` occurs in `s`, if any. */
  function Find(s: string, sep: string): (r: Option<nat>)
    requires |sep| > 0
    ensures r.Some? ==> OccursAt(s, sep, r.value) && forall k :: k < r.value ==> !OccursAt(s, sep, k)
    ensures r.None? ==> Free(s, sep)
    decreases |s|
  {
    if |s| < |sep| then None
    else if s[..|sep|] == sep then Some(0)
    else
      match Find(s[1..], sep)
      case None =>
        forall k | 0 < k && k + |sep| <= |s| ensures !OccursAt(s, sep, k) {
          assert s[1..][k - 1..k - 1 + |sep|] == s[k..k + |sep|];
          assert !OccursAt(s[1..], sep, k - 1);
        }
        None
      case Some(i) =>
        assert s[1..][i..i + |sep|] == s[i + 1..i + 1 + |sep|];
        assert forall k :: k < i + 1 ==> !OccursAt(s, sep, k) by {
          forall k | 0 < k < i + 1 && k + |sep| <= |s| ensures !OccursAt(s, sep, k) {
            assert s[1..][k - 1..k - 1 + |sep|] == s[k..k + |sep|];
            assert !OccursAt(s[1..], sep, k - 1);
          }
        }
        Some(i + 1)
  }

  /** Pieces joined with `sep` between consecutive ones. */
  function Join(pieces: seq<string>, sep: string): string {
    if pieces == [] then []
    else if |pieces| == 1 then pieces[0]
    else pieces[0] + sep + Join(pieces[1..], sep)
  }

  /** Joining five pieces is writing them out with the separator between each two. */
  lemma JoinFive(a: string, b: string, c: string, d: string, e: string, sep: string)
    ensures Join([a, b, c, d, e], sep) == a + sep + b + sep + c + sep + d + sep + e
  {
    assert [d, e][1..] == [e];
    assert Join([d, e], sep) == d + sep + e;
    assert [c, d, e][1..] == [d, e];
    assert Join([c, d, e], sep) == c + sep + d + sep + e;
    assert [b, c, d, e][1..] == [c, d, e];
    assert Join([b, c, d, e], sep) == b + sep + c + sep + d + sep + e;
    assert [a, b, c, d, e][1..] == [b, c, d, e];
  }

  /** Joining two non-empty lists of pieces is joining each and putting `sep` between them. */
  lemma {:induction false} JoinAppend(a: seq<string>, b: seq<string>, sep: string)
    requires a != [] && b != []
    ensures Join(a + b, sep) == Join(a, sep) + sep + Join(b, sep)
    decreases |a|
  {
    if |a| == 1 {
      assert (a + b)[1..] == b;
    } else {
      assert (a + b)[1..] == a[1..] + b;
      JoinAppend(a[1..], b, sep);
    }
  }

  /** A join starts with its first piece. */
  lemma JoinStartsWithFirst(pieces: seq<string>, sep: string)
    requires pieces != []
    ensures pieces[0] <= Join(pieces, sep)
  {
    if |pieces| > 1 {
      assert Join(pieces, sep) == pieces[0] + (sep + Join(pieces[1..], sep));
    }
  }

  /** A join of two or more pieces is longer than its first piece by at least one separator. */
  lemma JoinLonger(pieces: seq<string>, sep: string)
    requires |pieces| >= 2
    ensures |Join(pieces, sep)| >= |pieces[0]| + |sep|
  {
  }

  /**
    * `str::split` with a string pattern: the pieces between the
    * non-overlapping occurrences of `sep`, found from left to right.
    * Joining them back with `sep` gives `s`, and no piece contains `sep`.
    */
  function Split(s: string, sep: string): (r: seq<string>)
    requires |sep| > 0
    ensures |r| >= 1
    ensures Join(r, sep) == s
    ensures forall j :: 0 <= j < |r| ==> Free(r[j], sep)
    decreases |s|
  {
    match Find(s, sep)
    case None => [s]
    case Some(i) =>
      var head := s[..i];
      var rest := Split(s[i + |sep|..], sep);
      assert Free(head, sep) by {
        forall k | OccursAt(head, sep, k) ensures false {
          assert head[k..k + |sep|] == s[k..k + |sep|];
          assert OccursAt(s, sep, k);
        }
      }
      assert s == head + sep + s[i + |sep|..];
      [head] + rest
  }

  /** The separator of the tracker's line format. */
  const Sep: string := ", "

  /**
    * Joining pieces that do not contain ", " and splitting again gives the
    * same pieces: for this separator no occurrence can straddle a boundary,
    * since its first character is not its last.
    */
  lemma {:induction false} SplitJoin(pieces: seq<string>)
    requires |pieces| >= 1
    requires forall j :: 0 <= j < |pieces| ==> Free(pieces[j], Sep)
    ensures Split(Join(pieces, Sep), Sep) == pieces
    decreases |pieces|
  {
    if |pieces| > 1 {
      var p := pieces[0];
      var rest := Join(pieces[1..], Sep);
      var s := p + Sep + rest;
      assert OccursAt(s, Sep, |p|) by { assert s[|p|..|p| + 2] == Sep; }
      forall k | 0 <= k < |p| ensures !OccursAt(s, Sep, k) {
        if k + 2 <= |p| {
          assert s[k..k + 2] == p[k..k + 2];
          assert !OccursAt(p, Sep, k);
        } else {
          assert s[k + 1] == ',';
        }
      }
      assert Find(s, Sep) == Some(|p|);
      assert s[..|p|] == p;
      assert s[|p| + 2..] == rest;
      SplitJoin(pieces[1..]);
    }
  }

  /** A text made of two joins with ", " between them splits into the pieces of both. */
  lemma SplitTwoJoins(a: seq<string>, b: seq<string>)
    requires a != [] && b != []
    requires forall j :: 0 <= j < |a| ==> Free(a[j], Sep)
    requires forall j :: 0 <= j < |b| ==> Free(b[j], Sep)
    ensures Split(Join(a, Sep) + Sep + Join(b, Sep), Sep) == a + b
  {
    JoinAppend(a, b, Sep);
    var g := a + b;
    forall j | 0 <= j < |g| ensures Free(g[j], Sep) {
      if j >= |a| {
        assert g[j] == b[j - |a|];
      }
    }
    SplitJoin(g);
  }

  /** The first position of `c` in `s`, if any. */
  function FindChar(s: string, c: char): (r: Option<nat>)
    ensures r.Some? ==> r.value < |s| && s[r.value] == c && c !in s[..r.value]
    ensures r.None? ==> c !in s
  {
    if s == [] then None
    else if s[0] == c then Some(0)
    else
      match FindChar(s[1..], c)
      case None => None
      case Some(i) =>
        assert s[..i + 1] == [s[0]] + s[1..][..i];
        Some(i + 1)
  }

  /** Drops one trailing carriage return. */
  function StripCR(s: string): string {
    if s != [] && s[|s| - 1] == '\r' then s[..|s| - 1] else s
  }

  /**
    * `str::lines`: split after each '\n', drop the '\n' and then one '\r'
    * before it; a final line without '\n' is kept as it is, and a trailing
    * '\n' does not start an empty last line.
    */
  function Lines(s: string): (r: seq<string>)
    ensures r == [] <==> s == []
    ensures forall j :: 0 <= j < |r| ==> '\n' !in r[j]
    decreases |s|
  {
    if s == [] then []
    else
      match FindChar(s, '\n')
      case None => [s]
      case Some(i) => [StripCR(s[..i])] + Lines(s[i + 1..])
  }

  /** A text that ends in the middle of a line (not after '\n' or '\r'). */
  predicate EndsMidLine(s: string) {
    s != [] && s[|s| - 1] != '\n' && s[|s| - 1] != '\r'
  }

  /** The first occurrence of `c` is where `FindChar` reports it. */
  lemma {:induction false} FindCharAt(s: string, c: char, i: nat)
    requires i < |s| && s[i] == c && c !in s[..i]
    ensures FindChar(s, c) == Some(i)
  {
    if i > 0 {
      assert s[0] in s[..i];
      assert s[1..][..i - 1] == s[1..i];
      assert forall x :: x in s[1..i] ==> x in s[..i];
      FindCharAt(s[1..], c, i - 1);
    }
  }

  /** A newline appended after a text that ends mid-line starts exactly the lines of what follows. */
  lemma {:induction false} LinesAppend(c: string, rest: string)
    requires EndsMidLine(c)
    ensures Lines(c + "\n" + rest) == Lines(c) + Lines(rest)
    decreases |c|
  {
    var s := c + "\n" + rest;
    var head := FindChar(c, '\n');
    if head.None? {
      assert s[..|c|] == c;
      FindCharAt(s, '\n', |c|);
      assert s[|c| + 1..] == rest;
    } else {
      var i := head.value;
      assert s[..i] == c[..i];
      FindCharAt(s, '\n', i);
      assert s[i + 1..] == c[i + 1..] + "\n" + rest;
      LinesAppend(c[i + 1..], rest);
    }
  }

  /** A non-empty text without '\n' is one line. */
  lemma LinesSingle(s: string)
    requires s != [] && '\n' !in s
    ensures Lines(s) == [s]
  {
  }
}
