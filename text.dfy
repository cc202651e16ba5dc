/**
 * ASCII models of the Go `strings` and `strconv` helpers the scanner relies on:
 * trimming, prefix and suffix tests, searching, splitting, lower-casing and decimal parsing.
 * Code points outside ASCII are treated as ordinary characters (no Unicode white space,
 * no Unicode case mapping).
 */
module Text {
  import opened Options

  /** The largest value of Go's 64-bit `int`. */
  const MaxInt: int := 0x7fff_ffff_ffff_ffff

  /** The ASCII white space that `strings.TrimSpace` removes. */
  predicate IsSpace(c: char) {
    c == ' ' || c == '\t' || c == '\n' || c == '\r' || c == '\U{B}' || c == '\U{C}'
  }

  predicate IsDigit(c: char) {
    '0' <= c <= '9'
  }

  predicate IsNonDigit(c: char) {
    !IsDigit(c)
  }

  predicate IsQuote(c: char) {
    c == '"' || c == '\''
  }

  /** Drops the longest prefix whose characters satisfy `cut`. */
  function TrimLeftWhere(s: string, cut: char -> bool): (r: string)
    ensures |r| <= |s|
    ensures forall i | 0 <= i < |s| - |r| :: cut(s[i])
    ensures r == [] || !cut(r[0])
  {
    if s != [] && cut(s[0]) then TrimLeftWhere(s[1..], cut) else s
  }

  /** Drops the longest suffix whose characters satisfy `cut`. */
  function TrimRightWhere(s: string, cut: char -> bool): (r: string)
    ensures |r| <= |s|
    ensures forall i | |r| <= i < |s| :: cut(s[i])
    ensures r == [] || !cut(r[|r| - 1])
  {
    if s != [] && cut(s[|s| - 1]) then TrimRightWhere(s[..|s| - 1], cut) else s
  }

  /** What `TrimLeftWhere` leaves is a suffix of its input. */
  lemma {:induction false} TrimLeftSuffix(s: string, cut: char -> bool)
    ensures TrimLeftWhere(s, cut) == s[|s| - |TrimLeftWhere(s, cut)|..]
  {
    if s != [] && cut(s[0]) {
      TrimLeftSuffix(s[1..], cut);
    }
  }

  /** What `TrimRightWhere` leaves is a prefix of its input. */
  lemma {:induction false} TrimRightPrefix(s: string, cut: char -> bool)
    ensures TrimRightWhere(s, cut) == s[..|TrimRightWhere(s, cut)|]
  {
    if s != [] && cut(s[|s| - 1]) {
      TrimRightPrefix(s[..|s| - 1], cut);
    }
  }

  /** Length of the longest prefix of `s` whose characters satisfy `p`. */
  function Span(s: string, p: char -> bool): (n: nat)
    ensures n <= |s|
    ensures forall i | 0 <= i < n :: p(s[i])
    ensures n < |s| ==> !p(s[n])
  {
    TrimLeftSuffix(s, p);
    |s| - |TrimLeftWhere(s, p)|
  }

  /** `r` is the slice of `s` at `k`, and everything of `s` outside it satisfies `cut`. */
  ghost predicate TrimmedAt(s: string, r: string, k: int, cut: char -> bool) {
    && 0 <= k <= |s| - |r|
    && r == s[k..k + |r|]
    && (forall i | 0 <= i < k :: cut(s[i]))
    && (forall i | k + |r| <= i < |s| :: cut(s[i]))
  }

  /** `strings.TrimFunc`: both ends trimmed, so what is left neither starts nor ends with a `cut` character. */
  function TrimWhere(s: string, cut: char -> bool): (r: string)
    ensures r == [] || (!cut(r[0]) && !cut(r[|r| - 1]))
  {
    TrimRightPrefix(TrimLeftWhere(s, cut), cut);
    TrimRightWhere(TrimLeftWhere(s, cut), cut)
  }

  /** What `TrimWhere` leaves is the slice of `s` after its leading `cut` run, and all it removed satisfies `cut`. */
  lemma TrimWhereSlice(s: string, cut: char -> bool)
    ensures TrimmedAt(s, TrimWhere(s, cut), Span(s, cut), cut)
  {
    var left := TrimLeftWhere(s, cut);
    TrimLeftSuffix(s, cut);
    TrimRightPrefix(left, cut);
  }

  /** `strings.TrimSpace`. */
  function TrimSpace(s: string): string {
    TrimWhere(s, IsSpace)
  }

  /** `strings.Trim(s, "\"'")`: every leading and trailing quote character, not one matched pair. */
  function TrimQuotes(s: string): string {
    TrimWhere(s, IsQuote)
  }

  predicate HasPrefix(s: string, p: string) {
    p <= s
  }

  predicate HasSuffix(s: string, p: string) {
    |p| <= |s| && s[|s| - |p|..] == p
  }

  function TrimPrefix(s: string, p: string): (r: string)
    ensures HasPrefix(s, p) ==> p + r == s
    ensures !HasPrefix(s, p) ==> r == s
  {
    if HasPrefix(s, p) then s[|p|..] else s
  }

  /** Trimming a prefix that is there leaves the rest. */
  lemma TrimPrefixConcat(p: string, s: string)
    ensures TrimPrefix(p + s, p) == s
  {
    assert (p + s)[..|p|] == p;
  }

  function TrimSuffix(s: string, p: string): (r: string)
    ensures HasSuffix(s, p) ==> r + p == s
    ensures !HasSuffix(s, p) ==> r == s
  {
    if HasSuffix(s, p) then s[..|s| - |p|] else s
  }

  /** `sub` occurs in `s` starting at position `i`. */
  predicate OccursAt(s: string, sub: string, i: nat) {
    i + |sub| <= |s| && s[i..i + |sub|] == sub
  }

  /** The first position at or after `i` where `sub` occurs. */
  function IndexFrom(s: string, sub: string, i: nat): (r: Option<nat>)
    requires i <= |s|
    ensures r.Some? ==> (i <= r.value <= |s| && OccursAt(s, sub, r.value)
                         && forall j | i <= j < r.value :: !OccursAt(s, sub, j))
    ensures r.None? ==> forall j | i <= j <= |s| :: !OccursAt(s, sub, j)
    decreases |s| - i
  {
    if OccursAt(s, sub, i) then Some(i)
    else if i == |s| then None
    else IndexFrom(s, sub, i + 1)
  }

  /** `strings.Index`, with None for -1. */
  function Index(s: string, sub: string): Option<nat> {
    IndexFrom(s, sub, 0)
  }

  /** `strings.Contains`. */
  predicate Contains(s: string, sub: string)
    ensures Contains(s, sub) <==> exists j | 0 <= j <= |s| :: OccursAt(s, sub, j)
  {
    Index(s, sub).Some?
  }

  /** A string that lacks one of the characters of `sub` does not contain `sub`. */
  lemma NotContainsMissingChar(s: string, sub: string, k: nat)
    requires k < |sub| && sub[k] !in s
    ensures !Contains(s, sub)
  {
    forall j | 0 <= j <= |s|
      ensures !OccursAt(s, sub, j)
    {
      if j + |sub| <= |s| {
        assert s[j..j + |sub|][k] == s[j + k];
      }
    }
  }

  /** Text around a string that contains `sub` contains it too. */
  lemma ContainsWithin(x: string, s: string, y: string, sub: string)
    requires Contains(s, sub)
    ensures Contains(x + s + y, sub)
  {
    var j :| 0 <= j <= |s| && OccursAt(s, sub, j);
    var w := x + s + y;
    assert w[|x| + j..|x| + j + |sub|] == s[j..j + |sub|];
    assert OccursAt(w, sub, |x| + j);
  }

  /** `strings.SplitN(s, sep, 2)` when it yields two parts: the text before and after the first `sep`. */
  function Cut(s: string, sep: string): (r: Option<(string, string)>)
    ensures r.Some? <==> Contains(s, sep)
    ensures r.Some? ==> (r.value.0 + sep + r.value.1 == s
                         && forall j | 0 <= j < |r.value.0| :: !OccursAt(s, sep, j))
  {
    match Index(s, sep)
    case None => None
    case Some(i) =>
      assert s == s[..i] + sep + s[i + |sep|..];
      Some((s[..i], s[i + |sep|..]))
  }

  /** `strings.Split` for a non-empty separator: the pieces between non-overlapping occurrences, found left to right. */
  function Split(s: string, sep: string): (parts: seq<string>)
    requires sep != []
    ensures |parts| >= 1
    decreases |s|
  {
    match Index(s, sep)
    case None => [s]
    case Some(i) => [s[..i]] + Split(s[i + |sep|..], sep)
  }

  /** Appending `sep` and a piece free of `sep` to `s` appends that piece to the split (single-character separator). */
  lemma {:induction false} SplitAppend(s: string, sep: string, t: string)
    requires |sep| == 1 && !Contains(t, sep)
    ensures Split(s + sep + t, sep) == Split(s, sep) + [t]
    decreases |s|
  {
    var w := s + sep + t;
    match Index(s, sep)
    case None =>
      SplitAppendLast(s, sep, t);
    case Some(i) =>
      SplitAppendFirst(s, sep, t, i);
      SplitAppend(s[i + 1..], sep, t);
  }

  /** Without `sep` in `s`, the first `sep` of `s + sep + t` is the appended one. */
  lemma SplitAppendLast(s: string, sep: string, t: string)
    requires |sep| == 1 && !Contains(t, sep) && Index(s, sep) == None
    ensures Split(s + sep + t, sep) == [s, t]
  {
    var w := s + sep + t;
    assert OccursAt(w, sep, |s|);
    forall j | 0 <= j < |s|
      ensures !OccursAt(w, sep, j)
    {
      assert !OccursAt(s, sep, j);
      assert w[j..j + 1] == s[j..j + 1];
    }
    assert Index(w, sep) == Some(|s|);
    assert w[..|s|] == s;
    assert w[|s| + 1..] == t;
    assert Split(t, sep) == [t];
  }

  /** The first `sep` of `s` is also the first of `s + sep + t`. */
  lemma SplitAppendFirst(s: string, sep: string, t: string, i: nat)
    requires |sep| == 1 && Index(s, sep) == Some(i)
    ensures Split(s + sep + t, sep) == [s[..i]] + Split(s[i + 1..] + sep + t, sep)
  {
    var w := s + sep + t;
    forall j | 0 <= j < i
      ensures !OccursAt(w, sep, j)
    {
      assert !OccursAt(s, sep, j);
      assert w[j..j + 1] == s[j..j + 1];
    }
    assert w[i..i + 1] == s[i..i + 1];
    assert OccursAt(w, sep, i);
    assert Index(w, sep) == Some(i);
    assert w[..i] == s[..i];
    assert w[i + 1..] == s[i + 1..] + sep + t;
  }

  /** `strings.Split(s, sep)[0]`: the text before the first `sep`, or all of `s`. */
  function Before(s: string, sep: string): (r: string)
    requires sep != []
    ensures r <= s
    ensures !Contains(s, sep) ==> r == s
    ensures Contains(s, sep) ==> OccursAt(s, sep, |r|) && forall j | 0 <= j < |r| :: !OccursAt(s, sep, j)
  {
    Split(s, sep)[0]
  }

  /** When the first character of `sep` does not occur in `x`, the first `sep` of `x + sep + y` is the one right after `x`. */
  lemma IndexAfter(x: string, sep: string, y: string)
    requires sep != [] && sep[0] !in x
    ensures Index(x + sep + y, sep) == Some(|x|)
  {
    var w := x + sep + y;
    assert w[|x|..|x| + |sep|] == sep;
    assert OccursAt(w, sep, |x|);
    forall j | 0 <= j < |x|
      ensures !OccursAt(w, sep, j)
    {
      assert x[j] in x;
      if j + |sep| <= |w| {
        assert w[j..j + |sep|][0] == x[j];
      }
    }
  }

  /** Splitting `x + sep + y` where `x` lacks the first character of `sep`: `x`, then the pieces of `y`. */
  lemma SplitAfter(x: string, sep: string, y: string)
    requires sep != [] && sep[0] !in x
    ensures Split(x + sep + y, sep) == [x] + Split(y, sep)
    ensures Before(x + sep + y, sep) == x
    ensures Cut(x + sep + y, sep) == Some((x, y))
  {
    var w := x + sep + y;
    IndexAfter(x, sep, y);
    assert w[..|x|] == x;
    assert w[|x| + |sep|..] == y;
  }

  /** The first occurrence of `sep` at `k` ends the text before it. */
  lemma BeforeAt(s: string, sep: string, k: nat)
    requires sep != [] && OccursAt(s, sep, k) && forall j | 0 <= j < k :: !OccursAt(s, sep, j)
    ensures Before(s, sep) == s[..k]
  {
  }

  /** A text that neither starts nor ends with white space is its own `TrimSpace`. */
  lemma TrimSpaceClean(s: string)
    requires s == [] || (!IsSpace(s[0]) && !IsSpace(s[|s| - 1]))
    ensures TrimSpace(s) == s
  {
  }

  /** ASCII `unicode.ToLower`. */
  function ToLowerChar(c: char): char {
    if 'A' <= c <= 'Z' then (c as int + 32) as char else c
  }

  /** ASCII `strings.ToLower`. */
  function ToLower(s: string): (r: string)
    ensures |r| == |s| && forall i | 0 <= i < |s| :: r[i] == ToLowerChar(s[i])
  {
    seq(|s|, i requires 0 <= i < |s| => ToLowerChar(s[i]))
  }

  /** `strings.Join(parts, sep)`. */
  function Join(parts: seq<string>, sep: string): string {
    if parts == [] then ""
    else if |parts| == 1 then parts[0]
    else Join(parts[..|parts| - 1], sep) + sep + parts[|parts| - 1]
  }

  predicate AllDigits(s: string) {
    forall i | 0 <= i < |s| :: IsDigit(s[i])
  }

  /** The value of a string of decimal digits. */
  function DecimalValue(s: string): nat
    requires AllDigits(s)
  {
    if s == [] then 0 else DecimalValue(s[..|s| - 1]) * 10 + (s[|s| - 1] as int - '0' as int)
  }

  /**
   * `n, _ := strconv.Atoi(s)` on a 64-bit platform: a non-empty digit string gives its value,
   * clamped to MaxInt when it is out of range (ParseInt's range error is ignored); anything else gives 0.
   */
  function Atoi(s: string): (n: int)
    ensures 0 <= n <= MaxInt
  {
    if s != [] && AllDigits(s) then (if DecimalValue(s) <= MaxInt then DecimalValue(s) else MaxInt) else 0
  }
}
