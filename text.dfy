/** String helpers shared by the whole model: literal search, the first-match
    search that every regular expression of the crawler reduces to, JavaScript's
    `replace` with a string pattern, `split`/`join`, decimal rendering of page
    numbers, whitespace classes and `trim`, and case-insensitive letters. */
module Text {
  import opened Wrappers

  predicate IsDigit(c: char) { '0' <= c <= '9' }

  /** `lit` occurs in `s` at index `i`. */
  predicate StartsAt(s: string, i: nat, lit: string) {
    i + |lit| <= |s| && s[i..i + |lit|] == lit
  }

  /** The least index in [i, n) that satisfies `m`: the leftmost-match rule of
      both JavaScript's and Python's regular-expression search. */
  function Find(i: nat, n: nat, m: nat -> bool): (r: Option<nat>)
    decreases n - i
    ensures r.Some? ==> i <= r.value < n && m(r.value)
    ensures r.Some? ==> forall j :: i <= j < r.value ==> !m(j)
    ensures r.None? ==> forall j :: i <= j < n ==> !m(j)
  {
    if i >= n then None
    else if m(i) then Some(i)
    else Find(i + 1, n, m)
  }

  /** `s.indexOf(lit)`, or None for -1. */
  function IndexOf(s: string, lit: string): (r: Option<nat>)
    ensures r.Some? ==> StartsAt(s, r.value, lit)
    ensures r.Some? ==> forall j :: 0 <= j < r.value ==> !StartsAt(s, j, lit)
    ensures r.None? ==> forall j :: 0 <= j <= |s| ==> !StartsAt(s, j, lit)
  {
    var m := (j: nat) => StartsAt(s, j, lit);
    assert forall j: nat :: m(j) == StartsAt(s, j, lit);
    Find(0, |s| + 1, m)
  }

  /** `s.includes(lit)` in JavaScript, `lit in s` in Python. */
  predicate Contains(s: string, lit: string) {
    IndexOf(s, lit).Some?
  }

  lemma ContainsAt(s: string, lit: string, i: nat)
    requires StartsAt(s, i, lit)
    ensures Contains(s, lit)
  {
  }

  /** JavaScript's `s.replace(pat, rep)` with a string pattern: only the first
      occurrence is replaced. */
  function ReplaceFirst(s: string, pat: string, rep: string): (r: string)
    ensures !Contains(s, pat) ==> r == s
    ensures Contains(s, pat) ==>
              exists i :: && 0 <= i && StartsAt(s, i, pat)
                          && (forall j :: 0 <= j < i ==> !StartsAt(s, j, pat))
                          && r == s[..i] + rep + s[i + |pat|..]
  {
    match IndexOf(s, pat)
    case None => s
    case Some(i) => s[..i] + rep + s[i + |pat|..]
  }

  /** Python's `s.replace(pat, rep)`: every occurrence, scanned left to right
      without overlap. */
  function ReplaceAll(s: string, pat: string, rep: string): (r: string)
    requires |pat| > 0
    decreases |s|
    ensures !Contains(s, pat) ==> r == s
  {
    match IndexOf(s, pat)
    case None => s
    case Some(i) => s[..i] + rep + ReplaceAll(s[i + |pat|..], pat, rep)
  }

  /** Replacing every occurrence is splitting on the pattern and joining
      the pieces with the replacement. */
  lemma {:induction false} ReplaceAllIsJoinSplit(s: string, pat: string, rep: string)
    requires |pat| > 0
    ensures ReplaceAll(s, pat, rep) == Join(Split(s, pat), rep)
    decreases |s|
  {
    match IndexOf(s, pat)
    case None =>
    case Some(i) =>
      var rest := s[i + |pat|..];
      ReplaceAllIsJoinSplit(rest, pat, rep);
      var parts := Split(s, pat);
      assert parts == [s[..i]] + Split(rest, pat);
      assert parts[1..] == Split(rest, pat);
  }

  /** The end of the longest run of characters satisfying `p` that starts at `i`. */
  function SpanEnd(s: string, i: nat, p: char -> bool): (j: nat)
    requires i <= |s|
    decreases |s| - i
    ensures i <= j <= |s|
    ensures forall k :: i <= k < j ==> p(s[k])
    ensures j < |s| ==> !p(s[j])
  {
    if i == |s| || !p(s[i]) then i else SpanEnd(s, i + 1, p)
  }

  /** The run of `p` from `i` ends at `e` when every character in [i, e)
      satisfies `p` and the one at `e`, if any, does not. */
  lemma SpanEndAt(s: string, i: nat, e: nat, p: char -> bool)
    requires i <= e <= |s|
    requires forall k :: i <= k < e ==> p(s[k])
    requires e < |s| ==> !p(s[e])
    ensures SpanEnd(s, i, p) == e
  {
  }

  /** The first index at or after `i` holding `c`, or |s|. */
  function NextOrEnd(s: string, i: nat, c: char): (j: nat)
    requires i <= |s|
    ensures i <= j <= |s|
    ensures forall k :: i <= k < j ==> s[k] != c
    ensures j < |s| ==> s[j] == c
  {
    SpanEnd(s, i, x => x != c)
  }
  /** The next `c` from `i` is at `e` when nothing in [i, e) is `c` and
      `e` is either the end or a `c`. */
  lemma NextOrEndAt(s: string, i: nat, e: nat, c: char)
    requires i <= e <= |s|
    requires forall k :: i <= k < e ==> s[k] != c
    requires e < |s| ==> s[e] == c
    ensures NextOrEnd(s, i, c) == e
  {
  }


  // ---------------------------------------------------------------------
  // Decimal numbers (template literals such as `page=${p}`)
  // ---------------------------------------------------------------------

  function DigitChar(d: nat): (c: char)
    requires d < 10
    ensures IsDigit(c)
  {
    (48 + d) as char
  }

  function DigitValue(c: char): nat
    requires IsDigit(c)
  {
    c as int - 48
  }

  predicate AllDigits(s: string) {
    forall k :: 0 <= k < |s| ==> IsDigit(s[k])
  }

  /** `String(n)` for a non-negative integer. */
  function NatToString(n: nat): (r: string)
    decreases n
    ensures |r| > 0 && AllDigits(r)
  {
    if n < 10 then [DigitChar(n)] else NatToString(n / 10) + [DigitChar(n % 10)]
  }

  /** The value of a string of decimal digits. */
  function DigitsValue(s: string): nat
    requires AllDigits(s)
  {
    if s == [] then 0 else DigitsValue(s[..|s| - 1]) * 10 + DigitValue(s[|s| - 1])
  }

  /** Reading back what `NatToString` wrote gives the number. */
  lemma {:induction false} DigitsValueOfNatToString(n: nat)
    ensures DigitsValue(NatToString(n)) == n
  {
    var r := NatToString(n);
    if n >= 10 {
      DigitsValueOfNatToString(n / 10);
      assert r[..|r| - 1] == NatToString(n / 10);
    }
  }

  // ---------------------------------------------------------------------
  // split / join
  // ---------------------------------------------------------------------

  /** JavaScript's `s.split(sep)` for a non-empty separator. */
  function Split(s: string, sep: string): (parts: seq<string>)
    requires |sep| > 0
    decreases |s|
    ensures |parts| >= 1
  {
    match IndexOf(s, sep)
    case None => [s]
    case Some(i) => [s[..i]] + Split(s[i + |sep|..], sep)
  }

  /** `parts.join(sep)`. */
  function Join(parts: seq<string>, sep: string): string
  {
    if |parts| == 0 then ""
    else if |parts| == 1 then parts[0]
    else parts[0] + sep + Join(parts[1..], sep)
  }

  /** Splitting and joining back on the same separator restores the string. */
  lemma {:induction false} JoinSplit(s: string, sep: string)
    requires |sep| > 0
    ensures Join(Split(s, sep), sep) == s
    decreases |s|
  {
    match IndexOf(s, sep)
    case None =>
    case Some(i) =>
      var rest := s[i + |sep|..];
      var tail := Split(rest, sep);
      var parts := Split(s, sep);
      assert parts == [s[..i]] + tail;
      assert parts[1..] == tail;
      JoinSplit(rest, sep);
      calc {
        Join(parts, sep);
        parts[0] + sep + Join(parts[1..], sep);
        s[..i] + sep + rest;
        { assert s[i..i + |sep|] == sep; }
        s;
      }
  }

  /** The last piece of a split never contains the separator. */
  lemma {:induction false} LastPieceHasNoSeparator(s: string, sep: string)
    requires |sep| > 0
    ensures !Contains(Split(s, sep)[|Split(s, sep)| - 1], sep)
    decreases |s|
  {
    match IndexOf(s, sep)
    case None =>
      assert Split(s, sep) == [s];
    case Some(i) =>
      var rest := s[i + |sep|..];
      var parts := Split(s, sep);
      assert parts == [s[..i]] + Split(rest, sep);
      assert parts[|parts| - 1] == Split(rest, sep)[|Split(rest, sep)| - 1];
      LastPieceHasNoSeparator(rest, sep);
  }

  // ---------------------------------------------------------------------
  // Whitespace and trimming
  // ---------------------------------------------------------------------

  /** JavaScript's `\s` class, which is also the set `String.prototype.trim`
      removes: WhiteSpace and LineTerminator of ECMAScript. */
  predicate JsSpace(c: char) {
    var n := c as int;
    n == 0x09 || n == 0x0A || n == 0x0B || n == 0x0C || n == 0x0D || n == 0x20 ||
    n == 0xA0 || n == 0x1680 || (0x2000 <= n <= 0x200A) || n == 0x2028 ||
    n == 0x2029 || n == 0x202F || n == 0x205F || n == 0x3000 || n == 0xFEFF
  }

  /** Python's `\s` for str patterns and `str.isspace`. */
  predicate PySpace(c: char) {
    var n := c as int;
    (0x09 <= n <= 0x0D) || (0x1C <= n <= 0x20) || n == 0x85 || n == 0xA0 ||
    n == 0x1680 || (0x2000 <= n <= 0x200A) || n == 0x2028 || n == 0x2029 ||
    n == 0x202F || n == 0x205F || n == 0x3000
  }

  /** The last index j <= i such that every character in [j, i) satisfies `p`,
      scanning leftwards. */
  function SpanStartBack(s: string, i: nat, p: char -> bool): (j: nat)
    requires i <= |s|
    ensures j <= i
    ensures forall k :: j <= k < i ==> p(s[k])
    ensures j > 0 ==> !p(s[j - 1])
  {
    if i == 0 || !p(s[i - 1]) then i else SpanStartBack(s, i - 1, p)
  }

  /** Removes leading and trailing characters satisfying `p`. */
  function Trim(s: string, p: char -> bool): (r: string)
    ensures |r| > 0 ==> !p(r[0]) && !p(r[|r| - 1])
    ensures exists a, b ::
              && 0 <= a <= b <= |s| && r == s[a..b]
              && (forall k :: 0 <= k < a ==> p(s[k]))
              && (forall k :: b <= k < |s| ==> p(s[k]))
  {
    var a := SpanEnd(s, 0, p);
    var b := SpanStartBack(s, |s|, p);
    if a == |s| then
      assert s[a..a] == "";
      ""
    else
      assert b > a;
      s[a..b]
  }

  /** JavaScript's `String.prototype.trim`. */
  function TrimJs(s: string): string { Trim(s, JsSpace) }

  // ---------------------------------------------------------------------
  // Letters without regard to case
  // ---------------------------------------------------------------------

  /** Simple lower-case folding for Basic Latin and the Cyrillic block, the
      alphabets every pattern of the crawler is written in. */
  function Fold(c: char): char {
    var n := c as int;
    if 0x41 <= n <= 0x5A then (n + 0x20) as char
    else if 0x410 <= n <= 0x42F then (n + 0x20) as char
    else if 0x400 <= n <= 0x40F then (n + 0x50) as char
    else c
  }

  /** The `i` flag: two characters match when they fold to the same letter. */
  predicate SameLetter(a: char, b: char) {
    Fold(a) == Fold(b)
  }

  /** `lit` occurs at `i` under the `i` flag. */
  predicate StartsAtIgnoringCase(s: string, i: nat, lit: string) {
    i + |lit| <= |s| && forall k :: 0 <= k < |lit| ==> SameLetter(s[i + k], lit[k])
  }

  /** `toLowerCase` on the letters `Fold` knows. */
  function ToLower(s: string): (r: string)
    ensures |r| == |s|
    ensures forall k :: 0 <= k < |s| ==> r[k] == Fold(s[k])
  {
    seq(|s|, k requires 0 <= k < |s| => Fold(s[k]))
  }
}
