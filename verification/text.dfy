/**
 * Character classes and small string operations shared by the scanners.
 *
 * The script runs on Python `str` values with Unicode-aware `\s`, `\w`, `\d`,
 * `str.strip` and `str.lower`; this model restricts all of them to ASCII.
 */
module Text {

  /** `\s` and `str.isspace` on ASCII: tab, newline, vertical tab, form feed,
      carriage return, the separators 0x1C-0x1F and space. */
  predicate IsSpace(ch: char) {
    ch == ' ' || ('\t' <= ch <= '\r') || ('\U{1C}' <= ch <= '\U{1F}')
  }

  /** `\d` on ASCII. */
  predicate IsDigit(ch: char) {
    '0' <= ch <= '9'
  }

  /** `\w` on ASCII: letters, digits and the underscore. */
  predicate IsWordChar(ch: char) {
    ('a' <= ch <= 'z') || ('A' <= ch <= 'Z') || IsDigit(ch) || ch == '_'
  }

  function LowerChar(ch: char): (r: char)
    ensures 'A' <= ch <= 'Z' ==> 'a' <= r <= 'z' && r as int == ch as int + 32
    ensures !('A' <= ch <= 'Z') ==> r == ch
  {
    if 'A' <= ch <= 'Z' then (ch as int + 32) as char else ch
  }

  /** `str.lower()` on ASCII letters; every other character is kept. */
  function Lower(s: string): (r: string)
    ensures |r| == |s|
    ensures forall i :: 0 <= i < |s| ==> r[i] == LowerChar(s[i])
    ensures forall i :: 0 <= i < |r| ==> !('A' <= r[i] <= 'Z')
  {
    seq(|s|, i requires 0 <= i < |s| => LowerChar(s[i]))
  }

  predicate StartsWith(s: string, prefix: string) {
    |prefix| <= |s| && s[..|prefix|] == prefix
  }

  /** Python's `p in s` for strings: `p` occurs somewhere in `s`. */
  predicate Contains(s: string, p: string)
    decreases |s|
  {
    StartsWith(s, p) || (s != [] && Contains(s[1..], p))
  }

  /** A string shorter than the pattern does not contain it. */
  lemma {:induction false} ShorterLacks(s: string, p: string)
    requires |s| < |p|
    ensures !Contains(s, p)
    decreases |s|
  {
    if s != [] {
      ShorterLacks(s[1..], p);
    }
  }

  /** A string with no whitespace at either end, i.e. one that `strip()` keeps as it is. */
  predicate IsTrimmed(s: string) {
    s == [] || (!IsSpace(s[0]) && !IsSpace(s[|s| - 1]))
  }

  /**
   * `str.strip()`: the slice of `s` left once leading and trailing
   * whitespace is dropped, everything outside it being whitespace.
   */
  function Strip(s: string): (r: string)
    ensures IsTrimmed(r)
    ensures |r| <= |s|
    ensures IsTrimmed(s) ==> r == s
    ensures exists i, j :: 0 <= i <= j <= |s| && r == s[i..j] && OnlySpaceOutside(s, i, j)
  {
    var i := SpaceRunEnd(s, 0);
    var j := TrailingSpaceStart(s, i, |s|);
    assert OnlySpaceOutside(s, i, j);
    s[i..j]
  }

  /** Every character of `s` before `i` and from `j` on is whitespace. */
  predicate OnlySpaceOutside(s: string, i: nat, j: nat)
    requires i <= j <= |s|
  {
    (forall k :: 0 <= k < i ==> IsSpace(s[k])) && (forall k :: j <= k < |s| ==> IsSpace(s[k]))
  }

  /** End of the maximal run of whitespace that starts at `j`. */
  function SpaceRunEnd(c: string, j: nat): (e: nat)
    requires j <= |c|
    ensures j <= e <= |c|
    ensures forall k :: j <= k < e ==> IsSpace(c[k])
    ensures e == |c| || !IsSpace(c[e])
    decreases |c| - j
  {
    if j < |c| && IsSpace(c[j]) then SpaceRunEnd(c, j + 1) else j
  }

  /** Start of the whitespace that ends `c[lo..t]` (never below `lo`). */
  function TrailingSpaceStart(c: string, lo: nat, t: nat): (r: nat)
    requires lo <= t <= |c|
    ensures lo <= r <= t
    ensures forall k :: r <= k < t ==> IsSpace(c[k])
    ensures r == lo || !IsSpace(c[r - 1])
    decreases t
  {
    if t > lo && IsSpace(c[t - 1]) then TrailingSpaceStart(c, lo, t - 1) else t
  }

  /** End of the maximal run of digits that starts at `j`. */
  function DigitRunEnd(c: string, j: nat): (e: nat)
    requires j <= |c|
    ensures j <= e <= |c|
    ensures forall k :: j <= k < e ==> IsDigit(c[k])
    ensures e == |c| || !IsDigit(c[e])
    decreases |c| - j
  {
    if j < |c| && IsDigit(c[j]) then DigitRunEnd(c, j + 1) else j
  }

  /** End of the maximal run of word characters that starts at `j`. */
  function WordRunEnd(c: string, j: nat): (e: nat)
    requires j <= |c|
    ensures j <= e <= |c|
    ensures forall k :: j <= k < e ==> IsWordChar(c[k])
    ensures e == |c| || !IsWordChar(c[e])
    decreases |c| - j
  {
    if j < |c| && IsWordChar(c[j]) then WordRunEnd(c, j + 1) else j
  }

  /** Index of the first newline at or after `s`, or `|c|` when the line is the last one. */
  function LineEnd(c: string, s: nat): (t: nat)
    requires s <= |c|
    ensures s <= t <= |c|
    ensures forall k :: s <= k < t ==> c[k] != '\n'
    ensures t == |c| || c[t] == '\n'
    decreases |c| - s
  {
    if s < |c| && c[s] != '\n' then LineEnd(c, s + 1) else s
  }

  // The run and line-end functions are pinned down by their contracts: each
  // returns the only index with the stated property.

  lemma SpaceRunEndAt(c: string, j: nat, e: nat)
    requires j <= e <= |c|
    requires forall k :: j <= k < e ==> IsSpace(c[k])
    requires e == |c| || !IsSpace(c[e])
    ensures SpaceRunEnd(c, j) == e
  {
  }

  lemma DigitRunEndAt(c: string, j: nat, e: nat)
    requires j <= e <= |c|
    requires forall k :: j <= k < e ==> IsDigit(c[k])
    requires e == |c| || !IsDigit(c[e])
    ensures DigitRunEnd(c, j) == e
  {
  }

  lemma WordRunEndAt(c: string, j: nat, e: nat)
    requires j <= e <= |c|
    requires forall k :: j <= k < e ==> IsWordChar(c[k])
    requires e == |c| || !IsWordChar(c[e])
    ensures WordRunEnd(c, j) == e
  {
  }

  lemma LineEndAt(c: string, s: nat, t: nat)
    requires s <= t <= |c|
    requires forall k :: s <= k < t ==> c[k] != '\n'
    requires t == |c| || c[t] == '\n'
    ensures LineEnd(c, s) == t
  {
  }

  lemma TrailingSpaceStartAt(c: string, lo: nat, t: nat, r: nat)
    requires lo <= r <= t <= |c|
    requires forall k :: r <= k < t ==> IsSpace(c[k])
    requires r == lo || !IsSpace(c[r - 1])
    ensures TrailingSpaceStart(c, lo, t) == r
  {
  }

  /** `s.split("\n")`. */
  function SplitLines(s: string): (r: seq<string>)
    ensures |r| >= 1
    ensures forall k :: 0 <= k < |r| ==> '\n' !in r[k]
    decreases |s|
  {
    var k := LineEnd(s, 0);
    if k == |s| then [s] else [s[..k]] + SplitLines(s[k + 1..])
  }

  /** `"\n".join(parts)`. */
  function JoinLines(parts: seq<string>): string
    decreases |parts|
  {
    if parts == [] then ""
    else if |parts| == 1 then parts[0]
    else parts[0] + "\n" + JoinLines(parts[1..])
  }

  lemma {:induction false} JoinLinesAppend(a: seq<string>, b: seq<string>)
    requires a != [] && b != []
    ensures JoinLines(a + b) == JoinLines(a) + "\n" + JoinLines(b)
    decreases |a|
  {
    if |a| == 1 {
      assert (a + b)[1..] == b;
    } else {
      assert (a + b)[1..] == a[1..] + b;
      JoinLinesAppend(a[1..], b);
    }
  }

  /** A line followed by a newline splits off as the first element. */
  lemma SplitLinesCons(line: string, rest: string)
    requires '\n' !in line
    ensures SplitLines(line + "\n" + rest) == [line] + SplitLines(rest)
  {
    var c := line + "\n" + rest;
    assert forall k :: 0 <= k < |line| ==> c[k] == line[k];
    assert c[|line|] == '\n';
    assert LineEnd(c, 0) == |line|;
    assert c[..|line|] == line;
    assert c[|line| + 1..] == rest;
  }

  /** Splitting a join of newline-free lines gives the lines back. */
  lemma {:induction false} SplitJoinLines(parts: seq<string>)
    requires parts != []
    requires forall k :: 0 <= k < |parts| ==> '\n' !in parts[k]
    ensures SplitLines(JoinLines(parts)) == parts
    decreases |parts|
  {
    if |parts| == 1 {
      assert LineEnd(parts[0], 0) == |parts[0]|;
    } else {
      SplitLinesCons(parts[0], JoinLines(parts[1..]));
      SplitJoinLines(parts[1..]);
    }
  }

  /** Decimal value of a string of digits (Python's `int` on `\d+`). */
  function DigitsValue(ds: string): nat
    requires forall k :: 0 <= k < |ds| ==> IsDigit(ds[k])
    decreases |ds|
  {
    if ds == [] then 0
    else
      var last := ds[|ds| - 1];
      assert IsDigit(last);
      10 * DigitsValue(ds[..|ds| - 1]) + (last as int - '0' as int)
  }

  function DigitChar(d: nat): (ch: char)
    requires d < 10
    ensures IsDigit(ch) && ch as int - '0' as int == d
  {
    ('0' as int + d) as char
  }

  /** Decimal rendering of a natural number (Python's `str` on a non-negative `int`). */
  function NatToString(n: nat): (s: string)
    ensures s != []
    ensures forall k :: 0 <= k < |s| ==> IsDigit(s[k])
    decreases n
  {
    if n < 10 then [DigitChar(n)] else NatToString(n / 10) + [DigitChar(n % 10)]
  }

  /** Reading back a rendered number gives the number. */
  lemma {:induction false} DigitsValueOfNatToString(n: nat)
    ensures DigitsValue(NatToString(n)) == n
    decreases n
  {
    var s := NatToString(n);
    if n < 10 {
      assert s[..0] == [];
    } else {
      assert s[..|s| - 1] == NatToString(n / 10);
      DigitsValueOfNatToString(n / 10);
    }
  }
}
