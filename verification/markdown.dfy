/**
 * Hand-written scanners for the regular expressions parse_user_story and
 * parse_checkbox_section apply to a story file.
 *
 * Each pattern is modelled as "does it match at the start of this string?"
 * plus a search that tries every later start in turn (re.search), or every
 * later line start for the patterns compiled with re.MULTILINE and `^`.
 * None of the patterns looks behind its match, so trying a match at index i
 * of `c` is the same as trying it at the start of `c[i..]`.
 */
module Markdown {
  import opened Wrappers
  import opened Text
  import opened Story

  // ---------------------------------------------------------------------------
  // A greedy whitespace run followed by a lazy `.+?` (dot without DOTALL)

  /**
   * `.+?` can start at `s` and reach a point where the rest of the pattern
   * matches: it needs one non-newline character; when the pattern ends with a
   * consumed `\n`, the line must also end in a newline.
   */
  predicate CanStartLine(c: string, s: nat, needNewline: bool) {
    s < |c| && c[s] != '\n' && (!needNewline || LineEnd(c, s) < |c|)
  }

  /**
   * Greedy backtracking of a whitespace run: the whitespace quantifier gives
   * back characters one at a time from `hi` down to `lo`, so the lazy part
   * starts at the LARGEST position in `[lo, hi]` where it can.
   */
  function Backtrack(c: string, lo: nat, hi: nat, needNewline: bool): (r: Option<nat>)
    requires hi <= |c|
    ensures r.Some? ==> lo <= r.value <= hi && CanStartLine(c, r.value, needNewline)
    ensures r.Some? ==> forall k :: r.value < k <= hi ==> !CanStartLine(c, k, needNewline)
    ensures r.None? ==> forall k :: lo <= k <= hi ==> !CanStartLine(c, k, needNewline)
    decreases hi
  {
    if hi < lo then None
    else if CanStartLine(c, hi, needNewline) then Some(hi)
    else if hi == 0 then None
    else Backtrack(c, lo, hi - 1, needNewline)
  }

  // ---------------------------------------------------------------------------
  // Sections: `## <name>\s*\n\n(.*?)(?=\n##|\Z)` with DOTALL

  /**
   * `\s*\n\n` after a heading, where `c[lo..hi]` is the whitespace that
   * follows it: the greedy `\s*` keeps as much as it can, so the body starts
   * after the LAST blank line in that run.
   */
  function BlankLineEnd(c: string, lo: nat, hi: nat): (r: Option<nat>)
    requires hi <= |c|
    ensures r.Some? ==> lo + 2 <= r.value <= hi && EndsBlankLine(c, r.value)
    ensures r.Some? ==> forall k :: r.value < k <= hi ==> !EndsBlankLine(c, k)
    ensures r.None? ==> forall k :: lo + 2 <= k <= hi ==> !EndsBlankLine(c, k)
    decreases hi
  {
    if hi < lo + 2 then None
    else if EndsBlankLine(c, hi) then Some(hi)
    else BlankLineEnd(c, lo, hi - 1)
  }

  /** `c[k - 2..k]` is `"\n\n"`. */
  predicate EndsBlankLine(c: string, k: nat) {
    2 <= k <= |c| && c[k - 2] == '\n' && c[k - 1] == '\n'
  }

  /** Length of the lazy body `(.*?)`: up to the first `\n##`, or to the end. */
  function SectionBodyLength(x: string): (n: nat)
    ensures n <= |x|
    ensures n < |x| ==> StartsWith(x[n..], "\n##")
    ensures forall k :: 0 <= k < n ==> !StartsWith(x[k..], "\n##")
    decreases |x|
  {
    if x == [] || StartsWith(x, "\n##") then 0
    else
      var n := 1 + SectionBodyLength(x[1..]);
      assert n < |x| ==> x[n..] == x[1..][n - 1..];
      assert forall k :: 1 <= k < n ==> x[k..] == x[1..][k - 1..];
      n
  }

  function SectionHeading(name: string): string {
    "## " + name
  }

  /** The section pattern tried at the start of `c`: the captured body. */
  function SectionAt(c: string, name: string): (r: Option<string>)
    ensures r.Some? ==> StartsWith(c, SectionHeading(name))
  {
    var h := SectionHeading(name);
    if !StartsWith(c, h) then None
    else
      match BlankLineEnd(c, |h|, SpaceRunEnd(c, |h|))
      case None => None
      case Some(b) => Some(c[b..][..SectionBodyLength(c[b..])])
  }

  /** re.search for a section: the body of the first heading that matches; None if none does. */
  function FindSection(c: string, name: string): (r: Option<string>)
    ensures !Contains(c, SectionHeading(name)) ==> r.None?
    decreases |c|
  {
    match SectionAt(c, name)
    case Some(body) => Some(body)
    case None => if c == [] then None else FindSection(c[1..], name)
  }

  /** A free-text section (User Story, Notes, Implementation Details): stripped body, or "". */
  function SectionText(c: string, name: string): (text: string)
    ensures !Contains(c, SectionHeading(name)) ==> text == ""
    ensures IsTrimmed(text)
  {
    match FindSection(c, name)
    case None => ""
    case Some(body) => Strip(body)
  }

  // ---------------------------------------------------------------------------
  // Checkbox lines of a section (parse_checkbox_section)

  /** A stripped line that parse_checkbox_section turns into an item. */
  predicate IsCheckboxLine(line: string) {
    StartsWith(line, "- [")
  }

  /** `re.sub(r"^- \[.\]\s*", "", line)`: the marker and the whitespace after it removed. */
  function WithoutMarker(line: string): (r: string)
    ensures |r| <= |line|
  {
    if |line| >= 5 && line[..3] == "- [" && line[3] != '\n' && line[4] == ']'
    then line[SpaceRunEnd(line, 5)..]
    else line
  }

  /** The item of one stripped checkbox line: checked iff it starts with `- [x]` or `- [X]`. */
  function CheckboxOfLine(line: string): (item: Checkbox)
    ensures item.checked <==> StartsWith(line, "- [x]") || StartsWith(line, "- [X]")
  {
    Checkbox(WithoutMarker(line), StartsWith(line, "- [x]") || StartsWith(line, "- [X]"))
  }

  /** The item one raw line contributes: none, or the item of the stripped line. */
  function LineItem(raw: string): (items: seq<Checkbox>)
    ensures |items| <= 1
  {
    var line := Strip(raw);
    if IsCheckboxLine(line) then [CheckboxOfLine(line)] else []
  }

  /** The items of a section's lines, in line order: one per line that starts with `- [` once stripped. */
  function CheckboxItems(lines: seq<string>): (items: seq<Checkbox>)
    ensures |items| <= |lines|
    decreases |lines|
  {
    if lines == [] then [] else LineItem(lines[0]) + CheckboxItems(lines[1..])
  }

  /** What parse_checkbox_section returns: [] when the section is missing. */
  function CheckboxSection(c: string, name: string): (items: seq<Checkbox>)
    ensures !Contains(c, SectionHeading(name)) ==> items == []
  {
    match FindSection(c, name)
    case None => []
    case Some(body) => CheckboxItems(SplitLines(body))
  }

  // ---------------------------------------------------------------------------
  // Title: `^#\s+(.+?)(?:\s*\n|$)` with MULTILINE

  /**
   * Where the lazy title group stops: the first point from which `\s*\n`
   * or `$` matches. On a line ending in a newline that drops trailing
   * whitespace (keeping at least one character); on the last line it is the
   * end of the text.
   */
  function TitleEnd(c: string, s: nat): (t: nat)
    requires s < |c| && c[s] != '\n'
    ensures s < t <= LineEnd(c, s)
  {
    var l := LineEnd(c, s);
    if l == |c| then l else TrailingSpaceStart(c, s + 1, l)
  }

  /** The title pattern tried at a line start. */
  function TitleAt(c: string): (r: Option<string>)
    ensures r.Some? ==> r.value != [] && '\n' !in r.value
  {
    if c == [] || c[0] != '#' then None
    else
      match Backtrack(c, 2, SpaceRunEnd(c, 1), false)
      case None => None
      case Some(s) =>
        var t := TitleEnd(c, s);
        assert forall k :: s <= k < t ==> c[k] != '\n';
        Some(c[s..t])
  }

  /** re.search with `^` in MULTILINE mode: try each line start in order. */
  function FindTitle(c: string): (r: Option<string>)
    ensures r.Some? ==> r.value != [] && '\n' !in r.value
    decreases |c|
  {
    match TitleAt(c)
    case Some(title) => Some(title)
    case None =>
      var k := LineEnd(c, 0);
      if k == |c| then None else FindTitle(c[k + 1..])
  }

  // ---------------------------------------------------------------------------
  // Status: `\*\*Status:\*\*\s*(.+?)(?:\n|$)`

  const StatusMarker := "**Status:**"

  /** The status pattern tried at the start of `c`: the captured rest of the line. */
  function StatusAt(c: string): (r: Option<string>)
    ensures r.Some? ==> StartsWith(c, StatusMarker) && r.value != [] && '\n' !in r.value
  {
    if !StartsWith(c, StatusMarker) then None
    else
      match Backtrack(c, |StatusMarker|, SpaceRunEnd(c, |StatusMarker|), false)
      case None => None
      case Some(s) =>
        var t := LineEnd(c, s);
        assert forall k :: s <= k < t ==> c[k] != '\n';
        Some(c[s..t])
  }

  function FindStatus(c: string): (r: Option<string>)
    ensures r.Some? ==> Contains(c, StatusMarker) && '\n' !in r.value
    decreases |c|
  {
    match StatusAt(c)
    case Some(g) => Some(g)
    case None => if c == [] then None else FindStatus(c[1..])
  }

  /** The status: the rest of the first status line, stripped; "Draft" when there is none. */
  function ExtractStatus(c: string): (status: string)
    ensures !Contains(c, StatusMarker) ==> status == "Draft"
    ensures IsTrimmed(status)
  {
    match FindStatus(c)
    case None => "Draft"
    case Some(g) => Strip(g)
  }

  // ---------------------------------------------------------------------------
  // Priority: `\*\*(\w+)\*\*\s*-\s*(?:Critical|Important|Nice)`

  /** The priority pattern tried at the start of `c`: the word between the asterisks. */
  function PriorityAt(c: string): (r: Option<string>)
    ensures r.Some? ==> r.value != [] && forall k :: 0 <= k < |r.value| ==> IsWordChar(r.value[k])
  {
    if !StartsWith(c, "**") then None
    else
      var e := WordRunEnd(c, 2);
      if e == 2 || !StartsWith(c[e..], "**") then None
      else
        var d := SpaceRunEnd(c, e + 2);
        if d < |c| && c[d] == '-' then
          var f := SpaceRunEnd(c, d + 1);
          var rest := c[f..];
          if StartsWith(rest, "Critical") || StartsWith(rest, "Important") || StartsWith(rest, "Nice")
          then Some(c[2..e])
          else None
        else None
  }

  function FindPriority(c: string): (r: Option<string>)
    ensures r.Some? ==> r.value != [] && forall k :: 0 <= k < |r.value| ==> IsWordChar(r.value[k])
    decreases |c|
  {
    match PriorityAt(c)
    case Some(w) => Some(w)
    case None => if c == [] then None else FindPriority(c[1..])
  }

  /** The priority: the marked word lower-cased, "should" when no priority line matches. */
  function ExtractPriority(c: string): (priority: string)
    ensures FindPriority(c).None? ==> priority == "should"
    ensures priority != []
    ensures forall k :: 0 <= k < |priority| ==> IsWordChar(priority[k]) && !('A' <= priority[k] <= 'Z')
  {
    match FindPriority(c)
    case None => "should"
    case Some(w) => Lower(w)
  }

  // ---------------------------------------------------------------------------
  // Story points: `^\*\*Story Points:\*\*\s*(\d+)` with MULTILINE

  const PointsMarker := "**Story Points:**"

  function PointsAt(c: string): (r: Option<nat>)
    ensures r.Some? ==> StartsWith(c, PointsMarker)
  {
    if !StartsWith(c, PointsMarker) then None
    else
      var d := SpaceRunEnd(c, |PointsMarker|);
      var e := DigitRunEnd(c, d);
      if e == d then None else Some(DigitsValue(c[d..e]))
  }

  function FindPoints(c: string): (r: Option<nat>)
    ensures r.Some? ==> Contains(c, PointsMarker)
    decreases |c|
  {
    match PointsAt(c)
    case Some(n) => Some(n)
    case None =>
      var k := LineEnd(c, 0);
      if k == |c| then None
      else
        var r := FindPoints(c[k + 1..]);
        assert r.Some? ==> Contains(c, PointsMarker) by {
          if r.Some? { ContainsInSuffix(c, k + 1, PointsMarker); }
        }
        r
  }

  /** The story points: the number on the first line starting with the marker, else 0. */
  function ExtractStoryPoints(c: string): (points: nat)
    ensures !Contains(c, PointsMarker) ==> points == 0
  {
    FindPoints(c).GetOr(0)
  }

  lemma {:induction false} ContainsInSuffix(c: string, k: nat, p: string)
    requires k <= |c| && Contains(c[k..], p)
    ensures Contains(c, p)
    decreases k
  {
    if k > 0 {
      assert c[1..][k - 1..] == c[k..];
      ContainsInSuffix(c[1..], k - 1, p);
    }
  }

  // ---------------------------------------------------------------------------
  // Story id: `re.match(r"(US-\d+)", name)`

  /** "US-" and the digits after it, when `name` starts that way. */
  function StoryIdPrefix(name: string): (r: Option<string>)
    ensures r.Some? ==> StartsWith(name, r.value) && StartsWith(r.value, "US-") && |r.value| > 3
    ensures r.Some? ==> forall k :: 3 <= k < |r.value| ==> IsDigit(r.value[k])
    ensures r.None? <==> !(StartsWith(name, "US-") && |name| > 3 && IsDigit(name[3]))
    ensures r.Some? ==> |r.value| == |name| || !IsDigit(name[|r.value|])
  {
    if StartsWith(name, "US-") && DigitRunEnd(name, 3) > 3
    then Some(name[..DigitRunEnd(name, 3)])
    else None
  }

  // ---------------------------------------------------------------------------
  // Dependencies: `re.finditer(r"#(\d+)", section)`

  /** Every `#<digits>` reference in order of appearance, duplicates kept. */
  function DependencyRefs(s: string): (refs: seq<nat>)
    ensures '#' !in s ==> refs == []
    decreases |s|
  {
    if s == [] then []
    else if s[0] == '#' && DigitRunEnd(s, 1) > 1 then
      var e := DigitRunEnd(s, 1);
      [DigitsValue(s[1..e])] + DependencyRefs(s[e..])
    else
      DependencyRefs(s[1..])
  }

  // ---------------------------------------------------------------------------
  // Reading each field back: what the extractors return on a file that carries
  // the field, after text in which the pattern does not match

  /** Where a string does not contain `p`, no suffix of it starts with `p`. */
  lemma NotStartsWithin(s: string, i: nat, p: string)
    requires i <= |s| && !Contains(s, p)
    ensures !StartsWith(s[i..], p)
  {
    if StartsWith(s[i..], p) {
      ContainsInSuffix(s, i, p);
    }
  }

  /**
   * A one-line pattern that does not occur in the lines `p` (empty, or ending
   * in a newline) starts nowhere in `p`, whatever follows it.
   */
  lemma NoPatternInLines(p: string, y: string, m: string)
    requires !Contains(p, m) && '\n' !in m && (p == [] || p[|p| - 1] == '\n')
    ensures forall i :: 0 <= i < |p| ==> !StartsWith((p + y)[i..], m)
  {
    var r := p + y;
    forall i | 0 <= i < |p|
      ensures !StartsWith(r[i..], m)
    {
      if i + |m| <= |p| {
        assert r[i..][..|m|] == p[i..][..|m|];
        NotStartsWithin(p, i, m);
      } else if i + |m| <= |r| {
        assert r[i..][|p| - 1 - i] == '\n';
      }
    }
  }

  /** No line of `c` starts with `m`. */
  predicate NoLineStartsWith(c: string, m: string) {
    forall i :: 0 <= i < |c| && (i == 0 || c[i - 1] == '\n') ==> !StartsWith(c[i..], m)
  }

  /** The lines after a newline of `c` still have no line starting with `m`. */
  lemma NoLineStartsWithAfter(c: string, k: nat, m: string)
    requires k < |c| && c[k] == '\n' && NoLineStartsWith(c, m)
    ensures NoLineStartsWith(c[k + 1..], m)
  {
    var d := c[k + 1..];
    forall i | 0 <= i < |d| && (i == 0 || d[i - 1] == '\n')
      ensures !StartsWith(d[i..], m)
    {
      assert d[i..] == c[k + 1 + i..];
    }
  }

  /**
   * Where the first line of `p + y` lies inside `p`, a one-line pattern starts
   * `p + y` only if it starts `p`.
   */
  lemma StartsWithinLines(p: string, y: string, m: string)
    requires p != [] && p[|p| - 1] == '\n' && '\n' !in m
    ensures StartsWith(p + y, m) ==> StartsWith(p, m)
  {
    if StartsWith(p + y, m) && |p| < |m| {
      NewlineInMatch(p, y, m);
      assert false;
    }
    assert |m| <= |p| ==> (p + y)[..|m|] == p[..|m|];
  }

  /** A match at the start of `p + y` longer than `p` covers the newline that ends `p`. */
  lemma NewlineInMatch(p: string, y: string, m: string)
    requires p != [] && p[|p| - 1] == '\n' && StartsWith(p + y, m) && |p| < |m|
    ensures '\n' in m
  {
    assert m[|p| - 1] == (p + y)[|p| - 1];
  }

  /** The first line of `p + y` ends where the first line of `p` does. */
  lemma FirstLineInLines(p: string, y: string)
    requires p != [] && p[|p| - 1] == '\n'
    ensures LineEnd(p + y, 0) == LineEnd(p, 0) < |p|
    ensures (p + y)[LineEnd(p, 0) + 1..] == p[LineEnd(p, 0) + 1..] + y
  {
    var k := LineEnd(p, 0);
    LineEndAt(p + y, 0, k);
  }

  // Status

  /** Where no marker starts in `x`, the status is searched for in `y`. */
  lemma {:induction false} FindStatusPast(x: string, y: string)
    requires forall i :: 0 <= i < |x| ==> !StartsWith((x + y)[i..], StatusMarker)
    ensures FindStatus(x + y) == FindStatus(y)
    decreases |x|
  {
    if x == [] {
      assert x + y == y;
    } else {
      var c := x + y;
      assert c[0..] == c;
      assert c[1..] == x[1..] + y;
      forall i | 0 <= i < |x[1..]|
        ensures !StartsWith((x[1..] + y)[i..], StatusMarker)
      {
        assert (x[1..] + y)[i..] == c[i + 1..];
      }
      FindStatusPast(x[1..], y);
    }
  }
  /** At a status line the pattern captures the value up to the end of its line. */
  lemma StatusAtLine(ws: string, v: string, rest: string)
    requires forall k :: 0 <= k < |ws| ==> IsSpace(ws[k])
    requires v != [] && !IsSpace(v[0]) && '\n' !in v
    requires rest == [] || rest[0] == '\n'
    ensures StatusAt(StatusMarker + ws + v + rest) == Some(v)
  {
    var c := StatusMarker + ws + v + rest;
    var n := |StatusMarker|;
    var s := n + |ws|;
    var t := s + |v|;
    assert c[..n] == StatusMarker;
    assert forall k :: n <= k < s ==> c[k] == ws[k - n];
    assert forall k :: s <= k < t ==> c[k] == v[k - s];
    SpaceRunEndAt(c, n, s);
    assert CanStartLine(c, s, false);
    LineEndAt(c, s, t);
    assert c[s..t] == v;
  }

  /**
   * The status of a file whose first status line, after lines without the
   * marker, is `**Status:**`, whitespace and a value: the whole value up to
   * the end of its line, stripped, so a multi-word status such as
   * "In Progress" is read in full.
   */
  lemma StatusReadBack(p: string, ws: string, v: string, rest: string)
    requires !Contains(p, StatusMarker) && (p == [] || p[|p| - 1] == '\n')
    requires forall k :: 0 <= k < |ws| ==> IsSpace(ws[k])
    requires v != [] && !IsSpace(v[0]) && '\n' !in v
    requires rest == [] || rest[0] == '\n'
    ensures ExtractStatus(p + (StatusMarker + ws + v + rest)) == Strip(v)
  {
    StatusAtLine(ws, v, rest);
    StatusAfterLines(p, StatusMarker + ws + v + rest);
  }

  /** After lines without the marker, the status is the one the pattern reads at `x`. */
  lemma StatusAfterLines(p: string, x: string)
    requires !Contains(p, StatusMarker) && (p == [] || p[|p| - 1] == '\n')
    requires StatusAt(x).Some?
    ensures FindStatus(p + x) == StatusAt(x)
  {
    assert '\n' !in StatusMarker;
    NoPatternInLines(p, x, StatusMarker);
    FindStatusPast(p, x);
  }

  // Title

  /** Past lines none of which starts with `#`, the title search goes on in `y`. */
  lemma {:induction false} FindTitlePast(p: string, y: string)
    requires (p == [] || p[|p| - 1] == '\n') && NoLineStartsWith(p, "#")
    ensures FindTitle(p + y) == FindTitle(y)
    decreases |p|
  {
    if p == [] {
      assert p + y == y;
    } else {
      assert p[0..] == p;
      assert p[..1] == [p[0]];
      FirstLineInLines(p, y);
      var k := LineEnd(p, 0);
      NoLineStartsWithAfter(p, k, "#");
      FindTitlePast(p[k + 1..], y);
    }
  }

  /**
   * At a line `#`, whitespace, a title and trailing whitespace, the pattern
   * captures the title: without the trailing whitespace when a newline ends
   * the line, and up to the end of the text on the last line.
   */
  lemma TitleAtLine(ws: string, t: string, sp: string, rest: string)
    requires ws != [] && forall k :: 0 <= k < |ws| ==> IsSpace(ws[k])
    requires t != [] && IsTrimmed(t) && '\n' !in t
    requires forall k :: 0 <= k < |sp| ==> IsSpace(sp[k]) && sp[k] != '\n'
    requires (rest != [] && rest[0] == '\n') || (sp == [] && rest == [])
    ensures TitleAt("#" + ws + t + sp + rest) == Some(t)
  {
    var c := "#" + ws + t + sp + rest;
    var s := 1 + |ws|;
    var e := s + |t|;
    var l := e + |sp|;
    assert c[0] == '#';
    assert forall k :: 1 <= k < s ==> c[k] == ws[k - 1];
    assert forall k :: s <= k < e ==> c[k] == t[k - s];
    assert forall k :: e <= k < l ==> c[k] == sp[k - e];
    assert l < |c| ==> c[l] == rest[0];
    assert c[s..e] == t;
    TitleAtIndices(c, s, e, l);
  }

  /**
   * The title pattern at `c`: `#`, whitespace up to `s`, a title up to `e`
   * that starts and ends with a non-space, and whitespace up to `l`, where a
   * newline or the end of the text follows.
   */
  lemma TitleAtIndices(c: string, s: nat, e: nat, l: nat)
    requires 2 <= s < e <= l <= |c| && c[0] == '#'
    requires forall k :: 1 <= k < s ==> IsSpace(c[k])
    requires !IsSpace(c[s]) && !IsSpace(c[e - 1])
    requires forall k :: s <= k < e ==> c[k] != '\n'
    requires forall k :: e <= k < l ==> IsSpace(c[k]) && c[k] != '\n'
    requires (l < |c| && c[l] == '\n') || (e == l && l == |c|)
    ensures TitleAt(c) == Some(c[s..e])
  {
    SpaceRunEndAt(c, 1, s);
    assert CanStartLine(c, s, false);
    LineEndAt(c, s, l);
    if l < |c| {
      TrailingSpaceStartAt(c, s + 1, l, e);
    }
  }

  /**
   * The title of a file whose first line starting with `#` is a heading
   * `#`, whitespace and a title: that title, as TitleAtLine reads it.
   */
  lemma TitleReadBack(p: string, ws: string, t: string, sp: string, rest: string)
    requires (p == [] || p[|p| - 1] == '\n') && NoLineStartsWith(p, "#")
    requires ws != [] && forall k :: 0 <= k < |ws| ==> IsSpace(ws[k])
    requires t != [] && IsTrimmed(t) && '\n' !in t
    requires forall k :: 0 <= k < |sp| ==> IsSpace(sp[k]) && sp[k] != '\n'
    requires (rest != [] && rest[0] == '\n') || (sp == [] && rest == [])
    ensures FindTitle(p + ("#" + ws + t + sp + rest)) == Some(t)
  {
    TitleAtLine(ws, t, sp, rest);
    FindTitlePast(p, "#" + ws + t + sp + rest);
  }

  // Story points

  /** Past lines none of which starts with the marker, the points search goes on in `y`. */
  lemma {:induction false} FindPointsPast(p: string, y: string)
    requires (p == [] || p[|p| - 1] == '\n') && NoLineStartsWith(p, PointsMarker)
    ensures FindPoints(p + y) == FindPoints(y)
    decreases |p|
  {
    if p == [] {
      assert p + y == y;
    } else {
      assert p[0..] == p;
      PointsMarkerOneLine();
      StartsWithinLines(p, y, PointsMarker);
      FirstLineInLines(p, y);
      var k := LineEnd(p, 0);
      NoLineStartsWithAfter(p, k, PointsMarker);
      FindPointsPast(p[k + 1..], y);
    }
  }

  lemma PointsMarkerOneLine()
    ensures '\n' !in PointsMarker
  {
  }

  /** The marker anywhere but at a line start is not read: the points stay 0. */
  lemma {:induction false} PointsNeedLineStart(c: string)
    requires NoLineStartsWith(c, PointsMarker)
    ensures FindPoints(c).None? && ExtractStoryPoints(c) == 0
    decreases |c|
  {
    if c != [] {
      assert c[0..] == c;
      var k := LineEnd(c, 0);
      if k < |c| {
        NoLineStartsWithAfter(c, k, PointsMarker);
        PointsNeedLineStart(c[k + 1..]);
      }
    }
  }

  /** At a line starting with the marker, the pattern reads the digits after the whitespace. */
  lemma PointsAtLine(ws: string, ds: string, rest: string)
    requires forall k :: 0 <= k < |ws| ==> IsSpace(ws[k])
    requires ds != [] && forall k :: 0 <= k < |ds| ==> IsDigit(ds[k])
    requires rest == [] || !IsDigit(rest[0])
    ensures PointsAt(PointsMarker + ws + ds + rest) == Some(DigitsValue(ds))
  {
    DigitsAfterMarker(PointsMarker, ws, ds, rest);
  }

  /** After a marker and whitespace, the digit run is exactly `ds`. */
  lemma DigitsAfterMarker(m: string, ws: string, ds: string, rest: string)
    requires forall k :: 0 <= k < |ws| ==> IsSpace(ws[k])
    requires ds != [] && forall k :: 0 <= k < |ds| ==> IsDigit(ds[k])
    requires rest == [] || !IsDigit(rest[0])
    ensures var c := m + ws + ds + rest;
      var d := |m| + |ws|;
      StartsWith(c, m) && SpaceRunEnd(c, |m|) == d && DigitRunEnd(c, d) == d + |ds|
      && c[d..d + |ds|] == ds
  {
    var c := m + ws + ds + rest;
    var n := |m|;
    var d := n + |ws|;
    var e := d + |ds|;
    assert c[..n] == m;
    assert forall k :: n <= k < d ==> c[k] == ws[k - n];
    assert forall k :: d <= k < e ==> c[k] == ds[k - d];
    assert e < |c| ==> c[e] == rest[0];
    SpaceRunEndAt(c, n, d);
    DigitRunEndAt(c, d, e);
    assert c[d..e] == ds;
  }

  /**
   * The story points of a file whose first line starting with the marker is
   * `**Story Points:**`, whitespace and digits: the value of all the digits.
   */
  lemma PointsReadBack(p: string, ws: string, ds: string, rest: string)
    requires (p == [] || p[|p| - 1] == '\n') && NoLineStartsWith(p, PointsMarker)
    requires forall k :: 0 <= k < |ws| ==> IsSpace(ws[k])
    requires ds != [] && forall k :: 0 <= k < |ds| ==> IsDigit(ds[k])
    requires rest == [] || !IsDigit(rest[0])
    ensures ExtractStoryPoints(p + (PointsMarker + ws + ds + rest)) == DigitsValue(ds)
  {
    PointsAtLine(ws, ds, rest);
    FindPointsPast(p, PointsMarker + ws + ds + rest);
  }

  // Priority

  /** Past text without an asterisk, the priority search goes on in `y`. */
  lemma {:induction false} FindPriorityPast(p: string, y: string)
    requires '*' !in p
    ensures FindPriority(p + y) == FindPriority(y)
    decreases |p|
  {
    if p == [] {
      assert p + y == y;
    } else {
      var c := p + y;
      assert c[0] == p[0];
      NoPriorityWithoutAsterisk(c);
      assert c[1..] == p[1..] + y;
      FindPriorityPast(p[1..], y);
    }
  }

  lemma NoPriorityWithoutAsterisk(c: string)
    requires c == [] || c[0] != '*'
    ensures PriorityAt(c).None?
  {
    if |c| >= 2 {
      assert c[..2][0] == c[0];
    }
  }

  /** The levels the priority pattern accepts after the dash. */
  predicate IsPriorityLevel(level: string) {
    level == "Critical" || level == "Important" || level == "Nice"
  }

  /** At `**<word>** - <level>`, the pattern captures the word. */
  lemma PriorityAtLine(w: string, level: string, rest: string)
    requires w != [] && forall k :: 0 <= k < |w| ==> IsWordChar(w[k])
    requires IsPriorityLevel(level)
    ensures PriorityAt("**" + w + "** - " + level + rest) == Some(w)
  {
    var c := "**" + w + "** - " + level + rest;
    var e := 2 + |w|;
    assert c[..2] == "**";
    assert forall k :: 2 <= k < e ==> c[k] == w[k - 2];
    assert c[e] == '*' && c[e + 1] == '*' && c[e + 2] == ' ' && c[e + 3] == '-' && c[e + 4] == ' ';
    assert c[e + 5..] == level + rest;
    assert c[e + 5] == level[0];
    assert c[2..e] == w;
    PriorityAtIndices(c, e);
  }

  /**
   * The priority pattern at `c`: `**`, a word up to `e`, then `** - ` and a
   * priority level.
   */
  lemma PriorityAtIndices(c: string, e: nat)
    requires 2 < e && e + 5 < |c| && c[..2] == "**"
    requires forall k :: 2 <= k < e ==> IsWordChar(c[k])
    requires c[e] == '*' && c[e + 1] == '*' && c[e + 2] == ' ' && c[e + 3] == '-' && c[e + 4] == ' '
    requires !IsSpace(c[e + 5])
    requires StartsWith(c[e + 5..], "Critical") || StartsWith(c[e + 5..], "Important") || StartsWith(c[e + 5..], "Nice")
    ensures PriorityAt(c) == Some(c[2..e])
  {
    WordRunEndAt(c, 2, e);
    assert c[e..][..2] == "**";
    SpaceRunEndAt(c, e + 2, e + 3);
    SpaceRunEndAt(c, e + 4, e + 5);
  }

  /**
   * The priority of a file whose first asterisk opens `**<word>** - <level>`:
   * the word, lower-cased.
   */
  lemma PriorityReadBack(p: string, w: string, level: string, rest: string)
    requires '*' !in p
    requires w != [] && forall k :: 0 <= k < |w| ==> IsWordChar(w[k])
    requires IsPriorityLevel(level)
    ensures ExtractPriority(p + ("**" + w + "** - " + level + rest)) == Lower(w)
  {
    PriorityAtLine(w, level, rest);
    FindPriorityPast(p, "**" + w + "** - " + level + rest);
  }

  // Sections

  /** Where no heading starts in `p`, the section search goes on in `y`. */
  lemma {:induction false} FindSectionPast(p: string, y: string, name: string)
    requires forall i :: 0 <= i < |p| ==> !StartsWith((p + y)[i..], SectionHeading(name))
    ensures FindSection(p + y, name) == FindSection(y, name)
    decreases |p|
  {
    if p == [] {
      assert p + y == y;
    } else {
      var c := p + y;
      assert c[0..] == c;
      assert c[1..] == p[1..] + y;
      forall i | 0 <= i < |p[1..]|
        ensures !StartsWith((p[1..] + y)[i..], SectionHeading(name))
      {
        assert (p[1..] + y)[i..] == c[i + 1..];
      }
      FindSectionPast(p[1..], y, name);
    }
  }

  /**
   * At a heading followed by whitespace that ends in a blank line, the
   * pattern captures the text after it up to the first `\n##`.
   */
  lemma SectionAtHeading(name: string, ws: string, b: string)
    requires forall k :: 0 <= k < |ws| ==> IsSpace(ws[k])
    requires b == [] || !IsSpace(b[0])
    ensures SectionAt(SectionHeading(name) + ws + "\n\n" + b, name) == Some(b[..SectionBodyLength(b)])
  {
    var h := SectionHeading(name);
    var c := h + ws + "\n\n" + b;
    var e := |h| + |ws| + 2;
    assert c[..|h|] == h;
    assert forall k :: |h| <= k < |h| + |ws| ==> c[k] == ws[k - |h|];
    assert c[e - 2] == '\n' && c[e - 1] == '\n';
    assert e < |c| ==> c[e] == b[0];
    SpaceRunEndAt(c, |h|, e);
    assert EndsBlankLine(c, e);
    assert c[e..] == b;
  }

  /**
   * The body of a section whose first heading, after lines without it, is
   * followed by a blank line: the text after that line up to the first `\n##`.
   */
  lemma SectionReadBack(p: string, name: string, ws: string, b: string)
    requires !Contains(p, SectionHeading(name)) && '\n' !in name && (p == [] || p[|p| - 1] == '\n')
    requires forall k :: 0 <= k < |ws| ==> IsSpace(ws[k])
    requires b == [] || !IsSpace(b[0])
    ensures FindSection(p + (SectionHeading(name) + ws + "\n\n" + b), name) == Some(b[..SectionBodyLength(b)])
  {
    var x := SectionHeading(name) + ws + "\n\n" + b;
    assert '\n' !in SectionHeading(name);
    NoPatternInLines(p, x, SectionHeading(name));
    FindSectionPast(p, x, name);
    SectionAtHeading(name, ws, b);
  }
}
