/**
 * update_local_doc: the issue's `done` label forces the story file's status
 * to Done, and the file's checkbox lines are re-marked from the checklists
 * in the issue body. The file is written only when its text changed.
 */
module Reconcile {
  import opened Wrappers
  import opened Text
  import opened Markdown

  /** The replacement the status substitution writes, and the text whose presence skips it. */
  const DoneStatusLine := "**Status:** Done"

  // ---------------------------------------------------------------------------
  // Status: re.sub(r"\*\*Status:\*\*\s*.+?(?=\n|$)", "**Status:** Done", content)

  /**
   * End of the status pattern's match at the start of `c`: the lazy value
   * stops at the end of the line it starts on, without taking the newline.
   * It matches exactly where the status extractor finds a value.
   */
  function StatusMatchEnd(c: string): (r: Option<nat>)
    ensures r.Some? <==> StatusAt(c).Some?
    ensures r.Some? ==> |StatusMarker| < r.value <= |c| && (r.value == |c| || c[r.value] == '\n')
  {
    if !StartsWith(c, StatusMarker) then None
    else
      match Backtrack(c, |StatusMarker|, SpaceRunEnd(c, |StatusMarker|), false)
      case None => None
      case Some(s) => Some(LineEnd(c, s))
  }

  /** The substitution: every match, from left to right, becomes `DoneStatusLine`. */
  function ReplaceStatus(c: string): (r: string)
    decreases |c|
  {
    if c == [] then []
    else
      match StatusMatchEnd(c)
      case Some(e) => DoneStatusLine + ReplaceStatus(c[e..])
      case None => [c[0]] + ReplaceStatus(c[1..])
  }

  // ---------------------------------------------------------------------------
  // Title line: re.sub(r"(^#\s+.+?\n)", r"\1\n**Status:** Done\n", content, count=1, flags=re.MULTILINE)

  /** What the substitution puts after the title line. */
  const InsertedStatus := "\n**Status:** Done\n"

  /** `#\s+.+?\n` tried at the start of `c`: the end of the match, just past the newline. */
  function TitleLineEnd(c: string): (r: Option<nat>)
    ensures r.Some? ==> 2 < r.value <= |c| && c[r.value - 1] == '\n' && c[0] == '#'
  {
    if c == [] || c[0] != '#' then None
    else
      match Backtrack(c, 2, SpaceRunEnd(c, 1), true)
      case None => None
      case Some(s) => Some(LineEnd(c, s) + 1)
  }

  /** The first line start where the title pattern matches: the end of that match. */
  function FindTitleLineEnd(c: string): (r: Option<nat>)
    ensures r.Some? ==> 0 < r.value <= |c| && c[r.value - 1] == '\n'
    decreases |c|
  {
    match TitleLineEnd(c)
    case Some(e) => Some(e)
    case None =>
      var k := LineEnd(c, 0);
      if k == |c| then None
      else
        match FindTitleLineEnd(c[k + 1..])
        case None => None
        case Some(e) => Some(k + 1 + e)
  }

  /** The status line inserted after the first title line; no change when there is none. */
  function InsertStatusAfterTitle(c: string): (r: string)
    ensures FindTitleLineEnd(c).None? ==> r == c
    ensures FindTitleLineEnd(c).Some? ==> |r| == |c| + |InsertedStatus|
    ensures FindTitleLineEnd(c).Some? ==> var e := FindTitleLineEnd(c).value;
      r[..e] == c[..e] && r[e..e + |InsertedStatus|] == InsertedStatus && r[e + |InsertedStatus|..] == c[e..]
  {
    match FindTitleLineEnd(c)
    case None => c
    case Some(e) => c[..e] + InsertedStatus + c[e..]
  }

  /**
   * The status stage: only for a done issue whose file does not already
   * contain `**Status:** Done`; the status lines are rewritten when the file
   * has the marker, otherwise a status line goes after the title.
   */
  function StatusStage(c: string, isDone: bool): string {
    if isDone && !Contains(c, DoneStatusLine) then
      if Contains(c, StatusMarker) then ReplaceStatus(c) else InsertStatusAfterTitle(c)
    else c
  }

  // ---------------------------------------------------------------------------
  // Checkbox items: `- \[(.)\]\s+(.+?)` up to the end of the line

  /** A checkbox match: its mark, and where its text group starts and ends. */
  datatype ItemMatch = ItemMatch(mark: char, start: nat, end: nat)

  /**
   * `- \[(.)\]\s+(.+?)` tried at the start of `c`, the lazy group ending
   * where `\n` or the end of the text follows. CHECKBOX_PATTERN looks ahead
   * at that point; the checked and unchecked patterns consume the newline.
   */
  function ItemAt(c: string): (r: Option<ItemMatch>)
    ensures r.Some? ==> 6 <= r.value.start < r.value.end <= |c|
    ensures r.Some? ==> r.value.end == |c| || c[r.value.end] == '\n'
    ensures r.Some? ==> StartsWith(c, "- [") && r.value.mark == c[3] && r.value.mark != '\n' && c[4] == ']'
  {
    if !(StartsWith(c, "- [") && |c| > 4 && c[3] != '\n' && c[4] == ']') then None
    else
      match Backtrack(c, 6, SpaceRunEnd(c, 5), false)
      case None => None
      case Some(s) => Some(ItemMatch(c[3], s, LineEnd(c, s)))
  }

  /** The text of a match: its group, stripped. */
  function ItemText(c: string, m: ItemMatch): string
    requires m.start <= m.end <= |c|
  {
    Strip(c[m.start..m.end])
  }

  /** `[xX]` for the checked pattern, a space for the unchecked one. */
  predicate MarkSelects(mark: char, checked: bool) {
    if checked then mark == 'x' || mark == 'X' else mark == ' '
  }

  /**
   * The texts `re.finditer` collects with CHECKBOX_CHECKED_PATTERN
   * (`checked`) or CHECKBOX_UNCHECKED_PATTERN: matches do not overlap, and
   * each one takes the newline that ends it.
   */
  function MarkedTexts(c: string, checked: bool): (texts: set<string>)
    ensures !Contains(c, "- [") ==> texts == {}
    decreases |c|
  {
    if c == [] then {}
    else
      match ItemAt(c)
      case Some(m) =>
        if MarkSelects(m.mark, checked) then
          var e := if m.end < |c| then m.end + 1 else m.end;
          {ItemText(c, m)} + MarkedTexts(c[e..], checked)
        else MarkedTexts(c[1..], checked)
      case None => MarkedTexts(c[1..], checked)
  }

  /** update_checkbox: checked wins, then unchecked, else the match `c[..m.end]` is kept. */
  function Remark(c: string, m: ItemMatch, checked: set<string>, unchecked: set<string>): string
    requires m.start <= m.end <= |c|
  {
    var text := ItemText(c, m);
    if text in checked then "- [x] " + text
    else if text in unchecked then "- [ ] " + text
    else c[..m.end]
  }

  /** CHECKBOX_PATTERN.sub(update_checkbox, content). */
  function RemarkAll(c: string, checked: set<string>, unchecked: set<string>): string
    decreases |c|
  {
    if c == [] then []
    else
      match ItemAt(c)
      case Some(m) => Remark(c, m, checked, unchecked) + RemarkAll(c[m.end..], checked, unchecked)
      case None => [c[0]] + RemarkAll(c[1..], checked, unchecked)
  }

  /** The file text update_local_doc arrives at: the status stage, then the checkbox stage. */
  function UpdatedContent(c: string, labels: set<string>, body: string): string {
    RemarkAll(StatusStage(c, "done" in labels), MarkedTexts(body, true), MarkedTexts(body, false))
  }

  /**
   * update_local_doc for one story file. `content` is the file's text, None
   * when it is missing or cannot be read; `labels` are the names of the
   * issue's labels and `body` its body. Whether the write would succeed is
   * an input. `written` is the text the file holds afterwards when it was
   * rewritten; `changed` is the function's result.
   */
  method UpdateLocalDoc(content: Option<string>, labels: set<string>, body: string, dryRun: bool, writeOk: bool)
    returns (changed: bool, written: Option<string>)
    ensures changed <==> (content.Some? && UpdatedContent(content.value, labels, body) != content.value
      && (dryRun || writeOk))
    ensures written.Some? <==> (content.Some? && UpdatedContent(content.value, labels, body) != content.value
      && !dryRun && writeOk)
    ensures written.Some? ==> written.value == UpdatedContent(content.value, labels, body)
  {
    changed, written := false, None;
    if content.None? {
      return;
    }
    var c := content.value;
    var original := c;
    var isDone := "done" in labels;
    if isDone && !Contains(c, DoneStatusLine) {
      if Contains(c, StatusMarker) {
        c := ReplaceStatus(c);
      } else {
        c := InsertStatusAfterTitle(c);
      }
    }
    var checked := MarkedTexts(body, true);
    var unchecked := MarkedTexts(body, false);
    c := RemarkAll(c, checked, unchecked);
    if c != original {
      if dryRun {
        changed := true;
      } else if writeOk {
        changed, written := true, Some(c);
      }
    }
  }

  // ---------------------------------------------------------------------------
  // Re-marking, line by line

  /** A line of a story file, as far as the checkbox stage can tell: a checkbox item or any other line. */
  datatype DocLine = Other(line: string) | Item(mark: char, text: string)

  function RenderLine(l: DocLine): string {
    match l
    case Other(line) => line
    case Item(mark, text) => "- [" + [mark] + "] " + text
  }

  function RenderLines(ls: seq<DocLine>): (lines: seq<string>)
    ensures |lines| == |ls|
    ensures forall k :: 0 <= k < |ls| ==> lines[k] == RenderLine(ls[k])
    decreases |ls|
  {
    if ls == [] then [] else [RenderLine(ls[0])] + RenderLines(ls[1..])
  }

  /**
   * Lines the stage reads one at a time: an item with a one-line, trimmed,
   * non-empty text, or another line that holds no `- [` at all.
   */
  predicate WellFormedLine(l: DocLine) {
    match l
    case Other(line) => '\n' !in line && !Contains(line, "- [")
    case Item(mark, text) => mark != '\n' && text != [] && '\n' !in text && IsTrimmed(text)
  }

  /** The re-marking rule for one line: by its text alone, checked first, then unchecked. */
  function RemarkLine(l: DocLine, checked: set<string>, unchecked: set<string>): DocLine {
    match l
    case Other(_) => l
    case Item(_, text) =>
      if text in checked then Item('x', text)
      else if text in unchecked then Item(' ', text)
      else l
  }

  function RemarkLines(ls: seq<DocLine>, checked: set<string>, unchecked: set<string>): (r: seq<DocLine>)
    ensures |r| == |ls|
    ensures forall k :: 0 <= k < |ls| ==> r[k] == RemarkLine(ls[k], checked, unchecked)
    decreases |ls|
  {
    if ls == [] then [] else [RemarkLine(ls[0], checked, unchecked)] + RemarkLines(ls[1..], checked, unchecked)
  }

  /**
   * Every line of a file made of well-formed lines is re-marked by its own
   * text: the result is the file of the re-marked lines, whatever their
   * positions and neighbours.
   */
  lemma {:induction false} RemarkDocument(ls: seq<DocLine>, checked: set<string>, unchecked: set<string>)
    requires forall k :: 0 <= k < |ls| ==> WellFormedLine(ls[k])
    ensures RemarkAll(JoinLines(RenderLines(ls)), checked, unchecked)
      == JoinLines(RenderLines(RemarkLines(ls, checked, unchecked)))
    decreases |ls|
  {
    if |ls| == 1 {
      RemarkLineStep(ls[0], [], checked, unchecked);
      assert RenderLine(ls[0]) + [] == RenderLine(ls[0]);
    } else if |ls| > 1 {
      var j := JoinLines(RenderLines(ls[1..]));
      var rl := RemarkLines(ls, checked, unchecked);
      assert RenderLines(ls)[1..] == RenderLines(ls[1..]);
      assert rl[1..] == RemarkLines(ls[1..], checked, unchecked);
      assert RenderLines(rl)[1..] == RenderLines(rl[1..]);
      RemarkDocument(ls[1..], checked, unchecked);
      RemarkLineStep(ls[0], "\n" + j, checked, unchecked);
      RemarkNewline(j, checked, unchecked);
      ConcatAssoc(RenderLine(ls[0]), "\n", j);
      ConcatAssoc(RenderLine(rl[0]), "\n", RemarkAll(j, checked, unchecked));
    }
  }

  /**
   * Line by line: in a file of well-formed lines, the k-th line after the
   * checkbox stage is `- [x] t` when its item text t is in the checked set,
   * else `- [ ] t` when t is in the unchecked set, and is otherwise the line
   * as it was; the number of lines does not change.
   */
  lemma RemarkedLineAt(ls: seq<DocLine>, checked: set<string>, unchecked: set<string>, k: nat)
    requires forall j :: 0 <= j < |ls| ==> WellFormedLine(ls[j])
    requires k < |ls|
    ensures var out := SplitLines(RemarkAll(JoinLines(RenderLines(ls)), checked, unchecked));
      |out| == |ls|
      && (ls[k].Item? && ls[k].text in checked ==> out[k] == "- [x] " + ls[k].text)
      && (ls[k].Item? && ls[k].text !in checked && ls[k].text in unchecked ==> out[k] == "- [ ] " + ls[k].text)
      && (ls[k].Other? || (ls[k].text !in checked && ls[k].text !in unchecked) ==> out[k] == RenderLine(ls[k]))
  {
    var rl := RemarkLines(ls, checked, unchecked);
    RemarkDocument(ls, checked, unchecked);
    RemarkedLinesSingle(ls, checked, unchecked);
    SplitJoinLines(RenderLines(rl));
    assert SplitLines(RemarkAll(JoinLines(RenderLines(ls)), checked, unchecked)) == RenderLines(rl);
    assert RenderLines(rl)[k] == RenderLine(RemarkLine(ls[k], checked, unchecked));
    if ls[k].Item? {
      RenderedItem('x', ls[k].text);
      RenderedItem(' ', ls[k].text);
    }
  }

  /** An item rendered with a literal mark. */
  lemma RenderedItem(mark: char, text: string)
    ensures mark == 'x' ==> RenderLine(Item(mark, text)) == "- [x] " + text
    ensures mark == ' ' ==> RenderLine(Item(mark, text)) == "- [ ] " + text
  {
    assert "- [" + [mark] + "] " + text == ("- [" + [mark] + "] ") + text;
  }

  /** The lines of a re-marked file of well-formed lines hold no newline. */
  lemma RemarkedLinesSingle(ls: seq<DocLine>, checked: set<string>, unchecked: set<string>)
    requires forall j :: 0 <= j < |ls| ==> WellFormedLine(ls[j])
    ensures var lines := RenderLines(RemarkLines(ls, checked, unchecked));
      forall j :: 0 <= j < |lines| ==> '\n' !in lines[j]
  {
    var rl := RemarkLines(ls, checked, unchecked);
    forall j | 0 <= j < |rl|
      ensures '\n' !in RenderLines(rl)[j]
    {
      assert rl[j] == RemarkLine(ls[j], checked, unchecked);
      assert WellFormedLine(ls[j]);
      RenderedLineHasNoNewline(rl[j]);
    }
  }

  /** A re-marked well-formed line renders on a single line. */
  lemma RenderedLineHasNoNewline(l: DocLine)
    requires l.Other? ==> '\n' !in l.line
    requires l.Item? ==> l.mark != '\n' && '\n' !in l.text
    ensures '\n' !in RenderLine(l)
  {
    if l.Item? {
      var r := RenderLine(l);
      forall i | 0 <= i < |r|
        ensures r[i] != '\n'
      {
        if i >= 6 {
          assert r[i] == l.text[i - 6];
        }
      }
    }
  }

  /** Re-marking twice with the same sets is re-marking once. */
  lemma {:induction false} RemarkLinesIdempotent(ls: seq<DocLine>, checked: set<string>, unchecked: set<string>)
    ensures RemarkLines(RemarkLines(ls, checked, unchecked), checked, unchecked) == RemarkLines(ls, checked, unchecked)
    decreases |ls|
  {
    if ls != [] {
      var r := RemarkLines(ls, checked, unchecked);
      assert r[1..] == RemarkLines(ls[1..], checked, unchecked);
      RemarkLinesIdempotent(ls[1..], checked, unchecked);
    }
  }

  lemma ConcatAssoc(a: string, b: string, c: string)
    ensures (a + b) + c == a + (b + c)
  {
  }

  /** A well-formed line followed by the end of the text or a newline: it alone is re-marked. */
  lemma RemarkLineStep(l: DocLine, tail: string, checked: set<string>, unchecked: set<string>)
    requires WellFormedLine(l)
    requires tail == [] || tail[0] == '\n'
    ensures RemarkAll(RenderLine(l) + tail, checked, unchecked)
      == RenderLine(RemarkLine(l, checked, unchecked)) + RemarkAll(tail, checked, unchecked)
  {
    match l
    case Other(line) =>
      NoItemStartsIn(line, tail);
      RemarkPlainPrefix(line, tail, checked, unchecked);
    case Item(mark, text) =>
      RemarkItemLine(mark, text, tail, checked, unchecked);
  }

  /** A newline is copied. */
  lemma RemarkNewline(rest: string, checked: set<string>, unchecked: set<string>)
    ensures RemarkAll("\n" + rest, checked, unchecked) == "\n" + RemarkAll(rest, checked, unchecked)
  {
    var c := "\n" + rest;
    assert c[0] == '\n' && c[1..] == rest;
    assert !StartsWith(c, "- [");
    RemarkCopiesChar(c, checked, unchecked);
  }

  /** No match starts in a newline-free line without `- [`, even looking past its end. */
  lemma NoItemStartsIn(line: string, tail: string)
    requires '\n' !in line && !Contains(line, "- [")
    requires tail == [] || tail[0] == '\n'
    ensures forall i :: 0 <= i < |line| ==> !StartsWith((line + tail)[i..], "- [")
  {
    var c := line + tail;
    forall i | 0 <= i < |line|
      ensures !StartsWith(c[i..], "- [")
    {
      if i + 3 <= |line| {
        assert c[i..][..3] == line[i..][..3];
        NotStartsWithin(line, i, "- [");
      } else if i + 3 <= |c| {
        assert c[|line|] == '\n';
        assert c[i..][|line| - i] == '\n';
      }
    }
  }

  /** Text where no match starts is copied unchanged. */
  lemma {:induction false} RemarkPlainPrefix(x: string, y: string, checked: set<string>, unchecked: set<string>)
    requires forall i :: 0 <= i < |x| ==> !StartsWith((x + y)[i..], "- [")
    ensures RemarkAll(x + y, checked, unchecked) == x + RemarkAll(y, checked, unchecked)
  {
    RemarkSkip(x + y, |x|, checked, unchecked);
    assert (x + y)[..|x|] == x;
    assert (x + y)[|x|..] == y;
  }

  /** The first `n` characters, where no match starts, are copied unchanged. */
  lemma {:induction false} RemarkSkip(c: string, n: nat, checked: set<string>, unchecked: set<string>)
    requires n <= |c|
    requires forall i :: 0 <= i < n ==> !StartsWith(c[i..], "- [")
    ensures RemarkAll(c, checked, unchecked) == c[..n] + RemarkAll(c[n..], checked, unchecked)
    decreases n
  {
    if n > 0 {
      assert c[0..] == c;
      RemarkCopiesChar(c, checked, unchecked);
      NoStartShift(c, n);
      var d := c[1..];
      RemarkSkip(d, n - 1, checked, unchecked);
      SplitAfterFirst(c, n);
      ConcatAssoc([c[0]], d[..n - 1], RemarkAll(d[n - 1..], checked, unchecked));
    } else {
      assert c[..0] == [] && c[0..] == c;
    }
  }

  lemma NoStartShift(c: string, n: nat)
    requires 0 < n <= |c|
    requires forall i :: 0 <= i < n ==> !StartsWith(c[i..], "- [")
    ensures forall i :: 0 <= i < n - 1 ==> !StartsWith(c[1..][i..], "- [")
  {
    forall i | 0 <= i < n - 1
      ensures !StartsWith(c[1..][i..], "- [")
    {
      assert c[1..][i..] == c[i + 1..];
    }
  }

  lemma SplitAfterFirst<T>(c: seq<T>, n: nat)
    requires 0 < n <= |c|
    ensures [c[0]] + c[1..][..n - 1] == c[..n] && c[1..][n - 1..] == c[n..]
  {
  }

  /** Where no match starts, the character is copied. */
  lemma RemarkCopiesChar(c: string, checked: set<string>, unchecked: set<string>)
    requires c != [] && !StartsWith(c, "- [")
    ensures RemarkAll(c, checked, unchecked) == [c[0]] + RemarkAll(c[1..], checked, unchecked)
  {
    assert ItemAt(c).None?;
  }

  /** A rendered item followed by the end of the text or a newline: one match, over exactly that line. */
  lemma ItemLineMatch(mark: char, text: string, tail: string)
    requires mark != '\n' && text != [] && '\n' !in text && IsTrimmed(text)
    requires tail == [] || tail[0] == '\n'
    ensures var x := "- [" + [mark] + "] " + text;
      ItemAt(x + tail) == Some(ItemMatch(mark, 6, |x|))
  {
    var x := "- [" + [mark] + "] " + text;
    var c := x + tail;
    assert c[..3] == "- [" && c[3] == mark && c[4] == ']' && c[5] == ' ';
    assert c[6] == text[0];
    assert SpaceRunEnd(c, 6) == 6;
    assert SpaceRunEnd(c, 5) == 6;
    assert forall k :: 6 <= k < |x| ==> c[k] == text[k - 6];
    assert |x| == |c| || c[|x|] == '\n';
  }

  /** A rendered item line is re-marked by its text. */
  lemma RemarkItemLine(mark: char, text: string, tail: string, checked: set<string>, unchecked: set<string>)
    requires mark != '\n' && text != [] && '\n' !in text && IsTrimmed(text)
    requires tail == [] || tail[0] == '\n'
    ensures RemarkAll("- [" + [mark] + "] " + text + tail, checked, unchecked)
      == RenderLine(RemarkLine(Item(mark, text), checked, unchecked)) + RemarkAll(tail, checked, unchecked)
  {
    var x := "- [" + [mark] + "] " + text;
    var c := x + tail;
    ItemLineMatch(mark, text, tail);
    var m := ItemMatch(mark, 6, |x|);
    RemarkAtMatch(c, m, checked, unchecked);
    SplitAt(x, tail);
    assert c[6..|x|] == text;
    RemarkOfItem(c, m, mark, text, checked, unchecked);
  }

  lemma SplitAt<T>(x: seq<T>, tail: seq<T>)
    ensures (x + tail)[..|x|] == x && (x + tail)[|x|..] == tail
  {
  }

  /** Where a match starts, its replacement comes first. */
  lemma RemarkAtMatch(c: string, m: ItemMatch, checked: set<string>, unchecked: set<string>)
    requires ItemAt(c) == Some(m)
    ensures RemarkAll(c, checked, unchecked) == Remark(c, m, checked, unchecked) + RemarkAll(c[m.end..], checked, unchecked)
  {
  }

  /** The replacement of a match over a whole rendered item is the re-marked line. */
  lemma RemarkOfItem(c: string, m: ItemMatch, mark: char, text: string, checked: set<string>, unchecked: set<string>)
    requires m.start <= m.end <= |c| && c[m.start..m.end] == text && IsTrimmed(text)
    requires c[..m.end] == "- [" + [mark] + "] " + text
    ensures Remark(c, m, checked, unchecked) == RenderLine(RemarkLine(Item(mark, text), checked, unchecked))
  {
    assert ItemText(c, m) == text;
    assert "- [" + ['x'] + "] " + text == "- [x] " + text;
    assert "- [" + [' '] + "] " + text == "- [ ] " + text;
  }

  // ---------------------------------------------------------------------------
  // The status stage

  /**
   * A done issue forces the file's status to Done when the status stage has
   * something to work on: a status marker with a value to replace, or, when
   * there is no marker, a title line to put the status after. The status the
   * parser then reads is `Done`.
   */
  lemma DoneLabelForcesStatus(c: string)
    requires !Contains(c, DoneStatusLine)
    requires Contains(c, StatusMarker) ==> FindStatus(c).Some?
    requires !Contains(c, StatusMarker) ==> FindTitleLineEnd(c).Some?
    ensures ExtractStatus(StatusStage(c, true)) == "Done"
  {
    var r := StatusStage(c, true);
    if Contains(c, StatusMarker) {
      assert r == ReplaceStatus(c);
      ReplaceStatusReadsDone(c);
    } else {
      assert r == InsertStatusAfterTitle(c);
      InsertionReadsDone(c);
    }
    assert FindStatus(r) == Some("Done");
    assert IsTrimmed("Done");
  }

  /**
   * The stage tests for the string `**Status:** Done` anywhere in the text,
   * not for a status that reads Done: a text containing it is left as it is,
   * whatever its first status line says.
   */
  lemma DoneSubstringKeepsText(c: string)
    requires Contains(c, DoneStatusLine)
    ensures StatusStage(c, true) == c
  {
  }

  /** A status "Doneish" contains the string, so it survives a done label. */
  lemma DoneishKeptUnderDoneLabel()
    ensures var c := "# T\n**Status:** Doneish\n";
      StatusStage(c, true) == c && ExtractStatus(c) == "Doneish"
  {
    var p := "# T\n";
    var c := p + (StatusMarker + " " + "Doneish" + "\n");
    assert c == "# T\n**Status:** Doneish\n";
    assert c[4..][..|DoneStatusLine|] == DoneStatusLine;
    ContainsInSuffix(c, 4, DoneStatusLine);
    ShorterLacks(p, StatusMarker);
    StatusReadBack(p, " ", "Doneish", "\n");
  }

  /**
   * A later `**Status:** Done` line keeps the first status line, and the
   * status read from it, as they are.
   */
  lemma LaterDoneLineKeepsStatus(c: string, p: string, v: string, q: string)
    requires c == p + (StatusMarker + " " + v + ("\n" + DoneStatusLine + q))
    requires !Contains(p, StatusMarker) && (p == [] || p[|p| - 1] == '\n')
    requires v != [] && !IsSpace(v[0]) && '\n' !in v
    ensures StatusStage(c, true) == c && ExtractStatus(c) == Strip(v)
  {
    LaterDoneLineKept(p, v, q);
    StatusReadBack(p, " ", v, "\n" + DoneStatusLine + q);
  }

  lemma LaterDoneLineKept(p: string, v: string, q: string)
    ensures var c := p + (StatusMarker + " " + v + ("\n" + DoneStatusLine + q));
      StatusStage(c, true) == c
  {
    var c := p + (StatusMarker + " " + v + ("\n" + DoneStatusLine + q));
    var a := p + (StatusMarker + " " + v + "\n");
    assert c == a + (DoneStatusLine + q);
    ContainsAfter(a, DoneStatusLine, q);
    DoneSubstringKeepsText(c);
  }

  /** `a + m + q` contains `m`. */
  lemma ContainsAfter(a: string, m: string, q: string)
    ensures Contains(a + (m + q), m)
  {
    var c := a + (m + q);
    assert c[|a|..][..|m|] == m;
    ContainsInSuffix(c, |a|, m);
  }

  /**
   * A marker with no value after it (only newlines to the end of the file)
   * is not a match: the stage then leaves the file as it is, even for a done
   * issue, and the parser keeps reading `Draft`.
   */
  lemma {:induction false} ReplaceStatusWithoutValue(c: string)
    requires FindStatus(c).None?
    ensures ReplaceStatus(c) == c
    decreases |c|
  {
    if c != [] {
      assert StatusAt(c).None?;
      ReplaceStatusWithoutValue(c[1..]);
      assert [c[0]] + c[1..] == c;
    }
  }

  /** The substitution's result reads back as `Done` wherever the original had a status value. */
  lemma {:induction false} ReplaceStatusReadsDone(c: string)
    requires FindStatus(c).Some?
    ensures FindStatus(ReplaceStatus(c)) == Some("Done")
    decreases |c|
  {
    var r := ReplaceStatus(c);
    match StatusMatchEnd(c)
    case Some(e) =>
      var z := ReplaceStatus(c[e..]);
      ReplaceStatusNewlineHead(c[e..]);
      DoneLineRead(z);
      assert r == DoneStatusLine + z;
    case None =>
      assert c != [];
      if StartsWith(c, StatusMarker) {
        MarkerWithoutValue(c);
      }
      assert FindStatus(c[1..]).Some?;
      ReplaceStatusReadsDone(c[1..]);
      ReplaceStatusKeepsMarker(c);
      assert r[1..] == ReplaceStatus(c[1..]);
  }

  /** The status pattern at a line `**Status:** Done` that ends the text or a line: the value is `Done`. */
  lemma DoneLineRead(z: string)
    requires z == [] || z[0] == '\n'
    ensures StatusAt(DoneStatusLine + z) == Some("Done")
  {
    var c := DoneStatusLine + z;
    var m := |StatusMarker|;
    assert c[..m] == StatusMarker;
    assert c[m] == ' ' && c[m + 1] == 'D';
    assert SpaceRunEnd(c, m + 1) == m + 1;
    assert SpaceRunEnd(c, m) == m + 1;
    assert Backtrack(c, m, m + 1, false) == Some(m + 1);
    assert c[m + 1..m + 5] == "Done";
    assert forall k :: m + 1 <= k < m + 5 ==> c[k] != '\n';
    assert m + 5 == |c| || c[m + 5] == '\n';
    assert LineEnd(c, m + 1) == m + 5;
  }

  /** After a match the text goes on with a newline or ends, and so does its substitution. */
  lemma ReplaceStatusNewlineHead(z: string)
    requires z == [] || z[0] == '\n'
    ensures ReplaceStatus(z) == [] || ReplaceStatus(z)[0] == '\n'
  {
    if z != [] {
      assert !StartsWith(z, StatusMarker) by {
        assert |StatusMarker| > 0 && StatusMarker[0] == '*';
      }
    }
  }

  /** The substitution starts with the marker only where the original did. */
  lemma ReplaceStatusKeepsMarker(c: string)
    ensures StartsWith(ReplaceStatus(c), StatusMarker) ==> StartsWith(c, StatusMarker)
  {
    var n := |StatusMarker|;
    ReplaceStatusKeepsHead(c);
    if |c| < n {
      ShorterLacks(c, StatusMarker);
      NoMarkerUnchanged(c);
    }
  }

  /** The first characters of the text, up to the marker's length, are kept. */
  lemma {:induction false} ReplaceStatusKeepsHead(c: string)
    ensures var n := if |c| < |StatusMarker| then |c| else |StatusMarker|;
      n <= |ReplaceStatus(c)| && ReplaceStatus(c)[..n] == c[..n]
    decreases |c|
  {
    if c != [] {
      if StatusMatchEnd(c).Some? {
        KeepsHeadAtMatch(c);
      } else {
        ReplaceStatusKeepsHead(c[1..]);
        KeepsHeadPastChar(c);
      }
    }
  }

  /** At a match the replacement line starts with the marker, as the text does. */
  lemma KeepsHeadAtMatch(c: string)
    requires StatusMatchEnd(c).Some?
    ensures |StatusMarker| <= |ReplaceStatus(c)| && ReplaceStatus(c)[..|StatusMarker|] == c[..|StatusMarker|]
  {
    var e := StatusMatchEnd(c).value;
    assert ReplaceStatus(c) == DoneStatusLine + ReplaceStatus(c[e..]);
    assert StartsWith(c, StatusMarker);
    DoneLineStartsWithMarker();
    SamePrefix(DoneStatusLine, ReplaceStatus(c[e..]), c, StatusMarker);
  }

  /** Past a character that starts no match, the kept head grows by that character. */
  lemma KeepsHeadPastChar(c: string)
    requires c != [] && StatusMatchEnd(c).None?
    requires var n := if |c| - 1 < |StatusMarker| then |c| - 1 else |StatusMarker|;
      n <= |ReplaceStatus(c[1..])| && ReplaceStatus(c[1..])[..n] == c[1..][..n]
    ensures var n := if |c| < |StatusMarker| then |c| else |StatusMarker|;
      n <= |ReplaceStatus(c)| && ReplaceStatus(c)[..n] == c[..n]
  {
    var m := if |c| - 1 < |StatusMarker| then |c| - 1 else |StatusMarker|;
    var n := if |c| < |StatusMarker| then |c| else |StatusMarker|;
    assert ReplaceStatus(c) == [c[0]] + ReplaceStatus(c[1..]);
    PrefixCons(c[0], ReplaceStatus(c[1..]), c[1..], m, n - 1);
    assert [c[0]] + c[1..] == c;
  }

  /** Agreeing on `m` elements, two sequences with the same first element added agree on `k + 1 <= m + 1`. */
  lemma PrefixCons<T>(x: T, t: seq<T>, u: seq<T>, m: nat, k: nat)
    requires k <= m <= |t| && m <= |u| && t[..m] == u[..m]
    ensures k + 1 <= |[x] + t| && ([x] + t)[..k + 1] == ([x] + u)[..k + 1]
  {
    assert forall i :: 0 <= i < k ==> t[i] == t[..m][i] == u[..m][i] == u[i];
  }

  lemma DoneLineStartsWithMarker()
    ensures StartsWith(DoneStatusLine, StatusMarker)
  {
  }

  /** Two texts that start with the same pattern agree on its length. */
  lemma SamePrefix(d: string, rest: string, c: string, m: string)
    requires StartsWith(d, m) && StartsWith(c, m)
    ensures |m| <= |d + rest| && (d + rest)[..|m|] == c[..|m|]
  {
    assert (d + rest)[..|m|] == d[..|m|];
  }

  /**
   * The substitution works in place: text in which no marker starts is
   * copied unchanged, and the substitution carries on in what follows.
   */
  lemma {:induction false} ReplaceStatusPast(x: string, y: string)
    requires forall i :: 0 <= i < |x| ==> !StartsWith((x + y)[i..], StatusMarker)
    ensures ReplaceStatus(x + y) == x + ReplaceStatus(y)
  {
    ReplaceStatusSkip(x + y, |x|);
    assert (x + y)[..|x|] == x;
    assert (x + y)[|x|..] == y;
  }

  /** The first `n` characters, where no marker starts, are copied unchanged. */
  lemma {:induction false} ReplaceStatusSkip(c: string, n: nat)
    requires n <= |c|
    requires forall i :: 0 <= i < n ==> !StartsWith(c[i..], StatusMarker)
    ensures ReplaceStatus(c) == c[..n] + ReplaceStatus(c[n..])
    decreases n
  {
    if n > 0 {
      assert c[0..] == c;
      ReplaceStatusCopiesChar(c);
      NoMarkerShift(c, n);
      var d := c[1..];
      ReplaceStatusSkip(d, n - 1);
      SplitAfterFirst(c, n);
      ConcatAssoc([c[0]], d[..n - 1], ReplaceStatus(d[n - 1..]));
    } else {
      assert c[..0] == [] && c[0..] == c;
    }
  }

  lemma NoMarkerShift(c: string, n: nat)
    requires 0 < n <= |c|
    requires forall i :: 0 <= i < n ==> !StartsWith(c[i..], StatusMarker)
    ensures forall i :: 0 <= i < n - 1 ==> !StartsWith(c[1..][i..], StatusMarker)
  {
    forall i | 0 <= i < n - 1
      ensures !StartsWith(c[1..][i..], StatusMarker)
    {
      assert c[1..][i..] == c[i + 1..];
    }
  }

  /** Where no marker starts, the character is copied. */
  lemma ReplaceStatusCopiesChar(c: string)
    requires c != [] && !StartsWith(c, StatusMarker)
    ensures ReplaceStatus(c) == [c[0]] + ReplaceStatus(c[1..])
  {
    assert StatusMatchEnd(c).None?;
  }

  /** At a status line the match ends where the value's line does, before its newline. */
  lemma StatusMatchAtLine(ws: string, v: string, rest: string)
    requires forall k :: 0 <= k < |ws| ==> IsSpace(ws[k])
    requires v != [] && !IsSpace(v[0]) && '\n' !in v
    requires rest == [] || rest[0] == '\n'
    ensures StatusMatchEnd(StatusMarker + ws + v + rest) == Some(|StatusMarker| + |ws| + |v|)
  {
    var c := StatusMarker + ws + v + rest;
    var n := |StatusMarker|;
    var s := n + |ws|;
    var t := s + |v|;
    assert c[..n] == StatusMarker;
    assert forall k :: n <= k < s ==> c[k] == ws[k - n];
    assert forall k :: s <= k < t ==> c[k] == v[k - s];
    SpaceRunEndAt(c, n, s);
    assert CanStartLine(c, s, false);
    LineEndAt(c, s, t);
  }

  /**
   * A status line after lines without the marker is replaced in place: the
   * lines before it are kept, the marker, whitespace and value become
   * `**Status:** Done`, and the substitution carries on from the end of the
   * value's line.
   */
  lemma ReplaceStatusLine(p: string, ws: string, v: string, rest: string)
    requires !Contains(p, StatusMarker) && (p == [] || p[|p| - 1] == '\n')
    requires forall k :: 0 <= k < |ws| ==> IsSpace(ws[k])
    requires v != [] && !IsSpace(v[0]) && '\n' !in v
    requires rest == [] || rest[0] == '\n'
    ensures ReplaceStatus(p + (StatusMarker + ws + v + rest)) == p + (DoneStatusLine + ReplaceStatus(rest))
  {
    var m := StatusMarker + ws + v + rest;
    NoPatternInLines(p, m, StatusMarker);
    ReplaceStatusPast(p, m);
    StatusMatchAtLine(ws, v, rest);
    assert m[|StatusMarker| + |ws| + |v|..] == rest;
  }

  /** Without the marker, the substitution changes nothing. */
  lemma {:induction false} NoMarkerUnchanged(c: string)
    requires !Contains(c, StatusMarker)
    ensures ReplaceStatus(c) == c
    decreases |c|
  {
    if c != [] {
      NoMarkerUnchanged(c[1..]);
      assert [c[0]] + c[1..] == c;
    }
  }

  /**
   * A marker where the pattern does not match has only newlines after it,
   * so no later status value exists either.
   */
  lemma MarkerWithoutValue(c: string)
    requires StartsWith(c, StatusMarker) && StatusAt(c).None?
    ensures FindStatus(c[1..]).None?
  {
    var m := |StatusMarker|;
    var hi := SpaceRunEnd(c, m);
    assert !CanStartLine(c, hi, false);
    assert hi == |c|;
    assert forall k :: m <= k < |c| ==> !CanStartLine(c, k, false);
    var d := c[1..];
    forall j | 0 <= j < |d|
      ensures !StartsWith(d[j..], StatusMarker)
    {
      if j + m <= |d| {
        assert !CanStartLine(c, j + m, false);
        assert d[j..][m - 1] == c[j + m];
      }
    }
    NoStartNoContains(d, StatusMarker);
  }

  /** A string none of whose suffixes starts with `p` does not contain `p`. */
  lemma {:induction false} NoStartNoContains(s: string, p: string)
    requires p != []
    requires forall j :: 0 <= j < |s| ==> !StartsWith(s[j..], p)
    ensures !Contains(s, p)
    decreases |s|
  {
    if s != [] {
      assert s[0..] == s;
      forall j | 0 <= j < |s[1..]|
        ensures !StartsWith(s[1..][j..], p)
      {
        assert s[1..][j..] == s[j + 1..];
      }
      NoStartNoContains(s[1..], p);
    }
  }

  /** The status line inserted after the title is the first status the parser finds, and it reads `Done`. */
  lemma InsertionReadsDone(c: string)
    requires !Contains(c, StatusMarker) && FindTitleLineEnd(c).Some?
    ensures FindStatus(InsertStatusAfterTitle(c)) == Some("Done")
  {
    var e := FindTitleLineEnd(c).value;
    var x := c[..e] + "\n";
    var y := DoneStatusLine + ("\n" + c[e..]);
    InsertedAsParts(c[..e], c[e..]);
    assert InsertStatusAfterTitle(c) == x + y;
    NoMarkerBeforeInsertion(c, e);
    FindStatusPast(x, y);
    DoneLineRead("\n" + c[e..]);
    assert FindStatus(y) == StatusAt(y);
  }

  /** The inserted text, split at the start of its status line. */
  lemma InsertedAsParts(a: string, b: string)
    ensures a + InsertedStatus + b == (a + "\n") + (DoneStatusLine + ("\n" + b))
  {
    assert InsertedStatus == "\n" + DoneStatusLine + "\n";
  }

  /** No marker starts before the inserted status line: the text has none, and none crosses the newline. */
  lemma NoMarkerBeforeInsertion(c: string, e: nat)
    requires !Contains(c, StatusMarker) && 0 < e <= |c| && c[e - 1] == '\n'
    ensures var x := c[..e] + "\n";
      forall i :: 0 <= i < |x| ==> !StartsWith((x + (DoneStatusLine + ("\n" + c[e..])))[i..], StatusMarker)
  {
    NoMarkerBeforeText(c, e, DoneStatusLine + ("\n" + c[e..]));
  }

  /** No marker starts in the text up to `e` and a newline, whatever follows them. */
  lemma NoMarkerBeforeText(c: string, e: nat, y: string)
    requires !Contains(c, StatusMarker) && 0 < e <= |c| && c[e - 1] == '\n'
    ensures var x := c[..e] + "\n";
      forall i :: 0 <= i < |x| ==> !StartsWith((x + y)[i..], StatusMarker)
  {
    assert '\n' !in StatusMarker;
    NoPatternBeforeText(c, e, y, StatusMarker);
  }

  /** A one-line pattern absent from `c` does not start in `c[..e] + "\n"`, whatever follows. */
  lemma NoPatternBeforeText(c: string, e: nat, y: string, m: string)
    requires !Contains(c, m) && '\n' !in m && 0 < e <= |c| && c[e - 1] == '\n'
    ensures var x := c[..e] + "\n";
      forall i :: 0 <= i < |x| ==> !StartsWith((x + y)[i..], m)
  {
    var x := c[..e] + "\n";
    var r := x + y;
    assert forall k :: 0 <= k < e ==> r[k] == c[k];
    assert r[e] == x[e] == '\n';
    forall i | 0 <= i < |x|
      ensures !StartsWith(r[i..], m)
    {
      if i + |m| <= e {
        assert r[i..][..|m|] == c[i..][..|m|];
        NotStartsWithin(c, i, m);
      } else if i + |m| <= |r| {
        assert r[i..][e - i] == '\n';
      }
    }
  }
}
