/**
 * The body build_issue_body writes and the parser parse_checkbox_section
 * reads back: a checklist written into an issue is read back unchanged.
 */
module RoundTrip {
  import opened Wrappers
  import opened Text
  import opened Story
  import opened Markdown
  import opened Parser
  import opened Mapper

  const AcceptanceCriteria := "Acceptance Criteria"

  /** An item text that survives the trip: non-empty, one line, no surrounding whitespace. */
  predicate IsPlainItemText(text: string) {
    text != [] && '\n' !in text && IsTrimmed(text)
  }

  /**
   * Parsing the Acceptance Criteria section of the body gives the story's
   * list back, order and check marks included, when the item texts are plain
   * and the User Story text, which comes first, does not itself contain the
   * section's heading.
   */
  lemma AcceptanceCriteriaRoundTrip(story: UserStory)
    requires story.acceptanceCriteria != []
    requires forall k :: 0 <= k < |story.acceptanceCriteria| ==> IsPlainItemText(story.acceptanceCriteria[k].text)
    requires !Contains(story.userStory, SectionHeading(AcceptanceCriteria))
    ensures CheckboxSection(IssueBody(story), AcceptanceCriteria) == story.acceptanceCriteria
  {
    var t := ChecklistOnward(story);
    BodyAroundAcceptance(story);
    ChecklistRead(story);
    if story.userStory != "" {
      UserStoryBlockSkipped(story.userStory, t);
    }
    ItemsOfRenderedLines(story.acceptanceCriteria);
  }

  /** The body from the Acceptance Criteria heading on. */
  function ChecklistOnward(story: UserStory): string {
    SectionHeading(AcceptanceCriteria) + "\n\n"
      + (JoinLines(CheckboxLines(story.acceptanceCriteria)) + "\n\n" + JoinLines(AfterChecklist(story)))
  }

  /** Read from its heading on, the checklist section gives the items of its rendered lines. */
  lemma ChecklistRead(story: UserStory)
    requires story.acceptanceCriteria != []
    requires forall k :: 0 <= k < |story.acceptanceCriteria| ==> IsPlainItemText(story.acceptanceCriteria[k].text)
    ensures CheckboxSection(ChecklistOnward(story), AcceptanceCriteria)
      == CheckboxItems(CheckboxLines(story.acceptanceCriteria))
  {
    var lines := CheckboxLines(story.acceptanceCriteria);
    var rest := AfterChecklist(story);
    RenderedLinesShape(story.acceptanceCriteria);
    AfterChecklistHead(story);
    if StartsWith(rest[0], "##") {
      ChecklistBeforeHeading(lines, rest);
    } else {
      PointsLineShape(story.storyPoints);
      ChecklistBeforePoints(lines, rest[0]);
    }
  }

  /** The checklist section read back when the next section's heading follows it. */
  lemma ChecklistBeforeHeading(lines: seq<string>, rest: seq<string>)
    requires lines != []
    requires forall k :: 0 <= k < |lines| ==> '\n' !in lines[k] && StartsWith(lines[k], "- [")
    requires rest != [] && StartsWith(rest[0], "##")
    ensures CheckboxSection(SectionHeading(AcceptanceCriteria) + "\n\n" + (JoinLines(lines) + "\n\n" + JoinLines(rest)),
      AcceptanceCriteria) == CheckboxItems(lines)
  {
    var jr := JoinLines(rest);
    JoinLinesStartsWith(rest);
    SectionBeforeHeading(lines, jr);
    SectionAtChecklist(SectionHeading(AcceptanceCriteria), lines, jr);
    SplitJoinLines(lines + [""]);
    CheckboxItemsAppend(lines, [""]);
    BlankLineHasNoItem();
  }

  /** The checklist section read back when only the story-points line follows it. */
  lemma ChecklistBeforePoints(lines: seq<string>, last: string)
    requires lines != []
    requires forall k :: 0 <= k < |lines| ==> '\n' !in lines[k] && StartsWith(lines[k], "- [")
    requires last != [] && last[0] == '*' && '\n' !in last && IsTrimmed(last)
    ensures CheckboxSection(SectionHeading(AcceptanceCriteria) + "\n\n" + (JoinLines(lines) + "\n\n" + JoinLines([last])),
      AcceptanceCriteria) == CheckboxItems(lines)
  {
    assert JoinLines([last]) == last;
    SectionBeforePoints(lines, last);
    SectionAtChecklist(SectionHeading(AcceptanceCriteria), lines, last);
    NewlineFreeThenLast(lines, last);
    SplitJoinLines(lines + ["", last]);
    ItemsThenPoints(lines, last);
  }

  lemma NewlineFreeThenLast(lines: seq<string>, last: string)
    requires forall k :: 0 <= k < |lines| ==> '\n' !in lines[k]
    requires '\n' !in last
    ensures var all := lines + ["", last]; forall k :: 0 <= k < |all| ==> '\n' !in all[k]
  {
    var all := lines + ["", last];
    forall k | 0 <= k < |all|
      ensures '\n' !in all[k]
    {
      if k < |lines| {
        assert all[k] == lines[k];
      }
    }
  }

  /** A blank line and a line starting with `*` add no items. */
  lemma ItemsThenPoints(lines: seq<string>, last: string)
    requires last != [] && last[0] == '*' && IsTrimmed(last)
    ensures CheckboxItems(lines + ["", last]) == CheckboxItems(lines)
  {
    BlankThenPoints(last);
    CheckboxItemsAppend(lines, ["", last]);
  }

  lemma BlankThenPoints(last: string)
    requires last != [] && last[0] == '*' && IsTrimmed(last)
    ensures CheckboxItems(["", last]) == []
  {
    assert ["", last][1..] == [last];
    BlankLineHasNoItem();
    StarLineHasNoItem(last);
  }

  lemma StarLineHasNoItem(line: string)
    requires line != [] && line[0] == '*' && IsTrimmed(line)
    ensures CheckboxItems([line]) == []
  {
    CheckboxItemsOfOneLine(line);
    assert Strip(line) == line;
    assert !IsCheckboxLine(line) by {
      if |line| >= 3 {
        assert line[..3][0] == '*';
      }
    }
  }

  lemma BlankLineHasNoItem()
    ensures CheckboxItems([""]) == []
  {
    CheckboxItemsOfOneLine("");
    assert Strip("") == "";
  }

  /** The User Story block in front of the checklist hides no Acceptance Criteria heading. */
  lemma UserStoryBlockSkipped(us: string, t: string)
    requires !Contains(us, SectionHeading(AcceptanceCriteria))
    ensures FindSection("## User Story" + "\n" + ("" + "\n" + (us + "\n" + ("" + "\n" + t))), AcceptanceCriteria)
      == FindSection(t, AcceptanceCriteria)
  {
    var h := SectionHeading(AcceptanceCriteria);
    assert '\n' !in AcceptanceCriteria;
    ShorterLacks("## User Story", h);
    ShorterLacks("", h);
    SkipLine("", t, AcceptanceCriteria);
    SkipLine(us, "" + "\n" + t, AcceptanceCriteria);
    SkipLine("", us + "\n" + ("" + "\n" + t), AcceptanceCriteria);
    SkipLine("## User Story", "" + "\n" + (us + "\n" + ("" + "\n" + t)), AcceptanceCriteria);
  }

  // ----- the shape of the body around the Acceptance Criteria section -----

  /** The body's parts after the Acceptance Criteria section: the later sections, then the story-points line. */
  function AfterChecklist(story: UserStory): seq<string> {
    PartsFrom(SectionBlocks(story), 2) + [PointsLine(story.storyPoints)]
  }

  /** What follows the checklist is the next heading, or the story-points line alone. */
  lemma AfterChecklistHead(story: UserStory)
    ensures var rest := AfterChecklist(story);
      rest == [PointsLine(story.storyPoints)] || (rest != [] && StartsWith(rest[0], "##"))
  {
    var later := PartsFrom(SectionBlocks(story), 2);
    SectionsOpenWithHeadings(story);
    PartsFromHead(SectionBlocks(story), 2);
    if later != [] {
      assert AfterChecklist(story)[0] == later[0];
    }
  }

  /** The body is the User Story block, if any, then the checklist block, then the rest. */
  lemma BodyAroundAcceptance(story: UserStory)
    requires story.acceptanceCriteria != []
    ensures var t := ChecklistOnward(story);
      IssueBody(story) == if story.userStory == "" then t
        else "## User Story" + "\n" + ("" + "\n" + (story.userStory + "\n" + ("" + "\n" + t)))
  {
    var lines := CheckboxLines(story.acceptanceCriteria);
    var rest := AfterChecklist(story);
    var block := ["## Acceptance Criteria\n"] + (lines + ([""] + rest));
    BodyAsBlocks(story);
    AfterChecklistHead(story);
    JoinChecklistBlock(lines, rest);
    assert IssueBody(story) == JoinLines(SectionBlocks(story)[0] + block);
    if story.userStory == "" {
      assert [] + block == block;
    } else {
      JoinUserStoryBlock(story.userStory, block);
    }
  }

  /** The body's parts: the User Story parts, then the checklist's heading, lines and blank, then the rest. */
  lemma BodyAsBlocks(story: UserStory)
    requires story.acceptanceCriteria != []
    ensures BodyParts(story) == SectionBlocks(story)[0]
      + (["## Acceptance Criteria\n"] + (CheckboxLines(story.acceptanceCriteria) + ([""] + AfterChecklist(story))))
    ensures SectionBlocks(story)[0] == if story.userStory == "" then [] else ["## User Story\n", story.userStory, ""]
  {
    var sp0 := SectionBlocks(story)[0];
    var sp1 := SectionBlocks(story)[1];
    var hp := "## Acceptance Criteria\n";
    var lines := CheckboxLines(story.acceptanceCriteria);
    var rest := AfterChecklist(story);
    var bs := SectionBlocks(story);
    var later := PartsFrom(bs, 2);
    PartsSplit(bs, 2);
    PartsStep(bs, 0);
    PartsStep(bs, 1);
    assert [] + sp0 == sp0;
    assert PartsBefore(bs, 2) == sp0 + sp1;
    assert BodyParts(story) == (sp0 + sp1 + later) + [PointsLine(story.storyPoints)];
    ConcatAssoc(sp0 + sp1, later, [PointsLine(story.storyPoints)]);
    ConcatAssoc(sp0, sp1, rest);
    SectionPartsAsWritten(story, 1);
    assert sp1 == ([hp] + lines) + [""];
    ConcatAssoc([hp] + lines, [""], rest);
    ConcatAssoc([hp], lines, [""] + rest);
    SectionPartsAsWritten(story, 0);
  }

  /** Joining the checklist block: heading, blank line, the lines, a blank line, the rest. */
  lemma JoinChecklistBlock(lines: seq<string>, rest: seq<string>)
    requires lines != [] && rest != []
    ensures JoinLines(["## Acceptance Criteria\n"] + (lines + ([""] + rest)))
      == SectionHeading(AcceptanceCriteria) + "\n\n" + (JoinLines(lines) + "\n\n" + JoinLines(rest))
  {
    JoinHeadedBlock("## Acceptance Criteria\n", lines, rest);
    AcceptanceHeadingPart();
  }

  /** The heading part and its joining newline spell the heading and a blank line. */
  lemma AcceptanceHeadingPart()
    ensures "## Acceptance Criteria\n" + "\n" == SectionHeading(AcceptanceCriteria) + "\n\n"
  {
  }

  /** Joining a heading part, lines, a blank part and the rest. */
  lemma JoinHeadedBlock(head: string, lines: seq<string>, rest: seq<string>)
    requires lines != [] && rest != []
    ensures JoinLines([head] + (lines + ([""] + rest)))
      == head + "\n" + (JoinLines(lines) + "\n\n" + JoinLines(rest))
  {
    var jl, jr := JoinLines(lines), JoinLines(rest);
    var x := lines + ([""] + rest);
    JoinLinesCons("", rest);
    assert JoinLines([""] + rest) == "\n" + jr;
    JoinLinesAppend(lines, [""] + rest);
    assert JoinLines(x) == jl + "\n" + ("\n" + jr);
    NewlinePair(jl, jr);
    JoinLinesCons(head, x);
  }

  /** Two newlines written one at a time. */
  lemma NewlinePair(a: string, b: string)
    ensures a + "\n" + ("\n" + b) == a + "\n\n" + b
  {
    assert "\n" + "\n" == "\n\n";
    ConcatAssoc(a + "\n", "\n", b);
    ConcatAssoc(a, "\n", "\n");
  }

  /** Joining the User Story block in front of what follows it. */
  lemma JoinUserStoryBlock(us: string, block: seq<string>)
    requires block != []
    ensures JoinLines(["## User Story\n", us, ""] + block)
      == "## User Story" + "\n" + ("" + "\n" + (us + "\n" + ("" + "\n" + JoinLines(block))))
  {
    var first := ["## User Story\n", us, ""];
    JoinLinesAppend(first, block);
    JoinLinesCons(us, [""]);
    JoinLinesCons("## User Story\n", [us, ""]);
    assert JoinLines(first) == "## User Story\n" + "\n" + (us + "\n" + "");
  }

  lemma JoinLinesCons(a: string, rest: seq<string>)
    requires rest != []
    ensures JoinLines([a] + rest) == a + "\n" + JoinLines(rest)
  {
    assert ([a] + rest)[1..] == rest;
  }

  /** A join starts with its first part. */
  lemma JoinLinesStartsWith(parts: seq<string>)
    requires parts != []
    ensures StartsWith(JoinLines(parts), parts[0])
  {
    var j := JoinLines(parts);
    if |parts| > 1 {
      assert j == parts[0] + ("\n" + JoinLines(parts[1..]));
    }
    assert j[..|parts[0]|] == parts[0];
  }

  // ----- the rendered checklist -----

  /** Every rendered checkbox line is one plain line starting with `- [`. */
  lemma RenderedLinesShape(items: seq<Checkbox>)
    requires forall k :: 0 <= k < |items| ==> IsPlainItemText(items[k].text)
    ensures var lines := CheckboxLines(items);
      forall k :: 0 <= k < |lines| ==> '\n' !in lines[k] && StartsWith(lines[k], "- [") && IsTrimmed(lines[k])
  {
    var lines := CheckboxLines(items);
    forall k | 0 <= k < |lines|
      ensures '\n' !in lines[k] && StartsWith(lines[k], "- [") && IsTrimmed(lines[k])
    {
      var text := items[k].text;
      var line := lines[k];
      assert line == (if items[k].checked then "- [x] " else "- [ ] ") + text;
      assert line[|line| - 1] == text[|text| - 1];
      assert line[..3] == "- [";
    }
  }

  /** Reading the rendered lines gives the items back. */
  lemma ItemsOfRenderedLines(items: seq<Checkbox>)
    requires forall k :: 0 <= k < |items| ==> IsPlainItemText(items[k].text)
    ensures CheckboxItems(CheckboxLines(items)) == items
  {
    var lines := CheckboxLines(items);
    forall k | 0 <= k < |lines|
      ensures LineItem(lines[k]) == [items[k]]
    {
      ItemOfRenderedLine(items[k]);
    }
    ItemsOfLines(lines, items);
  }

  /** Lines that each give one item read back as those items, in order. */
  lemma {:induction false} ItemsOfLines(lines: seq<string>, items: seq<Checkbox>)
    requires |lines| == |items|
    requires forall k :: 0 <= k < |lines| ==> LineItem(lines[k]) == [items[k]]
    ensures CheckboxItems(lines) == items
    decreases |lines|
  {
    if lines != [] {
      ItemsOfLines(lines[1..], items[1..]);
      assert [items[0]] + items[1..] == items;
    }
  }

  /** One rendered line reads back as its item. */
  lemma ItemOfRenderedLine(item: Checkbox)
    requires IsPlainItemText(item.text)
    ensures LineItem(CheckboxLine(item)) == [item]
  {
    var mark := if item.checked then 'x' else ' ';
    var line := "- [" + [mark] + "] " + item.text;
    RenderedLineShape(item);
    RenderedLineTrimmed(mark, item.text);
    CheckboxOfRenderedLine(mark, item.text);
    LineItemOfCheckboxLine(line);
  }

  lemma RenderedLineShape(item: Checkbox)
    ensures CheckboxLine(item) == "- [" + [if item.checked then 'x' else ' '] + "] " + item.text
  {
  }

  lemma RenderedLineTrimmed(mark: char, text: string)
    requires IsPlainItemText(text)
    ensures var line := "- [" + [mark] + "] " + text; IsTrimmed(line) && IsCheckboxLine(line)
  {
    var line := "- [" + [mark] + "] " + text;
    assert line[|line| - 1] == text[|text| - 1];
    assert line[..3] == "- [";
  }

  /** A trimmed line that starts with `- [` gives exactly its own item. */
  lemma LineItemOfCheckboxLine(line: string)
    requires IsTrimmed(line) && IsCheckboxLine(line)
    ensures LineItem(line) == [CheckboxOfLine(line)]
  {
  }

  // ----- finding the section -----

  /**
   * A line without the heading, followed by a newline, holds no match: the
   * heading has no newline, so no occurrence can run past the line.
   */
  lemma {:induction false} SkipLine(x: string, rest: string, name: string)
    requires '\n' !in name && !Contains(x, SectionHeading(name))
    ensures FindSection(x + "\n" + rest, name) == FindSection(rest, name)
    decreases |x|
  {
    var h := SectionHeading(name);
    var c := x + "\n" + rest;
    assert !StartsWith(c, h) by {
      if StartsWith(c, h) {
        HeadingWithinLine(x, rest, h);
      }
    }
    assert c[1..] == if x == [] then rest else x[1..] + "\n" + rest;
    if x != [] {
      SkipLine(x[1..], rest, name);
    }
  }

  /** An occurrence of a newline-free text at the start of a line lies within the line. */
  lemma HeadingWithinLine(x: string, rest: string, h: string)
    requires '\n' !in h && StartsWith(x + "\n" + rest, h)
    ensures StartsWith(x, h)
  {
    var c := x + "\n" + rest;
    assert c[|x|] == '\n';
    assert c[..|h|] == h;
    assert |h| <= |x|;
    assert c[..|h|] == x[..|h|];
  }

  /**
   * The section pattern at the heading: `\s*\n\n` takes exactly the blank
   * line, since the checklist starts with `-`.
   */
  lemma SectionAtChecklist(h: string, lines: seq<string>, jr: string)
    requires lines != [] && StartsWith(lines[0], "- [")
    requires h == SectionHeading(AcceptanceCriteria)
    ensures var m := JoinLines(lines) + "\n\n" + jr;
      FindSection(h + "\n\n" + m, AcceptanceCriteria) == Some(m[..SectionBodyLength(m)])
  {
    var jl := JoinLines(lines);
    ChecklistStartsWithDash(lines);
    var m := jl + "\n\n" + jr;
    assert m[0] == jl[0];
    SectionAtBlankLine(h, AcceptanceCriteria, m);
  }

  /** The joined checklist starts with the dash of its first line. */
  lemma ChecklistStartsWithDash(lines: seq<string>)
    requires lines != [] && StartsWith(lines[0], "- [")
    ensures JoinLines(lines) != [] && JoinLines(lines)[0] == '-'
  {
    JoinLinesStartsWith(lines);
    assert lines[0][0] == '-';
  }

  /** A heading, a blank line and a body that does not start with whitespace: the section body is read from there. */
  lemma SectionAtBlankLine(h: string, name: string, m: string)
    requires h == SectionHeading(name)
    requires m != [] && !IsSpace(m[0])
    ensures FindSection(h + "\n\n" + m, name) == Some(m[..SectionBodyLength(m)])
  {
    var c := h + "\n\n" + m;
    var n := |h|;
    assert c[..n] == h;
    assert c[n] == '\n' && c[n + 1] == '\n' && c[n + 2] == m[0];
    assert SpaceRunEnd(c, n + 2) == n + 2;
    assert SpaceRunEnd(c, n + 1) == n + 2;
    assert SpaceRunEnd(c, n) == n + 2;
    assert EndsBlankLine(c, n + 2);
    assert BlankLineEnd(c, n, n + 2) == Some(n + 2);
    assert c[n + 2..] == m;
  }

  // ----- where the section body ends -----

  /** A newline-free prefix holds no `\n##`, so the body runs through it. */
  lemma {:induction false} BodyLengthNewlineFree(r: string, s: string)
    requires '\n' !in r
    ensures SectionBodyLength(r + s) == |r| + SectionBodyLength(s)
    decreases |r|
  {
    if r == [] {
      assert r + s == s;
    } else {
      assert (r + s)[0] == r[0];
      BodyLengthStep(r + s);
      assert (r + s)[1..] == r[1..] + s;
      assert '\n' !in r[1..];
      BodyLengthNewlineFree(r[1..], s);
    }
  }

  /** A first character other than a newline cannot start `\n##`: the body takes it. */
  lemma BodyLengthStep(x: string)
    requires x != [] && x[0] != '\n'
    ensures SectionBodyLength(x) == 1 + SectionBodyLength(x[1..])
  {
    assert !StartsWith(x, "\n##") by {
      if |x| >= 3 {
        assert x[..3][0] == x[0];
      }
    }
  }

  /** The body runs through checklist lines: no line starts with `#`. */
  lemma {:induction false} BodyLengthOverLines(lines: seq<string>, s: string)
    requires lines != []
    requires forall k :: 0 <= k < |lines| ==> '\n' !in lines[k] && StartsWith(lines[k], "- [")
    ensures SectionBodyLength(JoinLines(lines) + s) == |JoinLines(lines)| + SectionBodyLength(s)
    decreases |lines|
  {
    if |lines| == 1 {
      BodyLengthNewlineFree(lines[0], s);
    } else {
      var tail := lines[1..];
      var y := JoinLines(tail) + s;
      assert JoinLines(lines) + s == lines[0] + ("\n" + y);
      ChecklistJoinHead(tail, s);
      BodyLengthLineThenMore(lines[0], y);
      BodyLengthOverLines(tail, s);
    }
  }

  /** One newline-free line, a newline, then text not starting with `#`: the body runs through both. */
  lemma BodyLengthLineThenMore(line: string, y: string)
    requires '\n' !in line && y != [] && y[0] != '#'
    ensures SectionBodyLength(line + ("\n" + y)) == |line| + 1 + SectionBodyLength(y)
  {
    BodyLengthNewlineFree(line, "\n" + y);
    BodyLengthAfterNewline(y);
  }

  /** Joined checklist lines, whatever follows, start with `-`. */
  lemma ChecklistJoinHead(tail: seq<string>, s: string)
    requires tail != [] && StartsWith(tail[0], "- [")
    ensures JoinLines(tail) + s != [] && (JoinLines(tail) + s)[0] == '-'
  {
    JoinLinesStartsWith(tail);
    var j := JoinLines(tail);
    assert tail[0][..3][0] == '-';
    assert j[..|tail[0]|][0] == '-';
  }

  /** A newline not followed by `#` does not end the body. */
  lemma BodyLengthAfterNewline(y: string)
    requires y != [] && y[0] != '#'
    ensures SectionBodyLength("\n" + y) == 1 + SectionBodyLength(y)
  {
    assert ("\n" + y)[1..] == y;
    assert !StartsWith("\n" + y, "\n##");
  }

  /** Up to the blank line after the checklist the body runs on: it ends at the blank line or later. */
  lemma BodyLengthThroughChecklist(lines: seq<string>, jr: string)
    requires lines != []
    requires forall k :: 0 <= k < |lines| ==> '\n' !in lines[k] && StartsWith(lines[k], "- [")
    ensures SectionBodyLength(JoinLines(lines) + "\n\n" + jr) == |JoinLines(lines)| + 1 + SectionBodyLength("\n" + jr)
  {
    var jl := JoinLines(lines);
    assert jl + "\n\n" + jr == jl + ("\n" + ("\n" + jr));
    BodyLengthOverLines(lines, "\n" + ("\n" + jr));
    BodyLengthAfterNewline("\n" + jr);
  }

  /** When a heading follows the checklist, the section is the checklist and one newline. */
  lemma SectionBeforeHeading(lines: seq<string>, jr: string)
    requires lines != []
    requires forall k :: 0 <= k < |lines| ==> '\n' !in lines[k] && StartsWith(lines[k], "- [")
    requires StartsWith(jr, "##")
    ensures var m := JoinLines(lines) + "\n\n" + jr;
      m[..SectionBodyLength(m)] == JoinLines(lines + [""])
  {
    var jl := JoinLines(lines);
    var m := jl + "\n\n" + jr;
    BodyLengthThroughChecklist(lines, jr);
    BodyLengthAtHeading(jr);
    assert SectionBodyLength(m) == |jl| + 1;
    JoinLinesAppend(lines, [""]);
    assert JoinLines(lines + [""]) == jl + "\n" + JoinLines([""]);
    ChecklistAndNewline(jl, jr);
  }

  /** The checklist text and the newline after it, cut from the text that follows. */
  lemma ChecklistAndNewline(jl: string, jr: string)
    ensures (jl + "\n\n" + jr)[..|jl| + 1] == jl + "\n" + JoinLines([""])
  {
    assert JoinLines([""]) == "";
    assert (jl + "\n\n" + jr)[..|jl| + 1] == jl + "\n";
  }

  /** When only the points line follows, the section runs to the end of the body. */
  lemma SectionBeforePoints(lines: seq<string>, last: string)
    requires lines != []
    requires forall k :: 0 <= k < |lines| ==> '\n' !in lines[k] && StartsWith(lines[k], "- [")
    requires last != [] && last[0] == '*' && '\n' !in last
    ensures var m := JoinLines(lines) + "\n\n" + last;
      m[..SectionBodyLength(m)] == JoinLines(lines + ["", last])
  {
    BodyLengthToEnd(lines, last);
    JoinBlankThen(lines, last);
  }

  lemma BodyLengthToEnd(lines: seq<string>, last: string)
    requires lines != []
    requires forall k :: 0 <= k < |lines| ==> '\n' !in lines[k] && StartsWith(lines[k], "- [")
    requires last != [] && last[0] == '*' && '\n' !in last
    ensures var m := JoinLines(lines) + "\n\n" + last;
      SectionBodyLength(m) == |m|
  {
    BodyLengthThroughChecklist(lines, last);
    BodyLengthAfterNewline(last);
    BodyLengthNewlineFree(last, "");
    assert last + "" == last;
  }

  /** Joining a blank part and one more line onto the checklist. */
  lemma JoinBlankThen(lines: seq<string>, last: string)
    requires lines != []
    ensures JoinLines(lines + ["", last]) == JoinLines(lines) + "\n\n" + last
  {
    var jl := JoinLines(lines);
    var two := ["", last];
    assert two == [""] + [last];
    assert JoinLines(two) == "\n" + last by {
      JoinLinesCons("", [last]);
      assert JoinLines([last]) == last;
    }
    JoinLinesAppend(lines, two);
    assert "\n" + "\n" == "\n\n";
    ConcatAssoc(jl, "\n", "\n");
    ConcatAssoc(jl + "\n", "\n", last);
  }

  /** A heading right after a newline ends the body there. */
  lemma BodyLengthAtHeading(jr: string)
    requires StartsWith(jr, "##")
    ensures SectionBodyLength("\n" + jr) == 0
  {
    assert ("\n" + jr)[..3] == "\n" + jr[..2];
  }

  /**
   * The story-points line, after lines none of which starts with the marker,
   * reads back as the points it was written from.
   */
  lemma PointsLineReadBack(p: string, points: nat, rest: string)
    requires (p == [] || p[|p| - 1] == '\n') && NoLineStartsWith(p, PointsMarker)
    requires rest == [] || rest[0] == '\n'
    ensures ExtractStoryPoints(p + (PointsLine(points) + rest)) == points
  {
    var digits := NatToString(points);
    assert "**Story Points:** " == PointsMarker + " ";
    assert PointsLine(points) + rest == PointsMarker + " " + digits + rest;
    PointsReadBack(p, " ", digits, rest);
    DigitsValueOfNatToString(points);
  }
}
