/**
 * The outbound direction: the issue body built from a story, the labels an
 * issue should carry, the label changes an update asks for, and the issue
 * number read back from `gh issue create`.
 */
module Mapper {
  import opened Wrappers
  import opened Text
  import opened Story
  import opened Sanitize
  import opened Retry

  // ---------------------------------------------------------------------------
  // Issue body (build_issue_body)

  /**
   * How many sections the body has room for: User Story, Acceptance
   * Criteria, Tasks, Implementation Details, Dependencies and Notes, in that
   * order.
   */
  const SectionCount: nat := 6

  /** `- [x] text` or `- [ ] text`. */
  function CheckboxLine(item: Checkbox): string {
    (if item.checked then "- [x] " else "- [ ] ") + item.text
  }

  /** One checkbox line per item, in list order. */
  function CheckboxLines(items: seq<Checkbox>): (lines: seq<string>)
    ensures |lines| == |items|
    ensures forall k :: 0 <= k < |items| ==> lines[k] == CheckboxLine(items[k])
  {
    seq(|items|, k requires 0 <= k < |items| => CheckboxLine(items[k]))
  }

  /** `- #n`. */
  function DependencyLine(dep: nat): string {
    "- #" + NatToString(dep)
  }

  /** One reference line per dependency, in list order. */
  function DependencyLines(deps: seq<nat>): (lines: seq<string>)
    ensures |lines| == |deps|
    ensures forall k :: 0 <= k < |deps| ==> lines[k] == DependencyLine(deps[k])
  {
    seq(|deps|, k requires 0 <= k < |deps| => DependencyLine(deps[k]))
  }

  /** A free-text field as body lines: absent when empty. */
  function TextLines(text: string): seq<string> {
    if text == "" then [] else [text]
  }

  function HeadingPart(k: nat): string
    requires k < SectionCount
  {
    if k == 0 then "## User Story\n"
    else if k == 1 then "## Acceptance Criteria\n"
    else if k == 2 then "## Tasks\n"
    else if k == 3 then "## Implementation Details\n"
    else if k == 4 then "## Dependencies\n"
    else "## Notes\n"
  }

  /** The parts section `k` adds with `content` under it: its heading, the lines and an empty part, or nothing at all. */
  function SectionBlock(k: nat, content: seq<string>): seq<string>
    requires k < SectionCount
  {
    if content == [] then [] else [HeadingPart(k)] + content + [""]
  }

  /** Each section's parts, in section order. */
  function SectionBlocks(story: UserStory): (bs: seq<seq<string>>)
    ensures |bs| == SectionCount
  {
    [SectionBlock(0, TextLines(story.userStory)), SectionBlock(1, CheckboxLines(story.acceptanceCriteria)),
     SectionBlock(2, CheckboxLines(story.tasks)), SectionBlock(3, TextLines(story.implementationDetails)),
     SectionBlock(4, DependencyLines(story.dependencies)), SectionBlock(5, TextLines(story.notes))]
  }

  /** The parts of the blocks, block after block. */
  function Concat(bs: seq<seq<string>>): seq<string>
    decreases |bs|
  {
    if bs == [] then [] else Concat(bs[..|bs| - 1]) + bs[|bs| - 1]
  }

  /** The parts of blocks `0 .. k - 1`, in order. */
  function PartsBefore(bs: seq<seq<string>>, k: nat): seq<string>
    requires k <= |bs|
  {
    Concat(bs[..k])
  }

  /** The parts of blocks `k` onwards. */
  function PartsFrom(bs: seq<seq<string>>, k: nat): seq<string>
    requires k <= |bs|
    decreases |bs| - k
  {
    if k == |bs| then [] else bs[k] + PartsFrom(bs, k + 1)
  }

  function PointsLine(points: nat): string {
    "**Story Points:** " + NatToString(points)
  }

  /** `body_parts` as build_issue_body fills it. */
  function BodyParts(story: UserStory): seq<string> {
    PartsBefore(SectionBlocks(story), SectionCount) + [PointsLine(story.storyPoints)]
  }

  /** The issue body: the parts joined with newlines. */
  function IssueBody(story: UserStory): string {
    JoinLines(BodyParts(story))
  }

  /** build_issue_body, appending to `body_parts` section by section. */
  method BuildIssueBody(story: UserStory) returns (body: string)
    ensures body == IssueBody(story)
  {
    ghost var bs := SectionBlocks(story);
    var parts: seq<string> := [];
    parts := AppendTextSection(parts, "## User Story\n", story.userStory);
    PartsStep(bs, 0);
    SectionPartsAsWritten(story, 0);
    parts := AppendCheckboxSection(parts, "## Acceptance Criteria\n", story.acceptanceCriteria);
    PartsStep(bs, 1);
    SectionPartsAsWritten(story, 1);
    parts := AppendCheckboxSection(parts, "## Tasks\n", story.tasks);
    PartsStep(bs, 2);
    SectionPartsAsWritten(story, 2);
    parts := AppendTextSection(parts, "## Implementation Details\n", story.implementationDetails);
    PartsStep(bs, 3);
    SectionPartsAsWritten(story, 3);
    parts := AppendDependencySection(parts, story.dependencies);
    PartsStep(bs, 4);
    SectionPartsAsWritten(story, 4);
    parts := AppendTextSection(parts, "## Notes\n", story.notes);
    PartsStep(bs, 5);
    SectionPartsAsWritten(story, 5);
    parts := parts + [PointsLine(story.storyPoints)];
    body := JoinLines(parts);
  }

  /** A free-text section, when the text is non-empty: heading, the text, then an empty part. */
  method AppendTextSection(parts: seq<string>, heading: string, text: string) returns (r: seq<string>)
    ensures r == parts + (if text == "" then [] else [heading, text, ""])
  {
    r := parts;
    if text != "" {
      r := r + [heading, text, ""];
    }
  }

  /** The parts of sections up to `k` are those before `k`, then section `k`'s. */
  lemma PartsStep(bs: seq<seq<string>>, k: nat)
    requires k < |bs|
    ensures PartsBefore(bs, k + 1) == PartsBefore(bs, k) + bs[k]
  {
    assert bs[..k + 1][..k] == bs[..k];
  }

  /** Section `k`'s parts, as the script writes them. */
  lemma SectionPartsAsWritten(story: UserStory, k: nat)
    requires k < SectionCount
    ensures k == 0 ==> (SectionBlocks(story)[k]
      == if story.userStory == "" then [] else ["## User Story\n", story.userStory, ""])
    ensures k == 1 ==> (SectionBlocks(story)[k]
      == if story.acceptanceCriteria == [] then [] else ["## Acceptance Criteria\n"] + CheckboxLines(story.acceptanceCriteria) + [""])
    ensures k == 2 ==> (SectionBlocks(story)[k]
      == if story.tasks == [] then [] else ["## Tasks\n"] + CheckboxLines(story.tasks) + [""])
    ensures k == 3 ==> (SectionBlocks(story)[k]
      == if story.implementationDetails == "" then [] else ["## Implementation Details\n", story.implementationDetails, ""])
    ensures k == 4 ==> (SectionBlocks(story)[k]
      == if story.dependencies == [] then [] else ["## Dependencies\n"] + DependencyLines(story.dependencies) + [""])
    ensures k == 5 ==> (SectionBlocks(story)[k]
      == if story.notes == "" then [] else ["## Notes\n", story.notes, ""])
  {
    HeadingParts();
  }

  /** A checklist section, when there are items: heading, one line per item in order, then an empty part. */
  method AppendCheckboxSection(parts: seq<string>, heading: string, items: seq<Checkbox>) returns (r: seq<string>)
    ensures r == parts + (if items == [] then [] else [heading] + CheckboxLines(items) + [""])
  {
    if items == [] {
      return parts;
    }
    r := parts + [heading];
    for i := 0 to |items|
      invariant r == parts + [heading] + CheckboxLines(items[..i])
    {
      assert CheckboxLines(items[..i + 1]) == CheckboxLines(items[..i]) + [CheckboxLine(items[i])];
      var mark := if items[i].checked then "[x]" else "[ ]";
      assert "- " + mark + " " + items[i].text == CheckboxLine(items[i]);
      r := r + ["- " + mark + " " + items[i].text];
    }
    assert items[..|items|] == items;
    r := r + [""];
  }

  /** The Dependencies section, when there are any: heading, `- #n` per dependency in order, then an empty part. */
  method AppendDependencySection(parts: seq<string>, deps: seq<nat>) returns (r: seq<string>)
    ensures r == parts + (if deps == [] then [] else ["## Dependencies\n"] + DependencyLines(deps) + [""])
  {
    if deps == [] {
      return parts;
    }
    r := parts + ["## Dependencies\n"];
    for i := 0 to |deps|
      invariant r == parts + ["## Dependencies\n"] + DependencyLines(deps[..i])
    {
      assert DependencyLines(deps[..i + 1]) == DependencyLines(deps[..i]) + [DependencyLine(deps[i])];
      assert "- #" + NatToString(deps[i]) == DependencyLine(deps[i]);
      r := r + ["- #" + NatToString(deps[i])];
    }
    assert deps[..|deps|] == deps;
    r := r + [""];
  }

  // ----- properties of the body -----

  /** A section's heading appears exactly when its field is non-empty. */
  lemma NoHeadingForEmptyField(story: UserStory)
    ensures SectionBlocks(story)[0] != [] <==> story.userStory != ""
    ensures SectionBlocks(story)[1] != [] <==> story.acceptanceCriteria != []
    ensures SectionBlocks(story)[2] != [] <==> story.tasks != []
    ensures SectionBlocks(story)[3] != [] <==> story.implementationDetails != ""
    ensures SectionBlocks(story)[4] != [] <==> story.dependencies != []
    ensures SectionBlocks(story)[5] != [] <==> story.notes != ""
  {
  }

  /** The headings as build_issue_body writes them. */
  lemma HeadingParts()
    ensures HeadingPart(0) == "## User Story\n" && HeadingPart(1) == "## Acceptance Criteria\n"
    ensures HeadingPart(2) == "## Tasks\n" && HeadingPart(3) == "## Implementation Details\n"
    ensures HeadingPart(4) == "## Dependencies\n" && HeadingPart(5) == "## Notes\n"
  {
  }

  /** Blocks that come earlier end before later ones start. */
  lemma {:induction false} SectionsInOrder(bs: seq<seq<string>>, j: nat, k: nat)
    requires j <= k <= |bs|
    ensures PartsBefore(bs, j) <= PartsBefore(bs, k)
    decreases k - j
  {
    if j < k {
      SectionsInOrder(bs, j, k - 1);
      PartsStep(bs, k - 1);
      PrefixOfAppend(PartsBefore(bs, j), PartsBefore(bs, k - 1), bs[k - 1]);
    }
  }

  /** A prefix of `a` is a prefix of anything `a` is extended to. */
  lemma PrefixOfAppend<T>(p: seq<T>, a: seq<T>, b: seq<T>)
    requires p <= a
    ensures p <= a + b
  {
    assert (a + b)[..|a|] == a;
  }

  /** The parts are those of the blocks before `k`, then those of the blocks from `k` on. */
  lemma {:induction false} PartsSplit(bs: seq<seq<string>>, k: nat)
    requires k <= |bs|
    ensures PartsBefore(bs, |bs|) == PartsBefore(bs, k) + PartsFrom(bs, k)
    decreases |bs| - k
  {
    if k < |bs| {
      PartsSplit(bs, k + 1);
      PartsStep(bs, k);
      ConcatAssoc(PartsBefore(bs, k), bs[k], PartsFrom(bs, k + 1));
    }
  }

  lemma ConcatAssoc<T>(a: seq<T>, b: seq<T>, c: seq<T>)
    ensures (a + b) + c == a + (b + c)
  {
  }

  /** Block `k` sits in the parts right after the blocks before it. */
  lemma SectionLayout(bs: seq<seq<string>>, k: nat)
    requires k < |bs|
    ensures var start := |PartsBefore(bs, k)|;
      start + |bs[k]| <= |PartsBefore(bs, |bs|)|
      && PartsBefore(bs, |bs|)[start..start + |bs[k]|] == bs[k]
  {
    PartsSplit(bs, k);
    BlockAt(PartsBefore(bs, k), bs[k], PartsFrom(bs, k + 1));
  }

  /** The middle of `a + (b + c)` is `b`. */
  lemma BlockAt<T>(a: seq<T>, b: seq<T>, c: seq<T>)
    ensures (a + (b + c))[|a|..|a| + |b|] == b
  {
  }

  /** Blocks that are empty or open with a heading join into parts that are empty or open with one. */
  lemma {:induction false} PartsFromHead(bs: seq<seq<string>>, k: nat)
    requires k <= |bs|
    requires forall i :: 0 <= i < |bs| ==> bs[i] == [] || StartsWith(bs[i][0], "##")
    ensures PartsFrom(bs, k) == [] || StartsWith(PartsFrom(bs, k)[0], "##")
    decreases |bs| - k
  {
    if k < |bs| {
      PartsFromHead(bs, k + 1);
      if bs[k] != [] {
        assert PartsFrom(bs, k)[0] == bs[k][0];
      }
    }
  }

  /** Every section of the body is empty or opens with its heading. */
  lemma SectionsOpenWithHeadings(story: UserStory)
    ensures var bs := SectionBlocks(story);
      forall i :: 0 <= i < |bs| ==> bs[i] == [] || (bs[i][0] == HeadingPart(i) && StartsWith(bs[i][0], "##"))
  {
  }

  /** The body always ends with the story-points line, as a line of its own. */
  lemma LastLineIsPoints(story: UserStory)
    ensures var lines := SplitLines(IssueBody(story));
      lines[|lines| - 1] == PointsLine(story.storyPoints)
  {
    PointsLineShape(story.storyPoints);
    LastLineOfJoin(PartsBefore(SectionBlocks(story), SectionCount), PointsLine(story.storyPoints));
  }

  /** The story-points line: one trimmed line starting with `*`. */
  lemma PointsLineShape(points: nat)
    ensures var line := PointsLine(points);
      line != [] && line[0] == '*' && '\n' !in line && IsTrimmed(line)
  {
    var line := PointsLine(points);
    var digits := NatToString(points);
    assert line[|line| - 1] == digits[|digits| - 1];
    assert forall k :: 0 <= k < |digits| ==> line[18 + k] == digits[k];
  }

  /** The last line of a join whose last part has no newline is that part. */
  lemma LastLineOfJoin(init: seq<string>, last: string)
    requires '\n' !in last
    ensures var lines := SplitLines(JoinLines(init + [last]));
      lines[|lines| - 1] == last
  {
    if init == [] {
      assert init + [last] == [last];
      assert LineEnd(last, 0) == |last|;
    } else {
      JoinLinesAppend(init, [last]);
      SplitLinesEndsWith(JoinLines(init), last);
    }
  }

  /** The last line of `a + "\n" + b`, for a newline-free `b`, is `b`. */
  lemma {:induction false} SplitLinesEndsWith(a: string, b: string)
    requires '\n' !in b
    ensures var lines := SplitLines(a + "\n" + b);
      lines[|lines| - 1] == b
    decreases |a|
  {
    var c := a + "\n" + b;
    var k := LineEnd(a, 0);
    assert c == a + ("\n" + b);
    LineEndOfAppend(a, "\n" + b, 0);
    assert LineEnd(c, 0) == k;
    var tail := c[k + 1..];
    assert SplitLines(c) == [c[..k]] + SplitLines(tail);
    if k == |a| {
      assert tail == b;
      assert LineEnd(b, 0) == |b|;
      assert SplitLines(b) == [b];
    } else {
      assert tail == a[k + 1..] + "\n" + b;
      SplitLinesEndsWith(a[k + 1..], b);
    }
  }

  /** The end of a line in `a + x` is found in `a` when `a` has a newline there, else in `x`. */
  lemma {:induction false} LineEndOfAppend(a: string, x: string, s: nat)
    requires s <= |a|
    ensures LineEnd(a, s) < |a| ==> LineEnd(a + x, s) == LineEnd(a, s)
    ensures LineEnd(a, s) == |a| ==> LineEnd(a + x, s) == |a| + LineEnd(x, 0)
    decreases |a| - s
  {
    if s < |a| && a[s] != '\n' {
      LineEndOfAppend(a, x, s + 1);
    } else if s == |a| {
      LineEndShift(a, x, 0);
    }
  }

  /** Line ends in `a + x` past `a` are line ends in `x`, shifted by `|a|`. */
  lemma {:induction false} LineEndShift(a: string, x: string, j: nat)
    requires j <= |x|
    ensures LineEnd(a + x, |a| + j) == |a| + LineEnd(x, j)
    decreases |x| - j
  {
    if j < |x| && x[j] != '\n' {
      LineEndShift(a, x, j + 1);
    }
  }

  // ---------------------------------------------------------------------------
  // Labels (create_issue and update_issue)

  /** `status.lower() == "done"`. */
  predicate IsDone(status: string) {
    Lower(status) == "done"
  }

  function PriorityLabel(priority: string): string {
    "priority-" + priority
  }

  /** `[label for label in labels if label]`. */
  function NonEmptyLabels(labels: seq<string>): (r: seq<string>)
    ensures forall k :: 0 <= k < |r| ==> r[k] != "" && r[k] in labels
    ensures forall k :: 0 <= k < |labels| && labels[k] != "" ==> labels[k] in r
    decreases |labels|
  {
    if labels == [] then []
    else (if labels[0] == "" then [] else [labels[0]]) + NonEmptyLabels(labels[1..])
  }

  /** The label list create_issue passes, in its order. */
  function CreateLabels(story: UserStory): (labels: seq<string>)
    ensures "" !in labels
    ensures "user-story" in labels && PriorityLabel(story.priority) in labels
    ensures IsDone(story.status) ==> "done" in labels
    ensures story.epicLabel in labels <==> story.epicLabel != ""
  {
    var ls := [story.epicLabel, PriorityLabel(story.priority), "user-story"]
      + (if IsDone(story.status) then ["done"] else []);
    assert ls[1] == PriorityLabel(story.priority) && ls[2] == "user-story";
    assert IsDone(story.status) ==> ls[3] == "done";
    NonEmptyLabels(ls)
  }

  /** The label set update_issue wants on the issue. */
  function DesiredLabels(story: UserStory): (labels: set<string>)
    ensures "" !in labels
    ensures "user-story" in labels && PriorityLabel(story.priority) in labels
    ensures "done" in labels <==> IsDone(story.status) || story.epicLabel == "done"
    ensures story.epicLabel in labels <==> story.epicLabel != ""
    ensures labels <= {story.epicLabel, PriorityLabel(story.priority), "user-story", "done"}
  {
    var wanted := {story.epicLabel, PriorityLabel(story.priority), "user-story"}
      + (if IsDone(story.status) then {"done"} else {});
    set l | l in wanted && l != ""
  }

  /** create_issue and update_issue want the same labels. */
  lemma CreateLabelsAreDesired(story: UserStory)
    ensures (set l | l in CreateLabels(story)) == DesiredLabels(story)
  {
    var labels := CreateLabels(story);
    var ls := [story.epicLabel, PriorityLabel(story.priority), "user-story"]
      + (if IsDone(story.status) then ["done"] else []);
    assert forall l :: l in ls <==> (l in {story.epicLabel, PriorityLabel(story.priority), "user-story"}
      + (if IsDone(story.status) then {"done"} else {}));
    forall l | l in DesiredLabels(story)
      ensures l in labels
    {
      var k :| 0 <= k < |ls| && ls[k] == l;
    }
  }

  /** Every label a parsed story can have comes from the epic table, so none is "done". */
  lemma EpicLabelIsNotDone(epic: string)
    ensures EpicLabelFor(epic) != "done"
  {
    var tag := EpicLabelFor(epic);
    if tag != "" {
      var k :| 0 <= k < |EpicLabels| && tag == EpicLabels[k].1;
    }
  }

  /** The label changes of one update. */
  datatype LabelDiff = LabelDiff(add: set<string>, remove: set<string>)

  /**
   * The add/remove diff of update_issue: add what is wanted and missing;
   * remove "done" when the story is not done and the issue has it; nothing else.
   */
  function LabelChanges(story: UserStory, existing: set<string>): (d: LabelDiff)
    ensures d.add !! existing
    ensures d.add <= DesiredLabels(story) && DesiredLabels(story) <= existing + d.add
    ensures d.remove <= {"done"} && d.remove <= existing
    ensures d.remove != {} <==> !IsDone(story.status) && "done" in existing
  {
    LabelDiff(
      DesiredLabels(story) - existing,
      if !IsDone(story.status) then {"done"} * existing else {})
  }

  /**
   * After an update the issue has every wanted label and "done" exactly when
   * the story is done; it keeps every other label it had and gains no
   * unwanted one. A second update right after changes nothing.
   */
  lemma UpdateConverges(story: UserStory, existing: set<string>)
    requires story.epicLabel != "done"
    ensures var d := LabelChanges(story, existing);
      var after := (existing - d.remove) + d.add;
      DesiredLabels(story) <= after
      && ("done" in after <==> IsDone(story.status))
      && after - DesiredLabels(story) <= existing
      && existing - after <= {"done"}
      && LabelChanges(story, after) == LabelDiff({}, {})
  {
    var d := LabelChanges(story, existing);
    var after := (existing - d.remove) + d.add;
    assert d.add <= DesiredLabels(story);
    var second := LabelChanges(story, after);
    assert second.add == {};
    assert second.remove == {};
  }

  // ---------------------------------------------------------------------------
  // Issue number in the `gh issue create` output: re.search(r"/issues/(\d+)", ...)

  const IssuesMarker := "/issues/"

  /** The pattern tried at the start of `c`. */
  function IssueNumberAt(c: string): (r: Option<nat>)
    ensures r.Some? ==> StartsWith(c, IssuesMarker)
  {
    if StartsWith(c, IssuesMarker) && DigitRunEnd(c, |IssuesMarker|) > |IssuesMarker| then
      Some(DigitsValue(c[|IssuesMarker|..DigitRunEnd(c, |IssuesMarker|)]))
    else None
  }

  /** The number of the first `/issues/<digits>` in the output, if any. */
  function IssueNumber(c: string): (r: Option<nat>)
    ensures !Contains(c, IssuesMarker) ==> r.None?
    decreases |c|
  {
    match IssueNumberAt(c)
    case Some(n) => Some(n)
    case None => if c == [] then None else IssueNumber(c[1..])
  }

  /**
   * The URL `gh` prints is read back: the number after the first
   * `/issues/`, when no earlier `/issues/` occurs and the digits are not
   * followed by another digit.
   */
  lemma {:induction false} IssueNumberOfUrl(prefix: string, n: nat, rest: string)
    requires !Contains(prefix + "/issues", IssuesMarker)
    requires rest == [] || !IsDigit(rest[0])
    ensures IssueNumber(prefix + IssuesMarker + NatToString(n) + rest) == Some(n)
    decreases |prefix|
  {
    var t := IssuesMarker + NatToString(n) + rest;
    assert prefix + IssuesMarker + NatToString(n) + rest == prefix + t;
    IssueNumberSkips(prefix, t);
    IssueNumberAtMarker(n, rest);
  }

  /** Right at the marker, the pattern reads the rendered number. */
  lemma IssueNumberAtMarker(n: nat, rest: string)
    requires rest == [] || !IsDigit(rest[0])
    ensures IssueNumber(IssuesMarker + NatToString(n) + rest) == Some(n)
  {
    var c := IssuesMarker + NatToString(n) + rest;
    var digits := NatToString(n);
    assert c[..|IssuesMarker|] == IssuesMarker;
    DigitRunOfRendered(IssuesMarker, digits, rest);
    assert c[|IssuesMarker|..|IssuesMarker| + |digits|] == digits;
    DigitsValueOfNatToString(n);
    assert IssueNumberAt(c) == Some(n);
  }

  /** A prefix with no marker of its own, even when `/` follows it, is skipped. */
  lemma {:induction false} IssueNumberSkips(prefix: string, t: string)
    requires !Contains(prefix + "/issues", IssuesMarker)
    requires StartsWith(t, IssuesMarker)
    ensures IssueNumber(prefix + t) == IssueNumber(t)
    decreases |prefix|
  {
    if prefix != [] {
      var c := prefix + t;
      assert !StartsWith(prefix + "/issues", IssuesMarker);
      HeadIsNotMarker(prefix, t);
      assert IssueNumberAt(c).None?;
      assert c[1..] == prefix[1..] + t;
      assert !Contains(prefix[1..] + "/issues", IssuesMarker) by {
        assert (prefix + "/issues")[1..] == prefix[1..] + "/issues";
      }
      IssueNumberSkips(prefix[1..], t);
    } else {
      assert prefix + t == t;
    }
  }

  /** `prefix + t` and `prefix + "/issues"` agree on their first eight characters. */
  lemma HeadIsNotMarker(prefix: string, t: string)
    requires prefix != [] && StartsWith(t, IssuesMarker)
    requires !StartsWith(prefix + "/issues", IssuesMarker)
    ensures !StartsWith(prefix + t, IssuesMarker)
  {
    var m := |IssuesMarker|;
    assert forall k :: 0 <= k < m ==> (prefix + "/issues")[k] == (prefix + t)[k];
  }

  /** The digit run after `head` in `head + digits + rest` is exactly `digits`. */
  lemma {:induction false} DigitRunOfRendered(head: string, digits: string, rest: string)
    requires forall k :: 0 <= k < |digits| ==> IsDigit(digits[k])
    requires rest == [] || !IsDigit(rest[0])
    ensures DigitRunEnd(head + digits + rest, |head|) == |head| + |digits|
    decreases |digits|
  {
    var c := head + digits + rest;
    if digits != [] {
      assert c[|head|] == digits[0];
      assert c == (head + [digits[0]]) + digits[1..] + rest;
      DigitRunOfRendered(head + [digits[0]], digits[1..], rest);
    } else {
      assert c == head + rest;
    }
  }

  // ---------------------------------------------------------------------------
  // What create_issue and update_issue send, and what they report

  /** The `gh issue create` / `gh issue edit` request a story leads to. */
  datatype IssueRequest =
    | CreateRequest(title: string, body: string, labels: seq<string>)
    | EditRequest(number: int, body: string, add: set<string>, remove: set<string>)

  /** create_issue's request: sanitised title, the body and the label list. */
  function CreateRequestFor(story: UserStory): (req: IssueRequest)
    ensures req.CreateRequest? && IsSubsequence(req.title, story.title)
    ensures forall k :: 0 <= k < |req.title| ==> IsSafeTitleChar(req.title[k])
  {
    SanitizeOnlyDeletes(story.title);
    CreateRequest(SanitizeText(story.title), IssueBody(story), CreateLabels(story))
  }

  /** update_issue's request: the new body and the label diff against the issue's labels. */
  function EditRequestFor(number: int, story: UserStory, existing: set<string>): (req: IssueRequest)
    ensures req.EditRequest? && req.number == number
    ensures req.add !! existing && req.remove <= {"done"}
  {
    var d := LabelChanges(story, existing);
    EditRequest(number, IssueBody(story), d.add, d.remove)
  }

  /**
   * create_issue's `(success, issue_number)`: a dry run succeeds without a
   * number; otherwise success needs a zero exit code and a number in the output.
   */
  function CreateIssueResult(dryRun: bool, reply: CommandResult): (r: (bool, Option<nat>))
    ensures r.0 <==> dryRun || (reply.code == 0 && IssueNumber(reply.stdout).Some?)
    ensures r.1.Some? <==> r.0 && !dryRun
    ensures r.1.Some? ==> r.1 == IssueNumber(reply.stdout)
  {
    if dryRun then (true, None)
    else if reply.code != 0 then (false, None)
    else
      match IssueNumber(reply.stdout)
      case Some(n) => (true, Some(n))
      case None => (false, None)
  }
}
