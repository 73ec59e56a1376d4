/**
 * parse_user_story and parse_checkbox_section: one markdown file to a story
 * record, each field by its own "find the pattern, else the default" step.
 */
module Parser {
  import opened Wrappers
  import opened Text
  import opened Story
  import opened Markdown

  /** The record parse_user_story returns for a file with text `c` whose name yields `id`. */
  function StoryRecord(file: StoryFile, id: string, c: string): (s: UserStory)
    ensures s.id == id && s.filePath == file.path && s.epic == file.dirName
    ensures FindTitle(c).None? ==> s.title == file.stem
    ensures FindTitle(c).Some? ==> s.title != [] && '\n' !in s.title
    ensures !Contains(c, StatusMarker) ==> s.status == "Draft"
    ensures IsTrimmed(s.status) && IsTrimmed(s.userStory) && IsTrimmed(s.notes) && IsTrimmed(s.implementationDetails)
    ensures FindPriority(c).None? ==> s.priority == "should"
    ensures s.priority != [] && forall k :: 0 <= k < |s.priority| ==> !('A' <= s.priority[k] <= 'Z')
    ensures !Contains(c, PointsMarker) ==> s.storyPoints == 0
    ensures !Contains(c, SectionHeading("Acceptance Criteria")) ==> s.acceptanceCriteria == []
    ensures !Contains(c, SectionHeading("Tasks")) ==> s.tasks == []
    ensures !Contains(c, SectionHeading("Dependencies")) ==> s.dependencies == []
    ensures !Contains(c, SectionHeading("User Story")) ==> s.userStory == ""
    ensures !Contains(c, SectionHeading("Notes")) ==> s.notes == ""
    ensures !Contains(c, SectionHeading("Implementation Details")) ==> s.implementationDetails == ""
    ensures s.epicLabel == EpicLabelFor(file.dirName)
  {
    UserStory(
      id := id,
      title := FindTitle(c).GetOr(file.stem),
      status := ExtractStatus(c),
      priority := ExtractPriority(c),
      storyPoints := ExtractStoryPoints(c),
      epic := file.dirName,
      epicLabel := EpicLabelFor(file.dirName),
      userStory := SectionText(c, "User Story"),
      acceptanceCriteria := CheckboxSection(c, "Acceptance Criteria"),
      tasks := CheckboxSection(c, "Tasks"),
      dependencies := match FindSection(c, "Dependencies") case None => [] case Some(d) => DependencyRefs(d),
      notes := SectionText(c, "Notes"),
      implementationDetails := SectionText(c, "Implementation Details"),
      filePath := file.path)
  }

  /**
   * What parse_user_story returns: nothing when the file cannot be read
   * (`content` is None) or its name does not start with `US-<digits>`;
   * otherwise a record whose id is that prefix.
   */
  function StoryOf(file: StoryFile, content: Option<string>): (r: Option<UserStory>)
    ensures r.None? <==> content.None? || StoryIdPrefix(file.stem).None?
    ensures r.Some? ==> StartsWith(file.stem, r.value.id) && StartsWith(r.value.id, "US-")
  {
    match content
    case None => None
    case Some(c) =>
      match StoryIdPrefix(file.stem)
      case None => None
      case Some(id) => Some(StoryRecord(file, id, c))
  }

  /** parse_checkbox_section: the loop over the section's lines. */
  method ParseCheckboxSection(content: string, name: string) returns (items: seq<Checkbox>)
    ensures items == CheckboxSection(content, name)
  {
    items := [];
    var section := FindSection(content, name);
    if section.Some? {
      items := ParseCheckboxLines(SplitLines(section.value));
    }
  }

  /** The loop over a section's lines, in order: strip each one and keep its item when it starts with `- [`. */
  method ParseCheckboxLines(lines: seq<string>) returns (items: seq<Checkbox>)
    ensures items == CheckboxItems(lines)
  {
    items := [];
    assert lines[0..] == lines;
    for i := 0 to |lines|
      invariant CheckboxItems(lines) == items + CheckboxItems(lines[i..])
    {
      var line := Strip(lines[i]);
      var found := [];
      if IsCheckboxLine(line) {
        found := [CheckboxOfLine(line)];
      }
      CheckboxItemsStep(lines, i);
      AppendAssoc(items, found, CheckboxItems(lines[i + 1..]));
      items := items + found;
    }
    assert lines[|lines|..] == [];
  }

  /** One line of the loop: the items from line `i` on are line `i`'s item, if any, then the rest. */
  lemma CheckboxItemsStep(lines: seq<string>, i: nat)
    requires i < |lines|
    ensures CheckboxItems(lines[i..]) == LineItem(lines[i]) + CheckboxItems(lines[i + 1..])
  {
    assert lines[i..][0] == lines[i];
    assert lines[i..][1..] == lines[i + 1..];
  }

  /** The `re.finditer(r"#(\d+)", ...)` loop that appends each reference. */
  method CollectDependencies(section: string) returns (deps: seq<nat>)
    ensures deps == DependencyRefs(section)
  {
    deps := [];
    var i := 0;
    assert section[i..] == section;
    while i < |section|
      invariant i <= |section|
      invariant deps + DependencyRefs(section[i..]) == DependencyRefs(section)
      decreases |section| - i
    {
      if section[i] == '#' && DigitRunEnd(section, i + 1) > i + 1 {
        var e := DigitRunEnd(section, i + 1);
        var n := DigitsValue(section[i + 1..e]);
        ReferenceStep(section, i);
        AppendAssoc(deps, [n], DependencyRefs(section[e..]));
        deps := deps + [n];
        i := e;
      } else {
        SkipStep(section, i);
        i := i + 1;
      }
    }
    assert section[i..] == [];
  }

  lemma AppendAssoc<T>(a: seq<T>, b: seq<T>, c: seq<T>)
    ensures (a + b) + c == a + (b + c)
  {
  }

  /** A reference `#digits` at `i`: its number, then the references after it. */
  lemma ReferenceStep(c: string, i: nat)
    requires i < |c| && c[i] == '#' && DigitRunEnd(c, i + 1) > i + 1
    ensures var e := DigitRunEnd(c, i + 1);
      DependencyRefs(c[i..]) == [DigitsValue(c[i + 1..e])] + DependencyRefs(c[e..])
  {
    var rest := c[i..];
    var e := DigitRunEnd(c, i + 1);
    RunEndShift(c, i, i + 1);
    assert rest[1..e - i] == c[i + 1..e];
    assert rest[e - i..] == c[e..];
  }

  /** No reference starts at `i`: the references from `i` on are those from `i + 1` on. */
  lemma SkipStep(c: string, i: nat)
    requires i < |c| && !(c[i] == '#' && DigitRunEnd(c, i + 1) > i + 1)
    ensures DependencyRefs(c[i..]) == DependencyRefs(c[i + 1..])
  {
    var rest := c[i..];
    RunEndShift(c, i, i + 1);
    assert rest[1..] == c[i + 1..];
  }

  /** A digit run measured in a suffix ends where it ends in the whole string. */
  lemma {:induction false} RunEndShift(c: string, i: nat, j: nat)
    requires i <= j <= |c|
    ensures DigitRunEnd(c[i..], j - i) == DigitRunEnd(c, j) - i
    decreases |c| - j
  {
    if j < |c| && IsDigit(c[j]) {
      RunEndShift(c, i, j + 1);
    }
  }

  /** parse_user_story, with its loops: the dependency loop and the epic-label lookup. */
  method ParseUserStory(file: StoryFile, content: Option<string>) returns (story: Option<UserStory>)
    ensures story == StoryOf(file, content)
  {
    if content.None? {
      return None;
    }
    var c := content.value;
    var idMatch := StoryIdPrefix(file.stem);
    if idMatch.None? {
      return None;
    }
    var acceptance := ParseCheckboxSection(c, "Acceptance Criteria");
    var tasks := ParseCheckboxSection(c, "Tasks");
    var dependencies: seq<nat> := [];
    match FindSection(c, "Dependencies") {
      case None =>
      case Some(d) =>
        dependencies := CollectDependencies(d);
    }
    var epicLabel := FindEpicLabel(file.dirName);
    story := Some(UserStory(
      id := idMatch.value,
      title := FindTitle(c).GetOr(file.stem),
      status := ExtractStatus(c),
      priority := ExtractPriority(c),
      storyPoints := ExtractStoryPoints(c),
      epic := file.dirName,
      epicLabel := epicLabel,
      userStory := SectionText(c, "User Story"),
      acceptanceCriteria := acceptance,
      tasks := tasks,
      dependencies := dependencies,
      notes := SectionText(c, "Notes"),
      implementationDetails := SectionText(c, "Implementation Details"),
      filePath := file.path));
  }

  // ----- properties of the checkbox parser -----

  /** Items keep the order of their lines: parsing two runs of lines is parsing each in turn. */
  lemma {:induction false} CheckboxItemsAppend(a: seq<string>, b: seq<string>)
    ensures CheckboxItems(a + b) == CheckboxItems(a) + CheckboxItems(b)
    decreases |a|
  {
    if a == [] {
      assert a + b == b;
    } else {
      assert (a + b)[0] == a[0];
      assert (a + b)[1..] == a[1..] + b;
      CheckboxItemsAppend(a[1..], b);
    }
  }

  /** A single line: an item exactly when it starts with `- [` once stripped, and lines that do not are skipped. */
  lemma CheckboxItemsOfOneLine(line: string)
    ensures IsCheckboxLine(Strip(line)) ==> CheckboxItems([line]) == [CheckboxOfLine(Strip(line))]
    ensures !IsCheckboxLine(Strip(line)) ==> CheckboxItems([line]) == []
  {
    assert [line][1..] == [];
    assert CheckboxItems([line]) == LineItem(line) + CheckboxItems([]);
  }

  /** The stripped line `- [m] text`, for a trimmed text: its item has that text, checked iff `m` is `x` or `X`. */
  lemma CheckboxOfRenderedLine(mark: char, text: string)
    requires mark != '\n' && text != [] && IsTrimmed(text)
    ensures var item := CheckboxOfLine("- [" + [mark] + "] " + text);
      item.text == text && (item.checked <==> mark == 'x' || mark == 'X')
  {
    var line := "- [" + [mark] + "] " + text;
    assert line[..3] == "- [" && line[3] == mark && line[4] == ']' && line[5] == ' ';
    assert line[6] == text[0];
    assert SpaceRunEnd(line, 6) == 6;
    assert SpaceRunEnd(line, 5) == 6;
    assert line[6..] == text;
    assert StartsWith(line, "- [x]") <==> mark == 'x';
    assert StartsWith(line, "- [X]") <==> mark == 'X';
  }
}
