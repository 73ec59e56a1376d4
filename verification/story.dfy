/**
 * The story record parsed from one markdown file, and the epic-label table.
 */
module Story {
  import opened Text

  /** One checklist item of the Acceptance Criteria or Tasks section. */
  datatype Checkbox = Checkbox(text: string, checked: bool)

  /** A user story as parse_user_story builds it (the UserStory dataclass). */
  datatype UserStory = UserStory(
    id: string,
    title: string,
    status: string,
    priority: string,
    storyPoints: nat,
    epic: string,
    epicLabel: string,
    userStory: string,
    acceptanceCriteria: seq<Checkbox>,
    tasks: seq<Checkbox>,
    dependencies: seq<nat>,
    notes: string,
    implementationDetails: string,
    filePath: string)

  /** A story file found under the docs directory: its path, its parent folder's name and its stem. */
  datatype StoryFile = StoryFile(path: string, dirName: string, stem: string)

  /** EPIC_LABELS, as (key, label) pairs in the table's order. */
  const EpicLabels: seq<(string, string)> := [
    ("epic-1", "epic-1-infrastructure"),
    ("epic-2", "epic-2-environments"),
    ("epic-3", "epic-3-database"),
    ("epic-4", "epic-4-observability"),
    ("epic-5", "epic-5-runners"),
    ("epic-6", "epic-6-security")
  ]

  /** The label of the first entry of `EpicLabels[from..]` whose key occurs in `epic`, or "". */
  function EpicLabelFrom(epic: string, from: nat): (tag: string)
    requires from <= |EpicLabels|
    ensures tag == "" <==> forall k :: from <= k < |EpicLabels| ==> !Contains(epic, EpicLabels[k].0)
    ensures tag != "" ==>
      exists k :: from <= k < |EpicLabels| && Contains(epic, EpicLabels[k].0) && tag == EpicLabels[k].1
        && (forall j :: from <= j < k ==> !Contains(epic, EpicLabels[j].0))
    decreases |EpicLabels| - from
  {
    if from == |EpicLabels| then ""
    else if Contains(epic, EpicLabels[from].0) then EpicLabels[from].1
    else EpicLabelFrom(epic, from + 1)
  }

  /** The epic label for a folder name: first substring match in table order, else "". */
  function EpicLabelFor(epic: string): string {
    EpicLabelFrom(epic, 0)
  }

  /** The lookup loop of parse_user_story, with its early `break`. */
  method FindEpicLabel(epic: string) returns (tag: string)
    ensures tag == EpicLabelFor(epic)
  {
    tag := "";
    var k := 0;
    while k < |EpicLabels|
      invariant 0 <= k <= |EpicLabels|
      invariant tag == "" && EpicLabelFor(epic) == EpicLabelFrom(epic, k)
    {
      if Contains(epic, EpicLabels[k].0) {
        tag := EpicLabels[k].1;
        break;
      }
      k := k + 1;
    }
  }
}
