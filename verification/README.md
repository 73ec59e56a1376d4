# sync-stories: a Dafny model

`scripts/sync-stories.py` keeps a folder of user-story markdown files in step
with GitHub issues. Each file `US-<n>-….md` is parsed into a story record. The
script then does two things:

- Outbound: it pushes each story to GitHub. An issue whose title starts with
  the same id is edited; otherwise a new issue is created.
- Inbound: it pulls each indexed issue's `done` label and checklists back into
  the file.

Every call to the GitHub CLI goes through a retry loop with exponential
backoff.

This project models the script's text, list and set logic in Dafny and proves
what each part promises. The modules follow the script's structure:

| module | file | what it models |
|---|---|---|
| `Text` | text.dfy | ASCII `\s`, `\w`, `\d`, `str.lower`, `str.strip`, `split("\n")`, `"\n".join`, decimal digits |
| `Story` | story.dfy | the `UserStory` record and the `EPIC_LABELS` table |
| `Retry` | retry.dfy | `is_retryable_error` and `run_gh_command` over a sequence of attempt outcomes |
| `Sanitize` | sanitize.dfy | `sanitize_text` and `SAFE_TITLE_PATTERN` |
| `Markdown` | markdown.dfy | one hand-written scanner per regular expression `parse_user_story` uses |
| `Parser` | parser.dfy | `parse_checkbox_section`, `parse_user_story` and its dependency loop |
| `Mapper` | mapper.dfy | `build_issue_body`, the label sets and label diff, the issue number in `create_issue`'s reply |
| `RoundTrip` | roundtrip.dfy | writing an Acceptance Criteria checklist into an issue body and parsing it back |
| `Reconcile` | reconcile.dfy | `update_local_doc`: the status rewrite, the checkbox re-marking, the write decision |
| `IssueIndex` | index.dfy | `validate_issue_structure` and `get_existing_issues` |
| `Sync` | sync.dfy | `sync_stories`: parse, index, push, pull, and the success flag |

Each loop in the script is a method. The method is proved equal to a
specification function, and the properties are proved about those functions.
The loops are:

- the attempt loop;
- the checkbox and dependency loops;
- the body builder;
- the indexing loop;
- the three loops of `sync_stories`.

Each regular expression is a scanner: "does the pattern match at the start of
this string", plus a search over later starts (or later line starts, for
`re.MULTILINE` with `^`). A greedy `\s*`/`\s+` followed by a lazy `.+?` is
modelled as the largest start the lazy group can take. `re.sub` is modelled as
a left-to-right rewrite. `re.finditer` is modelled as a scan that resumes after
each match.

Subprocess results are inputs to the model:

- Each `gh` command is given the sequence of outcomes its attempts would
  observe. An outcome is an exit with code, stdout and stderr; a timeout; or a
  missing executable.
- The listing command's final exit code and its decoded JSON are inputs.
- A file's text is an input, `None` when it cannot be read. Whether writing
  the file back would succeed is an input flag.
- A write is returned as the new text rather than performed.
- A command is returned as an `IssueRequest` value.

## Model

| member | source | states |
|---|---|---|
| Text.Lower | scripts/sync-stories.py:127 | lower-casing keeps the length, maps each character by ASCII lower-casing and leaves no upper-case letter |
| Text.Strip | scripts/sync-stories.py:161 | the result is a slice of the input with only whitespace outside it, has no whitespace at either end, and a string already trimmed is returned unchanged |
| Text.SplitJoinLines | scripts/sync-stories.py:160 | splitting on newlines the newline-joined lines gives the lines back when none holds a newline |
| Text.SplitLines | scripts/sync-stories.py:160 | `split("\n")` gives at least one piece and no piece holds a newline |
| Text.DigitsValueOfNatToString | scripts/sync-stories.py:526 | reading back the decimal text of a number gives the number |
| Story.EpicLabelFrom | scripts/sync-stories.py:341-347 | the label is the one of the first table key, in table order, that occurs in the folder name; "" exactly when no key occurs |
| Story.FindEpicLabel | scripts/sync-stories.py:341-347 | the loop with its early `break` returns the first-match label |
| Retry.ScanPatterns | scripts/sync-stories.py:130-137 | a scan of a pattern list is true exactly when some pattern from that position on occurs in the text |
| Retry.IsRetryableError | scripts/sync-stories.py:115-139 | a rate-limit pattern in the lower-cased stderr makes it retryable, even with a terminal pattern also present; otherwise a terminal pattern makes it not retryable; otherwise it is retryable |
| Retry.RunGhCommand | scripts/sync-stories.py:169-225 | the attempt loop returns the result, the slept delays and the number of attempts of the recursive run `RunFrom`, whose properties the next four rows state |
| Retry.AttemptsBounded | scripts/sync-stories.py:188 | the loop makes at most `retries` attempts, and at least one when any is allowed |
| Retry.DelaysAreExponential | scripts/sync-stories.py:206-221 | there is one delay per attempt but the last, and the delay after attempt k is 2^k |
| Retry.StopsAtFirstDecisiveAttempt | scripts/sync-stories.py:188-224 | all attempts before the last were retryable failures, and the last is decisive or the final one allowed. Its result is the exit's triple, `(1, "", "Command timed out")` for a timeout, or `(1, "", "gh command not found")` for a missing executable |
| Retry.FirstSuccessReturned | scripts/sync-stories.py:197-198 | the first zero exit after retryable failures is returned at once with its output |
| Retry.FallThroughOnlyWithoutAttempts | scripts/sync-stories.py:188-225 | the final `return 1, "", last_error` is reached only when no attempt is allowed, and then `last_error` is ""; otherwise the result is the triple of the last attempt started (`AttemptResult`): its exit triple, or the timeout or missing-executable triple |
| Sanitize.SanitizeText | scripts/sync-stories.py:103-112 | only allow-listed characters remain, the result is no longer, and a title already safe is unchanged |
| Sanitize.SanitizeOnlyDeletes | scripts/sync-stories.py:103-112 | the result is a subsequence of the title, and every allow-listed character is kept as often as it occurs |
| Sanitize.SanitizeIdempotent | scripts/sync-stories.py:103-112 | sanitising twice is sanitising once |
| Markdown.Backtrack | scripts/sync-stories.py:274 | the lazy group's start after a greedy whitespace run is the largest acceptable position, and no later position is acceptable |
| Markdown.SectionBodyLength | scripts/sync-stories.py:154 | the lazy section body stops where a `\n##` starts, none starts earlier, and without one it runs to the end of the text |
| Markdown.FindSection | scripts/sync-stories.py:153-157 | there is no section body when the `## <name>` heading does not occur |
| Markdown.SectionReadBack | scripts/sync-stories.py:153-157 | after lines without the heading, `## <name>`, whitespace ending in a blank line and a body give that body up to its first `\n##` |
| Markdown.SectionAtHeading | scripts/sync-stories.py:154 | at the heading, the greedy whitespace runs to the last blank line and the capture starts right after it |
| Markdown.CheckboxOfLine | scripts/sync-stories.py:163-165 | an item is checked exactly when its stripped line starts with `- [x]` or `- [X]` |
| Markdown.CheckboxItems | scripts/sync-stories.py:160-165 | at most one item per line of the section |
| Markdown.CheckboxSection | scripts/sync-stories.py:142-166 | there are no items when the section heading is absent |
| Markdown.FindTitle | scripts/sync-stories.py:274 | a title found is non-empty and on one line |
| Markdown.TitleReadBack | scripts/sync-stories.py:273-275 | the title comes from the first line starting with `#`: after lines that do not start with `#`, `#`, whitespace and a title give that title, without trailing whitespace before a newline |
| Markdown.FindTitlePast | scripts/sync-stories.py:274 | lines that do not start with `#` are skipped by the anchored title search |
| Markdown.StatusAt | scripts/sync-stories.py:279 | a status is read only at the `**Status:**` marker, and it is non-empty and on one line |
| Markdown.ExtractStatus | scripts/sync-stories.py:277-281 | the status is "Draft" without a marker, and it is always stripped |
| Markdown.StatusReadBack | scripts/sync-stories.py:277-281 | after lines without the marker, `**Status:**`, whitespace and a value give the whole value up to the end of its line, stripped, so "In Progress" is read in full |
| Markdown.StatusAtLine | scripts/sync-stories.py:279 | at the marker, the pattern captures the value from its first non-space character to the end of the line |
| Markdown.ExtractPriority | scripts/sync-stories.py:283-287 | the priority is "should" when no priority line matches, and is otherwise non-empty lower-case word characters |
| Markdown.PriorityReadBack | scripts/sync-stories.py:283-287 | after text without an asterisk, `**<word>** - Critical`, `Important` or `Nice` gives the word, lower-cased |
| Markdown.ExtractStoryPoints | scripts/sync-stories.py:289-293 | the story points are 0 without the `**Story Points:**` marker |
| Markdown.PointsReadBack | scripts/sync-stories.py:289-293 | after lines none of which starts with the marker, `**Story Points:**`, whitespace and digits give the value of all the digits |
| Markdown.PointsNeedLineStart | scripts/sync-stories.py:289-291 | the anchored pattern reads nothing, and the points stay 0, when no line starts with the marker, even if the marker occurs inside a line |
| RoundTrip.PointsLineReadBack | scripts/sync-stories.py:289-293 | the `**Story Points:** <n>` line the body builder writes reads back as n |
| Markdown.StoryIdPrefix | scripts/sync-stories.py:266-271 | an id exists exactly when the name starts with `US-` and a digit; the id is then a prefix of the name made of `US-` and digits, and the digit run is maximal, so `US-001-provision-vps` gives `US-001` |
| Markdown.DependencyRefs | scripts/sync-stories.py:318-319 | a section with no `#` has no dependencies |
| Parser.StoryRecord | scripts/sync-stories.py:273-364 | id, path and epic come from the file; the title falls back to the file name; defaults are Draft, should and 0; free-text sections and the status are stripped; a missing heading gives an empty free-text field or an empty list; the epic label is the one the directory maps to |
| Parser.StoryOf | scripts/sync-stories.py:256-271 | there is no story exactly when the file is unreadable or its name has no `US-<digits>` prefix; the id is that prefix |
| Parser.ParseUserStory | scripts/sync-stories.py:256-364 | the parse returns the story the specification function describes |
| Parser.ParseCheckboxSection | scripts/sync-stories.py:142-166 | the checkbox loop returns the section's items |
| Parser.ParseCheckboxLines | scripts/sync-stories.py:158-165 | the line loop strips each line and appends one item per checkbox line, in order, giving the section's items |
| Parser.CheckboxItemsStep | scripts/sync-stories.py:160-165 | the items from line i on are that line's item followed by the items of the lines after it |
| Parser.CollectDependencies | scripts/sync-stories.py:316-319 | the `finditer` loop returns every `#<digits>` reference in order, duplicates kept |
| Parser.ReferenceStep | scripts/sync-stories.py:318-319 | a `#` followed by digits contributes that number, and the scan resumes after the digits |
| Parser.SkipStep | scripts/sync-stories.py:318-319 | any other character contributes nothing |
| Parser.CheckboxItemsAppend | scripts/sync-stories.py:160-165 | the items of two blocks of lines are the items of the first followed by those of the second |
| Parser.CheckboxItemsOfOneLine | scripts/sync-stories.py:161-165 | a single line yields its item exactly when its stripped text starts with `- [` |
| Parser.CheckboxOfRenderedLine | scripts/sync-stories.py:163-164 | a line `- [m] t` with a trimmed non-empty t reads back as text t, checked exactly when m is x or X |
| Mapper.CheckboxLines | scripts/sync-stories.py:444-446 | one `- [x] t` / `- [ ] t` line per item, in list order |
| Mapper.DependencyLines | scripts/sync-stories.py:466-467 | one `- #n` line per dependency, in order |
| Mapper.BuildIssueBody | scripts/sync-stories.py:431-479 | the append-based builder returns `IssueBody`, the section parts joined with newlines, whose layout SectionLayout, SectionsInOrder and LastLineIsPoints state |
| Mapper.AppendTextSection | scripts/sync-stories.py:436-439 | a free-text field adds heading, text and blank part, or nothing when empty |
| Mapper.AppendCheckboxSection | scripts/sync-stories.py:442-455 | a checklist field adds heading, one line per item and a blank part, or nothing when empty |
| Mapper.AppendDependencySection | scripts/sync-stories.py:464-468 | the dependency field adds heading, one `- #n` line each and a blank part, or nothing when empty |
| Mapper.PartsStep | scripts/sync-stories.py:436-474 | the parts written after section k are the parts written before it followed by that section's block |
| Mapper.SectionPartsAsWritten | scripts/sync-stories.py:436-474 | each of the six sections contributes exactly the parts the script appends for it |
| Mapper.NoHeadingForEmptyField | scripts/sync-stories.py:436-474 | a section appears exactly when its field is non-empty |
| Mapper.HeadingParts | scripts/sync-stories.py:437-472 | the six headings in order are User Story, Acceptance Criteria, Tasks, Implementation Details, Dependencies, Notes |
| Mapper.SectionsInOrder | scripts/sync-stories.py:436-474 | the parts written up to an earlier section are a prefix of those written up to a later one, so sections keep the script's order |
| Mapper.SectionLayout | scripts/sync-stories.py:436-474 | each section's block sits in the body's parts, unchanged, right after the blocks of the earlier sections |
| Mapper.LastLineIsPoints | scripts/sync-stories.py:477-479 | the last line of every body is `**Story Points:** <n>` |
| Mapper.NonEmptyLabels | scripts/sync-stories.py:499 | filtering keeps exactly the non-empty labels |
| Mapper.CreateLabels | scripts/sync-stories.py:489-499 | the labels have no "", always include `user-story` and `priority-<p>`, include `done` for a done status, and include the epic label exactly when it is non-empty |
| Mapper.DesiredLabels | scripts/sync-stories.py:545-555 | the set has no "" and always has `user-story` and `priority-<p>`. It has `done` exactly when the status is done (or the epic label is "done"). It has the epic label exactly when that is non-empty, and nothing else |
| Mapper.CreateLabelsAreDesired | scripts/sync-stories.py:545-555 | create and update ask for the same set of labels |
| Mapper.EpicLabelIsNotDone | scripts/sync-stories.py:42-50 | no epic label is "done", so the epic alone never adds `done` |
| Mapper.LabelChanges | scripts/sync-stories.py:557-564 | the labels added are disjoint from the existing ones and complete the desired set. The labels removed are a subset of `{done}` and of the existing ones, and are non-empty exactly when the status is not done and `done` is present |
| Mapper.UpdateConverges | scripts/sync-stories.py:557-564 | after applying the diff, the issue carries every desired label and `done` exactly when the status is done. Only `done` is ever removed, and a second diff is empty |
| Mapper.IssueNumber | scripts/sync-stories.py:524 | there is no number when the reply has no `/issues/` |
| Mapper.IssueNumberOfUrl | scripts/sync-stories.py:524-526 | the number of a reply `…/issues/<n>…` is read back as n |
| Mapper.CreateRequestFor | scripts/sync-stories.py:489-517 | the create request's title is a subsequence of the story title made of allow-listed characters |
| Mapper.EditRequestFor | scripts/sync-stories.py:542-585 | the edit request targets the given number, adds no existing label and removes at most `done` |
| Mapper.CreateIssueResult | scripts/sync-stories.py:506-530 | the result succeeds exactly in a dry run or on a zero exit with a number in the reply, and it carries that number only outside a dry run |
| RoundTrip.AcceptanceCriteriaRoundTrip | scripts/sync-stories.py:142-166 | parsing the Acceptance Criteria section of a built body gives back the story's checklist, for a non-empty list of trimmed single-line texts |
| RoundTrip.ItemsOfRenderedLines | scripts/sync-stories.py:444-446 | the rendered checklist lines read back item by item as the original list |
| RoundTrip.ItemsOfLines | scripts/sync-stories.py:159-165 | lines that each yield one item, in order, are read as exactly that list of items |
| RoundTrip.ChecklistRead | scripts/sync-stories.py:153-165 | from the Acceptance Criteria heading on, the section scan reads exactly the rendered checklist |
| RoundTrip.BodyAroundAcceptance | scripts/sync-stories.py:436-447 | the body is the optional User Story block followed by the checklist block and the rest |
| RoundTrip.UserStoryBlockSkipped | scripts/sync-stories.py:153-157 | a user-story text without the Acceptance Criteria heading does not disturb the search for that heading |
| RoundTrip.SectionAtChecklist | scripts/sync-stories.py:153-157 | the section pattern matches at the checklist heading and captures up to the next `\n##` |
| Mapper.PartsSplit | scripts/sync-stories.py:431-474 | the parts of all sections are the parts before section k followed by those from k on |
| Reconcile.StatusMatchEnd | scripts/sync-stories.py:624 | the status pattern matches exactly where the status field is read, and its match ends at a newline or at the end of the text |
| Reconcile.TitleLineEnd | scripts/sync-stories.py:627-633 | the title pattern's match starts with `#` and ends just past a newline |
| Reconcile.FindTitleLineEnd | scripts/sync-stories.py:627-633 | the first matching title line ends just past a newline |
| Reconcile.InsertStatusAfterTitle | scripts/sync-stories.py:627-633 | without a title line the text is unchanged; otherwise the result is the text up to the end of the first title line, then `\n**Status:** Done\n`, then the rest of the text unchanged |
| Reconcile.ItemAt | scripts/sync-stories.py:56 | a checkbox match starts with `- [`, a mark and `]`, and ends at a newline or at the end of the text |
| Reconcile.MarkedTexts | scripts/sync-stories.py:639-648 | a body without `- [` has no checked or unchecked texts |
| Reconcile.UpdateLocalDoc | scripts/sync-stories.py:597-676 | with `UpdatedContent` the status stage `StatusStage` followed by the checkbox stage `RemarkAll` over the body's `MarkedTexts`: the result is "changed" exactly when the file was read and its new text differs and (dry run or the write succeeds). The file is written exactly when it changed outside a dry run, and with the new text |
| Reconcile.RemarkDocument | scripts/sync-stories.py:651-661 | re-marking a file of well-formed lines gives the file of the re-marked lines, whatever their positions and neighbours |
| Reconcile.RemarkedLineAt | scripts/sync-stories.py:651-661 | line k becomes `- [x] t` when t is checked, even if t is also unchecked; else `- [ ] t` when t is unchecked; else it is unchanged. The number of lines is kept |
| Reconcile.RemarkLinesIdempotent | scripts/sync-stories.py:651-661 | re-marking twice with the same sets is re-marking once |
| Reconcile.RemarkItemLine | scripts/sync-stories.py:651-661 | in `RemarkAll`, an item line is replaced by its re-marked line, as `Remark` (update_checkbox) chooses it, and the scan continues after it |
| Reconcile.RemarkPlainPrefix | scripts/sync-stories.py:661 | `RemarkAll` copies text where no match starts unchanged |
| Reconcile.DoneLabelForcesStatus | scripts/sync-stories.py:618-633 | with the `done` label, a file that does not contain the string `**Status:** Done` anywhere reads back, after the status stage `StatusStage`, with status Done, when its status line has a value or, without a marker, it has a title line |
| Reconcile.DoneSubstringKeepsText | scripts/sync-stories.py:622 | with the `done` label, a text that contains `**Status:** Done` anywhere is left as it is by the status stage |
| Reconcile.DoneishKeptUnderDoneLabel | scripts/sync-stories.py:622 | a status `Doneish` contains that string, so it is kept under a done label and still reads `Doneish` |
| Reconcile.LaterDoneLineKeepsStatus | scripts/sync-stories.py:622-624 | a first status line followed by a later `**Status:** Done` line is kept under a done label, and the status still reads the first value |
| Reconcile.ReplaceStatusPast | scripts/sync-stories.py:624 | the substitution `ReplaceStatus` works in place: text in which no `**Status:**` starts is copied unchanged, and the substitution carries on after it |
| Reconcile.StatusMatchAtLine | scripts/sync-stories.py:624 | at a status line the match ends at the end of the value's line, before its newline |
| Reconcile.ReplaceStatusLine | scripts/sync-stories.py:624 | a status line after lines without the marker is replaced in place: the lines before it are kept, marker, whitespace and value become `**Status:** Done`, and the rest from the value's line end is substituted in turn |
| Reconcile.ReplaceStatusReadsDone | scripts/sync-stories.py:624 | after the substitution the first status read is Done |
| Reconcile.InsertionReadsDone | scripts/sync-stories.py:627-633 | after inserting the status line below the title, the first status read is Done |
| Reconcile.NoMarkerUnchanged | scripts/sync-stories.py:624 | without the marker the substitution changes nothing |
| Reconcile.ReplaceStatusWithoutValue | scripts/sync-stories.py:622-624 | when no status value can be read, the substitution changes nothing either |
| IssueIndex.MalformedSkipped | scripts/sync-stories.py:367-377 | an element that is not an object, or fails `ValidateIssueStructure` for lack of `number`, `title` or `labels`, is skipped: the index is the index of the listing without it |
| IssueIndex.IssueKey | scripts/sync-stories.py:418-425 | an element is filed under an id only when it is an object that passes `ValidateIssueStructure` (number, title and labels present), and its title starts with that id |
| IssueIndex.IndexOf | scripts/sync-stories.py:415-428 | every indexed id comes from some element, and its record is well-formed with a title that starts with that id |
| IssueIndex.GetExistingIssues | scripts/sync-stories.py:380-428 | the index is empty on a failed command or undecodable output, and is otherwise the loop's index of the listing |
| IssueIndex.IndexComplete | scripts/sync-stories.py:415-428 | every element with an id is indexed under it |
| IssueIndex.IndexLastWins | scripts/sync-stories.py:424-426 | an id maps to the last element filed under it |
| Sync.ParsedEntries | scripts/sync-stories.py:704-708 | the parsed stories come from the inputs, in order, each being what its file parses to |
| Sync.ExistingIssues | scripts/sync-stories.py:718 | every indexed record is well-formed |
| Sync.PushRequest | scripts/sync-stories.py:728-739 | a story is edited exactly when its id is indexed, with the indexed number, and created otherwise |
| Sync.AllPushed | scripts/sync-stories.py:723-741 | the success flag is true exactly when every push succeeded |
| Sync.PushRequestsAt | scripts/sync-stories.py:723-741 | the k-th request sent is the push of the k-th story |
| Sync.PullWrite | scripts/sync-stories.py:745-752 | a story is written at most once, only when indexed, readable, outside a dry run and writable, to its own path and with changed text |
| Sync.PullWrites | scripts/sync-stories.py:745-752 | there are no more writes than stories |
| Sync.SyncOf | scripts/sync-stories.py:679-758 | an unknown repository fails with nothing done. Success is otherwise the conjunction of the pushes; a run with no stories, or one without the outbound direction, succeeds. There are no requests in a dry run or without the outbound direction, and no writes without the inbound direction |
| Sync.NoWritesInDryRun | scripts/sync-stories.py:663-666 | a dry run writes no file |
| Sync.DryRunPushesSucceed | scripts/sync-stories.py:506-509 | every push succeeds in a dry run |
| Sync.DryRunChangesNothing | scripts/sync-stories.py:679-758 | a dry run sends nothing, writes nothing and succeeds exactly when the repository is known |
| Sync.WriteComesFromIndexedStory | scripts/sync-stories.py:745-752 | each write is the one write of some story whose id is indexed, to that story's path |
| Sync.CreateIssue | scripts/sync-stories.py:482-530 | no request in a dry run; otherwise the create request, and the result read from the retried reply |
| Sync.UpdateIssue | scripts/sync-stories.py:533-594 | no request in a dry run; otherwise the edit request, succeeding exactly when the retried command exits with 0 |
| Sync.SyncStories | scripts/sync-stories.py:679-758 | the run's success, requests and writes are those of the specification function |
| Sync.ParseAll | scripts/sync-stories.py:704-708 | the parse loop keeps, in order, every input that yields a story |
| Sync.PushAll | scripts/sync-stories.py:723-741 | the outbound loop's flag is the conjunction of the pushes, and it sends the push requests in story order outside a dry run |
| Sync.PullAll | scripts/sync-stories.py:745-752 | the inbound loop writes what `update_local_doc` writes for each indexed story, in order |

## Left out

- Subprocess calls (`gh`, `git`), real timeouts and `time.sleep` are not modelled. Each command is given its attempts' outcomes, and delays are returned as data.
- `get_repo_info` is not modelled; whether it found the repository is the flag `repoFound`.
- File system access is not modelled: `read_text`, `write_text`, `Path.exists`, `glob`, path sorting and `validate_docs_dir`. Each file is an input whose text is `None` when it is missing or unreadable. Inputs are taken as already in sorted order.
- `json.loads` is not modelled. The listing arrives decoded: `None` when it is not valid JSON or not a list, otherwise a sequence of objects and non-objects.
- The listing's command goes through the retry loop like every other command, but the model takes only its final exit code, not its attempts.
- Label records are modelled by their names only.
- An issue body that is JSON `null` is not modelled: the script would stop with an error there. A missing body is read as "".
- Python's Unicode `\s`, `\w`, `\d`, `str.lower` and `str.strip` are restricted to ASCII, with `\s` as the ASCII characters `str.isspace` accepts.
- Logging, `argparse`, `main` and the exit-code mapping are not modelled. Dry-run output is not modelled; dry run is a flag that suppresses commands and writes.
- The commands' argument lists (`--repo`, `--label`, comma-joined labels) are modelled as `IssueRequest` values that carry the title, body and labels.
- RoundTrip.AcceptanceCriteriaRoundTrip: proved only for a non-empty checklist of non-empty, trimmed, single-line texts, and for a user-story text that does not itself contain the Acceptance Criteria heading. Other texts do not survive the script's own strip and section scan.
- Reconcile.RemarkDocument: proved only for files of well-formed lines: checkbox items with a trimmed one-line text, and other lines with no `- [`. Items elsewhere in a line are left to the stage function `RemarkAll`.
- Reconcile.RemarkedLineAt: holds under the same well-formedness as RemarkDocument.
- Reconcile.DoneLabelForcesStatus: requires that the text does not contain `**Status:** Done`, because the script tests for that string anywhere in the text and not for the status it reads. A `**Status:** Doneish` line, or a `**Status:** Draft` line followed by a later `**Status:** Done` line, is left as it is under a done label (DoneishKeptUnderDoneLabel, LaterDoneLineKeepsStatus). It also requires that a status marker, when present, has a readable value. A `**Status:**` followed only by whitespace to the end of the file is neither replaced nor followed by an inserted line (see ReplaceStatusWithoutValue). The status stage is proved apart from the checkbox stage that runs after it.
- Reconcile.MarkedTexts: states only the empty case. The cross-direction property is not proved: that the checklists `build_issue_body` writes are read back as the checked and unchecked sets.
- Sync.SyncOf, Sync.SyncStories, Sync.PushAll: require each story to carry an outcome for each of the three attempts the retry loop may start.
- Markdown.TitleReadBack: requires that no earlier line starts with `#`. An earlier line such as `#tag`, which the pattern also passes over, is not covered.
- Markdown.StatusReadBack, Markdown.SectionReadBack: require the text before the field to be whole lines that do not contain the marker or the heading.
- Markdown.PriorityReadBack: requires the text before the priority to hold no asterisk, and the dash to be written ` - `. Other text in which the pattern does not match, and other whitespace around the dash, are not covered.
- Markdown.PointsReadBack: requires that no earlier line starts with the marker. It is the first such line that counts, and a line `**Story Points:**` without digits is not covered.
- Markdown.DependencyRefs: its own contract states only the empty case. The order and duplicates are stated by Parser.CollectDependencies with Parser.ReferenceStep and Parser.SkipStep.
