/**
 * sync_stories: parse every story file, index the existing issues, then
 * push each story to its issue (update when indexed, create otherwise) and
 * pull each indexed issue's state back into its file.
 */
module Sync {
  import opened Wrappers
  import opened Story
  import opened Retry
  import opened Mapper
  import opened IssueIndex
  import Parser
  import Reconcile

  /** The `--direction` choice. */
  datatype Direction = Both | ToGitHub | FromGitHub

  predicate Outbound(d: Direction) {
    d.Both? || d.ToGitHub?
  }

  predicate Inbound(d: Direction) {
    d.Both? || d.FromGitHub?
  }

  /**
   * One story file as the run meets it: its path and names, its text (None
   * when it cannot be read), what each attempt of the `gh` command sent for
   * its story would observe, and whether writing the file back would succeed.
   */
  datatype StoryInput = StoryInput(file: StoryFile, content: Option<string>, outcomes: seq<Attempt>, writeOk: bool)

  /** A parsed story with the input it came from. */
  datatype Entry = Entry(story: UserStory, input: StoryInput)

  /** Every input carries an outcome for each attempt the retry loop may start. */
  predicate EnoughOutcomes(inputs: seq<StoryInput>) {
    forall k :: 0 <= k < |inputs| ==> MaxRetries <= |inputs[k].outcomes|
  }

  /** The parse loop: the inputs that yield a story, in order. */
  function ParsedEntries(inputs: seq<StoryInput>): (es: seq<Entry>)
    ensures |es| <= |inputs|
    ensures forall k :: 0 <= k < |es| ==> (es[k].input in inputs
      && Parser.StoryOf(es[k].input.file, es[k].input.content) == Some(es[k].story))
    ensures EnoughOutcomes(inputs) ==> EntriesHaveOutcomes(es)
    decreases |inputs|
  {
    if inputs == [] then []
    else
      var init := inputs[..|inputs| - 1];
      var last := inputs[|inputs| - 1];
      assert forall x :: x in init ==> x in inputs;
      ParsedEntries(init)
        + match Parser.StoryOf(last.file, last.content) case None => [] case Some(s) => [Entry(s, last)]
  }

  /** get_existing_issues' result for the listing's exit code and decoded output. */
  function ExistingIssues(code: int, decoded: Option<seq<RawIssue>>): (index: map<string, IssueRecord>)
    ensures forall id :: id in index ==> ValidateIssueStructure(index[id])
  {
    if code != 0 || decoded.None? then map[] else IndexOf(decoded.value)
  }

  /** Every indexed issue has a number, a title and labels. */
  predicate ValidIndex(index: map<string, IssueRecord>) {
    forall id :: id in index ==> ValidateIssueStructure(index[id])
  }

  /** `{label["name"] for label in labels}`. */
  function LabelNames(labels: seq<string>): set<string> {
    set l | l in labels
  }

  /** The result run_gh_command hands back for an entry's command. */
  function Reply(e: Entry): CommandResult
    requires MaxRetries <= |e.input.outcomes|
  {
    RunGh(e.input.outcomes, MaxRetries).result
  }

  /** The request pushing an entry sends: an edit of its indexed issue, or a new issue. */
  function PushRequest(e: Entry, index: map<string, IssueRecord>): (req: IssueRequest)
    requires ValidIndex(index)
    ensures req.EditRequest? <==> e.story.id in index
    ensures req.EditRequest? ==> req.number == index[e.story.id].number.value
  {
    if e.story.id in index then
      var issue := index[e.story.id];
      EditRequestFor(issue.number.value, e.story, LabelNames(issue.labels.value))
    else CreateRequestFor(e.story)
  }

  /** Whether pushing an entry succeeds: update_issue's or create_issue's flag. */
  function PushOk(e: Entry, index: map<string, IssueRecord>, dryRun: bool): bool
    requires MaxRetries <= |e.input.outcomes|
  {
    if e.story.id in index then dryRun || Reply(e).code == 0
    else CreateIssueResult(dryRun, Reply(e)).0
  }

  predicate EntriesHaveOutcomes(es: seq<Entry>) {
    forall k :: 0 <= k < |es| ==> MaxRetries <= |es[k].input.outcomes|
  }

  /** The success flag the outbound loop accumulates: every push succeeded. */
  function AllPushed(es: seq<Entry>, index: map<string, IssueRecord>, dryRun: bool): (ok: bool)
    requires EntriesHaveOutcomes(es)
    ensures ok <==> forall k :: 0 <= k < |es| ==> PushOk(es[k], index, dryRun)
    decreases |es|
  {
    if es == [] then true
    else
      var init := es[..|es| - 1];
      assert forall k :: 0 <= k < |init| ==> init[k] == es[k];
      AllPushed(init, index, dryRun) && PushOk(es[|es| - 1], index, dryRun)
  }

  /** The requests the outbound loop sends outside a dry run, one per story in order. */
  function PushRequests(es: seq<Entry>, index: map<string, IssueRecord>): (reqs: seq<IssueRequest>)
    requires ValidIndex(index)
    ensures |reqs| == |es|
    decreases |es|
  {
    if es == [] then []
    else PushRequests(es[..|es| - 1], index) + [PushRequest(es[|es| - 1], index)]
  }

  /** The k-th request sent is the push of the k-th story. */
  lemma {:induction false} PushRequestsAt(es: seq<Entry>, index: map<string, IssueRecord>, k: nat)
    requires ValidIndex(index) && k < |es|
    ensures PushRequests(es, index)[k] == PushRequest(es[k], index)
    decreases |es|
  {
    var init := es[..|es| - 1];
    assert PushRequests(es, index) == PushRequests(init, index) + [PushRequest(es[|es| - 1], index)];
    if k < |es| - 1 {
      assert init[k] == es[k];
      PushRequestsAt(init, index, k);
    }
  }

  /** The write update_local_doc makes for an entry: the file's path and its new text, if any. */
  function PullWrite(e: Entry, index: map<string, IssueRecord>, dryRun: bool): (w: seq<(string, string)>)
    requires ValidIndex(index)
    ensures |w| <= 1
    ensures w != [] ==> (e.story.id in index && e.input.content.Some? && !dryRun && e.input.writeOk
      && w[0].0 == e.input.file.path && w[0].1 != e.input.content.value)
  {
    if e.story.id !in index || e.input.content.None? || dryRun || !e.input.writeOk then []
    else
      var issue := index[e.story.id];
      var c := e.input.content.value;
      var updated := Reconcile.UpdatedContent(c, LabelNames(issue.labels.value), issue.body.GetOr(""));
      if updated == c then [] else [(e.input.file.path, updated)]
  }

  /** The writes of the inbound loop, in story order. */
  function PullWrites(es: seq<Entry>, index: map<string, IssueRecord>, dryRun: bool): (ws: seq<(string, string)>)
    requires ValidIndex(index)
    ensures |ws| <= |es|
    decreases |es|
  {
    if es == [] then []
    else PullWrites(es[..|es| - 1], index, dryRun) + PullWrite(es[|es| - 1], index, dryRun)
  }

  /** What a whole run reports and does. */
  datatype SyncRun = SyncRun(success: bool, requests: seq<IssueRequest>, writes: seq<(string, string)>)

  /**
   * sync_stories: false when the repository is unknown; true with nothing
   * done when no file yields a story; otherwise the conjunction of the
   * outbound results (the inbound results do not count).
   */
  function SyncOf(repoFound: bool, inputs: seq<StoryInput>, code: int, decoded: Option<seq<RawIssue>>,
                  direction: Direction, dryRun: bool): (run: SyncRun)
    requires EnoughOutcomes(inputs)
    ensures !repoFound ==> run == SyncRun(false, [], [])
    ensures var es := ParsedEntries(inputs);
      run.success <==> (repoFound && (es == [] || !Outbound(direction)
        || AllPushed(es, ExistingIssues(code, decoded), dryRun)))
    ensures dryRun || !Outbound(direction) ==> run.requests == []
    ensures !Inbound(direction) ==> run.writes == []
    ensures repoFound && Outbound(direction) && !dryRun ==> |run.requests| == |ParsedEntries(inputs)|
  {
    var es := ParsedEntries(inputs);
    var index := ExistingIssues(code, decoded);
    if !repoFound then SyncRun(false, [], [])
    else if es == [] then SyncRun(true, [], [])
    else
      SyncRun(
        !Outbound(direction) || AllPushed(es, index, dryRun),
        if Outbound(direction) && !dryRun then PushRequests(es, index) else [],
        if Inbound(direction) then PullWrites(es, index, dryRun) else [])
  }

  /** No write happens in a dry run. */
  lemma {:induction false} NoWritesInDryRun(es: seq<Entry>, index: map<string, IssueRecord>)
    requires ValidIndex(index)
    ensures PullWrites(es, index, true) == []
    decreases |es|
  {
    if es != [] {
      NoWritesInDryRun(es[..|es| - 1], index);
    }
  }

  /** Every push succeeds in a dry run. */
  lemma {:induction false} DryRunPushesSucceed(es: seq<Entry>, index: map<string, IssueRecord>)
    requires EntriesHaveOutcomes(es)
    ensures AllPushed(es, index, true)
    decreases |es|
  {
    if es != [] {
      var init := es[..|es| - 1];
      assert EntriesHaveOutcomes(init) by {
        assert forall k :: 0 <= k < |init| ==> init[k] == es[k];
      }
      DryRunPushesSucceed(init, index);
    }
  }

  /** A dry run sends no request, writes no file and succeeds exactly when the repository is known. */
  lemma DryRunChangesNothing(repoFound: bool, inputs: seq<StoryInput>, code: int, decoded: Option<seq<RawIssue>>,
                             direction: Direction)
    requires EnoughOutcomes(inputs)
    ensures var run := SyncOf(repoFound, inputs, code, decoded, direction, true);
      run.requests == [] && run.writes == [] && run.success == repoFound
  {
    var es := ParsedEntries(inputs);
    var index := ExistingIssues(code, decoded);
    NoWritesInDryRun(es, index);
    DryRunPushesSucceed(es, index);
  }

  /** Each write of the inbound loop comes from one story whose issue is indexed. */
  lemma {:induction false} WriteComesFromIndexedStory(es: seq<Entry>, index: map<string, IssueRecord>, dryRun: bool, j: nat)
    requires ValidIndex(index) && j < |PullWrites(es, index, dryRun)|
    ensures exists k :: (0 <= k < |es| && PullWrite(es[k], index, dryRun) == [PullWrites(es, index, dryRun)[j]]
      && es[k].story.id in index && PullWrites(es, index, dryRun)[j].0 == es[k].input.file.path)
    decreases |es|
  {
    var init := es[..|es| - 1];
    var last := PullWrite(es[|es| - 1], index, dryRun);
    var before := PullWrites(init, index, dryRun);
    assert PullWrites(es, index, dryRun) == before + last;
    if j < |before| {
      WriteComesFromIndexedStory(init, index, dryRun, j);
      var k :| 0 <= k < |init| && PullWrite(init[k], index, dryRun) == [before[j]]
        && init[k].story.id in index && before[j].0 == init[k].input.file.path;
      assert init[k] == es[k];
    } else {
      assert last == [PullWrites(es, index, dryRun)[j]];
    }
  }

  // ---------------------------------------------------------------------------
  // The operations

  /** create_issue: no command in a dry run; otherwise the request, then the result read from its reply. */
  method CreateIssue(story: UserStory, dryRun: bool, outcomes: seq<Attempt>)
    returns (ok: bool, number: Option<nat>, sent: Option<IssueRequest>)
    requires MaxRetries <= |outcomes|
    ensures (ok, number) == CreateIssueResult(dryRun, RunGh(outcomes, MaxRetries).result)
    ensures sent == if dryRun then None else Some(CreateRequestFor(story))
  {
    if dryRun {
      return true, None, None;
    }
    sent := Some(CreateRequestFor(story));
    var result, _, _ := RunGhCommand(outcomes, MaxRetries);
    if result.code != 0 {
      return false, None, sent;
    }
    number := IssueNumber(result.stdout);
    ok := number.Some?;
  }

  /** update_issue: no command in a dry run; otherwise the edit, successful when `gh` exits with 0. */
  method UpdateIssue(number: nat, story: UserStory, existing: set<string>, dryRun: bool, outcomes: seq<Attempt>)
    returns (ok: bool, sent: Option<IssueRequest>)
    requires MaxRetries <= |outcomes|
    ensures ok <==> dryRun || RunGh(outcomes, MaxRetries).result.code == 0
    ensures sent == if dryRun then None else Some(EditRequestFor(number, story, existing))
  {
    if dryRun {
      return true, None;
    }
    sent := Some(EditRequestFor(number, story, existing));
    var result, _, _ := RunGhCommand(outcomes, MaxRetries);
    ok := result.code == 0;
  }

  /** sync_stories over the given inputs, listing and direction. */
  method SyncStories(repoFound: bool, inputs: seq<StoryInput>, code: int, decoded: Option<seq<RawIssue>>,
                     direction: Direction, dryRun: bool)
    returns (success: bool, requests: seq<IssueRequest>, writes: seq<(string, string)>)
    requires EnoughOutcomes(inputs)
    ensures SyncRun(success, requests, writes) == SyncOf(repoFound, inputs, code, decoded, direction, dryRun)
  {
    requests, writes := [], [];
    if !repoFound {
      return false, requests, writes;
    }
    var stories := ParseAll(inputs);
    if stories == [] {
      return true, requests, writes;
    }
    var existing := GetExistingIssues(code, decoded);
    assert existing == ExistingIssues(code, decoded);
    success := true;
    if Outbound(direction) {
      success, requests := PushAll(stories, existing, dryRun);
    }
    if Inbound(direction) {
      writes := PullAll(stories, existing, dryRun);
    }
  }

  /** The parse loop over the files, in order. */
  method ParseAll(inputs: seq<StoryInput>) returns (stories: seq<Entry>)
    ensures stories == ParsedEntries(inputs)
  {
    stories := [];
    for i := 0 to |inputs|
      invariant stories == ParsedEntries(inputs[..i])
    {
      var story := Parser.ParseUserStory(inputs[i].file, inputs[i].content);
      ParsedEntriesStep(inputs, i, story);
      if story.Some? {
        stories := stories + [Entry(story.value, inputs[i])];
      }
    }
    assert inputs[..|inputs|] == inputs;
  }

  /** One more input adds its entry when it yields a story, and nothing otherwise. */
  lemma ParsedEntriesStep(inputs: seq<StoryInput>, i: nat, story: Option<UserStory>)
    requires i < |inputs| && story == Parser.StoryOf(inputs[i].file, inputs[i].content)
    ensures ParsedEntries(inputs[..i + 1])
      == ParsedEntries(inputs[..i]) + (if story.Some? then [Entry(story.value, inputs[i])] else [])
  {
    assert inputs[..i + 1][..i] == inputs[..i];
  }

  /** The outbound loop: update or create each story, clearing `success` on any failure. */
  method PushAll(stories: seq<Entry>, existing: map<string, IssueRecord>, dryRun: bool)
    returns (success: bool, requests: seq<IssueRequest>)
    requires ValidIndex(existing) && EntriesHaveOutcomes(stories)
    ensures success == AllPushed(stories, existing, dryRun)
    ensures requests == if dryRun then [] else PushRequests(stories, existing)
  {
    success, requests := true, [];
    for i := 0 to |stories|
      invariant success == AllPushed(stories[..i], existing, dryRun)
      invariant requests == if dryRun then [] else PushRequests(stories[..i], existing)
    {
      assert stories[..i + 1][..i] == stories[..i];
      var e := stories[i];
      var ok: bool;
      var sent: Option<IssueRequest>;
      if e.story.id in existing {
        var issue := existing[e.story.id];
        ok, sent := UpdateIssue(issue.number.value, e.story, LabelNames(issue.labels.value), dryRun, e.input.outcomes);
      } else {
        var number;
        ok, number, sent := CreateIssue(e.story, dryRun, e.input.outcomes);
      }
      if !ok {
        success := false;
      }
      if sent.Some? {
        requests := requests + [sent.value];
      }
    }
    assert stories[..|stories|] == stories;
  }

  /** The inbound loop: update the file of each story whose issue is indexed. */
  method PullAll(stories: seq<Entry>, existing: map<string, IssueRecord>, dryRun: bool)
    returns (writes: seq<(string, string)>)
    requires ValidIndex(existing)
    ensures writes == PullWrites(stories, existing, dryRun)
  {
    writes := [];
    for i := 0 to |stories|
      invariant writes == PullWrites(stories[..i], existing, dryRun)
    {
      assert stories[..i + 1][..i] == stories[..i];
      var e := stories[i];
      if e.story.id in existing {
        var issue := existing[e.story.id];
        var _, written := Reconcile.UpdateLocalDoc(e.input.content, LabelNames(issue.labels.value),
          issue.body.GetOr(""), dryRun, e.input.writeOk);
        if written.Some? {
          writes := writes + [(e.input.file.path, written.value)];
        }
      }
    }
    assert stories[..|stories|] == stories;
  }
}
