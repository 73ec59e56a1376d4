/**
 * get_existing_issues: the repository's user-story issues, indexed by the
 * story id at the start of their titles.
 */
module IssueIndex {
  import opened Wrappers
  import opened Markdown

  /**
   * One decoded issue object: each field the listing asks for, None when the
   * object lacks that key. Labels are kept by name.
   */
  datatype IssueRecord = IssueRecord(
    number: Option<nat>,
    title: Option<string>,
    labels: Option<seq<string>>,
    body: Option<string>)

  /** An element of the decoded listing: an object, or any other JSON value. */
  datatype RawIssue = NotObject | Object(record: IssueRecord)

  /** validate_issue_structure: `number`, `title` and `labels` are all present. */
  predicate ValidateIssueStructure(r: IssueRecord) {
    r.number.Some? && r.title.Some? && r.labels.Some?
  }

  /** The story id an element is filed under: None for a non-object, a malformed object or a title without a `US-<digits>` prefix. */
  function IssueKey(x: RawIssue): (key: Option<string>)
    ensures key.Some? ==> (x.Object? && ValidateIssueStructure(x.record)
      && StoryIdPrefix(x.record.title.value) == key)
  {
    match x
    case NotObject => None
    case Object(r) => if ValidateIssueStructure(r) then StoryIdPrefix(r.title.value) else None
  }

  /** The index of a listing: each keyed element in turn, a later one replacing an earlier one. */
  function IndexOf(issues: seq<RawIssue>): (index: map<string, IssueRecord>)
    ensures forall id :: id in index ==> exists k :: 0 <= k < |issues| && IssueKey(issues[k]) == Some(id)
    ensures forall id :: id in index ==>
      ValidateIssueStructure(index[id]) && StoryIdPrefix(index[id].title.value) == Some(id)
    decreases |issues|
  {
    if issues == [] then map[]
    else
      var before := IndexOf(issues[..|issues| - 1]);
      var last := issues[|issues| - 1];
      assert forall k :: 0 <= k < |issues| - 1 ==> issues[..|issues| - 1][k] == issues[k];
      match IssueKey(last)
      case None => before
      case Some(id) => before[id := last.record]
  }

  /**
   * get_existing_issues, given the listing command's exit code and its
   * output decoded as a JSON list (None when the output is not JSON or not a
   * list): nothing on any failure, otherwise the index of the listing.
   */
  method GetExistingIssues(code: int, decoded: Option<seq<RawIssue>>) returns (index: map<string, IssueRecord>)
    ensures code != 0 || decoded.None? ==> index == map[]
    ensures code == 0 && decoded.Some? ==> index == IndexOf(decoded.value)
  {
    index := map[];
    if code != 0 || decoded.None? {
      return;
    }
    var issues := decoded.value;
    for i := 0 to |issues|
      invariant index == IndexOf(issues[..i])
    {
      assert issues[..i + 1][..i] == issues[..i];
      var issue := issues[i];
      if issue.NotObject? || !ValidateIssueStructure(issue.record) {
        continue;
      }
      var storyId := StoryIdPrefix(issue.record.title.value);
      if storyId.Some? {
        index := index[storyId.value := issue.record];
      }
    }
    assert issues[..|issues|] == issues;
  }

  /** Every keyed element's id is in the index. */
  lemma {:induction false} IndexComplete(issues: seq<RawIssue>, k: nat)
    requires k < |issues| && IssueKey(issues[k]).Some?
    ensures IssueKey(issues[k]).value in IndexOf(issues)
    decreases |issues|
  {
    if k < |issues| - 1 {
      var init := issues[..|issues| - 1];
      assert init[k] == issues[k];
      IndexComplete(init, k);
    }
  }

  /**
   * Last write wins: an id is mapped to the record of the last element filed
   * under it, whatever came before.
   */
  lemma {:induction false} IndexLastWins(issues: seq<RawIssue>, k: nat)
    requires k < |issues| && IssueKey(issues[k]).Some?
    requires forall j :: k < j < |issues| ==> IssueKey(issues[j]) != IssueKey(issues[k])
    ensures IssueKey(issues[k]).value in IndexOf(issues)
    ensures IndexOf(issues)[IssueKey(issues[k]).value] == issues[k].record
    decreases |issues|
  {
    if k < |issues| - 1 {
      var init := issues[..|issues| - 1];
      assert init[k] == issues[k];
      forall j | k < j < |init|
        ensures IssueKey(init[j]) != IssueKey(init[k])
      {
        assert init[j] == issues[j];
      }
      IndexLastWins(init, k);
    }
  }

  /**
   * A malformed element (not an object, or lacking `number`, `title` or
   * `labels`) is skipped: the index is the one of the listing without it.
   */
  lemma {:induction false} MalformedSkipped(before: seq<RawIssue>, x: RawIssue, after: seq<RawIssue>)
    requires x.NotObject? || !ValidateIssueStructure(x.record)
    ensures IndexOf(before + [x] + after) == IndexOf(before + after)
    decreases |after|
  {
    if after == [] {
      assert (before + [x])[..|before|] == before;
      assert before + [x] + after == before + [x];
      assert before + after == before;
    } else {
      var init := after[..|after| - 1];
      var y := after[|after| - 1];
      MalformedSkipped(before, x, init);
      assert before + [x] + after == (before + [x] + init) + [y];
      assert before + after == (before + init) + [y];
      SameIndexThen(before + [x] + init, before + init, y);
    }
  }

  /** Listings with the same index still have the same index after one more element. */
  lemma SameIndexThen(s: seq<RawIssue>, t: seq<RawIssue>, y: RawIssue)
    requires IndexOf(s) == IndexOf(t)
    ensures IndexOf(s + [y]) == IndexOf(t + [y])
  {
    assert (s + [y])[..|s|] == s;
    assert (t + [y])[..|t|] == t;
  }
}
