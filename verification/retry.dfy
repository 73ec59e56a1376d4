/**
 * The retry policy of the GitHub CLI wrapper: classification of error output
 * and the bounded attempt loop with exponential backoff.
 *
 * The subprocess itself is not modelled: the loop is given, as data, what
 * each attempt would observe, and it returns the delays it would have slept
 * instead of sleeping.
 */
module Retry {
  import opened Text

  /** MAX_RETRIES: attempts made by default. */
  const MaxRetries: nat := 3
  /** RETRY_BASE_DELAY: the backoff base, in seconds. */
  const RetryBaseDelay: nat := 2

  /** RATE_LIMIT_PATTERNS, in the order the script scans them. */
  const RateLimitPatterns: seq<string> := ["rate limit", "secondary rate limit", "api rate limit", "429"]

  /** NON_RETRYABLE_ERRORS, in the order the script scans them (all already lower case). */
  const NonRetryablePatterns: seq<string> :=
    ["401", "404", "422", "authentication", "unauthorized", "not found", "invalid", "permission denied"]

  const TimeoutMessage := "Command timed out"
  const MissingMessage := "gh command not found"

  /** Some pattern of `patterns[from..]` occurs in `s`: the early-return scan of one list. */
  function ScanPatterns(patterns: seq<string>, from: nat, s: string): (found: bool)
    requires from <= |patterns|
    ensures found <==> exists k :: from <= k < |patterns| && Contains(s, patterns[k])
    decreases |patterns| - from
  {
    if from == |patterns| then false
    else if Contains(s, patterns[from]) then true
    else ScanPatterns(patterns, from + 1, s)
  }

  predicate MentionsRateLimit(stderr: string) {
    exists k :: 0 <= k < |RateLimitPatterns| && Contains(Lower(stderr), RateLimitPatterns[k])
  }

  predicate MentionsTerminalError(stderr: string) {
    exists k :: 0 <= k < |NonRetryablePatterns| && Contains(Lower(stderr), NonRetryablePatterns[k])
  }

  /**
   * is_retryable_error: on the lower-cased output, a rate-limit pattern makes
   * the error retryable whatever else it says; otherwise a terminal pattern
   * makes it final; anything unrecognised is retried.
   */
  function IsRetryableError(stderr: string): (retry: bool)
    ensures MentionsRateLimit(stderr) ==> retry
    ensures !MentionsRateLimit(stderr) && MentionsTerminalError(stderr) ==> !retry
    ensures !MentionsRateLimit(stderr) && !MentionsTerminalError(stderr) ==> retry
  {
    var lower := Lower(stderr);
    if ScanPatterns(RateLimitPatterns, 0, lower) then true
    else if ScanPatterns(NonRetryablePatterns, 0, lower) then false
    else true
  }

  /** What one run of `gh` observes. */
  datatype Attempt =
    | Exited(code: int, stdout: string, stderr: string)  // the process ran to completion
    | TimedOut                                            // subprocess.TimeoutExpired
    | ExecutableMissing                                   // FileNotFoundError

  /** The `(returncode, stdout, stderr)` triple handed back to callers. */
  datatype CommandResult = CommandResult(code: int, stdout: string, stderr: string)

  /** What the attempt loop does: its result, the delays it sleeps, and how many attempts it starts. */
  datatype Run = Run(result: CommandResult, delays: seq<nat>, attempts: nat)

  function Pow(base: nat, k: nat): nat
    decreases k
  {
    if k == 0 then 1 else base * Pow(base, k - 1)
  }

  /** A failed attempt after which the loop tries again if attempts remain. */
  predicate IsRetryableFailure(a: Attempt) {
    a.TimedOut? || (a.Exited? && a.code != 0 && IsRetryableError(a.stderr))
  }

  /** The attempt loop from attempt `attempt` on, with `lastError` carried from earlier attempts. */
  function RunFrom(outcomes: seq<Attempt>, retries: int, attempt: nat, lastError: string): (run: Run)
    requires retries <= |outcomes|
    decreases retries - attempt, |outcomes|
  {
    if attempt >= retries then Run(CommandResult(1, "", lastError), [], attempt)
    else
      match outcomes[attempt]
      case Exited(code, out, err) =>
        if code == 0 || !IsRetryableError(err) || attempt == retries - 1 then
          Run(CommandResult(code, out, err), [], attempt + 1)
        else
          var rest := RunFrom(outcomes, retries, attempt + 1, err);
          Run(rest.result, [Pow(RetryBaseDelay, attempt)] + rest.delays, rest.attempts)
      case TimedOut =>
        if attempt == retries - 1 then Run(CommandResult(1, "", TimeoutMessage), [], attempt + 1)
        else
          var rest := RunFrom(outcomes, retries, attempt + 1, TimeoutMessage);
          Run(rest.result, [Pow(RetryBaseDelay, attempt)] + rest.delays, rest.attempts)
      case ExecutableMissing =>
        Run(CommandResult(1, "", MissingMessage), [], attempt + 1)
  }

  /** `run`, preceded by the sleeps already taken. */
  function AfterSleeping(slept: seq<nat>, run: Run): Run {
    Run(run.result, slept + run.delays, run.attempts)
  }

  /** The whole loop: what run_gh_command does with `retries` attempts. */
  function RunGh(outcomes: seq<Attempt>, retries: int): Run
    requires retries <= |outcomes|
  {
    RunFrom(outcomes, retries, 0, "")
  }

  /**
   * run_gh_command's attempt loop. `outcomes[k]` is what attempt `k` would
   * observe; `delays` lists the sleeps in order.
   */
  method RunGhCommand(outcomes: seq<Attempt>, retries: int)
    returns (result: CommandResult, delays: seq<nat>, attempts: nat)
    requires retries <= |outcomes|
    ensures Run(result, delays, attempts) == RunGh(outcomes, retries)
  {
    var lastError := "";
    var attempt: nat := 0;
    delays := [];
    while attempt < retries
      invariant attempt <= retries || attempt == 0
      invariant RunGh(outcomes, retries) == AfterSleeping(delays, RunFrom(outcomes, retries, attempt, lastError))
      decreases retries - attempt
    {
      ghost var here := RunFrom(outcomes, retries, attempt, lastError);
      var pause := Pow(RetryBaseDelay, attempt);
      match outcomes[attempt] {
        case Exited(code, out, err) =>
          var retry := IsRetryableError(err);
          if code == 0 || !retry || attempt == retries - 1 {
            assert here == Run(CommandResult(code, out, err), [], attempt + 1);
            NothingMoreSlept(delays, here);
            return CommandResult(code, out, err), delays, attempt + 1;
          }
          assert here == AfterSleeping([pause], RunFrom(outcomes, retries, attempt + 1, err));
          lastError := err;
        case TimedOut =>
          lastError := TimeoutMessage;
          if attempt == retries - 1 {
            assert here == Run(CommandResult(1, "", lastError), [], attempt + 1);
            NothingMoreSlept(delays, here);
            return CommandResult(1, "", lastError), delays, attempt + 1;
          }
          assert here == AfterSleeping([pause], RunFrom(outcomes, retries, attempt + 1, lastError));
        case ExecutableMissing =>
          assert here == Run(CommandResult(1, "", MissingMessage), [], attempt + 1);
          NothingMoreSlept(delays, here);
          return CommandResult(1, "", MissingMessage), delays, attempt + 1;
      }
      SleepsInOrder(delays, pause, RunFrom(outcomes, retries, attempt + 1, lastError));
      delays := delays + [pause];
      attempt := attempt + 1;
    }
    result, attempts := CommandResult(1, "", lastError), attempt;
    NothingMoreSlept(delays, RunFrom(outcomes, retries, attempt, lastError));
  }

  /** A run that sleeps no more leaves the sleeps taken so far as they are. */
  lemma NothingMoreSlept(slept: seq<nat>, run: Run)
    requires run.delays == []
    ensures AfterSleeping(slept, run) == Run(run.result, slept, run.attempts)
  {
    assert slept + [] == slept;
  }

  /** Sleeping `pause` and then running is sleeping once more before the run. */
  lemma SleepsInOrder(slept: seq<nat>, pause: nat, run: Run)
    ensures AfterSleeping(slept, AfterSleeping([pause], run)) == AfterSleeping(slept + [pause], run)
  {
    assert slept + ([pause] + run.delays) == (slept + [pause]) + run.delays;
  }

  // ----- properties of the policy -----

  /** The loop never starts more than `retries` attempts, and starts one whenever `retries` allows. */
  lemma {:induction false} AttemptsBounded(outcomes: seq<Attempt>, retries: int, attempt: nat, lastError: string)
    requires retries <= |outcomes| && attempt <= retries
    ensures var run := RunFrom(outcomes, retries, attempt, lastError);
      attempt <= run.attempts <= retries && (attempt < retries ==> attempt < run.attempts)
    decreases retries - attempt
  {
    if attempt < retries {
      var a := outcomes[attempt];
      if IsRetryableFailure(a) && attempt != retries - 1 {
        AttemptsBounded(outcomes, retries, attempt + 1, if a.TimedOut? then TimeoutMessage else a.stderr);
      }
    }
  }

  /**
   * The delay before attempt k + 1 is 2^k, and there is exactly one sleep
   * between consecutive attempts: none before the first and none after the last.
   */
  lemma {:induction false} DelaysAreExponential(outcomes: seq<Attempt>, retries: int, attempt: nat, lastError: string)
    requires retries <= |outcomes| && attempt < retries
    ensures var run := RunFrom(outcomes, retries, attempt, lastError);
      |run.delays| == run.attempts - 1 - attempt &&
      forall k :: 0 <= k < |run.delays| ==> run.delays[k] == Pow(2, attempt + k)
    decreases retries - attempt
  {
    var a := outcomes[attempt];
    if IsRetryableFailure(a) && attempt != retries - 1 {
      var next := if a.TimedOut? then TimeoutMessage else a.stderr;
      DelaysAreExponential(outcomes, retries, attempt + 1, next);
      AttemptsBounded(outcomes, retries, attempt + 1, next);
    }
  }

  /**
   * Which attempts ran and why the loop stopped: every attempt before the
   * last one was a retryable failure, and the last one either succeeded, was
   * a final failure, hit a missing executable, or used up the attempts.
   */
  lemma {:induction false} StopsAtFirstDecisiveAttempt(outcomes: seq<Attempt>, retries: int, attempt: nat, lastError: string)
    requires retries <= |outcomes| && attempt < retries
    ensures attempt < RunFrom(outcomes, retries, attempt, lastError).attempts <= retries
    ensures var run := RunFrom(outcomes, retries, attempt, lastError);
      var last := outcomes[run.attempts - 1];
      (forall k :: attempt <= k < run.attempts - 1 ==> IsRetryableFailure(outcomes[k])) &&
      (!IsRetryableFailure(last) || run.attempts == retries) &&
      (last.Exited? ==> run.result == CommandResult(last.code, last.stdout, last.stderr)) &&
      (last.TimedOut? ==> run.result == CommandResult(1, "", TimeoutMessage)) &&
      (last.ExecutableMissing? ==> run.result == CommandResult(1, "", MissingMessage))
    decreases retries - attempt
  {
    var a := outcomes[attempt];
    if IsRetryableFailure(a) && attempt != retries - 1 {
      StopsAtFirstDecisiveAttempt(outcomes, retries, attempt + 1, if a.TimedOut? then TimeoutMessage else a.stderr);
    }
  }

  /** A zero exit code is handed back at once, with no further attempt. */
  lemma FirstSuccessReturned(outcomes: seq<Attempt>, retries: int, k: nat)
    requires retries <= |outcomes| && k < retries
    requires outcomes[k].Exited? && outcomes[k].code == 0
    requires forall j :: 0 <= j < k ==> IsRetryableFailure(outcomes[j])
    ensures RunGh(outcomes, retries).result == CommandResult(0, outcomes[k].stdout, outcomes[k].stderr)
    ensures RunGh(outcomes, retries).attempts == k + 1
  {
    StopsAtFirstDecisiveAttempt(outcomes, retries, 0, "");
  }

  /** The triple an attempt hands back when the loop stops at it. */
  function AttemptResult(a: Attempt): CommandResult {
    match a
    case Exited(code, out, err) => CommandResult(code, out, err)
    case TimedOut => CommandResult(1, "", TimeoutMessage)
    case ExecutableMissing => CommandResult(1, "", MissingMessage)
  }

  /**
   * With no attempts allowed the loop falls through to `(1, "", "")`;
   * otherwise it never does: the result is the one of the last attempt
   * started, even when that attempt was a retryable failure.
   */
  lemma FallThroughOnlyWithoutAttempts(outcomes: seq<Attempt>, retries: int)
    requires retries <= |outcomes|
    ensures retries <= 0 ==> RunGh(outcomes, retries) == Run(CommandResult(1, "", ""), [], 0)
    ensures retries > 0 ==> var run := RunGh(outcomes, retries);
      0 < run.attempts <= retries && run.result == AttemptResult(outcomes[run.attempts - 1])
  {
    if retries > 0 {
      StopsAtFirstDecisiveAttempt(outcomes, retries, 0, "");
    }
  }
}
