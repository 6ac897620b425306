/** check.go: the per-repository drift check and safe update. The sequencer
    probes the repository, reports how far the local branch is behind its
    remote counterpart and, when asked to update, aborts a conflicted rebase
    or merge (only when forced), stashes local changes, checks the branch
    out, pulls, and re-applies the stash it made itself.

    `Sequence` is the reference definition: one message, whether the branch
    was behind and every step succeeded, and the mutating commands issued.
    `CheckIfBehind` is the step-by-step method, proved to agree with it. The
    guards at check.go:34 and check.go:93/98 are modelled as written
    (`AsWritten`); `Intended` gives the behaviour their comments describe. */
module Check {
  import opened Wrappers
  import opened Strings
  import opened Constants
  import opened Executor
  import opened Git
  import Config

  /** Which reading of the fetch and abort guards a run follows. */
  datatype Guards = AsWritten | Intended

  /** What one run produces: the message sent on the results channel, the
      returned flag, and the mutating commands issued, in order. */
  datatype Report = Report(message: string, behind: bool, trace: seq<Command>)

  /** A run that ends at a probe: no mutating command, flag false. */
  function Stop(message: string): Report {
    Report(message, false, [])
  }

  function ConflictMessage(repoName: string): string {
    LightRed + repoName + " has merge conflicts in file(s) or there's a rebase in progress" +
    ".\n" + "To update anyway use --update --force. This aborts rebase and merge conflicts" + "." + Reset
  }

  function UpToDate(repoName: string): string {
    LightGreen + repoName + " is up-to-date" + Reset
  }

  function BehindHeader(repoName: string, count: string, commitInfo: string): string {
    LightRed + "\n" + repoName + " is " + count + " " + CommitText(count) + " behind\nLast commit by " +
    commitInfo + Reset
  }

  /** The whole run for `dir` (check.go:10-144). */
  function Sequence(dir: string, cfg: Config.Config, git: Outcomes, guards: Guards): Report {
    match git.gitRoot
    case Failure(e) => Stop(LightRed + "Error getting Git root for " + dir + ": " + e + Reset)
    case Success(raw) =>
      var root := GitRoot(raw);
      Probe(NewGitExecutor(cfg, root, Base(root)), git, guards)
  }

  /** The probes (check.go:27-68): remote, fetch, branches, behind count, last commit. */
  function Probe(g: GitExecutor, git: Outcomes, guards: Guards): Report {
    if git.remoteURL.Failed? then
      Stop(LightRed + "No remote named '" + g.remoteName + "' found for " + g.repoName + Reset)
    else if guards == Intended && git.fetch.Some? then
      Stop(LightRed + "Error fetching " + g.repoName + ". " + git.fetch.value + Reset)
    else if git.localBranch.Failed? then
      Stop("Branch " + g.branch + " does not exist in repository " + g.repoName)
    else if git.remoteBranch.Failed? then
      Stop("Remote branch " + g.branch + " does not exist in repository " + g.repoName)
    else
      match git.revList
      case Failure(e) => Stop(RevListMessage(g.repoName, e))
      case Success(rawCount) =>
        match git.log
        case Failure(e) => Stop(LastCommitMessage(g.repoName, e))
        case Success(rawInfo) =>
          var count := TrimSpace(rawCount);
          if count == "0" then Stop(UpToDate(g.repoName))
          else
            var header := BehindHeader(g.repoName, count, TrimSpace(rawInfo));
            if !g.update then Report(header + Reset, true, [])
            else Update(g, git, guards, header + "\n:.")
  }

  /** The abort command for a conflicted tree: rebase when some path is
      modified on both sides, merge otherwise. */
  function AbortFor(isRebase: bool): Command {
    if isRebase then AbortRebase else AbortMerge
  }

  /** Whether the run goes on after issuing `c`. For an abort this depends on
      the guard: as written, a run goes on only when the abort failed. */
  predicate Continues(git: Outcomes, c: Command, guards: Guards) {
    if c == AbortRebase || c == AbortMerge then
      (if guards == AsWritten then ExitOf(git, c).Failed? else ExitOf(git, c).Ok?)
    else ExitOf(git, c).Ok?
  }

  /** The closing line of a completed update. */
  function Done(repoName: string): string {
    "\n" + LightGreen + " " + repoName + " is up-to-date" + Reset
  }

  /** The line announcing a forced update. */
  function ForcingLine(): string {
    "\n" + LightRed + " Forcing update..." + Reset
  }

  function AbortError(isRebase: bool, repoName: string): string {
    LightRed + (if isRebase then "Error aborting rebase " else "Error aborting merge ") + repoName + Reset
  }

  /** Status, conflict handling and the abort (check.go:70-102). */
  function Update(g: GitExecutor, git: Outcomes, guards: Guards, result: string): Report {
    match git.status
    case Failure(e) => Stop(LightRed + "Error checking status for " + g.repoName + "\n" + e + Reset)
    case Success(raw) =>
      var lines := StatusLines(raw);
      if !AnyConflictLine(lines) then Integrate(g, git, result, raw)
      else if !g.force then Stop(ConflictMessage(g.repoName))
      else
        var isRebase := AnyBothSidesLine(lines);
        var abort := AbortFor(isRebase);
        if !Continues(git, abort, guards) then Report(AbortError(isRebase, g.repoName), false, [abort])
        else
          var r := Integrate(g, git, result + ForcingLine(), raw);
          Report(r.message, r.behind, [abort] + r.trace)
  }

  /** Stash, checkout, pull and the conditional pop (check.go:104-136). */
  function Integrate(g: GitExecutor, git: Outcomes, result: string, rawStatus: string): Report {
    var dirty := rawStatus != "";
    if dirty && git.stash.Failed? then
      Report(LightRed + "Error stashing changes in " + g.repoName + Reset, false, [StashPush(StashMessage)])
    else
      var stashed := if dirty then [StashPush(StashMessage)] else [];
      var result1 := if dirty then result + "\n Stashing local changes" else result;
      if git.checkout.Failed? then
        Report(LightRed + "Error checking out branch " + g.branch + " in repository " + g.repoName + Reset,
               false, stashed + [Checkout(g.branch)])
      else
        var result2 := result1 + "\n Pulling latest changes";
        var pulled := stashed + [Checkout(g.branch)] + [Pull(g.remoteName, g.branch)];
        if git.pull.Failed? then
          Report(LightRed + "Error pulling " + g.remoteName + "/" + g.branch + " in repository " +
                 g.repoName + Reset, false, pulled)
        else if !IsReporterStash(git.stashList, g.branch) then
          Report(result2 + Done(g.repoName) + Reset, true, pulled)
        else if git.pop.Failed? then
          Report(LightRed + "Error applying stash" + Reset, false, pulled + [StashPop])
        else
          Report(result2 + "\n Applying stashed changes" + Done(g.repoName) + Reset, true, pulled + [StashPop])
  }

  /** The second half of the update (check.go:104-134): stash, checkout,
      pull and the conditional pop, after the report `header` so far and for the raw
      status output `statusOutput`. */
  method IntegrateChanges(g: GitExecutor, git: Outcomes, header: string, statusOutput: string)
    returns (message: string, behind: bool, trace: seq<Command>)
    ensures Report(message, behind, trace) == Integrate(g, git, header, statusOutput)
  {
    var result := header;
    trace := [];
    if statusOutput != "" {
      result := result + "\n Stashing local changes";
      trace := trace + [StashPush(StashMessage)];
      if git.stash.Failed? {
        message, behind := LightRed + "Error stashing changes in " + g.repoName + Reset, false;
        return;
      }
    }

    trace := trace + [Checkout(g.branch)];
    if git.checkout.Failed? {
      message, behind := LightRed + "Error checking out branch " + g.branch + " in repository " + g.repoName + Reset, false;
      return;
    }

    result := result + "\n Pulling latest changes";
    trace := trace + [Pull(g.remoteName, g.branch)];
    if git.pull.Failed? {
      message, behind := LightRed + "Error pulling " + g.remoteName + "/" + g.branch + " in repository " + g.repoName + Reset, false;
      return;
    }

    if IsReporterStash(git.stashList, g.branch) {
      result := result + "\n Applying stashed changes";
      trace := trace + [StashPop];
      if git.pop.Failed? {
        message, behind := LightRed + "Error applying stash" + Reset, false;
        return;
      }
    }

    result := result + Done(g.repoName);
    message, behind := result + Reset, true;
  }

  /** The update half of checkIfBehind (check.go:70-134), from the status
      probe on; `header` is the report so far. Returns the message the run
      sends, the flag, and the mutating commands issued. */
  method UpdateRepository(g: GitExecutor, git: Outcomes, header: string)
    returns (message: string, behind: bool, trace: seq<Command>)
    ensures Report(message, behind, trace) == Update(g, git, AsWritten, header)
  {
    var result := header;
    trace := [];
    if git.status.Failure? {
      message, behind := LightRed + "Error checking status for " + g.repoName + "\n" + git.status.error + Reset, false;
      return;
    }
    var statusOutput := git.status.value;
    var statusLines := StatusLines(statusOutput);
    var isConflict, isRebase := HasConflicts(statusLines);

    if !isConflict {
      message, behind, trace := IntegrateChanges(g, git, result, statusOutput);
      return;
    }
    if !g.force {
      message, behind := ConflictMessage(g.repoName), false;
      return;
    }
    result := result + ForcingLine();
    if isRebase {
      trace := [AbortRebase];
      if git.abortRebase.Ok? {
        message, behind := LightRed + "Error aborting rebase " + g.repoName + Reset, false;
        return;
      }
    } else {
      trace := [AbortMerge];
      if git.abortMerge.Ok? {
        message, behind := LightRed + "Error aborting merge " + g.repoName + Reset, false;
        return;
      }
    }

    var m, b, t := IntegrateChanges(g, git, result, statusOutput);
    message, behind, trace := m, b, trace + t;
  }

  /** checkIfBehind as written. `results` is what the channel already holds;
      the method sends exactly one message and returns the flag and the
      mutating commands it issued. The fetch's error is never inspected
      (check.go:34 tests the earlier, nil, error), and a successful abort
      ends the run (check.go:93, 98). */
  method CheckIfBehind(dir: string, cfg: Config.Config, git: Outcomes, results: seq<string>)
    returns (sent: seq<string>, behind: bool, trace: seq<Command>)
    ensures var r := Sequence(dir, cfg, git, AsWritten);
            sent == results + [r.message] && behind == r.behind && trace == r.trace
  {
    trace := [];
    if git.gitRoot.Failure? {
      sent, behind := results + [LightRed + "Error getting Git root for " + dir + ": " + git.gitRoot.error + Reset], false;
      return;
    }
    var gitRoot := GitRoot(git.gitRoot.value);
    var g := NewGitExecutor(cfg, gitRoot, Base(gitRoot));

    if git.remoteURL.Failed? {
      sent, behind := results + [LightRed + "No remote named '" + g.remoteName + "' found for " + g.repoName + Reset], false;
      return;
    }

    // The fetch runs here; its error is discarded.

    if git.localBranch.Failed? {
      sent, behind := results + ["Branch " + g.branch + " does not exist in repository " + g.repoName], false;
      return;
    }
    if git.remoteBranch.Failed? {
      sent, behind := results + ["Remote branch " + g.branch + " does not exist in repository " + g.repoName], false;
      return;
    }
    if git.revList.Failure? {
      sent, behind := results + [RevListMessage(g.repoName, git.revList.error)], false;
      return;
    }
    var behindCount := TrimSpace(git.revList.value);
    if git.log.Failure? {
      sent, behind := results + [LastCommitMessage(g.repoName, git.log.error)], false;
      return;
    }
    var lastCommitInfo := TrimSpace(git.log.value);

    if behindCount == "0" {
      sent, behind := results + [LightGreen + g.repoName + " is up-to-date" + Reset], false;
      return;
    }

    var result := LightRed + "\n" + g.repoName + " is " + behindCount + " " + CommitText(behindCount) +
                  " behind\nLast commit by " + lastCommitInfo + Reset;
    if g.update {
      var message, b, t := UpdateRepository(g, git, result + "\n:.");
      sent, behind, trace := results + [message], b, t;
      return;
    }
    sent, behind := results + [result + Reset], true;
  }

  // ---------------------------------------------------------------------------
  // Properties of the sequencer, stage by stage
  // ---------------------------------------------------------------------------

  /** The commands come in the order abort, stash, checkout, pull, pop, and
      one that does not let the run go on is the last, with the flag false. */
  predicate Disciplined(git: Outcomes, guards: Guards, r: Report) {
    && InOrder(r.trace)
    && forall i :: 0 <= i < |r.trace| && !Continues(git, r.trace[i], guards) ==>
         i == |r.trace| - 1 && !r.behind
  }

  /** Stash hygiene: a stash is pushed only for a non-empty status output and,
      once the checkout is reached, exactly then; the pop is issued only for
      the reporter's own stash entry and, once the pull succeeded, always then. */
  predicate StashHygiene(git: Outcomes, branch: string, remoteName: string, dirty: bool, r: Report) {
    && (StashPush(StashMessage) in r.trace ==> dirty)
    && (Checkout(branch) in r.trace ==> (StashPush(StashMessage) in r.trace <==> dirty))
    && (StashPop in r.trace ==> IsReporterStash(git.stashList, branch))
    && (Pull(remoteName, branch) in r.trace && git.pull.Ok? ==>
          (StashPop in r.trace <==> IsReporterStash(git.stashList, branch)))
  }

  /** The commands Integrate issues: an optional stash, then the checkout, the
      pull and an optional pop, cut short at the first that fails. */
  lemma IntegrateTrace(g: GitExecutor, git: Outcomes, result: string, raw: string)
    ensures var r := Integrate(g, git, result, raw);
            var stashed: seq<Command> := if raw != "" then [StashPush(StashMessage)] else [];
            var pulled := stashed + [Checkout(g.branch)] + [Pull(g.remoteName, g.branch)];
            && (raw != "" && git.stash.Failed? ==> r.trace == [StashPush(StashMessage)] && !r.behind)
            && (!(raw != "" && git.stash.Failed?) ==>
                  if git.checkout.Failed? then r.trace == stashed + [Checkout(g.branch)] && !r.behind
                  else if git.pull.Failed? then r.trace == pulled && !r.behind
                  else if !IsReporterStash(git.stashList, g.branch) then r.trace == pulled && r.behind
                  else r.trace == pulled + [StashPop] && r.behind == git.pop.Ok?)
  {
  }

  /** Commands after the aborts, in the order of the update sequence, each
      letting the run go on, none later than step `top`. */
  predicate Steps(git: Outcomes, guards: Guards, t: seq<Command>, top: nat) {
    && InOrder(t)
    && forall i :: 0 <= i < |t| ==> Continues(git, t[i], guards) && 1 <= Rank(t[i]) <= top
  }

  /** A later command that lets the run go on extends the steps. */
  lemma StepOn(git: Outcomes, guards: Guards, t: seq<Command>, top: nat, c: Command)
    requires Steps(git, guards, t, top) && top < Rank(c) && Continues(git, c, guards)
    ensures Steps(git, guards, t + [c], Rank(c))
  {
    var t' := t + [c];
    forall i, j | 0 <= i < j < |t'| ensures Rank(t'[i]) < Rank(t'[j]) {
      if j == |t| { assert t'[i] == t[i]; } else { assert t'[i] == t[i] && t'[j] == t[j]; }
    }
    forall i | 0 <= i < |t'| ensures Continues(git, t'[i], guards) && 1 <= Rank(t'[i]) <= Rank(c) {
      if i < |t| { assert t'[i] == t[i]; }
    }
  }

  /** A later command ends a disciplined trace: the run goes on after it, or
      the report says the repository was not brought up to date. */
  lemma StepLast(git: Outcomes, guards: Guards, t: seq<Command>, top: nat, c: Command, r: Report)
    requires Steps(git, guards, t, top) && top < Rank(c)
    requires r.trace == t + [c] && (Continues(git, c, guards) || !r.behind)
    ensures Disciplined(git, guards, r) && forall i :: 0 <= i < |r.trace| ==> Rank(r.trace[i]) >= 1
  {
    forall i, j | 0 <= i < j < |r.trace| ensures Rank(r.trace[i]) < Rank(r.trace[j]) {
      if j == |t| { assert r.trace[i] == t[i]; } else { assert r.trace[i] == t[i] && r.trace[j] == t[j]; }
    }
    forall i | 0 <= i < |r.trace| ensures (!Continues(git, r.trace[i], guards) ==> i == |r.trace| - 1 && !r.behind) && Rank(r.trace[i]) >= 1 {
      if i < |t| { assert r.trace[i] == t[i]; }
    }
  }

  /** Integrate issues no abort and keeps the discipline. */
  lemma IntegrateOrdered(g: GitExecutor, git: Outcomes, guards: Guards, result: string, raw: string)
    ensures var r := Integrate(g, git, result, raw);
            && Disciplined(git, guards, r)
            && (forall i :: 0 <= i < |r.trace| ==> Rank(r.trace[i]) >= 1)
  {
    IntegrateTrace(g, git, result, raw);
    var r := Integrate(g, git, result, raw);
    var stash := StashPush(StashMessage);
    if raw != "" && git.stash.Failed? {
      StepLast(git, guards, [], 0, stash, r);
    } else {
      var stashed: seq<Command> := if raw != "" then [stash] else [];
      var top := if raw != "" then 1 else 0;
      if raw != "" {
        StepOn(git, guards, [], 0, stash);
        assert [] + [stash] == stashed;
      }
      var checkedOut := stashed + [Checkout(g.branch)];
      if git.checkout.Failed? {
        StepLast(git, guards, stashed, top, Checkout(g.branch), r);
      } else {
        StepOn(git, guards, stashed, top, Checkout(g.branch));
        if git.pull.Failed? || !IsReporterStash(git.stashList, g.branch) {
          StepLast(git, guards, checkedOut, 2, Pull(g.remoteName, g.branch), r);
        } else {
          StepOn(git, guards, checkedOut, 2, Pull(g.remoteName, g.branch));
          StepLast(git, guards, checkedOut + [Pull(g.remoteName, g.branch)], 3, StashPop, r);
        }
      }
    }
  }

  /** Integrate keeps the stash hygiene, and a run it completes has pulled. */
  lemma IntegrateStash(g: GitExecutor, git: Outcomes, result: string, raw: string)
    ensures var r := Integrate(g, git, result, raw);
            && StashHygiene(git, g.branch, g.remoteName, raw != "", r)
            && (r.behind ==> Pull(g.remoteName, g.branch) in r.trace)
  {
    IntegrateTrace(g, git, result, raw);
  }

  /** An abort that lets the run go on, put in front of a disciplined trace
      that holds no abort, keeps it disciplined. */
  lemma {:induction false} PrependAbort(git: Outcomes, guards: Guards, abort: Command, s: Report)
    requires Rank(abort) == 0 && Continues(git, abort, guards)
    requires Disciplined(git, guards, s) && forall i :: 0 <= i < |s.trace| ==> Rank(s.trace[i]) >= 1
    ensures Disciplined(git, guards, Report(s.message, s.behind, [abort] + s.trace))
  {
    var t := [abort] + s.trace;
    forall i | 1 <= i < |t| ensures t[i] == s.trace[i - 1] { }
    forall i, j | 0 <= i < j < |t| ensures Rank(t[i]) < Rank(t[j]) {
      if i > 0 { assert Rank(s.trace[i - 1]) < Rank(s.trace[j - 1]); }
    }
    forall i | 0 <= i < |t| && !Continues(git, t[i], guards) ensures i == |t| - 1 && !s.behind {
      assert i > 0;
      assert !Continues(git, s.trace[i - 1], guards);
    }
  }

  /** Putting an abort in front of a trace keeps the stash hygiene. */
  lemma PrependAbortStash(git: Outcomes, branch: string, remoteName: string, dirty: bool, abort: Command, s: Report)
    requires abort == AbortRebase || abort == AbortMerge
    requires StashHygiene(git, branch, remoteName, dirty, s)
    ensures StashHygiene(git, branch, remoteName, dirty, Report(s.message, s.behind, [abort] + s.trace))
  {
    assert forall c :: c in [abort] + s.trace <==> c == abort || c in s.trace;
  }

  /** Update keeps the discipline. */
  lemma {:induction false} UpdateOrdered(g: GitExecutor, git: Outcomes, guards: Guards, result: string)
    ensures Disciplined(git, guards, Update(g, git, guards, result))
  {
    if git.status.Success? {
      var raw := git.status.value;
      var lines := StatusLines(raw);
      if !AnyConflictLine(lines) {
        assert Update(g, git, guards, result) == Integrate(g, git, result, raw);
        IntegrateOrdered(g, git, guards, result, raw);
      } else if g.force {
        var abort := AbortFor(AnyBothSidesLine(lines));
        if Continues(git, abort, guards) {
          var r := Integrate(g, git, result + ForcingLine(), raw);
          assert Update(g, git, guards, result) == Report(r.message, r.behind, [abort] + r.trace);
          IntegrateOrdered(g, git, guards, result + ForcingLine(), raw);
          PrependAbort(git, guards, abort, r);
        }
      }
    }
  }

  /** Update keeps the stash hygiene, the dirty test reading the raw status output. */
  lemma {:induction false} UpdateStash(g: GitExecutor, git: Outcomes, guards: Guards, result: string)
    ensures StashHygiene(git, g.branch, g.remoteName, git.status.Success? && git.status.value != "",
                         Update(g, git, guards, result))
  {
    if git.status.Success? {
      var raw := git.status.value;
      var lines := StatusLines(raw);
      if !AnyConflictLine(lines) {
        assert Update(g, git, guards, result) == Integrate(g, git, result, raw);
        IntegrateStash(g, git, result, raw);
      } else if g.force {
        var abort := AbortFor(AnyBothSidesLine(lines));
        if Continues(git, abort, guards) {
          var r := Integrate(g, git, result + ForcingLine(), raw);
          assert Update(g, git, guards, result) == Report(r.message, r.behind, [abort] + r.trace);
          IntegrateStash(g, git, result + ForcingLine(), raw);
          PrependAbortStash(git, g.branch, g.remoteName, raw != "", abort, r);
        }
      }
    }
  }

  /** Forcing through a conflicted tree: an abort that does not let the run
      go on ends it with "Error aborting"; one that does is the first command,
      and the stash (for a non-empty status) or the checkout comes next. */
  lemma ForcedAbort(g: GitExecutor, git: Outcomes, guards: Guards, result: string)
    requires git.status.Success? && AnyConflictLine(StatusLines(git.status.value)) && g.force
    ensures var isRebase := AnyBothSidesLine(StatusLines(git.status.value));
            var abort := AbortFor(isRebase);
            var r := Update(g, git, guards, result);
            && (!Continues(git, abort, guards) ==> r == Report(AbortError(isRebase, g.repoName), false, [abort]))
            && (Continues(git, abort, guards) ==>
                  |r.trace| >= 2 && r.trace[0] == abort &&
                  r.trace[1] == (if git.status.value != "" then StashPush(StashMessage) else Checkout(g.branch)))
  {
    var abort := AbortFor(AnyBothSidesLine(StatusLines(git.status.value)));
    if Continues(git, abort, guards) {
      IntegrateTrace(g, git, result + ForcingLine(), git.status.value);
    }
  }

  /** The probes after the Git root (remote, fetch under the intended guard,
      local and remote branch, behind count, last commit) all passed. */
  predicate RepoProbesPass(git: Outcomes, guards: Guards) {
    && git.remoteURL.Ok?
    && (guards == Intended ==> git.fetch.None?)
    && git.localBranch.Ok? && git.remoteBranch.Ok?
    && git.revList.Success? && git.log.Success?
  }

  /** Every probe that precedes the report passed. */
  predicate ProbesPass(git: Outcomes, guards: Guards) {
    git.gitRoot.Success? && RepoProbesPass(git, guards)
  }

  /** The behind count as the run reads it: the trimmed rev-list output. */
  function Count(git: Outcomes): string {
    if git.revList.Success? then TrimSpace(git.revList.value) else ""
  }

  /** The executor settings of a run whose Git root probe succeeded. */
  function Settings(cfg: Config.Config, git: Outcomes): GitExecutor
    requires git.gitRoot.Success?
  {
    var root := GitRoot(git.gitRoot.value);
    NewGitExecutor(cfg, root, Base(root))
  }

  /** The header an update continues from. */
  function UpdateHeader(g: GitExecutor, git: Outcomes): string
    requires git.log.Success?
  {
    BehindHeader(g.repoName, Count(git), TrimSpace(git.log.value)) + "\n:."
  }

  /** Once the Git root is known, the run is the probes for its settings. */
  lemma SequenceIsProbe(dir: string, cfg: Config.Config, git: Outcomes, guards: Guards)
    requires git.gitRoot.Success?
    ensures Sequence(dir, cfg, git, guards) == Probe(Settings(cfg, git), git, guards)
  {
  }

  /** With every probe passed, a count other than "0" and `update` set, the
      probes hand over to the update stage after the behind header. */
  lemma ProbeReachesUpdate(g: GitExecutor, git: Outcomes, guards: Guards)
    requires RepoProbesPass(git, guards) && Count(git) != "0" && g.update
    ensures Probe(g, git, guards) == Update(g, git, guards, UpdateHeader(g, git))
  {
  }

  /** Otherwise the probes issue no mutating command, and report the branch
      behind exactly when every probe passed and the count is not "0". */
  lemma ProbeStopsBeforeUpdate(g: GitExecutor, git: Outcomes, guards: Guards)
    requires !(RepoProbesPass(git, guards) && Count(git) != "0" && g.update)
    ensures var r := Probe(g, git, guards);
            r.trace == [] && (r.behind <==> RepoProbesPass(git, guards) && Count(git) != "0")
  {
  }

  /** A whole run, split at the update stage. */
  lemma {:induction false} SequenceStages(dir: string, cfg: Config.Config, git: Outcomes, guards: Guards)
    ensures var r := Sequence(dir, cfg, git, guards);
            if ProbesPass(git, guards) && Count(git) != "0" && cfg.update then
              r == Update(Settings(cfg, git), git, guards, UpdateHeader(Settings(cfg, git), git))
            else
              r.trace == [] && (r.behind <==> ProbesPass(git, guards) && Count(git) != "0")
  {
    if git.gitRoot.Success? {
      SequenceIsProbe(dir, cfg, git, guards);
      var g := Settings(cfg, git);
      if RepoProbesPass(git, guards) && Count(git) != "0" && g.update {
        ProbeReachesUpdate(g, git, guards);
      } else {
        ProbeStopsBeforeUpdate(g, git, guards);
      }
    }
  }

  // ---------------------------------------------------------------------------
  // Properties of a whole run
  // ---------------------------------------------------------------------------

  /** The commands of a run come in the order abort, stash, checkout, pull,
      pop; one that does not let the run go on is the last, and the run then
      returns false. */
  lemma {:induction false} TraceDiscipline(dir: string, cfg: Config.Config, git: Outcomes, guards: Guards)
    ensures Disciplined(git, guards, Sequence(dir, cfg, git, guards))
  {
    SequenceStages(dir, cfg, git, guards);
    if ProbesPass(git, guards) && Count(git) != "0" && cfg.update {
      var g := Settings(cfg, git);
      UpdateOrdered(g, git, guards, UpdateHeader(g, git));
    }
  }

  /** A run returns true only when every probe passed, the behind count is
      not "0" and every command it issued let it go on; a count of "0"
      reports the repository up to date and returns false. */
  lemma {:induction false} BehindOnlyWhenAllStepsPass(dir: string, cfg: Config.Config, git: Outcomes, guards: Guards)
    ensures var r := Sequence(dir, cfg, git, guards);
            r.behind ==>
              && ProbesPass(git, guards) && Count(git) != "0"
              && forall i :: 0 <= i < |r.trace| ==> Continues(git, r.trace[i], guards)
    ensures ProbesPass(git, guards) && Count(git) == "0" ==>
              Sequence(dir, cfg, git, guards) == Stop(UpToDate(Settings(cfg, git).repoName))
  {
    TraceDiscipline(dir, cfg, git, guards);
    SequenceStages(dir, cfg, git, guards);
    if ProbesPass(git, guards) {
      SequenceIsProbe(dir, cfg, git, guards);
    }
  }

  /** Without `update`, no mutating command is issued. */
  lemma NoUpdateNoCommands(dir: string, cfg: Config.Config, git: Outcomes, guards: Guards)
    requires !cfg.update
    ensures Sequence(dir, cfg, git, guards).trace == []
  {
    SequenceStages(dir, cfg, git, guards);
  }

  /** A stash is pushed only for a non-empty status output and, once the run
      reaches the checkout, exactly then; the pop is issued only when the top
      stash entry is the reporter's own for the branch and, once the pull
      succeeded, always then. */
  lemma {:induction false} StashDiscipline(dir: string, cfg: Config.Config, git: Outcomes, guards: Guards)
    ensures StashHygiene(git, cfg.branch, cfg.remoteName, git.status.Success? && git.status.value != "",
                         Sequence(dir, cfg, git, guards))
  {
    SequenceStages(dir, cfg, git, guards);
    if ProbesPass(git, guards) && Count(git) != "0" && cfg.update {
      var g := Settings(cfg, git);
      UpdateStash(g, git, guards, UpdateHeader(g, git));
    }
  }

  /** A conflicted tree without `force` ends the run with the advice to
      force, before any mutating command. */
  lemma ConflictWithoutForce(dir: string, cfg: Config.Config, git: Outcomes, guards: Guards)
    requires ProbesPass(git, guards) && Count(git) != "0"
    requires cfg.update && !cfg.force
    requires git.status.Success? && AnyConflictLine(StatusLines(git.status.value))
    ensures Sequence(dir, cfg, git, guards) == Stop(ConflictMessage(Settings(cfg, git).repoName))
  {
    SequenceStages(dir, cfg, git, guards);
  }

  /** When forcing through a conflicted tree, the first command is the abort
      of a rebase exactly when some status line reports a path modified on
      both sides, and of a merge otherwise. */
  lemma AbortMatchesConflict(dir: string, cfg: Config.Config, git: Outcomes, guards: Guards)
    requires ProbesPass(git, guards) && Count(git) != "0"
    requires cfg.update && cfg.force
    requires git.status.Success? && AnyConflictLine(StatusLines(git.status.value))
    ensures var r := Sequence(dir, cfg, git, guards);
            |r.trace| >= 1 && r.trace[0] == AbortFor(AnyBothSidesLine(StatusLines(git.status.value)))
  {
    SequenceStages(dir, cfg, git, guards);
    var g := Settings(cfg, git);
    ForcedAbort(g, git, guards, UpdateHeader(g, git));
  }

  // ---------------------------------------------------------------------------
  // check.go:34 — the fetch guard
  // ---------------------------------------------------------------------------

  /** The update stage never looks at the fetch. */
  lemma UpdateIgnoresFetch(g: GitExecutor, git: Outcomes, guards: Guards, result: string, fetch: Option<string>)
    ensures Update(g, git.(fetch := fetch), guards, result) == Update(g, git, guards, result)
  {
  }

  /** As written, the probes never look at the fetch. */
  lemma {:induction false} ProbeIgnoresFetch(g: GitExecutor, git: Outcomes, fetch: Option<string>)
    ensures Probe(g, git.(fetch := fetch), AsWritten) == Probe(g, git, AsWritten)
  {
    if RepoProbesPass(git, AsWritten) && Count(git) != "0" && g.update {
      ProbeReachesUpdate(g, git, AsWritten);
      ProbeReachesUpdate(g, git.(fetch := fetch), AsWritten);
      UpdateIgnoresFetch(g, git, AsWritten, UpdateHeader(g, git), fetch);
    }
  }

  /** As written, the fetch's outcome changes nothing: the run is the same
      whether the fetch failed or not. */
  lemma {:induction false} FetchOutcomeIgnored(dir: string, cfg: Config.Config, git: Outcomes, fetch: Option<string>)
    ensures Sequence(dir, cfg, git.(fetch := fetch), AsWritten) == Sequence(dir, cfg, git, AsWritten)
  {
    if git.gitRoot.Success? {
      SequenceIsProbe(dir, cfg, git, AsWritten);
      SequenceIsProbe(dir, cfg, git.(fetch := fetch), AsWritten);
      ProbeIgnoresFetch(Settings(cfg, git), git, fetch);
    }
  }

  /** A repository whose fetch failed and whose stale remote-tracking branch
      shows nothing new is reported up to date as written, where the intended
      guard reports the fetch error. */
  lemma FetchFailureUnreported(dir: string, cfg: Config.Config, git: Outcomes)
    requires ProbesPass(git, AsWritten) && Count(git) == "0" && git.fetch.Some?
    ensures Sequence(dir, cfg, git, AsWritten) == Stop(UpToDate(Settings(cfg, git).repoName))
    ensures Sequence(dir, cfg, git, Intended) ==
              Stop(LightRed + "Error fetching " + Settings(cfg, git).repoName + ". " + git.fetch.value + Reset)
  {
    BehindOnlyWhenAllStepsPass(dir, cfg, git, AsWritten);
    CorrectedFetchStops(dir, cfg, git);
  }

  /** With the intended guard, a failed fetch ends the run with the fetch
      error, before any other probe or command. */
  lemma CorrectedFetchStops(dir: string, cfg: Config.Config, git: Outcomes)
    requires git.gitRoot.Success? && git.remoteURL.Ok? && git.fetch.Some?
    ensures Sequence(dir, cfg, git, Intended) ==
              Stop(LightRed + "Error fetching " + Settings(cfg, git).repoName + ". " + git.fetch.value + Reset)
  {
    SequenceIsProbe(dir, cfg, git, Intended);
  }

  // ---------------------------------------------------------------------------
  // check.go:93, 98 — the abort guards
  // ---------------------------------------------------------------------------

  /** As written, forcing through a conflict whose abort succeeds reports
      "Error aborting" and ends the run, while an abort that fails lets the
      run go on to the stash or the checkout. */
  lemma AbortResultInverted(dir: string, cfg: Config.Config, git: Outcomes)
    requires ProbesPass(git, AsWritten) && Count(git) != "0"
    requires cfg.update && cfg.force
    requires git.status.Success? && AnyConflictLine(StatusLines(git.status.value))
    ensures var isRebase := AnyBothSidesLine(StatusLines(git.status.value));
            var abort := AbortFor(isRebase);
            var r := Sequence(dir, cfg, git, AsWritten);
            && (ExitOf(git, abort).Ok? ==> r == Report(AbortError(isRebase, Settings(cfg, git).repoName), false, [abort]))
            && (ExitOf(git, abort).Failed? ==>
                  |r.trace| >= 2 && r.trace[0] == abort &&
                  r.trace[1] == (if git.status.value != "" then StashPush(StashMessage) else Checkout(cfg.branch)))
  {
    SequenceStages(dir, cfg, git, AsWritten);
    var g := Settings(cfg, git);
    ForcedAbort(g, git, AsWritten, UpdateHeader(g, git));
  }

  /** With the intended guard, a failed abort ends the run with "Error
      aborting", and a successful one lets it go on to the stash or the checkout. */
  lemma CorrectedAbort(dir: string, cfg: Config.Config, git: Outcomes)
    requires ProbesPass(git, Intended) && Count(git) != "0"
    requires cfg.update && cfg.force
    requires git.status.Success? && AnyConflictLine(StatusLines(git.status.value))
    ensures var isRebase := AnyBothSidesLine(StatusLines(git.status.value));
            var abort := AbortFor(isRebase);
            var r := Sequence(dir, cfg, git, Intended);
            && (ExitOf(git, abort).Failed? ==> r == Report(AbortError(isRebase, Settings(cfg, git).repoName), false, [abort]))
            && (ExitOf(git, abort).Ok? ==>
                  |r.trace| >= 2 && r.trace[0] == abort &&
                  r.trace[1] == (if git.status.value != "" then StashPush(StashMessage) else Checkout(cfg.branch)))
  {
    SequenceStages(dir, cfg, git, Intended);
    var g := Settings(cfg, git);
    ForcedAbort(g, git, Intended, UpdateHeader(g, git));
  }
}
