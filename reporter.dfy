/** reporter.go: the older, single-file form of the tool. It carries the only
    entry point shown: the merge of defaults, the ".rprc" file and the flags
    into one configuration; the dispatch over the current directory or its
    sub-directories; and the partition of the messages into outdated,
    up-to-date and verbatim. Its own sequencer differs from check.go's: it
    stops on a failed fetch, stops when an abort fails, classifies a conflict
    by the first unmerged line only, integrates with `reset --hard`, and
    re-applies any stash as soon as the stash list is non-empty. */
module Reporter {
  import opened Wrappers
  import opened Strings
  import opened Constants
  import opened Executor
  import opened Git
  import Config
  import opened Check

  // ---------------------------------------------------------------------------
  // Configuration (reporter.go:576-639)
  // ---------------------------------------------------------------------------

  /** The values of the command-line flags that shape the configuration. */
  datatype Flags = Flags(
    update: bool, updateShort: bool,
    branch: string, branchShort: string,
    force: bool, forceShort: bool,
    remote: string, remoteShort: string)

  /** What the search for and decoding of ".rprc" produced. */
  datatype ConfigFile = NoConfigFile | Loaded(loaded: Config.Config) | LoadError(msg: string)

  /** The flags as they are when none is given. */
  const NoFlags := Flags(false, false, "main", "main", false, false, "origin", "origin")

  /** The settings of a run before the flags: the defaults, overlaid with the
      file's. A load error ends the run. The file replaces the branch and the
      remote only with a non-empty value, and the other fields always. */
  method ApplyFile(file: ConfigFile) returns (r: Result<Config.Config, string>)
    ensures r.Failure? <==> file.LoadError?
    ensures file.LoadError? ==> r.error == LightRed + "Error loading config: " + file.msg + Reset
    ensures r.Success? ==>
              && r.value.branch == (if file.Loaded? && file.loaded.branch != "" then file.loaded.branch else "main")
              && r.value.remoteName == (if file.Loaded? && file.loaded.remoteName != "" then file.loaded.remoteName
                                        else "origin")
              && r.value.update == (file.Loaded? && file.loaded.update)
              && r.value.force == (file.Loaded? && file.loaded.force)
              && r.value.includes == (if file.Loaded? then file.loaded.includes else [])
              && r.value.excludes == (if file.Loaded? then file.loaded.excludes else [])
  {
    var config := Config.Config("main", false, [], [], false, "origin");
    match file {
      case LoadError(msg) =>
        return Failure(LightRed + "Error loading config: " + msg + Reset);
      case Loaded(loaded) =>
        if loaded.branch != "" {
          config := config.(branch := loaded.branch);
        }
        config := config.(update := loaded.update);
        config := config.(includes := loaded.includes);
        config := config.(excludes := loaded.excludes);
        if loaded.remoteName != "" {
          config := config.(remoteName := loaded.remoteName);
        }
        config := config.(force := loaded.force);
      case NoConfigFile =>
    }
    return Success(config);
  }

  /** The flags over the settings: a string flag overrides only when it
      differs from its default, the short flag after the long one; a boolean
      flag can only set its field; the filter lists are left alone. */
  method ApplyFlags(settings: Config.Config, flags: Flags) returns (config: Config.Config)
    ensures config.branch == (if flags.branchShort != "main" then flags.branchShort
                              else if flags.branch != "main" then flags.branch
                              else settings.branch)
    ensures config.remoteName == (if flags.remoteShort != "origin" then flags.remoteShort
                                  else if flags.remote != "origin" then flags.remote
                                  else settings.remoteName)
    ensures config.update <==> flags.update || flags.updateShort || settings.update
    ensures config.force <==> flags.force || flags.forceShort || settings.force
    ensures config.includes == settings.includes && config.excludes == settings.excludes
  {
    config := settings;
    if flags.branch != "main" {
      config := config.(branch := flags.branch);
    }
    if flags.branchShort != "main" {
      config := config.(branch := flags.branchShort);
    }
    if flags.update {
      config := config.(update := flags.update);
    }
    if flags.updateShort {
      config := config.(update := flags.updateShort);
    }
    if flags.force {
      config := config.(force := flags.force);
    }
    if flags.forceShort {
      config := config.(force := flags.forceShort);
    }
    if flags.remote != "origin" {
      config := config.(remoteName := flags.remote);
    }
    if flags.remoteShort != "origin" {
      config := config.(remoteName := flags.remoteShort);
    }
  }

  /** The configuration of a run (reporter.go:576-639): the defaults, then
      the file, then the flags. */
  method MergeConfig(file: ConfigFile, flags: Flags) returns (r: Result<Config.Config, string>)
    ensures r.Failure? <==> file.LoadError?
    ensures file.LoadError? ==> r.error == LightRed + "Error loading config: " + file.msg + Reset
    ensures r.Success? ==>
              && r.value.branch == (if flags.branchShort != "main" then flags.branchShort
                                    else if flags.branch != "main" then flags.branch
                                    else if file.Loaded? && file.loaded.branch != "" then file.loaded.branch
                                    else "main")
              && r.value.remoteName == (if flags.remoteShort != "origin" then flags.remoteShort
                                        else if flags.remote != "origin" then flags.remote
                                        else if file.Loaded? && file.loaded.remoteName != "" then file.loaded.remoteName
                                        else "origin")
              && (r.value.update <==> flags.update || flags.updateShort || (file.Loaded? && file.loaded.update))
              && (r.value.force <==> flags.force || flags.forceShort || (file.Loaded? && file.loaded.force))
              && r.value.includes == (if file.Loaded? then file.loaded.includes else [])
              && r.value.excludes == (if file.Loaded? then file.loaded.excludes else [])
  {
    r := ApplyFile(file);
    if r.Success? {
      var config := ApplyFlags(r.value, flags);
      r := Success(config);
    }
  }

  /** Without a file and without flags, the run checks "main" against "origin",
      with no update, no force and no filter. */
  method DefaultsWithoutFileOrFlags() returns (r: Result<Config.Config, string>)
    ensures r == Success(Config.Config("main", false, [], [], false, "origin"))
  {
    r := MergeConfig(NoConfigFile, NoFlags);
  }

  // ---------------------------------------------------------------------------
  // The partition of the messages (reporter.go:700-712)
  // ---------------------------------------------------------------------------

  /** Where a message is reported. */
  datatype Bucket = OutdatedRepos | UpToDateRepos | Printed

  /** Red anywhere makes a message outdated; otherwise green makes it up to
      date; anything else is printed as it comes. */
  function BucketOf(result: string): Bucket {
    if Contains(result, LightRed) then OutdatedRepos
    else if Contains(result, LightGreen) then UpToDateRepos
    else Printed
  }

  /** The messages of `results` that belong to bucket `b`, in their order. */
  function Select(results: seq<string>, b: Bucket): (s: seq<string>)
    ensures |s| <= |results|
  {
    if results == [] then []
    else
      var last := results[|results| - 1];
      Select(results[..|results| - 1], b) + (if BucketOf(last) == b then [last] else [])
  }

  /** The partition loop: each message goes to the bucket it belongs to, at
      the end, so each bucket keeps the messages' order. */
  method Partition(results: seq<string>) returns (outdated: seq<string>, upToDate: seq<string>, printed: seq<string>)
    ensures outdated == Select(results, OutdatedRepos)
    ensures upToDate == Select(results, UpToDateRepos)
    ensures printed == Select(results, Printed)
  {
    outdated, upToDate, printed := [], [], [];
    for i := 0 to |results|
      invariant outdated == Select(results[..i], OutdatedRepos)
      invariant upToDate == Select(results[..i], UpToDateRepos)
      invariant printed == Select(results[..i], Printed)
    {
      var result := results[i];
      assert results[..i + 1][..i] == results[..i];
      if Contains(result, LightRed) {
        outdated := outdated + [result];
      } else if Contains(result, LightGreen) {
        upToDate := upToDate + [result];
      } else {
        printed := printed + [result];
      }
    }
    assert results[..|results|] == results;
  }

  /** Selecting from two runs of messages is selecting from each, in turn:
      a message that arrived earlier is listed earlier in its bucket. */
  lemma {:induction false} SelectAppend(a: seq<string>, b: seq<string>, k: Bucket)
    ensures Select(a + b, k) == Select(a, k) + Select(b, k)
    decreases |b|
  {
    if b == [] {
      assert a + b == a;
    } else {
      var last := b[|b| - 1];
      assert (a + b)[..|a + b| - 1] == a + b[..|b| - 1];
      SelectAppend(a, b[..|b| - 1], k);
    }
  }

  /** A message is in bucket `k` exactly when it is one of the messages and belongs there. */
  lemma {:induction false} SelectMembers(results: seq<string>, k: Bucket, x: string)
    ensures x in Select(results, k) <==> x in results && BucketOf(x) == k
    decreases |results|
  {
    if results != [] {
      var init := results[..|results| - 1];
      SelectMembers(init, k, x);
      assert results == init + [results[|results| - 1]];
    }
  }

  /** The bucket contents after one more message. */
  lemma SelectLast(results: seq<string>, k: Bucket)
    requires results != []
    ensures Select(results, k) ==
              Select(results[..|results| - 1], k) +
              (if BucketOf(results[|results| - 1]) == k then [results[|results| - 1]] else [])
  {
  }

  /** Adding the last message to the bucket it belongs to keeps the three
      buckets a permutation of the messages. */
  lemma AddToOneBucket(results: seq<string>, o: seq<string>, u: seq<string>, p: seq<string>,
                       o': seq<string>, u': seq<string>, p': seq<string>, b: Bucket)
    requires results != []
    requires multiset(o) + multiset(u) + multiset(p) == multiset(results[..|results| - 1])
    requires o' == o + (if b == OutdatedRepos then [results[|results| - 1]] else [])
    requires u' == u + (if b == UpToDateRepos then [results[|results| - 1]] else [])
    requires p' == p + (if b == Printed then [results[|results| - 1]] else [])
    ensures multiset(o') + multiset(u') + multiset(p') == multiset(results)
  {
    var init, last := results[..|results| - 1], results[|results| - 1];
    assert results == init + [last];
    assert multiset(results) == multiset(init) + multiset{last};
    match b
    case OutdatedRepos =>
      assert multiset(o') == multiset(o) + multiset{last};
      assert u' == u && p' == p;
    case UpToDateRepos =>
      assert multiset(u') == multiset(u) + multiset{last};
      assert o' == o && p' == p;
    case Printed =>
      assert multiset(p') == multiset(p) + multiset{last};
      assert o' == o && u' == u;
  }

  /** Every message goes to exactly one bucket: the three together are a
      permutation of the messages. */
  lemma {:induction false} PartitionIsPermutation(results: seq<string>)
    ensures multiset(Select(results, OutdatedRepos)) + multiset(Select(results, UpToDateRepos)) +
            multiset(Select(results, Printed)) == multiset(results)
    decreases |results|
  {
    if results != [] {
      var init := results[..|results| - 1];
      PartitionIsPermutation(init);
      SelectLast(results, OutdatedRepos);
      SelectLast(results, UpToDateRepos);
      SelectLast(results, Printed);
      AddToOneBucket(results, Select(init, OutdatedRepos), Select(init, UpToDateRepos), Select(init, Printed),
                     Select(results, OutdatedRepos), Select(results, UpToDateRepos), Select(results, Printed),
                     BucketOf(results[|results| - 1]));
    }
  }

  // ---------------------------------------------------------------------------
  // The inline conflict scan (reporter.go:294-305)
  // ---------------------------------------------------------------------------

  /** The index of the first unmerged status line, or the number of lines when there is none. */
  function FirstConflictAt(lines: seq<string>): (i: nat)
    ensures i <= |lines|
    ensures forall j :: 0 <= j < i ==> !IsConflictLine(lines[j])
    ensures i < |lines| ==> IsConflictLine(lines[i])
  {
    if lines == [] then 0
    else if IsConflictLine(lines[0]) then 0
    else 1 + FirstConflictAt(lines[1..])
  }

  /** The scan stops at the first unmerged line: a conflict is detected when
      there is one, and taken for a rebase only when that first line
      is modified on both sides. */
  method FirstConflict(statusLines: seq<string>) returns (conflictDetected: bool, isRebase: bool)
    ensures conflictDetected <==> FirstConflictAt(statusLines) < |statusLines|
    ensures isRebase <==> conflictDetected &&
                          HasPrefix(statusLines[FirstConflictAt(statusLines)], MergeConflictBothSides)
  {
    conflictDetected, isRebase := false, false;
    var i := 0;
    while i < |statusLines|
      invariant 0 <= i <= |statusLines|
      invariant forall j :: 0 <= j < i ==> !IsConflictLine(statusLines[j])
    {
      var line := statusLines[i];
      if HasPrefix(line, Unmerged) || HasPrefix(line, MergeConflictBothSides) ||
         HasPrefix(line, UnmergedDeleted) || HasPrefix(line, UnmergedAdded) {
        conflictDetected := true;
        if HasPrefix(line, MergeConflictBothSides) {
          isRebase := true;
        }
        FirstIsUnique(statusLines, i);
        break;
      }
      i := i + 1;
    }
  }

  /** An unmerged line preceded only by merged ones is the first. */
  lemma FirstIsUnique(lines: seq<string>, i: nat)
    requires i < |lines| && IsConflictLine(lines[i])
    requires forall j :: 0 <= j < i ==> !IsConflictLine(lines[j])
    ensures FirstConflictAt(lines) == i
  {
  }

  /** The two scans detect the same conflicts; the first-line scan sees a
      rebase only where the full scan does. */
  lemma {:induction false} FirstScanWithinFullScan(lines: seq<string>)
    ensures var i := FirstConflictAt(lines);
            && (i < |lines| <==> AnyConflictLine(lines))
            && (i < |lines| && HasPrefix(lines[i], MergeConflictBothSides) ==> AnyBothSidesLine(lines))
  {
    var i := FirstConflictAt(lines);
    if AnyConflictLine(lines) {
      var k :| 0 <= k < |lines| && IsConflictLine(lines[k]);
      assert i <= k;
    }
  }

  /** A status whose first unmerged line is deleted by them and whose second
      is modified on both sides is a merge for the first-line scan and a
      rebase for the full scan of executor.go. */
  lemma ScansDisagree()
    ensures var lines := ["UD a.txt", "UU b.txt"];
            FirstConflictAt(lines) == 0 && !HasPrefix(lines[0], MergeConflictBothSides) &&
            AnyBothSidesLine(lines)
  {
    var lines := ["UD a.txt", "UU b.txt"];
    assert lines[0][..2] == UnmergedDeleted;
    assert lines[1][..2] == MergeConflictBothSides;
    assert IsConflictLine(lines[0]);
  }

  // ---------------------------------------------------------------------------
  // The older sequencer (reporter.go:189-396)
  // ---------------------------------------------------------------------------

  function LegacyAbortError(isRebase: bool, repoName: string, err: string): string {
    LightRed + (if isRebase then "Error aborting rebase " else "Error aborting merge ") + repoName + ": " + err + Reset
  }

  /** The whole run for `dir`. */
  function LegacySequence(dir: string, cfg: Config.Config, git: Outcomes): Report {
    match git.gitRoot
    case Failure(e) => Stop(LightRed + "Error getting Git root for " + dir + ": " + e + Reset)
    case Success(raw) =>
      var root := GitRoot(raw);
      LegacyProbe(NewGitExecutor(cfg, root, Base(root)), git)
  }

  /** The probes (reporter.go:211-283); a failed fetch ends the run. */
  function LegacyProbe(g: GitExecutor, git: Outcomes): Report {
    if git.remoteURL.Failed? then
      Stop(LightRed + "No remote named '" + g.remoteName + "' found for " + g.repoName + Reset)
    else if git.fetch.Some? then
      Stop(LightRed + "Error fetching " + g.repoName + ". " + git.fetch.value + Reset)
    else if git.localBranch.Failed? then
      Stop("Branch " + g.branch + " does not exist in repository " + g.repoName)
    else if git.remoteBranch.Failed? then
      Stop("Remote branch " + g.branch + " does not exist in repository " + g.repoName)
    else
      match git.revList
      case Failure(e) => Stop(RevListMessage(g.repoName, e))
      case Success(rawCount) =>
        match git.log
        case Failure(e) => Stop(LastCommitMessage(g.repoName, e))
        case Success(rawInfo) =>
          var count := TrimSpace(rawCount);
          if count == "0" then Stop(UpToDate(g.repoName))
          else
            var header := BehindHeader(g.repoName, count, TrimSpace(rawInfo));
            if !g.update then Report(header + Reset, true, [])
            else LegacyUpdate(g, git, header + "\n:.")
  }

  /** Status, the first-line conflict scan and the abort (reporter.go:285-332);
      a failed abort ends the run. */
  function LegacyUpdate(g: GitExecutor, git: Outcomes, result: string): Report {
    match git.status
    case Failure(e) => Stop(LightRed + "Error checking status for " + g.repoName + "\n" + e + Reset)
    case Success(raw) =>
      var lines := StatusLines(raw);
      var i := FirstConflictAt(lines);
      if i == |lines| then LegacyIntegrate(g, git, result, raw)
      else if !g.force then Stop(ConflictMessage(g.repoName))
      else
        var isRebase := HasPrefix(lines[i], MergeConflictBothSides);
        var abort := AbortFor(isRebase);
        match ExitOf(git, abort)
        case Failed(e) => Report(LegacyAbortError(isRebase, g.repoName, e), false, [abort])
        case Ok =>
          var r := LegacyIntegrate(g, git, result + ForcingLine(), raw);
          Report(r.message, r.behind, [abort] + r.trace)
  }

  /** Plain stash, checkout, `reset --hard` to the remote branch, and the
      re-application of any stash (reporter.go:334-389). */
  function LegacyIntegrate(g: GitExecutor, git: Outcomes, result: string, rawStatus: string): Report {
    var dirty := rawStatus != "";
    if dirty && git.stash.Failed? then
      Report(LightRed + "Error stashing changes in " + g.repoName + ": " + git.stash.msg + Reset, false, [Stash])
    else
      var stashed := if dirty then [Stash] else [];
      var result1 := if dirty then result + "\n Stashing local changes" else result;
      if git.checkout.Failed? then
        Report(LightRed + "Error checking out branch " + g.branch + " in repository " + g.repoName + ": " +
               git.checkout.msg + Reset, false, stashed + [Checkout(g.branch)])
      else
        var result2 := result1 + "\n Pulling latest changes";
        var target := g.remoteName + "/" + g.branch;
        var reset := stashed + [Checkout(g.branch)] + [ResetHard(target)];
        if git.reset.Failed? then
          Report(LightRed + "Error resetting branch " + g.branch + " to " + target + " in repository " +
                 g.repoName + ": " + git.reset.msg + Reset, false, reset)
        else if git.stashListErr.Some? then
          Report(LightRed + "Error listing stashes in " + g.repoName + ": " + git.stashListErr.value + Reset,
                 false, reset)
        else if git.stashList == "" then
          Report(result2 + Done(g.repoName) + Reset, true, reset)
        else if git.pop.Failed? then
          Report(LightRed + "Error applying stash in " + g.repoName + ": " + git.pop.msg + Reset,
                 false, reset + [StashApply])
        else
          Report(result2 + "\n Applying stashed changes" + Done(g.repoName) + Reset, true, reset + [StashApply])
  }

  /** The integration half of the older checkIfBehind (reporter.go:334-389). */
  method LegacyIntegrateChanges(g: GitExecutor, git: Outcomes, header: string, statusOutput: string)
    returns (message: string, behind: bool, trace: seq<Command>)
    ensures Report(message, behind, trace) == LegacyIntegrate(g, git, header, statusOutput)
  {
    var result := header;
    trace := [];
    if statusOutput != "" {
      result := result + "\n Stashing local changes";
      trace := trace + [Stash];
      if git.stash.Failed? {
        message, behind := LightRed + "Error stashing changes in " + g.repoName + ": " + git.stash.msg + Reset, false;
        return;
      }
    }

    trace := trace + [Checkout(g.branch)];
    if git.checkout.Failed? {
      message, behind := LightRed + "Error checking out branch " + g.branch + " in repository " + g.repoName + ": " +
                         git.checkout.msg + Reset, false;
      return;
    }

    result := result + "\n Pulling latest changes";
    var target := g.remoteName + "/" + g.branch;
    trace := trace + [ResetHard(target)];
    if git.reset.Failed? {
      message, behind := LightRed + "Error resetting branch " + g.branch + " to " + target + " in repository " +
                         g.repoName + ": " + git.reset.msg + Reset, false;
      return;
    }

    if git.stashListErr.Some? {
      message, behind := LightRed + "Error listing stashes in " + g.repoName + ": " + git.stashListErr.value + Reset, false;
      return;
    }
    if |git.stashList| > 0 {
      result := result + "\n Applying stashed changes";
      trace := trace + [StashApply];
      if git.pop.Failed? {
        message, behind := LightRed + "Error applying stash in " + g.repoName + ": " + git.pop.msg + Reset, false;
        return;
      }
    }

    result := result + Done(g.repoName);
    message, behind := result + Reset, true;
  }

  /** The update half of the older checkIfBehind (reporter.go:285-332). */
  method LegacyUpdateRepository(g: GitExecutor, git: Outcomes, header: string)
    returns (message: string, behind: bool, trace: seq<Command>)
    ensures Report(message, behind, trace) == LegacyUpdate(g, git, header)
  {
    var result := header;
    trace := [];
    if git.status.Failure? {
      message, behind := LightRed + "Error checking status for " + g.repoName + "\n" + git.status.error + Reset, false;
      return;
    }
    var statusOutput := git.status.value;
    var statusLines := StatusLines(statusOutput);
    var conflictDetected, isRebase := FirstConflict(statusLines);

    if !conflictDetected {
      message, behind, trace := LegacyIntegrateChanges(g, git, result, statusOutput);
      return;
    }
    if !g.force {
      message, behind := ConflictMessage(g.repoName), false;
      return;
    }
    result := result + ForcingLine();
    if isRebase {
      trace := [AbortRebase];
      if git.abortRebase.Failed? {
        message, behind := LightRed + "Error aborting rebase " + g.repoName + ": " + git.abortRebase.msg + Reset, false;
        return;
      }
    } else {
      trace := [AbortMerge];
      if git.abortMerge.Failed? {
        message, behind := LightRed + "Error aborting merge " + g.repoName + ": " + git.abortMerge.msg + Reset, false;
        return;
      }
    }

    var m, b, t := LegacyIntegrateChanges(g, git, result, statusOutput);
    message, behind, trace := m, b, trace + t;
  }

  /** The older checkIfBehind: `results` is what the channel already holds;
      the method sends exactly one message and returns the flag and the
      mutating commands it issued. */
  method CheckIfBehindLegacy(dir: string, cfg: Config.Config, git: Outcomes, results: seq<string>)
    returns (sent: seq<string>, behind: bool, trace: seq<Command>)
    ensures var r := LegacySequence(dir, cfg, git);
            sent == results + [r.message] && behind == r.behind && trace == r.trace
  {
    trace := [];
    if git.gitRoot.Failure? {
      sent, behind := results + [LightRed + "Error getting Git root for " + dir + ": " + git.gitRoot.error + Reset], false;
      return;
    }
    var gitRoot := GitRoot(git.gitRoot.value);
    var g := NewGitExecutor(cfg, gitRoot, Base(gitRoot));

    if git.remoteURL.Failed? {
      sent, behind := results + [LightRed + "No remote named '" + g.remoteName + "' found for " + g.repoName + Reset], false;
      return;
    }
    if git.fetch.Some? {
      sent, behind := results + [LightRed + "Error fetching " + g.repoName + ". " + git.fetch.value + Reset], false;
      return;
    }
    if git.localBranch.Failed? {
      sent, behind := results + ["Branch " + g.branch + " does not exist in repository " + g.repoName], false;
      return;
    }
    if git.remoteBranch.Failed? {
      sent, behind := results + ["Remote branch " + g.branch + " does not exist in repository " + g.repoName], false;
      return;
    }
    if git.revList.Failure? {
      sent, behind := results + [RevListMessage(g.repoName, git.revList.error)], false;
      return;
    }
    var behindCount := TrimSpace(git.revList.value);
    if git.log.Failure? {
      sent, behind := results + [LastCommitMessage(g.repoName, git.log.error)], false;
      return;
    }
    var commitDetails := TrimSpace(git.log.value);

    if behindCount == "0" {
      sent, behind := results + [LightGreen + g.repoName + " is up-to-date" + Reset], false;
      return;
    }

    var result := LightRed + "\n" + g.repoName + " is " + behindCount + " " + CommitText(behindCount) +
                  " behind\nLast commit by " + commitDetails + Reset;
    if g.update {
      var message, b, t := LegacyUpdateRepository(g, git, result + "\n:.");
      sent, behind, trace := results + [message], b, t;
      return;
    }
    sent, behind := results + [result + Reset], true;
  }

  // ---------------------------------------------------------------------------
  // Properties of the older sequencer, stage by stage
  // ---------------------------------------------------------------------------

  /** The stash and integration rules of the older sequencer: a plain stash is
      pushed only for a non-empty status output and, once the checkout is
      reached, exactly then; a checkout that succeeds is followed by
      `reset --hard <remote>/<branch>`; nothing is pulled or popped; and once
      the reset succeeded and the stash list was read, a stash is applied
      exactly when the list is non-empty, whoever made the stash. */
  predicate LegacyHygiene(git: Outcomes, branch: string, remoteName: string, dirty: bool, r: Report) {
    && (Stash in r.trace ==> dirty)
    && (Checkout(branch) in r.trace ==> (Stash in r.trace <==> dirty))
    && (Checkout(branch) in r.trace && git.checkout.Ok? ==> ResetHard(remoteName + "/" + branch) in r.trace)
    && (forall i :: 0 <= i < |r.trace| ==> !r.trace[i].Pull? && !r.trace[i].StashPop?)
    && (ResetHard(remoteName + "/" + branch) in r.trace && git.reset.Ok? && git.stashListErr.None? ==>
          (StashApply in r.trace <==> git.stashList != ""))
  }

  /** The commands LegacyIntegrate issues: an optional stash, then the
      checkout, the reset and an optional apply, cut short at the first that
      fails. */
  lemma LegacyIntegrateTrace(g: GitExecutor, git: Outcomes, result: string, raw: string)
    ensures var r := LegacyIntegrate(g, git, result, raw);
            var stashed: seq<Command> := if raw != "" then [Stash] else [];
            var reset := stashed + [Checkout(g.branch)] + [ResetHard(g.remoteName + "/" + g.branch)];
            && (raw != "" && git.stash.Failed? ==> r.trace == [Stash] && !r.behind)
            && (!(raw != "" && git.stash.Failed?) ==>
                  if git.checkout.Failed? then r.trace == stashed + [Checkout(g.branch)] && !r.behind
                  else if git.reset.Failed? || git.stashListErr.Some? then r.trace == reset && !r.behind
                  else if git.stashList == "" then r.trace == reset && r.behind
                  else r.trace == reset + [StashApply] && r.behind == git.pop.Ok?)
  {
  }

  /** LegacyIntegrate issues no abort and keeps the discipline, a command
      letting the run go on exactly when it succeeds. */
  lemma LegacyIntegrateOrdered(g: GitExecutor, git: Outcomes, result: string, raw: string)
    ensures var r := LegacyIntegrate(g, git, result, raw);
            && Disciplined(git, Intended, r)
            && (forall i :: 0 <= i < |r.trace| ==> Rank(r.trace[i]) >= 1)
  {
    LegacyIntegrateTrace(g, git, result, raw);
    var r := LegacyIntegrate(g, git, result, raw);
    if raw != "" && git.stash.Failed? {
      StepLast(git, Intended, [], 0, Stash, r);
    } else {
      var stashed: seq<Command> := if raw != "" then [Stash] else [];
      var top := if raw != "" then 1 else 0;
      if raw != "" {
        StepOn(git, Intended, [], 0, Stash);
        assert [] + [Stash] == stashed;
      }
      var checkedOut := stashed + [Checkout(g.branch)];
      var reset := ResetHard(g.remoteName + "/" + g.branch);
      if git.checkout.Failed? {
        StepLast(git, Intended, stashed, top, Checkout(g.branch), r);
      } else {
        StepOn(git, Intended, stashed, top, Checkout(g.branch));
        if git.reset.Failed? || git.stashListErr.Some? || git.stashList == "" {
          StepLast(git, Intended, checkedOut, 2, reset, r);
        } else {
          StepOn(git, Intended, checkedOut, 2, reset);
          StepLast(git, Intended, checkedOut + [reset], 3, StashApply, r);
        }
      }
    }
  }

  /** LegacyIntegrate keeps the stash and integration rules. */
  lemma LegacyIntegrateHygiene(g: GitExecutor, git: Outcomes, result: string, raw: string)
    ensures LegacyHygiene(git, g.branch, g.remoteName, raw != "", LegacyIntegrate(g, git, result, raw))
  {
    LegacyIntegrateTrace(g, git, result, raw);
  }

  /** A completed LegacyIntegrate run extends the report it was given. */
  lemma LegacyIntegrateExtends(g: GitExecutor, git: Outcomes, result: string, raw: string)
    ensures var r := LegacyIntegrate(g, git, result, raw);
            r.behind ==> HasPrefix(r.message, result)
  {
    var r := LegacyIntegrate(g, git, result, raw);
    if r.behind {
      var result1 := if raw != "" then result + "\n Stashing local changes" else result;
      var result2 := result1 + "\n Pulling latest changes";
      assert HasPrefix(result, result);
      PrefixExtends(result, result, "\n Stashing local changes");
      PrefixExtends(result, result1, "\n Pulling latest changes");
      if git.stashList == "" {
        PrefixExtends(result, result2, Done(g.repoName));
        PrefixExtends(result, result2 + Done(g.repoName), Reset);
      } else {
        PrefixExtends(result, result2, "\n Applying stashed changes");
        PrefixExtends(result, result2 + "\n Applying stashed changes", Done(g.repoName));
        PrefixExtends(result, result2 + "\n Applying stashed changes" + Done(g.repoName), Reset);
      }
    }
  }

  /** Putting an abort in front of a trace keeps the stash and integration rules. */
  lemma LegacyPrependAbort(git: Outcomes, branch: string, remoteName: string, dirty: bool, abort: Command, s: Report)
    requires abort == AbortRebase || abort == AbortMerge
    requires LegacyHygiene(git, branch, remoteName, dirty, s)
    ensures LegacyHygiene(git, branch, remoteName, dirty, Report(s.message, s.behind, [abort] + s.trace))
  {
    var t := [abort] + s.trace;
    assert forall c :: c in t <==> c == abort || c in s.trace;
    forall i | 1 <= i < |t| ensures t[i] == s.trace[i - 1] { }
  }

  /** LegacyUpdate keeps the discipline. */
  lemma {:induction false} LegacyUpdateOrdered(g: GitExecutor, git: Outcomes, result: string)
    ensures Disciplined(git, Intended, LegacyUpdate(g, git, result))
  {
    if git.status.Success? {
      var raw := git.status.value;
      var lines := StatusLines(raw);
      var i := FirstConflictAt(lines);
      if i == |lines| {
        LegacyIntegrateOrdered(g, git, result, raw);
      } else if g.force {
        var abort := AbortFor(HasPrefix(lines[i], MergeConflictBothSides));
        if ExitOf(git, abort).Ok? {
          var s := LegacyIntegrate(g, git, result + ForcingLine(), raw);
          LegacyIntegrateOrdered(g, git, result + ForcingLine(), raw);
          PrependAbort(git, Intended, abort, s);
        }
      }
    }
  }

  /** LegacyUpdate keeps the stash and integration rules. */
  lemma {:induction false} LegacyUpdateHygiene(g: GitExecutor, git: Outcomes, result: string)
    ensures LegacyHygiene(git, g.branch, g.remoteName, git.status.Success? && git.status.value != "",
                          LegacyUpdate(g, git, result))
  {
    if git.status.Success? {
      var raw := git.status.value;
      var lines := StatusLines(raw);
      var i := FirstConflictAt(lines);
      if i == |lines| {
        LegacyIntegrateHygiene(g, git, result, raw);
      } else if g.force {
        var abort := AbortFor(HasPrefix(lines[i], MergeConflictBothSides));
        if ExitOf(git, abort).Ok? {
          var s := LegacyIntegrate(g, git, result + ForcingLine(), raw);
          LegacyIntegrateHygiene(g, git, result + ForcingLine(), raw);
          LegacyPrependAbort(git, g.branch, g.remoteName, raw != "", abort, s);
        }
      }
    }
  }

  /** A completed LegacyUpdate run extends the report it was given. */
  lemma {:induction false} LegacyUpdateExtends(g: GitExecutor, git: Outcomes, result: string)
    ensures var r := LegacyUpdate(g, git, result);
            r.behind ==> HasPrefix(r.message, result)
  {
    if git.status.Success? {
      var raw := git.status.value;
      var lines := StatusLines(raw);
      var i := FirstConflictAt(lines);
      if i == |lines| {
        LegacyIntegrateExtends(g, git, result, raw);
      } else if g.force {
        var abort := AbortFor(HasPrefix(lines[i], MergeConflictBothSides));
        if ExitOf(git, abort).Ok? {
          var forced := result + ForcingLine();
          var s := LegacyIntegrate(g, git, forced, raw);
          LegacyIntegrateExtends(g, git, forced, raw);
          if s.behind {
            assert HasPrefix(result, result);
            PrefixExtends(result, result, ForcingLine());
            assert s.message[..|result|] == s.message[..|forced|][..|result|];
          }
        }
      }
    }
  }

  /** A red header stays a red message whatever follows it. */
  lemma RedHeader(repoName: string, count: string, commitInfo: string, tail: string)
    ensures HasPrefix(BehindHeader(repoName, count, commitInfo) + tail, LightRed)
  {
    var p := LightRed;
    assert HasPrefix(p, LightRed);
    var parts := ["\n", repoName, " is ", count, " ", CommitText(count), " behind\nLast commit by ",
                  commitInfo, Reset, tail];
    PrefixExtends(LightRed, p, parts[0]); p := p + parts[0];
    PrefixExtends(LightRed, p, parts[1]); p := p + parts[1];
    PrefixExtends(LightRed, p, parts[2]); p := p + parts[2];
    PrefixExtends(LightRed, p, parts[3]); p := p + parts[3];
    PrefixExtends(LightRed, p, parts[4]); p := p + parts[4];
    PrefixExtends(LightRed, p, parts[5]); p := p + parts[5];
    PrefixExtends(LightRed, p, parts[6]); p := p + parts[6];
    PrefixExtends(LightRed, p, parts[7]); p := p + parts[7];
    PrefixExtends(LightRed, p, parts[8]); p := p + parts[8];
    PrefixExtends(LightRed, p, parts[9]); p := p + parts[9];
    assert p == BehindHeader(repoName, count, commitInfo) + tail;
  }

  /** Once the Git root is known, the run is the probes for its settings. */
  lemma LegacySequenceIsProbe(dir: string, cfg: Config.Config, git: Outcomes)
    requires git.gitRoot.Success?
    ensures LegacySequence(dir, cfg, git) == LegacyProbe(Settings(cfg, git), git)
  {
  }

  /** With every probe passed (the fetch included), a count other than "0"
      and `update` set, the probes hand over to the update stage. */
  lemma LegacyProbeReachesUpdate(g: GitExecutor, git: Outcomes)
    requires RepoProbesPass(git, Intended) && Count(git) != "0" && g.update
    ensures LegacyProbe(g, git) == LegacyUpdate(g, git, UpdateHeader(g, git))
  {
  }

  /** Otherwise the probes issue no mutating command, and report the branch
      behind, with the header alone, exactly when every probe passed and the
      count is not "0". */
  lemma LegacyProbeStops(g: GitExecutor, git: Outcomes)
    requires !(RepoProbesPass(git, Intended) && Count(git) != "0" && g.update)
    ensures var r := LegacyProbe(g, git);
            && r.trace == []
            && (r.behind <==> RepoProbesPass(git, Intended) && Count(git) != "0")
            && (r.behind ==>
                  && git.log.Success?
                  && r.message == BehindHeader(g.repoName, Count(git), TrimSpace(git.log.value)) + Reset)
  {
  }

  /** A whole run of the older sequencer, split at the update stage. */
  lemma {:induction false} LegacyStages(dir: string, cfg: Config.Config, git: Outcomes)
    ensures var r := LegacySequence(dir, cfg, git);
            if ProbesPass(git, Intended) && Count(git) != "0" && cfg.update then
              r == LegacyUpdate(Settings(cfg, git), git, UpdateHeader(Settings(cfg, git), git))
            else
              && r.trace == []
              && (r.behind <==> ProbesPass(git, Intended) && Count(git) != "0")
  {
    if git.gitRoot.Success? {
      LegacySequenceIsProbe(dir, cfg, git);
      var g := Settings(cfg, git);
      if RepoProbesPass(git, Intended) && Count(git) != "0" && g.update {
        LegacyProbeReachesUpdate(g, git);
      } else {
        LegacyProbeStops(g, git);
      }
    }
  }

  // ---------------------------------------------------------------------------
  // Properties of a whole run of the older sequencer
  // ---------------------------------------------------------------------------

  /** The commands come in the order abort, stash, checkout, reset, apply;
      one that fails is the last, and the run then returns false. The run
      returns true only when every probe passed and the count is not "0".
      Nothing is pulled or popped; a stash is pushed only for a non-empty
      status and, once the checkout is reached, exactly then; and once the
      reset succeeded and the stash list was read, a stash is applied exactly
      when the list is non-empty. */
  lemma {:induction false} LegacyRunFacts(dir: string, cfg: Config.Config, git: Outcomes)
    ensures var r := LegacySequence(dir, cfg, git);
            && Disciplined(git, Intended, r)
            && (r.behind ==> ProbesPass(git, Intended) && Count(git) != "0")
            && LegacyHygiene(git, cfg.branch, cfg.remoteName, git.status.Success? && git.status.value != "", r)
  {
    LegacyStages(dir, cfg, git);
    if ProbesPass(git, Intended) && Count(git) != "0" && cfg.update {
      var g := Settings(cfg, git);
      LegacyUpdateOrdered(g, git, UpdateHeader(g, git));
      LegacyUpdateHygiene(g, git, UpdateHeader(g, git));
    }
  }

  /** A failed fetch ends the run with the fetch error, before any other
      probe or command. */
  lemma LegacyFetchStops(dir: string, cfg: Config.Config, git: Outcomes)
    requires git.gitRoot.Success? && git.remoteURL.Ok? && git.fetch.Some?
    ensures LegacySequence(dir, cfg, git) ==
              Stop(LightRed + "Error fetching " + Settings(cfg, git).repoName + ". " + git.fetch.value + Reset)
  {
    LegacySequenceIsProbe(dir, cfg, git);
  }

  /** Forcing through a conflict, the abort is chosen by the first unmerged
      line; an abort that fails ends the run with its error, and one that
      succeeds lets the run go on to the stash or the checkout. */
  lemma LegacyAbort(dir: string, cfg: Config.Config, git: Outcomes)
    requires ProbesPass(git, Intended) && Count(git) != "0" && cfg.update && cfg.force
    requires git.status.Success?
    requires FirstConflictAt(StatusLines(git.status.value)) < |StatusLines(git.status.value)|
    ensures var lines := StatusLines(git.status.value);
            var isRebase := HasPrefix(lines[FirstConflictAt(lines)], MergeConflictBothSides);
            var abort := AbortFor(isRebase);
            var r := LegacySequence(dir, cfg, git);
            && (ExitOf(git, abort).Failed? ==>
                  r == Report(LegacyAbortError(isRebase, Settings(cfg, git).repoName, ExitOf(git, abort).msg), false, [abort]))
            && (ExitOf(git, abort).Ok? ==>
                  |r.trace| >= 2 && r.trace[0] == abort &&
                  r.trace[1] == (if git.status.value != "" then Stash else Checkout(cfg.branch)))
  {
    LegacyStages(dir, cfg, git);
    var g := Settings(cfg, git);
    LegacyIntegrateTrace(g, git, UpdateHeader(g, git) + ForcingLine(), git.status.value);
  }

  /** Where check.go pops only the reporter's own stash, the older sequencer
      applies whatever stash is on top: for a stash list that does not mention
      the reporter, the same outcomes lead one to skip the pop and the other
      to apply. */
  lemma ForeignStashApplied(g: GitExecutor, git: Outcomes, result: string, raw: string)
    requires !(raw != "" && git.stash.Failed?) && git.checkout.Ok? && git.pull.Ok? && git.reset.Ok?
    requires git.stashListErr.None? && git.stashList != "" && !Contains(git.stashList, StashMessage)
    ensures StashPop !in Integrate(g, git, result, raw).trace
    ensures StashApply in LegacyIntegrate(g, git, result, raw).trace
  {
    ForeignStashIgnored(git.stashList, g.branch);
    IntegrateTrace(g, git, result, raw);
    LegacyIntegrateTrace(g, git, result, raw);
  }

  /** A run that returns true sends a red message, which the partition lists
      under the outdated repositories. */
  lemma {:induction false} LegacyBehindListedOutdated(dir: string, cfg: Config.Config, git: Outcomes)
    ensures var r := LegacySequence(dir, cfg, git);
            r.behind ==> BucketOf(r.message) == OutdatedRepos
  {
    if git.gitRoot.Success? {
      LegacySequenceIsProbe(dir, cfg, git);
      var g := Settings(cfg, git);
      var r := LegacyProbe(g, git);
      if RepoProbesPass(git, Intended) && Count(git) != "0" && g.update {
        LegacyProbeReachesUpdate(g, git);
        var header := UpdateHeader(g, git);
        LegacyUpdateExtends(g, git, header);
        RedHeader(g.repoName, Count(git), TrimSpace(git.log.value), "\n:.");
        if r.behind {
          assert r.message[..|LightRed|] == r.message[..|header|][..|LightRed|];
        }
      } else {
        LegacyProbeStops(g, git);
        if r.behind {
          RedHeader(g.repoName, Count(git), TrimSpace(git.log.value), Reset);
        }
      }
    }
  }

  /** A failed fetch is listed under the outdated repositories. */
  lemma FetchErrorListedOutdated(dir: string, cfg: Config.Config, git: Outcomes)
    requires git.gitRoot.Success? && git.remoteURL.Ok? && git.fetch.Some?
    ensures BucketOf(LegacySequence(dir, cfg, git).message) == OutdatedRepos
  {
    LegacyFetchStops(dir, cfg, git);
    var m := LightRed + "Error fetching " + Settings(cfg, git).repoName + ". " + git.fetch.value + Reset;
    assert m[..|LightRed|] == LightRed;
  }

  // ---------------------------------------------------------------------------
  // The dispatch over the current directory (reporter.go:654-698)
  // ---------------------------------------------------------------------------

  /** An entry of the current directory, with what git reports for it. */
  datatype Entry = Entry(name: string, isDir: bool, isRepo: bool, git: Outcomes)

  /** filepath.Join of the current directory and an entry name. */
  function JoinPath(dir: string, name: string): string {
    dir + "/" + name
  }

  /** The entry is a directory holding a Git work tree whose name passes the filter. */
  predicate Selected(currentDir: string, cfg: Config.Config, e: Entry) {
    e.isDir && e.isRepo && Config.IsIncluded(Base(JoinPath(currentDir, e.name)), cfg.includes, cfg.excludes)
  }

  /** The messages the runs for the selected entries send, in entry order. */
  function RunAll(currentDir: string, cfg: Config.Config, entries: seq<Entry>): seq<string> {
    if entries == [] then []
    else
      var last := entries[|entries| - 1];
      RunAll(currentDir, cfg, entries[..|entries| - 1]) +
        (if Selected(currentDir, cfg, last) then [LegacySequence(JoinPath(currentDir, last.name), cfg, last.git).message]
         else [])
  }

  /** The number of selected entries. */
  function SelectedCount(currentDir: string, cfg: Config.Config, entries: seq<Entry>): nat {
    if entries == [] then 0
    else SelectedCount(currentDir, cfg, entries[..|entries| - 1]) +
         (if Selected(currentDir, cfg, entries[|entries| - 1]) then 1 else 0)
  }

  /** Each selected entry sends exactly one message, so the channel, sized
      for every entry, never fills. */
  lemma {:induction false} OneMessagePerRepository(currentDir: string, cfg: Config.Config, entries: seq<Entry>)
    ensures |RunAll(currentDir, cfg, entries)| == SelectedCount(currentDir, cfg, entries) <= |entries|
    decreases |entries|
  {
    if entries != [] {
      OneMessagePerRepository(currentDir, cfg, entries[..|entries| - 1]);
    }
  }

  /** The message of the i-th entry, when it is selected, comes after the
      messages of the selected entries before it and of no others. */
  lemma {:induction false} RunAllAt(currentDir: string, cfg: Config.Config, entries: seq<Entry>, i: int)
    requires 0 <= i < |entries| && Selected(currentDir, cfg, entries[i])
    ensures SelectedCount(currentDir, cfg, entries[..i]) < |RunAll(currentDir, cfg, entries)|
    ensures RunAll(currentDir, cfg, entries)[SelectedCount(currentDir, cfg, entries[..i])]
            == LegacySequence(JoinPath(currentDir, entries[i].name), cfg, entries[i].git).message
    decreases |entries|
  {
    var init := entries[..|entries| - 1];
    if i == |entries| - 1 {
      assert entries[..i] == init;
      OneMessagePerRepository(currentDir, cfg, init);
    } else {
      assert entries[..i] == init[..i];
      assert init[i] == entries[i];
      RunAllAt(currentDir, cfg, init, i);
    }
  }

  /** The loop over the entries, with the runs made one after another. */
  method CheckAll(currentDir: string, cfg: Config.Config, entries: seq<Entry>) returns (results: seq<string>)
    ensures results == RunAll(currentDir, cfg, entries)
  {
    results := [];
    for i := 0 to |entries|
      invariant results == RunAll(currentDir, cfg, entries[..i])
    {
      var file := entries[i];
      assert entries[..i + 1][..i] == entries[..i];
      if file.isDir {
        var dirPath := JoinPath(currentDir, file.name);
        if file.isRepo {
          var repoName := Base(dirPath);
          if Config.IsIncluded(repoName, cfg.includes, cfg.excludes) {
            var sent, _, _ := CheckIfBehindLegacy(dirPath, cfg, file.git, results);
            results := sent;
          }
        }
      }
    }
    assert entries[..|entries|] == entries;
  }

  /** The run for the current directory: a single repository when it is one
      (and passes the filter), every selected sub-directory otherwise. */
  method CheckRepositories(currentDir: string, currentIsRepo: bool, here: Outcomes, cfg: Config.Config,
                           entries: seq<Entry>) returns (results: seq<string>)
    ensures currentIsRepo ==>
              results == (if Config.IsIncluded(Base(currentDir), cfg.includes, cfg.excludes)
                          then [LegacySequence(currentDir, cfg, here).message] else [])
    ensures !currentIsRepo ==> results == RunAll(currentDir, cfg, entries)
  {
    if currentIsRepo {
      results := [];
      var repoName := Base(currentDir);
      if Config.IsIncluded(repoName, cfg.includes, cfg.excludes) {
        var sent, _, _ := CheckIfBehindLegacy(currentDir, cfg, here, results);
        results := sent;
      }
      return;
    }
    results := CheckAll(currentDir, cfg, entries);
  }
}
