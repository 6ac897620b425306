# reporter: the drift check and safe-update sequencer, in Dafny

`reporter` walks the Git repositories under the current directory, or the one
it stands in. For each it checks whether the local branch is behind
`<remote>/<branch>` and prints a coloured report. With `--update` it brings
the branch up to date. With `--force` it first aborts a rebase or merge
left in progress. Each run sends exactly one message. The messages are then
sorted into outdated repositories (red), up-to-date repositories (green)
and lines printed as they are.

This project models the decision logic of that tool. Every `git`
invocation is an abstract outcome handed to the model. The probes, fetch,
status, aborts, stash, checkout, pull or reset, stash list and pop or apply
are all fields of one record (`Git.Outcomes`). Each run returns its
message, the boolean the Go function returns, and the trace of mutating
commands it issued (`Git.Command`).

Modules, one per source file or concern:

- `Wrappers`: Option and Result.
- `Strings`: the parts of Go's `strings` and `path/filepath` that the code uses, as functions over `seq<char>`. These are `HasPrefix`, `Contains`, `Split`, `Trim`, `TrimSpace`, `TrimSuffix`, a first-occurrence `Replace`, and `Base`.
- `Constants`: the colour markers and porcelain status prefixes (constants.go).
- `Executor`: executor.go. It covers the conflict classifier (a loop, hence a method) and `commitText`. It covers the remote-locator parser and the "may not exist" error. It covers the fetch retry loop with backoff and jitter (an imperative method proved against a recursive specification), the breaker's trip predicate, and the reporter-stash check.
- `Config`: config.go. It covers the configuration record, `isIncluded` and `validateKeys`.
- `Git`: the outcome record, the command trace, and the executor settings (`NewGitExecutor`).
- `Check`: check.go's `checkIfBehind`.
  - As specification, the functions `Sequence`, `Probe`, `Update` and `Integrate` describe a run stage by stage.
  - As implementation, the methods `CheckIfBehind`, `UpdateRepository` and `IntegrateChanges` build the message with successive appends.
  - The lemmas give the properties of a run.
  - A `Guards` parameter selects the guards as written (`AsWritten`) or as evidently intended (`Intended`); see Findings.
- `Reporter`: reporter.go.
  - It covers the merge of defaults, the ".rprc" file and the flags, and the partition of the messages.
  - It covers the older inline sequencer (stage functions `LegacySequence` … `LegacyIntegrate`, methods `CheckIfBehindLegacy` …).
  - It covers its first-line conflict scan and the dispatch over the current directory.

The channel is a sequence. A run takes the messages sent so far and returns
them with its one message appended.

Where the prose description of the tool and the code disagree, the model
follows the code. A run whose update step fails sends only the error
message; the report built up so far ("…behind", "Stashing local changes", …)
is discarded, not sent with the error.

## Model

| member | source | states |
|---|---|---|
| Executor.HasConflicts | executor.go:299-310 | `isConflict` holds iff some status line starts with "U ", "UU", "UD" or "UA"; `isRebase` holds iff some line, not only the first, starts with "UU"; `isRebase` implies `isConflict` |
| Executor.CommitText | executor.go:313-318 | "commit" exactly for the count "1", "commits" for every other count |
| Executor.ParseGitRemoteURL | executor.go:272-296 | an unparsable locator (a control character, a missing scheme, or an authority whose user info, host characters or port net/url refuses) gives "invalid URL"; otherwise success iff the trimmed path has at least two segments, else "invalid URL path" naming the path; user and repository never contain '/' |
| Executor.SshNormalizes | executor.go:274-278 | `git@host:path` is rewritten to `https://host/path` |
| Executor.HttpsPath | executor.go:281 | for a host name net/url accepts (no refused character, no user info, port or brackets), the path of `https://host/path` is `path` |
| Executor.HttpsLocator | executor.go:286-295 | for an accepted host name, `https://host/u/r` parses to user `u` and repository `r` with one trailing ".git" removed |
| Executor.SshLocator | executor.go:274-295 | for an accepted host name, `git@host:u/r` parses exactly as `https://host/u/r`, to (`u`, `r` less ".git") |
| Executor.ParseOfSegments | executor.go:286-294 | when the trimmed path splits into some segments followed by `u` and `r`, the parse is (`u`, `r` less ".git"), whatever segments come first |
| Executor.HttpsSegmentsLocator | executor.go:281-295 | for an accepted host name, `https://host/g1/…/gk/u/r`, with any number of group segments, parses to the last two: user `u` and repository `r` less ".git" |
| Executor.SshSegmentsLocator | executor.go:274-295 | for an accepted host name, `git@host:g1/…/gk/u/r` parses to the last two segments as well |
| Executor.NestedGroupRow | executor.go:286-294 | `https://gitlab.com/group/sub/repo.git` parses to user "sub" and repository "repo" |
| Executor.GitSuffixOptional | executor.go:293-294 | for an accepted host name, a locator with and without a trailing ".git" names the same repository |
| Executor.HttpsGitLocator | executor.go:281-295 | for an accepted host name, `https://host/u/n.git` parses to user `u` and repository `n` |
| Executor.SshGitLocator | executor.go:274-295 | for an accepted host name, `git@host:u/n.git` parses to user `u` and repository `n` |
| Executor.HttpsPlainLocator | executor.go:281-295 | for an accepted host name, `https://host/u/r`, with `r` not ending in ".git", parses to user `u` and repository `r` unchanged |
| Executor.BareWordRejected | executor.go:287-290 | a bare word with no scheme and no '/' is refused with "invalid URL path" |
| Executor.SingleSegmentRejected | executor.go:287-290 | for an accepted host name, a locator with only an owner segment is refused with "invalid URL path" |
| Executor.RefusedHostRejected | executor.go:281-284 | a host holding a character net/url refuses in a host (a space, a backslash, '^', a backtick, '{', a vertical bar or '}') makes `https://host/path` fail with "invalid URL" naming the locator, whatever the path |
| Executor.SshRefusedHostRejected | executor.go:274-284 | `git@host:rest` with such a host fails with "invalid URL" naming its https rewrite `https://host/rest` |
| Executor.SpacedHostRow | executor.go:281-284 | `https://git hub.com/u/r` fails with "invalid URL" |
| Executor.ParserTestTable | reporter_test.go:12-38 | the seven rows of the parser's test, two of them errors |
| Executor.ErrRepoDoesNotExist | executor.go:249-259 | a lookup error is returned unchanged; otherwise the parser's error, or "may not exist" naming exactly the parsed user and repository |
| Executor.ExecFreshCommandWithRetry | executor.go:193-226 | the retry loop, starting a fresh process per attempt, yields exactly the error, run count and sleeps of the specification `Retry` |
| Executor.Cmd.Run | executor.go:202 | a command object runs at most once: a second `Run` fails whatever the first did |
| Executor.ExecCommandWithRetry | executor.go:193-226 | the loop as written, re-running the same command object, yields `Retry` over the outcome "only a first run on a fresh object can succeed" |
| Executor.RetryFromShape | executor.go:201-221 | from any attempt on, the loop runs at most up to `maxAttempts`, succeeds iff its last run did, failed every run before, and slept once after each failure, for 50·2^k + jitter ms |
| Executor.RetryContract | executor.go:200-223 | rejected by the breaker: no run. With `maxAttempts < 1`: no run and "Command failed after N attempts". Otherwise at most `maxAttempts` runs; success iff some run succeeded, and it is the last; each sleep k lies in [50·2^(k+1), 50·2^(k+1)+99]; exhaustion only at the last attempt, with the "may not exist" error |
| Executor.ExhaustedOnlyAtLast | executor.go:207-211 | the remote lookup and its error come only after the last attempt |
| Executor.BackoffTotal | executor.go:220 | failing every attempt, the loop sleeps at least 50·(2^max − 2^attempt) ms in all |
| Executor.ReusedCommandNeverRecovers | executor.go:193-226 | with the reused command that failed once, all 30 fetch attempts fail, after at least 53 687 091 100 ms (over 600 days) of sleep |
| Executor.FreshCommandRecovers | executor.go:201-205 | with a fresh process per attempt, a fetch that fails once and then succeeds returns nil after two runs and one sleep |
| Executor.ConsecutiveFailuresAtLeast | executor.go:185-187 | the breaker's count is at least m iff the last m calls all failed |
| Executor.TripsAfterFourFailures | executor.go:185-187 | the breaker trips iff the last four calls all failed |
| Executor.ReporterEntryRecognised | executor.go:165-174 | the list entry git prints for the reporter's own stash on the branch is recognised |
| Executor.ForeignStashIgnored | executor.go:165-174 | a stash list that never mentions "Stashed by reporter" is not taken for the reporter's stash |
| Config.IsIncluded | config.go:86-98 | included iff on the include list, or the include list is empty and the name is not excluded |
| Config.InList | config.go:87-96 | the scan finds the name iff it is in the list |
| Config.IsIncludedTestTable | reporter_test.go:180-206 | the nine cases of the filter's test |
| Config.ValidateKeys | config.go:63-70 | None iff every key maps to true (a missing key is refused); otherwise the error names the first refused key in visiting order, and every earlier key is allowed |
| Config.OnlyBadKeyNamed | config.go:63-70 | whatever the visiting order, a file whose only unsupported key is `k` is refused with the error naming `k` |
| Config.ValidKeysTable | config.go:42-49 | each of the six keys of the table is allowed; "invalid_key" is not |
| Config.ValidateKeysTestTable | reporter_test.go:151-178 | the six supported keys pass; adding "invalid_key" is refused with "Error unsupported key in config file: invalid_key" |
| Git.NewGitExecutor | executor.go:28-37 | the settings carry the configuration's branch, update, force and remote, and the given root and name |
| Check.IntegrateChanges | check.go:104-134 | the stash/checkout/pull/pop part of a run yields exactly the stage function `Integrate` |
| Check.UpdateRepository | check.go:70-102 | the status, conflict and abort part yields exactly `Update` with the guards as written |
| Check.CheckIfBehind | check.go:10-144 | every path appends exactly one message to the results and returns the flag and command trace of `Sequence` as written |
| Check.IntegrateTrace | check.go:104-134 | the commands are an optional `stash push`, checkout, pull and an optional pop, cut at the first failure, which returns false |
| Check.IntegrateOrdered | check.go:104-134 | integration issues no abort, in order, and a failing command is last and returns false |
| Check.IntegrateStash | check.go:105-132 | a stash is pushed only for a non-empty status and, once checkout is reached, exactly then; the pop only for the reporter's own stash and, after a successful pull, always then; true only after the pull |
| Check.PrependAbort | check.go:90-102 | an abort that lets the run go on, in front of an ordered integration, keeps the order |
| Check.PrependAbortStash | check.go:90-102 | an abort in front of an integration keeps the stash rules |
| Check.UpdateOrdered | check.go:70-134 | the update stage issues its commands in the order abort, stash, checkout, pull, pop; a failing one is last |
| Check.UpdateStash | check.go:70-134 | the update stage keeps the stash rules |
| Check.ForcedAbort | check.go:90-102 | forcing through a conflict, the abort is chosen by `isRebase`; an abort that does not let the run go on ends it with "Error aborting rebase/merge"; otherwise the stash or checkout comes next |
| Check.SequenceIsProbe | check.go:18-25 | once the Git root is known, the run is the probes for the executor built from it |
| Check.ProbeReachesUpdate | check.go:27-72 | with every probe passed, a count other than "0" and update set, the run continues into the update stage with the red header |
| Check.ProbeStopsBeforeUpdate | check.go:27-69 | otherwise no command is issued, and the result is true iff every probe passed and the count is not "0" |
| Check.SequenceStages | check.go:10-144 | a whole run, split at the update stage |
| Check.TraceDiscipline | check.go:92-132 | in every run, commands come in the order abort → stash → checkout → pull → pop, each at most once; one that fails ends the run with false |
| Check.BehindOnlyWhenAllStepsPass | check.go:66-143 | true only when every probe passed, the count is not "0" and every issued command went through; a count of "0" gives the green up-to-date message and false |
| Check.NoUpdateNoCommands | check.go:70-135 | without update, no abort, stash, checkout, pull or pop is issued |
| Check.StashDiscipline | check.go:105-132 | in every run, a stash is pushed iff the raw status is non-empty (once checkout is reached), and popped only, and after a successful pull always, for the reporter's own stash entry |
| Check.ConflictWithoutForce | check.go:81-88 | a conflict without force ends the run with the "use --update --force" message, false and no command |
| Check.AbortMatchesConflict | check.go:90-102 | forcing through a conflict, the first command is the abort `isRebase` selects |
| Check.UpdateIgnoresFetch | check.go:70-134 | the update stage does not depend on the fetch |
| Check.ProbeIgnoresFetch | check.go:33-37 | as written, the probes do not depend on the fetch outcome |
| Check.FetchOutcomeIgnored | check.go:33-37 | as written, the fetch outcome never changes a run |
| Check.FetchFailureUnreported | check.go:33-37 | as written, a failed fetch with a count of "0" reports the repository up to date; with the intended guard the fetch error is reported |
| Check.CorrectedFetchStops | check.go:33-37 | with the intended guard, a failed fetch ends the run with "Error fetching" |
| Check.AbortResultInverted | check.go:92-101 | as written, an abort that succeeds ends the run with "Error aborting …", and one that fails lets it go on |
| Check.CorrectedAbort | check.go:92-101 | with the intended guard, an abort that fails ends the run, and one that succeeds lets it go on |
| Reporter.ApplyFile | reporter.go:592-610 | a load error ends the run with "Error loading config"; the file replaces branch and remote only when non-empty, and update, include, exclude and force always |
| Reporter.ApplyFlags | reporter.go:612-639 | the branch and remote flags override only when not "main"/"origin", the short flag winning; boolean flags only set; filter lists untouched |
| Reporter.MergeConfig | reporter.go:576-639 | the configuration is defaults, then file, then flags, with each field's precedence stated outright |
| Reporter.DefaultsWithoutFileOrFlags | reporter.go:576-584 | without file and flags: branch "main", remote "origin", no update, no force, no filter |
| Reporter.Select | reporter.go:704-712 | a bucket holds at most as many messages as were sent |
| Reporter.Partition | reporter.go:700-712 | the loop fills each bucket with the messages that belong to it, in arrival order |
| Reporter.SelectAppend | reporter.go:704-712 | a message that arrived earlier is listed earlier in its bucket |
| Reporter.SelectMembers | reporter.go:704-712 | a message is in a bucket iff it was sent and belongs there: red first, then green, else printed |
| Reporter.PartitionIsPermutation | reporter.go:704-712 | the three buckets together are a permutation of the messages |
| Reporter.FirstConflictAt | reporter.go:296-305 | the index of the first unmerged line: no earlier line is unmerged, and the line there is |
| Reporter.FirstConflict | reporter.go:290-305 | the inline scan detects a conflict iff some line is unmerged, and a rebase iff the first unmerged line starts with "UU" |
| Reporter.FirstIsUnique | reporter.go:296-303 | an unmerged line preceded only by merged ones is the one the scan stops at |
| Reporter.FirstScanWithinFullScan | reporter.go:296-305 | both scans detect the same conflicts; a rebase for the first-line scan is a rebase for the full scan |
| Reporter.ScansDisagree | reporter.go:296-305 | for "UD a.txt" then "UU b.txt", the inline scan sees a merge and the full scan a rebase |
| Reporter.LegacyIntegrateChanges | reporter.go:335-391 | the stash/checkout/reset/apply part of a run yields exactly `LegacyIntegrate` |
| Reporter.LegacyUpdateRepository | reporter.go:280-333 | the status, first-line scan and abort part yields exactly `LegacyUpdate` |
| Reporter.CheckIfBehindLegacy | reporter.go:189-396 | every path appends exactly one message, and returns the flag and command trace of `LegacySequence` |
| Reporter.LegacyIntegrateTrace | reporter.go:335-391 | the commands are an optional plain stash, checkout, `reset --hard remote/branch` and an optional apply, cut at the first failure |
| Reporter.LegacyIntegrateOrdered | reporter.go:335-391 | integration issues no abort, in order, and a failing command is last and returns false |
| Reporter.LegacyIntegrateHygiene | reporter.go:335-384 | integration stashes iff the status is non-empty, resets after a good checkout, never pulls or pops, and applies iff the stash list is non-empty |
| Reporter.LegacyIntegrateExtends | reporter.go:335-390 | a completed integration extends the report it was given |
| Reporter.LegacyPrependAbort | reporter.go:316-332 | an abort in front of an integration keeps its stash and integration rules |
| Reporter.LegacyUpdateOrdered | reporter.go:280-391 | the update stage keeps the command order, a failing command ending the run |
| Reporter.LegacyUpdateHygiene | reporter.go:280-391 | the update stage keeps the stash and integration rules |
| Reporter.LegacyUpdateExtends | reporter.go:280-390 | a completed update extends the report it was given |
| Reporter.RedHeader | reporter.go:277-278 | the "behind" header begins with the red marker, whatever follows |
| Reporter.LegacySequenceIsProbe | reporter.go:202-209 | once the Git root is known, the run is the probes for its settings |
| Reporter.LegacyProbeReachesUpdate | reporter.go:211-284 | with every probe, the fetch included, passed, a count other than "0" and update set, the run continues into the update stage |
| Reporter.LegacyProbeStops | reporter.go:211-396 | otherwise no command is issued; true iff every probe passed and the count is not "0", with the header alone as message |
| Reporter.LegacyStages | reporter.go:189-396 | a whole run, split at the update stage |
| Reporter.LegacyRunFacts | reporter.go:189-396 | in every run: abort → stash → checkout → reset → apply, a failing command last with false; true only when every probe passed and the count is not "0"; no pull and no pop; stash iff non-empty status; apply iff non-empty stash list |
| Reporter.LegacyFetchStops | reporter.go:219-226 | a failed fetch ends the run with "Error fetching" and its error, before any other probe |
| Reporter.LegacyAbort | reporter.go:307-332 | forcing through a conflict, the abort is chosen by the first unmerged line; an abort that fails ends the run with its error, one that succeeds lets it go on |
| Reporter.ForeignStashApplied | reporter.go:366-384 | for a stash list that never mentions the reporter, check.go skips the pop while the older sequencer applies the stash |
| Reporter.LegacyBehindListedOutdated | reporter.go:272-278 | a run that returns true sends a red message, which the partition lists as outdated |
| Reporter.FetchErrorListedOutdated | reporter.go:223-226 | a failed fetch is listed as outdated |
| Reporter.RunAllAt | reporter.go:684-695 | the message of each selected entry sits at the position given by the number of selected entries before it, and is the message its own run sends |
| Reporter.OneMessagePerRepository | reporter.go:682-695 | exactly one message per selected repository, so the channel sized for every entry never fills |
| Reporter.CheckAll | reporter.go:681-698 | the loop over the entries runs the check for each directory that is a work tree and passes the filter, in entry order |
| Reporter.CheckRepositories | reporter.go:654-698 | a current directory that is a repository is checked alone, when it passes the filter; otherwise every selected sub-directory is |

## Left out

- Process execution: every `exec.Command` run (`getGitRoot`, `getRemoteURL`, `isGitRepository`, `runGitLog`, the GitExecutor wrappers, the inline calls of reporter.go) is an outcome supplied in `Git.Outcomes`. The fetch retry loop inside a run is one optional error there; the loop itself is modelled in `Executor`.
- The `gobreaker` state machine (closed, open, half-open, its interval and timeout) is foreign code. Only its `ReadyToTrip` predicate is modelled, and `cb.Execute` is an admission input (`Admitted`, `Open`, `TooManyRequests`).
- `time.Sleep` and `crypto/rand`: the sleeps are returned as a sequence of milliseconds; each jitter draw is an input that succeeds with a value in [0, 100) or fails.
- Executor.RetryContract: the sleep is computed on unbounded integers. In Go, `time.Millisecond * time.Duration(50*(1<<attempts)+jitter)` overflows `int64` nanoseconds from attempt 38 on, and `50*(1<<attempts)` itself from attempt 58 on. Neither is reached with the 30 attempts of `MaxFetchBranchAttempts`, since a sleep follows only attempts 1 to 29.
- Goroutines, `sync.WaitGroup` and the buffered channel: the runs are sequential and the channel is the sequence of messages, so the order in which concurrent runs deliver is not captured.
- `url.Parse` is replaced by `Executor.UrlPath`, which follows net/url's scheme, authority, query and fragment split for the shapes the parser meets. It refuses an authority as parseAuthority and parseHost do: characters outside validUserinfo in the user info; a host character that is ASCII and neither a letter, a digit nor one of `-._~!$&'()*+,;=:[]<>"%`; a non-numeric port; a bracketed host without its ']'. Percent-escapes are not checked or decoded, in the host, the user info or the path, and the zone and address checks of bracketed IPv6 hosts are not modelled. The locator lemmas require host and segments free of '%'.
- Executor.HttpsPath: it and the locator lemmas built on it (`HttpsLocator`, `SshLocator`, the segment, ".git" and single-segment lemmas) are stated for a `HostName`: no user info, no port, no brackets. Locators that carry these still parse through `UrlPath`, but no lemma states their result.
- YAML decoding (`loadConfig`), the ".rprc" search (`findConfigFile`), `os.Getwd`, `os.ReadDir`, `--help`/`showUsage`, `--log`/`runGitLog` and all printing are I/O. The file's outcome is `Reporter.ConfigFile`, and the directory listing is a sequence of `Reporter.Entry`. `ValidateKeys` sees the keys in the order Go's map iteration visits them, which is an input.
- Reporter.CheckAll: `filepath.Join` is plain concatenation with "/"; the cleaning it does for a root directory "/" is not modelled.
- Reporter.CheckRepositories: the "Error reading current directory" exit and the printed headers are not modelled.
- reporter.go repeats `execCommandWithRetry`, `parseGitRemoteURL`, `errRepoDoesNotExist`, `isIncluded` and `validateKeys` from executor.go and config.go. Each is modelled once, in `Executor` and `Config`.
- Check.CheckIfBehind: the fetch step is a comment only, because as written its outcome does not change the run. `Check.FetchOutcomeIgnored` proves that.
- The body of `checkIfBehind` is split into three methods (`CheckIfBehind`, `UpdateRepository`, `IntegrateChanges`) so that each stays within the prover's budget. The same split is used for the older sequencer. The order of steps and every message are those of the single Go function.

## Findings

| source | as written | input that shows it | evidently intended | confidence | as-written member | corrected member |
|---|---|---|---|---|---|---|
| check.go:34-37 | the fetch guard tests `err`, which is nil at that point, instead of `fErr` | any repository whose fetch fails: the run goes on with stale remote refs and, with a count of "0", reports it up to date | a failed fetch ends the run with "Error fetching", as reporter.go:223-226 does | high; not executed | Check.FetchFailureUnreported | Check.CorrectedFetchStops |
| check.go:93, 98 | `if g.abortRebase()` / `if g.abortMerge()` take the success result (true) as the error | forcing through a conflict whose abort succeeds: the run stops with "Error aborting …", and a failed abort goes on to stash and pull | stop when the abort fails, as reporter.go:321-331 does | high; not executed | Check.AbortResultInverted | Check.CorrectedAbort |
| executor.go:200-222 | the same `*exec.Cmd` is run on every attempt, and os/exec refuses a second `Run` | a fetch whose first attempt fails: every later attempt fails at once, all 30 are used up, and at least 53 687 091 100 ms are slept | start a fresh command for each attempt | high; not executed | Executor.ReusedCommandNeverRecovers | Executor.FreshCommandRecovers |
