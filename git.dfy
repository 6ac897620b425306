/** The git invocations the sequencers issue, seen from outside: what each one
    reports back, and the commands that change the working tree. Both the
    split sequencer (check.go, through the GitExecutor wrappers of
    executor.go) and the older one of reporter.go draw on the same record. */
module Git {
  import opened Wrappers
  import opened Strings
  import Executor
  import Config

  /** The exit of a command run for its effect: success, or the error it returned. */
  datatype Exit = Ok | Failed(msg: string)

  /** What git reports, for one repository, at each step either sequencer can take.
      Outputs are raw (before any trimming); errors are their printed text. */
  datatype Outcomes = Outcomes(
    gitRoot: Result<string, string>,                  // rev-parse --show-toplevel
    remoteURL: Exit,                                  // remote get-url <remote>
    fetch: Option<string>,                            // error returned by the fetch retry loop
    localBranch: Exit,                                // rev-parse --verify <branch>
    remoteBranch: Exit,                               // rev-parse --verify <remote>/<branch>
    revList: Result<string, Executor.RevListError>,   // rev-list --count <branch>..<remote>/<branch>
    log: Result<string, string>,                      // log -1, author, date and subject
    status: Result<string, string>,                   // status --porcelain
    abortRebase: Exit,                                // rebase --abort
    abortMerge: Exit,                                 // merge --abort
    stash: Exit,                                      // stash push -m ..., or plain stash
    checkout: Exit,                                   // checkout <branch>
    pull: Exit,                                       // pull <remote> <branch>
    reset: Exit,                                      // reset --hard <remote>/<branch>
    stashList: string,                                // standard output of stash list
    stashListErr: Option<string>,                     // error of stash list
    pop: Exit)                                        // stash pop, or stash apply

  /** A command that changes the working tree, the index or the stash. */
  datatype Command =
    | AbortRebase
    | AbortMerge
    | StashPush(message: string)    // stash push -m <message>
    | Stash                         // plain stash
    | Checkout(branch: string)
    | Pull(remote: string, branch: string)
    | ResetHard(target: string)
    | StashPop
    | StashApply

  /** How a command in a trace exited. */
  function ExitOf(git: Outcomes, c: Command): Exit {
    match c
    case AbortRebase => git.abortRebase
    case AbortMerge => git.abortMerge
    case StashPush(_) => git.stash
    case Stash => git.stash
    case Checkout(_) => git.checkout
    case Pull(_, _) => git.pull
    case ResetHard(_) => git.reset
    case StashPop => git.pop
    case StashApply => git.pop
  }

  /** The position of a command in the update sequence: abort, stash,
      checkout, integrate, re-apply. */
  function Rank(c: Command): nat {
    match c
    case AbortRebase => 0
    case AbortMerge => 0
    case StashPush(_) => 1
    case Stash => 1
    case Checkout(_) => 2
    case Pull(_, _) => 3
    case ResetHard(_) => 3
    case StashPop => 4
    case StashApply => 4
  }

  /** The commands of a trace come in the order of the update sequence, each step at most once. */
  predicate InOrder(trace: seq<Command>) {
    forall i, j :: 0 <= i < j < |trace| ==> Rank(trace[i]) < Rank(trace[j])
  }

  /** The per-repository settings of the split sequencer (executor.go:17-37). */
  datatype GitExecutor = GitExecutor(
    branch: string,
    update: bool,
    force: bool,
    remoteName: string,
    repoName: string,
    gitRoot: string)

  /** NewGitExecutor: the run's settings for the repository rooted at `gitRoot`. */
  function NewGitExecutor(cfg: Config.Config, gitRoot: string, repoName: string): (g: GitExecutor)
    ensures g.branch == cfg.branch && g.update == cfg.update && g.force == cfg.force
    ensures g.remoteName == cfg.remoteName && g.repoName == repoName && g.gitRoot == gitRoot
  {
    GitExecutor(cfg.branch, cfg.update, cfg.force, cfg.remoteName, repoName, gitRoot)
  }

  /** The root reported by rev-parse, with surrounding white space trimmed (getGitRoot). */
  function GitRoot(raw: string): string {
    TrimSpace(raw)
  }

  /** The lines of the porcelain status: the trimmed output split at line breaks. */
  function StatusLines(raw: string): seq<string> {
    Split(TrimSpace(raw), '\n')
  }
}
