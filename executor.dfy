/** executor.go: the pure decisions the per-repository check relies on
    (status-line conflict classification, pluralisation, the remote-locator
    parser and the "remote may not exist" error), the fetch retry loop with
    exponential backoff and jitter, the breaker's trip predicate and the check
    that the top stash entry was made by the reporter.

    Every external process is abstract: a command's exit, a random draw or a
    looked-up remote locator is an input. */
module Executor {
  import opened Wrappers
  import opened Strings
  import opened Constants

  // ---------------------------------------------------------------------------
  // Conflict classification (executor.go:299-310)
  // ---------------------------------------------------------------------------

  /** A porcelain status line whose two-letter code marks an unmerged path. */
  predicate IsConflictLine(line: string) {
    HasPrefix(line, Unmerged) || HasPrefix(line, MergeConflictBothSides) ||
    HasPrefix(line, UnmergedDeleted) || HasPrefix(line, UnmergedAdded)
  }

  /** Some status line marks an unmerged path. */
  predicate AnyConflictLine(lines: seq<string>) {
    exists k :: 0 <= k < |lines| && IsConflictLine(lines[k])
  }

  /** Some status line reports a path modified on both sides, taken as the sign of a rebase. */
  predicate AnyBothSidesLine(lines: seq<string>) {
    exists k :: 0 <= k < |lines| && HasPrefix(lines[k], MergeConflictBothSides)
  }

  /** Scans every status line (there is no early exit) and reports whether any
      line is unmerged and whether any line is modified on both sides. */
  method HasConflicts(statusLines: seq<string>) returns (isConflict: bool, isRebase: bool)
    ensures isConflict <==> AnyConflictLine(statusLines)
    ensures isRebase <==> AnyBothSidesLine(statusLines)
    ensures isRebase ==> isConflict
  {
    isConflict, isRebase := false, false;
    for i := 0 to |statusLines|
      invariant isConflict <==> AnyConflictLine(statusLines[..i])
      invariant isRebase <==> AnyBothSidesLine(statusLines[..i])
    {
      var line := statusLines[i];
      assert statusLines[..i + 1] == statusLines[..i] + [line];
      if IsConflictLine(line) {
        isConflict := true;
        if HasPrefix(line, "UU") {
          isRebase := true;
        }
      }
    }
    assert statusLines[..|statusLines|] == statusLines;
  }

  // ---------------------------------------------------------------------------
  // Pluralisation (executor.go:313-318)
  // ---------------------------------------------------------------------------

  /** "commit" for a behind count of exactly "1", "commits" for any other text. */
  function CommitText(behindCount: string): (r: string)
    ensures r == "commit" <==> behindCount == "1"
    ensures r == "commits" <==> behindCount != "1"
  {
    if behindCount == "1" then "commit" else "commits"
  }

  // ---------------------------------------------------------------------------
  // Remote locators (executor.go:249-296)
  // ---------------------------------------------------------------------------

  /** The owner and repository named by a remote locator. */
  datatype Remote = Remote(user: string, repo: string)

  /** Why no owner/repository could be named, or the message naming them. */
  datatype RemoteError =
    | LookupFailed(msg: string)           // the error of looking the locator up, passed through
    | InvalidURL(url: string)             // the URL parser refused the (normalised) locator
    | InvalidPath(path: string)           // the path has fewer than two segments
    | RepoMissing(user: string, repo: string)
  {
    function Message(): string {
      match this
      case LookupFailed(msg) => msg
      case InvalidURL(url) => "invalid URL: " + url
      case InvalidPath(path) => "invalid URL path: " + path
      case RepoMissing(user, repo) =>
        "The remote repository " + user + "/" + repo + " may not exist or was deleted."
    }
  }

  /** ASCII control characters, which net/url refuses anywhere before the fragment. */
  predicate IsControl(ch: char) {
    ch < ' ' || ch == '\U{7f}'
  }

  /** net/url's getScheme, scanning from position `i`: the scheme and the rest
      when a scheme ends in ':', no scheme when a character that cannot start or
      continue one comes first, and None for a ':' in first position. */
  function GetScheme(s: string, i: nat): Option<(string, string)>
    requires i <= |s|
    decreases |s| - i
  {
    if i == |s| then Some(("", s))
    else
      var ch := s[i];
      if 'a' <= ch <= 'z' || 'A' <= ch <= 'Z' then GetScheme(s, i + 1)
      else if '0' <= ch <= '9' || ch == '+' || ch == '-' || ch == '.' then
        if i == 0 then Some(("", s)) else GetScheme(s, i + 1)
      else if ch == ':' then
        if i == 0 then None else Some((s[..i], s[i + 1..]))
      else Some(("", s))
  }

  /** Without a ':' there is no scheme. */
  lemma {:induction false} NoColonNoScheme(s: string, i: nat)
    requires i <= |s| && ':' !in s[i..]
    ensures GetScheme(s, i) == Some(("", s))
    decreases |s| - i
  {
    if i < |s| {
      assert s[i] == s[i..][0];
      assert s[i + 1..] == s[i..][1..];
      NoColonNoScheme(s, i + 1);
    }
  }

  /** "https:" opens a locator with scheme "https". */
  lemma HttpsScheme(rest: string)
    ensures GetScheme("https:" + rest, 0) == Some(("https", rest))
  {
    var s := "https:" + rest;
    assert s[0] == 'h' && s[1] == 't' && s[2] == 't' && s[3] == 'p' && s[4] == 's' && s[5] == ':';
    assert s[..5] == "https" && s[6..] == rest;
    assert GetScheme(s, 5) == Some(("https", rest));
    assert GetScheme(s, 4) == GetScheme(s, 5);
    assert GetScheme(s, 3) == GetScheme(s, 4);
    assert GetScheme(s, 2) == GetScheme(s, 3);
    assert GetScheme(s, 1) == GetScheme(s, 2);
  }

  /** The characters net/url's host parsing lets through: letters, digits,
      the unreserved marks, the sub-delimiters, ':', '[', ']', '<', '>', '"',
      '%' (whose escapes are not checked here) and every non-ASCII character. */
  predicate HostChar(ch: char) {
    || 'a' <= ch <= 'z' || 'A' <= ch <= 'Z' || '0' <= ch <= '9'
    || ch in "-._~!$&'()*+,;=:[]<>\"%"
    || ch >= '\U{80}'
  }

  /** The characters net/url's validUserinfo accepts. */
  predicate UserinfoChar(ch: char) {
    || 'a' <= ch <= 'z' || 'A' <= ch <= 'Z' || '0' <= ch <= '9'
    || ch in "-._:~!$&'()*+,;=%@"
  }

  predicate Digits(s: string) {
    forall k :: 0 <= k < |s| ==> '0' <= s[k] <= '9'
  }

  /** net/url's parseHost: a bracketed host needs its closing ']' and at most
      ":digits" after it; any other host needs only digits after its last ':';
      every character must be one a host may hold. */
  predicate ValidHost(host: string) {
    && (if HasPrefix(host, "[") then
          var after := AfterLast(host, ']');
          ']' in host && (after == [] || (after[0] == ':' && Digits(after[1..])))
        else ':' in host ==> Digits(AfterLast(host, ':')))
    && forall k :: 0 <= k < |host| ==> HostChar(host[k])
  }

  /** net/url's parseAuthority: the host follows the last '@' and must be
      valid; the user info before that '@' must hold only the characters
      validUserinfo accepts. */
  predicate ValidAuthority(authority: string) {
    var host := AfterLast(authority, '@');
    && ValidHost(host)
    && forall k :: 0 <= k < |authority| - |host| - 1 ==> UserinfoChar(authority[k])
  }

  /** The path that net/url.Parse extracts from a locator, or None where it
      reports an error: a control character, a leading ':' (missing scheme), a
      colon in the first segment of a scheme-less relative path, or a
      "//authority" part that parseAuthority refuses. The fragment and query
      are cut off, an opaque "scheme:rest" locator has an empty path, and an
      accepted authority is skipped up to its first '/'. */
  function UrlPath(raw: string): Option<string> {
    var u := Before(raw, '#');
    if exists k :: 0 <= k < |u| && IsControl(u[k]) then None
    else
      match GetScheme(u, 0)
      case None => None
      case Some((scheme, rest0)) =>
        var rest := Before(rest0, '?');
        if !HasPrefix(rest, "/") && scheme != "" then Some("")
        else if !HasPrefix(rest, "/") && ':' in Before(rest, '/') then None
        else if (scheme != "" || !HasPrefix(rest, "///")) && HasPrefix(rest, "//") then
          var authority := rest[2..];
          var end := IndexOf(authority, '/');
          if ValidAuthority(authority[..end]) then Some(authority[end..]) else None
        else Some(rest)
  }

  /** The rewrite of an scp-like "git@host:owner/repo" locator into
      "https://host/owner/repo": the first ':' becomes '/', then the leading
      "git@" (the first occurrence, the colon rewrite never touches it)
      becomes "https://". */
  function Normalize(remoteURL: string): string {
    if HasPrefix(remoteURL, "git@") then
      var s := ReplaceFirst(remoteURL, ':', '/');
      "https://" + s[4..]
    else remoteURL
  }

  /** The parse of a normalised locator: the owner is the second-to-last path
      segment and the repository the last one, less one trailing ".git". */
  function ParseNormalized(normalized: string): (r: Result<Remote, RemoteError>)
    ensures UrlPath(normalized).None? ==> r == Failure(InvalidURL(normalized))
    ensures UrlPath(normalized).Some? ==>
              var path := UrlPath(normalized).value;
              (r.Success? <==> '/' in Trim(path, {'/'})) &&
              (r.Failure? ==> r.error == InvalidPath(path))
    ensures r.Success? ==> '/' !in r.value.user && '/' !in r.value.repo
  {
    match UrlPath(normalized)
    case None => Failure(InvalidURL(normalized))
    case Some(path) =>
      var parts := Split(Trim(path, {'/'}), '/');
      if |parts| < 2 then Failure(InvalidPath(path))
      else
        var last := parts[|parts| - 1];
        var repo := TrimSuffix(last, ".git");
        assert forall ch :: ch in repo ==> ch in last by {
          assert HasSuffix(last, ".git") ==> repo + ".git" == last;
        }
        Success(Remote(parts[|parts| - 2], repo))
  }

  /** parseGitRemoteURL: the locator is normalised, then parsed. */
  function ParseGitRemoteURL(remoteURL: string): (r: Result<Remote, RemoteError>)
    ensures UrlPath(Normalize(remoteURL)).None? ==> r == Failure(InvalidURL(Normalize(remoteURL)))
    ensures UrlPath(Normalize(remoteURL)).Some? ==>
              var path := UrlPath(Normalize(remoteURL)).value;
              (r.Success? <==> '/' in Trim(path, {'/'})) &&
              (r.Failure? ==> r.error == InvalidPath(path))
    ensures r.Success? ==> '/' !in r.value.user && '/' !in r.value.repo
  {
    ParseNormalized(Normalize(remoteURL))
  }

  /** Free of what ends the path part of a locator ('?', '#') and of what net/url refuses. */
  predicate Clean(x: string) {
    forall k :: 0 <= k < |x| ==> x[k] != '?' && x[k] != '#' && !IsControl(x[k])
  }

  lemma CleanConcat(a: string, b: string)
    requires Clean(a) && Clean(b)
    ensures Clean(a + b)
  {
    forall k | 0 <= k < |a + b|
      ensures (a + b)[k] != '?' && (a + b)[k] != '#' && !IsControl((a + b)[k])
    {
      if k >= |a| {
        assert (a + b)[k] == b[k - |a|];
      }
    }
  }

  /** A locator segment: clean, free of separators and of percent-escapes
      (which net/url decodes or refuses). */
  predicate Plain(x: string) {
    Clean(x) && '/' !in x && ':' !in x && '%' !in x
  }

  /** A host name of the locator lemmas: plain, not a bracketed literal, and
      made only of characters a host may hold (so without user info). */
  predicate HostName(x: string) {
    Plain(x) && !HasPrefix(x, "[") && forall k :: 0 <= k < |x| ==> HostChar(x[k])
  }

  /** A clean locator with a scheme and an authority has the path that
      follows the authority, when parseAuthority accepts it, and none otherwise. */
  lemma AuthorityPath(raw: string, scheme: string, rest: string)
    requires Clean(raw) && Clean(rest)
    requires GetScheme(raw, 0) == Some((scheme, rest)) && scheme != []
    requires HasPrefix(rest, "//")
    ensures var authority := rest[2..];
            var end := IndexOf(authority, '/');
            UrlPath(raw) == if ValidAuthority(authority[..end]) then Some(authority[end..]) else None
  {
    assert '#' !in raw by {
      forall k | 0 <= k < |raw| ensures raw[k] != '#' { }
    }
    assert Before(raw, '#') == raw;
    assert '?' !in rest by {
      forall k | 0 <= k < |rest| ensures rest[k] != '?' { }
    }
    assert Before(rest, '?') == rest;
    assert HasPrefix(rest, "/") by { assert rest[..1] == rest[..2][..1]; }
  }

  /** "//host" + path is clean when host and path are. */
  lemma AuthorityClean(host: string, path: string)
    requires Plain(host) && Clean(path)
    ensures Clean("//" + host + path)
  {
    assert Clean("//");
    CleanConcat("//", host);
    CleanConcat("//" + host, path);
  }

  /** In host + path, the first '/' opens the path. */
  lemma FirstSlashAfterHost(host: string, path: string)
    requires '/' !in host && HasPrefix(path, "/")
    ensures IndexOf(host + path, '/') == |host|
    ensures (host + path)[..|host|] == host && (host + path)[|host|..] == path
  {
    IndexOfAfter(host, path, '/');
    assert path[0] == '/';
    assert IndexOf(path, '/') == 0;
  }

  /** A host name is an authority net/url accepts. */
  lemma HostAuthority(host: string)
    requires HostName(host)
    ensures ValidAuthority(host)
  {
    assert '@' !in host by {
      forall k | 0 <= k < |host| ensures host[k] != '@' {
        assert HostChar(host[k]);
      }
    }
    AfterLastAbsent(host, '@');
  }

  /** The authority "https://host" + path carries: the host. */
  lemma HttpsAuthority(host: string, path: string)
    requires Plain(host) && Clean(path) && HasPrefix(path, "/")
    ensures var rest := "//" + host + path;
            && Clean("https:" + rest) && Clean(rest) && HasPrefix(rest, "//")
            && "https://" + host + path == "https:" + rest
            && GetScheme("https:" + rest, 0) == Some(("https", rest))
            && rest[2..] == host + path
  {
    var rest := "//" + host + path;
    AuthorityClean(host, path);
    assert Clean("https:");
    CleanConcat("https:", rest);
    HttpsScheme(rest);
    assert rest[..2] == "//";
  }

  /** The path of "https://host" + path is that path. */
  lemma HttpsPath(host: string, path: string)
    requires HostName(host) && Clean(path) && HasPrefix(path, "/")
    ensures UrlPath("https://" + host + path) == Some(path)
  {
    var rest := "//" + host + path;
    HttpsAuthority(host, path);
    AuthorityPath("https:" + rest, "https", rest);
    FirstSlashAfterHost(host, path);
    HostAuthority(host);
  }

  /** A host holding a character net/url refuses in a host makes the locator
      unparsable: "invalid URL", whatever the path. */
  lemma RefusedHostRejected(host: string, path: string, ch: char)
    requires Plain(host) && '@' !in host && !HasPrefix(host, "[") && Clean(path) && HasPrefix(path, "/")
    requires ch in host && !HostChar(ch)
    ensures ParseGitRemoteURL("https://" + host + path) == Failure(InvalidURL("https://" + host + path))
  {
    var rest := "//" + host + path;
    HttpsAuthority(host, path);
    AuthorityPath("https:" + rest, "https", rest);
    FirstSlashAfterHost(host, path);
    AfterLastAbsent(host, '@');
    assert !ValidHost(host) by {
      var k :| 0 <= k < |host| && host[k] == ch;
      assert !HostChar(host[k]);
    }
    HttpsNormal(host, path);
  }

  /** An scp-like locator normalises to the https locator of the same host and path. */
  lemma SshNormalizes(host: string, path: string)
    requires Plain(host)
    ensures Normalize("git@" + host + ":" + path) == "https://" + host + "/" + path
  {
    var prefix := "git@" + host;
    assert ':' !in prefix by {
      assert ':' !in "git@";
    }
    var raw := "git@" + host + ":" + path;
    assert raw == prefix + [':'] + path;
    assert HasPrefix(raw, "git@") by {
      assert raw[..4] == "git@";
    }
    ReplaceFirstAfter(prefix, path, ':', '/');
    var s := ReplaceFirst(raw, ':', '/');
    assert s == prefix + ['/'] + path;
    assert s[4..] == host + "/" + path;
    assert Normalize(raw) == "https://" + s[4..];
  }
  /** "git@host:rest" with a refused host character is refused the same way,
      the error naming the https form it was rewritten to. */
  lemma SshRefusedHostRejected(host: string, rest: string, ch: char)
    requires Plain(host) && '@' !in host && !HasPrefix(host, "[") && Clean("/" + rest)
    requires ch in host && !HostChar(ch)
    ensures ParseGitRemoteURL("git@" + host + ":" + rest)
            == Failure(InvalidURL("https://" + host + "/" + rest))
  {
    var https := "https://" + host + "/" + rest;
    SshNormalizes(host, rest);
    HttpsSpelling(host, rest);
    HttpsNormal(host, "/" + rest);
    SameNormalForm("git@" + host + ":" + rest, https);
    assert ("/" + rest)[..1] == "/";
    RefusedHostRejected(host, "/" + rest, ch);
  }


  /** Trimming the slashes off "/owner/repo" leaves "owner/repo". */
  lemma TrimSlashPath(user: string, repo: string)
    requires user != [] && repo != [] && user[0] != '/' && repo[|repo| - 1] != '/'
    ensures Trim("/" + user + "/" + repo, {'/'}) == user + "/" + repo
  {
    var inner := user + "/" + repo;
    var path := "/" + user + "/" + repo;
    assert path == "/" + inner;
    assert path[1..] == inner;
    assert TrimLeft(path, {'/'}) == TrimLeft(inner, {'/'});
    assert inner[0] == user[0];
    assert TrimLeft(inner, {'/'}) == inner;
    assert inner[|inner| - 1] == repo[|repo| - 1];
    assert TrimRight(inner, {'/'}) == inner;
  }

  /** Trimming and splitting "/owner/repo" gives owner and repo. */
  lemma SlashPathParts(user: string, repo: string)
    requires '/' !in user && '/' !in repo && user != [] && repo != []
    ensures Split(Trim("/" + user + "/" + repo, {'/'}), '/') == [user, repo]
  {
    assert user[0] in user && repo[|repo| - 1] in repo;
    TrimSlashPath(user, repo);
    SplitAfter(user, repo, '/');
    assert user + "/" + repo == user + ['/'] + repo;
  }

  /** The parse of a normalised locator whose path splits into at least two segments. */
  lemma NormalizedSegments(normalized: string, path: string, prefix: seq<string>, user: string, repo: string)
    requires UrlPath(normalized) == Some(path)
    requires Split(Trim(path, {'/'}), '/') == prefix + [user, repo]
    ensures ParseNormalized(normalized) == Success(Remote(user, TrimSuffix(repo, ".git")))
  {
    var parts := prefix + [user, repo];
    assert parts[|parts| - 2] == user && parts[|parts| - 1] == repo;
  }

  /** Parsing a locator whose path splits into at least two segments: the
      owner and the repository are the last two, whatever comes before. */
  lemma ParseOfSegments(remoteURL: string, path: string, prefix: seq<string>, user: string, repo: string)
    requires UrlPath(Normalize(remoteURL)) == Some(path)
    requires Split(Trim(path, {'/'}), '/') == prefix + [user, repo]
    ensures ParseGitRemoteURL(remoteURL) == Success(Remote(user, TrimSuffix(repo, ".git")))
  {
    NormalizedSegments(Normalize(remoteURL), path, prefix, user, repo);
  }




  /** "/owner/repo" is a clean path. */
  lemma SlashPathClean(user: string, repo: string)
    requires Clean(user) && Clean(repo)
    ensures Clean("/" + user + "/" + repo) && HasPrefix("/" + user + "/" + repo, "/")
  {
    assert Clean("/");
    CleanConcat("/", user);
    CleanConcat("/" + user, "/");
    CleanConcat("/" + user + "/", repo);
    assert ("/" + user + "/" + repo)[..1] == "/";
  }

  /** Concatenation regrouped: the path of "https://host/owner/repo" is "/owner/repo". */
  lemma PairSpelling(host: string, user: string, repo: string)
    ensures "https://" + host + "/" + user + "/" + repo == "https://" + host + ("/" + user + "/" + repo)
  {
  }

  /** "https://host/owner/repo[.git]" names owner and repo, less one trailing ".git". */
  lemma HttpsLocator(host: string, user: string, repo: string)
    requires HostName(host) && Plain(user) && Plain(repo) && user != [] && repo != []
    ensures ParseGitRemoteURL("https://" + host + "/" + user + "/" + repo)
            == Success(Remote(user, TrimSuffix(repo, ".git")))
  {
    var path := "/" + user + "/" + repo;
    SlashPathClean(user, repo);
    SlashPathParts(user, repo);
    assert [user, repo] == [] + [user, repo];
    HttpsPathSegments(host, path, [], user, repo);
    PairSpelling(host, user, repo);
  }

  /** The parser reads a locator only through its normal form. */
  lemma SameNormalForm(a: string, b: string)
    requires Normalize(a) == Normalize(b)
    ensures ParseGitRemoteURL(a) == ParseGitRemoteURL(b)
  {
  }

  /** An scp-like locator normalises to the https locator with the same owner and repo. */
  lemma SshNormalForm(host: string, user: string, repo: string)
    requires Plain(host)
    ensures Normalize("git@" + host + ":" + user + "/" + repo) == "https://" + host + "/" + user + "/" + repo
  {
    var path := user + "/" + repo;
    var ssh := "git@" + host + ":" + user + "/" + repo;
    assert ssh == "git@" + host + ":" + path;
    SshNormalizes(host, path);
    assert "https://" + host + "/" + path == "https://" + host + "/" + user + "/" + repo;
  }

  /** "git@host:owner/repo[.git]" names the same owner and repo as its https form. */
  lemma {:induction false} SshLocator(host: string, user: string, repo: string)
    requires HostName(host) && Plain(user) && Plain(repo) && user != [] && repo != []
    ensures ParseGitRemoteURL("git@" + host + ":" + user + "/" + repo)
            == ParseGitRemoteURL("https://" + host + "/" + user + "/" + repo)
    ensures ParseGitRemoteURL("git@" + host + ":" + user + "/" + repo)
            == Success(Remote(user, TrimSuffix(repo, ".git")))
  {
    var https := "https://" + host + "/" + user + "/" + repo;
    SshNormalForm(host, user, repo);
    assert Normalize(https) == https by {
      assert https[..4] != "git@" by { assert https[0] == 'h'; }
    }
    HttpsLocator(host, user, repo);
  }

  /** Path segments of a locator: each plain and non-empty. */
  predicate Segments(segs: seq<string>) {
    forall k :: 0 <= k < |segs| ==> Plain(segs[k]) && segs[k] != []
  }

  /** The segments joined with '/' form a clean text. */
  lemma {:induction false} JoinClean(segs: seq<string>)
    requires |segs| >= 1 && Segments(segs)
    ensures Clean(Join(segs, '/'))
    decreases |segs|
  {
    if |segs| > 1 {
      var rest := segs[1..];
      assert Segments(rest) by {
        forall k | 0 <= k < |rest| ensures Plain(rest[k]) && rest[k] != [] { assert rest[k] == segs[k + 1]; }
      }
      JoinClean(rest);
      assert Clean("/");
      CleanConcat(segs[0], "/");
      CleanConcat(segs[0] + "/", Join(rest, '/'));
      assert Join(segs, '/') == segs[0] + "/" + Join(rest, '/');
    }
  }

  /** "/" followed by the joined segments is a clean path, which trims to the
      joined segments and splits back into them. */
  lemma SegmentsPath(segs: seq<string>)
    requires |segs| >= 1 && Segments(segs)
    ensures Clean("/" + Join(segs, '/')) && HasPrefix("/" + Join(segs, '/'), "/")
    ensures Split(Trim("/" + Join(segs, '/'), {'/'}), '/') == segs
  {
    var j := Join(segs, '/');
    var path := "/" + j;
    JoinClean(segs);
    assert Clean("/");
    CleanConcat("/", j);
    assert path[..1] == "/";
    JoinEnds(segs, '/');
    var first, last := segs[0], segs[|segs| - 1];
    assert first[0] in first && last[|last| - 1] in last;
    assert path[1..] == j;
    assert TrimLeft(path, {'/'}) == TrimLeft(j, {'/'});
    assert TrimLeft(j, {'/'}) == j;
    assert TrimRight(j, {'/'}) == j;
    assert Trim(path, {'/'}) == j;
    SplitJoin(segs, '/');
  }

  /** An https locator whose path splits into at least two segments. */
  lemma HttpsPathSegments(host: string, path: string, prefix: seq<string>, user: string, repo: string)
    requires HostName(host) && Clean(path) && HasPrefix(path, "/")
    requires Split(Trim(path, {'/'}), '/') == prefix + [user, repo]
    ensures ParseGitRemoteURL("https://" + host + path) == Success(Remote(user, TrimSuffix(repo, ".git")))
  {
    HttpsPath(host, path);
    HttpsNormal(host, path);
    ParseOfSegments("https://" + host + path, path, prefix, user, repo);
  }

  /** Concatenation regrouped: the path of an https locator is "/" + rest. */
  lemma HttpsSpelling(host: string, rest: string)
    ensures "https://" + host + "/" + rest == "https://" + host + ("/" + rest)
  {
  }

  /** The same, with the path spelled "/" + rest. */
  lemma HttpsRestSegments(host: string, rest: string, prefix: seq<string>, user: string, repo: string)
    requires HostName(host) && Clean("/" + rest) && HasPrefix("/" + rest, "/")
    requires Split(Trim("/" + rest, {'/'}), '/') == prefix + [user, repo]
    ensures ParseGitRemoteURL("https://" + host + "/" + rest) == Success(Remote(user, TrimSuffix(repo, ".git")))
  {
    HttpsSpelling(host, rest);
    HttpsPathSegments(host, "/" + rest, prefix, user, repo);
  }

  /** "https://host/g1/.../gk/owner/repo" names the last two segments: the
      owner and the repository, less one trailing ".git"; the groups before
      them, any number of them, are skipped. */
  lemma HttpsSegmentsLocator(host: string, groups: seq<string>, user: string, repo: string)
    requires HostName(host) && Segments(groups + [user, repo])
    ensures ParseGitRemoteURL("https://" + host + "/" + Join(groups + [user, repo], '/'))
            == Success(Remote(user, TrimSuffix(repo, ".git")))
  {
    SegmentsPath(groups + [user, repo]);
    HttpsRestSegments(host, Join(groups + [user, repo], '/'), groups, user, repo);
  }

  /** "git@host:g1/.../gk/owner/repo" names the same owner and repository as its https form. */
  lemma SshSegmentsLocator(host: string, groups: seq<string>, user: string, repo: string)
    requires HostName(host) && Segments(groups + [user, repo])
    ensures ParseGitRemoteURL("git@" + host + ":" + Join(groups + [user, repo], '/'))
            == Success(Remote(user, TrimSuffix(repo, ".git")))
  {
    var j := Join(groups + [user, repo], '/');
    var https := "https://" + host + "/" + j;
    SshNormalizes(host, j);
    assert Normalize(https) == https by {
      assert https[..4] != "git@" by { assert https[0] == 'h'; }
    }
    SameNormalForm("git@" + host + ":" + j, https);
    HttpsSegmentsLocator(host, groups, user, repo);
  }

  lemma NestedGroupSegments()
    ensures HostName("gitlab.com") && Segments(["group", "sub", "repo.git"])
    ensures TrimSuffix("repo.git", ".git") == "repo"
  {
    LowerPlain("gitlab.com");
    LowerPlain("group");
    LowerPlain("sub");
    LowerPlain("repo.git");
    assert "repo.git"[4..] == ".git";
  }

  lemma NestedGroupJoined()
    ensures Join(["group", "sub", "repo.git"], '/') == "group/sub/repo.git"
  {
    var segs := ["group", "sub", "repo.git"];
    assert Join(segs[1..][1..], '/') == "repo.git" by { assert segs[1..][1..] == ["repo.git"]; }
    assert Join(segs[1..], '/') == "sub/repo.git" by { assert segs[1..] == ["sub", "repo.git"]; }
  }

  lemma NestedGroupSpelled()
    ensures "https://gitlab.com/group/sub/repo.git" == "https://" + "gitlab.com" + "/" + Join(["group", "sub", "repo.git"], '/')
  {
    NestedGroupJoined();
  }

  lemma NestedGroupRow()
    ensures ParseGitRemoteURL("https://gitlab.com/group/sub/repo.git") == Success(Remote("sub", "repo"))
  {
    NestedGroupSegments();
    NestedGroupSpelled();
    assert ["group", "sub", "repo.git"] == ["group"] + ["sub", "repo.git"];
    HttpsSegmentsLocator("gitlab.com", ["group"], "sub", "repo.git");
  }

  /** A segment with ".git" appended is still a segment. */
  lemma PlainWithGit(repo: string)
    requires Plain(repo)
    ensures Plain(repo + ".git")
  {
    assert Clean(".git");
    CleanConcat(repo, ".git");
    assert '/' !in repo + ".git" && ':' !in repo + ".git" && '%' !in repo + ".git";
  }

  /** The repository name is the same with or without a ".git" suffix. */
  lemma {:induction false} GitSuffixOptional(host: string, user: string, repo: string)
    requires HostName(host) && Plain(user) && Plain(repo) && user != [] && repo != []
    requires !HasSuffix(repo, ".git")
    ensures ParseGitRemoteURL("https://" + host + "/" + user + "/" + repo + ".git")
            == ParseGitRemoteURL("https://" + host + "/" + user + "/" + repo)
  {
    var repoGit := repo + ".git";
    PlainWithGit(repo);
    assert "https://" + host + "/" + user + "/" + repo + ".git"
        == "https://" + host + "/" + user + "/" + repoGit;
    HttpsLocator(host, user, repoGit);
    HttpsLocator(host, user, repo);
    assert repoGit[|repoGit| - 4..] == ".git";
    assert TrimSuffix(repoGit, ".git") == repo;
  }

  /** A scheme-less locator with no separator, such as "invalid_url", is a one-segment path. */
  lemma {:induction false} BareWordRejected(word: string)
    requires Plain(word) && word != []
    requires !HasPrefix(word, "git@")
    ensures ParseGitRemoteURL(word) == Failure(InvalidPath(word))
  {
    assert '#' !in word by {
      forall k | 0 <= k < |word| ensures word[k] != '#' { }
    }
    assert '?' !in word by {
      forall k | 0 <= k < |word| ensures word[k] != '?' { }
    }
    assert Before(word, '#') == word;
    assert word[0..] == word;
    NoColonNoScheme(word, 0);
    assert Before(word, '?') == word;
    assert Before(word, '/') == word;
    assert !HasPrefix(word, "/") by { assert word[0] in word; }
    assert UrlPath(word) == Some(word);
    assert Trim(word, {'/'}) == word;
  }

  /** Parsing a locator whose path has a single segment. */
  lemma ParseOfOneSegment(remoteURL: string, path: string)
    requires UrlPath(Normalize(remoteURL)) == Some(path)
    requires '/' !in Trim(path, {'/'})
    ensures ParseGitRemoteURL(remoteURL) == Failure(InvalidPath(path))
  {
  }

  /** "/owner" is a clean path that trims to "owner". */
  lemma SlashSegment(user: string)
    requires Plain(user) && user != []
    ensures Clean("/" + user) && HasPrefix("/" + user, "/")
    ensures Trim("/" + user, {'/'}) == user
  {
    var path := "/" + user;
    assert Clean("/");
    CleanConcat("/", user);
    assert path[..1] == "/";
    assert path[1..] == user;
    assert TrimLeft(path, {'/'}) == TrimLeft(user, {'/'});
  }

  /** An https locator is its own normal form. */
  lemma HttpsNormal(host: string, path: string)
    ensures Normalize("https://" + host + path) == "https://" + host + path
  {
    var raw := "https://" + host + path;
    assert !HasPrefix(raw, "git@") by { assert raw[0] == 'h'; }
  }

  /** The path of "https://host/owner" is "/owner". */
  lemma OwnerOnlyPath(host: string, user: string)
    requires HostName(host) && Plain(user) && user != []
    ensures UrlPath(Normalize("https://" + host + "/" + user)) == Some("/" + user)
  {
    var path := "/" + user;
    SlashSegment(user);
    HttpsPath(host, path);
    HttpsNormal(host, path);
    assert "https://" + host + "/" + user == "https://" + host + path;
  }

  /** "https://host/owner", with a single path segment, is refused. */
  lemma {:induction false} SingleSegmentRejected(host: string, user: string)
    requires HostName(host) && Plain(user) && user != []
    ensures ParseGitRemoteURL("https://" + host + "/" + user) == Failure(InvalidPath("/" + user))
  {
    OwnerOnlyPath(host, user);
    SlashSegment(user);
    ParseOfOneSegment("https://" + host + "/" + user, "/" + user);
  }

  /** "https://host/owner/name.git" names owner and name. */
  lemma HttpsGitLocator(url: string, host: string, user: string, name: string)
    requires HostName(host) && Plain(user) && Plain(name) && user != [] && name != []
    requires url == "https://" + host + "/" + user + "/" + name + ".git"
    ensures ParseGitRemoteURL(url) == Success(Remote(user, name))
  {
    var repo := name + ".git";
    PlainWithGit(name);
    assert url == "https://" + host + "/" + user + "/" + repo;
    HttpsLocator(host, user, repo);
    assert repo[|repo| - 4..] == ".git";
    assert TrimSuffix(repo, ".git") == name;
  }

  /** "git@host:owner/name.git" names owner and name. */
  lemma SshGitLocator(url: string, host: string, user: string, name: string)
    requires HostName(host) && Plain(user) && Plain(name) && user != [] && name != []
    requires url == "git@" + host + ":" + user + "/" + name + ".git"
    ensures ParseGitRemoteURL(url) == Success(Remote(user, name))
  {
    var repo := name + ".git";
    PlainWithGit(name);
    assert url == "git@" + host + ":" + user + "/" + repo;
    SshLocator(host, user, repo);
    assert repo[|repo| - 4..] == ".git";
    assert TrimSuffix(repo, ".git") == name;
  }

  /** "https://host/owner/repo", without ".git", names owner and repo. */
  lemma HttpsPlainLocator(url: string, host: string, user: string, repo: string)
    requires HostName(host) && Plain(user) && Plain(repo) && user != [] && repo != []
    requires !HasSuffix(repo, ".git")
    requires url == "https://" + host + "/" + user + "/" + repo
    ensures ParseGitRemoteURL(url) == Success(Remote(user, repo))
  {
    HttpsLocator(host, user, repo);
  }

  /** Lower-case letters and dots make a plain segment and a host name. */
  lemma LowerPlain(x: string)
    requires forall k :: 0 <= k < |x| ==> 'a' <= x[k] <= 'z' || x[k] == '.'
    ensures Plain(x) && HostName(x)
  {
    assert !HasPrefix(x, "[") by {
      if |x| > 0 {
        assert x[..1][0] == x[0];
      }
    }
  }

  /** Lower-case letters, dots and spaces make a plain text without '@' or a leading '['. */
  lemma LowerSpacedPlain(x: string)
    requires forall k :: 0 <= k < |x| ==> 'a' <= x[k] <= 'z' || x[k] == '.' || x[k] == ' '
    ensures Plain(x) && '@' !in x && !HasPrefix(x, "[")
  {
    assert !HasPrefix(x, "[") by {
      if |x| > 0 {
        assert x[..1][0] == x[0];
      }
    }
  }

  /** The literal facts about "git hub.com" and "/u/r". */
  lemma SpacedHostFacts()
    ensures Plain("git hub.com") && '@' !in "git hub.com" && !HasPrefix("git hub.com", "[")
    ensures ' ' in "git hub.com" && !HostChar(' ')
    ensures Clean("/u/r") && HasPrefix("/u/r", "/")
  {
    LowerSpacedPlain("git hub.com");
    assert "git hub.com"[3] == ' ';
    assert "/u/r"[..1] == "/";
  }

  lemma SpacedHostSpelled()
    ensures "https://git hub.com/u/r" == "https://" + "git hub.com" + "/u/r"
  {
  }

  /** A space in the host, as in "https://git hub.com/u/r", is refused with "invalid URL". */
  lemma SpacedHostRow()
    ensures ParseGitRemoteURL("https://git hub.com/u/r") == Failure(InvalidURL("https://git hub.com/u/r"))
  {
    SpacedHostFacts();
    SpacedHostSpelled();
    RefusedHostRejected("git hub.com", "/u/r", ' ');
  }

  /** The segments of the test table are plain, and its hosts are host names. */
  lemma TestSegmentsPlain()
    ensures HostName("github.com") && HostName("gitlab.com") && Plain("user") && Plain("repo")
    ensures !HasSuffix("repo", ".git")
  {
    LowerPlain("github.com");
    LowerPlain("gitlab.com");
    LowerPlain("user");
    LowerPlain("repo");
  }

  // The locators of the test table, spelled as their parts.

  lemma GithubHttpsGitSpelled()
    ensures "https://github.com/user/repo.git" == "https://" + "github.com" + "/" + "user" + "/" + "repo" + ".git"
  {
  }

  lemma GithubSshSpelled()
    ensures "git@github.com:user/repo.git" == "git@" + "github.com" + ":" + "user" + "/" + "repo" + ".git"
  {
  }

  lemma GithubHttpsSpelled()
    ensures "https://github.com/user/repo" == "https://" + "github.com" + "/" + "user" + "/" + "repo"
  {
  }

  lemma GitlabHttpsGitSpelled()
    ensures "https://gitlab.com/user/repo.git" == "https://" + "gitlab.com" + "/" + "user" + "/" + "repo" + ".git"
  {
  }

  lemma GitlabSshSpelled()
    ensures "git@gitlab.com:user/repo.git" == "git@" + "gitlab.com" + ":" + "user" + "/" + "repo" + ".git"
  {
  }

  lemma OwnerOnlySpelled()
    ensures "https://github.com/user" == "https://" + "github.com" + "/" + "user"
    ensures "/user" == "/" + "user"
  {
  }

  lemma GithubHttpsGitRow()
    ensures ParseGitRemoteURL("https://github.com/user/repo.git") == Success(Remote("user", "repo"))
  {
    TestSegmentsPlain();
    GithubHttpsGitSpelled();
    HttpsGitLocator("https://github.com/user/repo.git", "github.com", "user", "repo");
  }

  lemma GithubSshRow()
    ensures ParseGitRemoteURL("git@github.com:user/repo.git") == Success(Remote("user", "repo"))
  {
    TestSegmentsPlain();
    GithubSshSpelled();
    SshGitLocator("git@github.com:user/repo.git", "github.com", "user", "repo");
  }

  lemma GithubHttpsRow()
    ensures ParseGitRemoteURL("https://github.com/user/repo") == Success(Remote("user", "repo"))
  {
    TestSegmentsPlain();
    GithubHttpsSpelled();
    HttpsPlainLocator("https://github.com/user/repo", "github.com", "user", "repo");
  }

  lemma GitlabHttpsGitRow()
    ensures ParseGitRemoteURL("https://gitlab.com/user/repo.git") == Success(Remote("user", "repo"))
  {
    TestSegmentsPlain();
    GitlabHttpsGitSpelled();
    HttpsGitLocator("https://gitlab.com/user/repo.git", "gitlab.com", "user", "repo");
  }

  lemma GitlabSshRow()
    ensures ParseGitRemoteURL("git@gitlab.com:user/repo.git") == Success(Remote("user", "repo"))
  {
    TestSegmentsPlain();
    GitlabSshSpelled();
    SshGitLocator("git@gitlab.com:user/repo.git", "gitlab.com", "user", "repo");
  }

  lemma InvalidUrlRow()
    ensures ParseGitRemoteURL("invalid_url") == Failure(InvalidPath("invalid_url"))
  {
    assert Plain("invalid_url");
    assert !HasPrefix("invalid_url", "git@") by { assert "invalid_url"[0] == 'i'; }
    BareWordRejected("invalid_url");
  }

  lemma OwnerOnlyRow()
    ensures ParseGitRemoteURL("https://github.com/user") == Failure(InvalidPath("/user"))
  {
    TestSegmentsPlain();
    OwnerOnlySpelled();
    SingleSegmentRejected("github.com", "user");
  }

  /** The seven locators of the repository's parser test table. */
  lemma ParserTestTable()
    ensures ParseGitRemoteURL("https://github.com/user/repo.git") == Success(Remote("user", "repo"))
    ensures ParseGitRemoteURL("git@github.com:user/repo.git") == Success(Remote("user", "repo"))
    ensures ParseGitRemoteURL("https://github.com/user/repo") == Success(Remote("user", "repo"))
    ensures ParseGitRemoteURL("https://gitlab.com/user/repo.git") == Success(Remote("user", "repo"))
    ensures ParseGitRemoteURL("git@gitlab.com:user/repo.git") == Success(Remote("user", "repo"))
    ensures ParseGitRemoteURL("invalid_url") == Failure(InvalidPath("invalid_url"))
    ensures ParseGitRemoteURL("https://github.com/user") == Failure(InvalidPath("/user"))
  {
    GithubHttpsGitRow();
    GithubSshRow();
    GithubHttpsRow();
    GitlabHttpsGitRow();
    GitlabSshRow();
    InvalidUrlRow();
    OwnerOnlyRow();
  }

  /** errRepoDoesNotExist: a lookup error is returned unchanged; otherwise the
      parser's error, or the message naming owner/repository. */
  function ErrRepoDoesNotExist(remoteURL: string, err: Option<string>): (r: RemoteError)
    ensures err.Some? ==> r == LookupFailed(err.value)
    ensures err.None? ==>
              ParseGitRemoteURL(remoteURL) == if r.RepoMissing? then Success(Remote(r.user, r.repo)) else Failure(r)
  {
    if err.Some? then LookupFailed(err.value)
    else
      match ParseGitRemoteURL(remoteURL)
      case Failure(e) => e
      case Success(remote) => RepoMissing(remote.user, remote.repo)
  }

  // ---------------------------------------------------------------------------
  // Retry with exponential backoff and jitter (executor.go:193-246)
  // ---------------------------------------------------------------------------

  /** What the process-wide circuit breaker does with a new call: run it, or
      refuse it because it is open, or because half-open already admitted its quota. */
  datatype Admission = Admitted | Open | TooManyRequests

  /** The error the retry loop reports. */
  datatype RunError =
    | Rejected(reason: string)        // refused by the breaker, nothing run
    | Exhausted(cause: RemoteError)   // the last attempt failed
    | RandFailed(msg: string)         // the jitter could not be drawn
    | FailedAfter(maxAttempts: int)   // the loop never ran
  {
    function Message(): string {
      match this
      case Rejected(reason) => reason
      case Exhausted(cause) => cause.Message()
      case RandFailed(msg) => msg
      case FailedAfter(n) => "Command failed after " + IntToString(n) + " attempts."
    }
  }

  /** The loop's observable result: its error (None for success), how many times
      the command was run, and the pauses it slept, in milliseconds. */
  datatype RetryOutcome = RetryOutcome(err: Option<RunError>, runs: nat, sleeps: seq<int>)

  function Pow2(n: nat): (r: nat)
    ensures r >= 1
  {
    if n == 0 then 1 else 2 * Pow2(n - 1)
  }

  /** The pause after failed attempt `attempt` (1-based): 50 * 2^attempt + jitter milliseconds. */
  function Backoff(attempt: nat, jitter: int): int {
    50 * Pow2(attempt) + jitter
  }

  /** crypto/rand's draw below 100: every successful draw lies in [0, 100). */
  ghost predicate JitterInRange(jitter: nat -> Result<int, string>) {
    forall k: nat :: jitter(k).Success? ==> 0 <= jitter(k).value < 100
  }

  /** The loop from attempt `attempt` on, given the outcome of every attempt
      (`outcome(k)` is true when attempt k's command exits successfully), the
      jitter drawn after failed attempt k, and `lookup`, the error errRepoDoesNotExist
      builds from the remote lookup made after the last attempt. */
  function RetryFrom(attempt: nat, outcome: nat -> bool, jitter: nat -> Result<int, string>,
                     lookup: RemoteError, maxAttempts: int): RetryOutcome
    requires 1 <= attempt
    decreases maxAttempts - attempt
  {
    if attempt > maxAttempts then RetryOutcome(Some(FailedAfter(maxAttempts)), attempt - 1, [])
    else if outcome(attempt) then RetryOutcome(None, attempt, [])
    else if attempt == maxAttempts then
      RetryOutcome(Some(Exhausted(lookup)), attempt, [])
    else
      match jitter(attempt)
      case Failure(e) => RetryOutcome(Some(RandFailed(e)), attempt, [])
      case Success(j) =>
        var later := RetryFrom(attempt + 1, outcome, jitter, lookup, maxAttempts);
        later.(sleeps := [Backoff(attempt, j)] + later.sleeps)
  }

  /** The whole call: the breaker first, then the loop from attempt 1. */
  function Retry(gate: Admission, outcome: nat -> bool, jitter: nat -> Result<int, string>,
                 remoteURL: string, urlErr: Option<string>, maxAttempts: int): RetryOutcome
  {
    match gate
    case Open => RetryOutcome(Some(Rejected("circuit breaker is open")), 0, [])
    case TooManyRequests => RetryOutcome(Some(Rejected("too many requests")), 0, [])
    case Admitted => RetryFrom(1, outcome, jitter, ErrRepoDoesNotExist(remoteURL, urlErr), maxAttempts)
  }

  /** The first `n` of the loop's results were already produced. */
  function WithSleeps(done: seq<int>, later: RetryOutcome): RetryOutcome {
    later.(sleeps := done + later.sleeps)
  }

  /** One more failed attempt below the last, with its jitter drawn: the pause
      is slept and the loop goes on with the next attempt. */
  lemma RetryStep(attempt: nat, outcome: nat -> bool, jitter: nat -> Result<int, string>,
                  lookup: RemoteError, maxAttempts: int, done: seq<int>)
    requires 1 <= attempt < maxAttempts && !outcome(attempt) && jitter(attempt).Success?
    ensures WithSleeps(done, RetryFrom(attempt, outcome, jitter, lookup, maxAttempts))
            == WithSleeps(done + [Backoff(attempt, jitter(attempt).value)],
                          RetryFrom(attempt + 1, outcome, jitter, lookup, maxAttempts))
  {
    var later := RetryFrom(attempt + 1, outcome, jitter, lookup, maxAttempts);
    var pause := Backoff(attempt, jitter(attempt).value);
    assert done + ([pause] + later.sleeps) == done + [pause] + later.sleeps;
  }

  /** The loop run against a source of per-attempt outcomes: each attempt
      starts a fresh process. */
  method ExecFreshCommandWithRetry(gate: Admission, outcome: nat -> bool, jitter: nat -> Result<int, string>,
                                   remoteURL: string, urlErr: Option<string>, maxAttempts: int)
    returns (err: Option<RunError>, runs: nat, sleeps: seq<int>)
    ensures RetryOutcome(err, runs, sleeps) == Retry(gate, outcome, jitter, remoteURL, urlErr, maxAttempts)
  {
    if gate != Admitted {
      err := Some(Rejected(if gate == Open then "circuit breaker is open" else "too many requests"));
      runs, sleeps := 0, [];
      return;
    }
    sleeps := [];
    var attempts := 1;
    while attempts <= maxAttempts
      invariant 1 <= attempts
      invariant Retry(gate, outcome, jitter, remoteURL, urlErr, maxAttempts)
                == WithSleeps(sleeps, RetryFrom(attempts, outcome, jitter, ErrRepoDoesNotExist(remoteURL, urlErr), maxAttempts))
      decreases maxAttempts - attempts
    {
      runs := attempts;
      if outcome(attempts) {
        err := None;
        return;
      }
      if attempts == maxAttempts {
        err := Some(Exhausted(ErrRepoDoesNotExist(remoteURL, urlErr)));
        return;
      }
      match jitter(attempts)
      case Failure(e) =>
        err := Some(RandFailed(e));
        return;
      case Success(j) =>
        RetryStep(attempts, outcome, jitter, ErrRepoDoesNotExist(remoteURL, urlErr), maxAttempts, sleeps);
        sleeps := sleeps + [Backoff(attempts, j)];
      attempts := attempts + 1;
    }
    err, runs := Some(FailedAfter(maxAttempts)), attempts - 1;
  }

  /** An os/exec command: it starts a process at most once. A second Run on the
      same command fails with "exec: already started" without starting anything. */
  class Cmd {
    var started: bool
    /** Whether the process, once started, exits with status 0. */
    const succeeds: bool

    constructor (succeeds: bool)
      ensures !started && this.succeeds == succeeds
    {
      started := false;
      this.succeeds := succeeds;
    }

    method Run() returns (ok: bool)
      modifies this
      ensures started
      ensures ok == (!old(started) && succeeds)
    {
      ok := !started && succeeds;
      started := true;
    }
  }

  /** The outcomes that re-running one command yields: only attempt 1 can run a process. */
  function Reused(started: bool, succeeds: bool): nat -> bool {
    (k: nat) => k == 1 && !started && succeeds
  }

  /** execCommandWithRetry as written: the same command object is run on every attempt. */
  method ExecCommandWithRetry(gate: Admission, cmd: Cmd, jitter: nat -> Result<int, string>,
                              remoteURL: string, urlErr: Option<string>, maxAttempts: int)
    returns (err: Option<RunError>, runs: nat, sleeps: seq<int>)
    modifies cmd
    ensures RetryOutcome(err, runs, sleeps)
            == Retry(gate, Reused(old(cmd.started), cmd.succeeds), jitter, remoteURL, urlErr, maxAttempts)
  {
    ghost var outcome := Reused(cmd.started, cmd.succeeds);
    if gate != Admitted {
      err := Some(Rejected(if gate == Open then "circuit breaker is open" else "too many requests"));
      runs, sleeps := 0, [];
      return;
    }
    sleeps := [];
    var attempts := 1;
    while attempts <= maxAttempts
      invariant 1 <= attempts
      invariant attempts == 1 ==> outcome == Reused(cmd.started, cmd.succeeds)
      invariant attempts > 1 ==> cmd.started
      invariant outcome == Reused(old(cmd.started), cmd.succeeds)
      invariant Retry(gate, outcome, jitter, remoteURL, urlErr, maxAttempts)
                == WithSleeps(sleeps, RetryFrom(attempts, outcome, jitter, ErrRepoDoesNotExist(remoteURL, urlErr), maxAttempts))
      decreases maxAttempts - attempts
    {
      runs := attempts;
      var ok := cmd.Run();
      assert ok == outcome(attempts);
      if ok {
        err := None;
        return;
      }
      if attempts == maxAttempts {
        err := Some(Exhausted(ErrRepoDoesNotExist(remoteURL, urlErr)));
        return;
      }
      match jitter(attempts)
      case Failure(e) =>
        err := Some(RandFailed(e));
        return;
      case Success(j) =>
        RetryStep(attempts, outcome, jitter, ErrRepoDoesNotExist(remoteURL, urlErr), maxAttempts, sleeps);
        sleeps := sleeps + [Backoff(attempts, j)];
      attempts := attempts + 1;
    }
    err, runs := Some(FailedAfter(maxAttempts)), attempts - 1;
  }

  /** Attempts `from` .. `to` - 1 all failed. */
  predicate FailedBetween(outcome: nat -> bool, from: nat, to: nat) {
    forall k: nat :: from <= k < to ==> !outcome(k)
  }

  /** The pause slept after failed attempt `attempt` is its backoff with a drawn jitter. */
  ghost predicate PauseAfter(jitter: nat -> Result<int, string>, attempt: nat, pause: int) {
    && jitter(attempt).Success?
    && pause == Backoff(attempt, jitter(attempt).value)
    && 50 * Pow2(attempt) <= pause <= 50 * Pow2(attempt) + 99
  }

  /** The loop from `attempt` on runs at most up to `maxAttempts`, succeeds
      exactly when the attempt where it stops succeeded, has failed every
      attempt before that one, and slept exactly once after each of those,
      `Backoff(k, jitter)` with a jitter in [0, 100). */
  lemma {:induction false} RetryFromShape(attempt: nat, outcome: nat -> bool, jitter: nat -> Result<int, string>,
                                          lookup: RemoteError, maxAttempts: int)
    requires 1 <= attempt <= maxAttempts
    requires JitterInRange(jitter)
    ensures var o := RetryFrom(attempt, outcome, jitter, lookup, maxAttempts);
            && attempt <= o.runs <= maxAttempts
            && FailedBetween(outcome, attempt, o.runs)
            && (o.err.None? <==> outcome(o.runs))
            && |o.sleeps| == o.runs - attempt
            && (forall k :: 0 <= k < |o.sleeps| ==> PauseAfter(jitter, attempt + k, o.sleeps[k]))
    decreases maxAttempts - attempt
  {
    var o := RetryFrom(attempt, outcome, jitter, lookup, maxAttempts);
    if !outcome(attempt) && attempt < maxAttempts && jitter(attempt).Success? {
      var j := jitter(attempt).value;
      var later := RetryFrom(attempt + 1, outcome, jitter, lookup, maxAttempts);
      RetryFromShape(attempt + 1, outcome, jitter, lookup, maxAttempts);
      assert o.sleeps == [Backoff(attempt, j)] + later.sleeps;
      forall k | 0 <= k < |o.sleeps|
        ensures PauseAfter(jitter, attempt + k, o.sleeps[k])
      {
        if k > 0 {
          assert o.sleeps[k] == later.sleeps[k - 1];
          assert PauseAfter(jitter, attempt + 1 + (k - 1), later.sleeps[k - 1]);
        } else {
          assert 0 <= j < 100;
        }
      }
    }
  }

  /** The candidate properties of the retry loop: it runs the command at most
      `maxAttempts` times, returns success right after the first successful run
      and only then, sleeps only between failed attempts with the k-th pause in
      [50 * 2^k, 50 * 2^k + 99] ms, reports the remote lookup's error after the
      last failed attempt, runs nothing with `maxAttempts` below 1, and runs
      nothing when the breaker refuses the call. */
  lemma {:induction false} RetryContract(gate: Admission, outcome: nat -> bool, jitter: nat -> Result<int, string>,
                                         remoteURL: string, urlErr: Option<string>, maxAttempts: int)
    requires JitterInRange(jitter)
    ensures var o := Retry(gate, outcome, jitter, remoteURL, urlErr, maxAttempts);
            && (gate != Admitted ==> o.err.Some? && o.err.value.Rejected? && o.runs == 0 && o.sleeps == [])
            && (gate == Admitted && maxAttempts < 1 ==>
                  o == RetryOutcome(Some(FailedAfter(maxAttempts)), 0, []))
            && (o.runs <= maxAttempts || o.runs == 0)
            && (o.err.None? <==> gate == Admitted && 1 <= o.runs && outcome(o.runs) && FailedBetween(outcome, 1, o.runs))
            && (o.runs >= 1 ==> FailedBetween(outcome, 1, o.runs) && |o.sleeps| == o.runs - 1)
            && (forall k :: 0 <= k < |o.sleeps| ==> 50 * Pow2(k + 1) <= o.sleeps[k] <= 50 * Pow2(k + 1) + 99)
            && (o.err.Some? && o.err.value.Exhausted? ==>
                  o.runs == maxAttempts && o.err.value.cause == ErrRepoDoesNotExist(remoteURL, urlErr))
  {
    if gate == Admitted && 1 <= maxAttempts {
      AdmittedRetry(outcome, jitter, ErrRepoDoesNotExist(remoteURL, urlErr), maxAttempts);
    }
  }

  /** The admitted loop, for any error the final remote lookup builds. */
  lemma AdmittedRetry(outcome: nat -> bool, jitter: nat -> Result<int, string>,
                      lookup: RemoteError, maxAttempts: int)
    requires JitterInRange(jitter)
    requires 1 <= maxAttempts
    ensures var o := RetryFrom(1, outcome, jitter, lookup, maxAttempts);
            && 1 <= o.runs <= maxAttempts
            && (o.err.None? <==> outcome(o.runs) && FailedBetween(outcome, 1, o.runs))
            && FailedBetween(outcome, 1, o.runs) && |o.sleeps| == o.runs - 1
            && (forall k :: 0 <= k < |o.sleeps| ==> 50 * Pow2(k + 1) <= o.sleeps[k] <= 50 * Pow2(k + 1) + 99)
            && (o.err.Some? && o.err.value.Exhausted? ==> o.runs == maxAttempts && o.err.value.cause == lookup)
  {
    RetryFromShape(1, outcome, jitter, lookup, maxAttempts);
    ExhaustedOnlyAtLast(1, outcome, jitter, lookup, maxAttempts);
  }

  /** An exhausted loop stopped at the last attempt, with the remote lookup's error. */
  lemma {:induction false} ExhaustedOnlyAtLast(attempt: nat, outcome: nat -> bool, jitter: nat -> Result<int, string>,
                                               lookup: RemoteError, maxAttempts: int)
    requires 1 <= attempt
    ensures var o := RetryFrom(attempt, outcome, jitter, lookup, maxAttempts);
            o.err.Some? && o.err.value.Exhausted? ==>
              o.runs == maxAttempts && o.err.value.cause == lookup
    decreases maxAttempts - attempt
  {
    if attempt < maxAttempts && !outcome(attempt) && jitter(attempt).Success? {
      ExhaustedOnlyAtLast(attempt + 1, outcome, jitter, lookup, maxAttempts);
    }
  }

  lemma {:induction false} Pow2Add(a: nat, b: nat)
    ensures Pow2(a + b) == Pow2(a) * Pow2(b)
    decreases a
  {
    if a > 0 {
      Pow2Add(a - 1, b);
    }
  }

  lemma Pow2Thirty()
    ensures Pow2(30) == 1073741824
  {
    assert Pow2(5) == 32;
    Pow2Add(5, 5);
    Pow2Add(10, 10);
    Pow2Add(20, 10);
  }

  function Sum(s: seq<int>): int {
    if s == [] then 0 else s[0] + Sum(s[1..])
  }

  lemma SumCons(x: int, s: seq<int>)
    ensures Sum([x] + s) == x + Sum(s)
  {
    assert ([x] + s)[1..] == s;
  }

  /** A failed attempt followed by a drawn jitter adds one sleep to what the later attempts do. */
  lemma BackoffStep(attempt: nat, outcome: nat -> bool, jitter: nat -> Result<int, string>,
                    lookup: RemoteError, maxAttempts: int)
    requires 1 <= attempt < maxAttempts && !outcome(attempt) && jitter(attempt).Success?
    ensures var o := RetryFrom(attempt, outcome, jitter, lookup, maxAttempts);
            var later := RetryFrom(attempt + 1, outcome, jitter, lookup, maxAttempts);
            o.runs == later.runs && o.err == later.err &&
            Sum(o.sleeps) == Backoff(attempt, jitter(attempt).value) + Sum(later.sleeps)
  {
    var o := RetryFrom(attempt, outcome, jitter, lookup, maxAttempts);
    var later := RetryFrom(attempt + 1, outcome, jitter, lookup, maxAttempts);
    RetryStep(attempt, outcome, jitter, lookup, maxAttempts, []);
    assert o.sleeps == [Backoff(attempt, jitter(attempt).value)] + later.sleeps;
    SumCons(Backoff(attempt, jitter(attempt).value), later.sleeps);
  }

  /** A failed last attempt ends the loop with the lookup's error and no sleep. */
  lemma BackoffLast(attempt: nat, outcome: nat -> bool, jitter: nat -> Result<int, string>,
                    lookup: RemoteError)
    requires 1 <= attempt && !outcome(attempt)
    ensures RetryFrom(attempt, outcome, jitter, lookup, attempt)
            == RetryOutcome(Some(Exhausted(lookup)), attempt, [])
  {
  }

  /** The runs, the final error and the sleeps when every attempt from `attempt` on fails. */
  lemma {:induction false} BackoffSum(attempt: nat, outcome: nat -> bool, jitter: nat -> Result<int, string>,
                                        lookup: RemoteError, maxAttempts: int)
    requires 1 <= attempt <= maxAttempts
    requires JitterInRange(jitter)
    requires forall k: nat :: !outcome(k) && jitter(k).Success?
    ensures var o := RetryFrom(attempt, outcome, jitter, lookup, maxAttempts);
            o.runs == maxAttempts && o.err == RetryFrom(maxAttempts, outcome, jitter, lookup, maxAttempts).err &&
            Sum(o.sleeps) >= 50 * (Pow2(maxAttempts) - Pow2(attempt))
    decreases maxAttempts - attempt
  {
    if attempt < maxAttempts {
      BackoffSum(attempt + 1, outcome, jitter, lookup, maxAttempts);
      BackoffStep(attempt, outcome, jitter, lookup, maxAttempts);
      var p: int, top: int := Pow2(attempt), Pow2(maxAttempts);
      assert Pow2(attempt + 1) == 2 * p;
      assert Backoff(attempt, jitter(attempt).value) >= 50 * p;
    }
  }
  /** When every attempt from `attempt` on fails and every jitter is drawn, the
      loop sleeps at least 50 * (2^maxAttempts - 2^attempt) ms in all. */
  lemma BackoffTotal(attempt: nat, outcome: nat -> bool, jitter: nat -> Result<int, string>,
                     lookup: RemoteError, maxAttempts: int)
    requires 1 <= attempt <= maxAttempts
    requires JitterInRange(jitter)
    requires forall k: nat :: !outcome(k) && jitter(k).Success?
    ensures var o := RetryFrom(attempt, outcome, jitter, lookup, maxAttempts);
            o.runs == maxAttempts && o.err == Some(Exhausted(lookup)) &&
            Sum(o.sleeps) >= 50 * (Pow2(maxAttempts) - Pow2(attempt))
  {
    BackoffSum(attempt, outcome, jitter, lookup, maxAttempts);
    BackoffLast(maxAttempts, outcome, jitter, lookup);
  }


  /** Re-running one command object: once its first run fails, every later
      attempt fails too, so a fetch that fails once never recovers, and with
      the 30 attempts of the sequencers the loop sleeps at least
      50 * (2^30 - 2) ms (about 621 days) before giving up. */
  lemma ReusedCommandNeverRecovers(jitter: nat -> Result<int, string>, remoteURL: string, urlErr: Option<string>)
    requires JitterInRange(jitter)
    requires forall k: nat :: jitter(k).Success?
    ensures var o := Retry(Admitted, Reused(false, false), jitter, remoteURL, urlErr, MaxFetchBranchAttempts);
            o.runs == 30 && o.err == Some(Exhausted(ErrRepoDoesNotExist(remoteURL, urlErr))) &&
            Sum(o.sleeps) >= 53687091100
  {
    var outcome := Reused(false, false);
    assert forall k: nat :: !outcome(k);
    BackoffTotal(1, outcome, jitter, ErrRepoDoesNotExist(remoteURL, urlErr), 30);
    Pow2Thirty();
  }

  /** With one process per attempt, a command that fails once and then succeeds
      is done after two runs and one pause. */
  lemma FreshCommandRecovers(jitter: nat -> Result<int, string>, remoteURL: string, urlErr: Option<string>)
    requires JitterInRange(jitter)
    requires jitter(1).Success?
    ensures var o := Retry(Admitted, (k: nat) => k >= 2, jitter, remoteURL, urlErr, MaxFetchBranchAttempts);
            o.err == None && o.runs == 2 && |o.sleeps| == 1
  {
    var outcome := (k: nat) => k >= 2;
    var later := RetryFrom(2, outcome, jitter, ErrRepoDoesNotExist(remoteURL, urlErr), 30);
    assert later == RetryOutcome(None, 2, []);
  }

  // ---------------------------------------------------------------------------
  // Circuit breaker trip predicate (executor.go:185-187)
  // ---------------------------------------------------------------------------

  /** The breaker trips once more than three calls in a row have failed. */
  predicate ReadyToTrip(consecutiveFailures: nat) {
    consecutiveFailures > 3
  }

  /** The breaker's count of consecutive failures over a history of call
      outcomes (true = success): the failures since the last success. */
  function ConsecutiveFailures(history: seq<bool>): (n: nat)
    ensures n <= |history|
  {
    if history == [] || history[|history| - 1] then 0
    else 1 + ConsecutiveFailures(history[..|history| - 1])
  }

  /** At least `m` consecutive failures exactly when the last `m` calls all failed. */
  lemma {:induction false} ConsecutiveFailuresAtLeast(history: seq<bool>, m: nat)
    ensures ConsecutiveFailures(history) >= m <==>
              m <= |history| && forall k :: |history| - m <= k < |history| ==> !history[k]
    decreases m
  {
    var n := |history|;
    if m > 0 && n > 0 && !history[n - 1] {
      var earlier := history[..n - 1];
      ConsecutiveFailuresAtLeast(earlier, m - 1);
      assert forall k :: 0 <= k < n - 1 ==> earlier[k] == history[k];
    }
  }

  /** The breaker trips exactly when the last four calls all failed. */
  lemma TripsAfterFourFailures(history: seq<bool>)
    ensures ReadyToTrip(ConsecutiveFailures(history)) <==>
              |history| >= 4 && forall k :: |history| - 4 <= k < |history| ==> !history[k]
  {
    ConsecutiveFailuresAtLeast(history, 4);
  }

  // ---------------------------------------------------------------------------
  // The reporter's own stash (executor.go:128-135, 164-174)
  // ---------------------------------------------------------------------------

  /** The message the reporter gives the stash it pushes. */
  const StashMessage: string := "Stashed by reporter"

  /** The stash list names, at its top, a stash the reporter made on `branch`. */
  predicate IsReporterStash(stashList: string, branch: string) {
    Contains(stashList, "stash@{0}: On " + branch + ": " + StashMessage)
  }

  /** The entry git lists for the stash the reporter pushed on `branch` is recognised. */
  lemma ReporterEntryRecognised(branch: string, rest: string)
    ensures IsReporterStash("stash@{0}: On " + branch + ": " + StashMessage + rest, branch)
  {
    var entry := "stash@{0}: On " + branch + ": " + StashMessage;
    assert (entry + rest)[0..|entry|] == entry;
    ContainsAt(entry + rest, entry, 0);
  }

  /** A stash list that never mentions the reporter's message is never taken for its stash. */
  lemma {:induction false} ForeignStashIgnored(stashList: string, branch: string)
    requires !Contains(stashList, StashMessage)
    ensures !IsReporterStash(stashList, branch)
  {
    var entry := "stash@{0}: On " + branch + ": " + StashMessage;
    if IsReporterStash(stashList, branch) {
      var pre := "stash@{0}: On " + branch + ": ";
      assert entry == pre + StashMessage + [];
      assert Contains(StashMessage, StashMessage) by {
        assert StashMessage[..|StashMessage|] == StashMessage;
      }
      ContainsInside(pre, StashMessage, [], StashMessage);
      ContainsTransitive(stashList, entry, StashMessage);
    }
  }

  // ---------------------------------------------------------------------------
  // Errors formatted by the probe wrappers (executor.go:74-98)
  // ---------------------------------------------------------------------------

  /** How counting the commits behind can fail: the command exits with a
      status and a diagnostic, or it cannot be run at all. */
  datatype RevListError = ExitError(stderr: string, exitCode: int) | RunFailed(msg: string)

  function RevListMessage(repoName: string, e: RevListError): string {
    match e
    case ExitError(stderr, code) =>
      LightRed + "Error checking rev-list " + repoName + ": " + stderr + " (exit status " + IntToString(code) + ")" + Reset
    case RunFailed(msg) => LightRed + "Error checking rev-list " + repoName + ": " + msg + Reset
  }

  function LastCommitMessage(repoName: string, err: string): string {
    LightRed + "Error checking last commit author " + repoName + ": " + err + Reset
  }
}
