/** The few functions of Go's `strings` and `path/filepath` packages that the
    core relies on, over `string` = `seq<char>`. Each follows the Go function
    of the same name; where Go takes a "cutset" string, the model takes a set. */
module Strings {

  /** strings.HasPrefix */
  predicate HasPrefix(s: string, p: string) {
    |p| <= |s| && s[..|p|] == p
  }

  /** strings.HasSuffix */
  predicate HasSuffix(s: string, p: string) {
    |p| <= |s| && s[|s| - |p|..] == p
  }

  /** A prefix of `a` is a prefix of every extension of `a`. */
  lemma PrefixExtends(p: string, a: string, b: string)
    requires HasPrefix(a, p)
    ensures HasPrefix(a + b, p)
  {
    assert (a + b)[..|p|] == a[..|p|];
  }

  /** strings.TrimSuffix: drops one trailing `p`, if there is one. */
  function TrimSuffix(s: string, p: string): (r: string)
    ensures HasSuffix(s, p) ==> r + p == s
    ensures !HasSuffix(s, p) ==> r == s
  {
    if HasSuffix(s, p) then s[..|s| - |p|] else s
  }

  /** strings.Contains, as a scan over the start positions. */
  predicate Contains(s: string, sub: string)
    decreases |s|
  {
    HasPrefix(s, sub) || (|s| > 0 && Contains(s[1..], sub))
  }

  /** `sub` occurring at position `i` of `s` makes `Contains(s, sub)` hold. */
  lemma {:induction false} ContainsAt(s: string, sub: string, i: nat)
    requires i + |sub| <= |s| && s[i..i + |sub|] == sub
    ensures Contains(s, sub)
    decreases i
  {
    if i > 0 {
      assert s[1..][i - 1..i - 1 + |sub|] == s[i..i + |sub|];
      ContainsAt(s[1..], sub, i - 1);
    }
  }

  /** What `s` contains, every extension of `s` contains too. */
  lemma {:induction false} ContainsInside(a: string, s: string, b: string, sub: string)
    requires Contains(s, sub)
    ensures Contains(a + s + b, sub)
    decreases |s|
  {
    if HasPrefix(s, sub) {
      assert (a + s + b)[|a|..|a| + |sub|] == s[..|sub|];
      ContainsAt(a + s + b, sub, |a|);
    } else {
      ContainsInside(a + [s[0]], s[1..], b, sub);
      assert a + [s[0]] + s[1..] + b == a + s + b;
    }
  }

  /** Containment is transitive: a text that contains `mid` contains all that `mid` contains. */
  lemma {:induction false} ContainsTransitive(s: string, mid: string, sub: string)
    requires Contains(s, mid) && Contains(mid, sub)
    ensures Contains(s, sub)
    decreases |s|
  {
    if HasPrefix(s, mid) {
      assert s == [] + mid + s[|mid|..];
      ContainsInside([], mid, s[|mid|..], sub);
    } else {
      ContainsTransitive(s[1..], mid, sub);
      assert s == [s[0]] + s[1..] + [];
      ContainsInside([s[0]], s[1..], [], sub);
    }
  }

  /** A text shorter than `sub` never contains it. */
  lemma {:induction false} ContainsNeedsLength(s: string, sub: string)
    requires Contains(s, sub)
    ensures |sub| <= |s|
    decreases |s|
  {
    if !HasPrefix(s, sub) {
      ContainsNeedsLength(s[1..], sub);
    }
  }

  /** The position of the first `c` in `s`, or `|s|` when there is none, so
      that `s[..IndexOf(s, c)]` is always what precedes the first `c`. */
  function IndexOf(s: string, c: char): (i: nat)
    ensures i <= |s|
    ensures c !in s[..i]
    ensures i < |s| ==> s[i] == c
    ensures i == |s| <==> c !in s
  {
    if |s| == 0 then 0
    else if s[0] == c then 0
    else
      var j := IndexOf(s[1..], c);
      assert s[..j + 1] == [s[0]] + s[1..][..j];
      1 + j
  }

  /** IndexOf skips a prefix that does not hold `c`. */
  lemma {:induction false} IndexOfAfter(a: string, b: string, c: char)
    requires c !in a
    ensures IndexOf(a + b, c) == |a| + IndexOf(b, c)
    decreases |a|
  {
    if |a| == 0 {
      assert a + b == b;
    } else {
      assert (a + b)[1..] == a[1..] + b;
      IndexOfAfter(a[1..], b, c);
    }
  }

  /** The part of `s` before its first `c` (the first result of strings.Cut). */
  function Before(s: string, c: char): (r: string)
    ensures c !in r && HasPrefix(s, r)
    ensures c !in s ==> r == s
  {
    s[..IndexOf(s, c)]
  }

  /** strings.Split(s, string(c)): the pieces of `s` between occurrences of `c`. */
  function Split(s: string, c: char): (parts: seq<string>)
    decreases |s|
    ensures |parts| >= 1
    ensures forall k :: 0 <= k < |parts| ==> c !in parts[k]
    ensures |parts| >= 2 <==> c in s
  {
    var i := IndexOf(s, c);
    if i == |s| then [s] else [s[..i]] + Split(s[i + 1..], c)
  }

  /** Splitting `a` + `c` + `b`, where `a` holds no `c`, yields `a` followed by the pieces of `b`. */
  lemma SplitAfter(a: string, b: string, c: char)
    requires c !in a
    ensures Split(a + [c] + b, c) == [a] + Split(b, c)
  {
    var s := a + [c] + b;
    assert s == a + ([c] + b);
    IndexOfAfter(a, [c] + b, c);
    assert IndexOf(s, c) == |a|;
    assert s[..|a|] == a && s[|a| + 1..] == b;
  }

  /** strings.Join(parts, string(c)). */
  function Join(parts: seq<string>, c: char): string
    requires |parts| >= 1
  {
    if |parts| == 1 then parts[0] else parts[0] + [c] + Join(parts[1..], c)
  }

  /** Splitting a join of pieces free of the separator gives the pieces back. */
  lemma {:induction false} SplitJoin(parts: seq<string>, c: char)
    requires |parts| >= 1 && forall k :: 0 <= k < |parts| ==> c !in parts[k]
    ensures Split(Join(parts, c), c) == parts
    decreases |parts|
  {
    if |parts| == 1 {
      assert IndexOf(parts[0], c) == |parts[0]|;
    } else {
      var rest := parts[1..];
      assert forall k :: 0 <= k < |rest| ==> c !in rest[k] by {
        forall k | 0 <= k < |rest| ensures c !in rest[k] { assert rest[k] == parts[k + 1]; }
      }
      SplitJoin(rest, c);
      SplitAfter(parts[0], Join(rest, c), c);
      assert parts == [parts[0]] + rest;
    }
  }

  /** A join of non-empty pieces starts with the first piece's first character
      and ends with the last piece's last character. */
  lemma {:induction false} JoinEnds(parts: seq<string>, c: char)
    requires |parts| >= 1 && forall k :: 0 <= k < |parts| ==> parts[k] != []
    ensures var j := Join(parts, c);
            |j| > 0 && j[0] == parts[0][0] && j[|j| - 1] == parts[|parts| - 1][|parts[|parts| - 1]| - 1]
    decreases |parts|
  {
    if |parts| > 1 {
      var rest := parts[1..];
      assert forall k :: 0 <= k < |rest| ==> rest[k] != [] by {
        forall k | 0 <= k < |rest| ensures rest[k] != [] { assert rest[k] == parts[k + 1]; }
      }
      JoinEnds(rest, c);
      var j := Join(parts, c);
      var tail := Join(rest, c);
      assert j == parts[0] + [c] + tail;
      assert j[|j| - 1] == tail[|tail| - 1];
      assert rest[|rest| - 1] == parts[|parts| - 1];
    }
  }

  /** strings.TrimLeft(s, cutset) */
  function TrimLeft(s: string, cutset: set<char>): (r: string)
    decreases |s|
    ensures HasSuffix(s, r)
    ensures |r| > 0 ==> r[0] !in cutset
    ensures (forall k :: 0 <= k < |s| ==> s[k] !in cutset) ==> r == s
  {
    if |s| > 0 && s[0] in cutset then TrimLeft(s[1..], cutset) else s
  }

  /** strings.TrimRight(s, cutset) */
  function TrimRight(s: string, cutset: set<char>): (r: string)
    decreases |s|
    ensures HasPrefix(s, r)
    ensures |r| > 0 ==> r[|r| - 1] !in cutset
    ensures (forall k :: 0 <= k < |s| ==> s[k] !in cutset) ==> r == s
  {
    if |s| > 0 && s[|s| - 1] in cutset then TrimRight(s[..|s| - 1], cutset) else s
  }

  /** strings.Trim(s, cutset) */
  function Trim(s: string, cutset: set<char>): (r: string)
    ensures |r| > 0 ==> r[0] !in cutset && r[|r| - 1] !in cutset
    ensures (forall k :: 0 <= k < |s| ==> s[k] !in cutset) ==> r == s
  {
    var l := TrimLeft(s, cutset);
    var r := TrimRight(l, cutset);
    assert |r| > 0 ==> r[0] == l[0];
    r
  }

  /** The characters Go's unicode.IsSpace accepts. */
  const Whitespace: set<char> :=
    {'\t', '\n', '\U{0b}', '\U{0c}', '\r', ' ', '\U{85}', '\U{a0}', '\U{1680}',
     '\U{2000}', '\U{2001}', '\U{2002}', '\U{2003}', '\U{2004}', '\U{2005}',
     '\U{2006}', '\U{2007}', '\U{2008}', '\U{2009}', '\U{200a}',
     '\U{2028}', '\U{2029}', '\U{202f}', '\U{205f}', '\U{3000}'}

  /** strings.TrimSpace */
  function TrimSpace(s: string): (r: string)
    ensures |r| > 0 ==> r[0] !in Whitespace && r[|r| - 1] !in Whitespace
  {
    Trim(s, Whitespace)
  }

  /** strings.Replace(s, string(from), string(to), 1) for single characters. */
  function ReplaceFirst(s: string, from: char, to: char): (r: string)
    ensures |r| == |s|
    ensures from !in s ==> r == s
    ensures from in s ==> r == s[..IndexOf(s, from)] + [to] + s[IndexOf(s, from) + 1..]
  {
    var i := IndexOf(s, from);
    if i == |s| then s else s[..i] + [to] + s[i + 1..]
  }

  /** Replacing the first `from` in a string whose prefix holds none replaces the one after the prefix. */
  lemma ReplaceFirstAfter(a: string, b: string, from: char, to: char)
    requires from !in a
    ensures ReplaceFirst(a + [from] + b, from, to) == a + [to] + b
  {
    var s := a + [from] + b;
    assert s == a + ([from] + b);
    IndexOfAfter(a, [from] + b, from);
    assert IndexOf(s, from) == |a|;
    assert s[..|a|] == a && s[|a| + 1..] == b;
  }

  /** The part of `s` after its last `c`: all of `s` when it holds no `c`. */
  function AfterLast(s: string, c: char): (r: string)
    ensures HasSuffix(s, r) && c !in r
    ensures |r| < |s| ==> s[|s| - |r| - 1] == c
  {
    if s == [] || s[|s| - 1] == c then []
    else
      var init := s[..|s| - 1];
      var r := AfterLast(init, c);
      assert s[|s| - |r| - 1..] == init[|init| - |r|..] + [s[|s| - 1]];
      assert |r| < |init| ==> s[|s| - |r| - 2] == init[|init| - |r| - 1];
      r + [s[|s| - 1]]
  }
  /** Without a `c`, the part after the last `c` is all of `s`. */
  lemma AfterLastAbsent(s: string, c: char)
    requires c !in s
    ensures AfterLast(s, c) == s
  {
    var r := AfterLast(s, c);
    forall k | 0 <= k < |s| ensures s[k] != c { }
    assert s[|s| - |r|..] == s;
  }


  /** filepath.Base on a slash-separated path: trailing slashes are dropped,
      then the element after the last slash is kept; "." for the empty path,
      "/" for a path of slashes only. */
  function Base(path: string): (r: string)
    ensures r != []
    ensures '/' !in r || r == "/"
    ensures path != [] && path[|path| - 1] != '/' ==> HasSuffix(path, r) && (|r| < |path| ==> path[|path| - |r| - 1] == '/')
  {
    if path == [] then "."
    else
      var t := TrimRight(path, {'/'});
      if t == [] then "/"
      else
        assert path[|path| - 1] != '/' ==> t == path;
        AfterLast(t, '/')
  }

  /** The decimal digits of a natural number. */
  function NatToString(n: nat): (r: string)
    ensures |r| >= 1
    ensures forall k :: 0 <= k < |r| ==> '0' <= r[k] <= '9'
  {
    if n < 10 then ['0' + n as char]
    else NatToString(n / 10) + ['0' + (n % 10) as char]
  }

  /** fmt's %d rendering of an integer. */
  function IntToString(n: int): (r: string)
    ensures |r| >= 1
  {
    if n < 0 then "-" + NatToString(-n) else NatToString(n)
  }
}
