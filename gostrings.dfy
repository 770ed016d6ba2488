/**
 * The two functions of Go's `strings` package that the ticket handler uses to
 * take a request path apart: `strings.Trim` with a one-byte cutset and
 * `strings.Split` with a one-byte separator. The functions carry only the
 * bounds their callers need; what they compute is stated by the lemmas below
 * them.
 */
module GoStrings {

  /** Every character of `s` is `c`. */
  predicate AllChar(s: string, c: char) {
    forall k :: 0 <= k < |s| ==> s[k] == c
  }

  /** Number of occurrences of `c` in `s`. */
  function Count(s: string, c: char): nat {
    if |s| == 0 then 0 else (if s[0] == c then 1 else 0) + Count(s[1..], c)
  }

  // ---------------------------------------------------------------------------
  // strings.Trim(s, string(c)): with a single ASCII byte in the cutset, Go trims
  // the trailing run of `c` first and then the leading run.
  // ---------------------------------------------------------------------------

  /** Removes the leading run of `c`. */
  function TrimLeft(s: string, c: char): string
    decreases |s|
  {
    if |s| > 0 && s[0] == c then TrimLeft(s[1..], c) else s
  }

  /** Removes the trailing run of `c`. */
  function TrimRight(s: string, c: char): string
    decreases |s|
  {
    if |s| > 0 && s[|s| - 1] == c then TrimRight(s[..|s| - 1], c) else s
  }

  /** strings.Trim with the one-character cutset `c`. */
  function Trim(s: string, c: char): string {
    TrimLeft(TrimRight(s, c), c)
  }

  /** TrimLeft keeps a suffix, drops only `c`s, and what it keeps does not start with `c`. */
  lemma {:induction false} TrimLeftSpec(s: string, c: char)
    ensures var r := TrimLeft(s, c);
      && |r| <= |s| && r == s[|s| - |r|..]
      && AllChar(s[..|s| - |r|], c)
      && (r == [] || r[0] != c)
    decreases |s|
  {
    if |s| > 0 && s[0] == c {
      TrimLeftSpec(s[1..], c);
      var r := TrimLeft(s, c);
      assert s[1..][..|s| - 1 - |r|] == s[1..|s| - |r|];
    }
  }

  /** TrimRight keeps a prefix, drops only `c`s, and what it keeps does not end with `c`. */
  lemma {:induction false} TrimRightSpec(s: string, c: char)
    ensures var r := TrimRight(s, c);
      && |r| <= |s| && r == s[..|r|]
      && AllChar(s[|r|..], c)
      && (r == [] || r[|r| - 1] != c)
    decreases |s|
  {
    if |s| > 0 && s[|s| - 1] == c {
      TrimRightSpec(s[..|s| - 1], c);
      var r := TrimRight(s, c);
      assert s[..|s| - 1][..|r|] == s[..|r|];
      assert s[..|s| - 1][|r|..] == s[|r|..|s| - 1];
      assert s[|r|..] == s[|r|..|s| - 1] + [c];
    }
  }

  /**
   * Trim removes a run of `c` at each end and nothing else: the input is
   * `s[..i]`, the result and `s[j..]`, where both outer parts are all `c`, and
   * the result neither starts nor ends with `c`.
   */
  lemma TrimSpec(s: string, c: char)
    ensures var r := Trim(s, c); var j := |TrimRight(s, c)|;
      && |r| <= j <= |s|
      && r == s[j - |r|..j]
      && AllChar(s[..j - |r|], c) && AllChar(s[j..], c)
      && (r == [] || (r[0] != c && r[|r| - 1] != c))
  {
    var t := TrimRight(s, c);
    TrimRightSpec(s, c);
    TrimLeftSpec(t, c);
    var r := TrimLeft(t, c);
    var i := |t| - |r|;
    SliceOfPrefix(s, |t|, i);
    assert t[..i] == s[..i];
    assert t[i..] == s[i..|t|];
    if r != [] {
      assert r[|r| - 1] == t[|t| - 1];
    }
  }

  lemma SliceOfPrefix(s: string, j: nat, i: nat)
    requires i <= j <= |s|
    ensures s[..j][..i] == s[..i] && s[..j][i..] == s[i..j]
  {
  }

  lemma {:induction false} TrimLeftAfterRun(p: string, m: string, c: char)
    requires AllChar(p, c)
    requires m == [] || m[0] != c
    ensures TrimLeft(p + m, c) == m
    decreases |p|
  {
    if |p| > 0 {
      assert (p + m)[1..] == p[1..] + m;
      TrimLeftAfterRun(p[1..], m, c);
    } else {
      assert p + m == m;
    }
  }

  lemma {:induction false} TrimRightBeforeRun(m: string, q: string, c: char)
    requires AllChar(q, c)
    requires m == [] || m[|m| - 1] != c
    ensures TrimRight(m + q, c) == m
    decreases |q|
  {
    if |q| > 0 {
      assert (m + q)[..|m + q| - 1] == m + q[..|q| - 1];
      TrimRightBeforeRun(m, q[..|q| - 1], c);
    } else {
      assert m + q == m;
    }
  }

  /** Trimming a trailing part leaves everything up to a final non-`c` character in place. */
  lemma {:induction false} TrimRightKeepsPrefix(u: string, v: string, c: char)
    requires u != [] && u[|u| - 1] != c
    ensures TrimRight(u + v, c) == u + TrimRight(v, c)
    decreases |v|
  {
    if |v| > 0 && v[|v| - 1] == c {
      assert (u + v)[..|u + v| - 1] == u + v[..|v| - 1];
      TrimRightKeepsPrefix(u, v[..|v| - 1], c);
    } else if |v| == 0 {
      assert u + v == u;
    }
  }

  /**
   * Trim is exactly "remove the surrounding runs of `c`": whenever `s` is a run
   * of `c`, a middle part that neither starts nor ends with `c`, and another run
   * of `c`, Trim returns that middle part. With TrimSpec (every string splits
   * that way) this determines Trim.
   */
  lemma TrimUnique(p: string, m: string, q: string, c: char)
    requires AllChar(p, c) && AllChar(q, c)
    requires m == [] || (m[0] != c && m[|m| - 1] != c)
    ensures Trim(p + m + q, c) == m
  {
    if m == [] {
      assert p + m + q == [] + (p + q);
      TrimRightBeforeRun([], p + q, c);
    } else {
      TrimRightBeforeRun(p + m, q, c);
      TrimLeftAfterRun(p, m, c);
    }
  }

  /** Trimming twice is trimming once. */
  lemma TrimIdempotent(s: string, c: char)
    ensures Trim(Trim(s, c), c) == Trim(s, c)
  {
    var r := Trim(s, c);
    TrimSpec(s, c);
    assert [] + r + [] == r;
    TrimUnique([], r, [], c);
  }

  /**
   * Trimming "/a/b" followed by a tail keeps "a/b" whole when a starts and b
   * ends with a character other than the cutset character.
   */
  lemma TrimAroundSegments(a: string, b: string, tail: string, c: char)
    requires a != [] && a[0] != c
    requires b != [] && b[|b| - 1] != c
    ensures Trim([c] + a + [c] + b + tail, c) == a + [c] + b + TrimRight(tail, c)
  {
    var v := a + [c] + b;
    assert v[0] == a[0] && v[|v| - 1] == b[|b| - 1];
    TrimWrapped(v, tail, c);
    assert [c] + a + [c] + b + tail == [c] + v + tail;
  }

  /** Trimming one `c`, then `v`, then a tail removes the `c` and trims only the tail,
    * when `v` neither starts nor ends with `c`. */
  lemma TrimWrapped(v: string, tail: string, c: char)
    requires v != [] && v[0] != c && v[|v| - 1] != c
    ensures Trim([c] + v + tail, c) == v + TrimRight(tail, c)
  {
    var u := [c] + v;
    assert u[|u| - 1] == v[|v| - 1];
    TrimRightKeepsPrefix(u, tail, c);
    TrimLeftOnce(v, TrimRight(tail, c), c);
  }

  /** One leading `c` before a `v` that does not start with `c` is all TrimLeft removes. */
  lemma TrimLeftOnce(v: string, t: string, c: char)
    requires v != [] && v[0] != c
    ensures TrimLeft([c] + v + t, c) == v + t
  {
    assert ([c] + v + t)[1..] == v + t;
    assert (v + t)[0] == v[0];
  }

  // ---------------------------------------------------------------------------
  // strings.Split(s, string(sep)) and its inverse strings.Join.
  // ---------------------------------------------------------------------------

  /** strings.IndexByte, with |s| standing for "not found". */
  function Find(s: string, c: char): (i: nat)
    ensures i <= |s|
  {
    if |s| == 0 || s[0] == c then 0 else 1 + Find(s[1..], c)
  }

  /** Find gives the first `c`, or |s| when there is none. */
  lemma {:induction false} FindSpec(s: string, c: char)
    ensures Find(s, c) < |s| ==> s[Find(s, c)] == c
    ensures c !in s[..Find(s, c)]
    decreases |s|
  {
    if |s| > 0 && s[0] != c {
      FindSpec(s[1..], c);
      assert s[..Find(s, c)] == [s[0]] + s[1..][..Find(s[1..], c)];
    }
  }

  /**
   * strings.Split with a one-character separator: the text before the first
   * separator, then the split of what follows it; a string without a separator
   * (the empty string too) is a single segment.
   */
  function Split(s: string, sep: char): (parts: seq<string>)
    ensures |parts| >= 1
    decreases |s|
  {
    var i := Find(s, sep);
    if i == |s| then [s] else [s[..i]] + Split(s[i + 1..], sep)
  }

  /** strings.Join: the parts with `sep` between consecutive ones. */
  function Join(parts: seq<string>, sep: char): string {
    if |parts| == 0 then ""
    else if |parts| == 1 then parts[0]
    else parts[0] + [sep] + Join(parts[1..], sep)
  }

  /** A string without a separator is one segment. */
  lemma SplitNoSeparator(s: string, sep: char)
    requires sep !in s
    ensures Split(s, sep) == [s]
  {
    FindSpec(s, sep);
    assert s[..|s|] == s;
  }

  /** A separator right after a separator-free prefix ends the first segment. */
  lemma SplitAfterSeparator(a: string, w: string, sep: char)
    requires sep !in a
    ensures Split(a + [sep] + w, sep) == [a] + Split(w, sep)
  {
    var s := a + [sep] + w;
    FindSpec(s, sep);
    var i := Find(s, sep);
    assert s[|a|] == sep;
    assert s[..|a|] == a;
    assert i == |a|;
    assert s[i + 1..] == w;
  }

  /** No segment contains the separator. */
  lemma {:induction false} SplitSegments(s: string, sep: char)
    ensures forall k :: 0 <= k < |Split(s, sep)| ==> sep !in Split(s, sep)[k]
    decreases |s|
  {
    FindSpec(s, sep);
    var i := Find(s, sep);
    if i < |s| {
      SplitSegments(s[i + 1..], sep);
    } else {
      assert s[..i] == s;
    }
  }

  /** Split yields a single segment exactly when there is no separator. */
  lemma SplitSingle(s: string, sep: char)
    ensures |Split(s, sep)| == 1 <==> sep !in s
  {
    FindSpec(s, sep);
    if sep !in s {
      SplitNoSeparator(s, sep);
    } else {
      assert s[..|s|] == s;
    }
  }

  /** Splitting then joining gives back the string. */
  lemma {:induction false} JoinSplit(s: string, sep: char)
    ensures Join(Split(s, sep), sep) == s
    decreases |s|
  {
    FindSpec(s, sep);
    var i := Find(s, sep);
    if i < |s| {
      var a, w := s[..i], s[i + 1..];
      assert s == a + [sep] + w;
      SplitAfterSeparator(a, w, sep);
      JoinSplit(w, sep);
      JoinCons(a, Split(w, sep), sep);
    }
  }

  /** Joining a part in front of at least one more part puts a separator between them. */
  lemma JoinCons(x: string, rest: seq<string>, sep: char)
    requires |rest| >= 1
    ensures Join([x] + rest, sep) == x + [sep] + Join(rest, sep)
  {
    assert ([x] + rest)[1..] == rest;
  }

  /** Joining separator-free parts then splitting gives back the parts. */
  lemma {:induction false} SplitJoin(parts: seq<string>, sep: char)
    requires |parts| >= 1
    requires forall k :: 0 <= k < |parts| ==> sep !in parts[k]
    ensures Split(Join(parts, sep), sep) == parts
    decreases |parts|
  {
    if |parts| > 1 {
      SplitJoin(parts[1..], sep);
      SplitAfterSeparator(parts[0], Join(parts[1..], sep), sep);
      assert [parts[0]] + parts[1..] == parts;
    } else {
      SplitNoSeparator(parts[0], sep);
    }
  }

  lemma {:induction false} CountAppend(a: string, b: string, c: char)
    ensures Count(a + b, c) == Count(a, c) + Count(b, c)
    decreases |a|
  {
    if |a| > 0 {
      assert (a + b)[1..] == a[1..] + b;
      CountAppend(a[1..], b, c);
    } else {
      assert a + b == b;
    }
  }

  lemma {:induction false} CountAbsent(s: string, c: char)
    requires c !in s
    ensures Count(s, c) == 0
    decreases |s|
  {
    if |s| > 0 {
      assert s[0] != c;
      CountAbsent(s[1..], c);
    }
  }

  /** There is one more segment than there are separators. */
  lemma {:induction false} SplitCount(s: string, sep: char)
    ensures |Split(s, sep)| == Count(s, sep) + 1
    decreases |s|
  {
    FindSpec(s, sep);
    var i := Find(s, sep);
    if i < |s| {
      SplitCount(s[i + 1..], sep);
      assert s == s[..i] + ([sep] + s[i + 1..]);
      CountAppend(s[..i], [sep] + s[i + 1..], sep);
      CountAbsent(s[..i], sep);
      assert ([sep] + s[i + 1..])[1..] == s[i + 1..];
    } else {
      assert s[..i] == s;
      CountAbsent(s, sep);
    }
  }

  /**
   * In "a/b" followed by nothing or by a further separator, with a and b free of
   * separators, the second segment is b.
   */
  lemma SplitSecondSegment(a: string, b: string, t: string, sep: char)
    requires sep !in a && sep !in b
    requires t == [] || t[0] == sep
    ensures |Split(a + [sep] + b + t, sep)| >= 2 && Split(a + [sep] + b + t, sep)[1] == b
  {
    assert a + [sep] + b + t == a + [sep] + (b + t);
    SplitAfterSeparator(a, b + t, sep);
    SplitFirstSegment(b, t, sep);
  }

  lemma SplitFirstSegment(b: string, t: string, sep: char)
    requires sep !in b
    requires t == [] || t[0] == sep
    ensures Split(b + t, sep)[0] == b
  {
    if t == [] {
      assert b + t == b;
      SplitNoSeparator(b, sep);
    } else {
      assert b + t == b + [sep] + t[1..];
      SplitAfterSeparator(b, t[1..], sep);
    }
  }
}
