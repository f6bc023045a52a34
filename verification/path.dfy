/** The loops of src/path.c, proved against the functions of module Paths. */
module Path {
  import opened Paths
  import opened Options

  /** strspn(s + i, "/") */
  method SpanSlashes(s: string, i: nat) returns (n: nat)
    requires i <= |s|
    ensures i + n <= |s| && (i + n < |s| ==> s[i + n] != SLASH)
    ensures Names(s[i + n..]) == Names(s[i..])
  {
    n := 0;
    while i + n < |s| && s[i + n] == SLASH
      invariant i + n <= |s| && Names(s[i + n..]) == Names(s[i..])
    {
      assert s[i + n..][1..] == s[i + n + 1..];
      n := n + 1;
    }
  }

  /** strcspn(s + i, "/") */
  method SpanName(s: string, i: nat) returns (n: nat)
    requires i <= |s|
    ensures n == NameLength(s[i..])
  {
    n := 0;
    while i + n < |s| && s[i + n] != SLASH
      invariant i + n <= |s| && forall k | i <= k < i + n :: s[k] != SLASH
    {
      n := n + 1;
    }
    NameLengthIs(s[i..], n);
  }

  /** memcmp: only the sign of the result matters. */
  method MemCmp(x: string, y: string, n: nat) returns (d: int)
    requires n <= |x| && n <= |y|
    ensures d == 0 ==> x[..n] == y[..n]
    ensures d != 0 ==> exists m | 0 <= m < n :: x[..m] == y[..m] && x[m] != y[m] && (d < 0 <==> x[m] < y[m])
  {
    d := 0;
    for m := 0 to n
      invariant x[..m] == y[..m]
    {
      if x[m] != y[m] {
        d := x[m] as int - y[m] as int;
        return;
      }
    }
  }

  lemma {:induction false} FirstDifference(x: string, y: string, m: nat)
    requires m <= |x| && m <= |y| && x[..m] == y[..m]
    ensures CompareNames(x, y) == CompareNames(x[m..], y[m..])
  {
    if m > 0 {
      assert x[0] == x[..m][0] == y[..m][0] == y[0];
      assert x[1..][..m - 1] == x[..m][1..] && y[1..][..m - 1] == y[..m][1..];
      FirstDifference(x[1..], y[1..], m - 1);
      assert x[1..][m - 1..] == x[m..] && y[1..][m - 1..] == y[m..];
    }
  }

  /** The body of the loop after the slashes: two names are compared, first by bytes, then by length. */
  method NameCompare(x: string, y: string) returns (d: int)
    ensures d == CompareNames(x, y)
  {
    var j, k := |x|, |y|;
    var n := if j > k then k else j;
    d := MemCmp(x, y, n);
    if d != 0 {
      ghost var m :| 0 <= m < n && x[..m] == y[..m] && x[m] != y[m] && (d < 0 <==> x[m] < y[m]);
      FirstDifference(x, y, m);
      return (if d > 0 then 1 else 0) - (if d < 0 then 1 else 0);
    }
    FirstDifference(x, y, n);
    d := (if j > k then 1 else 0) - (if j < k then 1 else 0);
  }

  /** One round of the loop of path_compare, from positions `i` and `k`: either the order is decided, or the next
      names are the same and the rest is still to be compared. */
  method CompareRound(a: string, i: nat, b: string, k: nat) returns (done: bool, d: int, i': nat, k': nat)
    requires i <= |a| && k <= |b|
    ensures done ==> d == CompareLists(Names(a[i..]), Names(b[k..]))
    ensures !done ==> i < i' <= |a| && k' <= |b|
    ensures !done ==> CompareLists(Names(a[i'..]), Names(b[k'..])) == CompareLists(Names(a[i..]), Names(b[k..]))
  {
    var n := SpanSlashes(a, i);
    i' := i + n;
    n := SpanSlashes(b, k);
    k' := k + n;
    if i' == |a| && k' == |b| { return true, 0, i', k'; }
    if i' == |a| { NamesAtName(b[k'..]); return true, -1, i', k'; }
    if k' == |b| { NamesAtName(a[i'..]); return true, 1, i', k'; }
    done, d, i', k' := CompareFirst(a, i', b, k');
  }

  /** The part of the round that compares the names at `i` and `k`. */
  method CompareFirst(a: string, i: nat, b: string, k: nat) returns (done: bool, d: int, i': nat, k': nat)
    requires i < |a| && k < |b| && a[i] != SLASH && b[k] != SLASH
    ensures done ==> d == CompareLists(Names(a[i..]), Names(b[k..]))
    ensures !done ==> i < i' <= |a| && k' <= |b|
    ensures !done ==> CompareLists(Names(a[i'..]), Names(b[k'..])) == CompareLists(Names(a[i..]), Names(b[k..]))
  {
    var j := SpanName(a, i);
    var l := SpanName(b, k);
    NextName(a, i, j);
    NextName(b, k, l);
    d := NameCompare(a[i..i + j], b[k..k + l]);
    SameFirst(a[i..i + j], Names(a[i + j..]), b[k..k + l], Names(b[k + l..]));
    done, i', k' := d != 0, i + j, k + l;
  }

  lemma {:induction false} SameFirst(x: string, xs: seq<string>, y: string, ys: seq<string>)
    ensures CompareLists([x] + xs, [y] + ys) ==
            if CompareNames(x, y) != 0 then CompareNames(x, y) else CompareLists(xs, ys)
  {
    assert ([x] + xs)[1..] == xs && ([y] + ys)[1..] == ys;
  }

  /** path_compare */
  method PathCompare(a: string, b: string) returns (d: int)
    ensures d == ComparePaths(a, b)
  {
    d := (if IsAbsolute(a) then 1 else 0) - (if IsAbsolute(b) then 1 else 0);
    if d != 0 { return; }
    var i: nat, k: nat, done := 0, 0, false;
    assert a[0..] == a && b[0..] == b;
    while !done
      invariant i <= |a| && k <= |b|
      invariant if done then d == CompareLists(Names(a), Names(b))
                else CompareLists(Names(a[i..]), Names(b[k..])) == CompareLists(Names(a), Names(b))
      decreases !done, |a| - i
    {
      var i', k';
      done, d, i', k' := CompareRound(a, i, b, k);
      if !done { i, k := i', k'; }
    }
  }

  lemma {:induction false} NextName(a: string, i: nat, j: nat)
    requires i < |a| && a[i] != SLASH && j == NameLength(a[i..])
    ensures j > 0 && i + j <= |a| && Names(a[i..]) == [a[i..i + j]] + Names(a[i + j..])
  {
    NamesAtName(a[i..]);
    assert a[i..][..j] == a[i..i + j] && a[i..][j..] == a[i + j..];
  }

  /** stpcpy and strcpy, without the NUL. */
  method Copy(n: array<char>, at: nat, s: string) returns (end: nat)
    requires at + |s| <= n.Length
    modifies n
    ensures end == at + |s| && n[..end] == old(n[..at]) + s
  {
    for i := 0 to |s|
      invariant n[..at + i] == old(n[..at]) + s[..i]
    {
      n[at + i] := s[i];
    }
    end := at + |s|;
  }

  /** A buffer that holds the C string `r`. */
  ghost predicate IsCString(n: array<char>, r: string)
    reads n
  {
    |r| < n.Length && n[..|r|] == r && n[|r|] == '\0'
  }

  /** strdup */
  method StrDup(s: string) returns (n: array<char>)
    ensures fresh(n) && IsCString(n, s)
  {
    n := new char[|s| + 1];
    var e := Copy(n, 0, s);
    n[e] := '\0';
  }

  /** The checks of path_prefix_root. */
  method IsUnchanged(root: Option<string>, path: string) returns (same: bool)
    ensures same == Unchanged(root, path)
  {
    if root.None? || root.value == [] { return true; }
    var c := PathCompare(root.value, [SLASH]);
    if c == 0 { return true; }
    c := PathCompare(root.value, path);
    same := c == 0;
  }

  /** p goes back over the slashes at the end of the root. */
  method BackOverSlashes(n: array<char>, root: string) returns (p: nat)
    requires |root| <= n.Length && n[..|root|] == root
    ensures p <= |root| && n[..p] == TrimSlashes(root)
  {
    p := |root|;
    assert root[..p] == root;
    while p > 0 && n[p - 1] == SLASH
      invariant p <= |root| && TrimSlashes(root[..p]) == TrimSlashes(root)
    {
      assert root[p - 1] == n[..|root|][p - 1];
      assert root[..p][..p - 1] == root[..p - 1];
      p := p - 1;
    }
    assert p > 0 ==> root[p - 1] == n[..|root|][p - 1];
    assert n[..p] == n[..|root|][..p];
  }

  /** path_prefix_root: a fresh buffer with the result, inside what was allocated for it. */
  method PathPrefixRoot(root: Option<string>, path0: string) returns (n: array<char>)
    ensures fresh(n) && IsCString(n, PrefixRoot(root, path0))
  {
    var path := path0;
    while |path| > 1 && path[0] == SLASH && path[1] == SLASH
      invariant DropSlashes(path) == DropSlashes(path0)
      decreases |path|
    {
      path := path[1..];
    }
    var same := IsUnchanged(root, path);
    if same {
      n := StrDup(path);
      return;
    }
    n := new char[|root.value| + 1 + |path| + 1];
    var p := Copy(n, 0, root.value);
    assert n[..p] == root.value;
    p := BackOverSlashes(n, root.value);
    if path == [] || path[0] != SLASH {
      n[p] := SLASH;
      p := p + 1;
    }
    assert n[..p] == TrimSlashes(root.value) + if IsAbsolute(path) then [] else [SLASH];
    p := Copy(n, p, path);
    n[p] := '\0';
  }
}
