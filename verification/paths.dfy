/** What the functions of src/path.c compute. Paths are C strings without their NUL. */
module Paths {
  import opened Options
  import opened Sequences

  const SLASH: char := '/'

  predicate IsAbsolute(p: string) {
    p != [] && p[0] == SLASH
  }

  /** Length of the name that `s` starts with. */
  function NameLength(s: string): (n: nat)
    ensures n <= |s| && (n < |s| ==> s[n] == SLASH)
    ensures forall k | 0 <= k < n :: s[k] != SLASH
  {
    if s == [] || s[0] == SLASH then 0 else 1 + NameLength(s[1..])
  }

  /** The names of a path, slashes aside. */
  function Names(s: string): seq<string>
    decreases |s|
  {
    if s == [] then []
    else if s[0] == SLASH then Names(s[1..])
    else [s[..NameLength(s)]] + Names(s[NameLength(s)..])
  }

  // ---------------------------------------------------------------- order

  /** Byte by byte; a proper prefix comes first. */
  function CompareNames(a: string, b: string): (d: int)
    ensures -1 <= d <= 1
  {
    if a == [] && b == [] then 0
    else if a == [] then -1
    else if b == [] then 1
    else if a[0] < b[0] then -1
    else if a[0] > b[0] then 1
    else CompareNames(a[1..], b[1..])
  }

  /** Name by name; a proper prefix comes first. */
  function CompareLists(a: seq<string>, b: seq<string>): (d: int)
    ensures -1 <= d <= 1
  {
    if a == [] && b == [] then 0
    else if a == [] then -1
    else if b == [] then 1
    else if CompareNames(a[0], b[0]) != 0 then CompareNames(a[0], b[0])
    else CompareLists(a[1..], b[1..])
  }

  /** Relative paths come before absolute ones. */
  function ComparePaths(a: string, b: string): (d: int)
    ensures -1 <= d <= 1
  {
    if IsAbsolute(a) != IsAbsolute(b) then (if IsAbsolute(a) then 1 else -1)
    else CompareLists(Names(a), Names(b))
  }

  lemma {:induction false} NamesOrder(a: string, b: string)
    ensures CompareNames(a, b) == -CompareNames(b, a)
    ensures CompareNames(a, b) == 0 <==> a == b
  {
    if a != [] && b != [] && a[0] == b[0] {
      NamesOrder(a[1..], b[1..]);
      assert a == [a[0]] + a[1..] && b == [b[0]] + b[1..];
    }
  }

  lemma {:induction false} NamesTransitive(a: string, b: string, c: string)
    requires CompareNames(a, b) <= 0 && CompareNames(b, c) <= 0
    ensures CompareNames(a, c) <= 0
  {
    if a != [] && b != [] && c != [] && a[0] == b[0] == c[0] {
      NamesTransitive(a[1..], b[1..], c[1..]);
    }
  }

  lemma {:induction false} ListsOrder(a: seq<string>, b: seq<string>)
    ensures CompareLists(a, b) == -CompareLists(b, a)
    ensures CompareLists(a, b) == 0 <==> a == b
  {
    if a != [] && b != [] {
      NamesOrder(a[0], b[0]);
      ListsOrder(a[1..], b[1..]);
      assert a == [a[0]] + a[1..] && b == [b[0]] + b[1..];
    }
  }

  lemma {:induction false} ListsTransitive(a: seq<string>, b: seq<string>, c: seq<string>)
    requires CompareLists(a, b) <= 0 && CompareLists(b, c) <= 0
    ensures CompareLists(a, c) <= 0
  {
    if a != [] && b != [] && c != [] {
      NamesOrder(a[0], b[0]);
      NamesOrder(b[0], c[0]);
      NamesOrder(a[0], c[0]);
      NamesTransitive(a[0], b[0], c[0]);
      if a[0] == b[0] == c[0] {
        ListsTransitive(a[1..], b[1..], c[1..]);
      }
    }
  }

  /** path_compare is a total order on (kind, names): antisymmetric, transitive, and zero just for the same path. */
  lemma {:induction false} PathsOrder(a: string, b: string)
    ensures ComparePaths(a, b) == -ComparePaths(b, a)
    ensures ComparePaths(a, b) == 0 <==> IsAbsolute(a) == IsAbsolute(b) && Names(a) == Names(b)
  {
    ListsOrder(Names(a), Names(b));
  }

  lemma {:induction false} PathsTransitive(a: string, b: string, c: string)
    requires ComparePaths(a, b) <= 0 && ComparePaths(b, c) <= 0
    ensures ComparePaths(a, c) <= 0
  {
    if IsAbsolute(a) == IsAbsolute(b) == IsAbsolute(c) {
      ListsTransitive(Names(a), Names(b), Names(c));
    }
  }

  /** The names are alike up to `n`; there `a` ends, or has the smaller byte. */
  ghost predicate NameFirstAt(a: string, b: string, n: nat) {
    n <= |a| && n < |b| && a[..n] == b[..n] && (n == |a| || a[n] < b[n])
  }

  ghost predicate NameFirst(a: string, b: string) { exists n: nat :: NameFirstAt(a, b, n) }

  /** The order of names is that of a dictionary: by the first byte that differs, and a name before its extensions. */
  lemma {:induction false} NamesLexicographic(a: string, b: string)
    ensures CompareNames(a, b) == -1 <==> NameFirst(a, b)
  {
    if b == [] || (a != [] && a[0] > b[0]) {
      forall n: nat | NameFirstAt(a, b, n) ensures n == 0 {
        SameHead(a, b, n);
      }
    } else if a == [] || a[0] < b[0] {
      assert NameFirstAt(a, b, 0);
    } else {
      NamesLexicographic(a[1..], b[1..]);
      forall n: nat | NameFirstAt(a[1..], b[1..], n) ensures NameFirstAt(a, b, n + 1) {
        assert a[..n + 1] == [a[0]] + a[1..][..n] && b[..n + 1] == [b[0]] + b[1..][..n];
      }
      forall n: nat | NameFirstAt(a, b, n) ensures n > 0 && NameFirstAt(a[1..], b[1..], n - 1) {
        assert a[1..][..n - 1] == a[..n][1..] && b[1..][..n - 1] == b[..n][1..];
      }
    }
  }

  /** The lists are alike up to `n`; there `a` ends, or has the name that comes first. */
  ghost predicate ListFirstAt(a: seq<string>, b: seq<string>, n: nat) {
    n <= |a| && n < |b| && a[..n] == b[..n] && (n == |a| || NameFirst(a[n], b[n]))
  }

  ghost predicate ListFirst(a: seq<string>, b: seq<string>) { exists n: nat :: ListFirstAt(a, b, n) }

  lemma {:induction false} SameHead<E>(a: seq<E>, b: seq<E>, n: nat)
    requires n <= |a| && n <= |b| && a[..n] == b[..n]
    ensures n > 0 ==> a[0] == b[0]
  {
    assert n > 0 ==> a[..n][0] == b[..n][0];
  }

  lemma {:induction false} ListsLexicographic(a: seq<string>, b: seq<string>)
    ensures CompareLists(a, b) == -1 <==> ListFirst(a, b)
  {
    if a == [] || b == [] {
      assert b != [] ==> ListFirstAt(a, b, 0);
    } else {
      NamesOrder(a[0], b[0]);
      NamesLexicographic(a[0], b[0]);
      if a[0] == b[0] {
        ListsLexicographic(a[1..], b[1..]);
        forall n: nat | ListFirstAt(a[1..], b[1..], n) ensures ListFirstAt(a, b, n + 1) {
          assert a[..n + 1] == [a[0]] + a[1..][..n] && b[..n + 1] == [b[0]] + b[1..][..n];
        }
        forall n: nat | ListFirstAt(a, b, n) ensures n > 0 && ListFirstAt(a[1..], b[1..], n - 1) {
          assert a[1..][..n - 1] == a[..n][1..] && b[1..][..n - 1] == b[..n][1..];
        }
      } else {
        assert CompareNames(a[0], b[0]) == -1 ==> ListFirstAt(a, b, 0);
        forall n: nat | ListFirstAt(a, b, n) ensures n == 0 {
          SameHead(a, b, n);
        }
      }
    }
  }

  /** A path comes first if it alone is relative, or, both being of one kind, if its names come first. */
  lemma {:induction false} PathsLexicographic(a: string, b: string)
    ensures ComparePaths(a, b) == -1 <==>
            (!IsAbsolute(a) && IsAbsolute(b)) || (IsAbsolute(a) == IsAbsolute(b) && ListFirst(Names(a), Names(b)))
  {
    ListsLexicographic(Names(a), Names(b));
  }

  lemma {:induction false} CommonRoot(r: seq<string>, a: seq<string>, b: seq<string>)
    ensures CompareLists(r + a, r + b) == CompareLists(a, b)
  {
    if r == [] {
      assert r + a == a && r + b == b;
    } else {
      NamesOrder(r[0], r[0]);
      CommonRoot(r[1..], a, b);
      assert (r + a)[1..] == r[1..] + a && (r + b)[1..] == r[1..] + b;
    }
  }

  // ---------------------------------------------------------------- names of longer strings

  lemma {:induction false} NameLengthIs(s: string, n: nat)
    requires n <= |s| && (n < |s| ==> s[n] == SLASH) && forall k | 0 <= k < n :: s[k] != SLASH
    ensures NameLength(s) == n
  {
    if n > 0 {
      NameLengthIs(s[1..], n - 1);
    }
  }

  /** Cutting a path at a slash cuts its list of names. */
  lemma {:induction false} NamesConcat(a: string, b: string)
    requires a == [] || b == [] || a[|a| - 1] == SLASH || b[0] == SLASH
    ensures Names(a + b) == Names(a) + Names(b)
    decreases |a|
  {
    if a == [] {
      assert a + b == b;
    } else if a[0] == SLASH {
      NamesConcat(a[1..], b);
      assert (a + b)[1..] == a[1..] + b;
    } else {
      var x, y := a[..NameLength(a)], a[NameLength(a)..];
      NamesConcat(y, b);
      NamesAfter(x, y, b, a);
    }
  }

  lemma {:induction false} NamesAfter(x: string, y: string, b: string, a: string)
    requires a == x + y && x != [] && (forall k | 0 <= k < |x| :: x[k] != SLASH)
    requires (y == [] || y[0] == SLASH) && (y + b == [] || (y + b)[0] == SLASH)
    requires Names(y + b) == Names(y) + Names(b)
    ensures Names(a + b) == Names(a) + Names(b)
  {
    FirstName(x, y);
    FirstName(x, y + b);
    Assoc(x, y, b);
    Assoc([x], Names(y), Names(b));
  }

  lemma {:induction false} FirstName(x: string, y: string)
    requires x != [] && (forall k | 0 <= k < |x| :: x[k] != SLASH) && (y == [] || y[0] == SLASH)
    ensures Names(x + y) == [x] + Names(y)
  {
    NameLengthIs(x + y, |x|);
    assert (x + y)[..|x|] == x && (x + y)[|x|..] == y;
  }

  lemma {:induction false} OnlySlashes(s: string)
    requires forall k | 0 <= k < |s| :: s[k] == SLASH
    ensures Names(s) == []
  {
    if s != [] {
      OnlySlashes(s[1..]);
    }
  }

  /** A path that starts with a name has a first name, and it is not empty. */
  lemma {:induction false} NamesAtName(s: string)
    requires s != [] && s[0] != SLASH
    ensures Names(s) == [s[..NameLength(s)]] + Names(s[NameLength(s)..]) && NameLength(s) > 0
  {}

  // ---------------------------------------------------------------- prefixing

  /** `path` without all but one of its leading slashes. */
  function DropSlashes(path: string): string {
    if |path| > 1 && path[0] == SLASH && path[1] == SLASH then DropSlashes(path[1..]) else path
  }

  /** `root` without its trailing slashes. */
  function TrimSlashes(root: string): (r: string)
    ensures |r| <= |root| && r == root[..|r|]
  {
    if root != [] && root[|root| - 1] == SLASH then TrimSlashes(root[..|root| - 1]) else root
  }

  /** A root that makes no difference to any path. */
  predicate NoRoot(root: Option<string>) {
    root.None? || root.value == [] || ComparePaths(root.value, [SLASH]) == 0
  }

  /** When path_prefix_root hands the path back. */
  predicate Unchanged(root: Option<string>, path: string) {
    NoRoot(root) || ComparePaths(root.value, path) == 0
  }

  function PrefixRoot(root: Option<string>, path: string): string {
    var p := DropSlashes(path);
    if Unchanged(root, p) then p
    else TrimSlashes(root.value) + (if IsAbsolute(p) then [] else [SLASH]) + p
  }

  lemma {:induction false} DropKeepsNames(path: string)
    ensures Names(DropSlashes(path)) == Names(path) && IsAbsolute(DropSlashes(path)) == IsAbsolute(path)
  {
    if |path| > 1 && path[0] == SLASH && path[1] == SLASH {
      DropKeepsNames(path[1..]);
    }
  }

  lemma {:induction false} TrimKeepsNames(root: string)
    ensures Names(TrimSlashes(root)) == Names(root)
    ensures Names(root) != [] ==> TrimSlashes(root) != []
    ensures TrimSlashes(root) != [] ==> TrimSlashes(root)[|TrimSlashes(root)| - 1] != SLASH
    decreases |root|
  {
    if root != [] && root[|root| - 1] == SLASH {
      var r := root[..|root| - 1];
      TrimKeepsNames(r);
      NamesConcat(r, [SLASH]);
      assert root == r + [SLASH];
      assert Names([SLASH]) == [];
    }
  }

  lemma {:induction false} UnchangedMeans(root: Option<string>, path: string)
    ensures Unchanged(root, path) <==>
            root.None? || root.value == [] || (IsAbsolute(root.value) && Names(root.value) == []) ||
            (IsAbsolute(root.value) == IsAbsolute(path) && Names(root.value) == Names(path))
  {
    if root.Some? {
      PathsOrder(root.value, [SLASH]);
      PathsOrder(root.value, path);
      OnlySlashes([SLASH]);
    }
  }

  /** A root that is worth prefixing has names. */
  lemma {:induction false} RootHasNames(root: string)
    requires root != [] && !(IsAbsolute(root) && Names(root) == [])
    ensures Names(root) != []
  {
    if !IsAbsolute(root) {
      NamesAtName(root);
    }
  }

  /** Outside the cases that leave the path alone, prefixing appends the names and keeps the kind of the root. */
  lemma {:induction false} PrefixAppends(root: Option<string>, path: string)
    requires !Unchanged(root, path)
    ensures var r := PrefixRoot(root, path);
            Names(r) == Names(root.value) + Names(path) && IsAbsolute(r) == IsAbsolute(root.value)
  {
    var p := DropSlashes(path);
    DropKeepsNames(path);
    UnchangedMeans(root, path);
    UnchangedMeans(root, p);
    RootHasNames(root.value);
    TrimKeepsNames(root.value);
    var t := TrimSlashes(root.value);
    if IsAbsolute(p) {
      NamesConcat(t, p);
      assert t + [] + p == t + p;
    } else {
      NamesConcat(t, [SLASH]);
      NamesConcat(t + [SLASH], p);
      OnlySlashes([SLASH]);
      assert Names(t) + [] == Names(t);
    }
  }

  /** In the other cases the path keeps its names and its kind. */
  lemma {:induction false} PrefixUnchanged(root: Option<string>, path: string)
    requires Unchanged(root, path)
    ensures Names(PrefixRoot(root, path)) == Names(path) && IsAbsolute(PrefixRoot(root, path)) == IsAbsolute(path)
  {
    DropKeepsNames(path);
    UnchangedMeans(root, path);
    UnchangedMeans(root, DropSlashes(path));
  }

  lemma {:induction false} NoNames(s: string)
    requires Names(s) == []
    ensures forall k | 0 <= k < |s| :: s[k] == SLASH
  {
    if s != [] {
      NoNames(s[1..]);
    }
  }

  /** The text itself: without slashes to spare, the root and the path with one slash between them. */
  lemma {:induction false} PrefixSpelled(root: string, path: string)
    requires root != [] && root[|root| - 1] != SLASH && !(|path| > 1 && path[0] == SLASH && path[1] == SLASH)
    requires ComparePaths(root, path) != 0
    ensures PrefixRoot(Some(root), path) == if path != [] && path[0] == SLASH then root + path else root + "/" + path
  {
    PathsOrder(root, [SLASH]);
    OnlySlashes([SLASH]);
    if Names(root) == [] {
      NoNames(root);
    }
    assert !NoRoot(Some(root)) && !Unchanged(Some(root), path);
    assert TrimSlashes(root) == root && DropSlashes(path) == path;
    if IsAbsolute(path) {
      assert root + [] == root;
    }
  }

  /** Slashes to spare, at the end of the root or at the beginning of an absolute path, make no difference. */
  lemma {:induction false} SlashesToSpare(root: string, path: string)
    ensures root != [] ==> PrefixRoot(Some(root + [SLASH]), path) == PrefixRoot(Some(root), path)
    ensures IsAbsolute(path) ==> PrefixRoot(Some(root), [SLASH] + path) == PrefixRoot(Some(root), path)
  {
    var longer := root + [SLASH];
    NamesConcat(root, [SLASH]);
    OnlySlashes([SLASH]);
    assert Names(longer) == Names(root);
    assert longer[..|longer| - 1] == root && ([SLASH] + path)[1..] == path;
    UnchangedMeans(Some(root), DropSlashes(path));
    UnchangedMeans(Some(longer), DropSlashes(path));
  }

  /** The manual makes a path relative to its root. It is, exactly unless the root has names and is the path itself. */
  lemma {:induction false} PrefixRelative(root: string, path: string)
    ensures Names(PrefixRoot(Some(root), path)) == Names(root) + Names(path) <==>
            Names(root) == [] || !(IsAbsolute(root) == IsAbsolute(path) && Names(root) == Names(path))
  {
    UnchangedMeans(Some(root), path);
    if Unchanged(Some(root), path) {
      PrefixUnchanged(Some(root), path);
      if Names(root) != [] {
        assert |Names(root) + Names(path)| > |Names(path)|;
      } else {
        assert Names(root) + Names(path) == Names(path);
      }
    } else {
      PrefixAppends(Some(root), path);
    }
  }

  /** Under the root /srv/c, the path /srv/c is the root and not /srv/c/srv/c. */
  lemma {:induction false} RootItself(root: string)
    requires root == "/srv/c"
    ensures PrefixRoot(Some(root), root) == root && Names(root) != []
  {
    PathsOrder(root, root);
    NamesAtName(root[1..]);
  }

  /** Exactly when prefixing preserves the order of two absolute paths: always without a root; under a root, the root
      itself, being left alone, keeps its place only relative to what sorts after it. */
  lemma {:induction false} PrefixOrder(root: Option<string>, p: string, q: string)
    requires IsAbsolute(p) && IsAbsolute(q)
    ensures ComparePaths(PrefixRoot(root, p), PrefixRoot(root, q)) == ComparePaths(p, q) <==>
            NoRoot(root) || KeepsPlace(root.value, p, q)
  {
    if NoRoot(root) {
      PrefixUnchanged(root, p);
      PrefixUnchanged(root, q);
    } else {
      OrderUnderRoot(root.value, p, q);
    }
  }

  predicate KeepsPlace(root: string, p: string, q: string) {
    var same, same' := ComparePaths(root, p) == 0, ComparePaths(root, q) == 0;
    same == same' || (same && ComparePaths(root, q) < 0) || (same' && ComparePaths(root, p) < 0)
  }

  lemma {:induction false} OrderUnderRoot(root: string, p: string, q: string)
    requires !NoRoot(Some(root)) && IsAbsolute(p) && IsAbsolute(q)
    ensures ComparePaths(PrefixRoot(Some(root), p), PrefixRoot(Some(root), q)) == ComparePaths(p, q) <==>
            KeepsPlace(root, p, q)
  {
    var a, b := PrefixRoot(Some(root), p), PrefixRoot(Some(root), q);
    PathsOrder(root, p);
    PathsOrder(root, q);
    PathsOrder(root, [SLASH]);
    PathsOrder(p, q);
    OnlySlashes([SLASH]);
    RootHasNames(root);
    if ComparePaths(root, p) == 0 {
      PrefixUnchanged(Some(root), p);
      if ComparePaths(root, q) == 0 {
        PrefixUnchanged(Some(root), q);
      } else {
        PrefixAppends(Some(root), q);
        AgainstRoot(Names(root), Names(q));
      }
    } else {
      PrefixAppends(Some(root), p);
      if ComparePaths(root, q) == 0 {
        PrefixUnchanged(Some(root), q);
        AgainstRoot(Names(root), Names(p));
        PathsOrder(a, b);
      } else {
        PrefixAppends(Some(root), q);
        CommonRoot(Names(root), Names(p), Names(q));
      }
    }
  }

  /** Under the root /r, the path /r sorts behind /a, but its prefixed form, which is /r again, sorts before /r/a. */
  lemma {:induction false} PrefixReorders()
    ensures ComparePaths("/r", "/a") == 1
    ensures ComparePaths(PrefixRoot(Some("/r"), "/r"), PrefixRoot(Some("/r"), "/a")) == -1
  {
    assert Names("/r") == ["r"] && Names("/a") == ["a"] by {
      FirstName("r", "");
      FirstName("a", "");
      assert "/r"[1..] == "r" + "" && "/a"[1..] == "a" + "";
    }
    assert CompareNames("r", "a") == 1;
    PathsOrder("/r", "/r");
    PathsOrder("/r", "/a");
    PathsOrder("/r", [SLASH]);
    OnlySlashes([SLASH]);
    PrefixUnchanged(Some("/r"), "/r");
    PrefixAppends(Some("/r"), "/a");
    AgainstRoot(["r"], ["a"]);
    assert CompareLists(["r"], ["r"] + ["a"]) == -1;
  }

  lemma {:induction false} AgainstRoot(r: seq<string>, a: seq<string>)
    requires r != []
    ensures CompareLists(r, r + a) == if a == [] then 0 else -1
    ensures a == [] ==> CompareLists(r, a) == 1
  {
    CommonRoot(r, [], a);
    assert r + [] == r;
  }
}
