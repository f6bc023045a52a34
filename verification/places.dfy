/** Where a path leads, name by name: "." stays, ".." goes up. Symbolic links are not looked at. */
module Places {
  import opened Options
  import opened Paths

  function Step(at: seq<string>, name: string): seq<string> {
    if name == "." then at
    else if name == ".." then (if at == [] then [] else at[..|at| - 1])
    else at + [name]
  }

  /** The directory reached from `at`; above the root there is only the root. */
  function Resolve(at: seq<string>, names: seq<string>): seq<string> {
    if names == [] then at else Step(Resolve(at, names[..|names| - 1]), names[|names| - 1])
  }

  /** Where a process in `cwd` gets by a path. */
  function Where(cwd: seq<string>, path: string): seq<string> {
    Resolve(if IsAbsolute(path) then [] else cwd, Names(path))
  }

  /** What names come to from wherever they start: so many steps up, then these names down. */
  datatype Rel = Rel(up: nat, down: seq<string>)

  function Add(r: Rel, name: string): Rel {
    if name == "." then r
    else if name != ".." then Rel(r.up, r.down + [name])
    else if r.down == [] then Rel(r.up + 1, [])
    else Rel(r.up, r.down[..|r.down| - 1])
  }

  function Relative(names: seq<string>): Rel {
    if names == [] then Rel(0, []) else Add(Relative(names[..|names| - 1]), names[|names| - 1])
  }

  /** `at`, `up` steps higher. */
  function Climb(at: seq<string>, up: nat): seq<string> {
    at[..if up < |at| then |at| - up else 0]
  }

  lemma {:induction false} StepIs(at: seq<string>, r: Rel, name: string)
    ensures Step(Climb(at, r.up) + r.down, name) == Climb(at, Add(r, name).up) + Add(r, name).down
  {
    var base := Climb(at, r.up);
    if name == ".." {
      if r.down == [] {
        assert base + r.down == base;
        assert Climb(at, r.up + 1) + [] == Climb(at, r.up + 1);
      } else {
        assert (base + r.down)[..|base + r.down| - 1] == base + r.down[..|r.down| - 1];
      }
    } else if name != "." {
      assert base + r.down + [name] == base + (r.down + [name]);
    }
  }

  lemma {:induction false} ResolveIs(at: seq<string>, names: seq<string>)
    ensures Resolve(at, names) == Climb(at, Relative(names).up) + Relative(names).down
    decreases |names|
  {
    if names == [] {
      assert Climb(at, 0) + [] == at;
    } else {
      var most := names[..|names| - 1];
      ResolveIs(at, most);
      StepIs(at, Relative(most), names[|names| - 1]);
    }
  }

  lemma {:induction false} ResolveConcat(at: seq<string>, a: seq<string>, b: seq<string>)
    ensures Resolve(at, a + b) == Resolve(Resolve(at, a), b)
    decreases |b|
  {
    if b == [] {
      assert a + b == a;
    } else {
      ResolveConcat(at, a, b[..|b| - 1]);
      assert (a + b)[..|a + b| - 1] == a + b[..|b| - 1];
    }
  }

  /** What single names do. */
  lemma {:induction false} NamesLead(at: seq<string>, name: string)
    ensures Resolve(at, ["."]) == at && Resolve([], [".."]) == []
    ensures Resolve(at + [name], [".."]) == at
    ensures name != "." && name != ".." ==> Resolve(at, [name]) == at + [name]
  {
    ResolveMore(at, [], ".", ["."]);
    ResolveMore([], [], "..", [".."]);
    ResolveMore(at + [name], [], "..", [".."]);
    ResolveMore(at, [], name, [name]);
    assert (at + [name])[..|at|] == at;
    assert "."[0] == '.' && |"."| != |".."|;
  }

  // ---------------------------------------------------------------- inside a root

  /** Names that climb `up` steps out of `r` have to go down the same way again. */
  predicate ComesBack(r: seq<string>, names: seq<string>) {
    var rel := Relative(names);
    r[|Climb(r, rel.up)|..] <= rel.down
  }

  lemma {:induction false} PrefixOf(r: seq<string>, n: nat, down: seq<string>)
    requires n <= |r|
    ensures r <= r[..n] + down <==> r[n..] <= down
  {
    var t := r[..n] + down;
    if r <= t {
      assert forall k | 0 <= k < |r| - n :: r[n..][k] == r[n + k] == t[n + k] == down[k];
    }
    if r[n..] <= down {
      assert forall k | n <= k < |r| :: r[k] == r[n..][k - n] == down[k - n] == t[k];
    }
  }

  lemma {:induction false} ResolvedInside(r: seq<string>, names: seq<string>)
    ensures r <= Resolve(r, names) <==> ComesBack(r, names)
  {
    ResolveIs(r, names);
    PrefixOf(r, |Climb(r, Relative(names).up)|, Relative(names).down);
  }

  /** The path leads to the root or below it. */
  predicate LeadsInside(cwd: seq<string>, root: string, path: string) {
    Where(cwd, root) <= Where(cwd, path)
  }

  /** What can be checked on a destination before it is mounted. An empty root is no root: the destination then counts
      from the root of the host, and is inside only if it leads into the current directory. A destination that equals
      the root is the root. */
  predicate Stays(cwd: seq<string>, root: string, dst: string) {
    if root == [] then cwd <= Relative(Names(dst)).down
    else ComparePaths(root, dst) == 0 || ComesBack(Where(cwd, root), Names(dst))
  }

  /** Exactly when an absolute destination, put under a root, leads to that root or below it. */
  lemma {:induction false} InsideExactly(cwd: seq<string>, root: string, dst: string)
    requires IsAbsolute(dst)
    ensures LeadsInside(cwd, root, PrefixRoot(Some(root), dst)) <==> Stays(cwd, root, dst)
  {
    if Unchanged(Some(root), dst) {
      PrefixUnchanged(Some(root), dst);
      UnchangedMeans(Some(root), dst);
      PathsOrder(root, dst);
      ResolveIs([], Names(dst));
      if root == [] {
        assert Climb([], Relative(Names(dst)).up) + Relative(Names(dst)).down == Relative(Names(dst)).down;
      } else if ComparePaths(root, dst) != 0 {
        assert Where(cwd, root) == [];
      }
    } else {
      PrefixAppends(Some(root), dst);
      var start := if IsAbsolute(root) then [] else cwd;
      ResolveConcat(start, Names(root), Names(dst));
      ResolvedInside(Where(cwd, root), Names(dst));
    }
  }

  lemma {:induction false} NeverUp(names: seq<string>)
    requires ".." !in names
    ensures Relative(names).up == 0
    decreases |names|
  {
    if names != [] {
      NeverUp(names[..|names| - 1]);
    }
  }

  /** A destination without ".." stays inside every root that is one. */
  lemma {:induction false} NoParentStays(cwd: seq<string>, root: string, dst: string)
    requires root != [] && ".." !in Names(dst)
    ensures Stays(cwd, root, dst)
  {
    NeverUp(Names(dst));
  }

  /** The characters of the names are those of the path. */
  lemma {:induction false} NamesWithout(path: string, c: char)
    requires c !in path
    ensures forall k | 0 <= k < |Names(path)| :: c !in Names(path)[k]
    decreases |path|
  {
    if path != [] {
      if path[0] == SLASH {
        NamesWithout(path[1..], c);
      } else {
        NamesAtName(path);
        NamesWithout(path[NameLength(path)..], c);
      }
    }
  }

  lemma {:induction false} NoDotsStays(cwd: seq<string>, root: string, dst: string)
    requires root != [] && '.' !in dst
    ensures Stays(cwd, root, dst)
  {
    NamesWithout(dst, '.');
    assert ".."[0] == '.';
    NoParentStays(cwd, root, dst);
  }

  lemma {:induction false} NameThenRest(x: string, y: string, path: string)
    requires x != [] && (forall k | 0 <= k < |x| :: x[k] != SLASH) && (y == [] || y[0] == SLASH)
    requires path == [SLASH] + x + y
    ensures Names(path) == [x] + Names(y)
  {
    FirstName(x, y);
    assert path[1..] == x + y;
  }

  lemma {:induction false} ResolveMore(at: seq<string>, names: seq<string>, name: string, all: seq<string>)
    requires all == names + [name]
    ensures Resolve(at, all) == Step(Resolve(at, names), name)
  {
    assert all[..|all| - 1] == names && all[|all| - 1] == name;
  }

  lemma {:induction false} ThreeSteps(x: string, y: string, all: seq<string>)
    requires x != "." && x != ".." && y != "." && y != ".." && all == [x, "..", y]
    ensures Resolve([], [x]) == [x] && Resolve([], all) == [y]
  {
    ResolveMore([], [], x, [x]);
    ResolveMore([], [x], "..", [x, ".."]);
    ResolveMore([], [x, ".."], y, all);
  }

  /** Up once and down another way leaves a root of one name. */
  lemma {:induction false} UpAndAway(cwd: seq<string>, root: string, dst: string, x: string, y: string)
    requires IsAbsolute(root) && IsAbsolute(dst) && Names(root) == [x] && Names(dst) == ["..", y]
    requires x != "." && x != ".." && y != "." && y != ".."
    ensures Where(cwd, root) == [x] && Where(cwd, PrefixRoot(Some(root), dst)) == [y]
  {
    UnchangedMeans(Some(root), dst);
    PrefixAppends(Some(root), dst);
    ThreeSteps(x, y, [x] + ["..", y]);
  }

  /** The destination /../b is put under the root /r as /r/../b, which is /b. */
  lemma {:induction false} DotsEscape(cwd: seq<string>, root: string, dst: string)
    requires root == "/r" && dst == "/../b"
    ensures Where(cwd, root) == ["r"] && Where(cwd, PrefixRoot(Some(root), dst)) == ["b"]
  {
    NameThenRest("b", "", "/b");
    NameThenRest("..", "/b", dst);
    NameThenRest("r", "", root);
    UpAndAway(cwd, root, dst, "r", "b");
  }
}
