/** The mathematics of the bottom-up merge sort of deps/ut/utlist.h, on sequences.
    `cmp` is the C comparison callback: negative, zero or positive. */
module MergeSpec {
  import opened Sequences

  /** What the sort macros need of the callback: a total preorder on the elements at hand. */
  ghost predicate Preorder<E>(cmp: (E, E) -> int, u: set<E>) {
    && (forall x, y | x in u && y in u :: cmp(x, y) <= 0 <==> cmp(y, x) >= 0)
    && (forall x, y, z | x in u && y in u && z in u && cmp(x, y) <= 0 && cmp(y, z) <= 0 :: cmp(x, z) <= 0)
  }

  ghost predicate Within<E>(s: seq<E>, u: set<E>) {
    forall i | 0 <= i < |s| :: s[i] in u
  }

  ghost predicate Sorted<E>(cmp: (E, E) -> int, s: seq<E>) {
    forall i, j | 0 <= i < j < |s| :: cmp(s[i], s[j]) <= 0
  }

  /** The elements of `s` that compare equal to `g`, in the order they stand in. */
  ghost function Class<E>(cmp: (E, E) -> int, g: E, s: seq<E>): seq<E> {
    if s == [] then [] else
      (if cmp(s[0], g) == 0 then [s[0]] else []) + Class(cmp, g, s[1..])
  }

  /** `t` keeps the relative order that elements comparing equal have in `s`. */
  ghost predicate Stable<E>(cmp: (E, E) -> int, s: seq<E>, t: seq<E>) {
    forall g | g in s :: Class(cmp, g, t) == Class(cmp, g, s)
  }

  /** The specification of a stable sort, independent of any algorithm. */
  ghost predicate StableSortOf<E>(cmp: (E, E) -> int, s: seq<E>, t: seq<E>) {
    Sorted(cmp, t) && multiset(t) == multiset(s) && Stable(cmp, s, t)
  }

  // ---------------------------------------------------------------- the algorithm

  ghost function Merge<E>(cmp: (E, E) -> int, p: seq<E>, q: seq<E>): (m: seq<E>)
    ensures |m| == |p| + |q|
  {
    if p == [] then q
    else if q == [] then p
    else if cmp(p[0], q[0]) <= 0 then [p[0]] + Merge(cmp, p[1..], q)
    else [q[0]] + Merge(cmp, p, q[1..])
  }

  ghost function Min(a: int, b: int): int { if a <= b then a else b }

  /** One pass at width `k`: neighbouring runs of length `k` are merged two by two. */
  ghost function Pass<E>(cmp: (E, E) -> int, s: seq<E>, k: nat): (t: seq<E>)
    requires k >= 1
    ensures |t| == |s|
    decreases |s|
  {
    if s == [] then [] else
      var mid := Min(k, |s|);
      var hi := Min(2 * k, |s|);
      Merge(cmp, s[..mid], s[mid..hi]) + Pass(cmp, s[hi..], k)
  }

  /** Passes at widths k, 2k, 4k, ... until one pass needs a single merge. */
  ghost function Passes<E>(cmp: (E, E) -> int, s: seq<E>, k: nat): seq<E>
    requires k >= 1
    decreases |s| - k
  {
    if |s| <= 2 * k then Pass(cmp, s, k) else Passes(cmp, Pass(cmp, s, k), 2 * k)
  }

  /** `s` is a concatenation of sorted runs of length `k`; the last may be shorter. */
  ghost predicate Runs<E>(cmp: (E, E) -> int, s: seq<E>, k: nat)
    requires k >= 1
    decreases |s|
  {
    s == [] || (Sorted(cmp, s[..Min(k, |s|)]) && Runs(cmp, s[Min(k, |s|)..], k))
  }

  // ---------------------------------------------------------------- permutation

  lemma {:induction false} MergePermutes<E>(cmp: (E, E) -> int, p: seq<E>, q: seq<E>)
    ensures multiset(Merge(cmp, p, q)) == multiset(p) + multiset(q)
    decreases |p| + |q|
  {
    if p != [] && q != [] {
      assert p == [p[0]] + p[1..] && q == [q[0]] + q[1..];
      if cmp(p[0], q[0]) <= 0 {
        MergePermutes(cmp, p[1..], q);
      } else {
        MergePermutes(cmp, p, q[1..]);
      }
    }
  }

  lemma {:induction false} CutInThree<E>(s: seq<E>, i: nat, j: nat)
    requires i <= j <= |s|
    ensures s == s[..i] + s[i..j] + s[j..]
    ensures multiset(s) == multiset(s[..i]) + multiset(s[i..j]) + multiset(s[j..])
  {
    assert s == s[..i] + s[i..j] + s[j..];
  }

  lemma {:induction false} MultisetOfConcat<E>(a: seq<E>, b: seq<E>)
    ensures multiset(a + b) == multiset(a) + multiset(b)
  {}

  lemma {:induction false} PassPermutes<E>(cmp: (E, E) -> int, s: seq<E>, k: nat)
    requires k >= 1
    ensures multiset(Pass(cmp, s, k)) == multiset(s)
    decreases |s|
  {
    if s != [] {
      var mid, hi := Min(k, |s|), Min(2 * k, |s|);
      CutInThree(s, mid, hi);
      MergePermutes(cmp, s[..mid], s[mid..hi]);
      PassPermutes(cmp, s[hi..], k);
      MultisetOfConcat(Merge(cmp, s[..mid], s[mid..hi]), Pass(cmp, s[hi..], k));
    }
  }

  lemma {:induction false} PermutationWithin<E>(s: seq<E>, t: seq<E>, u: set<E>)
    requires multiset(s) == multiset(t) && Within(s, u)
    ensures Within(t, u)
  {
    forall i | 0 <= i < |t| ensures t[i] in u {
      assert t[i] in multiset(t);
      assert t[i] in multiset(s);
    }
  }

  // ---------------------------------------------------------------- order

  ghost predicate Below<E>(cmp: (E, E) -> int, x: E, s: seq<E>) {
    forall i | 0 <= i < |s| :: cmp(x, s[i]) <= 0
  }

  lemma {:induction false} MergeBelow<E>(cmp: (E, E) -> int, x: E, p: seq<E>, q: seq<E>)
    requires Below(cmp, x, p) && Below(cmp, x, q)
    ensures Below(cmp, x, Merge(cmp, p, q))
    decreases |p| + |q|
  {
    if p != [] && q != [] {
      if cmp(p[0], q[0]) <= 0 {
        MergeBelow(cmp, x, p[1..], q);
      } else {
        MergeBelow(cmp, x, p, q[1..]);
      }
    }
  }

  lemma {:induction false} BelowHead<E>(cmp: (E, E) -> int, u: set<E>, x: E, s: seq<E>)
    requires Preorder(cmp, u) && x in u && Within(s, u) && Sorted(cmp, s)
    requires s != [] && cmp(x, s[0]) <= 0
    ensures Below(cmp, x, s)
  {
    forall i | 0 <= i < |s| ensures cmp(x, s[i]) <= 0 {
      if i > 0 {
        assert cmp(s[0], s[i]) <= 0;
      }
    }
  }

  lemma {:induction false} MergeSorts<E>(cmp: (E, E) -> int, u: set<E>, p: seq<E>, q: seq<E>)
    requires Preorder(cmp, u) && Within(p, u) && Within(q, u)
    requires Sorted(cmp, p) && Sorted(cmp, q)
    ensures Sorted(cmp, Merge(cmp, p, q))
    decreases |p| + |q|
  {
    if p != [] && q != [] {
      if cmp(p[0], q[0]) <= 0 {
        MergeSorts(cmp, u, p[1..], q);
        BelowHead(cmp, u, p[0], q);
        MergeBelow(cmp, p[0], p[1..], q);
      } else {
        MergeSorts(cmp, u, p, q[1..]);
        BelowHead(cmp, u, q[0], p);
        MergeBelow(cmp, q[0], p, q[1..]);
      }
    }
  }

  lemma {:induction false} RunsSplit<E>(cmp: (E, E) -> int, s: seq<E>, k: nat)
    requires k >= 1 && Runs(cmp, s, k)
    ensures Sorted(cmp, s[..Min(k, |s|)])
    ensures Sorted(cmp, s[Min(k, |s|)..Min(2 * k, |s|)])
    ensures Runs(cmp, s[Min(2 * k, |s|)..], k)
  {
    if s != [] {
      var mid, hi := Min(k, |s|), Min(2 * k, |s|);
      var s' := s[mid..];
      if s' != [] {
        assert s'[..Min(k, |s'|)] == s[mid..hi];
        assert s'[Min(k, |s'|)..] == s[hi..];
      }
    }
  }

  lemma {:induction false} RunsJoin<E>(cmp: (E, E) -> int, m: seq<E>, t: seq<E>, k: nat)
    requires k >= 1 && Sorted(cmp, m) && Runs(cmp, t, k)
    requires |m| == k || (t == [] && |m| <= k)
    ensures Runs(cmp, m + t, k)
  {
    var s := m + t;
    if s != [] {
      assert s[..Min(k, |s|)] == m && s[Min(k, |s|)..] == t;
    }
  }

  lemma {:induction false} PassSorts<E>(cmp: (E, E) -> int, u: set<E>, s: seq<E>, k: nat)
    requires k >= 1 && Preorder(cmp, u) && Within(s, u) && Runs(cmp, s, k)
    ensures Runs(cmp, Pass(cmp, s, k), 2 * k)
    decreases |s|
  {
    if s != [] {
      var mid, hi := Min(k, |s|), Min(2 * k, |s|);
      RunsSplit(cmp, s, k);
      MergeSorts(cmp, u, s[..mid], s[mid..hi]);
      PassSorts(cmp, u, s[hi..], k);
      RunsJoin(cmp, Merge(cmp, s[..mid], s[mid..hi]), Pass(cmp, s[hi..], k), 2 * k);
    }
  }

  lemma {:induction false} SingletonRuns<E>(cmp: (E, E) -> int, s: seq<E>)
    ensures Runs(cmp, s, 1)
    decreases |s|
  {
    if s != [] {
      SingletonRuns(cmp, s[1..]);
    }
  }

  // ---------------------------------------------------------------- stability

  /** What `x` itself contributes to the class of `g`. */
  ghost function Own<E>(cmp: (E, E) -> int, g: E, x: E): seq<E> {
    if cmp(x, g) == 0 then [x] else []
  }

  lemma {:induction false} ClassCons<E>(cmp: (E, E) -> int, g: E, x: E, m: seq<E>, s: seq<E>)
    requires s == [x] + m
    ensures Class(cmp, g, s) == Own(cmp, g, x) + Class(cmp, g, m)
  {
    assert s[1..] == m;
  }

  lemma {:induction false} ClassAppend<E>(cmp: (E, E) -> int, g: E, a: seq<E>, b: seq<E>)
    ensures Class(cmp, g, a + b) == Class(cmp, g, a) + Class(cmp, g, b)
    decreases |a|
  {
    if a == [] {
      assert a + b == b;
    } else {
      ClassAppend(cmp, g, a[1..], b);
      LeftHeadStable(cmp, g, a[0], a[1..], b, a[1..] + b, a, a + b);
    }
  }

  /** Once `x` of g's class is strictly below the head of a sorted `s`, `s` has nothing of that class. */
  lemma {:induction false} ClassPassed<E>(cmp: (E, E) -> int, u: set<E>, g: E, x: E, s: seq<E>)
    requires Preorder(cmp, u) && Within(s, u) && x in u && g in u
    requires cmp(x, g) == 0 && forall i | 0 <= i < |s| :: cmp(s[i], x) > 0
    ensures Class(cmp, g, s) == []
    decreases |s|
  {
    if s != [] {
      ClassPassed(cmp, u, g, x, s[1..]);
      assert cmp(g, x) <= 0;
      assert cmp(s[0], g) != 0;
    }
  }

  lemma {:induction false} MergeStable<E>(cmp: (E, E) -> int, u: set<E>, g: E, p: seq<E>, q: seq<E>)
    requires Preorder(cmp, u) && Within(p, u) && Within(q, u) && g in u && Sorted(cmp, p)
    ensures Class(cmp, g, Merge(cmp, p, q)) == Class(cmp, g, p) + Class(cmp, g, q)
    decreases |p| + |q|
  {
    if p != [] && q != [] {
      if cmp(p[0], q[0]) <= 0 {
        MergeStable(cmp, u, g, p[1..], q);
        LeftHeadStable(cmp, g, p[0], p[1..], q, Merge(cmp, p[1..], q), p, Merge(cmp, p, q));
      } else {
        MergeStable(cmp, u, g, p, q[1..]);
        if cmp(q[0], g) == 0 { NoneLeft(cmp, u, g, q[0], p); }
        RightHeadStable(cmp, g, p, q[0], q[1..], Merge(cmp, p, q[1..]), q, Merge(cmp, p, q));
      }
    }
  }

  /** `x` in front of the left part stays in front. */
  lemma {:induction false} LeftHeadStable<E>(cmp: (E, E) -> int, g: E, x: E, r: seq<E>, q: seq<E>, m: seq<E>,
                                             p: seq<E>, t: seq<E>)
    requires p == [x] + r && t == [x] + m && Class(cmp, g, m) == Class(cmp, g, r) + Class(cmp, g, q)
    ensures Class(cmp, g, t) == Class(cmp, g, p) + Class(cmp, g, q)
  {
    ClassCons(cmp, g, x, m, t);
    ClassCons(cmp, g, x, r, p);
    Assoc(Own(cmp, g, x), Class(cmp, g, r), Class(cmp, g, q));
  }

  /** `x` from the right part overtakes nothing of its class. */
  lemma {:induction false} RightHeadStable<E>(cmp: (E, E) -> int, g: E, p: seq<E>, x: E, r: seq<E>, m: seq<E>,
                                              q: seq<E>, t: seq<E>)
    requires q == [x] + r && t == [x] + m && Class(cmp, g, m) == Class(cmp, g, p) + Class(cmp, g, r)
    requires cmp(x, g) == 0 ==> Class(cmp, g, p) == []
    ensures Class(cmp, g, t) == Class(cmp, g, p) + Class(cmp, g, q)
  {
    ClassCons(cmp, g, x, m, t);
    ClassCons(cmp, g, x, r, q);
    Overtake(Own(cmp, g, x), Class(cmp, g, p), Class(cmp, g, r), Class(cmp, g, m), Class(cmp, g, q), Class(cmp, g, t));
  }

  lemma {:induction false} Overtake<E>(o: seq<E>, p: seq<E>, r: seq<E>, m: seq<E>, q: seq<E>, t: seq<E>)
    requires m == p + r && q == o + r && t == o + m && (o == [] || p == [])
    ensures t == p + q
  {
    if o == [] {
      assert q == r && t == m;
    } else {
      assert m == r && t == q;
    }
  }

  lemma {:induction false} NoneLeft<E>(cmp: (E, E) -> int, u: set<E>, g: E, x: E, p: seq<E>)
    requires Preorder(cmp, u) && Within(p, u) && g in u && x in u && Sorted(cmp, p)
    requires p != [] && cmp(p[0], x) > 0 && cmp(x, g) == 0
    ensures Class(cmp, g, p) == []
  {
    Overtaken(cmp, u, x, p);
    ClassPassed(cmp, u, g, x, p);
  }

  lemma {:induction false} Overtaken<E>(cmp: (E, E) -> int, u: set<E>, x: E, s: seq<E>)
    requires Preorder(cmp, u) && Within(s, u) && x in u && Sorted(cmp, s)
    requires s != [] && cmp(s[0], x) > 0
    ensures forall i | 0 <= i < |s| :: cmp(s[i], x) > 0
  {
    forall i | 0 <= i < |s| ensures cmp(s[i], x) > 0 {
      if i > 0 {
        assert cmp(s[0], s[i]) <= 0;
      }
    }
  }

  lemma {:induction false} PassStable<E>(cmp: (E, E) -> int, u: set<E>, g: E, s: seq<E>, k: nat)
    requires k >= 1 && Preorder(cmp, u) && Within(s, u) && g in u && Runs(cmp, s, k)
    ensures Class(cmp, g, Pass(cmp, s, k)) == Class(cmp, g, s)
    decreases |s|
  {
    if s != [] {
      var mid, hi := Min(k, |s|), Min(2 * k, |s|);
      RunsSplit(cmp, s, k);
      MergeStable(cmp, u, g, s[..mid], s[mid..hi]);
      PassStable(cmp, u, g, s[hi..], k);
      ClassAppend(cmp, g, Merge(cmp, s[..mid], s[mid..hi]), Pass(cmp, s[hi..], k));
      CutInThree(s, mid, hi);
      ClassAppend(cmp, g, s[..mid] + s[mid..hi], s[hi..]);
      ClassAppend(cmp, g, s[..mid], s[mid..hi]);
    }
  }

  // ---------------------------------------------------------------- the whole sort

  lemma {:induction false} PassesPermute<E>(cmp: (E, E) -> int, s: seq<E>, k: nat)
    requires k >= 1
    ensures multiset(Passes(cmp, s, k)) == multiset(s)
    decreases |s| - k
  {
    PassPermutes(cmp, s, k);
    if |s| > 2 * k {
      PassesPermute(cmp, Pass(cmp, s, k), 2 * k);
    }
  }

  lemma {:induction false} PassesSort<E>(cmp: (E, E) -> int, u: set<E>, s: seq<E>, k: nat)
    requires k >= 1 && Preorder(cmp, u) && Within(s, u) && Runs(cmp, s, k)
    ensures Sorted(cmp, Passes(cmp, s, k))
    decreases |s| - k
  {
    var t := Pass(cmp, s, k);
    PassSorts(cmp, u, s, k);
    if |s| <= 2 * k {
      assert t[..Min(2 * k, |t|)] == t;
    } else {
      PassPermutes(cmp, s, k);
      PermutationWithin(s, t, u);
      PassesSort(cmp, u, t, 2 * k);
    }
  }

  lemma {:induction false} PassesStable<E>(cmp: (E, E) -> int, u: set<E>, g: E, s: seq<E>, k: nat)
    requires k >= 1 && Preorder(cmp, u) && Within(s, u) && g in u && Runs(cmp, s, k)
    ensures Class(cmp, g, Passes(cmp, s, k)) == Class(cmp, g, s)
    decreases |s| - k
  {
    PassStable(cmp, u, g, s, k);
    if |s| > 2 * k {
      var t := Pass(cmp, s, k);
      PassSorts(cmp, u, s, k);
      PassPermutes(cmp, s, k);
      PermutationWithin(s, t, u);
      PassesStable(cmp, u, g, t, 2 * k);
    }
  }

  /** Bottom-up merge sort from width 1 is a stable sort. */
  lemma {:induction false} MergeSortIsStableSort<E>(cmp: (E, E) -> int, u: set<E>, s: seq<E>)
    requires Preorder(cmp, u) && Within(s, u)
    ensures StableSortOf(cmp, s, Passes(cmp, s, 1))
  {
    SingletonRuns(cmp, s);
    PassesSort(cmp, u, s, 1);
    PassesPermute(cmp, s, 1);
    forall g | g in s ensures Class(cmp, g, Passes(cmp, s, 1)) == Class(cmp, g, s) {
      PassesStable(cmp, u, g, s, 1);
    }
  }

  /** There is only one stable sort of a sequence: order, permutation and stability leave no freedom. */
  lemma {:induction false} StableSortUnique<E>(cmp: (E, E) -> int, u: set<E>, s: seq<E>, t: seq<E>, t': seq<E>)
    requires Preorder(cmp, u) && Within(s, u) && StableSortOf(cmp, s, t) && StableSortOf(cmp, s, t')
    ensures t == t'
  {
    var members := set x | x in s;
    PermutationWithin(s, t, members);
    PermutationWithin(s, t', members);
    SameClassesSameOrder(cmp, members, t, t');
  }

  lemma {:induction false} SameClassesSameOrder<E>(cmp: (E, E) -> int, u: set<E>, t: seq<E>, t': seq<E>)
    requires Preorder(cmp, u) && Within(t, u) && Within(t', u) && Sorted(cmp, t) && Sorted(cmp, t')
    requires multiset(t) == multiset(t')
    requires forall g | g in u :: Class(cmp, g, t) == Class(cmp, g, t')
    ensures t == t'
    decreases |t|
  {
    assert |multiset(t)| == |multiset(t')|;
    if t != [] {
      SameHead(cmp, u, t, t');
      SameTail(t, t');
      forall h | h in u ensures Class(cmp, h, t[1..]) == Class(cmp, h, t'[1..]) {
        ClassOfTail(cmp, h, t, t');
      }
      SameClassesSameOrder(cmp, u, t[1..], t'[1..]);
    }
  }

  lemma {:induction false} ClassOfTail<E>(cmp: (E, E) -> int, h: E, t: seq<E>, t': seq<E>)
    requires t != [] && t' != [] && t[0] == t'[0] && Class(cmp, h, t) == Class(cmp, h, t')
    ensures Class(cmp, h, t[1..]) == Class(cmp, h, t'[1..])
  {
    var n := if cmp(t[0], h) == 0 then 1 else 0;
    assert Class(cmp, h, t)[n..] == Class(cmp, h, t[1..]);
    assert Class(cmp, h, t')[n..] == Class(cmp, h, t'[1..]);
  }

  lemma {:induction false} SameTail<E>(t: seq<E>, t': seq<E>)
    requires t != [] && t' != [] && t[0] == t'[0] && multiset(t) == multiset(t')
    ensures multiset(t[1..]) == multiset(t'[1..])
  {
    assert t == [t[0]] + t[1..] && t' == [t[0]] + t'[1..];
    assert multiset(t[1..]) == multiset(t) - multiset{t[0]};
    assert multiset(t'[1..]) == multiset(t') - multiset{t[0]};
  }

  lemma {:induction false} SameHead<E>(cmp: (E, E) -> int, u: set<E>, t: seq<E>, t': seq<E>)
    requires Preorder(cmp, u) && Within(t, u) && Within(t', u) && Sorted(cmp, t) && Sorted(cmp, t')
    requires multiset(t) == multiset(t') && t != [] && t' != []
    requires Class(cmp, t[0], t) == Class(cmp, t[0], t')
    ensures t[0] == t'[0]
  {
    assert t[0] in multiset(t) && t'[0] in multiset(t');
    var i :| 0 <= i < |t'| && t'[i] == t[0];
    var j :| 0 <= j < |t| && t[j] == t'[0];
    assert cmp(t'[0], t[0]) <= 0 && cmp(t[0], t'[0]) <= 0;
    assert Class(cmp, t[0], t)[0] == t[0] && Class(cmp, t[0], t')[0] == t'[0];
  }

  // ---------------------------------------------------------------- cost

  /** Comparisons made by `Merge`. */
  ghost function MergeCost<E>(cmp: (E, E) -> int, p: seq<E>, q: seq<E>): nat {
    if p == [] || q == [] then 0
    else if cmp(p[0], q[0]) <= 0 then 1 + MergeCost(cmp, p[1..], q)
    else 1 + MergeCost(cmp, p, q[1..])
  }

  ghost function PassCost<E>(cmp: (E, E) -> int, s: seq<E>, k: nat): nat
    requires k >= 1
    decreases |s|
  {
    if s == [] then 0 else
      var mid := Min(k, |s|);
      var hi := Min(2 * k, |s|);
      MergeCost(cmp, s[..mid], s[mid..hi]) + PassCost(cmp, s[hi..], k)
  }

  ghost function PassesCost<E>(cmp: (E, E) -> int, s: seq<E>, k: nat): nat
    requires k >= 1
    decreases |s| - k
  {
    if |s| <= 2 * k then PassCost(cmp, s, k)
    else PassCost(cmp, s, k) + PassesCost(cmp, Pass(cmp, s, k), 2 * k)
  }

  lemma {:induction false} MergeLeft<E>(cmp: (E, E) -> int, x: E, p: seq<E>, q: seq<E>)
    requires q == [] || cmp(x, q[0]) <= 0
    ensures Merge(cmp, [x] + p, q) == [x] + Merge(cmp, p, q)
    ensures MergeCost(cmp, [x] + p, q) == MergeCost(cmp, p, q) + if q == [] then 0 else 1
  {
    assert ([x] + p)[1..] == p;
  }

  lemma {:induction false} MergeRight<E>(cmp: (E, E) -> int, p: seq<E>, x: E, q: seq<E>)
    requires p == [] || cmp(p[0], x) > 0
    ensures Merge(cmp, p, [x] + q) == [x] + Merge(cmp, p, q)
    ensures MergeCost(cmp, p, [x] + q) == MergeCost(cmp, p, q) + if p == [] then 0 else 1
  {
    assert ([x] + q)[1..] == q;
  }

  /** The logarithm to base 2, rounded up. */
  ghost function CeilLog2(n: nat): nat {
    if n <= 1 then 0 else 1 + CeilLog2((n + 1) / 2)
  }

  ghost function Pow2(e: nat): (p: nat)
    ensures p >= 1
  {
    if e == 0 then 1 else 2 * Pow2(e - 1)
  }

  lemma {:induction false} MergeCostBound<E>(cmp: (E, E) -> int, p: seq<E>, q: seq<E>)
    ensures MergeCost(cmp, p, q) <= |p| + |q|
    decreases |p| + |q|
  {
    if p != [] && q != [] {
      if cmp(p[0], q[0]) <= 0 {
        MergeCostBound(cmp, p[1..], q);
      } else {
        MergeCostBound(cmp, p, q[1..]);
      }
    }
  }

  lemma {:induction false} PassCostBound<E>(cmp: (E, E) -> int, s: seq<E>, k: nat)
    requires k >= 1
    ensures PassCost(cmp, s, k) <= |s|
    ensures |s| <= k ==> PassCost(cmp, s, k) == 0
    decreases |s|
  {
    if s != [] {
      var mid, hi := Min(k, |s|), Min(2 * k, |s|);
      MergeCostBound(cmp, s[..mid], s[mid..hi]);
      PassCostBound(cmp, s[hi..], k);
    }
  }

  /** At width 2^e, CeilLog2(n) - e passes that compare anything are still to come. */
  lemma {:induction false} PassesCostBound<E>(cmp: (E, E) -> int, s: seq<E>, e: nat)
    requires e <= CeilLog2(|s|)
    ensures PassesCost(cmp, s, Pow2(e)) <= |s| * (CeilLog2(|s|) - e)
    decreases |s| - Pow2(e)
  {
    var k, n := Pow2(e), |s|;
    PassCostBound(cmp, s, k);
    if n > 2 * k {
      Log2Above(n, e + 1);
      PassesCostBound(cmp, Pass(cmp, s, k), e + 1);
      OneMore(n, CeilLog2(n) - e);
    } else if n > k {
      Log2Characterized(n, e);
      assert n * (CeilLog2(n) - e) == n;
    } else {
      ProductNonNegative(n, CeilLog2(n) - e);
    }
  }

  lemma {:induction false} OneMore(n: nat, d: int)
    ensures n * d == n + n * (d - 1)
  {}

  lemma {:induction false} ProductNonNegative(n: nat, d: nat)
    ensures n * d >= 0
  {}

  lemma {:induction false} Log2Above(n: nat, e: nat)
    requires n > Pow2(e)
    ensures CeilLog2(n) > e
  {
    if e > 0 {
      Log2Above((n + 1) / 2, e - 1);
    }
  }

  lemma {:induction false} Log2Characterized(n: nat, e: nat)
    requires Pow2(e) < n <= Pow2(e + 1)
    ensures CeilLog2(n) == e + 1
  {
    if e > 0 {
      Log2Characterized((n + 1) / 2, e - 1);
    }
  }

  /** The documented cost: n elements are sorted with at most n * ceil(log2 n) comparisons. */
  lemma {:induction false} SortCost<E>(cmp: (E, E) -> int, s: seq<E>)
    ensures PassesCost(cmp, s, 1) <= |s| * CeilLog2(|s|)
  {
    PassesCostBound(cmp, s, 0);
  }

  /** The value the width counter ends with: it is doubled once more after the last pass. */
  ghost function FinalWidth(n: nat, k: nat): nat
    requires k >= 1
    decreases n - k
  {
    if n <= 2 * k then 2 * k else FinalWidth(n, 2 * k)
  }

  lemma {:induction false} FinalWidthIs(n: nat, e: nat)
    requires Pow2(e) < n
    ensures FinalWidth(n, Pow2(e)) == Pow2(CeilLog2(n)) < 2 * n
    decreases n - Pow2(e)
  {
    if n <= Pow2(e + 1) {
      Log2Characterized(n, e);
    } else {
      FinalWidthIs(n, e + 1);
    }
  }

  /** The `int` width counter stays in 32 bits exactly for lists of up to 2^30 nodes. */
  lemma {:induction false} WidthFitsInt(n: nat)
    requires n >= 1
    ensures FinalWidth(n, 1) < 0x8000_0000 <==> n <= 0x4000_0000
    ensures n >= 2 ==> FinalWidth(n, 1) < 2 * n
  {
    if n >= 2 {
      FinalWidthIs(n, 0);
      Pow2At30();
      if n > 0x4000_0000 {
        Log2Above(n, 30);
        Pow2Monotone(31, CeilLog2(n));
      }
    }
  }

  lemma {:induction false} Pow2At30()
    ensures Pow2(30) == 0x4000_0000 && Pow2(31) == 0x8000_0000
  {
    assert Pow2(10) == 1024;
    assert Pow2(20) == 1024 * Pow2(10);
    assert Pow2(30) == 1024 * Pow2(20);
  }

  lemma {:induction false} Pow2Monotone(a: nat, b: nat)
    requires a <= b
    ensures Pow2(a) <= Pow2(b)
    decreases b
  {
    if a < b {
      Pow2Monotone(a, b - 1);
    }
  }
}
