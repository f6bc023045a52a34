/** The sort macros of deps/ut/utlist.h on heap nodes. */
module UtSort {
  import opened MergeSpec
  import opened Sequences

  /** A structure with embedded links. What the comparison callback looks at is `val`, which sorting leaves alone. */
  class Node<T> {
    const val: T
    var prev: Node?<T>
    var next: Node?<T>

    constructor (val: T)
      ensures this.val == val
    {
      this.val := val;
    }
  }

  /** The three macros are one text; they differ in the back links and in how the end of the list is marked. */
  datatype Kind = Singly | Doubly | Ring

  ghost predicate Distinct<E>(s: seq<E>) {
    forall i, j | 0 <= i < j < |s| :: s[i] != s[j]
  }

  ghost function At<T>(s: seq<Node<T>>, i: nat, end: Node?<T>): Node?<T> {
    if i < |s| then s[i] else end
  }

  /** From position `i` on, `s` is chained by `next`, and the last node points to `end`. */
  ghost predicate Chained<T>(s: seq<Node<T>>, i: nat, end: Node?<T>)
    reads s
  {
    forall t {:trigger s[t].next} | i <= t < |s| :: s[t].next == At(s, t + 1, end)
  }

  ghost predicate IsSingly<T>(head: Node?<T>, s: seq<Node<T>>)
    reads s
  {
    Distinct(s) && head == At(s, 0, null) && Chained(s, 0, null)
  }

  ghost predicate BackLinks<T>(s: seq<Node<T>>)
    reads s
  {
    s != [] ==> s[0].prev == s[|s| - 1] && forall t {:trigger s[t].prev} | 1 <= t < |s| :: s[t].prev == s[t - 1]
  }

  /** The DL_ list: null at the far end, and the head's `prev` is the tail. */
  ghost predicate IsDoubly<T>(head: Node?<T>, s: seq<Node<T>>)
    reads s
  {
    IsSingly(head, s) && BackLinks(s)
  }

  /** The CDL_ list: a ring in both directions. */
  ghost predicate IsRing<T>(head: Node?<T>, s: seq<Node<T>>)
    reads s
  {
    Distinct(s) && head == At(s, 0, null) && Chained(s, 0, head) && BackLinks(s)
  }

  ghost predicate IsList<T>(kind: Kind, head: Node?<T>, s: seq<Node<T>>)
    reads s
  {
    match kind
    case Singly => IsSingly(head, s)
    case Doubly => IsDoubly(head, s)
    case Ring => IsRing(head, s)
  }

  /** What `list` and `tail` hold while nodes move to the output; the tail's `next` may still be stale. */
  ghost predicate Output<T>(kind: Kind, list: Node?<T>, tail: Node?<T>, out: seq<Node<T>>)
    reads out
  {
    && Distinct(out)
    && (if out == [] then list == null && tail == null else list == out[0] && tail == out[|out| - 1])
    && (forall t {:trigger out[t].next} | 0 <= t < |out| - 1 :: out[t].next == out[t + 1])
    && (!kind.Singly? ==>
          && (out != [] ==> out[0].prev == null)
          && forall t {:trigger out[t].prev} | 1 <= t < |out| :: out[t].prev == out[t - 1])
  }

  /** A pass under way: `out` is finished output; the nodes of `s` from `i` up to `mid`, and those from `j`
      on, are input, apart from the output and still chained as they were. */
  ghost predicate Midway<T>(kind: Kind, list: Node?<T>, tail: Node?<T>, out: seq<Node<T>>,
                            s: seq<Node<T>>, i: nat, mid: nat, j: nat, oldhead: Node?<T>)
    reads s, out
  {
    && Distinct(s) && Output(kind, list, tail, out)
    && (forall a, t | 0 <= a < |out| && 0 <= t < |s| && (i <= t < mid || j <= t) :: out[a] != s[t])
    && (forall t {:trigger s[t].next} | 0 <= t < |s| && (i <= t < mid || j <= t) :: s[t].next == At(s, t + 1, oldhead))
  }

  /** `x = x->next`, with the ring's old head read as the end. */
  method Advance<T>(x: Node<T>, oldhead: Node?<T>) returns (y: Node?<T>)
    ensures y == if x.next == oldhead then null else x.next
  {
    y := x.next;
    if y == oldhead { y := null; }
  }

  /** Links `e`, the head of one of the two runs, behind the output. */
  method Emit<T>(kind: Kind, e: Node<T>, list: Node?<T>, tail: Node?<T>, ghost out: seq<Node<T>>,
                 ghost s: seq<Node<T>>, ghost i: nat, ghost mid: nat, ghost j: nat, oldhead: Node?<T>)
    returns (list': Node<T>)
    requires i <= mid <= j <= |s| && Midway(kind, list, tail, out, s, i, mid, j, oldhead)
    requires (i < mid && e == s[i]) || (j < |s| && e == s[j])
    modifies (if tail == null then {} else {tail})`next, (if kind.Singly? then {} else {e})`prev
    ensures i < mid && e == s[i] ==> Midway(kind, list', e, out + [e], s, i + 1, mid, j, oldhead)
    ensures j < |s| && e == s[j] ==> Midway(kind, list', e, out + [e], s, i, mid, j + 1, oldhead)
  {
    if tail != null {
      tail.next := e;
      list' := list;
    } else {
      list' := e;
    }
    if !kind.Singly? {
      e.prev := tail;
    }
  }

  /** `Merge` of the runs at `i` up to `mid` and at `j` up to `hi`, by position. */
  ghost function MergeAt<E>(cmp: (E, E) -> int, s: seq<E>, i: nat, mid: nat, j: nat, hi: nat): seq<E>
    requires i <= mid <= j <= hi <= |s|
    decreases mid - i + hi - j
  {
    if i == mid && j == hi then []
    else if TakesLeft(cmp, s, i, mid, j, hi) then [s[i]] + MergeAt(cmp, s, i + 1, mid, j, hi)
    else [s[j]] + MergeAt(cmp, s, i, mid, j + 1, hi)
  }

  ghost function CostAt<E>(cmp: (E, E) -> int, s: seq<E>, i: nat, mid: nat, j: nat, hi: nat): nat
    requires i <= mid <= j <= hi <= |s|
    decreases mid - i + hi - j
  {
    if i == mid || j == hi then 0
    else if TakesLeft(cmp, s, i, mid, j, hi) then 1 + CostAt(cmp, s, i + 1, mid, j, hi)
    else 1 + CostAt(cmp, s, i, mid, j + 1, hi)
  }

  ghost predicate TakesLeft<E>(cmp: (E, E) -> int, s: seq<E>, i: nat, mid: nat, j: nat, hi: nat)
    requires i <= mid <= j <= hi <= |s|
  {
    i < mid && (j == hi || cmp(s[i], s[j]) <= 0)
  }

  ghost predicate IsMerge<E>(cmp: (E, E) -> int, s: seq<E>, i: nat, mid: nat, j: nat, hi: nat)
    requires i <= mid <= j <= hi <= |s|
  {
    MergeAt(cmp, s, i, mid, j, hi) == Merge(cmp, s[i..mid], s[j..hi]) &&
    CostAt(cmp, s, i, mid, j, hi) == MergeCost(cmp, s[i..mid], s[j..hi])
  }

  lemma {:induction false} LeftIsMerge<E>(cmp: (E, E) -> int, s: seq<E>, i: nat, mid: nat, j: nat, hi: nat)
    requires i < mid <= j <= hi <= |s| && TakesLeft(cmp, s, i, mid, j, hi) && IsMerge(cmp, s, i + 1, mid, j, hi)
    ensures IsMerge(cmp, s, i, mid, j, hi)
  {
    var q := s[j..hi];
    assert s[i..mid] == [s[i]] + s[i + 1..mid];
    assert j < hi ==> q[0] == s[j];
    MergeLeft(cmp, s[i], s[i + 1..mid], q);
  }

  lemma {:induction false} RightIsMerge<E>(cmp: (E, E) -> int, s: seq<E>, i: nat, mid: nat, j: nat, hi: nat)
    requires i <= mid <= j < hi <= |s| && !TakesLeft(cmp, s, i, mid, j, hi) && IsMerge(cmp, s, i, mid, j + 1, hi)
    ensures IsMerge(cmp, s, i, mid, j, hi)
  {
    var p := s[i..mid];
    assert s[j..hi] == [s[j]] + s[j + 1..hi];
    assert i < mid ==> p[0] == s[i];
    MergeRight(cmp, p, s[j], s[j + 1..hi]);
  }

  lemma {:induction false} MergeAtIsMerge<E>(cmp: (E, E) -> int, s: seq<E>, i: nat, mid: nat, j: nat, hi: nat)
    requires i <= mid <= j <= hi <= |s|
    ensures MergeAt(cmp, s, i, mid, j, hi) == Merge(cmp, s[i..mid], s[j..hi])
    ensures CostAt(cmp, s, i, mid, j, hi) == MergeCost(cmp, s[i..mid], s[j..hi])
    decreases mid - i + hi - j
  {
    if i == mid && j == hi {
    } else if TakesLeft(cmp, s, i, mid, j, hi) {
      MergeAtIsMerge(cmp, s, i + 1, mid, j, hi);
      LeftIsMerge(cmp, s, i, mid, j, hi);
    } else {
      MergeAtIsMerge(cmp, s, i, mid, j + 1, hi);
      RightIsMerge(cmp, s, i, mid, j, hi);
    }
  }

  /** `Pass` over what stands from `lo` on, by position. */
  ghost function PassAt<E>(cmp: (E, E) -> int, s: seq<E>, lo: nat, k: nat): seq<E>
    requires lo <= |s| && k >= 1
    decreases |s| - lo
  {
    if lo == |s| then [] else
      var mid := Min(lo + k, |s|);
      var hi := Min(mid + k, |s|);
      MergeAt(cmp, s, lo, mid, mid, hi) + PassAt(cmp, s, hi, k)
  }

  ghost function PassCostAt<E>(cmp: (E, E) -> int, s: seq<E>, lo: nat, k: nat): nat
    requires lo <= |s| && k >= 1
    decreases |s| - lo
  {
    if lo == |s| then 0 else
      var mid := Min(lo + k, |s|);
      var hi := Min(mid + k, |s|);
      CostAt(cmp, s, lo, mid, mid, hi) + PassCostAt(cmp, s, hi, k)
  }

  lemma {:induction false} PassUnfolds<E>(cmp: (E, E) -> int, t: seq<E>, k: nat, p: seq<E>, q: seq<E>, rest: seq<E>)
    requires k >= 1 && t == p + q + rest && t != []
    requires |p| == Min(k, |t|) && |p + q| == Min(2 * k, |t|)
    ensures Pass(cmp, t, k) == Merge(cmp, p, q) + Pass(cmp, rest, k)
    ensures PassCost(cmp, t, k) == MergeCost(cmp, p, q) + PassCost(cmp, rest, k)
  {
    var mid, hi := |p|, |p + q|;
    assert t[..mid] == p && t[mid..hi] == q && t[hi..] == rest;
  }

  lemma {:induction false} PassAtUnfolds<E>(cmp: (E, E) -> int, s: seq<E>, lo: nat, mid: nat, hi: nat, k: nat)
    requires lo < |s| && k >= 1 && mid == Min(lo + k, |s|) && hi == Min(lo + 2 * k, |s|)
    ensures PassAt(cmp, s, lo, k) == MergeAt(cmp, s, lo, mid, mid, hi) + PassAt(cmp, s, hi, k)
    ensures PassCostAt(cmp, s, lo, k) == CostAt(cmp, s, lo, mid, mid, hi) + PassCostAt(cmp, s, hi, k)
  {
    assert hi == Min(mid + k, |s|);
  }

  lemma {:induction false} PairAdds<E>(cmp: (E, E) -> int, s: seq<E>, lo: nat, mid: nat, hi: nat, k: nat,
                                       out0: seq<E>, out: seq<E>)
    requires lo < |s| && k >= 1 && mid == Min(lo + k, |s|) && hi == Min(lo + 2 * k, |s|)
    requires out == out0 + MergeAt(cmp, s, lo, mid, mid, hi)
    ensures out + PassAt(cmp, s, hi, k) == out0 + PassAt(cmp, s, lo, k)
    ensures CostAt(cmp, s, lo, mid, mid, hi) + PassCostAt(cmp, s, hi, k) == PassCostAt(cmp, s, lo, k)
  {
    PassAtUnfolds(cmp, s, lo, mid, hi, k);
    Assoc(out0, MergeAt(cmp, s, lo, mid, mid, hi), PassAt(cmp, s, hi, k));
  }

  lemma {:induction false} PassAtIsPass<E>(cmp: (E, E) -> int, s: seq<E>, lo: nat, k: nat)
    requires lo <= |s| && k >= 1
    ensures PassAt(cmp, s, lo, k) == Pass(cmp, s[lo..], k)
    ensures PassCostAt(cmp, s, lo, k) == PassCost(cmp, s[lo..], k)
    decreases |s| - lo
  {
    if lo < |s| {
      var mid := Min(lo + k, |s|);
      var hi := Min(lo + 2 * k, |s|);
      PassAtIsPass(cmp, s, hi, k);
      PairIsMerge(cmp, s, lo, mid, hi, k);
    }
  }

  lemma {:induction false} SuffixInThree<E>(s: seq<E>, lo: nat, mid: nat, hi: nat)
    requires lo <= mid <= hi <= |s|
    ensures s[lo..] == s[lo..mid] + s[mid..hi] + s[hi..]
  {}

  lemma {:induction false} PairIsMerge<E>(cmp: (E, E) -> int, s: seq<E>, lo: nat, mid: nat, hi: nat, k: nat)
    requires lo < |s| && k >= 1 && mid == Min(lo + k, |s|) && hi == Min(lo + 2 * k, |s|)
    requires PassAt(cmp, s, hi, k) == Pass(cmp, s[hi..], k)
    requires PassCostAt(cmp, s, hi, k) == PassCost(cmp, s[hi..], k)
    ensures PassAt(cmp, s, lo, k) == Pass(cmp, s[lo..], k)
    ensures PassCostAt(cmp, s, lo, k) == PassCost(cmp, s[lo..], k)
  {
    MergeAtIsMerge(cmp, s, lo, mid, mid, hi);
    PassAtUnfolds(cmp, s, lo, mid, hi, k);
    SuffixInThree(s, lo, mid, hi);
    PassUnfolds(cmp, s[lo..], k, s[lo..mid], s[mid..hi], s[hi..]);
  }

  lemma {:induction false} StepLeft<E>(cmp: (E, E) -> int, s: seq<E>, i: nat, mid: nat, j: nat, hi: nat, out: seq<E>)
    requires i <= mid <= j <= hi <= |s| && TakesLeft(cmp, s, i, mid, j, hi)
    ensures out + MergeAt(cmp, s, i, mid, j, hi) == out + [s[i]] + MergeAt(cmp, s, i + 1, mid, j, hi)
    ensures CostAt(cmp, s, i, mid, j, hi) == CostAt(cmp, s, i + 1, mid, j, hi) + if j < hi then 1 else 0
  {}

  lemma {:induction false} StepRight<E>(cmp: (E, E) -> int, s: seq<E>, i: nat, mid: nat, j: nat, hi: nat, out: seq<E>)
    requires i <= mid <= j < hi <= |s| && !TakesLeft(cmp, s, i, mid, j, hi)
    ensures out + MergeAt(cmp, s, i, mid, j, hi) == out + [s[j]] + MergeAt(cmp, s, i, mid, j + 1, hi)
    ensures CostAt(cmp, s, i, mid, j, hi) == CostAt(cmp, s, i, mid, j + 1, hi) + if i < mid then 1 else 0
  {}

  /** Of `all`, the nodes `out` are there already, and `total` comparisons have cost `cost` so far. */
  ghost predicate LeftToMerge<E>(cmp: (E, E) -> int, s: seq<E>, i: nat, mid: nat, j: nat, hi: nat,
                                 out: seq<E>, all: seq<E>, cost: nat, total: nat)
  {
    && i <= mid <= j <= hi <= |s|
    && out + MergeAt(cmp, s, i, mid, j, hi) == all && cost + CostAt(cmp, s, i, mid, j, hi) == total
  }

  lemma {:induction false} NothingLeft<E>(cmp: (E, E) -> int, s: seq<E>, mid: nat, hi: nat,
                                          out: seq<E>, all: seq<E>, cost: nat, total: nat)
    requires LeftToMerge(cmp, s, mid, mid, hi, hi, out, all, cost, total)
    ensures out == all && cost == total
  {}

  /** Chooses the run that gives the next node and moves that run's pointer on. */
  method Pick<T>(cmp: (Node<T>, Node<T>) -> int, p: Node?<T>, q: Node?<T>, psize: nat, qsize: nat, oldhead: Node?<T>)
    returns (e: Node<T>, p': Node?<T>, q': Node?<T>, psize': nat, qsize': nat, ghost left: bool, ghost cost: nat)
    requires psize > 0 || (qsize > 0 && q != null)
    requires psize > 0 ==> p != null
    ensures left <==> psize > 0 && (qsize == 0 || q == null || cmp(p, q) <= 0)
    ensures cost == if psize > 0 && qsize > 0 && q != null then 1 else 0
    ensures left ==> e == p && p' == (if p.next == oldhead then null else p.next) && psize' == psize - 1 &&
                     q' == q && qsize' == qsize
    ensures !left ==> e == q && q' == (if q.next == oldhead then null else q.next) && qsize' == qsize - 1 &&
                      p' == p && psize' == psize
  {
    p', q', psize', qsize', cost := p, q, psize, qsize, 0;
    if psize == 0 {
      e := q; q' := Advance(q, oldhead); qsize' := qsize - 1; left := false;
    } else if qsize == 0 || q == null {
      e := p; p' := Advance(p, oldhead); psize' := psize - 1; left := true;
    } else if cmp(p, q) <= 0 {
      e := p; p' := Advance(p, oldhead); psize' := psize - 1; left, cost := true, 1;
    } else {
      e := q; q' := Advance(q, oldhead); qsize' := qsize - 1; left, cost := false, 1;
    }
  }

  /** The state of the innermost loop: run heads `p` and `q` stand at positions `i` and `j` of the input. */
  ghost predicate Merging<T>(kind: Kind, p: Node?<T>, q: Node?<T>, psize: int, qsize: int, insize: nat,
                             list: Node?<T>, tail: Node?<T>, oldhead: Node?<T>, u: set<Node<T>>,
                             s: seq<Node<T>>, i: nat, mid: nat, j: nat, hi: nat, out: seq<Node<T>>)
    reads s, out
  {
    && Within(s, u) && Within(out, u) && (oldhead == null || (s != [] && oldhead == s[0]))
    && i <= mid <= j <= hi == Min(mid + insize, |s|) && psize == mid - i && qsize == insize - (j - mid)
    && q == At(s, j, null) && (psize > 0 ==> p == s[i])
    && Midway(kind, list, tail, out, s, i, mid, j, oldhead)
  }

  lemma {:induction false} MergingEnds<T>(kind: Kind, p: Node?<T>, q: Node?<T>, psize: int, qsize: int, insize: nat,
                                          list: Node?<T>, tail: Node?<T>, oldhead: Node?<T>, u: set<Node<T>>,
                                          s: seq<Node<T>>, i: nat, mid: nat, j: nat, hi: nat, out: seq<Node<T>>)
    requires Merging(kind, p, q, psize, qsize, insize, list, tail, oldhead, u, s, i, mid, j, hi, out)
    requires psize == 0 && (qsize == 0 || q == null)
    ensures i == mid && j == hi && Midway(kind, list, tail, out, s, hi, hi, hi, oldhead)
  {}

  /** One round of the innermost loop. */
  method Round<T>(kind: Kind, cmp: (Node<T>, Node<T>) -> int, p: Node?<T>, q: Node?<T>, psize: nat, qsize: nat,
                  insize: nat, list: Node?<T>, tail: Node?<T>, oldhead: Node?<T>, ghost u: set<Node<T>>,
                  ghost s: seq<Node<T>>, ghost i: nat, ghost mid: nat, ghost j: nat, ghost hi: nat,
                  ghost out: seq<Node<T>>)
    returns (p': Node?<T>, q': Node?<T>, psize': nat, qsize': nat, list': Node?<T>, tail': Node<T>,
             ghost i': nat, ghost j': nat, ghost out': seq<Node<T>>, ghost cost: nat)
    requires Merging(kind, p, q, psize, qsize, insize, list, tail, oldhead, u, s, i, mid, j, hi, out)
    requires psize > 0 || (qsize > 0 && q != null)
    modifies u`next, (if kind.Singly? then {} else u)`prev
    ensures Merging(kind, p', q', psize', qsize', insize, list', tail', oldhead, u, s, i', mid, j', hi, out')
    ensures psize' + qsize' < psize + qsize
    ensures out' + MergeAt(cmp, s, i', mid, j', hi) == out + MergeAt(cmp, s, i, mid, j, hi)
    ensures cost + CostAt(cmp, s, i', mid, j', hi) == CostAt(cmp, s, i, mid, j, hi)
  {
    assert tail != null ==> tail in u;
    ghost var left;
    tail', p', q', psize', qsize', left, cost := Pick(cmp, p, q, psize, qsize, oldhead);
    assert left == TakesLeft(cmp, s, i, mid, j, hi);
    assert left && psize' > 0 ==> p' == s[i + 1];
    assert !left ==> q' == At(s, j + 1, null);
    list' := Emit(kind, tail', list, tail, out, s, i, mid, j, oldhead);
    if left {
      StepLeft(cmp, s, i, mid, j, hi, out);
      i', j', out' := i + 1, j, out + [s[i]];
    } else {
      StepRight(cmp, s, i, mid, j, hi, out);
      i', j', out' := i, j + 1, out + [s[j]];
    }
  }

  /** The innermost loop: merges the run of `psize` nodes at `p` with the run of at most `insize` nodes at `q`. */
  method MergeRuns<T>(kind: Kind, cmp: (Node<T>, Node<T>) -> int, p0: Node<T>, q0: Node?<T>, psize0: nat, insize: nat,
                      list0: Node?<T>, tail0: Node?<T>, oldhead: Node?<T>, ghost u: set<Node<T>>,
                      ghost s: seq<Node<T>>, ghost lo: nat, ghost out0: seq<Node<T>>)
    returns (list: Node?<T>, tail: Node?<T>, q: Node?<T>, ghost out: seq<Node<T>>, ghost cost: nat)
    requires oldhead == null || (s != [] && oldhead == s[0])
    requires 1 <= psize0 <= insize && lo + psize0 <= |s| && (psize0 == insize || lo + psize0 == |s|)
    requires p0 == s[lo] && q0 == At(s, lo + psize0, null)
    requires Within(s, u) && Within(out0, u)
    requires Midway(kind, list0, tail0, out0, s, lo, lo, lo, oldhead)
    modifies u`next, (if kind.Singly? then {} else u)`prev
    ensures var mid, hi := lo + psize0, Min(lo + psize0 + insize, |s|);
            && out == out0 + MergeAt(cmp, s, lo, mid, mid, hi) && cost == CostAt(cmp, s, lo, mid, mid, hi)
            && Midway(kind, list, tail, out, s, hi, hi, hi, oldhead) && q == At(s, hi, null)
    ensures Within(out, u)
  {
    ghost var mid, hi := lo + psize0, Min(lo + psize0 + insize, |s|);
    ghost var i: nat, j: nat, more: nat := lo, mid, 0;
    ghost var all, total := out0 + MergeAt(cmp, s, lo, mid, mid, hi), CostAt(cmp, s, lo, mid, mid, hi);
    var p: Node?<T>, psize: nat, qsize: nat := p0, psize0, insize;
    list, tail, q, out, cost := list0, tail0, q0, out0, 0;
    while psize > 0 || (qsize > 0 && q != null)
      invariant Merging(kind, p, q, psize, qsize, insize, list, tail, oldhead, u, s, i, mid, j, hi, out)
      invariant LeftToMerge(cmp, s, i, mid, j, hi, out, all, cost, total)
      decreases psize + qsize
    {
      p, q, psize, qsize, list, tail, i, j, out, more :=
        Round(kind, cmp, p, q, psize, qsize, insize, list, tail, oldhead, u, s, i, mid, j, hi, out);
      cost := cost + more;
    }
    MergingEnds(kind, p, q, psize, qsize, insize, list, tail, oldhead, u, s, i, mid, j, hi, out);
    NothingLeft(cmp, s, mid, hi, out, all, cost, total);
  }

  /** The counting loop: `q` goes at most `insize` nodes beyond `p`. */
  method Skip<T>(p: Node<T>, insize: nat, oldhead: Node?<T>, ghost s: seq<Node<T>>, ghost lo: nat)
    returns (q: Node?<T>, psize: nat)
    requires insize >= 1 && lo < |s| && p == s[lo] && (oldhead == null || oldhead == s[0])
    requires Distinct(s) && Chained(s, lo, oldhead)
    ensures psize == Min(insize, |s| - lo) && q == At(s, lo + psize, null)
  {
    q, psize := p, 0;
    for i := 0 to insize
      invariant psize == i && lo + psize <= |s| && q == At(s, lo + psize, null) && (i < insize ==> q != null)
    {
      psize := psize + 1;
      q := Advance(q, oldhead);
      if q == null { break; }
    }
  }

  /** One round of the middle loop: the two runs at `lo` are merged behind the output. */
  method MergePair<T>(kind: Kind, cmp: (Node<T>, Node<T>) -> int, p: Node<T>, insize: nat,
                      list0: Node?<T>, tail0: Node?<T>, oldhead: Node?<T>, ghost u: set<Node<T>>,
                      ghost s: seq<Node<T>>, ghost lo: nat, ghost out0: seq<Node<T>>)
    returns (list: Node?<T>, tail: Node?<T>, q: Node?<T>, ghost hi: nat, ghost out: seq<Node<T>>, ghost cost: nat)
    requires insize >= 1 && lo < |s| && p == s[lo] && (oldhead == null || oldhead == s[0])
    requires Within(s, u) && Within(out0, u) && Midway(kind, list0, tail0, out0, s, lo, lo, lo, oldhead)
    modifies u`next, (if kind.Singly? then {} else u)`prev
    ensures hi == Min(lo + 2 * insize, |s|) && q == At(s, hi, null)
    ensures Within(out, u) && Midway(kind, list, tail, out, s, hi, hi, hi, oldhead)
    ensures out + PassAt(cmp, s, hi, insize) == out0 + PassAt(cmp, s, lo, insize)
    ensures cost + PassCostAt(cmp, s, hi, insize) == PassCostAt(cmp, s, lo, insize)
  {
    var psize;
    q, psize := Skip(p, insize, oldhead, s, lo);
    hi := Min(lo + 2 * insize, |s|);
    assert hi == Min(lo + psize + insize, |s|);
    list, tail, q, out, cost := MergeRuns(kind, cmp, p, q, psize, insize, list0, tail0, oldhead, u, s, lo, out0);
    PairAdds(cmp, s, lo, lo + psize, hi, insize, out0, out);
  }

  lemma {:induction false} PassDone<E>(cmp: (E, E) -> int, s: seq<E>, lo: nat, k: nat, out: seq<E>)
    requires lo == |s| && k >= 1
    ensures out + PassAt(cmp, s, lo, k) == out && PassCostAt(cmp, s, lo, k) == 0
  {}

  /** One more merge has been counted, up to `hi`. */
  lemma {:induction false} MergeCounted(nmerges: nat, lo: nat, hi: nat, k: nat, n: nat)
    requires k >= 1 && lo < n && hi == Min(lo + 2 * k, n) && Counted(nmerges, lo, k, n)
    ensures Counted(nmerges + 1, hi, k, n)
  {}

  /** How the number of merges tells how far the pass has got. */
  ghost predicate Counted(nmerges: nat, lo: nat, k: nat, n: nat) {
    && nmerges <= lo && (nmerges == 0 ==> lo == 0) && (nmerges == 1 ==> lo == Min(2 * k, n))
    && (nmerges >= 2 ==> n > 2 * k)
  }

  /** The middle loop: one pass over the whole list. */
  method SortPass<T>(kind: Kind, cmp: (Node<T>, Node<T>) -> int, list0: Node<T>, insize: nat, oldhead: Node?<T>,
                     ghost u: set<Node<T>>, ghost s: seq<Node<T>>)
    returns (list: Node?<T>, tail: Node?<T>, nmerges: nat, ghost out: seq<Node<T>>, ghost cost: nat)
    requires insize >= 1 && s != [] && list0 == s[0] && (oldhead == null || oldhead == s[0])
    requires Distinct(s) && Within(s, u) && Chained(s, 0, oldhead)
    modifies u`next, (if kind.Singly? then {} else u)`prev
    ensures out == PassAt(cmp, s, 0, insize) && cost == PassCostAt(cmp, s, 0, insize)
    ensures Output(kind, list, tail, out) && Within(out, u)
    ensures nmerges <= 1 <==> |s| <= 2 * insize
    ensures 1 <= nmerges <= |s|
  {
    ghost var lo: nat, hi: nat, more: nat := 0, 0, 0;
    var p: Node?<T>, q: Node?<T> := list0, null;
    list, tail, nmerges, out, cost := null, null, 0, [], 0;
    while p != null
      invariant lo <= |s| && p == At(s, lo, null) && Within(out, u)
      invariant Midway(kind, list, tail, out, s, lo, lo, lo, oldhead)
      invariant out + PassAt(cmp, s, lo, insize) == PassAt(cmp, s, 0, insize)
      invariant cost + PassCostAt(cmp, s, lo, insize) == PassCostAt(cmp, s, 0, insize)
      invariant Counted(nmerges, lo, insize, |s|)
      decreases |s| - lo
    {
      nmerges := nmerges + 1;
      list, tail, q, hi, out, more := MergePair(kind, cmp, p, insize, list, tail, oldhead, u, s, lo, out);
      MergeCounted(nmerges - 1, lo, hi, insize, |s|);
      p, lo, cost := q, hi, cost + more;
    }
    assert lo == |s|;
    PassDone(cmp, s, lo, insize, out);
  }

  lemma {:induction false} WholePass<E>(cmp: (E, E) -> int, s: seq<E>, k: nat)
    requires k >= 1
    ensures PassAt(cmp, s, 0, k) == Pass(cmp, s, k) && PassCostAt(cmp, s, 0, k) == PassCost(cmp, s, k)
  {
    PassAtIsPass(cmp, s, 0, k);
    assert s[0..] == s;
  }

  /** What follows a pass: the tail is tied off, and the head's `prev` set to the tail. */
  method Close<T>(kind: Kind, list: Node<T>, tail: Node<T>, ghost out: seq<Node<T>>)
    requires Output(kind, list, tail, out) && out != []
    modifies {tail}`next, (if kind.Singly? then {} else {list})`prev
    ensures IsList(kind, list, out)
  {
    match kind {
      case Singly =>
        tail.next := null;
      case Doubly =>
        list.prev := tail;
        tail.next := null;
      case Ring =>
        list.prev := tail;
        tail.next := list;
    }
  }

  /** The body of the outer loop: a pass, and the list closed again. */
  method PassAndClose<T>(kind: Kind, cmp: (Node<T>, Node<T>) -> int, list0: Node<T>, insize: nat,
                         ghost u: set<Node<T>>, ghost s: seq<Node<T>>)
    returns (list: Node<T>, nmerges: nat, ghost t: seq<Node<T>>, ghost cost: nat)
    requires insize >= 1 && IsList(kind, list0, s) && Within(s, u)
    modifies u`next, (if kind.Singly? then {} else u)`prev
    ensures IsList(kind, list, t) && Within(t, u)
    ensures t == Pass(cmp, s, insize) && cost == PassCost(cmp, s, insize)
    ensures nmerges <= 1 <==> |s| <= 2 * insize
  {
    var oldhead := if kind.Ring? then list0 else null;
    var first, tail;
    first, tail, nmerges, t, cost := SortPass(kind, cmp, list0, insize, oldhead, u, s);
    WholePass(cmp, s, insize);
    list := first;
    Close(kind, list, tail, t);
  }

  /** The outer loop of LL_SORT2, DL_SORT2 and CDL_SORT2. `t` is the order the list ends up in, `cost` counts the
      calls of `cmp`, and `width` is what the width counter ends with. */
  method SortLoop<T>(kind: Kind, cmp: (Node<T>, Node<T>) -> int, list0: Node?<T>,
                     ghost u: set<Node<T>>, ghost s: seq<Node<T>>)
    returns (list: Node?<T>, ghost t: seq<Node<T>>, ghost cost: nat, ghost width: nat)
    requires IsList(kind, list0, s) && Within(s, u)
    modifies u`next, (if kind.Singly? then {} else u)`prev
    ensures IsList(kind, list, t) && t == Passes(cmp, s, 1) && cost == PassesCost(cmp, s, 1)
    ensures s != [] ==> width == FinalWidth(|s|, 1)
  {
    list, t, cost, width := list0, s, 0, 0;
    if list == null { return; }
    var insize, looping, nmerges := 1, true, 0;
    ghost var more: nat := 0;
    while looping
      invariant IsList(kind, list, t) && Within(t, u) && insize >= 1 && t != [] && |t| == |s|
      invariant if looping then Passes(cmp, t, insize) == Passes(cmp, s, 1) else t == Passes(cmp, s, 1)
      invariant cost + (if looping then PassesCost(cmp, t, insize) else 0) == PassesCost(cmp, s, 1)
      invariant (if looping then FinalWidth(|s|, insize) else insize) == FinalWidth(|s|, 1)
      decreases looping, |s| - insize
    {
      list, nmerges, t, more := PassAndClose(kind, cmp, list, insize, u, t);
      if nmerges <= 1 { looping := false; }
      insize, cost := insize * 2, cost + more;
    }
    width := insize;
  }

  /** The sort macros, for any callback that is a total preorder on the list. */
  method Sort<T>(kind: Kind, cmp: (Node<T>, Node<T>) -> int, list0: Node?<T>,
                 ghost u: set<Node<T>>, ghost s: seq<Node<T>>)
    returns (list: Node?<T>, ghost t: seq<Node<T>>, ghost cost: nat, ghost width: nat)
    requires IsList(kind, list0, s) && Within(s, u) && Preorder(cmp, u)
    modifies u`next, (if kind.Singly? then {} else u)`prev
    ensures IsList(kind, list, t) && StableSortOf(cmp, s, t)
    ensures t == Passes(cmp, s, 1) && |t| == |s|
    ensures cost <= |s| * CeilLog2(|s|)
    ensures |s| >= 2 ==> width < 2 * |s|
    ensures 1 <= |s| <= 0x4000_0000 ==> width < 0x8000_0000
  {
    list, t, cost, width := SortLoop(kind, cmp, list0, u, s);
    MergeSortIsStableSort(cmp, u, s);
    SortCost(cmp, s);
    assert |multiset(t)| == |multiset(s)|;
    if s != [] { WidthFitsInt(|s|); }
  }
}
