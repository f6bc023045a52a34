/** Whole runs of the DL_ operations on one list head. */
module UtListRuns {
  import opened MergeSpec
  import opened UtSort
  import opened UtList

  datatype Op<T> =
    | Append(x: T) | Prepend(x: T) | InsertBefore(k: nat, x: T) | Replace(k: nat, x: T) | Delete(k: nat)
    | Concat(xs: seq<T>)

  /** An operation names an element that is there. */
  ghost predicate Fits<T>(op: Op<T>, n: nat) {
    op.InsertBefore? || op.Replace? || op.Delete? ==> op.k < n
  }

  /** What the operation means for a sequence. */
  ghost function Apply<T>(s: seq<T>, op: Op<T>): seq<T>
    requires Fits(op, |s|)
  {
    match op
    case Append(x) => s + [x]
    case Prepend(x) => [x] + s
    case InsertBefore(k, x) => s[..k] + [x] + s[k..]
    case Replace(k, x) => s[k := x]
    case Delete(k) => s[..k] + s[k + 1..]
    case Concat(xs) => s + xs
  }

  /** `back` undoes `op`. */
  ghost predicate UndoneBy<T>(s: seq<T>, op: Op<T>, back: Op<T>)
    requires Fits(op, |s|)
  {
    Fits(back, |Apply(s, op)|) && Apply(Apply(s, op), back) == s
  }

  lemma {:induction false} AppendUndone<T>(s: seq<T>, x: T)
    ensures Apply(s, Append(x))[|s|] == x && UndoneBy(s, Append(x), Delete(|s|))
  {
    assert (s + [x])[..|s|] + (s + [x])[|s| + 1..] == s;
  }

  lemma {:induction false} PrependUndone<T>(s: seq<T>, x: T)
    ensures Apply(s, Prepend(x))[0] == x && UndoneBy(s, Prepend(x), Delete(0))
  {
    assert ([x] + s)[..0] + ([x] + s)[1..] == s;
  }

  lemma {:induction false} InsertUndone<T>(s: seq<T>, k: nat, x: T)
    requires k < |s|
    ensures Apply(s, InsertBefore(k, x))[k] == x && UndoneBy(s, InsertBefore(k, x), Delete(k))
  {
    var t := s[..k] + [x] + s[k..];
    assert t[..k] == s[..k] && t[k + 1..] == s[k..];
  }

  lemma {:induction false} ReplaceUndone<T>(s: seq<T>, k: nat, x: T)
    requires k < |s|
    ensures Apply(s, Replace(k, x))[k] == x && UndoneBy(s, Replace(k, x), Replace(k, s[k]))
  {
    assert s[k := x][k := s[k]] == s;
  }

  /** What was deleted is put back in front of what followed it, or at the end. */
  lemma {:induction false} DeleteUndone<T>(s: seq<T>, k: nat)
    requires k < |s|
    ensures UndoneBy(s, Delete(k), if k == |s| - 1 then Append(s[k]) else InsertBefore(k, s[k]))
  {
    var t := s[..k] + s[k + 1..];
    assert t[..k] == s[..k] && t[k..] == s[k + 1..];
    assert s == s[..k] + [s[k]] + s[k + 1..];
  }

  /** Concatenation is one append for each element. */
  lemma {:induction false} ConcatAppends<T>(s: seq<T>, xs: seq<T>, x: T)
    ensures Apply(s, Concat([])) == s
    ensures Apply(s, Concat(xs + [x])) == Apply(Apply(s, Concat(xs)), Append(x))
  {}

  ghost predicate AllFit<T>(s: seq<T>, ops: seq<Op<T>>)
    decreases |ops|
  {
    ops == [] || (Fits(ops[0], |s|) && AllFit(Apply(s, ops[0]), ops[1..]))
  }

  ghost function ApplyAll<T>(s: seq<T>, ops: seq<Op<T>>): seq<T>
    requires AllFit(s, ops)
    decreases |ops|
  {
    if ops == [] then s else ApplyAll(Apply(s, ops[0]), ops[1..])
  }

  /** A well-formed list over nodes of `pool` that holds `s`. */
  ghost predicate Has<T>(l: DList<T>, pool: set<Node<T>>, s: seq<T>)
    reads l, pool
  {
    Within(l.nodes, pool) && l.Valid() && Values(l.nodes) == s
  }

  /** The element at position `k`, found by going along. */
  method Find<T>(l: DList<T>, k: nat) returns (el: Node<T>)
    requires l.Valid() && k < |l.nodes|
    ensures el == l.nodes[k]
  {
    el := l.head;
    for i := 0 to k
      invariant el == l.nodes[i]
    {
      el := el.next;
    }
  }

  /** A list of its own for DL_CONCAT. */
  method Build<T>(xs: seq<T>) returns (l: DList<T>, ghost pool: set<Node<T>>)
    ensures fresh(l) && fresh(pool) && Has(l, pool, xs)
  {
    l := new DList();
    pool := {};
    for i := 0 to |xs|
      invariant fresh(pool) && Has(l, pool, xs[..i])
    {
      pool := AddLast(l, pool, xs[..i], xs[i]);
      assert xs[..i + 1] == xs[..i] + [xs[i]];
    }
    assert xs[..|xs|] == xs;
  }

  method AddLast<T>(l: DList<T>, ghost pool: set<Node<T>>, ghost s: seq<T>, x: T) returns (ghost pool': set<Node<T>>)
    requires Has(l, pool, s)
    modifies l, pool
    ensures fresh(pool' - pool) && Has(l, pool', s + [x])
  {
    var n := new Node(x);
    l.Append(n);
    pool' := pool + {n};
  }

  method AddFirst<T>(l: DList<T>, ghost pool: set<Node<T>>, ghost s: seq<T>, x: T) returns (ghost pool': set<Node<T>>)
    requires Has(l, pool, s)
    modifies l, pool
    ensures fresh(pool' - pool) && Has(l, pool', [x] + s)
  {
    var n := new Node(x);
    l.Prepend(n);
    pool' := pool + {n};
  }

  method AddBefore<T>(l: DList<T>, ghost pool: set<Node<T>>, ghost s: seq<T>, k: nat, x: T)
      returns (ghost pool': set<Node<T>>)
    requires Has(l, pool, s) && k < |s|
    modifies l, pool
    ensures fresh(pool' - pool) && Has(l, pool', s[..k] + [x] + s[k..])
  {
    var el := Find(l, k);
    var n := new Node(x);
    l.PrependElem(el, n, k);
    pool' := pool + {n};
  }

  method PutFor<T>(l: DList<T>, ghost pool: set<Node<T>>, ghost s: seq<T>, k: nat, x: T)
      returns (ghost pool': set<Node<T>>)
    requires Has(l, pool, s) && k < |s|
    modifies l, pool
    ensures fresh(pool' - pool) && Has(l, pool', s[k := x])
  {
    var el := Find(l, k);
    var n := new Node(x);
    l.ReplaceElem(el, n, k);
    pool' := pool + {n};
  }

  method Remove<T>(l: DList<T>, ghost pool: set<Node<T>>, ghost s: seq<T>, k: nat)
    requires Has(l, pool, s) && k < |s|
    modifies l, pool
    ensures Has(l, pool, s[..k] + s[k + 1..])
  {
    var el := Find(l, k);
    l.Delete(el, k);
  }

  method AddList<T>(l: DList<T>, ghost pool: set<Node<T>>, ghost s: seq<T>, xs: seq<T>)
      returns (ghost pool': set<Node<T>>)
    requires Has(l, pool, s)
    modifies l, pool
    ensures fresh(pool' - pool) && Has(l, pool', s + xs)
  {
    ghost var more;
    var other;
    other, more := Build(xs);
    pool' := pool + more;
    Join(l, other, pool, more, s, xs);
  }

  method Join<T>(l: DList<T>, other: DList<T>, ghost pool: set<Node<T>>, ghost more: set<Node<T>>,
                 ghost s: seq<T>, ghost xs: seq<T>)
    requires l != other && pool !! more && Has(l, pool, s) && Has(other, more, xs)
    modifies l, pool, more
    ensures Has(l, pool + more, s + xs)
  {
    l.Concat(other);
  }

  method Perform<T>(l: DList<T>, op: Op<T>, ghost pool: set<Node<T>>, ghost s: seq<T>)
      returns (ghost pool': set<Node<T>>)
    requires Has(l, pool, s) && Fits(op, |s|)
    modifies l, pool
    ensures fresh(pool' - pool) && Has(l, pool', Apply(s, op))
  {
    match op {
      case Append(x) => pool' := AddLast(l, pool, s, x);
      case Prepend(x) => pool' := AddFirst(l, pool, s, x);
      case InsertBefore(k, x) => pool' := AddBefore(l, pool, s, k, x);
      case Replace(k, x) => pool' := PutFor(l, pool, s, k, x);
      case Delete(k) => Remove(l, pool, s, k); pool' := pool;
      case Concat(xs) => pool' := AddList(l, pool, s, xs);
    }
  }

  /** Whatever operations are done in whatever order, the list stays well-formed and holds what the operations mean. */
  method Run<T>(ops: seq<Op<T>>) returns (l: DList<T>)
    requires AllFit([], ops)
    ensures fresh(l) && l.Valid() && Values(l.nodes) == ApplyAll([], ops)
  {
    l := new DList();
    ghost var pool: set<Node<T>>, s: seq<T> := {}, [];
    assert ops[0..] == ops;
    for i := 0 to |ops|
      invariant fresh(pool) && Has(l, pool, s)
      invariant AllFit(s, ops[i..]) && ApplyAll(s, ops[i..]) == ApplyAll([], ops)
    {
      assert ops[i..][0] == ops[i] && ops[i..][1..] == ops[i + 1..];
      pool := Perform(l, ops[i], pool, s);
      s := Apply(s, ops[i]);
    }
  }
}
