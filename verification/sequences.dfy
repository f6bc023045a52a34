/** Laws of sequences that proofs have to name. */
module Sequences {

  lemma {:induction false} Assoc<E>(a: seq<E>, b: seq<E>, c: seq<E>)
    ensures (a + b) + c == a + (b + c)
  {}

  /** One sequence behind the other. */
  function Flat<E>(xss: seq<seq<E>>): seq<E> {
    if xss == [] then [] else Flat(xss[..|xss| - 1]) + xss[|xss| - 1]
  }

  /** How many elements come before those of the `k`-th sequence. */
  function CountTo<E>(xss: seq<seq<E>>, k: nat): nat
    requires k <= |xss|
  {
    if k == 0 then 0 else CountTo(xss, k - 1) + |xss[k - 1]|
  }

  lemma {:induction false} FlatMore<E>(most: seq<seq<E>>, last: seq<E>, all: seq<seq<E>>)
    requires all == most + [last]
    ensures Flat(all) == Flat(most) + last
  {
    assert all[..|all| - 1] == most && all[|all| - 1] == last;
  }

  lemma {:induction false} FlatConcat<E>(a: seq<seq<E>>, b: seq<seq<E>>)
    ensures Flat(a + b) == Flat(a) + Flat(b)
    decreases |b|
  {
    if b == [] {
      assert a + b == a;
    } else {
      var most, last := b[..|b| - 1], b[|b| - 1];
      FlatConcat(a, most);
      FlatMore(most, last, b);
      FlatMore(a + most, last, a + b);
      Assoc(Flat(a), Flat(most), last);
    }
  }

  lemma {:induction false} FlatLength<E>(xss: seq<seq<E>>, n: nat)
    requires n <= |xss|
    ensures |Flat(xss[..n])| == CountTo(xss, n)
  {
    if n > 0 {
      FlatLength(xss, n - 1);
      FlatMore(xss[..n - 1], xss[n - 1], xss[..n]);
    }
  }

  lemma {:induction false} Amid<E>(a: seq<E>, b: seq<E>, c: seq<E>, j: nat)
    requires j < |b|
    ensures (a + b + c)[|a| + j] == b[j]
  {}

  /** The place of the `j`-th element of the `k`-th sequence. */
  lemma {:induction false} FlatAt<E>(xss: seq<seq<E>>, k: nat, j: nat)
    requires k < |xss| && j < |xss[k]|
    ensures CountTo(xss, k) + j < |Flat(xss)| && Flat(xss)[CountTo(xss, k) + j] == xss[k][j]
  {
    FlatLength(xss, k);
    FlatMore(xss[..k], xss[k], xss[..k + 1]);
    FlatConcat(xss[..k + 1], xss[k + 1..]);
    assert xss[..k + 1] + xss[k + 1..] == xss;
    Amid(Flat(xss[..k]), xss[k], Flat(xss[k + 1..]), j);
  }
}
