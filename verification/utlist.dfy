/** The DL_ list operations of deps/ut/utlist.h, the container behind every option list of pflask. */
module UtList {
  import opened MergeSpec
  import opened UtSort

  ghost predicate Disjoint<E>(a: seq<E>, b: seq<E>) {
    forall i, j | 0 <= i < |a| && 0 <= j < |b| :: a[i] != b[j]
  }

  /** What a list of nodes holds. */
  ghost function Values<T>(nodes: seq<Node<T>>): (v: seq<T>)
    ensures |v| == |nodes|
  {
    seq(|nodes|, i requires 0 <= i < |nodes| => nodes[i].val)
  }

  lemma {:induction false} ValuesConcat<T>(a: seq<Node<T>>, b: seq<Node<T>>)
    ensures Values(a + b) == Values(a) + Values(b)
  {}

  /** A list head variable, as in `struct mount *mounts = NULL`. */
  class DList<T> {
    var head: Node?<T>
    ghost var nodes: seq<Node<T>>

    ghost predicate Valid()
      reads this, nodes
    {
      IsDoubly(head, nodes)
    }

    constructor ()
      ensures Valid() && nodes == []
    {
      head := null;
      nodes := [];
    }

    /** DL_PREPEND2 */
    method Prepend(add: Node<T>)
      requires Valid() && add !in nodes
      modifies this, nodes, add
      ensures Valid() && nodes == [add] + old(nodes)
    {
      add.next := head;
      if head != null {
        add.prev := head.prev;
        head.prev := add;
      } else {
        add.prev := add;
      }
      head := add;
      nodes := [add] + nodes;
    }

    /** DL_APPEND2 */
    method Append(add: Node<T>)
      requires Valid() && add !in nodes
      modifies this, nodes, add
      ensures Valid() && nodes == old(nodes) + [add]
    {
      if head != null {
        add.prev := head.prev;
        head.prev.next := add;
        head.prev := add;
        add.next := null;
      } else {
        head := add;
        head.prev := head;
        head.next := null;
      }
      nodes := nodes + [add];
    }

    /** DL_CONCAT2: the nodes of `other` become the end of this list; `other` is a list head no more. */
    method Concat(other: DList<T>)
      requires Valid() && other.Valid() && other != this
      requires Disjoint(nodes, other.nodes)
      modifies this, nodes, other.nodes
      ensures Valid() && nodes == old(nodes) + old(other.nodes)
    {
      ghost var all := nodes + other.nodes;
      assert nodes == [] ==> all == other.nodes;
      assert other.nodes == [] ==> all == nodes;
      if other.head != null {
        if head != null {
          assert Distinct(all);
          var tmp := other.head.prev;
          other.head.prev := head.prev;
          head.prev.next := other.head;
          head.prev := tmp;
          assert Chained(all, 0, null);
          assert BackLinks(all);
        } else {
          head := other.head;
        }
      }
      nodes := all;
    }

    /** DL_DELETE2 */
    method Delete(del: Node<T>, ghost k: nat)
      requires Valid() && k < |nodes| && nodes[k] == del
      modifies this, nodes
      ensures Valid() && nodes == old(nodes)[..k] + old(nodes)[k + 1..]
    {
      if del.prev == del {
        head := null;
      } else if del == head {
        del.next.prev := del.prev;
        head := del.next;
      } else {
        del.prev.next := del.next;
        if del.next != null {
          del.next.prev := del.prev;
        } else {
          head.prev := del.prev;
        }
      }
      nodes := nodes[..k] + nodes[k + 1..];
      assert Chained(nodes, 0, null);
      assert BackLinks(nodes);
    }

    /** DL_REPLACE_ELEM */
    method ReplaceElem(el: Node<T>, add: Node<T>, ghost k: nat)
      requires Valid() && k < |nodes| && nodes[k] == el && add !in nodes
      modifies this, nodes, add
      ensures Valid() && nodes == old(nodes)[k := add]
    {
      if head == el {
        head := add;
        add.next := el.next;
        if el.next == null {
          add.prev := add;
        } else {
          add.prev := el.prev;
          add.next.prev := add;
        }
      } else {
        add.next := el.next;
        add.prev := el.prev;
        add.prev.next := add;
        if el.next == null {
          head.prev := add;
        } else {
          add.next.prev := add;
        }
      }
      nodes := nodes[k := add];
      assert Distinct(nodes);
      assert Chained(nodes, 0, null);
      assert BackLinks(nodes);
    }

    /** DL_PREPEND_ELEM: `add` goes in front of `el`. */
    method PrependElem(el: Node<T>, add: Node<T>, ghost k: nat)
      requires Valid() && k < |nodes| && nodes[k] == el && add !in nodes
      modifies this, nodes, add
      ensures Valid() && nodes == old(nodes)[..k] + [add] + old(nodes)[k..]
    {
      ghost var more := nodes[..k] + [add] + nodes[k..];
      assert Distinct(more);
      add.next := el;
      add.prev := el.prev;
      el.prev := add;
      if head == el {
        head := add;
      } else {
        add.prev.next := add;
      }
      assert Chained(more, 0, null);
      assert BackLinks(more);
      nodes := more;
    }

    /** DL_FOREACH2 with a body that notes each element. */
    method Elements() returns (values: seq<T>)
      requires Valid()
      ensures values == Values(nodes)
    {
      values := [];
      var el := head;
      while el != null
        invariant |values| <= |nodes| && el == At(nodes, |values|, null)
        invariant forall i | 0 <= i < |values| :: values[i] == nodes[i].val
        decreases |nodes| - |values|
      {
        values := values + [el.val];
        el := el.next;
      }
    }

    /** DL_SORT2 */
    method Sort(cmp: (Node<T>, Node<T>) -> int, ghost u: set<Node<T>>) returns (ghost cost: nat)
      requires Valid() && Within(nodes, u) && Preorder(cmp, u)
      modifies this, u
      ensures Valid() && StableSortOf(cmp, old(nodes), nodes)
      ensures cost <= |old(nodes)| * CeilLog2(|old(nodes)|)
    {
      ghost var width;
      head, nodes, cost, width := UtSort.Sort(Doubly, cmp, head, u, nodes);
    }
  }
}
