/** Doubly linked nodes as sequences: what "well formed" means for the list of godot_sort.h. */
module LinkedNodes {
  import opened Sequences
  import opened Orders

  class Node<V> {
    var value: V
    var next: Node?<V>
    var prev: Node?<V>

    constructor (v: V)
      ensures value == v && next == null && prev == null
    {
      value, next, prev := v, null, null;
    }
  }

  ghost predicate LinkAt<V>(ns: seq<Node<V>>, k: nat)
    requires 0 < k < |ns|
    reads ns
  {
    ns[k - 1].next == ns[k] && ns[k].prev == ns[k - 1]
  }

  /** Next and prev are mutually inverse along `ns`. */
  ghost predicate Linked<V>(ns: seq<Node<V>>)
    reads ns
  {
    forall k :: 0 < k < |ns| ==> LinkAt(ns, k)
  }

  /** A whole list: distinct nodes, linked both ways, with open ends. */
  ghost predicate Chain<V>(ns: seq<Node<V>>)
    reads ns
  {
    ns != [] && NoDup(ns) && Linked(ns) && ns[0].prev == null && ns[|ns| - 1].next == null
  }

  /** The same, opened only by StrungMeans. */
  ghost predicate Strung<V>(ns: seq<Node<V>>)
    reads ns
  {
    forall u {:trigger Opened(u)} :: Opened(u) ==> Chain(ns)
  }

  lemma StrungMeans<V>(ns: seq<Node<V>>)
    requires Strung(ns)
    ensures Chain(ns)
  {
    assert Opened(0);
  }

  ghost predicate Apart<V>(a: seq<Node<V>>, b: seq<Node<V>>) {
    forall i, j :: 0 <= i < |a| && 0 <= j < |b| ==> a[i] != b[j]
  }

  /** `c` decides as `less` does on the values: the left node goes first unless the right one is less. */
  ghost predicate Decides<V>(c: Comparator<Node<V>>, less: (V, V) -> bool, ns: seq<Node<V>>)
    reads ns`value
  {
    forall i, j :: 0 <= i < |ns| && 0 <= j < |ns| ==> (c(ns[i], ns[j]) <= 0 <==> !less(ns[j].value, ns[i].value))
  }

  /** The same, opened only on request. */
  ghost predicate Judges<V>(c: Comparator<Node<V>>, less: (V, V) -> bool, ns: seq<Node<V>>)
    reads ns`value
  {
    forall u {:trigger Opened(u)} :: Opened(u) ==> Decides(c, less, ns)
  }

  /** A split chain is two chains. */
  method Split<V>(a: Node<V>, b: Node<V>, ghost ns: seq<Node<V>>, ghost k: nat)
    requires 0 < k < |ns| && Strung(ns) && a == ns[k - 1] && b == ns[k]
    modifies a`next, b`prev
    ensures Strung(ns[..k]) && Strung(ns[k..]) && Apart(ns[..k], ns[k..])
  {
    StrungMeans(ns);
    a.next := null;
    b.prev := null;
    ghost var l, r := ns[..k], ns[k..];
    assert forall i :: 0 <= i < |l| ==> l[i] == ns[i];
    assert forall i :: 0 <= i < |r| ==> r[i] == ns[k + i];
    assert Linked(l) by {
      forall i | 0 < i < |l| ensures LinkAt(l, i) {
        assert old(LinkAt(ns, i)) && ns[i] != ns[k] && ns[i - 1] != ns[k - 1];
      }
    }
    assert Linked(r) by {
      forall i | 0 < i < |r| ensures LinkAt(r, i) {
        assert old(LinkAt(ns, k + i)) && ns[k + i] != ns[k] && ns[k + i - 1] != ns[k - 1];
      }
    }
  }
}
