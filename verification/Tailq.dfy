/** The tail queue macros of queue.h. A tqe_prev or tqh_last is the address of a next field (or of the
    head's first field); macros read and write through that address. */
module Tailq {

  /** The addresses such a pointer can hold. */
  datatype Loc<T> = Nowhere | HeadLoc(head: Head<T>) | NextOf(node: Node<T>)

  class Node<T> {
    const item: T
    var next: Node?<T> // tqe_next
    var prev: Loc<T> // tqe_prev
    ghost var freed: bool

    constructor (item: T)
      ensures this.item == item && !freed
    {
      this.item := item;
      next, prev, freed := null, Nowhere, false;
    }

    /** TAILQ_NEXT; nobody may look into a node after free(). */
    method Next() returns (n: Node?<T>)
      requires !freed
      ensures n == next
    {
      n := next;
    }

    /** free(): at most once, and only for a node that is still owned. */
    method Free()
      requires !freed
      modifies this`freed
      ensures freed
    {
      freed := true;
    }
  }

  ghost function ObjectOf<T>(l: Loc<T>): set<object> {
    match l
    case Nowhere => {}
    case HeadLoc(h) => {h}
    case NextOf(n) => {n}
  }

  /** *l */
  function Load<T>(l: Loc<T>): Node?<T>
    requires l != Nowhere
    reads ObjectOf(l)
  {
    match l
    case HeadLoc(h) => h.first
    case NextOf(n) => n.next
  }

  /** *l = n */
  method Store<T>(l: Loc<T>, n: Node?<T>)
    requires l != Nowhere
    modifies (if l.HeadLoc? then {l.head} else {})`first, (if l.NextOf? then {l.node} else {})`next
    ensures Load(l) == n
  {
    match l
    case HeadLoc(h) => h.first := n;
    case NextOf(m) => m.next := n;
  }

  /** ((struct headname *) l)->tqh_last: both structs hold two pointers, so the field behind the one
      that l addresses is tqh_last of a head and tqe_prev of a node. */
  function PunnedLast<T>(l: Loc<T>): Loc<T>
    requires l != Nowhere
    reads ObjectOf(l)
  {
    match l
    case HeadLoc(h) => h.last
    case NextOf(n) => n.prev
  }

  ghost predicate Distinct<T>(q: seq<Node<T>>) {
    forall i, j :: 0 <= i < j < |q| ==> q[i] != q[j]
  }

  lemma DistinctInsert<T>(q: seq<Node<T>>, i: nat, e: Node<T>)
    requires Distinct(q) && e !in q && i <= |q|
    ensures Distinct(q[..i] + [e] + q[i..])
  {
    var r := q[..i] + [e] + q[i..];
    forall j, k | 0 <= j < k < |r| ensures r[j] != r[k] {
      assert j < i ==> r[j] == q[j];
      assert j > i ==> r[j] == q[j - 1];
      assert k < i ==> r[k] == q[k];
      assert k > i ==> r[k] == q[k - 1];
    }
  }

  lemma DistinctRemove<T>(q: seq<Node<T>>, i: nat)
    requires Distinct(q) && i < |q|
    ensures Distinct(q[..i] + q[i + 1..]) && q[i] !in q[..i] + q[i + 1..]
  {
  }

  class Head<T> {
    var first: Node?<T> // tqh_first
    var last: Loc<T> // tqh_last
    ghost var elems: seq<Node<T>> // the sequence this queue stands for

    ghost predicate Valid()
      reads this, (set e | e in elems)`next, (set e | e in elems)`prev
    {
      && Distinct(elems)
      && first == (if elems == [] then null else elems[0])
      && last == (if elems == [] then HeadLoc(this) else NextOf(elems[|elems| - 1]))
      && (forall i :: 0 <= i < |elems| ==> LinkedAt(elems, i))
    }

    ghost predicate LinkedAt(q: seq<Node<T>>, i: nat)
      requires i < |q|
      reads q`next, q`prev
    {
      && q[i].next == (if i + 1 < |q| then q[i + 1] else null)
      && q[i].prev == (if i == 0 then HeadLoc(this) else NextOf(q[i - 1]))
    }

    /** What the header file promises of the back links: each addresses the pointer to its own node,
        and tqh_last addresses the pointer that ends the list. */
    lemma BackLinks()
      requires Valid()
      ensures last != Nowhere && Load(last) == null
      ensures forall e :: e in elems ==> e.prev != Nowhere && Load(e.prev) == e
    {
      assert elems != [] ==> LinkedAt(elems, |elems| - 1);
      forall e | e in elems ensures e.prev != Nowhere && Load(e.prev) == e {
        var i :| 0 <= i < |elems| && elems[i] == e;
        assert LinkedAt(elems, i) && (i > 0 ==> LinkedAt(elems, i - 1));
      }
    }

    lemma FirstIs()
      requires Valid()
      ensures first == if elems == [] then null else elems[0]
    {
    }

    lemma NextIs(i: nat)
      requires Valid() && i < |elems|
      ensures elems[i].next == if i + 1 < |elems| then elems[i + 1] else null
    {
      assert LinkedAt(elems, i);
    }

    lemma DistinctMeans()
      requires Valid()
      ensures forall i, j :: 0 <= i < j < |elems| ==> elems[i] != elems[j]
    {
    }

    constructor () // TAILQ_INIT
      ensures Valid() && elems == []
    {
      first, elems := null, [];
      new;
      last := HeadLoc(this);
    }

    method Init()
      modifies this
      ensures Valid() && elems == []
    {
      first := null;
      last := HeadLoc(this);
      elems := [];
    }

    method InsertHead(elm: Node<T>)
      requires Valid() && elm !in elems
      modifies this, elm`next, elm`prev, (set e | e in elems)`next, (set e | e in elems)`prev
      ensures Valid() && elems == [elm] + old(elems)
    {
      elm.next := first;
      if first != null {
        first.prev := NextOf(elm);
      } else {
        last := NextOf(elm);
      }
      first := elm;
      elm.prev := HeadLoc(this);
      ghost var q := elems;
      elems := [elm] + q;
      forall k | 0 <= k < |elems| ensures LinkedAt(elems, k) {
        assert k > 0 ==> elems[k] == q[k - 1] && old(LinkedAt(q, k - 1));
      }
    }

    method InsertTail(elm: Node<T>)
      requires Valid() && elm !in elems
      modifies this, elm`next, elm`prev, (set e | e in elems)`next, (set e | e in elems)`prev
      ensures Valid() && elems == old(elems) + [elm]
    {
      elm.next := null;
      elm.prev := last;
      Store(last, elm);
      last := NextOf(elm);
      ghost var q := elems;
      elems := q + [elm];
      forall k | 0 <= k < |elems| ensures LinkedAt(elems, k) {
        assert k < |q| ==> elems[k] == q[k] && old(LinkedAt(q, k));
      }
    }

    method InsertAfter(listelm: Node<T>, elm: Node<T>, ghost i: nat)
      requires Valid() && elm !in elems && i < |elems| && elems[i] == listelm
      modifies this, elm`next, elm`prev, (set e | e in elems)`next, (set e | e in elems)`prev
      ensures Valid() && elems == old(elems)[..i + 1] + [elm] + old(elems)[i + 1..]
    {
      hide Distinct;
      DistinctMeans();
      assert LinkedAt(elems, i);
      elm.next := listelm.next;
      if elm.next != null {
        elm.next.prev := NextOf(elm);
      } else {
        last := NextOf(elm);
      }
      listelm.next := elm;
      elm.prev := NextOf(listelm);
      ghost var q := elems;
      elems := q[..i + 1] + [elm] + q[i + 1..];
      DistinctInsert(q, i + 1, elm);
      assert forall j :: 0 <= j < |elems| ==> elems[j] == if j <= i then q[j] else if j == i + 1 then elm else q[j - 1];
      forall k | 0 <= k < |elems| ensures LinkedAt(elems, k) {
        if k != i + 1 {
          var j := if k <= i then k else k - 1;
          assert elems[k] == q[j] && q[j] != elm && old(LinkedAt(q, j));
          assert (q[j] == q[i] <==> j == i) && (i + 1 < |q| ==> (q[j] == q[i + 1] <==> j == i + 1));
        }
      }
    }

    /** A node of q once elm has been linked in before the i-th. */
    ghost predicate LinkedAround(q: seq<Node<T>>, i: nat, elm: Node<T>, j: nat)
      requires i < |q| && j < |q|
      reads q`next, q`prev
    {
      && q[j].next == (if j + 1 == i then elm else if j + 1 < |q| then q[j + 1] else null)
      && q[j].prev == (if j == i then NextOf(elm) else if j == 0 then HeadLoc(this) else NextOf(q[j - 1]))
    }

    lemma LinkedBefore(q: seq<Node<T>>, i: nat, elm: Node<T>)
      requires i < |q|
      requires forall j :: 0 <= j < |q| ==> LinkedAround(q, i, elm, j)
      requires elm.next == q[i] && elm.prev == if i == 0 then HeadLoc(this) else NextOf(q[i - 1])
      ensures var r := q[..i] + [elm] + q[i..]; forall k :: 0 <= k < |r| ==> LinkedAt(r, k)
    {
      var r := q[..i] + [elm] + q[i..];
      forall k | 0 <= k < |r| ensures LinkedAt(r, k) {
        if k != i {
          assert LinkedAround(q, i, elm, if k < i then k else k - 1);
        }
      }
    }

    /** The macro has no head argument; only the ghost sequence needs the receiver. */
    method InsertBefore(listelm: Node<T>, elm: Node<T>, ghost i: nat)
      requires Valid() && elm !in elems && i < |elems| && elems[i] == listelm
      modifies this, elm`next, elm`prev, (set e | e in elems)`next, (set e | e in elems)`prev
      ensures Valid() && elems == old(elems)[..i] + [elm] + old(elems)[i..]
    {
      hide Distinct;
      DistinctMeans();
      assert LinkedAt(elems, i) && (i > 0 ==> LinkedAt(elems, i - 1));
      elm.prev := listelm.prev;
      elm.next := listelm;
      Store(listelm.prev, elm);
      listelm.prev := NextOf(elm);
      ghost var q := elems;
      forall j | 0 <= j < |q| ensures LinkedAround(q, i, elm, j) {
        assert q[j] != elm && old(LinkedAt(q, j));
        assert (q[j] == q[i] <==> j == i) && (i > 0 ==> (q[j] == q[i - 1] <==> j == i - 1));
      }
      LinkedBefore(q, i, elm);
      elems := q[..i] + [elm] + q[i..];
      DistinctInsert(q, i, elm);
    }

    method Remove(elm: Node<T>, ghost i: nat)
      requires Valid() && i < |elems| && elems[i] == elm
      modifies this, (set e | e in elems)`next, (set e | e in elems)`prev
      ensures Valid() && elems == old(elems)[..i] + old(elems)[i + 1..] && elm !in elems
    {
      assert LinkedAt(elems, i);
      if elm.next != null {
        elm.next.prev := elm.prev;
      } else {
        last := elm.prev;
      }
      Store(elm.prev, elm.next);
      ghost var q := elems;
      elems := q[..i] + q[i + 1..];
      DistinctRemove(q, i);
      assert forall j :: 0 <= j < |elems| ==> elems[j] == if j < i then q[j] else q[j + 1];
      forall k | 0 <= k < |elems| ensures LinkedAt(elems, k) {
        var j := if k < i then k else k + 1;
        assert elems[k] == q[j] && old(LinkedAt(q, j));
      }
    }

    /** TAILQ_LAST, through the struct pun. */
    method Last() returns (e: Node?<T>)
      requires Valid()
      ensures e == if elems == [] then null else elems[|elems| - 1]
    {
      LastPun();
      e := Load(PunnedLast(last));
    }

    lemma LastPun()
      requires Valid()
      ensures last != Nowhere && PunnedLast(last) != Nowhere
      ensures Load(PunnedLast(last)) == if elems == [] then null else elems[|elems| - 1]
    {
      if elems != [] {
        PrevPun(|elems| - 1);
        BackLinks();
        assert elems[|elems| - 1] in elems;
      }
    }

    /** TAILQ_PREV, through the struct pun. */
    method Prev(elm: Node<T>, ghost i: nat) returns (e: Node?<T>)
      requires Valid() && i < |elems| && elems[i] == elm
      ensures e == if i == 0 then null else elems[i - 1]
    {
      PrevPun(i);
      e := Load(PunnedLast(elm.prev));
    }

    lemma PrevPun(i: nat)
      requires Valid() && i < |elems|
      ensures elems[i].prev != Nowhere && PunnedLast(elems[i].prev) != Nowhere
      ensures Load(PunnedLast(elems[i].prev)) == if i == 0 then null else elems[i - 1]
    {
      BackLinks();
      assert LinkedAt(elems, i);
      assert i > 0 ==> elems[i - 1] in elems;
    }

    /** TAILQ_FOREACH: the nodes in the order of the loop. */
    method Foreach() returns (visited: seq<Node<T>>)
      requires Valid()
      ensures visited == elems
    {
      visited := [];
      var v := first;
      while v != null
        invariant |visited| <= |elems| && visited == elems[..|visited|]
        invariant v == if |visited| < |elems| then elems[|visited|] else null
        decreases |elems| - |visited|
      {
        assert LinkedAt(elems, |visited|);
        visited := visited + [v];
        v := v.next;
      }
    }

    /** TAILQ_FOREACH_REVERSE: exactly the reversal. */
    method ForeachReverse() returns (visited: seq<Node<T>>)
      requires Valid()
      ensures |visited| == |elems|
      ensures forall k :: 0 <= k < |elems| ==> visited[k] == elems[|elems| - 1 - k]
    {
      visited := [];
      var v := Last();
      while v != null
        invariant |visited| <= |elems|
        invariant v == if |visited| < |elems| then elems[|elems| - 1 - |visited|] else null
        invariant forall k :: 0 <= k < |visited| ==> visited[k] == elems[|elems| - 1 - k]
        decreases |elems| - |visited|
      {
        ghost var i := |elems| - 1 - |visited|;
        visited := visited + [v];
        v := Prev(v, i);
      }
    }
  }
}
