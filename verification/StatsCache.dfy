/** The cached statistics of one uri: replacing the list without losing, sharing or freeing a node twice. */
module StatsCache {
  import opened Tailq

  datatype StatValue = ALPHA(s: string) | UINT64(n: nat)

  datatype Stat = Stat(name: string, value: StatValue)

  ghost predicate Owned(q: seq<Node<Stat>>)
    reads (set e | e in q)`freed
  {
    forall e :: e in q ==> !e.freed
  }

  ghost predicate Freed(q: seq<Node<Stat>>)
    reads (set e | e in q)`freed
  {
    forall e :: e in q ==> e.freed
  }

  ghost predicate Disjoint(q: seq<Node<Stat>>, r: seq<Node<Stat>>) {
    forall e :: e in q ==> e !in r
  }

  function Items(q: seq<Node<Stat>>): seq<Stat> {
    seq(|q|, i requires 0 <= i < |q| => q[i].item)
  }

  lemma ItemsSnoc(q: seq<Node<Stat>>, n: Node<Stat>)
    ensures Items(q + [n]) == Items(q) + [n.item]
  {
  }

  /** newStatEntry and the insertion at the tail. */
  method InsertNew(stats: Head<Stat>, item: Stat)
    requires stats.Valid() && Owned(stats.elems)
    modifies stats, (set e | e in stats.elems)`next, (set e | e in stats.elems)`prev
    ensures stats.Valid() && Owned(stats.elems)
    ensures forall e :: e in stats.elems ==> e in old(stats.elems) || fresh(e)
    ensures Items(stats.elems) == old(Items(stats.elems)) + [item]
  {
    hide Head.Valid, Items;
    var entry := new Node(item);
    ItemsSnoc(stats.elems, entry);
    stats.InsertTail(entry);
  }

  method RemoveOldStats(stats: Head<Stat>)
    requires stats.Valid() && Owned(stats.elems)
    modifies stats, (set e | e in stats.elems)`freed
    ensures stats.Valid() && stats.elems == []
    ensures Freed(old(stats.elems))
  {
    ghost var q, i := stats.elems, 0;
    var entry := stats.first;
    while entry != null
      invariant stats.Valid() && stats.elems == q && i <= |q|
      invariant entry == if i < |q| then q[i] else null
      invariant forall k :: 0 <= k < |q| ==> q[k].freed == (k < i)
      decreases |q| - i
    {
      stats.NextIs(i);
      var tmp := entry.Next();
      entry.Free();
      entry := tmp;
      i := i + 1;
    }
    stats.Init();
  }

  /** One turn of the loop of addNewStats. */
  method MoveFirst(stats: Head<Stat>, newStats: Head<Stat>)
    requires stats.Valid() && newStats.Valid() && stats != newStats && Disjoint(newStats.elems, stats.elems)
    requires newStats.first != null
    modifies stats, (set e | e in stats.elems)`next, (set e | e in stats.elems)`prev, newStats, (set e | e in newStats.elems)`next, (set e | e in newStats.elems)`prev
    ensures stats.Valid() && newStats.Valid() && Disjoint(newStats.elems, stats.elems)
    ensures old(newStats.elems) != [] && newStats.elems == old(newStats.elems)[1..]
    ensures stats.elems == old(stats.elems) + [old(newStats.elems)[0]]
  {
    hide Head.Valid;
    newStats.FirstIs();
    var entry := newStats.first;
    newStats.Remove(entry, 0);
    assert newStats.elems == old(newStats.elems)[1..];
    assert Disjoint(newStats.elems, stats.elems);
    stats.InsertTail(entry);
  }

  method AddNewStats(stats: Head<Stat>, newStats: Head<Stat>)
    requires stats.Valid() && newStats.Valid() && stats != newStats && Disjoint(newStats.elems, stats.elems)
    modifies stats, (set e | e in stats.elems)`next, (set e | e in stats.elems)`prev, newStats, (set e | e in newStats.elems)`next, (set e | e in newStats.elems)`prev
    ensures stats.Valid() && stats.elems == old(stats.elems) + old(newStats.elems)
    ensures newStats.Valid() && newStats.elems == []
  {
    hide Head.Valid;
    ghost var q, r, i := stats.elems, newStats.elems, 0;
    newStats.FirstIs();
    while newStats.first != null
      invariant stats.Valid() && newStats.Valid() && Disjoint(newStats.elems, stats.elems)
      invariant i <= |r| && stats.elems == q + r[..i] && newStats.elems == r[i..]
      invariant newStats.first == if i < |r| then r[i] else null
      decreases |r| - i
    {
      MoveFirst(stats, newStats);
      newStats.FirstIs();
      i := i + 1;
    }
  }

  /** What getStat does under the write lock: every old node is freed, every new one is moved, in order. */
  method ReplaceStats(stats: Head<Stat>, newStats: Head<Stat>)
    requires stats.Valid() && newStats.Valid() && stats != newStats
    requires Owned(stats.elems) && Owned(newStats.elems) && Disjoint(newStats.elems, stats.elems)
    modifies stats, (set e | e in stats.elems), newStats, (set e | e in newStats.elems)`next, (set e | e in newStats.elems)`prev
    ensures stats.Valid() && stats.elems == old(newStats.elems) && Owned(stats.elems)
    ensures newStats.Valid() && newStats.elems == []
    ensures Freed(old(stats.elems))
  {
    hide Head.Valid;
    RemoveOldStats(stats);
    AddNewStats(stats, newStats);
  }
}
