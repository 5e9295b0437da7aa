/**
 The circular, doubly linked, intrusive list of src/list.c and src/list.h.

 A `Link` is an lcb_list_t embedded in some owner.  The owner is recovered from
 its link (LCB_LIST_ITEM), and `stamp` is the one field of the owner that the
 comparison callback of lcb_list_add_sorted reads.  A `List` is a list head; its
 ghost field `items` is the sequence of linked nodes, and `Valid` ties it to the
 `next` and `prev` pointers.
 */
module IntrusiveList {

  class Link<T> {
    var next: Link?<T>
    var prev: Link?<T>
    var stamp: int
    const owner: T

    constructor (owner: T)
      ensures this.owner == owner && next == null && prev == null
    {
      this.owner := owner;
      next, prev := null, null;
      stamp := 0;
    }
  }

  ghost predicate NoDup<X>(s: seq<X>) {
    forall i, j :: 0 <= i < j < |s| ==> s[i] != s[j]
  }

  /** `s` with `x` placed at index `k`. */
  function InsertAt<X>(s: seq<X>, k: nat, x: X): (r: seq<X>)
    requires k <= |s|
    ensures |r| == |s| + 1 && r[k] == x
    ensures forall i :: 0 <= i < k ==> r[i] == s[i]
    ensures forall i :: k < i < |r| ==> r[i] == s[i - 1]
  {
    s[..k] + [x] + s[k..]
  }

  /** `s` without the element at index `k`. */
  function RemoveAt<X>(s: seq<X>, k: nat): (r: seq<X>)
    requires k < |s|
    ensures |r| == |s| - 1
    ensures forall i :: 0 <= i < k ==> r[i] == s[i]
    ensures forall i :: k <= i < |r| ==> r[i] == s[i + 1]
  {
    s[..k] + s[k + 1..]
  }

  lemma RemoveAtMembers<X>(s: seq<X>, k: nat)
    requires k < |s| && NoDup(s)
    ensures NoDup(RemoveAt(s, k))
    ensures forall y :: y in RemoveAt(s, k) <==> y in s && y != s[k]
  {
    var r := RemoveAt(s, k);
    forall y | y in s && y != s[k] ensures y in r {
      var i :| 0 <= i < |s| && s[i] == y;
      assert r[if i < k then i else i - 1] == y;
    }
  }

  lemma InsertAtMembers<X>(s: seq<X>, k: nat, x: X)
    requires k <= |s| && NoDup(s) && x !in s
    ensures NoDup(InsertAt(s, k, x))
    ensures forall y :: y in InsertAt(s, k, x) <==> y in s || y == x
  {
    var r := InsertAt(s, k, x);
    forall y | y in s ensures y in r {
      var i :| 0 <= i < |s| && s[i] == y;
      assert r[if i < k then i else i + 1] == y;
    }
    assert r[k] == x;
  }

  /** `ring` is one walk around a circular list: it starts and ends at the head and meets every node once. */
  ghost predicate Circular<T>(ring: seq<Link<T>>) {
    |ring| >= 2 && ring[0] == ring[|ring| - 1] && forall i, j :: 0 <= i < j < |ring| - 1 ==> ring[i] != ring[j]
  }

  /** The pointers of the nodes agree with the walk in both directions. */
  ghost predicate Chained<T>(ring: seq<Link<T>>)
    reads ring`next, ring`prev
  {
    && (forall i {:trigger ring[i].next} :: 0 <= i < |ring| - 1 ==> ring[i].next == ring[i + 1])
    && (forall i {:trigger ring[i].prev} :: 0 < i < |ring| ==> ring[i].prev == ring[i - 1])
  }

  /** list_insert: put `item` between the k-th and the next node of the walk. */
  method Splice<T>(before: Link<T>, after: Link<T>, item: Link<T>, ghost ring: seq<Link<T>>, ghost k: nat)
    requires Circular(ring) && Chained(ring) && item !in ring
    requires k < |ring| - 1 && before == ring[k] && after == ring[k + 1]
    modifies item`next, item`prev, before`next, after`prev
    ensures Circular(InsertAt(ring, k + 1, item)) && Chained(InsertAt(ring, k + 1, item))
  {
    item.next := after;
    item.prev := before;
    after.prev := item;
    before.next := item;
  }

  /** list_eject: join the neighbours of the k-th node of the walk. */
  method Eject<T>(before: Link<T>, after: Link<T>, ghost ring: seq<Link<T>>, ghost k: nat)
    requires Circular(ring) && Chained(ring)
    requires 0 < k < |ring| - 1 && before == ring[k - 1] && after == ring[k + 1]
    modifies before`next, after`prev
    ensures Circular(RemoveAt(ring, k)) && Chained(RemoveAt(ring, k))
  {
    after.prev := before;
    before.next := after;
  }

  /** lcb_list_delete: unlink the k-th node of the walk and clear its own pointers. */
  method Unlink<T>(item: Link<T>, ghost ring: seq<Link<T>>, ghost k: nat, ghost before: Link<T>, ghost after: Link<T>)
    requires Circular(ring) && Chained(ring)
    requires 0 < k < |ring| - 1 && before == ring[k - 1] && item == ring[k] && after == ring[k + 1]
    modifies item`next, item`prev, before`next, after`prev
    ensures Circular(RemoveAt(ring, k)) && Chained(RemoveAt(ring, k))
    ensures item.next == null && item.prev == null
  {
    Eject(item.prev, item.next, ring, k);
    assert item !in RemoveAt(ring, k);
    item.next, item.prev := null, null;
  }

  class List<T> {
    const root: Link<T>
    ghost var items: seq<Link<T>>
    ghost var nodes: set<Link<T>>

    /** The nodes met when walking once around from the head back to the head. */
    ghost function Ring(): (r: seq<Link<T>>)
      reads this
    {
      [root] + items + [root]
    }

    ghost predicate Valid()
      reads this, nodes`next, nodes`prev
    {
      && root in nodes && (forall l :: l in nodes ==> l == root || l in items)
        && (forall l :: l in items ==> l in nodes)
      && Circular(Ring()) && Chained(Ring())
    }

    /** The nodes are in the order of their stamps. */
    ghost predicate Ordered()
      reads this, nodes`stamp
    {
      && (forall i :: 0 <= i < |items| ==> items[i] in nodes)
      && (forall i, j :: 0 <= i < j < |items| ==> items[i].stamp <= items[j].stamp)
    }

    constructor (blank: T)
      ensures Valid() && Ordered() && items == [] && nodes == {root} && fresh(root) && root.owner == blank
    {
      var r := new Link(blank);
      r.next, r.prev := r, r;
      root := r;
      items := [];
      nodes := {r};
    }

    /** LCB_LIST_IS_EMPTY */
    predicate IsEmpty()
      requires Valid()
      reads this, nodes`next, nodes`prev
      ensures IsEmpty() <==> items == []
    {
      assert Ring()[0].next == Ring()[1];
      assert Ring()[|items| + 1].prev == Ring()[|items|];
      root.next == root && root.prev == root
    }

    lemma Distinct()
      requires Valid()
      ensures NoDup(items) && root !in items
      ensures forall l :: l in nodes <==> l == root || l in items
    {
      var ring := Ring();
      assert forall i :: 0 <= i < |items| ==> items[i] == ring[i + 1];
    }

    /** The successor of the k-th node of the ring. */
    lemma NextOf(k: nat)
      requires Valid() && k <= |items|
      ensures Ring()[k].next == Ring()[k + 1]
      ensures k < |items| ==> Ring()[k + 1] == items[k]
      ensures k == |items| ==> Ring()[k + 1] == root
      ensures k == 0 ==> Ring()[k] == root
      ensures k > 0 ==> Ring()[k] == items[k - 1]
      ensures Ring()[k + 1].prev == Ring()[k]
    {
      var ring := Ring();
      assert ring[k].next == ring[k + 1];
      assert ring[k + 1].prev == ring[k + 1 - 1];
    }

    /** The node the k-th step of a walk over the list meets: an item, or the head behind the last one. */
    ghost function NodeAt(k: nat): Link<T>
      reads this
    {
      if k < |items| then items[k] else root
    }

    /** Where a walk that follows the next pointers goes from the head and from an item. */
    lemma Walk(k: nat)
      requires Valid()
      ensures root.next == NodeAt(0)
      ensures k < |items| ==> items[k].next == NodeAt(k + 1)
    {
      NextOf(0);
      if k < |items| {
        NextOf(k + 1);
      }
    }

    /** Link `item` in front of the k-th item. */
    method Insert(before: Link<T>, after: Link<T>, item: Link<T>, ghost k: nat)
      requires Valid() && item !in nodes
      requires k <= |items| && before == Ring()[k] && after == Ring()[k + 1]
      modifies this, item`next, item`prev, nodes`next, nodes`prev
      ensures Valid() && items == InsertAt(old(items), k, item)
      ensures nodes == old(nodes) + {item}
    {
      Distinct();
      InsertAtMembers(items, k, item);
      ghost var ring := Ring();
      Splice(before, after, item, ring, k);
      items := InsertAt(items, k, item);
      nodes := nodes + {item};
      assert Ring() == InsertAt(ring, k + 1, item);
    }

    /** lcb_list_prepend */
    method Prepend(item: Link<T>)
      requires Valid() && item !in nodes
      modifies this, item`next, item`prev, nodes`next, nodes`prev
      ensures Valid() && items == [item] + old(items) && nodes == old(nodes) + {item}
    {
      NextOf(0);
      Insert(root, root.next, item, 0);
    }

    /** lcb_list_append */
    method Append(item: Link<T>)
      requires Valid() && item !in nodes
      modifies this, item`next, item`prev, nodes`next, nodes`prev
      ensures Valid() && items == old(items) + [item] && nodes == old(nodes) + {item}
    {
      NextOf(|items|);
      Insert(root.prev, root, item, |items|);
    }

    /** Unlink the k-th item. */
    method DeleteAt(item: Link<T>, ghost k: nat)
      requires Valid() && k < |items| && items[k] == item
      modifies this, nodes`next, nodes`prev
      ensures Valid() && items == RemoveAt(old(items), k)
      ensures nodes == old(nodes) - {item}
      ensures item.next == null && item.prev == null
    {
      Distinct();
      RemoveAtMembers(items, k);
      ghost var ring := Ring();
      Unlink(item, ring, k + 1, ring[k], ring[k + 2]);
      items := RemoveAt(items, k);
      nodes := nodes - {item};
      assert Ring() == RemoveAt(ring, k + 1);
    }

    /** lcb_list_delete on a list that holds `item`. */
    method Delete(item: Link<T>) returns (ghost k: nat)
      requires Valid() && item in items
      modifies this, nodes`next, nodes`prev
      ensures k < |old(items)| && old(items)[k] == item
      ensures Valid() && items == RemoveAt(old(items), k)
      ensures nodes == old(nodes) - {item}
      ensures old(Ordered()) ==> Ordered()
      ensures item.next == null && item.prev == null
    {
      hide Valid;
      k :| 0 <= k < |items| && items[k] == item;
      DeleteAt(item, k);
    }

    /** lcb_list_shift */
    method Shift() returns (item: Link?<T>)
      requires Valid()
      modifies this, nodes`next, nodes`prev
      ensures Valid()
      ensures old(items) == [] ==> item == null && items == []
      ensures old(items) != [] ==> item == old(items)[0] && items == old(items)[1..]
    {
      if IsEmpty() {
        return null;
      }
      NextOf(0);
      item := root.next;
      ghost var k := Delete(item);
    }

    /** lcb_list_pop */
    method Pop() returns (item: Link?<T>)
      requires Valid()
      modifies this, nodes`next, nodes`prev
      ensures Valid()
      ensures old(items) == [] ==> item == null && items == []
      ensures old(items) != [] ==> item == old(items)[|old(items)| - 1] && items == old(items)[..|old(items)| - 1]
    {
      if IsEmpty() {
        return null;
      }
      NextOf(|items|);
      item := root.prev;
      ghost var k := Delete(item);
    }

    /** lcb_list_contains; the head counts as contained. */
    method Contains(item: Link<T>) returns (found: bool)
      requires Valid()
      ensures found <==> item == root || item in items
    {
      var p := root.next;
      ghost var k := 0;
      NextOf(0);
      while p != root && p != item
        invariant k <= |items| && p == Ring()[k + 1] && p != null
        invariant item !in items[..k]
        decreases |items| - k
      {
        NextOf(k);
        NextOf(k + 1);
        p := p.next;
        k := k + 1;
      }
      NextOf(k);
      assert p == root ==> k == |items|;
      found := p == item;
    }

    /** The search loop of lcb_list_add_sorted: the first node with a strictly larger stamp, or the head. */
    method FirstLarger(stamp: int) returns (p: Link<T>, ghost k: nat)
      requires Valid()
      ensures k <= |items| && p == Ring()[k + 1] && p.prev == Ring()[k]
      ensures forall i :: 0 <= i < k ==> items[i].stamp <= stamp
      ensures k < |items| ==> stamp < items[k].stamp
    {
      k := 0;
      NextOf(0);
      p := root.next;
      while p != root
        invariant k <= |items| && p == Ring()[k + 1] && p.prev == Ring()[k]
        invariant forall i :: 0 <= i < k ==> items[i].stamp <= stamp
        decreases |items| - k
      {
        NextOf(k);
        if stamp < p.stamp {
          return;
        }
        NextOf(k + 1);
        p := p.next;
        k := k + 1;
      }
      NextOf(k);
    }

    /**
     lcb_list_add_sorted with a comparison of stamps: the item goes in front of the
     first node whose stamp is strictly larger, that is, after all equal ones.
     */
    method AddSorted(item: Link<T>) returns (ghost k: nat)
      requires Valid() && item !in nodes
      modifies this, item`next, item`prev, nodes`next, nodes`prev
      ensures k <= |old(items)| && Valid() && items == InsertAt(old(items), k, item)
      ensures nodes == old(nodes) + {item}
      ensures forall i :: 0 <= i < k ==> old(items)[i].stamp <= item.stamp
      ensures k < |old(items)| ==> item.stamp < old(items)[k].stamp
      ensures old(Ordered()) ==> Ordered()
    {
      hide Valid, InsertAt;
      if IsEmpty() {
        k := 0;
        NextOf(0);
        Insert(root.prev, root, item, 0);
      } else {
        var p;
        p, k := FirstLarger(item.stamp);
        Insert(p.prev, p, item, k);
      }
      if old(Ordered()) {
        InsertOrdered(old(items), k, item, old(nodes));
      }
    }

    /** Inserting at such a place keeps the order. */
    lemma InsertOrdered(s: seq<Link<T>>, k: nat, item: Link<T>, of: set<Link<T>>)
      requires k <= |s| && items == InsertAt(s, k, item) && nodes == of + {item}
      requires forall i :: 0 <= i < |s| ==> s[i] in of
      requires forall i, j :: 0 <= i < j < |s| ==> s[i].stamp <= s[j].stamp
      requires (forall i :: 0 <= i < k ==> s[i].stamp <= item.stamp) && (k < |s| ==> item.stamp < s[k].stamp)
      ensures Ordered()
    {
      hide InsertAt;
    }
  }

  /** lcb_clist_t: the same list with a count of its nodes. */
  class CountedList<T> {
    const list: List<T>
    var size: int

    ghost predicate Valid()
      reads this, list, list.nodes
    {
      list.Valid() && size == |list.items|
    }

    constructor (blank: T)
      ensures Valid() && list.items == []
    {
      list := new List(blank);
      size := 0;
    }

    method Append(item: Link<T>)
      requires Valid() && item !in list.nodes
      modifies this, list, list.nodes, item
      ensures Valid() && list.items == old(list.items) + [item]
    {
      list.Append(item);
      size := size + 1;
    }

    method Prepend(item: Link<T>)
      requires Valid() && item !in list.nodes
      modifies this, list, list.nodes, item
      ensures Valid() && list.items == [item] + old(list.items)
    {
      list.Prepend(item);
      size := size + 1;
    }

    method Delete(item: Link<T>) returns (ghost k: nat)
      requires Valid() && item in list.items
      modifies this, list, list.nodes
      ensures k < |old(list.items)| && old(list.items)[k] == item
      ensures Valid() && list.items == RemoveAt(old(list.items), k)
    {
      k := list.Delete(item);
      size := size - 1;
    }

    method Pop() returns (item: Link?<T>)
      requires Valid()
      modifies this, list, list.nodes
      ensures Valid()
      ensures old(list.items) == [] ==> item == null && list.items == []
      ensures old(list.items) != [] ==>
                item == old(list.items)[|old(list.items)| - 1] && list.items == old(list.items)[..|old(list.items)| - 1]
    {
      item := list.Pop();
      if item != null {
        size := size - 1;
      }
    }

    method Shift() returns (item: Link?<T>)
      requires Valid()
      modifies this, list, list.nodes
      ensures Valid()
      ensures old(list.items) == [] ==> item == null && list.items == []
      ensures old(list.items) != [] ==> item == old(list.items)[0] && list.items == old(list.items)[1..]
    {
      item := list.Shift();
      if item != null {
        size := size - 1;
      }
    }
  }
}
