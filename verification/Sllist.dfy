/**
 The singly linked list with a tail pointer of src/sllist.h and src/sllist-inl.h, on the heap.
 */
module SingleList {
  import opened IntrusiveList

  /** sllist_node; `stamp` is the field of the owner that comparisons read, `tag` what searches compare. */
  class Node {
    var next: Node?
    const stamp: int
    const tag: nat

    constructor (stamp: int, tag: nat)
      ensures this.stamp == stamp && this.tag == tag && next == null
    {
      this.stamp, this.tag, next := stamp, tag, null;
    }
  }

  /** The pointers of the nodes follow the chain and end in null. */
  ghost predicate Linked(chain: seq<Node>)
    requires chain != []
    reads chain
  {
    && chain[|chain| - 1].next == null
    && forall i {:trigger chain[i].next} :: 0 <= i < |chain| - 1 ==> chain[i].next == chain[i + 1]
  }

  /** Put `item` behind the k-th node of the chain. */
  method LinkAfter(prev: Node, item: Node, ghost chain: seq<Node>, ghost k: nat)
    requires NoDup(chain) && k < |chain| && Linked(chain) && item !in chain && prev == chain[k]
    modifies item`next, prev`next
    ensures NoDup(InsertAt(chain, k + 1, item)) && Linked(InsertAt(chain, k + 1, item))
    ensures item.next == null <==> k + 1 == |chain|
  {
    item.next := prev.next;
    prev.next := item;
  }

  /** Take the node behind the k-th one out of the chain. */
  method UnlinkAfter(prev: Node, next: Node?, ghost chain: seq<Node>, ghost k: nat)
    requires NoDup(chain) && k + 1 < |chain| && Linked(chain) && prev == chain[k] && next == chain[k + 1].next
    modifies prev`next
    ensures NoDup(RemoveAt(chain, k + 1)) && Linked(RemoveAt(chain, k + 1))
    ensures prev.next == next && (next == null <==> k + 2 == |chain|)
  {
    prev.next := next;
  }

  /** The nodes whose tag is not dropped, in order. */
  function Kept(s: seq<Node>, drop: nat -> bool): (r: seq<Node>)
    ensures |r| <= |s|
  {
    if s == [] then []
    else
      var n := |s| - 1;
      Kept(s[..n], drop) + if drop(s[n].tag) then [] else [s[n]]
  }

  lemma {:induction false} KeptMembers(s: seq<Node>, drop: nat -> bool)
    requires NoDup(s)
    ensures NoDup(Kept(s, drop))
    ensures forall x :: x in Kept(s, drop) <==> x in s && !drop(x.tag)
  {
    if s != [] {
      var n := |s| - 1;
      KeptMembers(s[..n], drop);
      assert s == s[..n] + [s[n]];
    }
  }

  lemma InsertBehindHead(head: Node, items: seq<Node>, k: nat, item: Node)
    requires k <= |items|
    ensures [head] + InsertAt(items, k, item) == InsertAt([head] + items, k + 1, item)
  {
  }

  lemma RemoveBehindHead(head: Node, items: seq<Node>, k: nat)
    requires k < |items|
    ensures [head] + RemoveAt(items, k) == RemoveAt([head] + items, k + 1)
  {
  }

  /** A walk that has seen i elements and kept k of them has `rest` to show for it. */
  ghost predicate Walked(all: seq<Node>, i: nat, k: nat, rest: seq<Node>, drop: nat -> bool) {
    i <= |all| && k == |Kept(all[..i], drop)| && rest == Kept(all[..i], drop) + all[i..]
  }

  lemma WalkStarts(all: seq<Node>, drop: nat -> bool)
    ensures Walked(all, 0, 0, all, drop)
  {
  }

  lemma WalkStep(all: seq<Node>, i: nat, k: nat, rest: seq<Node>, drop: nat -> bool)
    requires Walked(all, i, k, rest, drop) && k < |rest|
    ensures i < |all|
    ensures if drop(rest[k].tag) then Walked(all, i + 1, k, RemoveAt(rest, k), drop)
            else Walked(all, i + 1, k + 1, rest, drop)
  {
    assert all[..i + 1][..i] == all[..i];
  }

  lemma WalkEnds(all: seq<Node>, i: nat, k: nat, rest: seq<Node>, drop: nat -> bool)
    requires Walked(all, i, k, rest, drop) && k >= |rest|
    ensures rest == Kept(all, drop)
  {
    assert all[..i] == all;
  }

  /** sllist_root: the node before the first one, and the last one. */
  class Sllist {
    const firstPrev: Node
    var last: Node?
    ghost var items: seq<Node>
    ghost var nodes: set<Node>

    ghost function Chain(): seq<Node>
      reads this
    {
      [firstPrev] + items
    }

    ghost predicate Valid()
      reads this, nodes
    {
      && NoDup(Chain()) && firstPrev in nodes
      && (forall n :: n in nodes ==> n == firstPrev || n in items) && (forall n :: n in items ==> n in nodes)
      && Linked(Chain())
      && last == if items == [] then null else items[|items| - 1]
    }

    constructor ()
      ensures Valid() && items == [] && fresh(nodes)
    {
      var n := new Node(0, 0);
      firstPrev, last, items, nodes := n, null, [], {n};
    }

    lemma Members()
      requires Valid()
      ensures NoDup(items) && firstPrev !in items && forall n :: n in nodes <==> n == firstPrev || n in items
    {
      var chain := Chain();
      assert forall i :: 0 <= i < |items| ==> items[i] == chain[i + 1] && chain[0] != chain[i + 1];
    }

    /** The successor of the k-th node of the chain. */
    lemma NextOf(k: nat)
      requires Valid() && k <= |items|
      ensures Chain()[k].next == if k < |items| then items[k] else null
    {
      var chain := Chain();
      assert chain[k].next == chain[k].next;
      assert k < |items| ==> chain[k + 1] == items[k];
    }

    /** sllist_append */
    method Append(item: Node)
      requires Valid() && item !in nodes
      modifies this, nodes`next, item
      ensures Valid() && items == old(items) + [item] && nodes == old(nodes) + {item}
    {
      Members();
      NextOf(|items|);
      if last == null {
        firstPrev.next, last := item, item;
        item.next := null;
      } else {
        last.next := item;
        last := item;
      }
      item.next := null;
      items := items + [item];
      nodes := nodes + {item};
      assert Chain() == old(Chain()) + [item];
    }

    /**
     sllist_prepend.  On an empty list it does not clear the new node's own pointer, so the
     list is well formed afterwards exactly when the list was not empty or that pointer was null.
     */
    method Prepend(item: Node)
      requires Valid() && item !in nodes
      modifies this, nodes`next, item
      ensures items == [item] + old(items) && nodes == old(nodes) + {item}
      ensures Valid() <==> old(items) != [] || old(item.next) == null
    {
      Members();
      NextOf(0);
      if last == null {
        firstPrev.next, last := item, item;
      } else {
        item.next := firstPrev.next;
        firstPrev.next := item;
      }
      items := [item] + items;
      nodes := nodes + {item};
      ghost var chain, was := Chain(), old(Chain());
      assert chain[0] == was[0] && chain[1] == item && forall i :: 2 <= i < |chain| ==> chain[i] == was[i - 1];
      assert |items| == 1 ==> chain[1].next == old(item.next);
    }

    /** sllist_insert: link `item` after the k-th node of the chain. */
    method Insert(prev: Node, item: Node, ghost k: nat)
      requires Valid() && item !in nodes && k <= |items| && prev == Chain()[k]
      modifies this, nodes`next, item
      ensures Valid() && items == InsertAt(old(items), k, item) && nodes == old(nodes) + {item}
    {
      hide NoDup, Linked, InsertAt;
      Members();
      InsertAtMembers(items, k, item);
      ghost var chain := Chain();
      LinkAfter(prev, item, chain, k);
      if item.next == null {
        last := item;
      }
      items := InsertAt(items, k, item);
      nodes := nodes + {item};
      InsertBehindHead(chain[0], old(items), k, item);
    }

    /** sllist_remove_head */
    method RemoveHead()
      requires Valid()
      modifies this, nodes`next
      ensures Valid() && items == if old(items) == [] then [] else old(items)[1..]
      ensures old(items) != [] ==> old(items)[0].next == old(items[0].next)
    {
      Members();
      NextOf(0);
      if firstPrev.next == null {
        return;
      }
      NextOf(1);
      firstPrev.next := firstPrev.next.next;
      if firstPrev.next == null {
        last := null;
      }
      nodes := nodes - {items[0]};
      items := items[1..];
      ghost var chain, was := Chain(), old(Chain());
      assert chain[0] == was[0] && forall i :: 1 <= i < |chain| ==> chain[i] == was[i + 1];
    }

    /** The iterator stands on the k-th item (or past the end), with its predecessor and successor. */
    ghost predicate At(it: Iter, k: nat)
      reads this, it
    {
      && k <= |items| && it.prev == Chain()[k] && !it.removed
      && it.cur == (if k < |items| then items[k] else null)
      && it.next == (if k + 1 < |items| then items[k + 1] else null)
    }

    /** The item the iterator stood on was taken out; the k-th one comes next. */
    ghost predicate Gone(it: Iter, k: nat)
      reads this, it
    {
      && k <= |items| && it.prev == Chain()[k] && it.removed
      && it.next == (if k < |items| then items[k] else null)
    }

    /** slist_iter_init */
    method IterInit() returns (it: Iter)
      requires Valid()
      ensures fresh(it) && At(it, 0)
    {
      NextOf(0);
      it := new Iter(firstPrev);
      it.cur := firstPrev.next;
      if it.cur != null {
        NextOf(1);
        it.next := it.cur.next;
      }
    }

    /** slist_iter_incr */
    method IterIncr(it: Iter, ghost k: nat)
      requires Valid() && ((At(it, k) && k < |items|) || Gone(it, k))
      modifies it
      ensures old(it.removed) ==> At(it, k)
      ensures !old(it.removed) ==> At(it, k + 1)
    {
      NextOf(k);
      if !it.removed {
        it.prev := it.prev.next;
      } else {
        it.removed := false;
      }
      it.cur := it.next;
      if it.cur != null {
        ghost var j := if old(it.removed) then k else k + 1;
        NextOf(j + 1);
        assert Chain()[j + 1] == items[j];
        it.next := it.cur.next;
      } else {
        it.next := null;
      }
    }

    /** sllist_iter_remove */
    method IterRemove(it: Iter, ghost k: nat)
      requires Valid() && At(it, k) && k < |items|
      modifies this, nodes`next, it`removed
      ensures Valid() && items == RemoveAt(old(items), k) && nodes == old(nodes) - {old(items)[k]} && Gone(it, k)
    {
      hide NoDup, Linked, RemoveAt;
      Members();
      RemoveAtMembers(items, k);
      ghost var chain := Chain();
      NextOf(k + 1);
      UnlinkAfter(it.prev, it.next, chain, k);
      if it.prev.next == null && it.prev == firstPrev {
        last := null;
      } else if it.cur == last && it.next == null {
        last := it.prev;
      }
      it.removed := true;
      nodes := nodes - {items[k]};
      items := RemoveAt(items, k);
      RemoveBehindHead(chain[0], old(items), k);
    }

    lemma Stands(it: Iter, k: nat)
      requires At(it, k)
      ensures k <= |items| && !it.removed && it.cur == (if k < |items| then items[k] else null)
    {
    }

    lemma IsGone(it: Iter, k: nat)
      requires Gone(it, k)
      ensures it.removed
    {
    }

    /** One round of the walk: the item is taken out if it is picked, and the iterator goes on. */
    method Visit(it: Iter, ghost k: nat, drop: nat -> bool) returns (ghost next: nat)
      requires Valid() && At(it, k) && k < |items|
      modifies this, nodes`next, it
      ensures Valid() && nodes <= old(nodes) && At(it, next)
      ensures if drop(old(items)[k].tag) then next == k && items == RemoveAt(old(items), k)
              else next == k + 1 && items == old(items)
    {
      hide Valid, RemoveAt, At, Gone;
      Stands(it, k);
      next := k;
      if drop(it.cur.tag) {
        IterRemove(it, k);
        IsGone(it, k);
      } else {
        next := k + 1;
      }
      IterIncr(it, k);
    }

    /** The loop of src/retryq.cc and src/mc/mcreq.c that walks a list and takes out the elements it picks. */
    method RemoveMatching(drop: nat -> bool)
      requires Valid()
      modifies this, nodes`next
      ensures Valid() && nodes <= old(nodes) && items == Kept(old(items), drop)
    {
      hide Valid, Walked, Kept, RemoveAt, At, Gone;
      var it := IterInit();
      ghost var i: nat, k: nat := 0, 0;
      Stands(it, k);
      WalkStarts(items, drop);
      while it.cur != null
        invariant Valid() && nodes <= old(nodes) && At(it, k) && fresh(it) && Walked(old(items), i, k, items, drop)
        invariant it.cur == (if k < |items| then items[k] else null)
        decreases |old(items)| - i
      {
        WalkStep(old(items), i, k, items, drop);
        k := Visit(it, k, drop);
        Stands(it, k);
        i := i + 1;
      }
      WalkEnds(old(items), i, k, items, drop);
    }

    /** sllist_contains */
    method Contains(item: Node) returns (found: bool)
      requires Valid()
      ensures found <==> item in items
    {
      Members();
      NextOf(0);
      var ll := firstPrev.next;
      ghost var k := 0;
      while ll != null
        invariant k <= |items| && ll == (if k < |items| then items[k] else null) && item !in items[..k]
        decreases |items| - k
      {
        if item == ll {
          return true;
        }
        assert Chain()[k + 1] == items[k];
        NextOf(k + 1);
        ll := ll.next;
        k := k + 1;
      }
      found := false;
    }

    /** sllist_get_size */
    method GetSize() returns (n: nat)
      requires Valid()
      ensures n == |items|
    {
      NextOf(0);
      var ll := firstPrev.next;
      n := 0;
      while ll != null
        invariant n <= |items| && ll == (if n < |items| then items[n] else null)
        decreases |items| - n
      {
        assert Chain()[n + 1] == items[n];
        NextOf(n + 1);
        ll := ll.next;
        n := n + 1;
      }
    }

    /** sllist_remove, which demands that the item is in the list. */
    method Remove(item: Node) returns (ghost k: nat)
      requires Valid() && item in items
      modifies this, nodes`next
      ensures k < |old(items)| && old(items)[k] == item
      ensures Valid() && items == RemoveAt(old(items), k) && nodes == old(nodes) - {item}
    {
      hide Valid, RemoveAt;
      var it := IterInit();
      k := 0;
      while it.cur != null
        invariant Valid() && items == old(items) && nodes == old(nodes) && At(it, k) && fresh(it) && item !in items[..k]
        decreases |items| - k
      {
        if it.cur == item {
          IterRemove(it, k);
          return;
        }
        IterIncr(it, k);
        k := k + 1;
      }
      assert false;
    }

    /** sllist_insert_sorted: in front of the first item that is not smaller. */
    method InsertSorted(item: Node) returns (ghost k: nat)
      requires Valid() && item !in nodes
      modifies this, nodes`next, item
      ensures k <= |old(items)| && Valid() && items == InsertAt(old(items), k, item) && nodes == old(nodes) + {item}
      ensures forall i :: 0 <= i < k ==> old(items)[i].stamp < item.stamp
      ensures k < |old(items)| ==> item.stamp <= old(items)[k].stamp
    {
      hide Valid;
      var it := IterInit();
      k := 0;
      while it.cur != null
        invariant Valid() && items == old(items) && nodes == old(nodes) && At(it, k) && fresh(it)
        invariant forall i :: 0 <= i < k ==> items[i].stamp < item.stamp
        decreases |items| - k
      {
        if item.stamp <= it.cur.stamp {
          Insert(it.prev, item, k);
          return;
        }
        IterIncr(it, k);
        k := k + 1;
      }
      Append(item);
    }

    /** mcreq_reenqueue_packet on the request list: append, remove, and insert in order of start time. */
    method Reenqueue(item: Node) returns (ghost k: nat)
      requires Valid() && item !in nodes
      modifies this, nodes`next, item
      ensures k <= |old(items)| && Valid() && items == InsertAt(old(items), k, item) && nodes == old(nodes) + {item}
      ensures InOrder(old(items)) ==> InOrder(items)
    {
      hide Valid;
      Members();
      Append(item);
      ghost var j := Remove(item);
      RemoveLast(old(items), item, j);
      k := InsertSorted(item);
      InsertKeepsOrder(old(items), k, item);
    }
  }

  ghost predicate InOrder(s: seq<Node>) {
    forall i, j :: 0 <= i < j < |s| ==> s[i].stamp <= s[j].stamp
  }

  lemma InsertKeepsOrder(s: seq<Node>, k: nat, item: Node)
    requires k <= |s| && (forall i :: 0 <= i < k ==> s[i].stamp < item.stamp) && (k < |s| ==> item.stamp <= s[k].stamp)
    ensures InOrder(s) ==> InOrder(InsertAt(s, k, item))
  {
    hide InsertAt;
  }

  lemma RemoveLast(s: seq<Node>, item: Node, j: nat)
    requires j <= |s| && (s + [item])[j] == item && item !in s
    ensures RemoveAt(s + [item], j) == s
  {
    assert forall i :: 0 <= i < |s| ==> (s + [item])[i] == s[i];
  }

  /** sllist_iterator */
  class Iter {
    var cur: Node?
    var prev: Node
    var next: Node?
    var removed: bool

    constructor (prev: Node)
      ensures this.prev == prev && cur == null && next == null && !removed
    {
      this.prev, cur, next, removed := prev, null, null, false;
    }
  }

  /** A node taken from the front of one list still points into it; put in front of an empty list it breaks that one. */
  method StaleNode() returns (list: Sllist, node: Node)
    ensures list.items == [node] && !list.Valid()
  {
    hide Sllist.Valid;
    var first := new Sllist();
    node := new Node(1, 1);
    var other := new Node(2, 2);
    first.Append(node);
    first.Append(other);
    assert node.next == other by { first.Members(); first.NextOf(1); }
    first.RemoveHead();
    list := new Sllist();
    list.Prepend(node);
  }
}
