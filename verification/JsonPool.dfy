/**
 The item pool of contrib/cJSON/cJSON.c and the deletion of item trees. Items are numbered;
 `nodes` holds the contents of every item in the blocks of the pool.
 */
module JsonPool {
  import opened IntrusiveList
  import opened Common
  import opened Json

  type Id = nat

  datatype Kind = FalseItem | TrueItem | NullItem | NumberItem | StringItem | ArrayItem | ObjectItem

  datatype Node = Node(kind: Kind, valueint: int, valuedouble: real, valuestring: Option<string>, name: Option<string>,
                       child: Option<Id>, next: Option<Id>, prev: Option<Id>)

  /** An item with all bytes zero. */
  const BLANK := Node(FalseItem, 0, 0.0, None, None, None, None, None)

  const POOL_ALLOC_SIZE := 1024

  // ---------------------------------------------------------------- linked items

  /** The shape of linked items: an item, the list below it and the list behind it. */
  datatype Forest = Nil | More(id: Id, kids: Forest, rest: Forest)

  /** The first item points back to `p`. */
  predicate PointsBack(nodes: map<Id, Node>, f: Forest, p: Option<Id>) {
    f.More? ==> f.id in nodes && nodes[f.id].prev == p
  }

  /** From `c` the child and next links spell out `f` and end at `end`, and prev undoes next. */
  predicate Chain(nodes: map<Id, Node>, c: Option<Id>, f: Forest, end: Option<Id>)
    decreases f
  {
    match f
    case Nil => c == end
    case More(id, kids, rest) =>
      && c == Some(id) && id in nodes
      && Chain(nodes, nodes[id].child, kids, None) && Chain(nodes, nodes[id].next, rest, end)
      && PointsBack(nodes, kids, None) && PointsBack(nodes, rest, Some(id))
  }

  /** The items of a forest in the order in which cJSON_Delete frees them: children before their parent. */
  function Order(f: Forest): (r: seq<Id>)
    ensures f.More? ==> |r| > 0 && f.id in r
  {
    match f
    case Nil => []
    case More(id, kids, rest) => Order(kids) + [id] + Order(rest)
  }

  ghost predicate Apart(a: seq<Id>, b: seq<Id>) {
    forall x :: x in a ==> x !in b
  }

  lemma Parts(f: Forest)
    requires f.More? && NoDup(Order(f))
    ensures NoDup(Order(f.kids)) && NoDup(Order(f.rest)) && f.id !in Order(f.kids) && f.id !in Order(f.rest)
    ensures Apart(Order(f.kids), Order(f.rest))
    ensures forall x :: x in Order(f) <==> x in Order(f.kids) || x == f.id || x in Order(f.rest)
  {
    SplitNoDup(Order(f.kids) + [f.id], Order(f.rest));
    SplitNoDup(Order(f.kids), [f.id]);
  }

  lemma SplitNoDup(a: seq<Id>, b: seq<Id>)
    requires NoDup(a + b)
    ensures NoDup(a) && NoDup(b) && Apart(a, b)
  {
    var s := a + b;
    assert forall i :: 0 <= i < |a| ==> s[i] == a[i];
    assert forall i :: 0 <= i < |b| ==> s[|a| + i] == b[i];
  }

  lemma JoinNoDup(a: seq<Id>, b: seq<Id>)
    requires NoDup(a) && NoDup(b) && Apart(a, b)
    ensures NoDup(a + b)
  {
    var s := a + b;
    forall i, j | 0 <= i < j < |s| ensures s[i] != s[j] {
      assert i < |a| <= j ==> a[i] in a && b[j - |a|] in b;
    }
  }

  lemma PushNoDup(x: Id, s: seq<Id>)
    requires NoDup(s) && x !in s
    ensures NoDup([x] + s)
  {
  }

  ghost function IdSet(s: seq<Id>): (r: set<Id>)
    ensures forall x :: x in r <==> x in s
  {
    set x | x in s
  }

  /** Links outside a forest do not matter to it. */
  lemma {:induction false} ChainFrame(nodes: map<Id, Node>, nodes': map<Id, Node>, c: Option<Id>, f: Forest,
      end: Option<Id>)
    requires Chain(nodes, c, f, end) && forall x :: x in Order(f) && x in nodes ==> x in nodes' && nodes'[x] == nodes[x]
    ensures Chain(nodes', c, f, end)
    decreases f
  {
    match f {
      case Nil =>
      case More(id, kids, rest) =>
        assert id in Order(f);
        ChainFrame(nodes, nodes', nodes[id].child, kids, None);
        ChainFrame(nodes, nodes', nodes[id].next, rest, end);
    }
  }

  /** The items of a set have the same contents in both. */
  ghost predicate Same(nodes: map<Id, Node>, nodes': map<Id, Node>, ids: set<Id>) {
    forall x :: x in ids ==> x in nodes && x in nodes' && nodes'[x] == nodes[x]
  }

  // ---------------------------------------------------------------- the pool

  class Pool {
    var nodes: map<Id, Node>
    var free: seq<Id>          // the free list, its head first
    var blocks: nat
    var refcount: nat
    var destroyed: bool
    ghost var live: set<Id>    // items handed out
    ghost var freed: seq<Id>   // items given back, in order

    /** Free items and the reference count add up to the size of the blocks; every item is free or handed out. */
    ghost predicate Valid()
      reads this
    {
      if destroyed then live == {}
      else
        && refcount == |live| && |free| + refcount == POOL_ALLOC_SIZE * blocks
        && NoDup(free) && (forall x :: x in free ==> x !in live)
        && (forall x :: x in nodes <==> x in free || x in live)
        && (forall x :: x in nodes ==> x < POOL_ALLOC_SIZE * blocks)
        && (forall x :: x in free ==> nodes[x] == BLANK)
    }

    /** cJSON_New_Pool */
    constructor ()
      ensures Valid() && !destroyed && live == {} && freed == []
    {
      nodes, free, blocks, refcount, destroyed := map[], [], 0, 0, false;
      live, freed := {}, [];
    }

    /** cJSON_New_PoolBlock */
    method NewBlock()
      requires Valid() && !destroyed && free == []
      modifies this`nodes, this`free, this`blocks
      ensures Valid() && free != [] && Same(old(nodes), nodes, live)
    {
      var first := POOL_ALLOC_SIZE * blocks;
      blocks := blocks + 1;
      var i := 0;
      while i < POOL_ALLOC_SIZE
        invariant 0 <= i <= POOL_ALLOC_SIZE && |free| == i && blocks == old(blocks) + 1
        invariant NoDup(free) && forall x :: x in free <==> first <= x < first + i
        invariant forall x :: x in nodes <==> x in live || x in free
        invariant forall x :: x in nodes ==> nodes[x] == if x in live then old(nodes)[x] else BLANK
      {
        var item := first + i;
        nodes := nodes[item := BLANK];
        PushNoDup(item, free);
        free := [item] + free;
        i := i + 1;
      }
    }

    /** cJSON_Pool_New_Item */
    method NewItem() returns (item: Id)
      requires Valid() && !destroyed
      modifies this
      ensures Valid() && !destroyed && item !in old(live) && live == old(live) + {item} && freed == old(freed)
      ensures item in nodes && nodes[item] == BLANK && Same(old(nodes), nodes, old(live))
    {
      if free == [] {
        NewBlock();
      }
      item := free[0];
      free := free[1..];
      refcount := refcount + 1;
      live := live + {item};
    }

    /** cJSON_Pool_Free_Item and, for the last item, cJSON_Destroy_Pool */
    method FreeItem(item: Id)
      requires Valid() && !destroyed && item in live
      modifies this
      ensures Valid() && live == old(live) - {item} && freed == old(freed) + [item]
      ensures destroyed <==> old(live) == {item}
      ensures !destroyed ==> Same(old(nodes), nodes, live)
    {
      live := live - {item};
      freed := freed + [item];
      refcount := refcount - 1;
      assert refcount == |live|;
      if refcount == 0 {
        nodes, free, blocks, destroyed := map[], [], 0, true;
      } else {
        nodes := nodes[item := BLANK];
        PushNoDup(item, free);
        free := [item] + free;
      }
    }

    lemma LiveKnown()
      requires Valid() && !destroyed
      ensures Same(nodes, nodes, live)
    {
    }

    /**
     cJSON_Delete: every item is freed once, children before their parent and siblings in order; the pool
     goes with the last live item and not before.
     */
    method Delete(first: Option<Id>, ghost f: Forest)
      requires Valid() && !destroyed && f.More? && Chain(nodes, first, f, None) && NoDup(Order(f))
      requires forall x :: x in Order(f) ==> x in live
      modifies this
      ensures Valid() && freed == old(freed) + Order(f)
      ensures live == old(live) - IdSet(Order(f))
      ensures destroyed <==> live == {}
      ensures !destroyed ==> Same(old(nodes), nodes, live)
      decreases f
    {
      hide Order, IdSet, Chain, Valid, NoDup, Freed;
      LiveKnown();
      ChainFirst(nodes, first, f);
      NothingFreed(f, live);
      var c := first;
      ghost var left, done: seq<Id> := f, [];
      while c.Some?
        invariant Valid() && (left.More? ==> !destroyed && Chain(nodes, c, left, None)) && (left.More? <==> c.Some?)
        invariant Freed(f, old(live), left, done, live) && freed == old(freed) + done
        invariant destroyed <==> live == {}
        invariant !destroyed ==> Same(old(nodes), nodes, live)
        decreases left
      {
        ghost var step := Order(left.kids) + [left.id];
        FreedStep(f, old(live), left, done, live);
        c := DeleteOne(c.value, left);
        assert freed == old(freed) + (done + step);
        left, done := left.rest, done + step;
      }
      AllFreed(f, old(live), left, done, live);
    }

    /** One round of the loop of cJSON_Delete. */
    method DeleteOne(item: Id, ghost f: Forest) returns (next: Option<Id>)
      requires Valid() && !destroyed && f.More? && Chain(nodes, Some(item), f, None) && NoDup(Order(f))
      requires forall x :: x in Order(f) ==> x in live
      modifies this
      ensures Valid() && f.id == item && freed == old(freed) + (Order(f.kids) + [item])
      ensures live == old(live) - IdSet(Order(f.kids) + [item])
      ensures destroyed <==> live == {}
      ensures f.rest.More? ==> !destroyed && Chain(nodes, next, f.rest, None)
      ensures f.rest.More? <==> next.Some?
      ensures !destroyed ==> Same(old(nodes), nodes, live)
      decreases f, 0
    {
      hide Order, Valid, NoDup;
      Parts(f);
      next := nodes[item].next;
      if nodes[item].child.Some? {
        Delete(nodes[item].child, f.kids);
      } else {
        NoKids(f.kids);
      }
      assert item in live;
      assert IdSet(Order(f.kids) + [item]) == IdSet(Order(f.kids)) + {item};
      FreeItem(item);
      if f.rest.More? {
        FirstIn(f.rest);
        ChainFrame(old(nodes), nodes, next, f.rest, None);
      }
    }
  }

  /** Of the items of `f`, those in `done` are freed and those of `left` still to be freed. */
  ghost predicate Freed(f: Forest, was: set<Id>, left: Forest, done: seq<Id>, live: set<Id>) {
    && NoDup(Order(left)) && Order(f) == done + Order(left)
    && live == was - IdSet(done) && forall x :: x in Order(left) ==> x in live
  }

  lemma NothingFreed(f: Forest, live: set<Id>)
    requires NoDup(Order(f)) && forall x :: x in Order(f) ==> x in live
    ensures Freed(f, live, f, [], live)
  {
    hide Order, NoDup;
    assert live == live - IdSet([]) && [] + Order(f) == Order(f);
  }

  lemma FreedStep(f: Forest, was: set<Id>, left: Forest, done: seq<Id>, live: set<Id>)
    requires Freed(f, was, left, done, live) && left.More?
    ensures var step := Order(left.kids) + [left.id];
            Freed(f, was, left.rest, done + step, live - IdSet(step))
    ensures NoDup(Order(left)) && forall x :: x in Order(left) ==> x in live
  {
    hide Order, IdSet;
    var step := Order(left.kids) + [left.id];
    OrderIs(left);
    Regrouped(done, Order(left.kids), left.id, Order(left.rest));
    Parts(left);
    StepApart(left);
  }

  lemma StepApart(f: Forest)
    requires f.More? && NoDup(Order(f))
    ensures forall x :: x in Order(f.rest) ==> x in Order(f) && x !in IdSet(Order(f.kids) + [f.id])
  {
    hide Order, NoDup;
    Parts(f);
  }

  lemma AllFreed(f: Forest, was: set<Id>, left: Forest, done: seq<Id>, live: set<Id>)
    requires Freed(f, was, left, done, live) && left.Nil?
    ensures Order(f) == done && live == was - IdSet(Order(f))
  {
    hide Order, IdSet;
    NoKids(left);
  }

  lemma OrderIs(f: Forest)
    requires f.More?
    ensures Order(f) == Order(f.kids) + [f.id] + Order(f.rest)
  {
  }

  lemma Regrouped(done: seq<Id>, a: seq<Id>, x: Id, c: seq<Id>)
    ensures done + (a + [x] + c) == done + a + [x] + c && done + a + [x] == done + (a + [x])
    ensures IdSet(done + a + [x]) == IdSet(done) + IdSet(a + [x])
  {
    assert done + a + [x] == done + (a + [x]);
    assert forall y :: y in done + (a + [x]) <==> y in done || y in a + [x];
  }

  lemma ChainFirst(nodes: map<Id, Node>, c: Option<Id>, f: Forest)
    requires f.More? && Chain(nodes, c, f, None)
    ensures c == Some(f.id)
  {
  }

  lemma FirstIn(f: Forest)
    requires f.More?
    ensures f.id in Order(f)
  {
  }

  lemma NoKids(f: Forest)
    requires f.Nil?
    ensures Order(f) == []
  {
  }
}
