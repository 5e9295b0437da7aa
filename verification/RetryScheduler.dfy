/**
 The class of src/retryq.cc on the heap. Every operation has two nodes, one for each of two
 circular lists; the methods relink them in place, and the loops follow the next pointers.
 Each is proved to compute the function of module RetryQueues that specifies it.
 */
module RetryScheduler {
  import opened Common
  import opened IntrusiveList
  import opened RetryErrors
  import opened RetryFlush
  import opened RetryQueues
  import opened RetryRuns
  import opened Statuses

  /** What a node is embedded in: the scheduling or the timeout part of an operation, or a list head. */
  datatype Node = SchedNode(op: OpId) | TmoNode(op: OpId) | ListHead

  /** from_schednode, from_tmonode */
  function OpOf(n: Node): OpId {
    if n.ListHead? then 0 else n.op
  }

  /** The operations of some nodes, in order. */
  ghost function Ops(items: seq<Link<Node>>): (r: seq<OpId>)
    ensures |r| == |items| && forall i :: 0 <= i < |items| ==> r[i] == OpOf(items[i].owner)
  {
    seq(|items|, i requires 0 <= i < |items| => OpOf(items[i].owner))
  }

  /** The nodes are the ones their operations have. */
  ghost predicate Fitted(items: seq<Link<Node>>, node: map<OpId, Link<Node>>) {
    forall i :: 0 <= i < |items| ==> OpOf(items[i].owner) in node && items[i] == node[OpOf(items[i].owner)]
  }

  /** Every node knows its operation and is one of the given ones. */
  ghost predicate Named(schedNode: map<OpId, Link<Node>>, tmoNode: map<OpId, Link<Node>>, links: set<Link<Node>>) {
    && (forall x :: x in schedNode ==> schedNode[x].owner == SchedNode(x) && schedNode[x] in links)
    && (forall x :: x in tmoNode ==> tmoNode[x].owner == TmoNode(x) && tmoNode[x] in links)
  }

  lemma NamedGrows(
    schedNode: map<OpId, Link<Node>>, tmoNode: map<OpId, Link<Node>>, links: set<Link<Node>>, x: OpId, a: Link<Node>,
      b: Link<Node>)
    requires Named(schedNode, tmoNode, links) && a.owner == SchedNode(x) && b.owner == TmoNode(x)
    ensures Named(schedNode[x := a], tmoNode[x := b], links + {a, b})
  {
  }

  /** The comparison callback sees the field of the operation that the list is sorted by. */
  ghost predicate Stamped(o: Order, items: seq<Link<Node>>, t: map<OpId, Op>)
    reads items`stamp
  {
    forall i :: 0 <= i < |items| ==> OpOf(items[i].owner) in t && items[i].stamp == Key(o, t[OpOf(items[i].owner)])
  }

  lemma NodeIn(items: seq<Link<Node>>, node: map<OpId, Link<Node>>, x: OpId)
    requires Fitted(items, node) && x in Ops(items)
    ensures x in node && node[x] in items
  {
    var i :| 0 <= i < |items| && Ops(items)[i] == x;
    assert items[i] == node[x];
  }

  lemma NodeNotIn(items: seq<Link<Node>>, link: Link<Node>)
    requires OpOf(link.owner) !in Ops(items)
    ensures link !in items
  {
    forall i | 0 <= i < |items| ensures items[i] != link {
      assert Ops(items)[i] in Ops(items);
    }
  }

  /** Taking a node out of a list takes its operation out of the sequence. */
  lemma OpsWithout(items: seq<Link<Node>>, k: nat)
    requires k < |items| && NoDup(Ops(items))
    ensures Ops(items)[k] in Ops(items) && Ops(RemoveAt(items, k)) == Without(Ops(items), Ops(items)[k])
  {
    assert Ops(items)[k] in Ops(items);
    assert IndexOf(Ops(items), Ops(items)[k]) == k;
    assert Ops(RemoveAt(items, k)) == RemoveAt(Ops(items), k);
  }

  lemma OpsInsert(items: seq<Link<Node>>, k: nat, item: Link<Node>)
    requires k <= |items|
    ensures Ops(InsertAt(items, k, item)) == InsertAt(Ops(items), k, OpOf(item.owner))
  {
  }

  lemma FittedKeeps(items: seq<Link<Node>>, node: map<OpId, Link<Node>>, k: nat, item: Link<Node>)
    requires Fitted(items, node)
    ensures k < |items| ==> Fitted(RemoveAt(items, k), node)
    ensures k <= |items| && OpOf(item.owner) in node && node[OpOf(item.owner)] == item
      ==> Fitted(InsertAt(items, k, item), node)
  {
    hide RemoveAt, InsertAt;
  }

  lemma StampedKeeps(o: Order, items: seq<Link<Node>>, t: map<OpId, Op>, k: nat, item: Link<Node>)
    requires Stamped(o, items, t)
    ensures k < |items| ==> Stamped(o, RemoveAt(items, k), t)
    ensures k <= |items| && OpOf(item.owner) in t && item.stamp == Key(o, t[OpOf(item.owner)])
      ==> Stamped(o, InsertAt(items, k, item), t)
  {
    hide RemoveAt, InsertAt;
  }

  /** The contract of List.AddSorted puts the operation where the specification says. */
  lemma SortedPlace(o: Order, items: seq<Link<Node>>, t: map<OpId, Op>, k: nat, key: int)
    requires Stamped(o, items, t) && k <= |items| && Known(t, Ops(items))
    requires (forall i :: 0 <= i < k ==> items[i].stamp <= key) && (k < |items| ==> key < items[k].stamp)
    ensures k == Slot(o, t, Ops(items), key)
  {
    SlotIsUnique(o, t, Ops(items), key, k);
  }

  /** One well-formed list with the nodes of operations. */
  ghost predicate Side(o: Order, l: List<Node>, node: map<OpId, Link<Node>>, t: map<OpId, Op>)
    reads l, l.nodes
  {
    l.Valid() && l.root.owner == ListHead && Fitted(l.items, node) && Stamped(o, l.items, t)
  }

  /** lcb_list_delete of an operation's node. */
  method TakeOut(ghost o: Order, l: List<Node>, node: map<OpId, Link<Node>>, ghost t: map<OpId, Op>, x: OpId)
    requires Side(o, l, node, t) && NoDup(Ops(l.items)) && x in Ops(l.items) && x in node
    modifies l, l.nodes`next, l.nodes`prev
    ensures Side(o, l, node, t) && Ops(l.items) == Without(old(Ops(l.items)), x) && l.nodes == old(l.nodes) - {node[x]}
  {
    hide List.Valid, Ops, Without, RemoveAt;
    NodeIn(l.items, node, x);
    ghost var k := l.Delete(node[x]);
    OpsWithout(old(l.items), k);
    FittedKeeps(old(l.items), node, k, node[x]);
    StampedKeeps(o, old(l.items), t, k, node[x]);
  }

  /** lcb_list_add_sorted of an operation's node. */
  method PutIn(ghost o: Order, l: List<Node>, node: map<OpId, Link<Node>>, ghost t: map<OpId, Op>, x: OpId)
    requires Side(o, l, node, t) && x in node && x in t && node[x] !in l.nodes && Known(t, Ops(l.items))
    requires OpOf(node[x].owner) == x && node[x].stamp == Key(o, t[x])
    modifies l, {node[x]}`next, {node[x]}`prev, l.nodes`next, l.nodes`prev
    ensures Side(o, l, node, t) && l.nodes == old(l.nodes) + {node[x]}
    ensures Ops(l.items) == InsertAt(old(Ops(l.items)), Slot(o, t, old(Ops(l.items)), Key(o, t[x])), x)
  {
    hide List.Valid, Ops, InsertAt, Slot;
    ghost var k := l.AddSorted(node[x]);
    OpsInsert(old(l.items), k, node[x]);
    FittedKeeps(old(l.items), node, k, node[x]);
    StampedKeeps(o, old(l.items), t, k, node[x]);
    SortedPlace(o, old(l.items), t, k, node[x].stamp);
  }

  /** A new deadline, as the comparison callback will see it. */
  method Restamp(l: List<Node>, node: map<OpId, Link<Node>>, ghost t: map<OpId, Op>, x: OpId, op: Op)
    requires Side(ByDeadline, l, node, t) && x in node && x in t && OpOf(node[x].owner) == x
    modifies {node[x]}`stamp
    ensures Side(ByDeadline, l, node, t[x := op])
  {
    hide List.Valid;
    node[x].stamp := op.deadline;
  }

  /** Records may change as long as the field the list is sorted by does not. */
  lemma SideSame(o: Order, l: List<Node>, node: map<OpId, Link<Node>>, t: map<OpId, Op>, t': map<OpId, Op>)
    requires Side(o, l, node, t) && t.Keys == t'.Keys
    requires forall x :: x in Ops(l.items) && x in t ==> Key(o, t'[x]) == Key(o, t[x])
    ensures Side(o, l, node, t')
  {
    hide List.Valid;
    forall i | 0 <= i < |l.items| ensures OpOf(l.items[i].owner) in Ops(l.items) {
      assert Ops(l.items)[i] in Ops(l.items);
    }
  }

  /** The k-th node a walk over a list meets: the node of an operation, or the head behind the last one. */
  ghost function Met(root: Link<Node>, node: map<OpId, Link<Node>>, ops: seq<OpId>, k: nat): Link<Node> {
    if k < |ops| && ops[k] in node then node[ops[k]] else root
  }

  /** Where the next pointers lead. */
  lemma SideWalk(l: List<Node>, node: map<OpId, Link<Node>>, k: nat)
    requires l.Valid() && l.root.owner == ListHead && Fitted(l.items, node) && k <= |l.items|
    ensures l.root.next == Met(l.root, node, Ops(l.items), 0)
    ensures k < |l.items| ==> Ops(l.items)[k] in node && OpOf(node[Ops(l.items)[k]].owner) == Ops(l.items)[k]
    ensures k < |l.items| ==> node[Ops(l.items)[k]].next == Met(l.root, node, Ops(l.items), k + 1)
    ensures k < |l.items| <==> Met(l.root, node, Ops(l.items), k) != l.root
  {
    l.Walk(k);
    l.Distinct();
  }

  class RetryQueue {
    const schedops: List<Node>
    const tmoops: List<Node>
    var table: map<OpId, Op>
    var schedNode: map<OpId, Link<Node>>
    var tmoNode: map<OpId, Link<Node>>
    var pipelines: seq<seq<OpId>>
    var answers: seq<Answer>
    var timer: Option<nat>
    ghost var links: set<Link<Node>>    // all nodes

    /** What the lists and fields stand for. */
    ghost function State(): Queue
      reads this`table, this`pipelines, this`answers, schedops, tmoops
    {
      Queue(table, Ops(schedops.items), Ops(tmoops.items), pipelines, answers)
    }

    /** Two well-formed lists that share no node, holding the nodes of the operations. */
    ghost predicate Wired()
      reads this`table, this`schedNode, this`tmoNode, this`links, schedops, tmoops, schedops.nodes, tmoops.nodes
    {
      && schedops != tmoops && schedops.nodes !! tmoops.nodes && schedops.nodes <= links && tmoops.nodes <= links
      && schedNode.Keys == tmoNode.Keys == table.Keys && Named(schedNode, tmoNode, links)
      && Side(ByTrytime, schedops, schedNode, table) && Side(ByDeadline, tmoops, tmoNode, table)
    }

    constructor (npipelines: nat)
      ensures Wired() && State() == Queue(map[], [], [], seq(npipelines, _ => []), []) && Valid(State())
        && timer == None
      ensures fresh(schedops) && fresh(tmoops) && fresh(links)
    {
      var sched := new List(ListHead);
      var tmo := new List(ListHead);
      schedops, tmoops := sched, tmo;
      links := sched.nodes + tmo.nodes;
      table, schedNode, tmoNode, answers, timer := map[], map[], map[], [], None;
      pipelines := seq(npipelines, _ => []);
    }

    /** erase */
    method EraseOp(x: OpId)
      requires Wired() && Twin(State()) && x in State().sched
      modifies schedops, tmoops, schedops.nodes`next, schedops.nodes`prev, tmoops.nodes`next, tmoops.nodes`prev
      ensures Wired() && State() == Erase(old(State()), x)
      ensures schedops.nodes == old(schedops.nodes) - {schedNode[x]} && tmoops.nodes == old(tmoops.nodes) - {tmoNode[x]}
    {
      hide Side, Ops, Without;
      TakeOut(ByTrytime, schedops, schedNode, table, x);
      TakeOut(ByDeadline, tmoops, tmoNode, table, x);
    }

    /** lcb_list_add_sorted on both lists */
    method AddSorted(x: OpId)
      requires Wired() && Twin(State()) && x in table && x !in State().sched
      modifies schedops, tmoops, schedNode[x], tmoNode[x]
      modifies schedops.nodes`next, schedops.nodes`prev, tmoops.nodes`next, tmoops.nodes`prev
      ensures Wired() && State() == Enlist(old(State()), x)
      ensures schedops.nodes == old(schedops.nodes) + {schedNode[x]} && tmoops.nodes == old(tmoops.nodes) + {tmoNode[x]}
    {
      hide Ops, InsertAt, Slot, Side;
      Outside(x);
      schedNode[x].stamp := table[x].trytime;
      tmoNode[x].stamp := table[x].deadline;
      PutIn(ByTrytime, schedops, schedNode, table, x);
      PutIn(ByDeadline, tmoops, tmoNode, table, x);
    }

    /** The nodes of an operation that is not queued are in neither list. */
    lemma Outside(x: OpId)
      requires Wired() && Twin(State()) && x in table && x !in State().sched
      ensures schedNode[x] !in schedops.nodes && schedNode[x] !in tmoops.nodes
      ensures tmoNode[x] !in schedops.nodes && tmoNode[x] !in tmoops.nodes && schedNode[x] != tmoNode[x]
    {
      hide Twin, Ops;
      schedops.Distinct();
      tmoops.Distinct();
      assert x !in State().tmo by { NotQueued(State(), x); }
      NodeNotIn(schedops.items, schedNode[x]);
      NodeNotIn(schedops.items, tmoNode[x]);
      NodeNotIn(tmoops.items, schedNode[x]);
      NodeNotIn(tmoops.items, tmoNode[x]);
    }

    /** fail */
    method FailOp(x: OpId, err: Status)
      requires Wired() && Twin(State()) && x in State().sched
      modifies this`table, this`answers
      modifies schedops, tmoops, schedops.nodes`next, schedops.nodes`prev, tmoops.nodes`next, tmoops.nodes`prev
      ensures Wired() && State() == Fail(old(State()), x, err)
      ensures schedops.nodes <= old(schedops.nodes) && tmoops.nodes <= old(tmoops.nodes)
    {
      hide Side, Ops, Without;
      var op := table[x];
      answers := answers + [Answer(x, FailStatus(op.origerr, op.origstatus, err))];
      Rewrite(x, op.(origerr := AssignError(op.origerr, err)));
      EraseOp(x);
    }

    /** Change a record without touching its times. */
    method Rewrite(x: OpId, op: Op)
      requires Wired() && Twin(State()) && x in table && op.trytime == table[x].trytime
        && op.deadline == table[x].deadline
      modifies this`table
      ensures Wired() && table == old(table)[x := op] && Twin(State())
    {
      hide Side, Ops;
      ghost var t := table[x := op];
      SideSame(ByTrytime, schedops, schedNode, table, t);
      SideSame(ByDeadline, tmoops, tmoNode, table, t);
      table := table[x := op];
    }

    /** Change the record of an operation that is in neither list. */
    method RewriteOutside(x: OpId, op: Op)
      requires Wired() && Twin(State()) && x in table && x !in State().sched
      modifies this`table
      ensures Wired() && table == old(table)[x := op] && Twin(State())
    {
      hide Side, Ops;
      ghost var t := table[x := op];
      NotQueued(State(), x);
      SideSame(ByTrytime, schedops, schedNode, table, t);
      SideSame(ByDeadline, tmoops, tmoNode, table, t);
      table := table[x := op];
    }

    /** schedule */
    method Schedule(now: int)
      requires Wired() && Valid(State())
      modifies this`timer
      ensures timer == TimerAt(State(), now) && Armed(State(), timer, now)
    {
      hide InOrder, Ops, List.Valid;
      TimerIsEarliest(State(), now);
      EmptyTogether(State());
      if schedops.IsEmpty() {
        timer := None;
        return;
      }
      SideWalk(schedops, schedNode, 0);
      SideWalk(tmoops, tmoNode, 0);
      var firstTmo, firstSched := OpOf(tmoops.root.next.owner), OpOf(schedops.root.next.owner);
      var schednext, tmonext := table[firstSched].trytime, table[firstTmo].deadline;
      var selected := if schednext > tmonext then tmonext else schednext;
      timer := Some(Delay(selected, now));
    }

    /** The front of the timeout list, as the next pointers show it. */
    lemma TmoFront()
      requires Wired()
      ensures schedops.nodes <= links && tmoops.nodes <= links
      ensures var q := State();
              && tmoops.root.next == Met(tmoops.root, tmoNode, q.tmo, 0)
              && (q.tmo == [] <==> Met(tmoops.root, tmoNode, q.tmo, 0) == tmoops.root)
              && (q.tmo != [] ==>
                    var n := Met(tmoops.root, tmoNode, q.tmo, 0);
                    OpOf(n.owner) == q.tmo[0] && n.next == Met(tmoops.root, tmoNode, q.tmo, 1))
    {
      hide List.Valid, Ops;
      SideWalk(tmoops, tmoNode, 0);
    }

    /** The front of the scheduling list. */
    lemma SchedFront()
      requires Wired()
      ensures schedops.nodes <= links && tmoops.nodes <= links
      ensures var q := State();
              && schedops.root.next == Met(schedops.root, schedNode, q.sched, 0)
              && (q.sched == [] <==> Met(schedops.root, schedNode, q.sched, 0) == schedops.root)
              && (q.sched != [] ==>
                    var n := Met(schedops.root, schedNode, q.sched, 0);
                    OpOf(n.owner) == q.sched[0] && n.next == Met(schedops.root, schedNode, q.sched, 1))
    {
      hide List.Valid, Ops;
      SideWalk(schedops, schedNode, 0);
    }

    /** The first loop of flush. */
    method ExpireLoop(now: int)
      requires Wired() && Valid(State())
      modifies this`table, this`answers, schedops, tmoops, links`next, links`prev
      ensures Wired() && State() == Expire(old(State()), now)
    {
      hide Fail, InOrder, Ops, Wired, Without;
      TmoFront();
      var ll: Link<Node>, next := tmoops.root.next, tmoops.root.next.next;
      while ll != tmoops.root
        invariant Wired() && Twin(State()) && Expire(State(), now) == Expire(old(State()), now)
        invariant ll == Met(tmoops.root, tmoNode, State().tmo, 0)
        invariant ll != tmoops.root ==> next == Met(tmoops.root, tmoNode, State().tmo, 1)
        decreases |State().tmo|
      {
        TmoFront();
        var x := OpOf(ll.owner);
        assert x in State().tmo;
        if table[x].deadline <= now {
          ghost var q := State();
          FailOp(x, ERR_TIMEOUT);
          FailHead(q, x, ERR_TIMEOUT);
        } else {
          break;
        }
        ll := next;
        TmoFront();
        next := ll.next;
      }
      TmoFront();
    }

    /** The list `resched_next` of scheduling nodes. */
    ghost predicate Lined(resched: List<Node>)
      reads this`schedNode, this`links, resched, resched.nodes
    {
      && resched.Valid() && resched.root.owner == ListHead && Fitted(resched.items, schedNode)
      && resched.nodes <= links + {resched.root}
    }

    /** It shares no node with the two lists. */
    ghost predicate Aside(resched: List<Node>)
      reads this`schedNode, this`links, schedops, tmoops, resched, resched.nodes
    {
      && resched != schedops && resched != tmoops && resched.nodes !! schedops.nodes && resched.nodes !! tmoops.nodes
      && Lined(resched)
    }

    /** The branch of the second loop of flush that keeps an operation without a server. */
    method KeepOp(x: OpId, now: int, c: Cluster, resched: List<Node>)
      requires Wired() && Twin(State()) && x in State().sched && Aside(resched)
      modifies this`table, schedops, tmoops, resched
      modifies schedops.nodes`next, schedops.nodes`prev, tmoops.nodes`next, tmoops.nodes`prev
      modifies resched.nodes`next, resched.nodes`prev
      ensures Wired() && Aside(resched) && State() == Postpone(old(State()), x, now, c)
      ensures Ops(resched.items) == old(Ops(resched.items)) + [x]
      ensures schedops.nodes <= old(schedops.nodes) && tmoops.nodes <= old(tmoops.nodes)
      ensures resched.nodes <= old(resched.nodes) + old(schedops.nodes)
    {
      hide Wired, Lined, Ops, Without, Aside;
      Rewrite(x, table[x].(origerr := AssignError(table[x].origerr, ERR_NO_MATCHING_SERVER)));
      MoveAside(x, resched);
      CountRetry(x, now, c);
    }

    /** The scheduling node leaves its list for `resched_next`, and the other node leaves its own. */
    method MoveAside(x: OpId, resched: List<Node>)
      requires Wired() && Twin(State()) && x in State().sched && Aside(resched)
      modifies schedops, tmoops, resched
      modifies schedops.nodes`next, schedops.nodes`prev, tmoops.nodes`next, tmoops.nodes`prev
      modifies resched.nodes`next, resched.nodes`prev
      ensures Wired() && Aside(resched) && State() == Erase(old(State()), x) && Twin(State()) && x !in State().sched
      ensures Ops(resched.items) == old(Ops(resched.items)) + [x]
      ensures schedops.nodes <= old(schedops.nodes) && tmoops.nodes <= old(tmoops.nodes)
      ensures resched.nodes <= old(resched.nodes) + old(schedops.nodes)
    {
      hide Wired, Lined, Ops, Without;
      Queued(x);
      EraseOp(x);
      WithoutMembers(old(State()).sched, x);
      SetAside(x, resched);
    }

    /** retries++ and update_trytime on an operation that is in neither list. */
    method CountRetry(x: OpId, now: int, c: Cluster)
      requires Wired() && Twin(State()) && x in table && x !in State().sched
      modifies this`table
      ensures Wired() && Twin(State())
      ensures var op := old(table)[x]; var n := OneMore(op.retries);
              table == old(table)[x := op.(retries := n, trytime := now + c.backoff(op.spec, n))]
    {
      hide Wired, Ops, Twin;
      RewriteOutside(x, table[x].(retries := OneMore(table[x].retries)));
      RewriteOutside(x, table[x].(trytime := now + c.backoff(table[x].spec, table[x].retries)));
    }

    /** The branch that answers it. */
    method DropOp(x: OpId)
      requires Wired() && Twin(State()) && x in State().sched
      modifies this`table, this`answers, schedops, tmoops
      modifies schedops.nodes`next, schedops.nodes`prev, tmoops.nodes`next, tmoops.nodes`prev
      ensures Wired() && State() == Drop(old(State()), x)
      ensures schedops.nodes <= old(schedops.nodes) && tmoops.nodes <= old(tmoops.nodes)
    {
      hide Wired, Ops, Fail;
      Rewrite(x, table[x].(origerr := AssignError(table[x].origerr, ERR_NO_MATCHING_SERVER)));
      FailOp(x, ERR_NO_MATCHING_SERVER);
    }

    lemma Queued(x: OpId)
      requires Wired() && x in State().sched
      ensures x in schedNode && schedNode[x] in schedops.nodes && schedNode[x] !in tmoops.nodes && schedNode[x] in links
      ensures OpOf(schedNode[x].owner) == x && schedops != tmoops
    {
      hide Ops;
      NodeIn(schedops.items, schedNode, x);
      schedops.Distinct();
    }

    /** lcb_list_append of a scheduling node to `resched_next` */
    method SetAside(x: OpId, resched: List<Node>)
      requires Lined(resched) && x in schedNode && schedNode[x] !in resched.nodes && schedNode[x] in links
      requires OpOf(schedNode[x].owner) == x
      modifies resched, {schedNode[x]}`next, {schedNode[x]}`prev, resched.nodes`next, resched.nodes`prev
      ensures Lined(resched) && Ops(resched.items) == old(Ops(resched.items)) + [x]
      ensures resched.nodes == old(resched.nodes) + {schedNode[x]}
    {
      resched.Append(schedNode[x]);
    }

    /** The body of the second loop of flush, for the operation at the head. */
    method RetryOne(x: OpId, now: int, c: Cluster, resched: List<Node>, miss: nat) returns (miss': nat)
      requires Wired() && Aside(resched) && Apart(Pass(State(), Ops(resched.items), miss))
      requires State().sched != [] && State().sched[0] == x
      modifies this`table, this`answers, this`pipelines, schedops, tmoops, resched
      modifies schedops.nodes`next, schedops.nodes`prev, tmoops.nodes`next, tmoops.nodes`prev
      modifies resched.nodes`next, resched.nodes`prev
      ensures Wired() && Aside(resched)
      ensures Pass(State(), Ops(resched.items), miss')
        == RetryHead(old(Pass(State(), Ops(resched.items), miss)), now, c)
      ensures schedops.nodes <= old(schedops.nodes) && tmoops.nodes <= old(tmoops.nodes)
      ensures resched.nodes <= old(resched.nodes) + old(schedops.nodes)
    {
      hide Wired, Lined, Ops, Twin, Postpone, Drop;
      HeadQueued(State());
      miss' := miss;
      var srv := c.master(table[x].vbucket);
      if srv < 0 || srv >= |pipelines| {
        if c.refreshing(miss) || c.retryMissing {
          KeepOp(x, now, c, resched);
        } else {
          DropOp(x);
        }
        miss' := miss + 1;
      } else {
        Enqueue(x, srv);
        EraseOp(x);
      }
    }

    /** mcreq_enqueue_packet, as far as the queue is concerned */
    method Enqueue(x: OpId, srv: nat)
      requires Wired() && Twin(State()) && srv < |pipelines|
      modifies this`pipelines
      ensures Wired() && Twin(State()) && pipelines == old(pipelines)[srv := old(pipelines)[srv] + [x]]
    {
      pipelines := pipelines[srv := pipelines[srv] + [x]];
    }

    /** The second loop of flush; the operations set aside are on the list `resched`. */
    method RetryLoop(now: int, throttle: bool, c: Cluster, resched: List<Node>)
      requires Wired() && Twin(State()) && Aside(resched) && resched.items == [] && resched.root !in links
      modifies this`table, this`answers, this`pipelines, schedops, tmoops, resched, resched.root, links`next, links`prev
      ensures Wired() && Aside(resched)
      ensures var r := Retry(Pass(old(State()), [], 0), now, throttle, c);
        State() == r.q && Ops(resched.items) == r.moved
    {
      hide RetryHead, Wired, Lined, Ops, Twin;
      var miss := 0;
      NoOps(resched.items);
      SchedFront();
      assert resched.nodes <= links + {resched.root} by { AsideLinks(resched); }
      var ll: Link<Node>, next := schedops.root.next, schedops.root.next.next;
      while ll != schedops.root
        invariant Wired() && Aside(resched) && Apart(Pass(State(), Ops(resched.items), miss))
        invariant Retry(Pass(State(), Ops(resched.items), miss), now, throttle, c)
          == Retry(Pass(old(State()), [], 0), now, throttle, c)
        invariant ll == Met(schedops.root, schedNode, State().sched, 0)
        invariant ll != schedops.root ==> next == Met(schedops.root, schedNode, State().sched, 1)
        decreases |State().sched|
      {
        SchedFront();
        AsideLinks(resched);
        HeadQueued(State());
        var x := OpOf(ll.owner);
        var curnext := table[x].trytime - TIMEFUZZ_NS;
        if curnext > now && throttle {
          break;
        }
        RetryHeadTail(Pass(State(), Ops(resched.items), miss), now, c);
        miss := RetryOne(x, now, c, resched, miss);
        ll := next;
        SchedFront();
        next := ll.next;
      }
      SchedFront();
    }

    lemma AsideLinks(resched: List<Node>)
      requires Aside(resched)
      ensures resched.nodes <= links + {resched.root}
    {
    }

    /** The next pointers along `resched_next` from its k-th node on. */
    ghost predicate Trail(root: Link<Node>, ops: seq<OpId>, k: nat)
      reads this`schedNode, set x | x in schedNode :: schedNode[x]
    {
      forall j :: k <= j < |ops| ==> ops[j] in schedNode && schedNode[ops[j]].next == Met(root, schedNode, ops, j + 1)
    }

    lemma TrailStarts(resched: List<Node>)
      requires Lined(resched)
      ensures Trail(resched.root, Ops(resched.items), 0)
      ensures resched.root.next == Met(resched.root, schedNode, Ops(resched.items), 0)
    {
      hide List.Valid, Ops;
      SideWalk(resched, schedNode, 0);
      forall k | 0 <= k < |Ops(resched.items)|
        ensures var ops := Ops(resched.items);
                ops[k] in schedNode && schedNode[ops[k]].next == Met(resched.root, schedNode, ops, k + 1)
      {
        SideWalk(resched, schedNode, k);
      }
    }

    lemma NodesOf(x: OpId)
      requires Wired() && x in table
      ensures x in schedNode && OpOf(schedNode[x].owner) == x && schedNode[x] in links
      ensures x in tmoNode && OpOf(tmoNode[x].owner) == x && tmoNode[x] in links && tmoNode[x] != schedNode[x]
      ensures schedops.nodes <= links && tmoops.nodes <= links
    {
    }

    /** Re-add one operation; the rest of the trail is not touched. */
    method ReaddOne(x: OpId, ghost root: Link<Node>, ghost ops: seq<OpId>, ghost k: nat)
      requires Wired() && k < |ops| && ops[k] == x && Apart(Pass(State(), ops[k..], 0)) && Trail(root, ops, k)
      requires x in table && x !in State().sched && Twin(State())
      modifies schedops, tmoops, links
      ensures Wired() && State() == Enlist(old(State()), x) && Trail(root, ops, k + 1)
    {
      hide Wired, Ops, Enlist, Twin;
      NodesOf(x);
      forall j | k < j < |ops|
        ensures ops[j] in table && schedNode[ops[j]] !in schedops.nodes && schedNode[ops[j]] !in tmoops.nodes
        ensures schedNode[ops[j]] != schedNode[x] && schedNode[ops[j]] != tmoNode[x]
      {
        assert ops[k..][j - k] == ops[j] && ops[k..][0] == x && ops[k..][j - k] in ops[k..];
        NodesOf(ops[j]);
        Outside(ops[j]);
      }
      AddSorted(x);
    }

    /** The third loop of flush. Re-adding a node overwrites its pointers, so the loop saves the next one first. */
    method ReaddLoop(resched: List<Node>)
      requires Wired() && Lined(resched) && Apart(Pass(State(), Ops(resched.items), 0)) && resched.root !in links
      modifies schedops, tmoops, links
      ensures Wired() && State() == Readd(old(State()), old(Ops(resched.items)))
    {
      hide Enlist, Readd, Wired, Lined, Ops, Twin;
      ghost var ops, root := Ops(resched.items), resched.root;
      ghost var k := 0;
      TrailStarts(resched);
      assert ops[0..] == ops;
      var ll: Link<Node> := resched.root.next;
      var next := ll.next;
      while ll != resched.root
        invariant Wired() && k <= |ops| && Apart(Pass(State(), ops[k..], 0))
          && Readd(State(), ops[k..]) == Readd(old(State()), ops)
        invariant Trail(root, ops, k) && ll == Met(root, schedNode, ops, k)
          && (k < |ops| ==> next == Met(root, schedNode, ops, k + 1))
        decreases |ops| - k
      {
        ReaddStep(State(), ops, k);
        NodesOf(ops[k]);
        var x := OpOf(ll.owner);
        ReaddOne(x, root, ops, k);
        ll := next;
        next := ll.next;
        k := k + 1;
      }
      if k < |ops| {
        ReaddStep(State(), ops, k);
        NodesOf(ops[k]);
      }
      assert ops[k..] == [];
      ReaddNone(State());
    }

    /** The three loops of flush. */
    method FlushLists(now: int, throttle: bool, c: Cluster)
      requires Wired() && Valid(State())
      modifies this`table, this`answers, this`pipelines, schedops, tmoops, links
      ensures Wired() && State() == Flush(old(State()), now, throttle, c)
    {
      hide Expire, Retry, Readd, InOrder, Wired, Lined, Ops;
      ExpireLoop(now);
      var resched := new List(ListHead);
      NewAside(resched);
      RetryLoop(now, throttle, c, resched);
      ReaddLoop(resched);
    }

    /** flush: every operation is settled, and the timer set for what is left. */
    method FlushOps(now: int, throttle: bool, c: Cluster)
      requires Wired() && Valid(State())
      modifies this`table, this`answers, this`pipelines, this`timer, schedops, tmoops, links
      ensures Wired() && State() == Flush(old(State()), now, throttle, c) && Valid(State())
      ensures forall x :: x in old(State()).sched ==> Settled(old(State()), State(), now, throttle, c, x)
      ensures forall x :: x in State().sched ==> x in table && table[x].trytime >= now && table[x].deadline > now
      ensures |pipelines| == |old(pipelines)|
      ensures forall i :: 0 <= i < |pipelines| ==>
        pipelines[i] == old(pipelines)[i] + Routed(old(table), old(State()).sched, i, now, throttle, c)
      ensures Armed(State(), timer, now)
    {
      hide Flush, InOrder, Wired, Ops, Settled, Routed, Armed;
      ghost var q := State();
      FlushConserves(q, now, throttle, c);
      FlushLeavesFuture(q, now, throttle, c);
      FlushSettles(q, now, throttle, c);
      FlushLists(now, throttle, c);
      Schedule(now);
    }

    /** A new list is apart from all nodes. */
    lemma NewAside(resched: List<Node>)
      requires Wired() && resched.Valid() && resched.items == [] && resched.nodes == {resched.root}
      requires resched.root.owner == ListHead && resched.root !in links && resched != schedops && resched != tmoops
      ensures Aside(resched)
    {
    }

    /** A new RetryOp with its two nodes. */
    method NewOp(x: OpId, op: Op)
      requires Wired() && Twin(State()) && x !in table
      modifies this`table, this`schedNode, this`tmoNode, this`links
      ensures Wired() && Twin(State()) && table == old(table)[x := op] && x in schedNode && x in tmoNode
      ensures old(links) <= links && fresh(links - old(links))
    {
      hide Side, Ops, Named;
      var a := new Link(SchedNode(x));
      var b := new Link(TmoNode(x));
      SideGrows(ByTrytime, schedops, schedNode, table, x, a, op);
      SideGrows(ByDeadline, tmoops, tmoNode, table, x, b, op);
      NamedGrows(schedNode, tmoNode, links, x, a, b);
      schedNode, tmoNode, table := schedNode[x := a], tmoNode[x := b], table[x := op];
      links := links + {a, b};
    }

    /** Write the record of an operation that is about to be queued, with new nodes if it has none. */
    method Enter(x: OpId, op: Op)
      requires Wired() && Twin(State()) && x !in State().sched
      modifies this`table, this`schedNode, this`tmoNode, this`links
      ensures Wired() && Twin(State()) && table == old(table)[x := op] && x in table && x in schedNode && x in tmoNode
      ensures old(links) <= links && fresh(links - old(links))
      ensures schedNode[x] in links && tmoNode[x] in links && schedops.nodes <= links && tmoops.nodes <= links
    {
      hide Wired, Ops, Twin;
      if x in table {
        RewriteOutside(x, op);
      } else {
        NewOp(x, op);
      }
      NodesOf(x);
    }

    /** The record add() writes. */
    method NextTry(x: OpId, pkt: Packet, err: Status, status: int, spec: Spec, imm: bool, env: AddEnv) returns (op: Op)
      ensures op == AddedOp(State(), x, pkt, err, status, spec, imm, env)
    {
      op := if x in table then table[x] else FreshOp(pkt, spec);
      op := op.(origstatus := status, vbucket := pkt.vbucket, retries := OneMore(pkt.retries));
      op := op.(origerr := AssignError(op.origerr, err));
      if imm {
        op := op.(trytime := env.now);
      } else if err == ERR_NOT_MY_VBUCKET {
        op := op.(trytime := env.now + env.nmvInterval * 1000);
      } else {
        op := op.(trytime := env.later + env.backoff(op.spec, op.retries));
      }
    }

    /** add: queue the operation of a packet, reusing the RetryOp the packet carries, and set the timer. */
    method AddPacket(x: OpId, pkt: Packet, err: Status, status: int, spec: Spec, imm: bool, env: AddEnv, now: int)
      requires Wired() && Valid(State()) && x !in State().sched
      modifies this, schedops, tmoops, links
      ensures Wired() && State() == Add(old(State()), x, pkt, err, status, spec, imm, env) && Valid(State())
      ensures x in table && Admitted(old(State()), x, pkt, err, status, spec, imm, env, table[x])
      ensures x in State().sched && Armed(State(), timer, now)
      ensures fresh(links - old(links))
    {
      hide Enlist, InOrder, Wired, Ops, Twin, AddedOp, Admitted, Armed;
      ghost var q := State();
      AddKeeps(q, x, pkt, err, status, spec, imm, env);
      AddedIsAdmitted(q, x, pkt, err, status, spec, imm, env);
      var op := NextTry(x, pkt, err, status, spec, imm, env);
      Enter(x, op);
      AddSorted(x);
      Schedule(now);
    }

    /** One round of reset_timeouts. */
    method Rewind(x: OpId, now: int)
      requires Wired() && x in table
      modifies this`table, {tmoNode[x]}`stamp
      ensures Wired() && table == old(table)[x := Rewound(old(table)[x], now)]
    {
      hide Side, Ops;
      var op := table[x];
      op := op.(deadline := now + (op.deadline - op.start));
      op := op.(start := now);
      NotShared(x);
      SideSame(ByTrytime, schedops, schedNode, table, table[x := op]);
      Restamp(tmoops, tmoNode, table, x, op);
      table := table[x := op];
    }

    lemma NotShared(x: OpId)
      requires Wired() && x in table
      ensures tmoNode[x] !in schedops.nodes && tmoNode[x].owner == TmoNode(x)
    {
      schedops.Distinct();
    }

    /** reset_timeouts: a walk over the scheduling list; the timeout list is not sorted again. */
    method ResetTimeouts(now: int)
      requires Wired() && Twin(State())
      modifies this`table, links`stamp
      ensures Wired() && State() == Reset(old(State()), now)
      ensures forall x :: x in State().sched ==>
        table[x].start == now && table[x].deadline - now == old(table[x].deadline) - old(table[x].start)
    {
      hide Wired, Ops;
      ghost var ops, k := State().sched, 0;
      SchedFront();
      var ll: Link<Node> := schedops.root.next;
      while ll != schedops.root
        invariant Wired() && k <= |ops| && State().sched == ops && ll == Met(schedops.root, schedNode, ops, k)
        invariant table == map x | x in old(table) :: if x in ops[..k] then Rewound(old(table)[x], now)
          else old(table)[x]
        decreases |ops| - k
      {
        SchedAt(k);
        var x := OpOf(ll.owner);
        assert ops[..k + 1] == ops[..k] + [x] && x !in ops[..k];
        NodesOf(x);
        Rewind(x, now);
        ll := ll.next;
        k := k + 1;
      }
      SchedAt(k);
      assert ops[..k] == ops;
    }

    lemma SchedAt(k: nat)
      requires Wired() && k <= |State().sched|
      ensures var ops := State().sched;
              && (k < |ops| <==> Met(schedops.root, schedNode, ops, k) != schedops.root)
              && (k < |ops| ==>
                    var n := Met(schedops.root, schedNode, ops, k);
                    OpOf(n.owner) == ops[k] && ops[k] in table && n.next == Met(schedops.root, schedNode, ops, k + 1))
    {
      hide List.Valid, Ops;
      SideWalk(schedops, schedNode, k);
    }

    /** ~RetryQueue */
    method Close()
      requires Wired() && Valid(State())
      modifies this`table, this`answers, schedops, tmoops, links`next, links`prev
      ensures Wired() && State() == Teardown(old(State())) && State().sched == [] && State().tmo == []
      ensures answers == old(answers) + Generic(old(State()).sched)
    {
      hide Fail, InOrder, Ops, Wired, Without;
      TeardownAnswersAll(State());
      SchedFront();
      var ll: Link<Node>, next := schedops.root.next, schedops.root.next.next;
      while ll != schedops.root
        invariant Wired() && Twin(State()) && Teardown(State()) == Teardown(old(State()))
        invariant ll == Met(schedops.root, schedNode, State().sched, 0)
        invariant ll != schedops.root ==> next == Met(schedops.root, schedNode, State().sched, 1)
        decreases |State().sched|
      {
        SchedFront();
        var x := OpOf(ll.owner);
        assert x in State().sched;
        ghost var q := State();
        FailOp(x, ERR_GENERIC);
        FailHead(q, x, ERR_GENERIC);
        ll := next;
        SchedFront();
        next := ll.next;
      }
      SchedFront();
    }
  }

  /** A record and a node for an operation that is not in the list change nothing there. */
  lemma SideGrows(o: Order, l: List<Node>, node: map<OpId, Link<Node>>, t: map<OpId, Op>, x: OpId, link: Link<Node>,
      op: Op)
    requires Side(o, l, node, t) && x !in node && x !in t
    ensures Side(o, l, node[x := link], t[x := op])
  {
    hide List.Valid;
  }

  lemma ReaddStep(q: Queue, ops: seq<OpId>, k: nat)
    requires k < |ops| && Apart(Pass(q, ops[k..], 0))
    ensures ops[k] in q.table && ops[k] !in q.sched
    ensures Apart(Pass(Enlist(q, ops[k]), ops[k + 1..], 0))
      && Readd(q, ops[k..]) == Readd(Enlist(q, ops[k]), ops[k + 1..])
  {
    hide InsertAt, Slot;
    var moved := ops[k..];
    assert moved[0] in moved && moved[1..] == ops[k + 1..];
    InsertAtMembers(q.sched, Slot(ByTrytime, q.table, q.sched, q.table[ops[k]].trytime), ops[k]);
  }

  lemma ReaddNone(q: Queue)
    requires Twin(q)
    ensures Readd(q, []) == q
  {
  }

  lemma NoOps(items: seq<Link<Node>>)
    requires items == []
    ensures Ops(items) == []
  {
  }

  lemma HeadQueued(q: Queue)
    requires Twin(q) && q.sched != []
    ensures q.sched[0] in q.sched && q.sched[0] in q.table
  {
  }

  /** Failing the head of a list leaves its tail. */
  lemma FailHead(q: Queue, x: OpId, err: Status)
    requires Twin(q) && x in q.sched
    ensures var r := Fail(q, x, err);
            && |r.tmo| < |q.tmo| && |r.sched| < |q.sched|
            && (q.tmo[0] == x ==> r.tmo == q.tmo[1..]) && (q.sched[0] == x ==> r.sched == q.sched[1..])
  {
    WithoutMembers(q.sched, x);
    WithoutMembers(q.tmo, x);
  }

  lemma NotQueued(q: Queue, x: OpId)
    requires Twin(q) && x !in q.sched
    ensures x !in q.tmo
  {
  }
}
