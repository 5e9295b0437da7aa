/**
 The send queues of the servers, as far as RetryQueue::add of src/retryq.cc touches them: nothing
 that is still waiting to be sent may refer to a packet that is retried in another one.
 */
module SendQueues {
  import opened Common
  import opened RetryFlush
  import opened RetryQueues
  import opened RetryRuns
  import RetryScheduler
  import opened SingleList
  import opened Statuses

  type PacketId = nat

  /** The queues of a server's netbuf manager; the tag of a node is the packet it belongs to. */
  class Server {
    const pending: Sllist     // nb_SNDQELEM
    const pdus: Sllist        // mc_PACKET

    constructor (pending: Sllist, pdus: Sllist)
      ensures this.pending == pending && this.pdus == pdus
    {
      this.pending, this.pdus := pending, pdus;
    }

    function Queue(flush: bool): Sllist {
      if flush then pdus else pending
    }
  }

  ghost predicate Exists(servers: seq<Server?>, i: int) {
    0 <= i < |servers| && servers[i] != null
  }

  ghost function Lists(servers: seq<Server?>): set<Sllist> {
    set i, f | Exists(servers, i) :: servers[i].Queue(f)
  }

  ghost function Nodes(lists: set<Sllist>): set<SingleList.Node>
    reads lists`nodes
  {
    set l, n | l in lists && n in l.nodes :: n
  }

  /** No two queues are the same or share a node, and all are well formed. */
  ghost predicate Separate(servers: seq<Server?>)
    reads Lists(servers), Nodes(Lists(servers))
  {
    && (forall i, f :: Exists(servers, i) ==> servers[i].Queue(f).Valid())
    && (forall i, f, j, g :: Exists(servers, i) && Exists(servers, j) && (i, f) != (j, g) ==>
          && servers[i].Queue(f) != servers[j].Queue(g)
          && servers[i].Queue(f).nodes !! servers[j].Queue(g).nodes)
  }

  /** What belongs to the packet. */
  function Belongs(pkt: PacketId): nat -> bool {
    t => t == pkt
  }

  /** The walk over one queue, which leaves the other ones alone. */
  method DetachFrom(servers: seq<Server?>, ghost k: nat, ghost flush: bool, l: Sllist, pkt: PacketId)
    requires Separate(servers) && Exists(servers, k) && l == servers[k].Queue(flush)
    modifies l, l.nodes`next
    ensures Separate(servers) && l.nodes <= old(l.nodes) && l.items == Kept(old(l.items), Belongs(pkt))
    ensures forall i, f :: Exists(servers, i) && (i, f) != (k, flush) ==>
      servers[i].Queue(f).nodes == old(servers[i].Queue(f).nodes) &&
      servers[i].Queue(f).items == old(servers[i].Queue(f).items)
  {
    hide Sllist.Valid, Kept;
    l.RemoveMatching(Belongs(pkt));
    forall i, f | Exists(servers, i) && (i, f) != (k, flush)
      ensures servers[i].Queue(f).nodes == old(servers[i].Queue(f).nodes) && servers[i].Queue(f).Valid()
      ensures servers[i].Queue(f).items == old(servers[i].Queue(f).items)
    {
      ghost var m := servers[i].Queue(f);
      assert m != l && old(m.nodes !! l.nodes) && old(m.Valid());
    }
  }

  /** Both queues of one server. */
  method DetachServer(servers: seq<Server?>, ghost k: nat, server: Server, pkt: PacketId)
    requires Separate(servers) && Exists(servers, k) && server == servers[k]
    modifies server.pending, server.pdus, server.pending.nodes`next, server.pdus.nodes`next
    ensures Separate(servers)
    ensures forall f :: server.Queue(f).nodes <= old(server.Queue(f).nodes)
    ensures forall f :: server.Queue(f).items == Kept(old(server.Queue(f).items), Belongs(pkt))
    ensures forall i, f :: Exists(servers, i) && i != k ==>
      servers[i].Queue(f).nodes == old(servers[i].Queue(f).nodes) &&
      servers[i].Queue(f).items == old(servers[i].Queue(f).items)
  {
    hide Separate, Kept;
    DetachFrom(servers, k, false, server.pending, pkt);
    DetachFrom(servers, k, true, server.pdus, pkt);
  }

  /** The loop of add() over the pipelines: what still waits to be sent no longer refers to the packet. */
  method Detach(servers: seq<Server?>, pkt: PacketId)
    requires Separate(servers)
    modifies Lists(servers), Nodes(Lists(servers))
    ensures Separate(servers)
    ensures forall i, f :: Exists(servers, i) ==>
      servers[i].Queue(f).items == Kept(old(servers[i].Queue(f).items), Belongs(pkt))
  {
    hide Separate, Kept;
    var ii := 0;
    while ii < |servers|
      invariant ii <= |servers| && Separate(servers)
      invariant forall i, f :: Exists(servers, i) ==> servers[i].Queue(f).nodes <= old(servers[i].Queue(f).nodes)
      invariant forall i, f :: Exists(servers, i) ==>
        servers[i].Queue(f).items ==
        if i < ii then Kept(old(servers[i].Queue(f).items), Belongs(pkt)) else old(servers[i].Queue(f).items)
    {
      var server := servers[ii];
      if server != null {
        assert Exists(servers, ii) && server.Queue(false) == server.pending && server.Queue(true) == server.pdus;
        DetachServer(servers, ii, server, pkt);
      }
      ii := ii + 1;
    }
  }

  /** add with the clean-up: `before` is the packet the operation was last sent in, if it has a RetryOp already. */
  method AddPacket(
    q: RetryScheduler.RetryQueue, servers: seq<Server?>, x: OpId, before: Option<PacketId>,
    pkt: Packet, err: Status, status: int, spec: Spec, imm: bool, env: AddEnv, now: int)
    requires q.Wired() && Valid(q.State()) && x !in q.State().sched && Separate(servers)
    modifies q, q.schedops, q.tmoops, q.links, Lists(servers), Nodes(Lists(servers))
    ensures q.Wired() && q.State() == Add(old(q.State()), x, pkt, err, status, spec, imm, env) && Valid(q.State())
    ensures Armed(q.State(), q.timer, now)
    ensures Separate(servers)
    ensures forall i, f :: Exists(servers, i) ==>
      servers[i].Queue(f).items ==
      match before
      case None => old(servers[i].Queue(f).items)
      case Some(p) => Kept(old(servers[i].Queue(f).items), Belongs(p))
  {
    hide Separate, Kept, RetryScheduler.RetryQueue.Wired, RetryScheduler.RetryQueue.State, Valid, Add;
    if before.Some? {
      Detach(servers, before.value);
    }
    label detached:
    ghost var lists, nodes := Lists(servers), Nodes(Lists(servers));
    q.AddPacket(x, pkt, err, status, spec, imm, env, now);
    assert unchanged@detached(lists, nodes);
  }
}
