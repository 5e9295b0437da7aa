/**
 Applying a new cluster map: src/newconfig.cc with the parts of src/mc/mcreq.c and
 src/mcserver/mcserver.cc it drives.
 */
module ClusterMaps {
  import opened Common
  import opened IntrusiveList
  import opened RetryCheck
  import opened Statuses

  datatype Dist = DistVbucket | DistKetama | DistUnknown

  /** The parts of lcbvb_CONFIG that matter here. */
  datatype Config = Config(
    hosts: seq<Option<string>>,    // the data host:port of each server in the current service mode
    masters: seq<int>,             // vbuckets[i].servers[0]
    dist: Dist,
    hash: nat -> int)              // the server a key maps to on a memcached bucket

  // ---------------------------------------------------------------- server slots

  /** find_new_data_index: the first server of the new map with the given data host, or -1. */
  function FirstWith(hosts: seq<Option<string>>, h: string): (r: int)
    ensures -1 <= r < |hosts|
    ensures r >= 0 ==> hosts[r] == Some(h) && Some(h) !in hosts[..r]
    ensures r < 0 ==> Some(h) !in hosts
  {
    if hosts == [] then -1
    else if hosts[0] == Some(h) then 0
    else
      var r := FirstWith(hosts[1..], h);
      assert r >= 0 ==> hosts[..r + 1] == [hosts[0]] + hosts[1..][..r];
      assert hosts == [hosts[0]] + hosts[1..];
      if r < 0 then -1 else r + 1
  }

  function NewIndex(from: Config, to: Config, ix: nat): (r: int)
    requires ix < |from.hosts|
    ensures -1 <= r < |to.hosts|
  {
    match from.hosts[ix]
    case None => -1
    case Some(h) => FirstWith(to.hosts, h)
  }

  type ServerId = nat

  /** The new array after the first loop of replace_config has seen `was[..n]`. */
  function Placed(was: seq<ServerId>, from: Config, to: Config, n: nat): (r: seq<Option<ServerId>>)
    requires n <= |was| == |from.hosts|
    ensures |r| == |to.hosts|
  {
    if n == 0 then seq(|to.hosts|, _ => None)
    else
      var r := Placed(was, from, to, n - 1);
      var j := NewIndex(from, to, n - 1);
      if j >= 0 then r[j := Some(was[n - 1])] else r
  }

  /** The old servers that the first loop leaves behind, in order. */
  function Dropped(was: seq<ServerId>, from: Config, to: Config, n: nat): (r: seq<ServerId>)
    requires n <= |was| == |from.hosts|
    ensures |r| <= n
  {
    if n == 0 then []
    else Dropped(was, from, to, n - 1) + if NewIndex(from, to, n - 1) < 0 then [was[n - 1]] else []
  }

  /** The second loop: servers are made for the empty slots; `next` numbers the new ones. */
  function Filled(slots: seq<Option<ServerId>>, next: ServerId): (r: seq<ServerId>)
    ensures |r| == |slots|
  {
    if slots == [] then []
    else if slots[0].None? then [next] + Filled(slots[1..], next + 1)
    else [slots[0].value] + Filled(slots[1..], next)
  }

  /** No two servers of the old map carry over to the same slot. */
  ghost predicate Injective(from: Config, to: Config) {
    forall i, j :: 0 <= i < j < |from.hosts| && NewIndex(from, to, i) >= 0
      ==> NewIndex(from, to, i) != NewIndex(from, to, j)
  }

  /** Distinct data hosts in the old map suffice. */
  lemma DistinctIsInjective(from: Config, to: Config)
    requires DistinctHosts(from)
    ensures Injective(from, to)
  {
  }

  /** With distinct hosts each old server whose host is in the new map sits exactly in the slot of that host. */
  lemma {:induction false} PlacedInSlot(was: seq<ServerId>, from: Config, to: Config, n: nat, i: nat)
    requires i < n <= |was| == |from.hosts| && Injective(from, to) && NewIndex(from, to, i) >= 0
    ensures Placed(was, from, to, n)[NewIndex(from, to, i)] == Some(was[i])
  {
    if i < n - 1 {
      PlacedInSlot(was, from, to, n - 1, i);
    }
  }

  /** A slot holds an old server only if that server's host is the slot's host. */
  lemma {:induction false} SlotIsMatched(was: seq<ServerId>, from: Config, to: Config, n: nat, j: nat)
    requires n <= |was| == |from.hosts| && j < |to.hosts|
    ensures Placed(was, from, to, n)[j].Some? <==> exists i :: 0 <= i < n && NewIndex(from, to, i) == j
    ensures Placed(was, from, to, n)[j].Some? ==>
      exists i :: 0 <= i < n && NewIndex(from, to, i) == j && Placed(was, from, to, n)[j] == Some(was[i])
  {
    if n > 0 {
      SlotIsMatched(was, from, to, n - 1, j);
    }
  }

  function At(s: seq<ServerId>, x: ServerId): (k: nat)
    requires x in s
    ensures k < |s| && s[k] == x
  {
    if s[0] == x then 0 else 1 + At(s[1..], x)
  }

  lemma {:induction false} AtMore(s: seq<ServerId>, x: ServerId, y: ServerId)
    ensures x in s ==> At(s + [y], x) == At(s, x)
    ensures y !in s ==> At(s + [y], y) == |s|
  {
    if s == [] {
      assert ([] + [y])[0] == y;
    } else {
      AtMore(s[1..], x, y);
      assert (s + [y])[1..] == s[1..] + [y];
    }
  }

  /** The elements of `r` are elements of `s` and come in the order of `s`. */
  ghost predicate Along(r: seq<ServerId>, s: seq<ServerId>) {
    && (forall i :: 0 <= i < |r| ==> r[i] in s)
    && (forall i, j :: 0 <= i < j < |r| ==> At(s, r[i]) < At(s, r[j]))
  }

  lemma AlongMore(r: seq<ServerId>, s: seq<ServerId>, x: ServerId)
    requires Along(r, s) && x !in s
    ensures Along(r, s + [x]) && Along(r + [x], s + [x])
  {
    hide At;
    forall i | 0 <= i < |r| ensures At(s + [x], r[i]) == At(s, r[i]) < |s| {
      AtMore(s, r[i], x);
    }
    AtMore(s, x, x);
  }

  lemma {:induction false} DroppedAre(was: seq<ServerId>, from: Config, to: Config, n: nat)
    requires n <= |was| == |from.hosts| && NoDup(was)
    ensures NoDup(Dropped(was, from, to, n))
    ensures forall i :: 0 <= i < n ==> (was[i] in Dropped(was, from, to, n) <==> NewIndex(from, to, i) < 0)
    ensures forall s :: s in Dropped(was, from, to, n) ==> s in was[..n]
  {
    if n > 0 {
      DroppedAre(was, from, to, n - 1);
      assert was[..n] == was[..n - 1] + [was[n - 1]] && was[n - 1] !in was[..n - 1];
    }
  }

  /** They are closed in the order of the old array. */
  lemma {:induction false} DroppedAlong(was: seq<ServerId>, from: Config, to: Config, n: nat)
    requires n <= |was| == |from.hosts| && NoDup(was)
    ensures Along(Dropped(was, from, to, n), was[..n])
  {
    hide Along, NewIndex, NoDup;
    if n == 0 {
      AlongNone(was[..n]);
    } else {
      var d := Dropped(was, from, to, n - 1);
      DroppedAlong(was, from, to, n - 1);
      NotBefore(was, n - 1);
      AlongMore(d, was[..n - 1], was[n - 1]);
      assert was[..n] == was[..n - 1] + [was[n - 1]] && d + [] == d;
    }
  }

  lemma NotBefore(s: seq<ServerId>, n: nat)
    requires NoDup(s) && n < |s|
    ensures s[n] !in s[..n] && NoDup(s[..n])
  {
  }

  lemma AlongNone(s: seq<ServerId>)
    ensures Along([], s)
  {
  }

  /** The second loop starts with an old server or a new one and goes on with the rest. */
  lemma FilledStep(slots: seq<Option<ServerId>>, next: ServerId)
    requires slots != []
    ensures Filled(slots, next) == if slots[0].None? then [next] + Filled(slots[1..], next + 1)
                                   else [slots[0].value] + Filled(slots[1..], next)
  {
  }

  /** A kept server stays in its slot; every other slot gets a server that is new. */
  lemma {:induction false} FilledSlot(slots: seq<Option<ServerId>>, next: ServerId, j: nat)
    requires j < |slots|
    ensures if slots[j].Some? then Filled(slots, next)[j] == slots[j].value else Filled(slots, next)[j] >= next
  {
    hide Filled;
    FilledStep(slots, next);
    if j > 0 {
      var next' := if slots[0].None? then next + 1 else next;
      assert slots[j] == slots[1..][j - 1];
      FilledSlot(slots[1..], next', j - 1);
    }
  }

  /** The new servers are all different. */
  lemma {:induction false} FilledApart(slots: seq<Option<ServerId>>, next: ServerId, i: nat, j: nat)
    requires i < j < |slots| && slots[i].None? && slots[j].None?
    ensures Filled(slots, next)[i] != Filled(slots, next)[j]
  {
    hide Filled;
    FilledStep(slots, next);
    var next' := if slots[0].None? then next + 1 else next;
    assert slots[j] == slots[1..][j - 1];
    if i == 0 {
      FilledSlot(slots[1..], next', j - 1);
    } else {
      assert slots[i] == slots[1..][i - 1];
      FilledApart(slots[1..], next', i - 1, j - 1);
    }
  }

  lemma FilledAt(slots: seq<Option<ServerId>>, next: ServerId)
    ensures forall j :: 0 <= j < |slots| && slots[j].Some? ==> Filled(slots, next)[j] == slots[j].value
    ensures forall j :: 0 <= j < |slots| && slots[j].None? ==> Filled(slots, next)[j] >= next
    ensures forall i, j :: 0 <= i < j < |slots| && slots[i].None? && slots[j].None? ==>
              Filled(slots, next)[i] != Filled(slots, next)[j]
  {
    hide Filled;
    forall j | 0 <= j < |slots|
      ensures if slots[j].Some? then Filled(slots, next)[j] == slots[j].value else Filled(slots, next)[j] >= next
    {
      FilledSlot(slots, next, j);
    }
    forall i, j | 0 <= i < j < |slots| && slots[i].None? && slots[j].None?
      ensures Filled(slots, next)[i] != Filled(slots, next)[j]
    {
      FilledApart(slots, next, i, j);
    }
  }

  /**
   Every old server survives in exactly one place, its slot or the list of dropped ones,
   exactly when no two of them carry over to the same slot.
   */
  lemma {:induction false} NoServerLostIff(was: seq<ServerId>, from: Config, to: Config)
    requires |was| == |from.hosts| && NoDup(was)
    ensures (forall i :: 0 <= i < |was| ==>
               was[i] in Dropped(was, from, to, |was|) || Some(was[i]) in Placed(was, from, to, |was|))
            <==> Injective(from, to)
  {
    var n := |was|;
    var p := Placed(was, from, to, n);
    DroppedAre(was, from, to, n);
    if Injective(from, to) {
      forall i | 0 <= i < n ensures was[i] in Dropped(was, from, to, n) || Some(was[i]) in p {
        if NewIndex(from, to, i) >= 0 {
          PlacedInSlot(was, from, to, n, i);
        }
      }
    } else {
      var i, j :| 0 <= i < j < n && NewIndex(from, to, i) >= 0 && NewIndex(from, to, i) == NewIndex(from, to, j);
      Overwritten(was, from, to, n, i, j);
      assert Some(was[i]) !in p;
    }
  }

  /** A later server with the same slot pushes the earlier one out of the array. */
  lemma {:induction false} Overwritten(was: seq<ServerId>, from: Config, to: Config, n: nat, i: nat, j: nat)
    requires i < j < n <= |was| == |from.hosts| && NoDup(was)
    requires NewIndex(from, to, i) >= 0 && NewIndex(from, to, i) == NewIndex(from, to, j)
    ensures Some(was[i]) !in Placed(was, from, to, n)
  {
    if j == n - 1 {
      OnlyInSlot(was, from, to, n - 1, i);
    } else {
      Overwritten(was, from, to, n - 1, i, j);
    }
  }

  /** Two old servers with the same data host: the first one is neither seated nor dropped, with all its requests. */
  lemma SharedHost(hash: nat -> int, reqs: map<ServerId, seq<Packet>>)
    requires 5 in reqs && 6 in reqs && reqs[5] != []
    ensures var from := Config([Some("a:11210"), Some("a:11210")], [], DistVbucket, hash);
            var to := Config([Some("a:11210")], [], DistVbucket, hash);
            && Placed([5, 6], from, to, 2) == [Some(6)] && Dropped([5, 6], from, to, 2) == []
            && !NothingOverwritten([5, 6], from, to, 2, reqs)
  {
    var from := Config([Some("a:11210"), Some("a:11210")], [], DistVbucket, hash);
    var to := Config([Some("a:11210")], [], DistVbucket, hash);
    assert NewIndex(from, to, 0) == 0 && NewIndex(from, to, 1) == 0;
    assert Placed([5, 6], from, to, 1)[0] == Some(5) && Placed([5, 6], from, to, 2)[0] == Some(6);
    assert Dropped([5, 6], from, to, 1) == [];
    assert reqs[[5, 6][0]] != [];
  }

  lemma {:induction false} OnlyInSlot(was: seq<ServerId>, from: Config, to: Config, n: nat, i: nat)
    requires i < n <= |was| == |from.hosts| && NoDup(was) && NewIndex(from, to, i) >= 0
    ensures forall k :: 0 <= k < |to.hosts| && k != NewIndex(from, to, i) ==>
      Placed(was, from, to, n)[k] != Some(was[i])
  {
    forall k | 0 <= k < |to.hosts| && k != NewIndex(from, to, i) ensures Placed(was, from, to, n)[k] != Some(was[i]) {
      SlotIsMatched(was, from, to, n, k);
    }
  }

  // ---------------------------------------------------------------- packets

  datatype Packet = Packet(id: nat, opcode: nat, vbucket: nat, key: nat, start: int, retries: Retries)

  const CMD_GET_REPLICA := 0x83

  type Strategy = (Request, Reason) -> bool

  /** The server index the map names for a packet. */
  function MapsTo(cfg: Config, p: Packet): int {
    if cfg.dist == DistVbucket then if p.vbucket < |cfg.masters| then cfg.masters[p.vbucket] else -1
    else cfg.hash(p.key)
  }

  /** iterwipe_cb: the pipeline a packet of server `self` is relocated to, or None to keep it where it is. */
  function Target(cfg: Config, pipes: seq<ServerId>, self: ServerId, p: Packet, strategy: Strategy): (r: Option<nat>)
    ensures r.Some? ==> r.value < |pipes|
  {
    if p.opcode == CMD_GET_REPLICA then None
    else if !ShouldRetry(p.opcode, p.retries, ERR_TOPOLOGY_CHANGE, strategy) then None
    else
      var ix := MapsTo(cfg, p);
      if ix < 0 || ix > |pipes| - 1 then None
      else if pipes[ix] == self then None
      else Some(ix)
  }

  /**
   The map has pipeline `j` of the first n for the packet: it is its vbucket's master, or the server its key hashes to,
   and the packet is no replica read.
   */
  ghost predicate Names(cfg: Config, n: nat, p: Packet, j: int) {
    && 0 <= j < n && p.opcode != 0x83
    && (cfg.dist == DistVbucket ==> p.vbucket < |cfg.masters| && cfg.masters[p.vbucket] == j)
    && (cfg.dist != DistVbucket ==> cfg.hash(p.key) == j)
  }

  /** A topology change moves every packet the map has a pipeline for, whatever the retry strategy says. */
  lemma TargetIff(cfg: Config, pipes: seq<ServerId>, self: ServerId, p: Packet, strategy: Strategy)
    requires self !in pipes
    ensures forall j :: Names(cfg, |pipes|, p, j) <==> j >= 0 && Target(cfg, pipes, self, p, strategy) == Some(j)
    ensures Target(cfg, pipes, self, p, strategy) == None <==> !exists j :: Names(cfg, |pipes|, p, j)
  {
    var t := Target(cfg, pipes, self, p, strategy);
    assert t.Some? ==> Names(cfg, |pipes|, p, t.value);
  }

  ghost predicate ByStart(q: seq<Packet>) {
    forall i, j :: 0 <= i < j < |q| ==> q[i].start <= q[j].start
  }

  /** Where sllist_insert_sorted puts a packet: in front of the first one that did not start earlier. */
  function StartSlot(q: seq<Packet>, t: int): (k: nat)
    ensures k <= |q| && (forall i :: 0 <= i < k ==> q[i].start < t) && (k < |q| ==> t <= q[k].start)
  {
    if q == [] || t <= q[0].start then 0
    else
      var k := StartSlot(q[1..], t);
      assert forall i :: 1 <= i < k + 1 ==> q[i] == q[1..][i - 1];
      k + 1
  }

  /** mcreq_reenqueue_packet */
  function Requeued(q: seq<Packet>, p: Packet): (r: seq<Packet>) {
    InsertAt(q, StartSlot(q, p.start), p)
  }

  lemma RequeuedKeeps(q: seq<Packet>, p: Packet)
    ensures multiset(Requeued(q, p)) == multiset(q) + multiset{p}
    ensures ByStart(q) ==> ByStart(Requeued(q, p))
  {
    var k := StartSlot(q, p.start);
    assert q == q[..k] + q[k..];
    if ByStart(q) {
      StartOrder(q, k, p);
    }
  }

  lemma StartOrder(q: seq<Packet>, k: nat, p: Packet)
    requires ByStart(q) && k <= |q| && (forall i :: 0 <= i < k ==> q[i].start < p.start)
      && (k < |q| ==> p.start <= q[k].start)
    ensures ByStart(InsertAt(q, k, p))
  {
    hide InsertAt;
    var r := InsertAt(q, k, p);
    forall i, j | 0 <= i < j < |r| ensures r[i].start <= r[j].start {
      assert k < |q| && k < j ==> q[k].start <= q[j - 1].start;
    }
  }

  /** The queues of the new pipelines, and the packets of one dropped server that stay on it. */
  datatype Wiped = Wiped(queues: seq<seq<Packet>>, kept: seq<Packet>)

  /** mcreq_iterwipe with iterwipe_cb on the requests of one dropped server. */
  function Wipe(w: Wiped, src: seq<Packet>, cfg: Config, pipes: seq<ServerId>, self: ServerId,
      strategy: Strategy): (r: Wiped)
    requires |w.queues| == |pipes|
    ensures |r.queues| == |pipes|
    decreases src
  {
    if src == [] then w
    else
      var w' := match Target(cfg, pipes, self, src[0], strategy)
        case None => w.(kept := w.kept + [src[0]])
        case Some(j) => w.(queues := w.queues[j := Requeued(w.queues[j], src[0])]);
      Wipe(w', src[1..], cfg, pipes, self, strategy)
  }

  ghost function Times(b: bool, n: nat): nat {
    if b then n else 0
  }

  /** What is kept is what has no pipeline to go to. */
  lemma {:induction false} WipeKeeps(w: Wiped, src: seq<Packet>, cfg: Config, pipes: seq<ServerId>, self: ServerId,
      strategy: Strategy, p: Packet)
    requires |w.queues| == |pipes|
    ensures multiset(Wipe(w, src, cfg, pipes, self, strategy).kept)[p] ==
            multiset(w.kept)[p] + Times(Target(cfg, pipes, self, p, strategy) == None, multiset(src)[p])
    decreases src
  {
    hide Target, Requeued;
    if src != [] {
      assert src == [src[0]] + src[1..];
      match Target(cfg, pipes, self, src[0], strategy) {
        case None =>
          WipeKeeps(w.(kept := w.kept + [src[0]]), src[1..], cfg, pipes, self, strategy, p);
        case Some(k) =>
          WipeKeeps(w.(queues := w.queues[k := Requeued(w.queues[k], src[0])]), src[1..], cfg, pipes, self, strategy,
            p);
      }
    }
  }

  /** Every packet of the dropped server ends up once on the pipeline the map names for it, or is kept once. */
  lemma {:induction false} WipeRoutes(w: Wiped, src: seq<Packet>, cfg: Config, pipes: seq<ServerId>, self: ServerId,
      strategy: Strategy, j: nat, p: Packet)
    requires |w.queues| == |pipes| && j < |pipes|
    ensures var r := Wipe(w, src, cfg, pipes, self, strategy);
            && multiset(r.queues[j])[p] == multiset(w.queues[j])[p]
              + Times(Target(cfg, pipes, self, p, strategy) == Some(j), multiset(src)[p])
            && multiset(r.kept)[p] == multiset(w.kept)[p]
              + Times(Target(cfg, pipes, self, p, strategy) == None, multiset(src)[p])
            && (ByStart(w.queues[j]) ==> ByStart(r.queues[j]))
    decreases src
  {
    hide Target, Requeued, ByStart;
    WipeKeeps(w, src, cfg, pipes, self, strategy, p);
    if src != [] {
      assert src == [src[0]] + src[1..];
      match Target(cfg, pipes, self, src[0], strategy) {
        case None =>
          WipeRoutes(w.(kept := w.kept + [src[0]]), src[1..], cfg, pipes, self, strategy, j, p);
        case Some(k) =>
          RequeuedKeeps(w.queues[k], src[0]);
          WipeRoutes(w.(queues := w.queues[k := Requeued(w.queues[k], src[0])]), src[1..], cfg, pipes, self, strategy,
            j, p);
      }
    }
  }

  datatype Failure = Failure(pkt: Packet, status: Status)

  /**
   purge_single: None when the packet goes to the retry queue instead, else the status of its
   response. `remembered` is the error the retry queue has noted for the packet, if any.
   */
  function PurgeStatus(p: Packet, dist: Dist, err: Status, remembered: Status, strategy: Strategy): Option<Status> {
    if err != ERR_REQUEST_CANCELED && dist == DistVbucket && ShouldRetry(p.opcode, p.retries, err, strategy) then None
    else if err == ERR_AUTHENTICATION_FAILURE then Some(ERR_MAP_CHANGED)
    else if err == ERR_TIMEOUT && remembered != SUCCESS then Some(remembered)
    else Some(err)
  }

  /**
   A purged packet goes to the retry queue only on a bucket with vbuckets, and then exactly for the errors that are
   always retried and those the strategy agrees to; a timeout is reported with the cause the retry queue has noted.
   */
  lemma PurgedWith(p: Packet, dist: Dist, err: Status, remembered: Status, strategy: Strategy)
    ensures PurgeStatus(p, dist, err, remembered, strategy) == None <==>
            && dist == DistVbucket
            && (Insistent(err) || exists r :: err in AskedWith(r) && strategy(Request(Reads(p.opcode), p.retries), r))
    ensures PurgeStatus(p, dist, err, remembered, strategy) != None ==>
              PurgeStatus(p, dist, err, remembered, strategy) ==
              Some(if err == ERR_TIMEOUT && remembered != SUCCESS then remembered
                   else if err == ERR_AUTHENTICATION_FAILURE then ERR_MAP_CHANGED else err)
  {
    StrategyHears(p.opcode, p.retries, err, strategy);
  }

  /** A packet purged because the map changed is never retried again; it fails with exactly that status. */
  lemma PurgedOnMapChange(p: Packet, dist: Dist, remembered: Status, strategy: Strategy)
    ensures PurgeStatus(p, dist, ERR_MAP_CHANGED, remembered, strategy) == Some(ERR_MAP_CHANGED)
  {
  }

  /**
   How often a packet goes back to the retry queue, if its servers are purged with the given errors one after the
   other.
   */
  function Reentries(p: Packet, dist: Dist, errs: seq<Status>, strategy: Strategy): (n: nat)
    ensures n <= |errs|
    decreases errs
  {
    if errs == [] || PurgeStatus(p, dist, errs[0], SUCCESS, strategy).Some? then 0
    else 1 + Reentries(p.(retries := OneMore(p.retries)), dist, errs[1..], strategy)
  }

  /**
   A strategy that allows `limit` attempts bounds the returns of a packet exactly if the limit
   fits the eight-bit counter; with a larger limit the packet returns for ever.
   */
  lemma {:induction false} RetryBudget(p: Packet, errs: seq<Status>, limit: nat)
    requires forall i :: 0 <= i < |errs| ==> Decided(errs[i])
    ensures Reentries(p, DistVbucket, errs, (q: Request, r) => q.attempts < limit) ==
            if limit >= UINT8 then |errs|
            else if p.retries >= limit then 0
            else if |errs| < limit - p.retries then |errs| else limit - p.retries
    decreases errs
  {
    hide ReasonFor;
    if errs != [] && p.retries < limit {
      assert forall i :: 0 < i < |errs| ==> errs[i] == errs[1..][i - 1];
      Asked(p, errs[0], limit);
      RetryBudget(p.(retries := OneMore(p.retries)), errs[1..], limit);
    } else if errs != [] {
      Asked(p, errs[0], limit);
    }
  }

  lemma Asked(p: Packet, err: Status, limit: nat)
    requires Decided(err)
    ensures PurgeStatus(p, DistVbucket, err, SUCCESS, (q: Request, r) => q.attempts < limit).None?
      <==> p.retries < limit
  {
  }

  /** Under a strategy that retries idempotent operations only, the others never return for an error it decides. */
  lemma {:induction false} IdempotentReturns(p: Packet, errs: seq<Status>)
    requires forall i :: 0 <= i < |errs| ==> Decided(errs[i])
    ensures Reentries(p, DistVbucket, errs, (q: Request, r) => q.idempotent) == if Reads(p.opcode) then |errs| else 0
    decreases errs
  {
    if errs != [] {
      assert forall i :: 0 < i < |errs| ==> errs[i] == errs[1..][i - 1];
      IdempotentReturns(p.(retries := OneMore(p.retries)), errs[1..]);
    }
  }

  /**
   Under the errors that are always retried no strategy ends the returns of a packet; a packet
   that timed out or whose map changed does not return.
   */
  lemma {:induction false} AlwaysReenters(p: Packet, errs: seq<Status>, strategy: Strategy)
    requires forall i :: 0 <= i < |errs| ==> Insistent(errs[i])
    ensures Reentries(p, DistVbucket, errs, strategy) == |errs|
    ensures Reentries(p, DistVbucket, [ERR_TIMEOUT] + errs, strategy) == 0
    ensures Reentries(p, DistVbucket, [ERR_MAP_CHANGED] + errs, strategy) == 0
    decreases errs
  {
    if errs != [] {
      assert forall i :: 0 < i < |errs| ==> errs[i] == errs[1..][i - 1];
      AlwaysReenters(p.(retries := OneMore(p.retries)), errs[1..], strategy);
    }
  }

  function Failures(kept: seq<Packet>): (r: seq<Failure>)
    ensures |r| == |kept|
  {
    seq(|kept|, i requires 0 <= i < |kept| => Failure(kept[i], ERR_MAP_CHANGED))
  }

  /** The requests of the given servers. */
  function Requests(ids: seq<ServerId>, reqs: map<ServerId, seq<Packet>>): (r: seq<seq<Packet>>)
    requires forall x :: x in ids ==> x in reqs
    ensures |r| == |ids| && forall i :: 0 <= i < |ids| ==> r[i] == reqs[ids[i]]
  {
    seq(|ids|, i requires 0 <= i < |ids| => reqs[ids[i]])
  }

  /** The third loop of replace_config: each dropped server is wiped and what stays on it is purged. */
  function WipeAll(w: Wiped, dropped: seq<ServerId>, reqs: map<ServerId, seq<Packet>>, cfg: Config,
      pipes: seq<ServerId>, strategy: Strategy): (r: Wiped)
    requires |w.queues| == |pipes| && forall x :: x in dropped ==> x in reqs
    ensures |r.queues| == |pipes|
    decreases dropped
  {
    if dropped == [] then w
    else WipeAll(Wipe(w, reqs[dropped[0]], cfg, pipes, dropped[0], strategy), dropped[1..], reqs, cfg, pipes, strategy)
  }

  ghost function AllOf(queues: seq<seq<Packet>>): multiset<Packet> {
    if queues == [] then multiset{} else multiset(queues[0]) + AllOf(queues[1..])
  }

  /** All removed servers: exactly what the new map has no pipeline for is purged. */
  lemma {:induction false} WipeAllKeeps(w: Wiped, dropped: seq<ServerId>, reqs: map<ServerId, seq<Packet>>, cfg: Config,
      pipes: seq<ServerId>, strategy: Strategy, p: Packet)
    requires |w.queues| == |pipes| && forall x :: x in dropped ==> x in reqs && x !in pipes
    ensures multiset(WipeAll(w, dropped, reqs, cfg, pipes, strategy).kept)[p] ==
            multiset(w.kept)[p] + Times(!exists j :: Names(cfg, |pipes|, p, j), AllOf(Requests(dropped, reqs))[p])
    decreases dropped
  {
    hide Target, Wipe, Names;
    if dropped != [] {
      var x := dropped[0];
      TargetIff(cfg, pipes, x, p, strategy);
      WipeKeeps(w, reqs[x], cfg, pipes, x, strategy, p);
      WipeAllKeeps(Wipe(w, reqs[x], cfg, pipes, x, strategy), dropped[1..], reqs, cfg, pipes, strategy, p);
      assert Requests(dropped, reqs)[1..] == Requests(dropped[1..], reqs);
    }
  }

  /**
   Relocation, packet by packet: what was on the dropped servers is requeued once on the
   pipeline the new map names or else purged once, and the other queues only gain these.
   */
  lemma {:induction false} WipeAllRoutes(w: Wiped, dropped: seq<ServerId>, reqs: map<ServerId, seq<Packet>>,
      cfg: Config, pipes: seq<ServerId>, strategy: Strategy, j: nat, p: Packet)
    requires |w.queues| == |pipes| && j < |pipes| && (forall x :: x in dropped ==> x in reqs && x !in pipes)
    ensures var r, n := WipeAll(w, dropped, reqs, cfg, pipes, strategy), AllOf(Requests(dropped, reqs))[p];
            && multiset(r.queues[j])[p] == multiset(w.queues[j])[p] + Times(Names(cfg, |pipes|, p, j), n)
            && multiset(r.kept)[p] == multiset(w.kept)[p] + Times(!exists k :: Names(cfg, |pipes|, p, k), n)
            && (ByStart(w.queues[j]) ==> ByStart(r.queues[j]))
    decreases dropped
  {
    hide Target, ByStart, Wipe, Names;
    WipeAllKeeps(w, dropped, reqs, cfg, pipes, strategy, p);
    if dropped != [] {
      var x := dropped[0];
      var w' := Wipe(w, reqs[x], cfg, pipes, x, strategy);
      TargetIff(cfg, pipes, x, p, strategy);
      WipeRoutes(w, reqs[x], cfg, pipes, x, strategy, j, p);
      WipeAllRoutes(w', dropped[1..], reqs, cfg, pipes, strategy, j, p);
      assert Requests(dropped, reqs)[1..] == Requests(dropped[1..], reqs);
    }
  }

  // ---------------------------------------------------------------- seating keeps the queues

  function SlotQueues(slots: seq<Option<ServerId>>, reqs: map<ServerId, seq<Packet>>): (r: seq<seq<Packet>>)
    requires forall j :: 0 <= j < |slots| && slots[j].Some? ==> slots[j].value in reqs
    ensures |r| == |slots|
    ensures forall j :: 0 <= j < |slots| ==> r[j] == if slots[j].Some? then reqs[slots[j].value] else []
  {
    seq(|slots|, j requires 0 <= j < |slots| => if slots[j].Some? then reqs[slots[j].value] else [])
  }

  lemma {:induction false} AllOfUpdate(q: seq<seq<Packet>>, j: nat, x: seq<Packet>)
    requires j < |q|
    ensures AllOf(q[j := x]) + multiset(q[j]) == AllOf(q) + multiset(x)
  {
    if j == 0 {
      assert q[0 := x][1..] == q[1..];
    } else {
      AllOfUpdate(q[1..], j - 1, x);
      assert q[j := x][1..] == q[1..][j - 1 := x] && q[1..][j - 1] == q[j] && q[j := x][0] == q[0];
      var h, a, b := multiset(q[0]), AllOf(q[1..]), AllOf(q[1..][j - 1 := x]);
      assert h + b + multiset(q[j]) == h + (b + multiset(q[j])) == h + a + multiset(x);
    }
  }

  lemma {:induction false} AllOfMore(q: seq<seq<Packet>>, x: seq<Packet>)
    ensures AllOf(q + [x]) == AllOf(q) + multiset(x)
  {
    if q == [] {
      assert [] + [x] == [x];
    } else {
      AllOfMore(q[1..], x);
      assert (q + [x])[1..] == q[1..] + [x];
    }
  }

  lemma {:induction false} AllOfEmpty(n: nat)
    ensures AllOf(seq(n, _ => [])) == multiset{}
  {
    if n > 0 {
      AllOfEmpty(n - 1);
      assert seq<seq<Packet>>(n, _ => [])[1..] == seq<seq<Packet>>(n - 1, _ => []);
    }
  }

  lemma PlacedKnown(was: seq<ServerId>, from: Config, to: Config, n: nat, reqs: map<ServerId, seq<Packet>>)
    requires n <= |was| == |from.hosts| && forall x :: x in was ==> x in reqs
    ensures forall j :: 0 <= j < |to.hosts| && Placed(was, from, to, n)[j].Some? ==>
      Placed(was, from, to, n)[j].value in reqs
    ensures forall x :: x in Dropped(was, from, to, n) ==> x in reqs
  {
  }

  /** The queues in the new array after the first loop has seen `was[..n]`. */
  ghost function Seated(was: seq<ServerId>, from: Config, to: Config, n: nat,
      reqs: map<ServerId, seq<Packet>>): (r: seq<seq<Packet>>)
    requires n <= |was| == |from.hosts| && forall x :: x in was ==> x in reqs
    ensures |r| == |to.hosts|
  {
    PlacedKnown(was, from, to, n, reqs);
    SlotQueues(Placed(was, from, to, n), reqs)
  }

  /** The queues of the servers left behind. */
  ghost function LeftBehind(was: seq<ServerId>, from: Config, to: Config, n: nat,
      reqs: map<ServerId, seq<Packet>>): seq<seq<Packet>>
    requires n <= |was| == |from.hosts| && forall x :: x in was ==> x in reqs
  {
    PlacedKnown(was, from, to, n, reqs);
    Requests(Dropped(was, from, to, n), reqs)
  }

  lemma SeatStep(was: seq<ServerId>, from: Config, to: Config, n: nat, reqs: map<ServerId, seq<Packet>>)
    requires n < |was| == |from.hosts| && forall x :: x in was ==> x in reqs
    ensures var j, x := NewIndex(from, to, n), reqs[was[n]];
            if j >= 0 then
              && LeftBehind(was, from, to, n + 1, reqs) == LeftBehind(was, from, to, n, reqs)
              && Seated(was, from, to, n + 1, reqs) == Seated(was, from, to, n, reqs)[j := x]
            else
              && Seated(was, from, to, n + 1, reqs) == Seated(was, from, to, n, reqs)
              && LeftBehind(was, from, to, n + 1, reqs) == LeftBehind(was, from, to, n, reqs) + [x]
  {
    PlacedKnown(was, from, to, n, reqs);
    PlacedKnown(was, from, to, n + 1, reqs);
  }

  /** The packets of servers that were seated and then overwritten by another one with the same slot. */
  ghost function Overrun(was: seq<ServerId>, from: Config, to: Config, n: nat,
      reqs: map<ServerId, seq<Packet>>): multiset<Packet>
    requires n <= |was| == |from.hosts| && forall x :: x in was ==> x in reqs
  {
    if n == 0 then multiset{}
    else
      var j := NewIndex(from, to, n - 1);
      Overrun(was, from, to, n - 1, reqs) + if j >= 0 then multiset(Seated(was, from, to, n - 1, reqs)[j])
        else multiset{}
  }

  /** Seating accounts for every packet: on a seated server, on one left behind, or on one that was overwritten. */
  lemma {:induction false} SeatingAccounts(was: seq<ServerId>, from: Config, to: Config, n: nat,
      reqs: map<ServerId, seq<Packet>>)
    requires n <= |was| == |from.hosts| && forall x :: x in was ==> x in reqs
    ensures AllOf(Seated(was, from, to, n, reqs)) + AllOf(LeftBehind(was, from, to, n, reqs))
      + Overrun(was, from, to, n, reqs) ==
            AllOf(Requests(was[..n], reqs))
  {
    hide Seated, LeftBehind, AllOf, Requests, NewIndex;
    if n == 0 {
      SeatingNone(was, from, to, reqs);
    } else {
      var m, j, x := n - 1, NewIndex(from, to, n - 1), reqs[was[n - 1]];
      SeatingAccounts(was, from, to, m, reqs);
      SeatStep(was, from, to, m, reqs);
      RequestsMore(was, m, reqs);
      AllOfMore(Requests(was[..m], reqs), x);
      if j >= 0 {
        AllOfUpdate(Seated(was, from, to, m, reqs), j, x);
        Exchange(AllOf(Seated(was, from, to, m, reqs)), AllOf(Seated(was, from, to, n, reqs)),
          multiset(Seated(was, from, to, m, reqs)[j]),
                 multiset(x), AllOf(LeftBehind(was, from, to, m, reqs)), Overrun(was, from, to, m, reqs));
      } else {
        AllOfMore(LeftBehind(was, from, to, m, reqs), x);
      }
    }
  }

  lemma Exchange(
    a: multiset<Packet>, b: multiset<Packet>, q: multiset<Packet>, x: multiset<Packet>, left: multiset<Packet>,
      over: multiset<Packet>)
    requires b + q == a + x
    ensures b + left + (over + q) == a + left + over + x
  {
    assert b + left + (over + q) == (b + q) + (left + over);
  }

  lemma RequestsMore(was: seq<ServerId>, n: nat, reqs: map<ServerId, seq<Packet>>)
    requires n < |was| && forall x :: x in was ==> x in reqs
    ensures Requests(was[..n + 1], reqs) == Requests(was[..n], reqs) + [reqs[was[n]]]
  {
  }

  lemma SeatingNone(was: seq<ServerId>, from: Config, to: Config, reqs: map<ServerId, seq<Packet>>)
    requires |was| == |from.hosts| && forall x :: x in was ==> x in reqs
    ensures AllOf(Seated(was, from, to, 0, reqs)) == multiset{}
      && AllOf(LeftBehind(was, from, to, 0, reqs)) == multiset{}
    ensures AllOf(Requests(was[..0], reqs)) == multiset{}
  {
    AllOfEmpty(|to.hosts|);
    assert Seated(was, from, to, 0, reqs) == seq<seq<Packet>>(|to.hosts|, _ => []);
  }

  /** Every server that another one overwrites has no requests. */
  ghost predicate NothingOverwritten(was: seq<ServerId>, from: Config, to: Config, n: nat,
      reqs: map<ServerId, seq<Packet>>)
    requires n <= |was| == |from.hosts| && forall x :: x in was ==> x in reqs
  {
    forall i, j :: 0 <= i < j < n && NewIndex(from, to, i) >= 0 && NewIndex(from, to, i) == NewIndex(from, to, j)
      ==> reqs[was[i]] == []
  }

  lemma {:induction false} OverrunIff(was: seq<ServerId>, from: Config, to: Config, n: nat,
      reqs: map<ServerId, seq<Packet>>)
    requires n <= |was| == |from.hosts| && forall x :: x in was ==> x in reqs
    ensures Overrun(was, from, to, n, reqs) == multiset{} <==> NothingOverwritten(was, from, to, n, reqs)
  {
    hide Seated, NewIndex;
    if n > 0 {
      OverrunIff(was, from, to, n - 1, reqs);
      var j := NewIndex(from, to, n - 1);
      if j >= 0 {
        SeatIs(was, from, to, n - 1, reqs, j);
        var q := Seated(was, from, to, n - 1, reqs)[j];
        assert multiset(q) == multiset{} <==> q == [] by { assert |multiset(q)| == |q|; }
      }
    }
  }

  /** Of the first n servers, the i-th is the last one that goes to slot j. */
  ghost predicate LastFor(from: Config, to: Config, n: nat, j: nat, i: nat)
    requires n <= |from.hosts|
  {
    i < n && NewIndex(from, to, i) == j && forall k :: i < k < n ==> NewIndex(from, to, k) != j
  }

  /** A seat has the requests of the last server with its slot, or none. */
  lemma {:induction false} SeatIs(was: seq<ServerId>, from: Config, to: Config, n: nat,
      reqs: map<ServerId, seq<Packet>>, j: nat)
    requires n <= |was| == |from.hosts| && (forall x :: x in was ==> x in reqs) && j < |to.hosts|
    ensures var q := Seated(was, from, to, n, reqs)[j];
            || (q == [] && forall i :: 0 <= i < n ==> NewIndex(from, to, i) != j)
            || exists i :: 0 <= i < n && LastFor(from, to, n, j, i) && q == reqs[was[i]]
  {
    hide NewIndex, Seated;
    if n == 0 {
      NoSeats(was, from, to, reqs, j);
    } else {
      SeatIs(was, from, to, n - 1, reqs, j);
      SeatStep(was, from, to, n - 1, reqs);
      var q := Seated(was, from, to, n, reqs)[j];
      if NewIndex(from, to, n - 1) == j {
        assert LastFor(from, to, n, j, n - 1) && q == reqs[was[n - 1]];
      } else if i :| 0 <= i < n - 1 && LastFor(from, to, n - 1, j, i) && q == reqs[was[i]] {
        assert LastFor(from, to, n, j, i);
      }
    }
  }

  lemma NoSeats(was: seq<ServerId>, from: Config, to: Config, reqs: map<ServerId, seq<Packet>>, j: nat)
    requires |was| == |from.hosts| && (forall x :: x in was ==> x in reqs) && j < |to.hosts|
    ensures Seated(was, from, to, 0, reqs)[j] == []
  {
  }

  lemma {:induction false} AllOfReplace(q: seq<seq<Packet>>, j: nat, x: seq<Packet>, p: Packet)
    requires j < |q| && multiset(x) == multiset(q[j]) + multiset{p}
    ensures AllOf(q[j := x]) == AllOf(q) + multiset{p}
  {
    if j == 0 {
      assert q[0 := x][1..] == q[1..];
    } else {
      AllOfReplace(q[1..], j - 1, x, p);
      assert q[j := x][1..] == q[1..][j - 1 := x];
    }
  }

  lemma {:induction false} WipeConserves(w: Wiped, src: seq<Packet>, cfg: Config, pipes: seq<ServerId>, self: ServerId,
      strategy: Strategy)
    requires |w.queues| == |pipes|
    ensures var r := Wipe(w, src, cfg, pipes, self, strategy);
            AllOf(r.queues) + multiset(r.kept) == AllOf(w.queues) + multiset(w.kept) + multiset(src)
    decreases src
  {
    hide Target, Requeued, AllOf;
    if src != [] {
      assert src == [src[0]] + src[1..];
      match Target(cfg, pipes, self, src[0], strategy) {
        case None =>
          WipeConserves(w.(kept := w.kept + [src[0]]), src[1..], cfg, pipes, self, strategy);
        case Some(k) =>
          RequeuedKeeps(w.queues[k], src[0]);
          AllOfReplace(w.queues, k, Requeued(w.queues[k], src[0]), src[0]);
          WipeConserves(w.(queues := w.queues[k := Requeued(w.queues[k], src[0])]), src[1..], cfg, pipes, self,
            strategy);
      }
    }
  }

  lemma {:induction false} WipeAllConserves(w: Wiped, dropped: seq<ServerId>, reqs: map<ServerId, seq<Packet>>,
      cfg: Config, pipes: seq<ServerId>, strategy: Strategy)
    requires |w.queues| == |pipes| && forall x :: x in dropped ==> x in reqs
    ensures var r := WipeAll(w, dropped, reqs, cfg, pipes, strategy);
            AllOf(r.queues) + multiset(r.kept) == AllOf(w.queues) + multiset(w.kept) + AllOf(Requests(dropped, reqs))
    decreases dropped
  {
    hide Wipe;
    if dropped != [] {
      WipeConserves(w, reqs[dropped[0]], cfg, pipes, dropped[0], strategy);
      WipeAllConserves(Wipe(w, reqs[dropped[0]], cfg, pipes, dropped[0], strategy), dropped[1..], reqs, cfg, pipes,
        strategy);
      assert Requests(dropped, reqs)[1..] == Requests(dropped[1..], reqs);
    }
  }

  lemma {:induction false} WipeAllSnoc(w: Wiped, dropped: seq<ServerId>, x: ServerId, reqs: map<ServerId, seq<Packet>>,
      cfg: Config, pipes: seq<ServerId>, strategy: Strategy)
    requires |w.queues| == |pipes| && x in reqs && forall y :: y in dropped ==> y in reqs
    ensures WipeAll(w, dropped + [x], reqs, cfg, pipes, strategy) ==
            Wipe(WipeAll(w, dropped, reqs, cfg, pipes, strategy), reqs[x], cfg, pipes, x, strategy)
    decreases dropped
  {
    hide Wipe;
    if dropped == [] {
      assert [] + [x] == [x];
    } else {
      assert (dropped + [x])[0] == dropped[0] && (dropped + [x])[1..] == dropped[1..] + [x];
      WipeAllSnoc(Wipe(w, reqs[dropped[0]], cfg, pipes, dropped[0], strategy), dropped[1..], x, reqs, cfg, pipes,
        strategy);
    }
  }

  /**
   The whole map change: no packet is lost and none is duplicated, each being afterwards on one of
   the new pipelines or among the purged ones, if and only if every server that another one with
   the same data host overwrites has no requests.
   */
  lemma {:induction false} MapChangeConservesIff(
    was: seq<ServerId>, from: Config, to: Config, reqs: map<ServerId, seq<Packet>>, pipes: seq<ServerId>,
      strategy: Strategy)
    requires |was| == |from.hosts| && (forall x :: x in was ==> x in reqs) && |pipes| == |to.hosts|
    ensures Known(was, from, to, reqs)
    ensures var r := WipeAll(Wiped(Seated(was, from, to, |was|, reqs), []), Dropped(was, from, to, |was|), reqs, to,
      pipes, strategy);
            AllOf(r.queues) + multiset(r.kept) == AllOf(Requests(was, reqs)) <==>
            NothingOverwritten(was, from, to, |was|, reqs)
  {
    hide AllOf, WipeAll, Dropped, NothingOverwritten, Seated;
    var n := |was|;
    PlacedKnown(was, from, to, n, reqs);
    SeatingAccounts(was, from, to, n, reqs);
    OverrunIff(was, from, to, n, reqs);
    WipeAllConserves(Wiped(Seated(was, from, to, n, reqs), []), Dropped(was, from, to, n), reqs, to, pipes, strategy);
    assert was[..n] == was;
    NoneLost(AllOf(Requests(was, reqs)), Overrun(was, from, to, n, reqs));
  }

  /** The dropped servers are among the old ones. */
  ghost predicate Known(was: seq<ServerId>, from: Config, to: Config, reqs: map<ServerId, seq<Packet>>)
    requires |was| == |from.hosts|
  {
    forall x :: x in Dropped(was, from, to, |was|) ==> x in reqs
  }

  lemma NoneLost(all: multiset<Packet>, lost: multiset<Packet>)
    requires lost <= all
    ensures all - lost == all <==> lost == multiset{}
  {
    assert |all - lost| == |all| - |lost|;
  }

  /** No two servers of a map have the same data host. */
  ghost predicate DistinctHosts(c: Config) {
    forall i, j :: 0 <= i < j < |c.hosts| && c.hosts[i].Some? ==> c.hosts[i] != c.hosts[j]
  }

  /** Then a server carries over to exactly the slot of its host. */
  lemma NewIndexIff(from: Config, to: Config, i: nat, j: nat)
    requires DistinctHosts(to) && i < |from.hosts| && j < |to.hosts|
    ensures NewIndex(from, to, i) == j <==> from.hosts[i].Some? && from.hosts[i] == to.hosts[j]
  {
    hide FirstWith;
  }

  /** The new array has no server that was dropped. */
  lemma DroppedNotInArray(was: seq<ServerId>, from: Config, to: Config, next: ServerId, i: nat)
    requires |was| == |from.hosts| && NoDup(was) && (forall x :: x in was ==> x < next)
    requires i < |was| && NewIndex(from, to, i) < 0
    ensures was[i] !in Filled(Placed(was, from, to, |was|), next)
  {
    hide Placed, NewIndex, Filled;
    var p := Placed(was, from, to, |was|);
    assert was[i] in was;
    forall j | 0 <= j < |p| ensures Filled(p, next)[j] != was[i] {
      FilledSlot(p, next, j);
      SlotIsMatched(was, from, to, |was|, j);
    }
  }

  /** The server the new array has for a host: the one that had it before, or a new one. */
  lemma ArrayMeans(was: seq<ServerId>, from: Config, to: Config, next: ServerId, j: nat)
    requires |was| == |from.hosts| && DistinctHosts(from) && DistinctHosts(to) && j < |to.hosts|
    ensures var pipes := Filled(Placed(was, from, to, |was|), next);
            && (forall i :: 0 <= i < |was| && from.hosts[i].Some? && from.hosts[i] == to.hosts[j] ==>
              pipes[j] == was[i])
            && ((forall i :: 0 <= i < |was| ==> from.hosts[i].None? || from.hosts[i] != to.hosts[j])
              ==> pipes[j] >= next)
  {
    hide Placed, NewIndex, Filled;
    var p := Placed(was, from, to, |was|);
    DistinctIsInjective(from, to);
    FilledSlot(p, next, j);
    SlotIsMatched(was, from, to, |was|, j);
    forall i | 0 <= i < |was|
      ensures NewIndex(from, to, i) == j <==> from.hosts[i].Some? && from.hosts[i] == to.hosts[j]
      ensures NewIndex(from, to, i) == j ==> p[j] == Some(was[i])
    {
      NewIndexIff(from, to, i, j);
      if NewIndex(from, to, i) == j {
        PlacedInSlot(was, from, to, |was|, i);
      }
    }
  }

  /** The requests of the first n servers whose data host is not in the new map. */
  ghost function Departed(was: seq<ServerId>, from: Config, to: Config, n: nat, reqs: map<ServerId, seq<Packet>>):
      multiset<Packet>
    requires n <= |was| == |from.hosts| && forall x :: x in was ==> x in reqs
  {
    if n == 0 then multiset{}
    else
      Departed(was, from, to, n - 1, reqs)
        + if from.hosts[n - 1].Some? && from.hosts[n - 1] in to.hosts then multiset{} else multiset(reqs[was[n - 1]])
  }

  /** A server carries over exactly if its data host is in the new map. */
  lemma CarriesOver(from: Config, to: Config, i: nat)
    requires i < |from.hosts|
    ensures NewIndex(from, to, i) >= 0 <==> from.hosts[i].Some? && from.hosts[i] in to.hosts
  {
  }

  lemma NoneLeftBehind(was: seq<ServerId>, from: Config, to: Config, reqs: map<ServerId, seq<Packet>>)
    requires |was| == |from.hosts| && forall x :: x in was ==> x in reqs
    ensures AllOf(LeftBehind(was, from, to, 0, reqs)) == multiset{}
  {
  }

  lemma {:induction false} DepartedAre(was: seq<ServerId>, from: Config, to: Config, n: nat,
      reqs: map<ServerId, seq<Packet>>)
    requires n <= |was| == |from.hosts| && forall x :: x in was ==> x in reqs
    ensures AllOf(LeftBehind(was, from, to, n, reqs)) == Departed(was, from, to, n, reqs)
  {
    hide Seated, LeftBehind, NewIndex, AllOf;
    if n == 0 {
      NoneLeftBehind(was, from, to, reqs);
    } else {
      DepartedAre(was, from, to, n - 1, reqs);
      SeatStep(was, from, to, n - 1, reqs);
      CarriesOver(from, to, n - 1);
      AllOfMore(LeftBehind(was, from, to, n - 1, reqs), reqs[was[n - 1]]);
    }
  }

  /**
   Where the requests of removed servers are after a map change: each once in the slot the new map names for it, behind
   what was in that slot already, or once among those that fail; and every queue is still in the order of start.
   */
  ghost predicate Rehomed(was: seq<ServerId>, from: Config, to: Config, reqs: map<ServerId, seq<Packet>>,
      queues: seq<seq<Packet>>, kept: seq<Packet>)
    requires |was| == |from.hosts| && forall x :: x in was ==> x in reqs
  {
    var gone, seats := Departed(was, from, to, |was|, reqs), Seated(was, from, to, |was|, reqs);
    && |queues| == |to.hosts|
    && (forall j, p :: 0 <= j < |to.hosts| ==>
          multiset(queues[j])[p] == multiset(seats[j])[p] + if Names(to, |to.hosts|, p, j) then gone[p] else 0)
    && (forall p :: multiset(kept)[p] == if exists j :: Names(to, |to.hosts|, p, j) then 0 else gone[p])
    && (forall j :: 0 <= j < |to.hosts| && ByStart(seats[j]) ==> ByStart(queues[j]))
  }

  lemma {:induction false} MapChangeRehomes(was: seq<ServerId>, from: Config, to: Config,
      reqs: map<ServerId, seq<Packet>>, next: ServerId, strategy: Strategy)
    requires |was| == |from.hosts| && NoDup(was) && forall x :: x in was ==> x in reqs && x < next
    ensures Known(was, from, to, reqs)
    ensures var r := WipeAll(Wiped(Seated(was, from, to, |was|, reqs), []), Dropped(was, from, to, |was|), reqs, to,
              Filled(Placed(was, from, to, |was|), next), strategy);
            Rehomed(was, from, to, reqs, r.queues, r.kept)
  {
    hide WipeAll, Dropped, Seated, Placed, Filled, AllOf, Names, NewIndex, ByStart, Departed;
    var n, gone := |was|, Dropped(was, from, to, |was|);
    var pipes := Filled(Placed(was, from, to, n), next);
    PlacedKnown(was, from, to, n, reqs);
    DepartedAre(was, from, to, n, reqs);
    forall x | x in gone ensures x in reqs && x !in pipes {
      DroppedAre(was, from, to, n);
      var i :| 0 <= i < n && was[..n][i] == x;
      DroppedNotInArray(was, from, to, next, i);
    }
    var w := Wiped(Seated(was, from, to, n, reqs), []);
    var r := WipeAll(w, gone, reqs, to, pipes, strategy);
    var all := Departed(was, from, to, n, reqs);
    assert AllOf(Requests(gone, reqs)) == all;
    forall j, p | 0 <= j < |to.hosts|
      ensures multiset(r.queues[j])[p] == multiset(w.queues[j])[p] + if Names(to, |to.hosts|, p, j) then all[p] else 0
    {
      WipeAllRoutes(w, gone, reqs, to, pipes, strategy, j, p);
    }
    forall j | 0 <= j < |to.hosts| ensures ByStart(w.queues[j]) ==> ByStart(r.queues[j]) {
      WipeAllRoutes(w, gone, reqs, to, pipes, strategy, j, Packet(0, 0, 0, 0, 0, 0));
    }
    forall p ensures multiset(r.kept)[p] == if exists j :: Names(to, |to.hosts|, p, j) then 0 else all[p]
    {
      WipeAllKeeps(w, gone, reqs, to, pipes, strategy, p);
    }
  }

  /**
   What a map change does to the servers, if data hosts are distinct. The server of a host stays the server of that host
   with its requests; a host that was not there before gets a new one without requests.
   */
  ghost predicate HostsKeep(was: seq<ServerId>, from: Config, to: Config, reqs: map<ServerId, seq<Packet>>,
      next: ServerId, pipes: seq<ServerId>)
    requires |was| == |from.hosts| && forall x :: x in was ==> x in reqs
  {
    var seats := Seated(was, from, to, |was|, reqs);
    && |pipes| == |to.hosts|
    && (forall i, j :: 0 <= i < |was| && 0 <= j < |pipes| && from.hosts[i].Some? && from.hosts[i] == to.hosts[j] ==>
          pipes[j] == was[i] && seats[j] == reqs[was[i]])
    && (forall j :: 0 <= j < |pipes| && (to.hosts[j].None? || to.hosts[j] !in from.hosts) ==>
          pipes[j] >= next && seats[j] == [])
  }

  lemma {:induction false} MapChangeKeepsHosts(was: seq<ServerId>, from: Config, to: Config,
      reqs: map<ServerId, seq<Packet>>, next: ServerId)
    requires |was| == |from.hosts| && (forall x :: x in was ==> x in reqs) && DistinctHosts(from) && DistinctHosts(to)
    ensures HostsKeep(was, from, to, reqs, next, Filled(Placed(was, from, to, |was|), next))
  {
    hide Seated, Placed, Filled, NewIndex;
    forall j | 0 <= j < |to.hosts|
      ensures var seat, pipe := Seated(was, from, to, |was|, reqs)[j], Filled(Placed(was, from, to, |was|), next)[j];
              && (forall i :: 0 <= i < |was| && from.hosts[i].Some? && from.hosts[i] == to.hosts[j] ==>
                    pipe == was[i] && seat == reqs[was[i]])
              && (to.hosts[j].None? || to.hosts[j] !in from.hosts ==> pipe >= next && seat == [])
    {
      ArrayMeans(was, from, to, next, j);
      SeatIs(was, from, to, |was|, reqs, j);
      forall i | 0 <= i < |was|
        ensures NewIndex(from, to, i) == j <==> from.hosts[i].Some? && from.hosts[i] == to.hosts[j]
      {
        NewIndexIff(from, to, i, j);
      }
    }
  }

  // ---------------------------------------------------------------- vbucket guesses

  /** lcb_GUESSVB; the two indices are of type char. */
  datatype Guess = Guess(lastUpdate: int, newix: int, oldix: int, used: bool)

  const MAX_KEEP_GUESS := 20

  /** The value a C char keeps of an int; whether char is signed depends on the platform. */
  function ToChar(x: int, signed: bool): (r: int)
    ensures if signed then -128 <= r < 128 else 0 <= r < 256
    ensures signed ==> (r == x <==> -128 <= x < 128)
    ensures !signed ==> (r == x <==> 0 <= x < 256)
  {
    if signed then (x + 128) % 256 - 128 else x % 256
  }

  /** The first index that does not fit. */
  function CharLimit(signed: bool): nat {
    if signed then 128 else 256
  }

  /** should_keep_guess */
  predicate KeepGuess(g: Guess, master: int, now: int) {
    g.newix != g.oldix && master == g.oldix && !(now - g.lastUpdate > MAX_KEEP_GUESS)
  }

  /** One round of the loop of lcb_vbguess_newconfig. */
  function Overlaid(g: Guess, master: int, now: int): (Guess, int) {
    if !g.used then (g, master)
    else if KeepGuess(g, master, now) then (g, g.newix)
    else (g.(used := false), master)
  }

  /** The entry lcb_vbguess_remap writes when it learned a different index. */
  function Learned(g: Guess, bad: int, newix: int, now: int, signed: bool): Guess {
    if newix > -1 && newix != bad then Guess(now, ToChar(newix, signed), ToChar(bad, signed), true) else g
  }

  /**
   The next map ends up with a learned index exactly if it has it anyway, or still names the bad
   one, at most MAX_KEEP_GUESS seconds have passed and the learned index fits a char.
   */
  lemma GuessOverridesIff(g: Guess, bad: int, newix: int, learned: int, master: int, now: int, signed: bool)
    requires newix > -1 && newix != bad && bad >= 0 && master >= 0
    ensures Overlaid(Learned(g, bad, newix, learned, signed), master, now).1 == newix <==>
            newix == master || (newix < CharLimit(signed) && master == ToChar(bad, signed)
              && now - learned <= 20)
    ensures bad < CharLimit(signed) ==> ToChar(bad, signed) == bad
  {
  }

  /** With a signed char a learned index of 128 is kept as -128 and handed to the next map. */
  lemma GuessOf128(g: Guess)
    ensures Overlaid(Learned(g, 3, 128, 0, true), 3, 10).1 == -128
  {
  }

  /** Overlaying a map twice changes no master the first time did not change, and uses up the guess. */
  lemma OverlayTwice(g: Guess, master: int, now: int, later: int)
    ensures var (g1, m1) := Overlaid(g, master, now); var (g2, m2) := Overlaid(g1, m1, later); m2 == m1 && !g2.used
  {
  }
}
