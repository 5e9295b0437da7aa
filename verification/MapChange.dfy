/**
 replace_config of src/newconfig.cc: the loops over the pipeline arrays and request
 lists, proved against the functions of module ClusterMaps.
 */
module MapChange {
  import opened ClusterMaps
  import opened Common
  import opened IntrusiveList
  import opened RetryCheck
  import opened Statuses

  class Instance {
    var config: Config
    var pipelines: seq<ServerId>
    var index: map<ServerId, int>
    var requests: map<ServerId, seq<Packet>>
    var failed: seq<Failure>          // responses dispatched by purge
    var closed: seq<ServerId>         // servers closed
    var flushed: seq<ServerId>        // servers whose flush was started
    var next: ServerId

    /** Every slot of the map has its own server, which knows its slot. */
    ghost predicate Valid()
      reads this
    {
      && |pipelines| == |config.hosts| && NoDup(pipelines)
      && (forall x :: x in pipelines ==> x in requests)
      && (forall x :: x in requests ==> x < next) && index.Keys == requests.Keys
      && (forall i :: 0 <= i < |pipelines| ==> index[pipelines[i]] == i)
    }

    constructor (config: Config)
      ensures Valid() && this.config == config && failed == [] && closed == []
    {
      this.config := config;
      var ids := seq(|config.hosts|, i => i);
      pipelines := ids;
      index := map i | i in ids :: i;
      requests := map i | i in ids :: [];
      failed, closed, flushed, next := [], [], [], |config.hosts|;
    }

    /** mcreq_iterwipe with iterwipe_cb on a server that is no longer in the array. */
    method Wipe(x: ServerId, strategy: Strategy, ghost kept: seq<Packet>)
      requires x !in pipelines && x in requests && NoDup(pipelines) && forall y :: y in pipelines ==> y in requests
      modifies this`requests
      ensures requests.Keys == old(requests).Keys
      ensures forall y :: y in requests && y !in pipelines && y != x ==> requests[y] == old(requests)[y]
      ensures Wiped(Requests(pipelines, requests), kept + requests[x]) ==
              ClusterMaps.Wipe(Wiped(Requests(pipelines, old(requests)), kept), old(requests)[x], config, pipelines, x,
                strategy)
    {
      hide Requeued, Target;
      var src := requests[x];
      var stay: seq<Packet> := [];
      var i := 0;
      assert src[0..] == src && kept + [] == kept;
      while i < |src|
        invariant i <= |src| && requests.Keys == old(requests).Keys
        invariant forall y :: y in requests && y !in pipelines ==> requests[y] == old(requests)[y]
        invariant ClusterMaps.Wipe(Wiped(Requests(pipelines, requests), kept + stay), src[i..], config, pipelines, x,
          strategy) ==
                  ClusterMaps.Wipe(Wiped(Requests(pipelines, old(requests)), kept), src, config, pipelines, x, strategy)
      {
        var p := src[i];
        assert src[i..][0] == p && src[i..][1..] == src[i + 1..];
        match Target(config, pipelines, x, p, strategy) {
          case None =>
            assert kept + stay + [p] == kept + (stay + [p]);
            stay := stay + [p];
          case Some(j) =>
            var y := pipelines[j];
            ghost var before := requests;
            requests := requests[y := Requeued(requests[y], p)];
            OneQueue(pipelines, before, j, requests[y]);
        }
        i := i + 1;
      }
      requests := requests[x := stay];
      OtherQueue(pipelines, requests, x, src);
    }

    /** The first loop of replace_config: move the servers that carry over into their new slots. */
    method Seat(ppold: array<Option<ServerId>>, ppnew: array<Option<ServerId>>, to: Config, ghost was: seq<ServerId>)
      requires ppold != ppnew && ppold.Length == |was| == |config.hosts| && ppnew.Length == |to.hosts|
      requires forall i :: 0 <= i < |was| ==> ppold[i] == Some(was[i]) && was[i] in index && index[was[i]] == i
      requires NoDup(was) && forall j :: 0 <= j < ppnew.Length ==> ppnew[j] == None
      modifies this`index, ppold, ppnew
      ensures index.Keys == old(index).Keys
      ensures ppnew[..] == Placed(was, config, to, |was|)
      ensures forall i :: 0 <= i < |was| ==> ppold[i] == if NewIndex(config, to, i) >= 0 then None else Some(was[i])
    {
      hide Placed;
      PlacedNone(was, config, to);
      assert ppnew[..] == seq<Option<ServerId>>(|to.hosts|, _ => None);
      var ii := 0;
      while ii < ppold.Length
        invariant ii <= ppold.Length && index.Keys == old(index).Keys
        invariant ppnew[..] == Placed(was, config, to, ii)
        invariant forall i :: 0 <= i < ii ==> ppold[i] == if NewIndex(config, to, i) >= 0 then None else Some(was[i])
        invariant forall i :: ii <= i < |was| ==> ppold[i] == Some(was[i]) && index[was[i]] == i
      {
        var cur := ppold[ii].value;
        var newix := FindNewDataIndex(to, cur, ii);
        PlacedStep(was, config, to, ii);
        if newix > -1 {
          index := index[cur := newix];
          ppnew[newix] := Some(cur);
          ppold[ii] := None;
        }
        ii := ii + 1;
      }
    }

    /** find_new_data_index */
    method FindNewDataIndex(to: Config, server: ServerId, ghost ix: nat) returns (r: int)
      requires server in index && index[server] == ix && ix < |config.hosts|
      ensures r == NewIndex(config, to, ix)
    {
      var host := config.hosts[index[server]];
      if host.None? {
        return -1;
      }
      var ii := 0;
      assert to.hosts[0..] == to.hosts;
      while ii < |to.hosts|
        invariant ii <= |to.hosts| && host !in to.hosts[..ii]
      {
        if to.hosts[ii].Some? && to.hosts[ii] == host {
          FirstIsFirst(to.hosts, host.value, ii);
          return ii;
        }
        ii := ii + 1;
      }
      assert to.hosts[..|to.hosts|] == to.hosts;
      r := -1;
    }

    /** A new server that knows its slot and has no requests. */
    method MakeServer(slot: nat) returns (x: ServerId)
      modifies this`requests, this`index, this`next
      ensures x == old(next) && next == x + 1
      ensures requests == old(requests)[x := []] && index == old(index)[x := slot]
    {
      x := next;
      index := index[x := slot];
      requests := requests[x := []];
      next := next + 1;
    }

    /** The second loop: make a server for every slot that is still empty. */
    method Fill(ppnew: array<Option<ServerId>>)
      requires (forall x :: x in requests ==> x < next) && index.Keys == requests.Keys
      modifies this`requests, this`index, this`next, ppnew
      ensures next >= old(next) && (forall x :: x in requests ==> x < next) && index.Keys == requests.Keys
      ensures Grown(old(requests), requests)
      ensures forall j :: 0 <= j < ppnew.Length ==>
                old(ppnew[..])[j].None? ==> Filled(old(ppnew[..]), old(next))[j] in requests
      ensures forall j :: 0 <= j < ppnew.Length ==> ppnew[j] == Some(Filled(old(ppnew[..]), old(next))[j])
    {
      hide Filled, Grown, Half;
      ghost var slots := ppnew[..];
      ghost var done: seq<ServerId> := [];
      HalfStarts(slots, next);
      GrownNot(requests);
      var ii := 0;
      while ii < ppnew.Length
        invariant ii <= ppnew.Length && |done| == ii && next >= old(next) && Half(slots, old(next), ii, next, done)
        invariant forall j :: 0 <= j < ii ==> ppnew[j] == Some(done[j]) && (slots[j].None? ==> done[j] in requests)
        invariant forall j :: ii <= j < ppnew.Length ==> ppnew[j] == slots[j]
        invariant (forall x :: x in requests ==> x < next) && index.Keys == requests.Keys
        invariant Grown(old(requests), requests)
      {
        HalfStep(slots, old(next), ii, next, done);
        if ppnew[ii].None? {
          GrownOne(old(requests), requests, next);
          done := done + [next];
          var x := MakeServer(ii);
          ppnew[ii] := Some(x);
        } else {
          done := done + [slots[ii].value];
        }
        ii := ii + 1;
      }
      HalfEnds(slots, old(next), next, done);
    }

    /** Server::purge with MAP_CHANGED: every request left on the server fails. */
    method Purge(x: ServerId, strategy: Strategy)
      requires x in requests
      modifies this`requests, this`failed
      ensures requests == old(requests)[x := []] && failed == old(failed) + Failures(old(requests)[x])
    {
      var src := requests[x];
      var i := 0;
      while i < |src|
        invariant i <= |src| && requests == old(requests) && failed == old(failed) + Failures(src[..i])
      {
        PurgedOnMapChange(src[i], config.dist, SUCCESS, strategy);
        failed := failed + [Failure(src[i], PurgeStatus(src[i], config.dist, ERR_MAP_CHANGED, SUCCESS,
          strategy).value)];
        assert Failures(src[..i + 1]) == Failures(src[..i]) + [Failure(src[i], ERR_MAP_CHANGED)];
        i := i + 1;
      }
      assert src[..|src|] == src;
      requests := requests[x := []];
    }

    /** One server that was not carried over; `stay` is what could not be relocated. */
    method RetireOne(x: ServerId, strategy: Strategy, ghost kept: seq<Packet>) returns (ghost stay: seq<Packet>)
      requires x !in pipelines && x in requests && NoDup(pipelines) && forall y :: y in pipelines ==> y in requests
      modifies this`requests, this`failed, this`closed
      ensures requests.Keys == old(requests).Keys
      ensures forall y :: y in requests && y !in pipelines && y != x ==> requests[y] == old(requests)[y]
      ensures Wiped(Requests(pipelines, requests), kept + stay) ==
              ClusterMaps.Wipe(Wiped(Requests(pipelines, old(requests)), kept), old(requests)[x], config, pipelines, x,
                strategy)
      ensures failed == old(failed) + Failures(stay) && closed == old(closed) + [x]
    {
      hide ClusterMaps.Wipe, Requests, Failures;
      Wipe(x, strategy, kept);
      stay := requests[x];
      OtherQueue(pipelines, requests, x, []);
      Purge(x, strategy);
      closed := closed + [x];
    }

    /** The third loop of replace_config: relocate, purge and close what was not carried over. */
    method Retire(ppold: array<Option<ServerId>>, from: Config, strategy: Strategy, ghost was: seq<ServerId>)
        returns (ghost kept: seq<Packet>)
      requires ppold.Length == |was| == |from.hosts| && NoDup(was) && NoDup(pipelines) && |pipelines| == |config.hosts|
      requires (forall x :: x in pipelines ==> x in requests) && (forall x :: x in was ==> x in requests)
      requires forall i :: 0 <= i < |was| ==> ppold[i] == if NewIndex(from, config, i) >= 0 then None else Some(was[i])
      requires forall i :: 0 <= i < |was| && ppold[i].Some? ==> was[i] !in pipelines
      modifies this`requests, this`failed, this`closed
      ensures requests.Keys == old(requests).Keys
      ensures forall x :: x in Dropped(was, from, config, |was|) ==> x in old(requests)
      ensures Wiped(Requests(pipelines, requests), kept) ==
              WipeAll(Wiped(Requests(pipelines, old(requests)), []), Dropped(was, from, config, |was|), old(requests),
                config, pipelines, strategy)
      ensures failed == old(failed) + Failures(kept) && closed == old(closed) + Dropped(was, from, config, |was|)
    {
      hide ClusterMaps.Wipe, WipeAll, Dropped, NewIndex, Requests, Failures;
      kept := [];
      RetireNone(pipelines, requests, was, from, config, strategy);
      var ii := 0;
      while ii < ppold.Length
        invariant ii <= ppold.Length && requests.Keys == old(requests).Keys
        invariant forall x :: x in Dropped(was, from, config, ii) ==> x in old(requests)
        invariant Wiped(Requests(pipelines, requests), kept) ==
                  WipeAll(Wiped(Requests(pipelines, old(requests)), []), Dropped(was, from, config, ii), old(requests),
                    config, pipelines, strategy)
        invariant failed == old(failed) + Failures(kept) && closed == old(closed) + Dropped(was, from, config, ii)
        invariant forall i :: ii <= i < |was| && ppold[i].Some? ==> requests[was[i]] == old(requests)[was[i]]
      {
        DroppedStep(was, from, config, ii);
        if ppold[ii].Some? {
          var x := ppold[ii].value;
          WipeAllSnoc(Wiped(Requests(pipelines, old(requests)), []), Dropped(was, from, config, ii), x, old(requests),
            config, pipelines, strategy);
          ghost var stay := RetireOne(x, strategy, kept);
          FailuresMore(kept, stay);
          kept := kept + stay;
        }
        ii := ii + 1;
      }
    }

    /** mcreq_queue_add_pipelines: install the new array and number its servers. */
    method AddPipelines(ppnew: array<Option<ServerId>>, to: Config, ghost pipes: seq<ServerId>)
      requires ppnew.Length == |pipes| == |to.hosts| && forall j :: 0 <= j < |pipes| ==> ppnew[j] == Some(pipes[j])
      requires NoDup(pipes) && forall x :: x in pipes ==> x in index
      modifies this`config, this`pipelines, this`index
      ensures config == to && pipelines == pipes && index.Keys == old(index).Keys
      ensures forall j :: 0 <= j < |pipes| ==> index[pipes[j]] == j
    {
      config, pipelines := to, [];
      var ii := 0;
      while ii < ppnew.Length
        invariant ii <= ppnew.Length && config == to && pipelines == pipes[..ii] && index.Keys == old(index).Keys
        invariant forall j :: 0 <= j < ii ==> index[pipes[j]] == j
      {
        var x := ppnew[ii].value;
        pipelines := pipelines + [x];
        index := index[x := ii];
        ii := ii + 1;
      }
    }

    /** The last loop of replace_config: start a flush on every server that has requests. */
    method FlushPending()
      requires forall x :: x in pipelines ==> x in requests
      modifies this`flushed
      ensures flushed == old(flushed) + Pending(pipelines, requests)
    {
      hide Pending;
      PendingNone(requests);
      var ii := 0;
      while ii < |pipelines|
        invariant ii <= |pipelines| && flushed == old(flushed) + Pending(pipelines[..ii], requests)
      {
        PendingStep(pipelines, requests, ii);
        if requests[pipelines[ii]] != [] {
          flushed := flushed + [pipelines[ii]];
        }
        ii := ii + 1;
      }
      assert pipelines[..|pipelines|] == pipelines;
    }

    /**
     The first half of replace_config: the new array is built and installed; `ppold` holds what is left of the old
     one.
     */
    method Install(to: Config) returns (ppold: array<Option<ServerId>>)
      requires Valid()
      modifies this`config, this`pipelines, this`index, this`requests, this`next
      ensures Valid() && config == to && fresh(ppold) && ppold.Length == |old(pipelines)|
      ensures pipelines == Filled(Placed(old(pipelines), old(config), to, |old(pipelines)|), old(next))
      ensures forall x :: x in old(requests) ==> x in requests && requests[x] == old(requests)[x]
      ensures Requests(pipelines, requests) == Seated(old(pipelines), old(config), to, |old(pipelines)|, old(requests))
      ensures forall i :: 0 <= i < ppold.Length ==>
                ppold[i] == if NewIndex(old(config), to, i) >= 0 then None else Some(old(pipelines)[i])
      ensures forall i :: 0 <= i < ppold.Length && ppold[i].Some? ==> old(pipelines)[i] !in pipelines
    {
      hide Placed, NewIndex, Filled, Requests, Seated;
      var from, was := config, pipelines;
      ghost var reqs, first := requests, next;
      ppold := new Option<ServerId>[|was|](i requires 0 <= i < |was| => Some(was[i]));
      var ppnew := new Option<ServerId>[|to.hosts|](_ => None);
      Seat(ppold, ppnew, to, was);
      ghost var slots := ppnew[..];
      Fill(ppnew);
      PipesAre(was, from, to, reqs, requests, first);
      AddPipelines(ppnew, to, Filled(slots, first));
      SeatedRequests(was, from, to, reqs, requests, first);
    }

    /** replace_config; `kept` is what was left on the dropped servers when they were purged. */
    method ReplaceConfig(to: Config, strategy: Strategy) returns (ghost kept: seq<Packet>)
      requires Valid()
      modifies this
      ensures Valid() && config == to
      ensures pipelines == Filled(Placed(old(pipelines), old(config), to, |old(pipelines)|), old(next))
      ensures forall x :: x in Dropped(old(pipelines), old(config), to, |old(pipelines)|) ==> x in old(requests)
      ensures Wiped(Requests(pipelines, requests), kept) ==
              WipeAll(Wiped(Seated(old(pipelines), old(config), to, |old(pipelines)|, old(requests)), []),
                      Dropped(old(pipelines), old(config), to, |old(pipelines)|), old(requests), to, pipelines,
                        strategy)
      ensures Rehomed(old(pipelines), old(config), to, old(requests), Requests(pipelines, requests), kept)
      ensures DistinctHosts(old(config)) && DistinctHosts(to) ==>
        HostsKeep(old(pipelines), old(config), to, old(requests), old(next), pipelines)
      ensures failed == old(failed) + Failures(kept)
      ensures forall i :: 0 <= i < |kept| ==> failed[|old(failed)| + i] == Failure(kept[i], ERR_MAP_CHANGED)
      ensures closed == old(closed) + Dropped(old(pipelines), old(config), to, |old(pipelines)|)
      ensures flushed == old(flushed) + Pending(pipelines, requests)
    {
      hide Placed, Dropped, NewIndex, Filled, WipeAll, Requests, Seated, Pending, Failures, Rehomed, HostsKeep, NoDup;
      MapChangeRehomes(pipelines, config, to, requests, next, strategy);
      if DistinctHosts(config) && DistinctHosts(to) {
        MapChangeKeepsHosts(pipelines, config, to, requests, next);
      }
      var from, was := config, pipelines;
      ghost var reqs := requests;
      var ppold := Install(to);
      ghost var made := requests;
      kept := Retire(ppold, from, strategy, was);
      PlacedKnown(was, from, to, |was|, reqs);
      WipeAllSame(Wiped(Requests(pipelines, made), []), Dropped(was, from, to, |was|), reqs, made, to, pipelines,
        strategy);
      FlushPending();
      FailuresAre(kept);
    }
  }

  lemma FailuresAre(kept: seq<Packet>)
    ensures forall i :: 0 <= i < |kept| ==> Failures(kept)[i] == Failure(kept[i], ERR_MAP_CHANGED)
  {
  }

  /** The servers with requests, in order. */
  function Pending(pipes: seq<ServerId>, reqs: map<ServerId, seq<Packet>>): (r: seq<ServerId>)
    requires forall x :: x in pipes ==> x in reqs
    ensures forall x :: x in r <==> x in pipes && reqs[x] != []
  {
    if pipes == [] then []
    else
      var n := |pipes| - 1;
      assert pipes == pipes[..n] + [pipes[n]];
      Pending(pipes[..n], reqs) + if reqs[pipes[n]] != [] then [pipes[n]] else []
  }

  /** The servers with requests are flushed in the order of the array. */
  lemma {:induction false} PendingAlong(pipes: seq<ServerId>, reqs: map<ServerId, seq<Packet>>)
    requires NoDup(pipes) && forall x :: x in pipes ==> x in reqs
    ensures Along(Pending(pipes, reqs), pipes)
  {
    hide Along, NoDup;
    if pipes == [] {
      AlongNone([]);
    } else {
      var n := |pipes| - 1;
      var r := Pending(pipes[..n], reqs);
      NotBefore(pipes, n);
      PendingAlong(pipes[..n], reqs);
      AlongMore(r, pipes[..n], pipes[n]);
      assert pipes == pipes[..n] + [pipes[n]] && r + [] == r;
    }
  }

  lemma PendingNone(reqs: map<ServerId, seq<Packet>>)
    ensures Pending([], reqs) == []
  {
  }

  lemma PendingStep(pipes: seq<ServerId>, reqs: map<ServerId, seq<Packet>>, n: nat)
    requires n < |pipes| && forall x :: x in pipes ==> x in reqs
    ensures Pending(pipes[..n + 1], reqs) == if reqs[pipes[n]] != [] then Pending(pipes[..n], reqs) + [pipes[n]]
      else Pending(pipes[..n], reqs)
  {
    assert pipes[..n + 1][..n] == pipes[..n];
  }

  /** The new array has no server twice, none of the dropped ones, and only servers that exist. */
  lemma PipesAre(was: seq<ServerId>, from: Config, to: Config, reqs: map<ServerId, seq<Packet>>,
      made: map<ServerId, seq<Packet>>, next: ServerId)
    requires |was| == |from.hosts| && NoDup(was) && (forall x :: x in was ==> x in reqs)
      && (forall x :: x in reqs ==> x < next)
    requires forall x :: x in reqs ==> x in made
    requires var p := Placed(was, from, to, |was|);
      forall j :: 0 <= j < |p| && p[j].None? ==> Filled(p, next)[j] in made
    ensures var pipes := Filled(Placed(was, from, to, |was|), next);
            && NoDup(pipes) && (forall x :: x in pipes ==> x in made)
            && (forall i :: 0 <= i < |was| && NewIndex(from, to, i) < 0 ==> was[i] !in pipes)
  {
    hide Placed, NewIndex, Filled;
    var p := Placed(was, from, to, |was|);
    var pipes := Filled(p, next);
    PlacedKnown(was, from, to, |was|, reqs);
    FilledAt(p, next);
    forall i, j | 0 <= i < j < |pipes| ensures pipes[i] != pipes[j] {
      SlotIsMatched(was, from, to, |was|, i);
      SlotIsMatched(was, from, to, |was|, j);
    }
    forall i | 0 <= i < |was| && NewIndex(from, to, i) < 0 ensures was[i] !in pipes {
      assert was[i] in was;
      forall j | 0 <= j < |pipes| ensures pipes[j] != was[i] {
        SlotIsMatched(was, from, to, |was|, j);
      }
    }
  }

  /** After the second loop the queues of the new array are the seated ones, and empty ones. */
  lemma SeatedRequests(was: seq<ServerId>, from: Config, to: Config, reqs: map<ServerId, seq<Packet>>,
      made: map<ServerId, seq<Packet>>, next: ServerId)
    requires |was| == |from.hosts| && (forall x :: x in was ==> x in reqs) && (forall x :: x in reqs ==> x < next)
    requires forall x :: x in reqs ==> x in made && made[x] == reqs[x]
    requires forall x :: x in made && x !in reqs ==> made[x] == []
    requires forall x :: x in Filled(Placed(was, from, to, |was|), next) ==> x in made
    ensures Requests(Filled(Placed(was, from, to, |was|), next), made) == Seated(was, from, to, |was|, reqs)
  {
    hide Placed, Filled;
    PlacedKnown(was, from, to, |was|, reqs);
    FilledAt(Placed(was, from, to, |was|), next);
  }

  lemma {:induction false} WipeAllSame(w: Wiped, dropped: seq<ServerId>, reqs: map<ServerId, seq<Packet>>,
      made: map<ServerId, seq<Packet>>, cfg: Config, pipes: seq<ServerId>, strategy: Strategy)
    requires |w.queues| == |pipes| && forall x :: x in dropped ==> x in reqs && x in made && made[x] == reqs[x]
    ensures WipeAll(w, dropped, made, cfg, pipes, strategy) == WipeAll(w, dropped, reqs, cfg, pipes, strategy)
    decreases dropped
  {
    hide ClusterMaps.Wipe;
    if dropped != [] {
      WipeAllSame(ClusterMaps.Wipe(w, reqs[dropped[0]], cfg, pipes, dropped[0], strategy), dropped[1..], reqs, made,
        cfg, pipes, strategy);
    }
  }

  /** lcb_vbguess_newconfig: overlay the guesses on the masters of a new map, both in place. */
  method OverlayGuesses(masters: array<int>, guesses: array<Guess>, now: int)
    requires guesses.Length == masters.Length
    modifies masters, guesses
    ensures forall i :: 0 <= i < masters.Length ==>
      (guesses[i], masters[i]) == Overlaid(old(guesses[i]), old(masters[i]), now)
  {
    var ii := 0;
    while ii < masters.Length
      invariant ii <= masters.Length
      invariant forall i :: 0 <= i < ii ==> (guesses[i], masters[i]) == Overlaid(old(guesses[i]), old(masters[i]), now)
      invariant forall i :: ii <= i < masters.Length ==> guesses[i] == old(guesses[i]) && masters[i] == old(masters[i])
    {
      var guess := guesses[ii];
      if guess.used {
        if KeepGuess(guess, masters[ii], now) {
          masters[ii] := guess.newix;
        } else {
          guesses[ii] := guess.(used := false);
        }
      }
      ii := ii + 1;
    }
  }

  lemma RetireNone(pipes: seq<ServerId>, reqs: map<ServerId, seq<Packet>>, was: seq<ServerId>, from: Config, to: Config,
      strategy: Strategy)
    requires |was| == |from.hosts| && |pipes| == |to.hosts| && forall x :: x in pipes ==> x in reqs
    ensures Dropped(was, from, to, 0) == [] && Failures([]) == []
    ensures WipeAll(Wiped(Requests(pipes, reqs), []), [], reqs, to, pipes, strategy) == Wiped(Requests(pipes, reqs), [])
  {
  }

  lemma DroppedStep(was: seq<ServerId>, from: Config, to: Config, n: nat)
    requires n < |was| == |from.hosts|
    ensures Dropped(was, from, to, n + 1) ==
            if NewIndex(from, to, n) < 0 then Dropped(was, from, to, n) + [was[n]] else Dropped(was, from, to, n)
  {
  }

  lemma FailuresMore(a: seq<Packet>, b: seq<Packet>)
    ensures Failures(a + b) == Failures(a) + Failures(b)
  {
  }

  /** The servers that were there kept their requests; the others have none. */
  ghost predicate Grown(was: map<ServerId, seq<Packet>>, now: map<ServerId, seq<Packet>>) {
    && (forall x :: x in was ==> x in now && now[x] == was[x])
    && (forall x :: x in now && x !in was ==> now[x] == [])
  }

  lemma GrownNot(was: map<ServerId, seq<Packet>>)
    ensures Grown(was, was)
  {
  }

  lemma GrownOne(was: map<ServerId, seq<Packet>>, now: map<ServerId, seq<Packet>>, x: ServerId)
    requires Grown(was, now) && x !in now
    ensures Grown(was, now[x := []])
  {
  }

  /** The first `ii` slots are filled with `done`, and `next` numbers the servers still to be made. */
  ghost predicate Half(slots: seq<Option<ServerId>>, first: ServerId, ii: nat, next: ServerId, done: seq<ServerId>) {
    ii <= |slots| && Filled(slots, first) == done + Filled(slots[ii..], next)
  }

  lemma HalfStarts(slots: seq<Option<ServerId>>, next: ServerId)
    ensures Half(slots, next, 0, next, [])
  {
    assert slots[0..] == slots;
  }

  lemma HalfStep(slots: seq<Option<ServerId>>, first: ServerId, ii: nat, next: ServerId, done: seq<ServerId>)
    requires Half(slots, first, ii, next, done) && ii < |slots|
    ensures if slots[ii].None? then Half(slots, first, ii + 1, next + 1, done + [next])
            else Half(slots, first, ii + 1, next, done + [slots[ii].value])
  {
    assert slots[ii..][0] == slots[ii] && slots[ii..][1..] == slots[ii + 1..];
  }

  lemma HalfEnds(slots: seq<Option<ServerId>>, first: ServerId, next: ServerId, done: seq<ServerId>)
    requires Half(slots, first, |slots|, next, done)
    ensures Filled(slots, first) == done
  {
    assert slots[|slots|..] == [];
  }

  lemma PlacedNone(was: seq<ServerId>, from: Config, to: Config)
    requires |was| == |from.hosts|
    ensures Placed(was, from, to, 0) == seq(|to.hosts|, _ => None)
  {
  }

  lemma PlacedStep(was: seq<ServerId>, from: Config, to: Config, n: nat)
    requires n < |was| == |from.hosts|
    ensures var j := NewIndex(from, to, n);
            Placed(was, from, to, n + 1) == if j >= 0 then Placed(was, from, to, n)[j := Some(was[n])]
              else Placed(was, from, to, n)
  {
  }

  lemma FirstIsFirst(hosts: seq<Option<string>>, h: string, k: nat)
    requires k < |hosts| && hosts[k] == Some(h) && Some(h) !in hosts[..k]
    ensures FirstWith(hosts, h) == k
  {
    assert forall i :: 0 <= i < k ==> hosts[..k][i] == hosts[i];
    var r := FirstWith(hosts, h);
    assert r >= 0 ==> forall i :: 0 <= i < r ==> hosts[..r][i] == hosts[i];
  }

  lemma OneQueue(pipes: seq<ServerId>, reqs: map<ServerId, seq<Packet>>, j: nat, q: seq<Packet>)
    requires NoDup(pipes) && j < |pipes| && forall y :: y in pipes ==> y in reqs
    ensures Requests(pipes, reqs[pipes[j] := q]) == Requests(pipes, reqs)[j := q]
  {
  }

  lemma OtherQueue(pipes: seq<ServerId>, reqs: map<ServerId, seq<Packet>>, x: ServerId, q: seq<Packet>)
    requires x !in pipes && forall y :: y in pipes ==> y in reqs
    ensures Requests(pipes, reqs[x := q]) == Requests(pipes, reqs)
  {
  }
}
