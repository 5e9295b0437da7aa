/**
 What one flush of the retry queue does to each operation and each pipeline.
 */
module RetryFlush {
  import opened Common
  import opened IntrusiveList
  import opened RetryErrors
  import opened RetryQueues
  import opened Statuses

  /** An operation that will ask the config monitor: not expired, due, and without a master. */
  predicate Asks(op: Op, now: int, throttle: bool, c: Cluster, npipes: nat) {
    op.deadline > now && Due(op, now, throttle) && !Hosted(op, c, npipes)
  }

  /** How many operations in front of `x` ask the config monitor. */
  function Ahead(t: map<OpId, Op>, s: seq<OpId>, x: OpId, now: int, throttle: bool, c: Cluster, npipes: nat): nat
    requires Known(t, s)
  {
    if s == [] || s[0] == x then 0
    else
      (if Asks(t[s[0]], now, throttle, c, npipes) then 1 else 0) + Ahead(t, s[1..], x, now, throttle, c, npipes)
  }

  lemma {:induction false} AheadSame(
    t: map<OpId, Op>, t': map<OpId, Op>, s: seq<OpId>, x: OpId, now: int, throttle: bool, c: Cluster, npipes: nat)
    requires Known(t, s) && Known(t', s) && forall y :: y in s ==> t'[y] == t[y]
    ensures Ahead(t', s, x, now, throttle, c, npipes) == Ahead(t, s, x, now, throttle, c, npipes)
  {
    if s != [] && s[0] != x {
      AheadSame(t, t', s[1..], x, now, throttle, c, npipes);
    }
  }

  /** The answer of the config monitor that decides about an operation without a master. */
  predicate KeptAt(c: Cluster, n: nat) {
    c.retryMissing || c.refreshing(n)
  }

  /** Whether an operation without a master is set aside is decided by its place among those that ask. */
  lemma {:induction false} RetryKeepsIff(p: Pass, now: int, throttle: bool, c: Cluster, x: OpId)
    requires Valid(p.q) && Apart(p) && Unplaced(p.q, x, now, throttle, c)
    requires forall y :: y in p.q.sched ==> p.q.table[y].deadline > now
    ensures x in Retry(p, now, throttle, c).moved <==>
            KeptAt(c, p.miss + Ahead(p.q.table, p.q.sched, x, now, throttle, c, |p.q.pipes|))
    decreases |p.q.sched|
  {
    hide Valid, RetryHead, Retry, Due, Hosted;
    var q, h, r := p.q, p.q.sched[0], RetryHead(p, now, c);
    RetryStep(p, now, throttle, c, x);
    if h == x {
      RetryMovedGrows(r, now, throttle, c);
    } else {
      RetryKeepsIff(r, now, throttle, c, x);
      AheadSame(q.table, r.q.table, q.sched[1..], x, now, throttle, c, |q.pipes|);
    }
  }

  /** The round in front of an operation that is due: the loop goes on, and what is behind the head is untouched. */
  lemma RetryStep(p: Pass, now: int, throttle: bool, c: Cluster, x: OpId)
    requires Valid(p.q) && Apart(p) && x in p.q.sched && Due(p.q.table[x], now, throttle)
    ensures var q, h, r := p.q, p.q.sched[0], RetryHead(p, now, c);
            && Valid(r.q) && Retry(p, now, throttle, c) == Retry(r, now, throttle, c) && r.q.sched == q.sched[1..]
            && (forall y :: y in r.q.sched ==> y in q.sched && y in r.q.table && r.q.table[y] == q.table[y])
            && Due(q.table[h], now, throttle) && |r.q.pipes| == |q.pipes| && h !in r.q.sched
              && (x == h || x in r.q.sched)
            && r.miss == p.miss + (if Hosted(q.table[h], c, |q.pipes|) then 0 else 1)
            && (h in r.moved <==> !Hosted(q.table[h], c, |q.pipes|) && KeptAt(c, p.miss))
  {
    hide InOrder, Without, Census, RetryHead, Due, Hosted, Again;
    HeadsFirst(p.q);
    DueTogether(p.q.table[p.q.sched[0]], p.q.table[x], now, throttle);
    RetryHeadKeeps(p, now, c);
    RetryHeadTail(p, now, c);
  }

  lemma DueTogether(a: Op, b: Op, now: int, throttle: bool)
    requires a.trytime <= b.trytime && Due(b, now, throttle)
    ensures Due(a, now, throttle)
  {
  }

  /** One round takes the head off and counts the question it asked, if any. */
  lemma RetryHeadTail(p: Pass, now: int, c: Cluster)
    requires Apart(p) && p.q.sched != []
    ensures var r := RetryHead(p, now, c);
            && r.q.sched == p.q.sched[1..] && |r.q.pipes| == |p.q.pipes|
            && r.miss == p.miss + (if Hosted(p.q.table[p.q.sched[0]], c, |p.q.pipes|) then 0 else 1)
  {
    WithoutMembers(p.q.sched, p.q.sched[0]);
  }

  /** What was set aside stays set aside, and what has left the list is not set aside any more. */
  lemma {:induction false} RetryMovedGrows(p: Pass, now: int, throttle: bool, c: Cluster)
    requires Valid(p.q) && Apart(p)
    ensures forall x :: x in Retry(p, now, throttle, c).moved ==> x in p.moved || x in p.q.sched
    ensures forall x :: x in p.moved ==> x in Retry(p, now, throttle, c).moved
    decreases |p.q.sched|
  {
    hide InOrder, Without, Census, RetryHead;
    if p.q.sched != [] && Due(p.q.table[p.q.sched[0]], now, throttle) {
      RetryHeadKeeps(p, now, c);
      RetryMovedGrows(RetryHead(p, now, c), now, throttle, c);
    }
  }

  /** The operations that have not expired, in order. */
  function Alive(t: map<OpId, Op>, s: seq<OpId>, now: int): (r: seq<OpId>)
    requires Known(t, s)
    ensures forall x :: x in r <==> x in s && t[x].deadline > now
  {
    if s == [] then []
    else
      assert s == [s[0]] + s[1..];
      (if t[s[0]].deadline > now then [s[0]] else []) + Alive(t, s[1..], now)
  }

  lemma {:induction false} AliveWithout(t: map<OpId, Op>, t': map<OpId, Op>, s: seq<OpId>, x: OpId, now: int)
    requires Known(t, s) && Known(t', s) && x in s && NoDup(s) && t[x].deadline <= now
    requires forall y :: y in s ==> t'[y].deadline == t[y].deadline
    ensures Known(t', Without(s, x)) && Alive(t', Without(s, x), now) == Alive(t, s, now)
  {
    hide Without;
    WithoutMembers(s, x);
    if s[0] == x {
      AliveSame(t, t', s[1..], now);
    } else {
      AliveWithout(t, t', s[1..], x, now);
      WithoutTail(s, x);
    }
  }

  lemma WithoutTail(s: seq<OpId>, x: OpId)
    requires x in s && s[0] != x
    ensures x in s[1..] && Without(s, x) == [s[0]] + Without(s[1..], x)
  {
    assert s == [s[0]] + s[1..];
  }

  lemma {:induction false} AliveSame(t: map<OpId, Op>, t': map<OpId, Op>, s: seq<OpId>, now: int)
    requires Known(t, s) && Known(t', s) && forall y :: y in s ==> t'[y].deadline == t[y].deadline
    ensures Alive(t', s, now) == Alive(t, s, now)
  {
    if s != [] {
      AliveSame(t, t', s[1..], now);
    }
  }

  /** The first loop leaves the others in their order. */
  lemma {:induction false} ExpireFilters(q: Queue, now: int)
    requires Valid(q)
    ensures Expire(q, now).sched == Alive(q.table, q.sched, now)
    decreases |q.tmo|
  {
    hide InOrder, Without, Census;
    EmptyTogether(q);
    if q.sched != [] {
      HeadsFirst(q);
      var x := q.tmo[0];
      if q.table[x].deadline <= now {
        var r := Fail(q, x, ERR_TIMEOUT);
        FailKeeps(q, x, ERR_TIMEOUT);
        ExpireFilters(r, now);
        AliveWithout(q.table, r.table, q.sched, x, now);
      } else {
        AllAlive(q.table, q.sched, now);
      }
    }
  }

  lemma {:induction false} AllAlive(t: map<OpId, Op>, s: seq<OpId>, now: int)
    requires Known(t, s) && forall y :: y in s ==> t[y].deadline > now
    ensures Alive(t, s, now) == s
  {
    if s != [] {
      AllAlive(t, s[1..], now);
    }
  }

  /** Expired operations ask nothing. */
  lemma {:induction false} AheadAlive(t: map<OpId, Op>, s: seq<OpId>, x: OpId, now: int, throttle: bool, c: Cluster,
      npipes: nat)
    requires Known(t, s) && x in s && t[x].deadline > now
    ensures Known(t, Alive(t, s, now))
    ensures Ahead(t, Alive(t, s, now), x, now, throttle, c, npipes) == Ahead(t, s, x, now, throttle, c, npipes)
  {
    hide Due, Hosted;
    var a := Alive(t, s, now);
    if s[0] != x {
      AheadAlive(t, s[1..], x, now, throttle, c, npipes);
      assert t[s[0]].deadline > now ==> a[0] == s[0] && a[1..] == Alive(t, s[1..], now);
      assert t[s[0]].deadline <= now ==> a == Alive(t, s[1..], now);
    }
  }

  lemma {:induction false} ReaddKeeps(q: Queue, moved: seq<OpId>)
    requires Valid(q) && Apart(Pass(q, moved, 0))
    ensures var r := Readd(q, moved);
            && Valid(r) && Census(r) == Census(q) + multiset(moved)
            && (forall x :: x in r.sched <==> x in q.sched || x in moved)
            && r.table == q.table && r.pipes == q.pipes && r.answers == q.answers
    decreases moved
  {
    hide InOrder, Census, InsertAt, Slot;
    if moved != [] {
      assert moved[0] in moved && moved == [moved[0]] + moved[1..];
      EnlistKeeps(q, moved[0]);
      ReaddKeeps(Enlist(q, moved[0]), moved[1..]);
    }
  }

  /** flush keeps the twin lists, loses and duplicates nothing, and leaves nothing expired in the queue. */
  lemma {:induction false} FlushConserves(q: Queue, now: int, throttle: bool, c: Cluster)
    requires Valid(q)
    ensures var r := Flush(q, now, throttle, c);
            && Valid(r) && Census(r) == Census(q)
            && (forall x :: x in r.sched ==> x in q.sched && r.table[x].deadline > now)
            && (forall x :: x in r.sched && !throttle ==> Again(q.table[x], r.table[x], now, c))
  {
    hide InOrder, Census, Retry, Readd, Expire;
    var e := Expire(q, now);
    ExpireTakesExpired(q, now);
    var p := Pass(e, [], 0);
    RetryTakesDue(p, now, throttle, c);
    AllSetAside(p, now, throttle, c);
    var r := Retry(p, now, throttle, c);
    ReaddKeeps(r.q, r.moved);
  }

  lemma {:induction false} PipedCount(a: seq<seq<OpId>>, b: seq<seq<OpId>>, x: OpId, k: int)
    requires |a| == |b| && forall i :: 0 <= i < |a| ==> multiset(b[i])[x] == multiset(a[i])[x] + One(i == k)
    ensures Piped(b)[x] == Piped(a)[x] + One(0 <= k < |a|)
  {
    if a != [] {
      forall i | 0 <= i < |a| - 1 ensures multiset(b[1..][i])[x] == multiset(a[1..][i])[x] + One(i == k - 1) {
        assert multiset(b[i + 1])[x] == multiset(a[i + 1])[x] + One(i + 1 == k);
      }
      PipedCount(a[1..], b[1..], x, k - 1);
    }
  }

  /** How often operation `x` was newly enqueued on the pipelines, all together. */
  ghost function SentTimes(q: Queue, r: Queue, x: OpId): int {
    Piped(r.pipes)[x] as int - Piped(q.pipes)[x] as int
  }

  /** How often operation `x` was newly answered. */
  ghost function AnsweredTimes(q: Queue, r: Queue, x: OpId): int {
    Answered(r.answers)[x] as int - Answered(q.answers)[x] as int
  }

  /** What a flush enqueues, pipeline by pipeline, is what the map says for the operations it reaches. */
  lemma {:induction false} FlushRoutes(q: Queue, now: int, throttle: bool, c: Cluster, x: OpId)
    requires Valid(q)
    ensures var r := Flush(q, now, throttle, c);
            && |r.pipes| == |q.pipes|
            && (forall i :: 0 <= i < |q.pipes| ==> q.pipes[i] <= r.pipes[i])
            && (forall i :: 0 <= i < |q.pipes| ==>
              multiset(r.pipes[i])[x] == multiset(q.pipes[i])[x] +
                One(x in q.sched && q.table[x].deadline > now && GoesTo(q, x, i, now, throttle, c)))
  {
    hide InOrder, Census, Retry, Readd, Expire;
    var p := Pass(Expire(q, now), [], 0);
    ExpireTakesExpired(q, now);
    RetryTakesDue(p, now, throttle, c);
    var r := Retry(p, now, throttle, c);
    ReaddKeeps(r.q, r.moved);
    RetryPipes(p, now, throttle, c);
    forall i | 0 <= i < |q.pipes|
      ensures q.pipes[i] <= r.q.pipes[i]
      ensures multiset(r.q.pipes[i])[x] == multiset(q.pipes[i])[x] + One(GoesTo(p.q, x, i, now, throttle, c))
    {
      RetryRoutes(p, now, throttle, c, i, x);
    }
  }

  /** The operations that a flush sends to pipeline `i`, in scheduling order. */
  ghost function Routed(t: map<OpId, Op>, s: seq<OpId>, i: int, now: int, throttle: bool, c: Cluster): seq<OpId>
    requires Known(t, s)
  {
    if s == [] then []
    else
      var op, rest := t[s[0]], Routed(t, s[1..], i, now, throttle, c);
      if op.deadline > now && !(throttle && op.trytime > now + 5_000_000) && c.master(op.vbucket) == i
      then [s[0]] + rest else rest
  }

  lemma {:induction false} RoutedSame(t: map<OpId, Op>, t': map<OpId, Op>, s: seq<OpId>, i: int, now: int,
      throttle: bool, c: Cluster)
    requires Known(t, s) && Known(t', s) && forall y :: y in s ==> t'[y] == t[y]
    ensures Routed(t', s, i, now, throttle, c) == Routed(t, s, i, now, throttle, c)
  {
    if s != [] {
      RoutedSame(t, t', s[1..], i, now, throttle, c);
    }
  }

  lemma {:induction false} RoutedNone(t: map<OpId, Op>, s: seq<OpId>, i: int, now: int, throttle: bool, c: Cluster)
    requires Known(t, s) && throttle && forall y :: y in s ==> t[y].trytime > now + 5_000_000
    ensures Routed(t, s, i, now, throttle, c) == []
  {
    if s != [] {
      RoutedNone(t, s[1..], i, now, throttle, c);
    }
  }

  /** Expired operations are not sent. */
  lemma {:induction false} RoutedAlive(t: map<OpId, Op>, s: seq<OpId>, i: int, now: int, throttle: bool, c: Cluster)
    requires Known(t, s)
    ensures Known(t, Alive(t, s, now))
    ensures Routed(t, Alive(t, s, now), i, now, throttle, c) == Routed(t, s, i, now, throttle, c)
  {
    if s != [] {
      RoutedAlive(t, s[1..], i, now, throttle, c);
      var a := Alive(t, s, now);
      assert t[s[0]].deadline > now ==> a[0] == s[0] && a[1..] == Alive(t, s[1..], now);
      assert t[s[0]].deadline <= now ==> a == Alive(t, s[1..], now);
    }
  }

  /** One round of the second loop. */
  lemma SendsStep(p: Pass, now: int, throttle: bool, c: Cluster, i: nat)
    requires Valid(p.q) && Apart(p) && p.q.sched != [] && i < |p.q.pipes|
    requires p.q.table[p.q.sched[0]].deadline > now && Due(p.q.table[p.q.sched[0]], now, throttle)
    ensures var q, r := p.q, RetryHead(p, now, c).q;
            && |r.pipes| == |q.pipes| && Known(r.table, q.sched[1..]) && r.sched == q.sched[1..]
            && r.pipes[i] + Routed(r.table, q.sched[1..], i, now, throttle, c) ==
               q.pipes[i] + Routed(q.table, q.sched, i, now, throttle, c)
  {
    hide InOrder, Census, RetryHead, Again, Unserved;
    var q, r := p.q, RetryHead(p, now, c).q;
    RetryHeadKeeps(p, now, c);
    RetryHeadTail(p, now, c);
    RoutedSame(q.table, r.table, q.sched[1..], i, now, throttle, c);
  }

  /** The second loop appends to a pipeline exactly what is routed there, in order. */
  lemma {:induction false} RetrySends(p: Pass, now: int, throttle: bool, c: Cluster, i: nat)
    requires Valid(p.q) && Apart(p) && i < |p.q.pipes|
    requires forall y :: y in p.q.sched ==> p.q.table[y].deadline > now
    ensures |Retry(p, now, throttle, c).q.pipes| == |p.q.pipes|
    ensures Retry(p, now, throttle, c).q.pipes[i] ==
            p.q.pipes[i] + Routed(p.q.table, p.q.sched, i, now, throttle, c)
    decreases |p.q.sched|
  {
    hide InOrder, Census, RetryHead, Routed, Again, Unserved;
    var q := p.q;
    if q.sched == [] {
      RoutedNobody(q.table, i, now, throttle, c);
    } else if Due(q.table[q.sched[0]], now, throttle) {
      RetryHeadKeeps(p, now, c);
      SendsStep(p, now, throttle, c, i);
      RetrySends(RetryHead(p, now, c), now, throttle, c, i);
    } else {
      HeadsFirst(q);
      RoutedNone(q.table, q.sched, i, now, throttle, c);
    }
  }

  lemma RoutedNobody(t: map<OpId, Op>, i: int, now: int, throttle: bool, c: Cluster)
    ensures Routed(t, [], i, now, throttle, c) == []
  {
  }

  /** What a flush enqueues on a pipeline, in order: the unexpired due operations that the map sends there. */
  lemma {:induction false} FlushSends(q: Queue, now: int, throttle: bool, c: Cluster, i: nat)
    requires Valid(q) && i < |q.pipes|
    ensures |Flush(q, now, throttle, c).pipes| == |q.pipes|
    ensures Flush(q, now, throttle, c).pipes[i] == q.pipes[i] + Routed(q.table, q.sched, i, now, throttle, c)
  {
    hide InOrder, Census, Retry, Readd, Expire, Routed, Alive;
    var p := Pass(Expire(q, now), [], 0);
    ExpireTakesExpired(q, now);
    ExpireFilters(q, now);
    RoutedAlive(q.table, q.sched, i, now, throttle, c);
    RoutedSame(q.table, p.q.table, p.q.sched, i, now, throttle, c);
    RetrySends(p, now, throttle, c, i);
    RetryTakesDue(p, now, throttle, c);
    var r := Retry(p, now, throttle, c);
    ReaddKeeps(r.q, r.moved);
  }

  lemma {:induction false} RetryPipes(p: Pass, now: int, throttle: bool, c: Cluster)
    requires Valid(p.q) && Apart(p)
    ensures |Retry(p, now, throttle, c).q.pipes| == |p.q.pipes|
    decreases |p.q.sched|
  {
    hide InOrder, Without, Census, RetryHead;
    if p.q.sched != [] && Due(p.q.table[p.q.sched[0]], now, throttle) {
      RetryHeadKeeps(p, now, c);
      RetryPipes(RetryHead(p, now, c), now, throttle, c);
    }
  }

  /** Every response newly sent for `x` carries the status. */
  ghost predicate Told(q: Queue, r: Queue, x: OpId, status: Status) {
    forall i :: |q.answers| <= i < |r.answers| && r.answers[i].op == x ==> r.answers[i].status == status
  }

  /** What an expired operation reports: its own error, but not one that says less than a timeout. */
  ghost function Overdue(op: Op): Status {
    if op.origerr == SUCCESS || op.origerr == ERR_BUCKET_NOT_FOUND || (op.origstatus == 0xff && IsNetwork(op.origerr))
    then ERR_TIMEOUT else op.origerr
  }

  /**
   What one flush does to an operation that was queued, in terms of the clock, the map and the settings: it is
   answered once, left alone, enqueued once on its master's pipeline, or tried again later.
   */
  ghost predicate Settled(q: Queue, r: Queue, now: int, throttle: bool, c: Cluster, x: OpId)
    requires Twin(q) && Twin(r) && x in q.sched
  {
    var op, srv := q.table[x], c.master(q.table[x].vbucket);
    if op.deadline <= now then
      x !in r.sched && AnsweredTimes(q, r, x) == 1 && SentTimes(q, r, x) == 0 && Told(q, r, x, Overdue(op))
    else if throttle && op.trytime > now + 5_000_000 then
      x in r.sched && r.table[x] == op && AnsweredTimes(q, r, x) == 0 && SentTimes(q, r, x) == 0
    else if 0 <= srv < |q.pipes| then
      && x !in r.sched && AnsweredTimes(q, r, x) == 0 && SentTimes(q, r, x) == 1
      && |r.pipes| == |q.pipes| && multiset(r.pipes[srv])[x] == multiset(q.pipes[srv])[x] + 1
    else if c.retryMissing || c.refreshing(Ahead(q.table, q.sched, x, now, throttle, c, |q.pipes|)) then
      x in r.sched && Again(op, r.table[x], now, c) && AnsweredTimes(q, r, x) == 0 && SentTimes(q, r, x) == 0
    else
      && x !in r.sched && AnsweredTimes(q, r, x) == 1 && SentTimes(q, r, x) == 0
      && Told(q, r, x, ERR_NO_MATCHING_SERVER)
  }

  /** Where flush sends one operation: the cases exclude each other and each happens exactly once. */
  lemma {:induction false} FlushOutcome(q: Queue, now: int, throttle: bool, c: Cluster, x: OpId)
    requires Valid(q) && x in q.sched
    ensures Settled(q, Flush(q, now, throttle, c), now, throttle, c, x)
  {
    hide InOrder, Flush, Piped, Answered, Ahead;
    var r, op := Flush(q, now, throttle, c), q.table[x];
    FlushConserves(q, now, throttle, c);
    FlushRoutes(q, now, throttle, c, x);
    FlushPlaces(q, now, throttle, c, x);
    FlushTells(q, now, throttle, c, x);
    var to := op.deadline > now && Due(op, now, throttle) && Hosted(op, c, |q.pipes|);
    PipedCount(q.pipes, r.pipes, x, if to then c.master(op.vbucket) else -1);
    assert Census(r)[x] == Census(q)[x];
    OnceCounted(q.sched, x);
    OnceCounted(r.sched, x);
  }

  /** The statuses flush answers with. */
  lemma {:induction false} FlushTells(q: Queue, now: int, throttle: bool, c: Cluster, x: OpId)
    requires Valid(q) && x in q.sched
    ensures Told(q, Flush(q, now, throttle, c), x,
              if q.table[x].deadline <= now then Overdue(q.table[x]) else ERR_NO_MATCHING_SERVER)
  {
    hide InOrder, Census, Retry, Readd, Expire, Due, Hosted;
    var p := Pass(Expire(q, now), [], 0);
    ExpireTakesExpired(q, now);
    RetryTakesDue(p, now, throttle, c);
    RetryAnswers(p, now, throttle, c);
    var r := Retry(p, now, throttle, c);
    ReaddKeeps(r.q, r.moved);
    assert forall i :: |q.answers| <= i < |p.q.answers| ==> r.q.answers[i] == p.q.answers[i];
  }

  /** After every flush whatever is queued is neither expired nor overdue for another try. */
  lemma {:induction false} FlushLeavesFuture(q: Queue, now: int, throttle: bool, c: Cluster)
    requires Valid(q)
    ensures var r := Flush(q, now, throttle, c);
            forall x :: x in r.sched ==> x in q.sched && r.table[x].trytime >= now && r.table[x].deadline > now
  {
    hide InOrder, Flush, Ahead, Told, AnsweredTimes, SentTimes;
    FlushConserves(q, now, throttle, c);
    var r := Flush(q, now, throttle, c);
    forall x | x in r.sched ensures r.table[x].trytime >= now {
      FlushOutcome(q, now, throttle, c, x);
    }
  }

  /** flush as a whole, operation by operation and pipeline by pipeline. */
  lemma {:induction false} FlushSettles(q: Queue, now: int, throttle: bool, c: Cluster)
    requires Valid(q)
    ensures var r := Flush(q, now, throttle, c);
            && Twin(r) && |r.pipes| == |q.pipes|
            && (forall x :: x in q.sched ==> Settled(q, r, now, throttle, c, x))
            && (forall i :: 0 <= i < |q.pipes| ==>
                  r.pipes[i] == q.pipes[i] + Routed(q.table, q.sched, i, now, throttle, c))
  {
    hide InOrder, Flush, Settled, Routed;
    FlushConserves(q, now, throttle, c);
    FlushRoutes(q, now, throttle, c, 0);
    forall x | x in q.sched ensures Settled(q, Flush(q, now, throttle, c), now, throttle, c, x) {
      FlushOutcome(q, now, throttle, c, x);
    }
    forall i | 0 <= i < |q.pipes|
      ensures Flush(q, now, throttle, c).pipes[i] == q.pipes[i] + Routed(q.table, q.sched, i, now, throttle, c)
    {
      FlushSends(q, now, throttle, c, i);
    }
  }

  lemma {:induction false} OnceCounted(s: seq<OpId>, x: OpId)
    requires NoDup(s)
    ensures multiset(s)[x] == One(x in s)
  {
    if s != [] {
      assert s == [s[0]] + s[1..];
      OnceCounted(s[1..], x);
    }
  }

  /** Whether an operation is still queued after flush, and its record if it is. */
  lemma {:induction false} FlushPlaces(q: Queue, now: int, throttle: bool, c: Cluster, x: OpId)
    requires Valid(q) && x in q.sched
    ensures var r, op := Flush(q, now, throttle, c), q.table[x];
            && (op.deadline <= now ==> x !in r.sched)
            && (op.deadline > now && !Due(op, now, throttle) ==> x in r.sched && r.table[x] == op)
            && (op.deadline > now && Due(op, now, throttle) && Hosted(op, c, |q.pipes|) ==> x !in r.sched)
            && (op.deadline > now && Due(op, now, throttle) && x in r.sched ==> Again(op, r.table[x], now, c))
            && (op.deadline > now && Due(op, now, throttle) && !Hosted(op, c, |q.pipes|) ==>
                  (x in r.sched <==> KeptAt(c, Ahead(q.table, q.sched, x, now, throttle, c, |q.pipes|))))
  {
    hide InOrder, Census, Retry, Readd, Expire, Due, Hosted, Ahead, KeptAt, Again, Alive;
    var p := Pass(Expire(q, now), [], 0);
    ExpireTakesExpired(q, now);
    if Asks(q.table[x], now, throttle, c, |q.pipes|) {
      ExpireFilters(q, now);
      AheadAlive(q.table, q.sched, x, now, throttle, c, |q.pipes|);
      AheadSame(q.table, p.q.table, p.q.sched, x, now, throttle, c, |q.pipes|);
      RetryKeepsIff(p, now, throttle, c, x);
    }
    RetryTakesDue(p, now, throttle, c);
    AllSetAside(p, now, throttle, c);
    var r := Retry(p, now, throttle, c);
    ReaddKeeps(r.q, r.moved);
  }

  /**
   A rescheduled operation has been retried once more than before, in its eight-bit counter,
   exactly if that counter was not at its largest value.
   */
  lemma {:induction false} RescheduledOnceMoreIff(q: Queue, now: int, throttle: bool, c: Cluster, x: OpId)
    requires Valid(q) && x in q.sched && x in Flush(q, now, throttle, c).sched && Due(q.table[x], now, throttle)
    ensures Flush(q, now, throttle, c).table[x].retries == q.table[x].retries + 1 <==> q.table[x].retries < 255
    ensures q.table[x].retries == 255 ==> Flush(q, now, throttle, c).table[x].retries == 0
  {
    hide Flush, Valid, Due;
    FlushPlaces(q, now, throttle, c, x);
  }

  /** An operation that has been retried 255 times is rescheduled as one that was never retried. */
  lemma RetriesWrap(c: Cluster)
    requires c.retryMissing
    ensures var q := Queue(map[7 := Op(0, 100, 0, 255, 0, 0, 0, 0)], [7], [7], [], []);
            Valid(q) && 7 in Flush(q, 50, false, c).sched && Flush(q, 50, false, c).table[7].retries == 0
  {
    hide Flush;
    var q := Queue(map[7 := Op(0, 100, 0, 255, 0, 0, 0, 0)], [7], [7], [], []);
    assert Valid(q) && q.sched[0] == 7;
    FlushPlaces(q, 50, false, c, 7);
  }
}
