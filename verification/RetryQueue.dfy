/**
 The retry queue of src/retryq.cc.

 Every queued operation sits in two lists at once: `sched`, ordered by the next
 time to try it, and `tmo`, ordered by the time it expires.  The lists are the
 ones of module IntrusiveList, seen as the sequences of their owners.  An operation
 is one record of `table`, so that a field changed through one list is changed in
 the other; its packet is identified with it.
 */
module RetryQueues {
  import opened Common
  import opened IntrusiveList
  import opened RetryErrors
  import opened Statuses

  const TIMEFUZZ_NS := 5_000_000

  type OpId = nat

  /** RetryOp together with the fields of its packet that the queue reads. */
  datatype Op = Op(
    start: int,
    deadline: int,
    trytime: int,
    retries: Retries,
    vbucket: nat,
    origerr: Status,
    origstatus: int,
    spec: nat)       // identifies the errmap::RetrySpec; 0 for none

  datatype Answer = Answer(op: OpId, status: Status)

  datatype Queue = Queue(
    table: map<OpId, Op>,
    sched: seq<OpId>,
    tmo: seq<OpId>,
    pipes: seq<seq<OpId>>,     // what was enqueued on each pipeline
    answers: seq<Answer>)      // what was dispatched with an error

  /** What flush() asks of the rest of the library. */
  datatype Cluster = Cluster(
    master: nat -> int,               // lcbvb_vbmaster of the current map
    refreshing: nat -> bool,          // is_refreshing() at the n-th missing server of one flush
    retryMissing: bool,               // settings->retry[LCB_RETRY_ON_MISSINGNODE]
    backoff: (nat, Retries) -> nat)     // the delay update_trytime adds, in nanoseconds

  // ---------------------------------------------------------------- the twin lists

  /** The two lists are sorted by different fields. */
  datatype Order = ByTrytime | ByDeadline

  function Key(o: Order, op: Op): int {
    match o
    case ByTrytime => op.trytime
    case ByDeadline => op.deadline
  }

  ghost predicate Known(t: map<OpId, Op>, s: seq<OpId>) {
    forall x :: x in s ==> x in t
  }

  ghost predicate InOrder(o: Order, t: map<OpId, Op>, s: seq<OpId>)
    requires Known(t, s)
  {
    forall i, j :: 0 <= i < j < |s| ==> Key(o, t[s[i]]) <= Key(o, t[s[j]])
  }

  /** Both lists hold the same operations, each once. */
  ghost predicate Twin(q: Queue) {
    NoDup(q.sched) && NoDup(q.tmo) && (forall x :: x in q.sched <==> x in q.tmo) && Known(q.table, q.sched)
  }

  ghost predicate Valid(q: Queue) {
    Twin(q) && InOrder(ByTrytime, q.table, q.sched) && InOrder(ByDeadline, q.table, q.tmo)
  }

  function IndexOf(s: seq<OpId>, x: OpId): (k: nat)
    requires x in s
    ensures k < |s| && s[k] == x
  {
    if s[0] == x then 0 else 1 + IndexOf(s[1..], x)
  }

  /** lcb_list_delete */
  function Without(s: seq<OpId>, x: OpId): (r: seq<OpId>)
    requires x in s
    ensures |r| == |s| - 1
  {
    RemoveAt(s, IndexOf(s, x))
  }

  lemma WithoutMembers(s: seq<OpId>, x: OpId)
    requires x in s && NoDup(s)
    ensures NoDup(Without(s, x)) && forall y :: y in Without(s, x) <==> y in s && y != x
    ensures multiset(s) == multiset(Without(s, x)) + multiset{x}
    ensures s[0] == x ==> Without(s, x) == s[1..]
  {
    var k := IndexOf(s, x);
    RemoveAtMembers(s, k);
    assert s == s[..k] + [x] + s[k + 1..];
  }

  /** The place lcb_list_add_sorted gives an operation with the given key. */
  function Slot(o: Order, table: map<OpId, Op>, s: seq<OpId>, t: int): (k: nat)
    requires Known(table, s)
    ensures k <= |s|
    ensures forall i :: 0 <= i < k ==> Key(o, table[s[i]]) <= t
    ensures k < |s| ==> t < Key(o, table[s[k]])
  {
    if s == [] || t < Key(o, table[s[0]]) then 0
    else
      var k := Slot(o, table, s[1..], t);
      assert forall i :: 1 <= i < k + 1 ==> s[i] == s[1..][i - 1];
      k + 1
  }

  /** Only one place has nothing larger before it and something larger right behind it. */
  lemma SlotIsUnique(o: Order, table: map<OpId, Op>, s: seq<OpId>, t: int, k: nat)
    requires k <= |s| && Known(table, s)
    requires (forall i :: 0 <= i < k ==> Key(o, table[s[i]]) <= t) && (k < |s| ==> t < Key(o, table[s[k]]))
    ensures k == Slot(o, table, s, t)
  {
    hide Slot;
    var a := Slot(o, table, s, t);
  }

  /** Put an operation into both lists. */
  function Enlist(q: Queue, x: OpId): (r: Queue)
    requires Twin(q) && x in q.table && x !in q.sched
    ensures Twin(r)
  {
    var i := Slot(ByTrytime, q.table, q.sched, q.table[x].trytime);
    var j := Slot(ByDeadline, q.table, q.tmo, q.table[x].deadline);
    InsertAtMembers(q.sched, i, x);
    InsertAtMembers(q.tmo, j, x);
    q.(sched := InsertAt(q.sched, i, x), tmo := InsertAt(q.tmo, j, x))
  }

  /** erase */
  function Erase(q: Queue, x: OpId): (r: Queue)
    requires Twin(q) && x in q.sched
    ensures Twin(r)
  {
    WithoutMembers(q.sched, x);
    WithoutMembers(q.tmo, x);
    q.(sched := Without(q.sched, x), tmo := Without(q.tmo, x))
  }

  /** Every place an operation can be: queued, enqueued on a pipeline, or answered. */
  ghost function Census(q: Queue): (r: multiset<OpId>) {
    multiset(q.sched) + Piped(q.pipes) + Answered(q.answers)
  }

  ghost function Piped(pipes: seq<seq<OpId>>): multiset<OpId> {
    if pipes == [] then multiset{} else multiset(pipes[0]) + Piped(pipes[1..])
  }

  ghost function Answered(answers: seq<Answer>): multiset<OpId> {
    if answers == [] then multiset{} else Answered(answers[..|answers| - 1]) + multiset{answers[|answers| - 1].op}
  }

  lemma InsertCount(s: seq<OpId>, k: nat, x: OpId)
    requires k <= |s|
    ensures multiset(InsertAt(s, k, x)) == multiset(s) + multiset{x}
  {
    assert s == s[..k] + s[k..];
  }

  lemma InsertInOrder(o: Order, t: map<OpId, Op>, s: seq<OpId>, x: OpId)
    requires Known(t, s) && x in t && InOrder(o, t, s)
    ensures var r := InsertAt(s, Slot(o, t, s, Key(o, t[x])), x); Known(t, r) && InOrder(o, t, r)
  {
    hide Slot, InsertAt;
    var k := Slot(o, t, s, Key(o, t[x]));
    var r := InsertAt(s, k, x);
    forall y | y in r ensures y in t {
      var i :| 0 <= i < |r| && r[i] == y;
    }
    forall i, j | 0 <= i < j < |r| ensures Key(o, t[r[i]]) <= Key(o, t[r[j]]) {
      assert k < |s| && k < j ==> Key(o, t[s[k]]) <= Key(o, t[s[j - 1]]);
    }
  }

  lemma {:induction false} EnlistKeeps(q: Queue, x: OpId)
    requires Valid(q) && x in q.table && x !in q.sched
    ensures Valid(Enlist(q, x))
    ensures Census(Enlist(q, x)) == Census(q) + multiset{x}
    ensures forall y :: y in Enlist(q, x).sched <==> y in q.sched || y == x
  {
    hide InOrder, InsertAt, Slot;
    var i := Slot(ByTrytime, q.table, q.sched, q.table[x].trytime);
    var j := Slot(ByDeadline, q.table, q.tmo, q.table[x].deadline);
    InsertInOrder(ByTrytime, q.table, q.sched, x);
    InsertInOrder(ByDeadline, q.table, q.tmo, x);
    InsertAtMembers(q.sched, i, x);
    InsertAtMembers(q.tmo, j, x);
    InsertCount(q.sched, i, x);
  }

  lemma RemoveInOrder(o: Order, t: map<OpId, Op>, s: seq<OpId>, x: OpId)
    requires Known(t, s) && x in s && InOrder(o, t, s)
    ensures Known(t, Without(s, x)) && InOrder(o, t, Without(s, x))
  {
    hide RemoveAt;
  }

  lemma {:induction false} EraseKeeps(q: Queue, x: OpId)
    requires Valid(q) && x in q.sched
    ensures Valid(Erase(q, x))
    ensures Census(q) == Census(Erase(q, x)) + multiset{x}
    ensures forall y :: y in Erase(q, x).sched <==> y in q.sched && y != x
  {
    hide InOrder, Without;
    WithoutMembers(q.sched, x);
    WithoutMembers(q.tmo, x);
    RemoveInOrder(ByTrytime, q.table, q.sched, x);
    RemoveInOrder(ByDeadline, q.table, q.tmo, x);
  }

  // ---------------------------------------------------------------- flush

  /** fail before it erases: the error is recorded and the response dispatched. */
  function Answering(q: Queue, x: OpId, err: Status): (r: Queue)
    requires x in q.table
  {
    var op := q.table[x];
    q.(table := q.table[x := op.(origerr := AssignError(op.origerr, err))],
       answers := q.answers + [Answer(x, FailStatus(op.origerr, op.origstatus, err))])
  }

  /** fail: answer the operation with an error and forget it. */
  function Fail(q: Queue, x: OpId, err: Status): (r: Queue)
    requires Twin(q) && x in q.sched
    ensures Twin(r)
  {
    Erase(Answering(q, x, err), x)
  }

  /** The first loop of flush: it stops at the first operation that has not expired. */
  function Expire(q: Queue, now: int): (r: Queue)
    requires Twin(q)
    ensures Twin(r)
    decreases |q.tmo|
  {
    if q.tmo == [] || q.table[q.tmo[0]].deadline > now then q
    else Expire(Fail(q, q.tmo[0], ERR_TIMEOUT), now)
  }

  predicate Due(op: Op, now: int, throttle: bool) {
    !(op.trytime - TIMEFUZZ_NS > now && throttle)
  }

  predicate Hosted(op: Op, c: Cluster, npipes: nat) {
    0 <= c.master(op.vbucket) < npipes
  }

  /** The record of an operation that found no server and is kept for later. */
  function Postponed(op: Op, now: int, c: Cluster): Op {
    op.(origerr := AssignError(op.origerr, ERR_NO_MATCHING_SERVER),
        retries := OneMore(op.retries), trytime := now + c.backoff(op.spec, OneMore(op.retries)))
  }

  /** The record of an operation that is tried again later: one more retry, and the delay counts from now. */
  ghost predicate Again(op: Op, later: Op, now: int, c: Cluster) {
    && later.retries == (if op.retries == 255 then 0 else op.retries + 1)
    && later.trytime == now + c.backoff(op.spec, later.retries)
    && later.start == op.start && later.deadline == op.deadline && later.vbucket == op.vbucket
    && later.spec == op.spec && later.origstatus == op.origstatus && later.origerr == ERR_NO_MATCHING_SERVER
  }

  /** A queue, the operations on the list `resched_next`, and how often no server was found. */
  datatype Pass = Pass(q: Queue, moved: seq<OpId>, miss: nat)

  /** The operations set aside are in neither list. */
  ghost predicate Apart(p: Pass) {
    Twin(p.q) && NoDup(p.moved) && forall x :: x in p.moved ==> x in p.q.table && x !in p.q.sched
  }

  /** An operation without a server is taken out of both lists and kept for later. */
  function Postpone(q: Queue, x: OpId, now: int, c: Cluster): (r: Queue)
    requires Twin(q) && x in q.sched
  {
    Erase(q, x).(table := q.table[x := Postponed(q.table[x], now, c)])
  }

  /** An operation without a server is answered. */
  function Drop(q: Queue, x: OpId): (r: Queue)
    requires Twin(q) && x in q.sched
  {
    var op := q.table[x];
    Fail(q.(table := q.table[x := op.(origerr := AssignError(op.origerr, ERR_NO_MATCHING_SERVER))]), x,
      ERR_NO_MATCHING_SERVER)
  }

  /** The body of the second loop of flush. */
  function RetryHead(p: Pass, now: int, c: Cluster): (r: Pass)
    requires Apart(p) && p.q.sched != []
    ensures Apart(r) && |r.q.sched| < |p.q.sched|
  {
    var q, x := p.q, p.q.sched[0];
    WithoutMembers(q.sched, x);
    var op := q.table[x];
    if !Hosted(op, c, |q.pipes|) then
      if c.refreshing(p.miss) || c.retryMissing then
        Pass(Postpone(q, x, now, c), p.moved + [x], p.miss + 1)
      else Pass(Drop(q, x), p.moved, p.miss + 1)
    else
      var srv := c.master(op.vbucket);
      Pass(Erase(q.(pipes := q.pipes[srv := q.pipes[srv] + [x]]), x), p.moved, p.miss)
  }

  /** The second loop of flush: with `throttle` it stops at the first operation that is not due. */
  function Retry(p: Pass, now: int, throttle: bool, c: Cluster): (r: Pass)
    requires Apart(p)
    ensures Apart(r)
    decreases |p.q.sched|
  {
    if p.q.sched == [] || !Due(p.q.table[p.q.sched[0]], now, throttle) then p
    else Retry(RetryHead(p, now, c), now, throttle, c)
  }

  /** The third loop of flush: put what was set aside back into both lists. */
  function Readd(q: Queue, moved: seq<OpId>): (r: Queue)
    requires Apart(Pass(q, moved, 0))
    ensures Twin(r)
    decreases moved
  {
    if moved == [] then q
    else
      assert moved[0] in moved;
      Readd(Enlist(q, moved[0]), moved[1..])
  }

  /** flush, up to the call of schedule. */
  function Flush(q: Queue, now: int, throttle: bool, c: Cluster): (r: Queue)
    requires Twin(q)
    ensures Twin(r)
  {
    var p := Retry(Pass(Expire(q, now), [], 0), now, throttle, c);
    Readd(p.q, p.moved)
  }

  /** `r` has the lists of `q` minus `x`, and no other record changed. */
  ghost predicate Took(q: Queue, r: Queue, x: OpId) {
    && (forall y :: y in r.sched <==> y in q.sched && y != x)
    && (forall y :: y in q.table <==> y in r.table) && (forall y :: y in q.table && y != x ==> r.table[y] == q.table[y])
  }

  lemma Cancel(a: multiset<OpId>, b: multiset<OpId>, x: OpId)
    requires a + multiset{x} == b + multiset{x}
    ensures a == b
  {
    assert a == (a + multiset{x}) - multiset{x};
    assert b == (b + multiset{x}) - multiset{x};
  }

  lemma AnsweredMore(a: seq<Answer>, x: OpId, e: Status)
    ensures Answered(a + [Answer(x, e)]) == Answered(a) + multiset{x}
  {
    assert (a + [Answer(x, e)])[..|a|] == a;
  }

  lemma {:induction false} PipedMore(pipes: seq<seq<OpId>>, srv: nat, x: OpId)
    requires srv < |pipes|
    ensures Piped(pipes[srv := pipes[srv] + [x]]) == Piped(pipes) + multiset{x}
  {
    var more := pipes[srv := pipes[srv] + [x]];
    if srv == 0 {
      assert more[1..] == pipes[1..];
    } else {
      PipedMore(pipes[1..], srv - 1, x);
      assert more[1..] == pipes[1..][srv - 1 := pipes[srv] + [x]];
    }
  }

  /** Changing records without touching the times keeps the lists in order. */
  lemma Retimed(q: Queue, t: map<OpId, Op>)
    requires Valid(q)
    requires forall y :: y in q.sched ==>
      y in t && t[y].trytime == q.table[y].trytime && t[y].deadline == q.table[y].deadline
    ensures Valid(q.(table := t))
  {
  }

  lemma AnsweringKeeps(q: Queue, x: OpId, err: Status)
    requires Valid(q) && x in q.sched
    ensures Valid(Answering(q, x, err)) && Census(Answering(q, x, err)) == Census(q) + multiset{x}
  {
    var r := Answering(q, x, err);
    Retimed(q, r.table);
    AnsweredMore(q.answers, x, r.answers[|q.answers|].status);
  }

  lemma {:induction false} FailKeeps(q: Queue, x: OpId, err: Status)
    requires Valid(q) && x in q.sched
    ensures var r := Fail(q, x, err);
            Valid(r) && Census(r) == Census(q) && Took(q, r, x) && r.pipes == q.pipes && |r.tmo| < |q.tmo|
  {
    hide InOrder, Census, Without;
    AnsweringKeeps(q, x, err);
    EraseKeeps(Answering(q, x, err), x);
    Cancel(Census(q), Census(Fail(q, x, err)), x);
  }

  /** A response for an operation of `q` that had expired, with the status fail() computes. */
  ghost predicate TimedOut(q: Queue, a: Answer, now: int)
    requires Twin(q)
  {
    && a.op in q.sched && q.table[a.op].deadline <= now
    && a.status == FailStatus(q.table[a.op].origerr, q.table[a.op].origstatus, ERR_TIMEOUT)
  }

  lemma HeadsFirst(q: Queue)
    requires Valid(q) && q.sched != []
    ensures q.tmo != [] && q.tmo[0] in q.sched && q.sched[0] in q.tmo
    ensures forall x :: x in q.sched ==> q.table[q.sched[0]].trytime <= q.table[x].trytime
    ensures forall x :: x in q.sched ==> q.table[q.tmo[0]].deadline <= q.table[x].deadline
  {
    assert q.sched[0] in q.tmo;
    assert q.tmo[0] in q.sched;
  }

  lemma EmptyTogether(q: Queue)
    requires Twin(q)
    ensures q.sched == [] <==> q.tmo == []
  {
    assert q.sched != [] ==> q.sched[0] in q.tmo;
    assert q.tmo != [] ==> q.tmo[0] in q.sched;
  }

  /**
   The early exit of the first loop misses nothing: exactly the expired operations are
   answered, each once, and the others are as they were.
   */
  lemma {:induction false} ExpireTakesExpired(q: Queue, now: int)
    requires Valid(q)
    ensures var r := Expire(q, now);
            && Valid(r) && Census(r) == Census(q) && r.pipes == q.pipes
            && (forall x :: x in r.sched <==> x in q.sched && q.table[x].deadline > now)
            && (forall x :: x in r.table <==> x in q.table)
            && (forall x :: x in q.table && !(x in q.sched && q.table[x].deadline <= now) ==> r.table[x] == q.table[x])
            && q.answers <= r.answers
            && (forall i :: |q.answers| <= i < |r.answers| ==> TimedOut(q, r.answers[i], now))
    decreases |q.tmo|
  {
    hide InOrder, Census, Without;
    EmptyTogether(q);
    if q.sched != [] {
      HeadsFirst(q);
      if q.table[q.tmo[0]].deadline <= now {
        FailKeeps(q, q.tmo[0], ERR_TIMEOUT);
        ExpireTakesExpired(Fail(q, q.tmo[0], ERR_TIMEOUT), now);
      }
    }
  }

  ghost function One(b: bool): nat {
    if b then 1 else 0
  }

  /** The pipeline operation `x` of `q` is sent to by a flush that reaches it. */
  ghost predicate GoesTo(q: Queue, x: OpId, srv: int, now: int, throttle: bool, c: Cluster)
    requires Twin(q)
  {
    x in q.sched && Due(q.table[x], now, throttle) && Hosted(q.table[x], c, |q.pipes|)
      && c.master(q.table[x].vbucket) == srv
  }

  /** The operation is due but the map names no pipeline for it. */
  ghost predicate Unplaced(q: Queue, x: OpId, now: int, throttle: bool, c: Cluster)
    requires Twin(q)
  {
    x in q.sched && Due(q.table[x], now, throttle) && !Hosted(q.table[x], c, |q.pipes|)
  }

  /** The response for an operation that found no server and was not kept. */
  ghost predicate Unserved(q: Queue, a: Answer)
    requires a.op in q.table
  {
    var op := q.table[a.op];
    a.status == FailStatus(AssignError(op.origerr, ERR_NO_MATCHING_SERVER), op.origstatus, ERR_NO_MATCHING_SERVER)
  }

  lemma {:induction false} SendKeeps(q: Queue, x: OpId, srv: nat)
    requires Valid(q) && x in q.sched && srv < |q.pipes|
    ensures var m := q.(pipes := q.pipes[srv := q.pipes[srv] + [x]]);
            && Valid(m) && Valid(Erase(m, x)) && Took(q, Erase(m, x), x) && Census(Erase(m, x)) == Census(q)
  {
    hide InOrder, Without, Piped;
    var m := q.(pipes := q.pipes[srv := q.pipes[srv] + [x]]);
    PipedMore(q.pipes, srv, x);
    assert Census(m) == Census(q) + multiset{x};
    EraseKeeps(m, x);
    Cancel(Census(q), Census(Erase(m, x)), x);
  }

  lemma {:induction false} PostponeKeeps(q: Queue, x: OpId, op: Op)
    requires Valid(q) && x in q.sched
    ensures var r := Erase(q, x).(table := q.table[x := op]);
            Valid(r) && Took(q, r, x) && Census(r) + multiset{x} == Census(q)
  {
    EraseKeeps(q, x);
    var e := Erase(q, x);
    Retimed(e, q.table[x := op]);
    hide InOrder, Without;
  }

  /** One step of the second loop settles the head of the scheduling list and nothing else. */
  lemma {:induction false} RetryHeadKeeps(p: Pass, now: int, c: Cluster)
    requires Valid(p.q) && Apart(p) && p.q.sched != []
    ensures var q, r, x := p.q, RetryHead(p, now, c), p.q.sched[0];
            && Valid(r.q) && Took(q, r.q, x)
            && Census(r.q) + multiset(r.moved) == Census(q) + multiset(p.moved)
            && (if Hosted(q.table[x], c, |q.pipes|) then
                  var srv := c.master(q.table[x].vbucket);
                  r.moved == p.moved && r.q.answers == q.answers && r.q.pipes == q.pipes[srv := q.pipes[srv] + [x]]
                else
                  && r.q.pipes == q.pipes
                  && (if c.refreshing(p.miss) || c.retryMissing then
                        r.moved == p.moved + [x] && r.q.answers == q.answers
                          && Again(q.table[x], r.q.table[x], now, c)
                      else
                        (r.moved == p.moved && |r.q.answers| == |q.answers| + 1 && q.answers <= r.q.answers &&
                          r.q.answers[|q.answers|].op == x && Unserved(q, r.q.answers[|q.answers|]))))
  {
    hide InOrder, Without, Census;
    var q, x := p.q, p.q.sched[0];
    var op := q.table[x];
    if Hosted(op, c, |q.pipes|) {
      SendKeeps(q, x, c.master(op.vbucket));
    } else if c.refreshing(p.miss) || c.retryMissing {
      PostponeKeeps(q, x, Postponed(op, now, c));
    } else {
      var t := q.table[x := op.(origerr := AssignError(op.origerr, ERR_NO_MATCHING_SERVER))];
      Retimed(q, t);
      SameCensus(q, t);
      FailKeeps(q.(table := t), x, ERR_NO_MATCHING_SERVER);
    }
  }

  lemma SameCensus(q: Queue, t: map<OpId, Op>)
    ensures Census(q.(table := t)) == Census(q)
  {
  }

  /**
   The early exit of the second loop misses nothing: exactly the due operations leave
   the lists, none is lost or duplicated, and the others are as they were.
   */
  lemma {:induction false} RetryTakesDue(p: Pass, now: int, throttle: bool, c: Cluster)
    requires Valid(p.q) && Apart(p)
    ensures var q, r := p.q, Retry(p, now, throttle, c);
            && Valid(r.q) && Census(r.q) + multiset(r.moved) == Census(q) + multiset(p.moved)
            && (forall x :: x in r.q.sched <==> x in q.sched && !Due(q.table[x], now, throttle))
            && (forall x :: x in r.q.table <==> x in q.table)
            && (forall x :: x in q.table && x !in q.sched ==> r.q.table[x] == q.table[x])
            && (forall x :: x in r.q.sched ==> r.q.table[x] == q.table[x])
    decreases |p.q.sched|
  {
    hide InOrder, Without, Census, RetryHead;
    if p.q.sched != [] {
      HeadsFirst(p.q);
      if Due(p.q.table[p.q.sched[0]], now, throttle) {
        RetryHeadKeeps(p, now, c);
        RetryTakesDue(RetryHead(p, now, c), now, throttle, c);
      }
    }
  }

  /** Each due operation that has a master is enqueued once, on that master's pipeline, and on no other. */
  lemma {:induction false} RetryRoutes(p: Pass, now: int, throttle: bool, c: Cluster, i: nat, x: OpId)
    requires Valid(p.q) && Apart(p) && i < |p.q.pipes|
    ensures var q, r := p.q, Retry(p, now, throttle, c).q;
            && |r.pipes| == |q.pipes|
            && q.pipes[i] <= r.pipes[i]
            && multiset(r.pipes[i])[x] == multiset(q.pipes[i])[x] + One(GoesTo(q, x, i, now, throttle, c))
    decreases |p.q.sched|
  {
    hide InOrder, Without, Census, RetryHead;
    if p.q.sched != [] {
      HeadsFirst(p.q);
      if Due(p.q.table[p.q.sched[0]], now, throttle) {
        RetryHeadKeeps(p, now, c);
        RetryRoutes(RetryHead(p, now, c), now, throttle, c, i, x);
      }
    }
  }

  /** What is set aside is due, has no master, and has its retry counter raised and a new try time. */
  lemma {:induction false} RetrySetsAside(p: Pass, now: int, throttle: bool, c: Cluster, i: nat)
    requires Valid(p.q) && Apart(p)
    ensures var q, r := p.q, Retry(p, now, throttle, c);
            && p.moved <= r.moved
            && (|p.moved| <= i < |r.moved| ==>
                  Unplaced(q, r.moved[i], now, throttle, c)
                    && Again(q.table[r.moved[i]], r.q.table[r.moved[i]], now, c))
    decreases |p.q.sched|
  {
    hide InOrder, Without, Census, RetryHead, Again;
    if p.q.sched != [] {
      HeadsFirst(p.q);
      if Due(p.q.table[p.q.sched[0]], now, throttle) {
        RetryHeadKeeps(p, now, c);
        RetryTakesDue(RetryHead(p, now, c), now, throttle, c);
        RetrySetsAside(RetryHead(p, now, c), now, throttle, c, i);
      }
    }
  }

  lemma AllSetAside(p: Pass, now: int, throttle: bool, c: Cluster)
    requires Valid(p.q) && Apart(p) && p.moved == []
    ensures var q, r := p.q, Retry(p, now, throttle, c);
            forall x :: x in r.moved ==>
              Unplaced(q, x, now, throttle, c) && Again(q.table[x], r.q.table[x], now, c)
  {
    hide Retry, Valid, Again;
    var r := Retry(p, now, throttle, c);
    forall i | 0 <= i < |r.moved|
      ensures Unplaced(p.q, r.moved[i], now, throttle, c)
        && Again(p.q.table[r.moved[i]], r.q.table[r.moved[i]], now, c)
    {
      RetrySetsAside(p, now, throttle, c, i);
    }
  }

  /** What the second loop answers is due, has no master, and gets the status that says so. */
  lemma {:induction false} RetryAnswers(p: Pass, now: int, throttle: bool, c: Cluster)
    requires Valid(p.q) && Apart(p)
    ensures var q, r := p.q, Retry(p, now, throttle, c).q;
            && q.answers <= r.answers
            && (forall i :: |q.answers| <= i < |r.answers| ==>
                  Unplaced(q, r.answers[i].op, now, throttle, c) && Unserved(q, r.answers[i]))
    decreases |p.q.sched|
  {
    hide InOrder, Without, Census, RetryHead;
    if p.q.sched != [] {
      HeadsFirst(p.q);
      if Due(p.q.table[p.q.sched[0]], now, throttle) {
        RetryHeadKeeps(p, now, c);
        RetryAnswers(RetryHead(p, now, c), now, throttle, c);
      }
    }
  }
}
