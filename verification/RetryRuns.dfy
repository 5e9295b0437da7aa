/**
 The other operations of the retry queue of src/retryq.cc, its timer, and whole runs.
 */
module RetryRuns {
  import opened Common
  import opened IntrusiveList
  import opened RetryErrors
  import opened RetryFlush
  import opened RetryQueues
  import opened Statuses

  /** The packet handed to add(). */
  datatype Packet = Packet(vbucket: nat, start: int, deadline: int, retries: Retries)

  /** The RetrySpec handed to add(); `id` 0 stands for none. */
  datatype Spec = Spec(id: nat, maxDuration: nat)

  /** The settings and clock readings add() uses. */
  datatype AddEnv = AddEnv(now: int, later: int, nmvInterval: nat, backoff: (nat, Retries) -> nat)

  /** A new RetryOp: a spec with a shorter maximum duration moves the whole window back. */
  function FreshOp(pkt: Packet, spec: Spec): Op {
    var timeout := (pkt.deadline - pkt.start) / 1000;
    var back := if spec.id != 0 && spec.maxDuration != 0 && spec.maxDuration < timeout
                then (timeout - spec.maxDuration) % 0x1_0000_0000 * 1000 else 0;
    Op(pkt.start - back, pkt.deadline - back, 0, pkt.retries, pkt.vbucket, SUCCESS, 0, spec.id)
  }

  /** The record add() leaves for the operation: a RetryOp found on the packet is reused. */
  function AddedOp(q: Queue, x: OpId, pkt: Packet, err: Status, status: int, spec: Spec, imm: bool, env: AddEnv): Op {
    var op := if x in q.table then q.table[x] else FreshOp(pkt, spec);
    var retries := OneMore(pkt.retries);
    op.(origstatus := status, retries := retries, vbucket := pkt.vbucket, origerr := AssignError(op.origerr, err),
        trytime := if imm then env.now
                   else if err == ERR_NOT_MY_VBUCKET then env.now + env.nmvInterval * 1000
                   else env.later + env.backoff(op.spec, retries))
  }

  function Add(q: Queue, x: OpId, pkt: Packet, err: Status, status: int, spec: Spec, imm: bool, env: AddEnv): (r: Queue)
    requires Twin(q) && x !in q.sched
    ensures Twin(r)
  {
    Enlist(q.(table := q.table[x := AddedOp(q, x, pkt, err, status, spec, imm, env)]), x)
  }

  lemma {:induction false} AddKeeps(q: Queue, x: OpId, pkt: Packet, err: Status, status: int, spec: Spec, imm: bool,
      env: AddEnv)
    requires Valid(q) && x !in q.sched
    ensures var r := Add(q, x, pkt, err, status, spec, imm, env);
            && Valid(r) && Census(r) == Census(q) + multiset{x}
            && (forall y :: y in r.sched <==> y in q.sched || y == x)
            && (forall y :: y in q.table && y != x ==> y in r.table && r.table[y] == q.table[y])
            && r.pipes == q.pipes && r.answers == q.answers
  {
    hide InOrder, InsertAt, Slot, Census, AddedOp;
    var t := q.table[x := AddedOp(q, x, pkt, err, status, spec, imm, env)];
    Retimed(q, t);
    SameCensus(q, t);
    EnlistKeeps(q.(table := t), x);
  }

  /**
   The record an operation is queued with. The next try is at once, after the interval for a wrong server, or after the
   delay for this many retries; a new operation has the time window of its packet, moved back if the retry spec allows
   less time, and one that was queued before keeps its own.
   */
  ghost predicate Admitted(q: Queue, x: OpId, pkt: Packet, err: Status, status: int, spec: Spec, imm: bool, env: AddEnv,
      op: Op)
  {
    && op.origstatus == status && op.vbucket == pkt.vbucket
    && op.retries == (if pkt.retries == 255 then 0 else pkt.retries + 1)
    && (imm ==> op.trytime == env.now)
    && (!imm && err == ERR_NOT_MY_VBUCKET ==> op.trytime == env.now + 1000 * env.nmvInterval)
    && (!imm && err != ERR_NOT_MY_VBUCKET ==> op.trytime == env.later + env.backoff(op.spec, op.retries))
    && (if x in q.table then
          var was := q.table[x];
          op.start == was.start && op.deadline == was.deadline && op.spec == was.spec
            && Recalls(was.origerr, err, op.origerr)
        else
          && op.spec == spec.id && Recalls(SUCCESS, err, op.origerr)
          && var timeout := (pkt.deadline - pkt.start) / 1000;
             var clipped := spec.id != 0 && 0 < spec.maxDuration < timeout;
             var back := if clipped then (timeout - spec.maxDuration) % 0x1_0000_0000 else 0;
             pkt.start - op.start == 1000 * back == pkt.deadline - op.deadline)
  }

  lemma AddedIsAdmitted(q: Queue, x: OpId, pkt: Packet, err: Status, status: int, spec: Spec, imm: bool, env: AddEnv)
    requires Twin(q) && x !in q.sched
    ensures var r := Add(q, x, pkt, err, status, spec, imm, env);
            x in r.table && Admitted(q, x, pkt, err, status, spec, imm, env, r.table[x])
  {
    hide InsertAt, Slot;
  }

  /** Rescheduling through a spec never lengthens an operation's window, and clips it to the maximum duration. */
  lemma FreshOpWindow(pkt: Packet, spec: Spec)
    ensures FreshOp(pkt, spec).deadline - FreshOp(pkt, spec).start == pkt.deadline - pkt.start
    ensures FreshOp(pkt, spec).deadline <= pkt.deadline
    ensures spec.id != 0 && spec.maxDuration != 0 && (pkt.deadline - pkt.start) / 1000 < 0x1_0000_0000 ==>
              FreshOp(pkt, spec).deadline < pkt.start + (spec.maxDuration + 1) * 1000
  {
  }

  /** reset_timeouts: every queued operation gets its whole window again, counted from `now`. */
  function Reset(q: Queue, now: int): (r: Queue)
    requires Twin(q)
    ensures Twin(r)
  {
    q.(table := map x | x in q.table :: if x in q.sched then Rewound(q.table[x], now) else q.table[x])
  }

  function Rewound(op: Op, now: int): Op {
    op.(deadline := now + (op.deadline - op.start), start := now)
  }

  /** Every queued operation has its whole time window again, from now on; nothing else changes. */
  lemma ResetRestarts(q: Queue, now: int)
    requires Twin(q)
    ensures var r := Reset(q, now);
            && r.sched == q.sched && r.tmo == q.tmo && r.pipes == q.pipes && r.answers == q.answers
            && r.table.Keys == q.table.Keys
            && (forall x :: x in q.sched ==>
                  var op, op' := q.table[x], r.table[x];
                  && op'.start == now && op'.deadline - now == op.deadline - op.start
                  && op' == op.(start := op'.start, deadline := op'.deadline))
            && (forall x :: x in q.table && x !in q.sched ==> r.table[x] == q.table[x])
  {
  }

  /** Along the timeout list, windows do not get shorter. */
  ghost predicate WindowsGrow(q: Queue)
    requires Twin(q)
  {
    forall i, j :: 0 <= i < j < |q.tmo| ==>
      q.table[q.tmo[i]].deadline - q.table[q.tmo[i]].start <= q.table[q.tmo[j]].deadline - q.table[q.tmo[j]].start
  }

  /** reset_timeouts does not sort again, so it keeps the invariant exactly when the windows are in timeout order. */
  lemma {:induction false} ResetKeepsIff(q: Queue, now: int)
    requires Valid(q)
    ensures Valid(Reset(q, now)) <==> WindowsGrow(q)
  {
    var r := Reset(q, now);
    assert forall i :: 0 <= i < |q.tmo| ==> q.tmo[i] in q.sched;
    assert forall i :: 0 <= i < |q.tmo| ==> r.table[q.tmo[i]] == Rewound(q.table[q.tmo[i]], now);
    if Valid(r) {
      forall i, j | 0 <= i < j < |q.tmo|
        ensures q.table[q.tmo[i]].deadline - q.table[q.tmo[i]].start
          <= q.table[q.tmo[j]].deadline - q.table[q.tmo[j]].start
      {
        assert r.table[q.tmo[i]].deadline <= r.table[q.tmo[j]].deadline;
      }
    }
  }

  /** In particular when all queued operations have the same window. */
  lemma ResetKeepsUniform(q: Queue, now: int, window: int)
    requires Valid(q) && forall x :: x in q.sched ==> q.table[x].deadline - q.table[x].start == window
    ensures Valid(Reset(q, now))
  {
    assert WindowsGrow(q);
    ResetKeepsIff(q, now);
  }

  /** Two operations whose windows are not in the order of their deadlines. */
  function Uneven(): Queue {
    Queue(map[1 := Op(0, 100, 0, 1, 0, 0, 0, 0), 2 := Op(150, 200, 0, 1, 0, 0, 0, 0)], [1, 2], [1, 2], [], [])
  }

  lemma UnevenValid()
    ensures Valid(Uneven()) && !WindowsGrow(Uneven())
  {
    var q := Uneven();
    assert q.table[q.tmo[0]].deadline - q.table[q.tmo[0]].start == 100;
    assert q.table[q.tmo[1]].deadline - q.table[q.tmo[1]].start == 50;
  }

  /** reset_timeouts puts them out of order: the next flush then leaves an expired operation queued. */
  lemma ResetCanLoseOrder()
    ensures var q := Uneven();
            && Valid(q) && !Valid(Reset(q, 1000))
            && Expire(Reset(q, 1000), 1060).sched == [1, 2] && Reset(q, 1000).table[2].deadline <= 1060
  {
    hide InOrder, WindowsGrow;
    UnevenValid();
    ResetKeepsIff(Uneven(), 1000);
    var r := Reset(Uneven(), 1000);
    assert r.table[r.tmo[0]].deadline == 1100;
  }

  /** ~RetryQueue: fail whatever is left, in scheduling order. */
  function Teardown(q: Queue): (r: Queue)
    requires Twin(q)
    decreases |q.sched|
  {
    if q.sched == [] then q else Teardown(Fail(q, q.sched[0], ERR_GENERIC))
  }

  /** A response for each operation, in this order. */
  ghost function Generic(s: seq<OpId>): seq<Answer> {
    seq(|s|, i requires 0 <= i < |s| => Answer(s[i], ERR_GENERIC))
  }

  /** Whatever is queued is answered once, in scheduling order, and with the generic error whatever happened before. */
  lemma {:induction false} TeardownAnswersAll(q: Queue)
    requires Valid(q)
    ensures var r := Teardown(q);
            Valid(r) && r.sched == [] && r.tmo == [] && r.pipes == q.pipes && Census(r) == Census(q)
    ensures Teardown(q).answers == q.answers + Generic(q.sched)
    decreases |q.sched|
  {
    hide InOrder, Without, Answered, Piped;
    EmptyTogether(q);
    if q.sched != [] {
      var x := q.sched[0];
      FailKeeps(q, x, ERR_GENERIC);
      WithoutHead(q.sched);
      TeardownAnswersAll(Fail(q, x, ERR_GENERIC));
      assert Generic(q.sched) == [Answer(x, ERR_GENERIC)] + Generic(q.sched[1..]);
    }
  }

  lemma WithoutHead(s: seq<OpId>)
    requires s != []
    ensures Without(s, s[0]) == s[1..]
  {
  }

  // ---------------------------------------------------------------- the timer

  function Delay(at: int, now: int): nat {
    if at <= now then 0 else (at - now) / 1000
  }

  /** schedule: disarmed (None) or armed for the head of the list that comes first, in microseconds. */
  function TimerAt(q: Queue, now: int): (r: Option<nat>)
    requires Twin(q)
  {
    EmptyTogether(q);
    if q.sched == [] then None
    else
      var schednext, tmonext := q.table[q.sched[0]].trytime, q.table[q.tmo[0]].deadline;
      Some(Delay(if schednext > tmonext then tmonext else schednext, now))
  }

  /** `m` is the earliest moment at which some queued operation needs attention. */
  ghost predicate Earliest(q: Queue, m: int)
    requires Twin(q)
  {
    && (exists x :: x in q.sched && (q.table[x].trytime == m || q.table[x].deadline == m))
    && (forall x :: x in q.sched ==> m <= q.table[x].trytime && m <= q.table[x].deadline)
  }

  /** A timer of `d` microseconds ends at the moment `m`, given in nanoseconds, or at once if that has passed. */
  ghost predicate Reaches(d: nat, m: int, now: int) {
    if m <= now then d == 0 else 1000 * d <= m - now < 1000 * (d + 1)
  }

  /** The timer is off exactly for the empty queue and otherwise set for the earliest moment. */
  ghost predicate Armed(q: Queue, timer: Option<nat>, now: int)
    requires Twin(q)
  {
    match timer
    case None => q.sched == []
    case Some(d) => exists m :: Earliest(q, m) && Reaches(d, m, now)
  }

  lemma TimerIsEarliest(q: Queue, now: int)
    requires Valid(q)
    ensures Armed(q, TimerAt(q, now), now)
  {
    if q.sched != [] {
      HeadsFirst(q);
      var a, b := q.table[q.sched[0]].trytime, q.table[q.tmo[0]].deadline;
      var m := if a > b then b else a;
      assert Earliest(q, m) && Reaches(Delay(m, now), m, now);
    }
  }

  // ---------------------------------------------------------------- runs

  datatype Event =
    | Added(op: OpId, pkt: Packet, err: Status, status: int, spec: Spec, imm: bool, env: AddEnv)
    | Flushed(now: int, throttle: bool, c: Cluster)
    | Closed

  /** A packet is given to the retry queue only while its operation is not queued. */
  predicate Enabled(q: Queue, e: Event) {
    e.Added? ==> e.op !in q.sched
  }

  function Step(q: Queue, e: Event): (r: Queue)
    requires Twin(q) && Enabled(q, e)
  {
    match e
    case Added(x, pkt, err, status, spec, imm, env) => Add(q, x, pkt, err, status, spec, imm, env)
    case Flushed(now, throttle, c) => Flush(q, now, throttle, c)
    case Closed => Teardown(q)
  }

  /** `r` is reached from `q` by the events `es`. */
  ghost predicate Runs(q: Queue, es: seq<Event>, r: Queue)
    decreases es
  {
    if es == [] then r == q
    else Twin(q) && Enabled(q, es[0]) && Runs(Step(q, es[0]), es[1..], r)
  }

  /** The operations that entered the queue during a run, with repetition. */
  ghost function Entered(es: seq<Event>): multiset<OpId> {
    if es == [] then multiset{} else (if es[0].Added? then multiset{es[0].op} else multiset{}) + Entered(es[1..])
  }

  /**
   Over every run the two lists stay twins in order, and every operation that ever
   entered is accounted for exactly as often as it entered.
   */
  lemma {:induction false} RunKeepsTwins(q: Queue, es: seq<Event>, r: Queue)
    requires Valid(q) && Runs(q, es, r)
    ensures Valid(r) && Census(r) == Census(q) + Entered(es)
    decreases es
  {
    hide InOrder, Census, Add, Flush, Teardown;
    if es != [] {
      match es[0] {
        case Added(x, pkt, err, status, spec, imm, env) => AddKeeps(q, x, pkt, err, status, spec, imm, env);
        case Flushed(now, throttle, c) => FlushConserves(q, now, throttle, c);
        case Closed => TeardownAnswersAll(q);
      }
      RunKeepsTwins(Step(q, es[0]), es[1..], r);
    }
  }
}
