/**
 The error that an operation in the retry queue of src/retryq.cc remembers, and what it reports in the end.
 */
module RetryErrors {
  import opened Statuses

  const RESPONSE_UNSPECIFIED := 0xff

  /** assign_error: the error an operation remembers after one more failure. */
  function AssignError(orig: Status, e: Status): Status {
    var err := if e == ERR_NOT_MY_VBUCKET then ERR_TIMEOUT else e;
    var first := if orig == SUCCESS then err else orig;
    if err == ERR_TIMEOUT then first
    else if IsNetwork(first) && first != ERR_TIMEOUT && (err == ERR_NETWORK || err == ERR_CONNECT_ERROR) then first
    else err
  }

  /** The status fail() hands to the response callback. */
  function FailStatus(orig: Status, origstatus: int, err: Status): Status {
    var o := AssignError(orig, err);
    if (origstatus == RESPONSE_UNSPECIFIED && IsNetwork(o)) || o == ERR_BUCKET_NOT_FOUND then err else o
  }

  predicate IsTimeout(e: Status) {
    e == ERR_TIMEOUT || e == ERR_NOT_MY_VBUCKET
  }

  /** One more error: timeouts and, behind another network error, generic network errors are not remembered. */
  ghost predicate Recalls(orig: Status, err: Status, next: Status) {
    if IsTimeout(err) then next == if orig == SUCCESS then ERR_TIMEOUT else orig
    else if err in {ERR_NETWORK, ERR_CONNECT_ERROR} && IsNetwork(orig) && orig != ERR_TIMEOUT then next == orig
    else next == err
  }

  /** The error an operation remembers after a history of failures. */
  function Remembered(orig: Status, errs: seq<Status>): Status
    decreases errs
  {
    if errs == [] then orig else Remembered(AssignError(orig, errs[0]), errs[1..])
  }

  /** Timeouts never mask the real cause: a timeout is reported only if there was nothing but timeouts. */
  lemma {:induction false} TimeoutsDoNotMask(orig: Status, errs: seq<Status>)
    requires SUCCESS !in errs && (orig == SUCCESS ==> errs != [])
    ensures Remembered(orig, errs) == ERR_TIMEOUT <==>
            (orig == SUCCESS || orig == ERR_TIMEOUT) && forall i :: 0 <= i < |errs| ==> IsTimeout(errs[i])
    decreases errs
  {
    if errs != [] {
      var next := AssignError(orig, errs[0]);
      assert forall i :: 0 < i < |errs| ==> errs[i] == errs[1..][i - 1];
      TimeoutsDoNotMask(next, errs[1..]);
    }
  }

  /** A specific network error survives the generic ones and the timeouts that follow it. */
  lemma {:induction false} SpecificErrorSurvives(orig: Status, errs: seq<Status>)
    requires IsNetwork(orig) && orig != ERR_TIMEOUT
    requires forall i :: 0 <= i < |errs| ==>
      IsTimeout(errs[i]) || errs[i] == ERR_NETWORK || errs[i] == ERR_CONNECT_ERROR
    ensures Remembered(orig, errs) == orig
    decreases errs
  {
    if errs != [] {
      assert forall i :: 0 < i < |errs| ==> errs[i] == errs[1..][i - 1];
      SpecificErrorSurvives(orig, errs[1..]);
    }
  }

  predicate IsGeneric(e: Status) {
    e == ERR_NETWORK || e == ERR_CONNECT_ERROR
  }

  /**
   Which error of a history is remembered: the k-th, if it is no timeout and only timeouts and, when it is a network
   error, generic network errors follow; and, when it is itself generic, no network error stands right in front of it,
   timeouts aside.
   */
  ghost predicate Decisive(errs: seq<Status>, k: nat) {
    && k < |errs| && !IsTimeout(errs[k])
    && (forall i :: k < i < |errs| ==> IsTimeout(errs[i]) || (IsGeneric(errs[i]) && IsNetwork(errs[k])))
    && (IsGeneric(errs[k]) ==> forall j :: 0 <= j < k && IsNetwork(errs[j]) && !IsTimeout(errs[j]) ==>
          exists i :: j < i < k && !IsTimeout(errs[i]))
  }

  lemma {:induction false} RememberedMore(orig: Status, errs: seq<Status>, e: Status)
    ensures Remembered(orig, errs + [e]) == AssignError(Remembered(orig, errs), e)
    decreases errs
  {
    if errs != [] {
      RememberedMore(AssignError(orig, errs[0]), errs[1..], e);
      assert (errs + [e])[1..] == errs[1..] + [e];
    }
  }

  lemma {:induction false} RememberedIs(errs: seq<Status>, k: nat)
    requires SUCCESS !in errs && Decisive(errs, k)
    ensures Remembered(SUCCESS, errs) == errs[k]
    decreases |errs|, 1
  {
    hide Remembered, IsNetwork;
    var n := |errs| - 1;
    var before := errs[..n];
    assert errs == before + [errs[n]];
    RememberedMore(SUCCESS, before, errs[n]);
    if k < n {
      assert Decisive(before, k);
      RememberedIs(before, k);
    } else if IsGeneric(errs[k]) {
      PlainBefore(errs, k);
    }
  }

  /** A generic network error that is decisive meets no other network error. */
  lemma {:induction false} PlainBefore(errs: seq<Status>, k: nat)
    requires SUCCESS !in errs && Decisive(errs, k) && IsGeneric(errs[k])
    ensures var m := Remembered(SUCCESS, errs[..k]); m == SUCCESS || m == ERR_TIMEOUT || !IsNetwork(m)
    decreases |errs|, 0
  {
    hide IsNetwork;
    var before := errs[..k];
    if j :| 0 <= j < k && !IsTimeout(before[j]) && forall i :: j < i < k ==> IsTimeout(before[i]) {
      assert !IsNetwork(errs[j]);
      GenericIsNetwork(before[j]);
      assert Decisive(before, j);
      RememberedIs(before, j);
    } else {
      AllTimeouts(before, k);
      if k > 0 {
        TimeoutsDoNotMask(SUCCESS, before);
      }
    }
  }

  lemma GenericIsNetwork(e: Status)
    ensures IsGeneric(e) ==> IsNetwork(e)
  {
  }

  /** Without a last error that is no timeout there is none at all. */
  lemma {:induction false} AllTimeouts(errs: seq<Status>, n: nat)
    requires n <= |errs| && forall i :: n <= i < |errs| ==> IsTimeout(errs[i])
    requires !exists j :: 0 <= j < |errs| && !IsTimeout(errs[j]) && forall i :: j < i < |errs| ==> IsTimeout(errs[i])
    ensures forall i :: 0 <= i < n ==> IsTimeout(errs[i])
  {
    if n > 0 {
      AllTimeouts(errs, n - 1);
    }
  }

  /** Every history that is not made of timeouts alone has such an error. */
  lemma {:induction false} DecisiveExists(errs: seq<Status>) returns (k: nat)
    requires exists i :: 0 <= i < |errs| && !IsTimeout(errs[i])
    ensures Decisive(errs, k)
  {
    hide IsNetwork;
    var n := |errs| - 1;
    var before := errs[..n];
    if (forall i :: 0 <= i < n ==> IsTimeout(errs[i])) || (!IsTimeout(errs[n]) && !IsGeneric(errs[n])) {
      k := n;
    } else {
      assert exists i :: 0 <= i < |before| && !IsTimeout(before[i]);
      k := DecisiveExists(before);
      if IsGeneric(errs[n]) && !IsNetwork(errs[k]) {
        k := n;
      }
    }
  }

  /**
   What an expired operation reports: its remembered cause, unless that is a network error without a response or a
   missing bucket.
   */
  lemma TimeoutReports(orig: Status, origstatus: int)
    ensures FailStatus(orig, origstatus, ERR_TIMEOUT) ==
            if orig == SUCCESS || orig == ERR_BUCKET_NOT_FOUND
              || (origstatus == RESPONSE_UNSPECIFIED && IsNetwork(orig)) then ERR_TIMEOUT
            else orig
  {
  }
}
