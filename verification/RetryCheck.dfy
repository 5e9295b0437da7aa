/** The decision chain of src/retrychk.cc. */
module RetryCheck {
  import opened Statuses

  datatype Reason =
    | Unknown | SocketNotAvailable | NodeNotAvailable | NotMyVbucket | CollectionOutdated
    | Locked | TemporaryFailure | SyncWriteInProgress | SyncWriteRecommit

  /** mc_code_to_reason */
  function ReasonFor(e: Status): Reason {
    if e in {ERR_TOPOLOGY_CHANGE, ERR_NOT_MY_VBUCKET} then NotMyVbucket
    else if e in {ERR_COLLECTION_NOT_FOUND, ERR_SCOPE_NOT_FOUND} then CollectionOutdated
    else if e == ERR_DOCUMENT_LOCKED then Locked
    else if e == ERR_TEMPORARY_FAILURE then TemporaryFailure
    else if e == ERR_DURABLE_WRITE_IN_PROGRESS then SyncWriteInProgress
    else if e == ERR_DURABLE_WRITE_RE_COMMIT_IN_PROGRESS then SyncWriteRecommit
    else if e in {ERR_CANNOT_GET_PORT, ERR_SOCKET_SHUTDOWN, ERR_NETWORK, ERR_CONNECTION_REFUSED, ERR_CONNECTION_RESET,
                  ERR_FD_LIMIT_REACHED} then SocketNotAvailable
    else if e in {ERR_NAMESERVER, ERR_NODE_UNREACHABLE, ERR_CONNECT_ERROR, ERR_UNKNOWN_HOST} then NodeNotAvailable
    else Unknown
  }

  /** lcb_retry_reason_is_always_retry */
  predicate AlwaysRetry(r: Reason) {
    r == NotMyVbucket || r == CollectionOutdated
  }

  /** mc_is_idempotent */
  predicate IsIdempotent(opcode: nat) {
    opcode in {0xb5, 0x00, 0xd0, 0x83, 0xbb, 0xba, 0x0a, 0x92, 0x91}
  }

  datatype Request = Request(idempotent: bool, attempts: nat)

  /** lcb_kv_should_retry; the strategy is the one of the settings. */
  predicate ShouldRetry(opcode: nat, attempts: nat, err: Status, strategy: (Request, Reason) -> bool) {
    var reason := ReasonFor(err);
    if err == ERR_AUTHENTICATION_FAILURE || err == ERR_TOPOLOGY_CHANGE || err == ERR_BUCKET_NOT_FOUND then true
    else if err == ERR_TIMEOUT || err == ERR_MAP_CHANGED || reason == Unknown then false
    else if AlwaysRetry(reason) then true
    else strategy(Request(IsIdempotent(opcode), attempts), reason)
  }

  /** The errors that are retried whatever the strategy says. */
  predicate Insistent(err: Status) {
    err in {ERR_AUTHENTICATION_FAILURE, ERR_BUCKET_NOT_FOUND, ERR_TOPOLOGY_CHANGE, ERR_NOT_MY_VBUCKET,
            ERR_COLLECTION_NOT_FOUND, ERR_SCOPE_NOT_FOUND}
  }

  /** They are retried even under a strategy that never retries, and no others are. */
  lemma AlwaysRetriedIff(opcode: nat, attempts: nat, err: Status)
    ensures ShouldRetry(opcode, attempts, err, (q, r) => false) <==> Insistent(err)
  {
  }

  /** Commands that only read: GET and its relatives, NOOP, the two OBSERVE commands. */
  ghost predicate Reads(opcode: nat) {
    opcode in {0x00, 0x0a, 0x83, 0x91, 0x92, 0xb5, 0xba, 0xbb, 0xd0}
  }

  /** The errors a strategy is asked about, by the reason it is given. */
  ghost function AskedWith(r: Reason): set<Status> {
    match r
    case Locked => {ERR_DOCUMENT_LOCKED}
    case TemporaryFailure => {ERR_TEMPORARY_FAILURE}
    case SyncWriteInProgress => {ERR_DURABLE_WRITE_IN_PROGRESS}
    case SyncWriteRecommit => {ERR_DURABLE_WRITE_RE_COMMIT_IN_PROGRESS}
    case SocketNotAvailable =>
      {ERR_NETWORK, ERR_FD_LIMIT_REACHED, ERR_CONNECTION_REFUSED, ERR_SOCKET_SHUTDOWN, ERR_CONNECTION_RESET,
       ERR_CANNOT_GET_PORT}
    case NodeNotAvailable => {ERR_NODE_UNREACHABLE, ERR_NAMESERVER, ERR_UNKNOWN_HOST, ERR_CONNECT_ERROR}
    case _ => {}
  }

  /** An error for which the retry strategy is asked. */
  ghost predicate Decided(err: Status) {
    exists r :: err in AskedWith(r)
  }

  /** Every error is retried anyway, never retried, or put to the strategy with its reason and what the packet is. */
  lemma StrategyHears(opcode: nat, attempts: nat, err: Status, strategy: (Request, Reason) -> bool)
    ensures Insistent(err) ==> ShouldRetry(opcode, attempts, err, strategy) && !Decided(err)
    ensures !Insistent(err) && !Decided(err) ==> !ShouldRetry(opcode, attempts, err, strategy)
    ensures forall r :: err in AskedWith(r) ==>
      (ShouldRetry(opcode, attempts, err, strategy) <==> strategy(Request(Reads(opcode), attempts), r))
  {
    assert ReasonFor(err) !in {Unknown, NotMyVbucket, CollectionOutdated} ==> err in AskedWith(ReasonFor(err));
  }

  /** lcb_retry_strategy_best_effort, the default; the reasons that allow it for operations that are not idempotent. */
  predicate BestEffort(q: Request, r: Reason) {
    q.idempotent || r != Unknown
  }

  /** By default everything the strategy is asked about is retried, whether the operation may be repeated or not. */
  lemma BestEffortRetries(opcode: nat, attempts: nat, err: Status)
    ensures ShouldRetry(opcode, attempts, err, BestEffort) <==> Insistent(err) || Decided(err)
  {
    StrategyHears(opcode, attempts, err, BestEffort);
  }

  /** The two tables agree: of the network errors the strategy is asked about all but four. */
  lemma NetworkErrorsAsked(err: Status)
    ensures IsNetwork(err) <==> err in AskedWith(SocketNotAvailable) + AskedWith(NodeNotAvailable) ||
                                err in {ERR_TIMEOUT, ERR_NOT_MY_VBUCKET, ERR_TOO_MANY_REDIRECTS, ERR_PROTOCOL_ERROR}
  {
  }
}
