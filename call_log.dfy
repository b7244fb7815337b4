/**
 * The backend as the session router sees it: opaque connection handles, the
 * calls it issues on them, what each call answered, and the two ways the
 * router issues a batch of calls (stop at the first failure, or issue them all
 * and keep the last failure).
 */
module Calls {
  import opened Wrappers
  import opened Faults
  import Routing

  /** An opaque backend connection. */
  type Handle = nat

  /** The operations the router issues on a backend connection. */
  datatype Op =
    | SetAutoCommit(autoCommit: bool)
    | SetTransactionIsolation(level: int)
    | SetCatalog(catalog: string)
    | Commit
    | Rollback
    | Close
    | GetWarnings
    | ClearWarnings
    | GetMetaData

  /** A call the router makes on the backend. */
  datatype Call =
    | Connect(forRead: bool, target: Routing.Open)  // `getConnection` on the data source `target` names
    | Invoke(handle: Handle, op: Op)                 // an operation on a bound connection
    | CloseStatement(statement: nat)                 // `close` on a statement the session tracks

  /** What a call answered: it returned, or it raised. */
  datatype Status = Done | Raised(fault: Fault)

  /** What a `getConnection` call answered: a new connection, or an exception. */
  datatype Acquire = Grant(handle: Handle) | Deny(fault: Fault)

  /** One call and its answer. */
  datatype Event = Event(call: Call, status: Status)

  /**
   * The answer to the `i`-th call of one operation; calls beyond the answers
   * supplied return normally.
   */
  function ReplyAt(replies: seq<Status>, i: nat): Status {
    if i < |replies| then replies[i] else Done
  }

  /** The answers left once the first has been used. */
  function Rest(replies: seq<Status>): (r: seq<Status>)
    ensures forall i: nat :: ReplyAt(r, i) == ReplyAt(replies, i + 1)
  {
    if replies == [] then [] else replies[1..]
  }

  // ---------------------------------------------------------------------------
  // Issuing calls one after another
  // ---------------------------------------------------------------------------

  /**
   * Calls issued one after another as straight-line Java issues them: each
   * call is made only if every call before it returned, so the first call that
   * raises is the last one made.
   */
  function InOrder(calls: seq<Call>, replies: seq<Status>): (r: seq<Event>)
    ensures |r| <= |calls|
    ensures forall i :: 0 <= i < |r| ==> r[i] == Event(calls[i], ReplyAt(replies, i))
    ensures forall i :: 0 <= i < |r| - 1 ==> r[i].status == Done
    ensures |r| < |calls| ==> r != [] && r[|r| - 1].status.Raised?
    ensures |r| == |calls| || (|r| < |calls| && ReplyAt(replies, |r| - 1).Raised?)
    decreases |calls|
  {
    if calls == [] then []
    else
      var e := Event(calls[0], ReplyAt(replies, 0));
      if e.status.Raised? then [e] else [e] + InOrder(calls[1..], Rest(replies))
  }

  /** What a batch answered as a whole: the answer of its last call, or `Done` if it made none. */
  function Outcome(events: seq<Event>): Status {
    if events == [] then Done else events[|events| - 1].status
  }

  /**
   * A batch issued in order answers `Done` exactly when every call was made
   * and returned, and otherwise raises what its first failing call raised.
   */
  lemma InOrderOutcome(calls: seq<Call>, replies: seq<Status>)
    ensures var es := InOrder(calls, replies);
            (Outcome(es) == Done <==> (|es| == |calls| && forall i :: 0 <= i < |calls| ==> ReplyAt(replies, i) == Done))
            && (Outcome(es).Raised? ==> exists k :: 0 <= k < |calls| && Outcome(es) == ReplyAt(replies, k)
                                          && forall i :: 0 <= i < k ==> ReplyAt(replies, i) == Done)
  {
    var es := InOrder(calls, replies);
    if es != [] {
      var n := |es|;
      assert Outcome(es) == es[n - 1].status == ReplyAt(replies, n - 1);
      assert forall i :: 0 <= i < n - 1 ==> ReplyAt(replies, i) == es[i].status == Done;
      if Outcome(es) == Done {
        assert n == |calls|;
        assert forall i :: 0 <= i < |calls| ==> ReplyAt(replies, i) == Done;
      } else {
        assert !(forall i :: 0 <= i < |calls| ==> ReplyAt(replies, i) == Done) by {
          assert ReplyAt(replies, n - 1) != Done;
        }
        assert 0 <= n - 1 < |calls| && Outcome(es) == ReplyAt(replies, n - 1);
      }
    }
  }

  // ---------------------------------------------------------------------------
  // Issuing every call whatever the others answer
  // ---------------------------------------------------------------------------

  /** Every call is made, whatever the ones before it answered. */
  function BestEffort(calls: seq<Call>, replies: seq<Status>): (r: seq<Event>)
    ensures |r| == |calls|
    ensures forall i :: 0 <= i < |r| ==> r[i] == Event(calls[i], ReplyAt(replies, i))
  {
    seq(|calls|, i requires 0 <= i < |calls| => Event(calls[i], ReplyAt(replies, i)))
  }

  /** A batch of one call makes it and answers what it answered. */
  lemma InOrderSingle(c: Call, replies: seq<Status>)
    ensures InOrder([c], replies) == [Event(c, ReplyAt(replies, 0))]
    ensures Outcome(InOrder([c], replies)) == ReplyAt(replies, 0)
  {
  }

  /** When every call of a batch returns, issuing it in order makes every call. */
  lemma InOrderAllDone(calls: seq<Call>, replies: seq<Status>)
    requires forall i :: 0 <= i < |calls| ==> ReplyAt(replies, i) == Done
    ensures InOrder(calls, replies) == BestEffort(calls, replies)
    ensures Outcome(InOrder(calls, replies)) == Done
  {
  }

  /** Issued in order, a batch stops right after the first call that raises. */
  lemma InOrderFirstRaise(calls: seq<Call>, replies: seq<Status>, k: nat)
    requires k < |calls| && ReplyAt(replies, k).Raised?
    requires forall i :: 0 <= i < k ==> ReplyAt(replies, i) == Done
    ensures InOrder(calls, replies) == BestEffort(calls[..k + 1], replies)
    ensures Outcome(InOrder(calls, replies)) == ReplyAt(replies, k)
  {
  }

  /** The failure a best-effort batch reports: the last one raised, or `Done` if none was. */
  function LastFailure(events: seq<Event>): Status {
    if events == [] then Done
    else if events[|events| - 1].status.Raised? then events[|events| - 1].status
    else LastFailure(events[..|events| - 1])
  }

  /** `LastFailure` is `Done` exactly when no call raised, and otherwise the last failure raised. */
  lemma {:induction false} LastFailureMeaning(events: seq<Event>)
    ensures var r := LastFailure(events);
            (r == Done <==> forall i :: 0 <= i < |events| ==> events[i].status == Done)
            && (r.Raised? ==> exists k :: 0 <= k < |events| && events[k].status == r
                                          && forall i :: k < i < |events| ==> events[i].status == Done)
    decreases |events|
  {
    if events != [] && events[|events| - 1].status == Done {
      var init := events[..|events| - 1];
      LastFailureMeaning(init);
      assert forall i :: 0 <= i < |init| ==> init[i] == events[i];
    }
  }

  /** The failure to report after one more call: its own if it raised, else the one before. */
  function KeepLast(last: Status, reply: Status): Status {
    if reply.Raised? then reply else last
  }

  /** A best-effort batch with one more call makes that call after the others. */
  lemma BestEffortSnoc(calls: seq<Call>, c: Call, replies: seq<Status>)
    ensures BestEffort(calls + [c], replies) == BestEffort(calls, replies) + [Event(c, ReplyAt(replies, |calls|))]
  {
  }

  /** Reporting the last failure can be done one call at a time. */
  lemma LastFailureStep(events: seq<Event>, e: Event)
    ensures LastFailure(events + [e]) == KeepLast(LastFailure(events), e.status)
  {
    assert (events + [e])[..|events|] == events;
  }

  // ---------------------------------------------------------------------------
  // Normalisation of a newly bound write connection
  // ---------------------------------------------------------------------------

  /**
   * The settings `normalizeConnection` pushes to a newly bound write
   * connection, in the order it pushes them: autocommit off if the session
   * recorded it off, the isolation level if one was recorded, the catalog if one
   * was recorded.
   */
  function NormalizePlan(isAutoCommit: bool, transactionIsolation: int, catalog: Option<string>): (r: seq<Op>)
    ensures |r| <= 3
    ensures SetAutoCommit(false) in r <==> !isAutoCommit
    ensures SetAutoCommit(true) !in r
    ensures forall level :: SetTransactionIsolation(level) in r <==> transactionIsolation != -1 && level == transactionIsolation
    ensures forall c :: SetCatalog(c) in r <==> catalog == Some(c)
    ensures forall op :: op in r ==> op.SetAutoCommit? || op.SetTransactionIsolation? || op.SetCatalog?
    ensures r == [] <==> isAutoCommit && transactionIsolation == -1 && catalog.None?
    ensures forall i, j :: 0 <= i < j < |r| ==> PlanRank(r[i]) < PlanRank(r[j])
  {
    (if !isAutoCommit then [SetAutoCommit(false)] else [])
    + (if transactionIsolation != -1 then [SetTransactionIsolation(transactionIsolation)] else [])
    + (if catalog.Some? then [SetCatalog(catalog.value)] else [])
  }

  /**
   * Where a setting comes in the order `normalizeConnection` pushes them:
   * autocommit, then the isolation level, then the catalog.
   */
  function PlanRank(op: Op): nat {
    match op
    case SetAutoCommit(_) => 0
    case SetTransactionIsolation(_) => 1
    case SetCatalog(_) => 2
    case _ => 3
  }

  /** The calls that carry `ops` to the connection `h`. */
  function OnHandle(h: Handle, ops: seq<Op>): (r: seq<Call>)
    ensures |r| == |ops| && forall i :: 0 <= i < |ops| ==> r[i] == Invoke(h, ops[i])
  {
    seq(|ops|, i requires 0 <= i < |ops| => Invoke(h, ops[i]))
  }

  // ---------------------------------------------------------------------------
  // Connections acquired
  // ---------------------------------------------------------------------------

  /** How many `getConnection` calls for reads (or for writes) in `log` returned a connection. */
  function Granted(log: seq<Event>, forRead: bool): nat {
    if log == [] then 0
    else
      var e := log[|log| - 1];
      Granted(log[..|log| - 1], forRead) + (if e.call.Connect? && e.call.forRead == forRead && e.status == Done then 1 else 0)
  }

  /** Counting granted connections splits over a log written in two parts. */
  lemma {:induction false} GrantedAppend(a: seq<Event>, b: seq<Event>, forRead: bool)
    ensures Granted(a + b, forRead) == Granted(a, forRead) + Granted(b, forRead)
    decreases |b|
  {
    if b != [] {
      var b' := b[..|b| - 1];
      assert (a + b)[..|a + b| - 1] == a + b';
      assert (a + b)[|a + b| - 1] == b[|b| - 1];
      GrantedAppend(a, b', forRead);
    } else {
      assert a + b == a;
    }
  }

  /** Calls on bound connections and on statements acquire nothing. */
  lemma {:induction false} NoConnectNoGrant(es: seq<Event>, forRead: bool)
    requires forall i :: 0 <= i < |es| ==> !es[i].call.Connect?
    ensures Granted(es, forRead) == 0
    decreases |es|
  {
    if es != [] {
      NoConnectNoGrant(es[..|es| - 1], forRead);
    }
  }
}
