/**
 * `ConcurrentDataSourceHealthChecker`: which data sources `check` schedules,
 * the lazily created scheduler, and one run of a scheduled task (a tick): up
 * to `recheckTimes` attempts to open a connection, prepare the detect
 * statement and execute it, with cleanup after each attempt and a verdict
 * reported through `onAvailable` or `onUnavailable`.
 *
 * A tick is modelled as the trace of what it does. What each backend call of
 * attempt `i` answers is the parameter `probe(i)`.
 */
module HealthChecker {
  import opened Wrappers
  import opened Faults

  /** What the backend answers during one attempt. */
  datatype Probe = Probe(
    connects: bool,           // `dataSource.getConnection()` returns
    prepares: bool,           // `connection.prepareStatement(detectSql)` returns
    executes: bool,           // `statement.execute()` returns
    statementCloses: bool,    // `statement.close()` returns
    connectionCloses: bool,   // `connection.close()` returns
    sleepInterrupted: bool)   // the sleep before the next attempt is interrupted

  /** One step of a tick; `ok` says whether the call returned or raised. */
  datatype Action =
    | GetConnection(ok: bool)
    | PrepareStatement(ok: bool)
    | Execute(ok: bool)
    | OnAvailable
    | OnUnavailable
    | Sleep(interrupted: bool)
    | CloseStatement(ok: bool)
    | CloseConnection(ok: bool)

  /** An attempt succeeds when the connection opens and the detect statement is prepared and executes. */
  predicate Succeeds(p: Probe) {
    p.connects && p.prepares && p.executes
  }

  /**
   * One pass of the `for` body: the `try` block, then the `catch` block if a
   * call raised (a sleep before another attempt, or the verdict after the last
   * one), then the `finally` block closing what was opened.
   */
  function Attempt(p: Probe, last: bool): seq<Action> {
    var handler := if last then OnUnavailable else Sleep(p.sleepInterrupted);
    if !p.connects then
      [GetConnection(false), handler]
    else if !p.prepares then
      [GetConnection(true), PrepareStatement(false), handler, CloseConnection(p.connectionCloses)]
    else if !p.executes then
      [GetConnection(true), PrepareStatement(true), Execute(false), handler,
       CloseStatement(p.statementCloses), CloseConnection(p.connectionCloses)]
    else
      [GetConnection(true), PrepareStatement(true), Execute(true), OnAvailable,
       CloseStatement(p.statementCloses), CloseConnection(p.connectionCloses)]
  }

  /** The attempts `i`, `i + 1`, ... of a tick with `recheckTimes == n`, up to the first that succeeds. */
  function TickFrom(probe: nat -> Probe, n: int, i: nat): seq<Action>
    decreases if i < n then n - i else 0
  {
    if i >= n then []
    else
      var a := Attempt(probe(i), i == n - 1);
      if Succeeds(probe(i)) then a else a + TickFrom(probe, n, i + 1)
  }

  /** One tick. */
  function Tick(probe: nat -> Probe, n: int): seq<Action> {
    TickFrom(probe, n, 0)
  }

  // ---------------------------------------------------------------------------
  // Counting steps of a trace
  // ---------------------------------------------------------------------------

  /** What kind of step an action is, regardless of how a close or a sleep went. */
  datatype Kind =
    | Connected | NotConnected | Prepared | NotPrepared | Executed | NotExecuted
    | Available | Unavailable | Slept | StatementClosed | ConnectionClosed

  /** The kind of the step `a`. */
  function KindOf(a: Action): Kind {
    match a
    case GetConnection(ok) => if ok then Connected else NotConnected
    case PrepareStatement(ok) => if ok then Prepared else NotPrepared
    case Execute(ok) => if ok then Executed else NotExecuted
    case OnAvailable => Available
    case OnUnavailable => Unavailable
    case Sleep(_) => Slept
    case CloseStatement(_) => StatementClosed
    case CloseConnection(_) => ConnectionClosed
  }

  /** The kinds of the steps of `t`, in order. */
  function Kinds(t: seq<Action>): (r: seq<Kind>)
    ensures |r| == |t| && forall i :: 0 <= i < |t| ==> r[i] == KindOf(t[i])
  {
    seq(|t|, i requires 0 <= i < |t| => KindOf(t[i]))
  }

  /** How many steps of `t` are of kind `k`. */
  function Times(t: seq<Action>, k: Kind): nat {
    if t == [] then 0 else Ind(t[0], k) + Times(t[1..], k)
  }

  /** Whether the step `a` is of kind `k`, as a count. */
  function Ind(a: Action, k: Kind): nat {
    if KindOf(a) == k then 1 else 0
  }

  /** How many attempts `t` makes: its `getConnection` calls. */
  function Attempts(t: seq<Action>): nat {
    Times(t, Connected) + Times(t, NotConnected)
  }

  /** The kinds of a trace written in two parts are those of each part, in order. */
  lemma KindsAppend(a: seq<Action>, b: seq<Action>)
    ensures Kinds(a + b) == Kinds(a) + Kinds(b)
  {
  }

  /** Counting splits over a trace written in two parts. */
  lemma {:induction false} TimesAppend(a: seq<Action>, b: seq<Action>, k: Kind)
    ensures Times(a + b, k) == Times(a, k) + Times(b, k)
    decreases |a|
  {
    if a == [] {
      assert a + b == b;
    } else {
      assert (a + b)[1..] == a[1..] + b;
      TimesAppend(a[1..], b, k);
    }
  }

  /** Counting over a two-step trace, step by step. */
  lemma TimesOfTwo(t: seq<Action>, k: Kind)
    requires |t| == 2
    ensures Times(t, k) == Ind(t[0], k) + Ind(t[1], k)
  {
    var u := t[1..];
    assert u[0] == t[1] && u[1..] == [];
    assert Times(u, k) == Ind(u[0], k) + Times(u[1..], k);
  }

  /** Counting over a four-step trace, step by step. */
  lemma TimesOfFour(t: seq<Action>, k: Kind)
    requires |t| == 4
    ensures Times(t, k) == Ind(t[0], k) + Ind(t[1], k) + Ind(t[2], k) + Ind(t[3], k)
  {
    assert t == t[..2] + t[2..];
    TimesAppend(t[..2], t[2..], k);
    TimesOfTwo(t[..2], k);
    TimesOfTwo(t[2..], k);
  }

  /** Counting over a six-step trace, step by step. */
  lemma TimesOfSix(t: seq<Action>, k: Kind)
    requires |t| == 6
    ensures Times(t, k) == Ind(t[0], k) + Ind(t[1], k) + Ind(t[2], k) + Ind(t[3], k) + Ind(t[4], k) + Ind(t[5], k)
  {
    assert t == t[..4] + t[4..];
    TimesAppend(t[..4], t[4..], k);
    TimesOfFour(t[..4], k);
    TimesOfTwo(t[4..], k);
  }

  // ---------------------------------------------------------------------------
  // One attempt
  // ---------------------------------------------------------------------------

  /**
   * How many steps of kind `k` an attempt makes, read off the probe: one
   * `getConnection` call, which opens a connection or not; a statement
   * prepared only on an open connection, and executed only once prepared;
   * `onAvailable` exactly when the attempt succeeds; after a failure, a sleep
   * if more attempts follow and `onUnavailable` after the last; one close per
   * connection opened and per statement prepared.
   */
  function Expected(p: Probe, last: bool, k: Kind): nat {
    match k
    case Connected => if p.connects then 1 else 0
    case NotConnected => if p.connects then 0 else 1
    case Prepared => if p.connects && p.prepares then 1 else 0
    case NotPrepared => if p.connects && !p.prepares then 1 else 0
    case Executed => if Succeeds(p) then 1 else 0
    case NotExecuted => if p.connects && p.prepares && !p.executes then 1 else 0
    case Available => if Succeeds(p) then 1 else 0
    case Unavailable => if !Succeeds(p) && last then 1 else 0
    case Slept => if !Succeeds(p) && !last then 1 else 0
    case StatementClosed => if p.connects && p.prepares then 1 else 0
    case ConnectionClosed => if p.connects then 1 else 0
  }

  /** An attempt makes as many steps of each kind as `Expected` says. */
  lemma AttemptTimes(p: Probe, last: bool, k: Kind)
    ensures Times(Attempt(p, last), k) == Expected(p, last, k)
  {
    if !p.connects {
      NotConnectedTimes(p, last, k);
    } else if !p.prepares {
      NotPreparedTimes(p, last, k);
    } else if !p.executes {
      NotExecutedTimes(p, last, k);
    } else {
      SucceededTimes(p, k);
    }
  }

  /** `AttemptTimes` for an attempt whose `getConnection` call raised. */
  lemma NotConnectedTimes(p: Probe, last: bool, k: Kind)
    requires !p.connects
    ensures Times(Attempt(p, last), k) == Expected(p, last, k)
  {
    TimesOfTwo(Attempt(p, last), k);
  }

  /** `AttemptTimes` for an attempt whose `prepareStatement` call raised. */
  lemma NotPreparedTimes(p: Probe, last: bool, k: Kind)
    requires p.connects && !p.prepares
    ensures Times(Attempt(p, last), k) == Expected(p, last, k)
  {
    TimesOfFour(Attempt(p, last), k);
  }

  /** `AttemptTimes` for an attempt whose `execute` call raised. */
  lemma NotExecutedTimes(p: Probe, last: bool, k: Kind)
    requires p.connects && p.prepares && !p.executes
    ensures Times(Attempt(p, last), k) == Expected(p, last, k)
  {
    TimesOfSix(Attempt(p, last), k);
  }

  /** `AttemptTimes` for an attempt that succeeds, which does not depend on being the last. */
  lemma SucceededTimes(p: Probe, k: Kind)
    requires Succeeds(p)
    ensures Times(Attempt(p, false), k) == Expected(p, false, k)
    ensures Times(Attempt(p, true), k) == Expected(p, true, k)
  {
    assert Attempt(p, false) == Attempt(p, true);
    TimesOfSix(Attempt(p, true), k);
  }

  /**
   * An attempt starts with its `getConnection` call and ends with the cleanup:
   * the statement is closed, if one was prepared, before the connection, if
   * one was opened, and nothing follows.
   */
  lemma AttemptOrder(p: Probe, last: bool)
    ensures var t := Attempt(p, last);
            t[0] == GetConnection(p.connects)
            && (p.connects ==> t[|t| - 1] == CloseConnection(p.connectionCloses))
            && (p.connects && p.prepares ==> t[|t| - 2] == CloseStatement(p.statementCloses))
  {
  }

  /** A failed last attempt reports `onUnavailable` after its `getConnection` call. */
  lemma LastFailedAttemptReports(p: Probe)
    requires !Succeeds(p)
    ensures var t := Attempt(p, true);
            exists j :: 0 < j < |t| && t[j] == OnUnavailable
                        && forall m :: 0 <= m < |t| && t[m].GetConnection? ==> m < j
  {
    var t := Attempt(p, true);
    var j := if !p.connects then 1 else if !p.prepares then 2 else 3;
    assert t[j] == OnUnavailable;
  }

  /**
   * Only the outcomes of the three probing calls decide an attempt's verdict;
   * how the closes answer and whether the sleep is interrupted do not.
   */
  lemma AttemptVerdict(p: Probe, q: Probe, last: bool)
    requires p.connects == q.connects && p.prepares == q.prepares && p.executes == q.executes
    ensures Kinds(Attempt(p, last)) == Kinds(Attempt(q, last))
  {
  }

  // ---------------------------------------------------------------------------
  // A tick
  // ---------------------------------------------------------------------------

  /** A tick with `recheckTimes <= 0` makes no attempt and reports nothing. */
  lemma NoRecheckNoAttempt(probe: nat -> Probe, n: int)
    requires n <= 0
    ensures Tick(probe, n) == []
  {
  }

  /** How many steps of kind `k` the attempts `i`, `i + 1`, ... of a tick make, added up attempt by attempt. */
  function TickTimes(probe: nat -> Probe, n: int, i: nat, k: Kind): nat
    decreases if i < n then n - i else 0
  {
    if i >= n then 0
    else Expected(probe(i), i == n - 1, k) + (if Succeeds(probe(i)) then 0 else TickTimes(probe, n, i + 1, k))
  }

  /** Counting the steps of a tick is adding up the counts of its attempts. */
  lemma {:induction false} TickTimesMeaning(probe: nat -> Probe, n: int, i: nat, k: Kind)
    ensures Times(TickFrom(probe, n, i), k) == TickTimes(probe, n, i, k)
    decreases if i < n then n - i else 0
  {
    if i < n {
      var a := Attempt(probe(i), i == n - 1);
      AttemptTimes(probe(i), i == n - 1, k);
      if !Succeeds(probe(i)) {
        TickTimesMeaning(probe, n, i + 1, k);
        TimesAppend(a, TickFrom(probe, n, i + 1), k);
      }
    }
  }

  /** The counts of the attempts from `i` on, when the first to succeed is attempt `k`. */
  lemma {:induction false} SucceedsAtCounts(probe: nat -> Probe, n: int, k: nat, i: nat)
    requires i <= k < n
    requires forall j: nat :: j < k ==> !Succeeds(probe(j))
    requires Succeeds(probe(k))
    ensures TickTimes(probe, n, i, Connected) + TickTimes(probe, n, i, NotConnected) == k + 1 - i
    ensures TickTimes(probe, n, i, Slept) == k - i
    ensures TickTimes(probe, n, i, Available) == 1 && TickTimes(probe, n, i, Unavailable) == 0
    decreases k - i
  {
    if i < k {
      SucceedsAtCounts(probe, n, k, i + 1);
    }
  }

  /**
   * If attempt `k` is the first to succeed, the tick makes exactly `k + 1`
   * attempts and `k` sleeps, reports `onAvailable` once and never
   * `onUnavailable`.
   */
  lemma SucceedsAt(probe: nat -> Probe, n: int, k: nat)
    requires k < n
    requires forall j: nat :: j < k ==> !Succeeds(probe(j))
    requires Succeeds(probe(k))
    ensures var t := Tick(probe, n);
            Attempts(t) == k + 1 && Times(t, Slept) == k
            && Times(t, Available) == 1 && Times(t, Unavailable) == 0
  {
    SucceedsAtCounts(probe, n, k, 0);
    TickTimesMeaning(probe, n, 0, Connected);
    TickTimesMeaning(probe, n, 0, NotConnected);
    TickTimesMeaning(probe, n, 0, Slept);
    TickTimesMeaning(probe, n, 0, Available);
    TickTimesMeaning(probe, n, 0, Unavailable);
  }

  /** The counts of the attempts from `i` on, when every attempt fails. */
  lemma {:induction false} AllFailCounts(probe: nat -> Probe, n: int, i: nat)
    requires i < n
    requires forall j: nat :: j < n ==> !Succeeds(probe(j))
    ensures TickTimes(probe, n, i, Connected) + TickTimes(probe, n, i, NotConnected) == n - i
    ensures TickTimes(probe, n, i, Slept) == n - i - 1
    ensures TickTimes(probe, n, i, Available) == 0 && TickTimes(probe, n, i, Unavailable) == 1
    decreases n - i
  {
    if i < n - 1 {
      AllFailCounts(probe, n, i + 1);
    }
  }

  /** When every attempt from `i` on fails, the tick ends with the last attempt. */
  lemma {:induction false} AllFailEndsWithLast(probe: nat -> Probe, n: int, i: nat)
    requires i < n
    requires forall j: nat :: j < n ==> !Succeeds(probe(j))
    ensures var t, last := TickFrom(probe, n, i), Attempt(probe(n - 1), true);
            |last| <= |t| && t[|t| - |last|..] == last
    decreases n - i
  {
    var a, rest := Attempt(probe(i), i == n - 1), TickFrom(probe, n, i + 1);
    assert TickFrom(probe, n, i) == a + rest;
    if i < n - 1 {
      AllFailEndsWithLast(probe, n, i + 1);
      var last := Attempt(probe(n - 1), true);
      assert (a + rest)[|a + rest| - |last|..] == rest[|rest| - |last|..];
    } else {
      assert a + rest == a;
    }
  }

  /**
   * If all `n > 0` attempts fail, the tick makes `n` attempts and `n - 1`
   * sleeps, never reports `onAvailable`, and reports `onUnavailable` once,
   * after the last `getConnection` call.
   */
  lemma AllFail(probe: nat -> Probe, n: int)
    requires n > 0
    requires forall j: nat :: j < n ==> !Succeeds(probe(j))
    ensures var t := Tick(probe, n);
            Attempts(t) == n && Times(t, Slept) == n - 1
            && Times(t, Available) == 0 && Times(t, Unavailable) == 1
            && exists j :: 0 <= j < |t| && t[j] == OnUnavailable
                           && forall m :: 0 <= m < |t| && t[m].GetConnection? ==> m < j
  {
    AllFailCounts(probe, n, 0);
    TickTimesMeaning(probe, n, 0, Connected);
    TickTimesMeaning(probe, n, 0, NotConnected);
    TickTimesMeaning(probe, n, 0, Slept);
    TickTimesMeaning(probe, n, 0, Available);
    TickTimesMeaning(probe, n, 0, Unavailable);
    AllFailReportsLast(probe, n);
  }

  /** If all `n > 0` attempts fail, `onUnavailable` is reported after the last `getConnection` call. */
  lemma AllFailReportsLast(probe: nat -> Probe, n: int)
    requires n > 0
    requires forall j: nat :: j < n ==> !Succeeds(probe(j))
    ensures var t := Tick(probe, n);
            exists j :: 0 <= j < |t| && t[j] == OnUnavailable
                        && forall m :: 0 <= m < |t| && t[m].GetConnection? ==> m < j
  {
    AllFailEndsWithLast(probe, n, 0);
    var t := Tick(probe, n);
    var last := Attempt(probe(n - 1), true);
    var f := |t| - |last|;
    LastFailedAttemptReports(probe(n - 1));
    var j :| 0 < j < |last| && last[j] == OnUnavailable
             && forall m :: 0 <= m < |last| && last[m].GetConnection? ==> m < j;
    assert t[f + j] == last[j];
    forall m | 0 <= m < |t| && t[m].GetConnection?
      ensures m < f + j
    {
      if m >= f {
        assert t[m] == last[m - f];
      }
    }
  }

  /** Every connection the attempts from `i` on open and every statement they prepare is closed. */
  lemma {:induction false} ReleasesFrom(probe: nat -> Probe, n: int, i: nat)
    ensures TickTimes(probe, n, i, Connected) == TickTimes(probe, n, i, ConnectionClosed)
    ensures TickTimes(probe, n, i, Prepared) == TickTimes(probe, n, i, StatementClosed)
    decreases if i < n then n - i else 0
  {
    if i < n && !Succeeds(probe(i)) {
      ReleasesFrom(probe, n, i + 1);
    }
  }

  /** Every connection a tick opens and every statement it prepares is closed. */
  lemma TickReleases(probe: nat -> Probe, n: int)
    ensures var t := Tick(probe, n);
            Times(t, Connected) == Times(t, ConnectionClosed)
            && Times(t, Prepared) == Times(t, StatementClosed)
  {
    ReleasesFrom(probe, n, 0);
    TickTimesMeaning(probe, n, 0, Connected);
    TickTimesMeaning(probe, n, 0, ConnectionClosed);
    TickTimesMeaning(probe, n, 0, Prepared);
    TickTimesMeaning(probe, n, 0, StatementClosed);
  }

  /**
   * How the closes answer and whether sleeps are interrupted changes neither
   * the verdicts a tick reports nor how many attempts it makes: failures in
   * the cleanup are swallowed.
   */
  lemma {:induction false} CleanupDoesNotDecide(probe: nat -> Probe, other: nat -> Probe, n: int, i: nat)
    requires forall j: nat :: probe(j).connects == other(j).connects && probe(j).prepares == other(j).prepares
                              && probe(j).executes == other(j).executes
    ensures Kinds(TickFrom(probe, n, i)) == Kinds(TickFrom(other, n, i))
    decreases if i < n then n - i else 0
  {
    if i < n {
      var a, b := Attempt(probe(i), i == n - 1), Attempt(other(i), i == n - 1);
      AttemptVerdict(probe(i), other(i), i == n - 1);
      if !Succeeds(probe(i)) {
        CleanupDoesNotDecide(probe, other, n, i + 1);
        KindsAppend(a, TickFrom(probe, n, i + 1));
        KindsAppend(b, TickFrom(other, n, i + 1));
      }
    }
  }

  // ---------------------------------------------------------------------------
  // Scheduling
  // ---------------------------------------------------------------------------

  /** The data sources of `sources` that are not null, in order. */
  function NonNull(sources: seq<Option<nat>>): (r: seq<nat>)
    ensures forall x :: x in r <==> Some(x) in sources
  {
    if sources == [] then []
    else
      var init := sources[..|sources| - 1];
      var last := sources[|sources| - 1];
      assert sources == init + [last];
      NonNull(init) + (if last.Some? then [last.value] else [])
  }

  /** Filtering a list written in two parts filters each part and keeps their order. */
  lemma {:induction false} NonNullAppend(a: seq<Option<nat>>, b: seq<Option<nat>>)
    ensures NonNull(a + b) == NonNull(a) + NonNull(b)
    decreases |b|
  {
    if b == [] {
      assert a + b == a;
    } else {
      var b' := b[..|b| - 1];
      assert (a + b)[..|a + b| - 1] == a + b';
      assert (a + b)[|a + b| - 1] == b[|b| - 1];
      assert b == b' + [b[|b| - 1]];
      NonNullAppend(a, b');
    }
  }

  /** A single entry is kept, once, exactly when it is not null. */
  lemma NonNullSingle(x: Option<nat>)
    ensures NonNull([x]) == (if x.Some? then [x.value] else [])
  {
    assert [x][..0] == [];
  }

  /** The checker: its scheduler, created on first use, and the tasks scheduled so far. */
  class ConcurrentDataSourceHealthChecker {
    var recheckTimes: int
    var scheduler: Option<nat>
    /** How many schedulers were created. */
    var schedulersCreated: nat
    /** The data source each scheduled task checks, in scheduling order. */
    var scheduled: seq<nat>

    /** At most one scheduler is ever created, and it is the one in use. */
    predicate Valid()
      reads this
    {
      schedulersCreated == (if scheduler.Some? then 1 else 0)
    }

    /** A checker with no scheduler yet and nothing scheduled. */
    constructor (recheckTimes: int)
      ensures this.recheckTimes == recheckTimes && scheduler.None? && scheduled == [] && Valid()
    {
      this.recheckTimes := recheckTimes;
      scheduler := None;
      schedulersCreated := 0;
      scheduled := [];
    }

    /** `ensureInitScheduler`: creates the scheduler only if there is none. */
    method EnsureInitScheduler()
      requires Valid()
      modifies this
      ensures Valid() && scheduler.Some?
      ensures old(scheduler).Some? ==> scheduler == old(scheduler)
      ensures scheduled == old(scheduled) && recheckTimes == old(recheckTimes)
    {
      if scheduler.None? {
        scheduler := Some(schedulersCreated);
        schedulersCreated := schedulersCreated + 1;
      }
    }

    /**
     * `check(dataSources)`: a null array raises before anything is done;
     * otherwise one task is scheduled per data source that is not null.
     */
    method Check(dataSources: Option<seq<Option<nat>>>) returns (error: Option<Fault>)
      requires Valid()
      modifies this
      ensures Valid() && recheckTimes == old(recheckTimes)
      ensures dataSources.None? ==> error == Some(NullPointer) && unchanged(this)
      ensures dataSources.Some? ==>
                error.None? && scheduler.Some? && (old(scheduler).Some? ==> scheduler == old(scheduler))
                && scheduled == old(scheduled) + NonNull(dataSources.value)
    {
      if dataSources.None? {
        return Some(NullPointer);
      }
      EnsureInitScheduler();
      ScheduleEach(dataSources.value);
      error := None;
    }

    /** The loop of `check`: one task per data source that is not null, in order. */
    method ScheduleEach(sources: seq<Option<nat>>)
      modifies this`scheduled
      ensures scheduled == old(scheduled) + NonNull(sources)
    {
      var i := 0;
      while i < |sources|
        invariant 0 <= i <= |sources|
        invariant scheduled == old(scheduled) + NonNull(sources[..i])
      {
        assert sources[..i + 1] == sources[..i] + [sources[i]];
        NonNullAppend(sources[..i], [sources[i]]);
        NonNullSingle(sources[i]);
        var dataSource := sources[i];
        if dataSource.Some? {
          scheduled := scheduled + [dataSource.value];
        }
        i := i + 1;
      }
      assert sources[..i] == sources;
    }

    /** The scheduled task's `run()`: one tick of the checker. */
    method Run(probe: nat -> Probe) returns (trace: seq<Action>)
      ensures trace == Tick(probe, recheckTimes)
    {
      trace := [];
      var i := 0;
      while i < recheckTimes
        invariant 0 <= i && (recheckTimes > 0 ==> i <= recheckTimes)
        invariant Tick(probe, recheckTimes) == trace + TickFrom(probe, recheckTimes, i)
        decreases recheckTimes - i
      {
        var attempt, succeeded := TryOnce(probe(i), i == recheckTimes - 1);
        trace := trace + attempt;
        if succeeded {
          break;
        }
        i := i + 1;
      }
    }

    /** One pass of the `for` body of `run()`: its `try`, `catch` and `finally` blocks. */
    static method TryOnce(p: Probe, last: bool) returns (attempt: seq<Action>, succeeded: bool)
      ensures attempt == Attempt(p, last) && succeeded == Succeeds(p)
    {
      var connection := false;
      var statement := false;
      attempt := [];
      succeeded := false;
      // try
      attempt := attempt + [GetConnection(p.connects)];
      if p.connects {
        connection := true;
        attempt := attempt + [PrepareStatement(p.prepares)];
        if p.prepares {
          statement := true;
          attempt := attempt + [Execute(p.executes)];
          if p.executes {
            attempt := attempt + [OnAvailable];
            succeeded := true;
          }
        }
      }
      // catch (SQLException e)
      if !succeeded {
        if !last {
          attempt := attempt + [Sleep(p.sleepInterrupted)];
        } else {
          attempt := attempt + [OnUnavailable];
        }
      }
      // finally
      if statement {
        attempt := attempt + [CloseStatement(p.statementCloses)];
      }
      if connection {
        attempt := attempt + [CloseConnection(p.connectionCloses)];
      }
    }
  }
}
