/**
 * The state of one router session (`AbstractConnection` with
 * `MasterslaveConnection` on top) as a value, and what each operation does to
 * it: the result it answers and the backend calls it adds to the log. The
 * class `Masterslave.MasterslaveConnection` is proved to make exactly these
 * transitions; the lemmas here state what the router promises about them.
 */
module Session {
  import opened Wrappers
  import opened Faults
  import opened Calls
  import Routing

  /** A statement the session tracks, and whether it reported itself closed. */
  datatype StatementRef = StatementRef(id: nat, isClosed: bool)

  /** The fields of a session, and the calls it has made on the backend so far. */
  datatype Session = Session(
    closed: bool,
    isAutoCommit: bool,
    transactionIsolation: int,
    catalog: Option<string>,
    readConnection: Option<Handle>,
    writeConnection: Option<Handle>,
    openedStatements: seq<StatementRef>,
    log: seq<Event>)

  /** A session as `getConnection` hands it out: open, autocommit on, no isolation level, catalog or connection. */
  const NewSession := Session(false, true, -1, None, None, None, [], [])

  /** `ResultSet.CLOSE_CURSORS_AT_COMMIT`, the only holdability the router offers. */
  const CloseCursorsAtCommit := 2

  /**
   * The session holds a connection for a role exactly when the log shows one
   * `getConnection` for that role that returned a connection: at most one read
   * and one write connection are ever acquired.
   */
  predicate Valid(s: Session) {
    Granted(s.log, true) == (if s.readConnection.Some? then 1 else 0)
    && Granted(s.log, false) == (if s.writeConnection.Some? then 1 else 0)
  }

  /** `checkClosed`: raises exactly when the session is closed. */
  function CheckClosed(s: Session): (r: Status)
    ensures r.Raised? <==> s.closed
    ensures r.Raised? ==> r.fault == SqlError(ClosedMessage)
  {
    if s.closed then Raised(SqlError(ClosedMessage)) else Done
  }

  /** The session with `events` added to its log. */
  function Logged(s: Session, events: seq<Event>): Session {
    s.(log := s.log + events)
  }

  // ---------------------------------------------------------------------------
  // Lazy binding
  // ---------------------------------------------------------------------------

  /**
   * One `getConnection` for a role: a resolution that raised makes no call; a
   * call that returned a connection binds it to the role.
   */
  function Acquired(s: Session, forRead: bool, resolved: Result<Routing.Open, Fault>, acquire: Acquire)
    : (Session, Result<Handle, Fault>)
  {
    if resolved.Err? then (s, Err(resolved.error))
    else
      var call := Connect(forRead, resolved.value);
      match acquire
      case Deny(f) => (Logged(s, [Event(call, Raised(f))]), Err(f))
      case Grant(h) =>
        var bound := if forRead then s.(readConnection := Some(h)) else s.(writeConnection := Some(h));
        (Logged(bound, [Event(call, Done)]), Ok(h))
  }

  /** The settings normalisation pushes to a write connection bound in state `s`. */
  function PlanOf(s: Session): seq<Op> {
    NormalizePlan(s.isAutoCommit, s.transactionIsolation, s.catalog)
  }

  /**
   * `normalizeConnection`: pushes the recorded settings to the write
   * connection one after another, stopping at the first failure; with no write
   * connection bound, the first push dereferences null.
   */
  function Normalize(s: Session, replies: seq<Status>): (Session, Status) {
    var plan := PlanOf(s);
    if plan == [] then (s, Done)
    else if s.writeConnection.None? then (s, Raised(NullPointer))
    else
      var events := InOrder(OnHandle(s.writeConnection.value, plan), replies);
      (Logged(s, events), Outcome(events))
  }

  /**
   * `targetConnection(read)`: a bound write connection serves everything;
   * otherwise a read binds a read connection if none is bound, and a write binds
   * a write connection and normalises it.
   */
  function Target(s: Session, read: bool, flags: Routing.Flags, username: Option<string>,
                  password: Option<string>, acquire: Acquire, replies: seq<Status>)
    : (Session, Result<Handle, Fault>)
  {
    if s.writeConnection.Some? then (s, Ok(s.writeConnection.value))
    else if read then
      if s.readConnection.None? then Acquired(s, true, Routing.ReadConnectionAs(flags, username, password), acquire)
      else (s, Ok(s.readConnection.value))
    else
      var (s1, r1) := Acquired(s, false, Routing.WriteConnectionAs(flags, username, password), acquire);
      if r1.Err? then (s1, r1)
      else
        var (s2, st) := Normalize(s1, replies);
        (s2, if st.Raised? then Err(st.fault) else r1)
  }

  // ---------------------------------------------------------------------------
  // Settings
  // ---------------------------------------------------------------------------

  /** `getAutoCommit`. */
  function GetAutoCommit(s: Session): (r: Result<bool, Fault>)
    ensures r.Err? <==> s.closed
    ensures r.Ok? ==> r.value == s.isAutoCommit
    ensures r.Err? ==> r.error == SqlError(ClosedMessage)
  {
    if s.closed then Err(SqlError(ClosedMessage)) else Ok(s.isAutoCommit)
  }

  /** `getTransactionIsolation`. */
  function GetTransactionIsolation(s: Session): (r: Result<int, Fault>)
    ensures r.Err? <==> s.closed
    ensures r.Ok? ==> r.value == s.transactionIsolation
    ensures r.Err? ==> r.error == SqlError(ClosedMessage)
  {
    if s.closed then Err(SqlError(ClosedMessage)) else Ok(s.transactionIsolation)
  }

  /** `setTransactionIsolation`: records the level; no backend call. */
  function SetTransactionIsolation(s: Session, level: int): (Session, Status) {
    if s.closed then (s, CheckClosed(s)) else (s.(transactionIsolation := level), Done)
  }

  /**
   * `setAutoCommit`: a new value is recorded and pushed to the write
   * connection if one is bound.
   */
  function SetAutoCommit(s: Session, autoCommit: bool, replies: seq<Status>): (Session, Status) {
    if s.closed then (s, CheckClosed(s))
    else if s.isAutoCommit == autoCommit then (s, Done)
    else
      var s1 := s.(isAutoCommit := autoCommit);
      if s.writeConnection.None? then (s1, Done)
      else
        var events := InOrder([Invoke(s.writeConnection.value, Op.SetAutoCommit(autoCommit))], replies);
        (Logged(s1, events), Outcome(events))
  }

  /** The calls that push `op` to the read connection, then to the write connection, when bound. */
  function OnBound(s: Session, op: Op): (r: seq<Call>)
    ensures |r| <= 2
    ensures forall i :: 0 <= i < |r| ==>
              r[i].Invoke? && r[i].op == op
              && (Some(r[i].handle) == s.readConnection || Some(r[i].handle) == s.writeConnection)
  {
    (if s.readConnection.Some? then [Invoke(s.readConnection.value, op)] else [])
    + (if s.writeConnection.Some? then [Invoke(s.writeConnection.value, op)] else [])
  }

  /**
   * `setCatalog`: a null catalog raises on `equals`; a new value is recorded
   * and pushed to the read connection, then to the write connection.
   */
  function SetCatalog(s: Session, catalog: Option<string>, replies: seq<Status>): (Session, Status) {
    if s.closed then (s, CheckClosed(s))
    else if catalog.None? then (s, Raised(NullPointer))
    else if catalog == s.catalog then (s, Done)
    else
      var events := InOrder(OnBound(s, Op.SetCatalog(catalog.value)), replies);
      (Logged(s.(catalog := catalog), events), Outcome(events))
  }

  // ---------------------------------------------------------------------------
  // Transactions
  // ---------------------------------------------------------------------------

  /** `commit` (with `op == Commit`) and `rollback` (with `op == Rollback`). */
  function EndTransaction(s: Session, op: Op, replies: seq<Status>): (Session, Status) {
    if s.closed then (s, CheckClosed(s))
    else if s.isAutoCommit || s.writeConnection.None? then (s, Done)
    else
      var events := InOrder([Invoke(s.writeConnection.value, op)], replies);
      (Logged(s, events), Outcome(events))
  }

  // ---------------------------------------------------------------------------
  // Warnings and metadata
  // ---------------------------------------------------------------------------

  /** The connection queries go to: the read connection if bound, else the write connection. */
  function Preferred(s: Session): Option<Handle> {
    if s.readConnection.Some? then s.readConnection else s.writeConnection
  }

  /** One query on the connection `h`: answers `h` (whose answer is returned) or what it raised. */
  function Query(s: Session, h: Handle, op: Op, replies: seq<Status>): (Session, Result<Handle, Fault>) {
    var events := InOrder([Invoke(h, op)], replies);
    (Logged(s, events), if Outcome(events).Raised? then Err(Outcome(events).fault) else Ok(h))
  }

  /** `getWarnings`: asks the preferred connection; with none bound, answers null. */
  function GetWarnings(s: Session, replies: seq<Status>): (Session, Result<Option<Handle>, Fault>) {
    if s.closed then (s, Err(SqlError(ClosedMessage)))
    else if Preferred(s).None? then (s, Ok(None))
    else
      var (s1, r) := Query(s, Preferred(s).value, Op.GetWarnings, replies);
      (s1, if r.Err? then Err(r.error) else Ok(Some(r.value)))
  }

  /** `clearWarnings`: clears the read connection, then the write connection. */
  function ClearWarnings(s: Session, replies: seq<Status>): (Session, Status) {
    if s.closed then (s, CheckClosed(s))
    else
      var events := InOrder(OnBound(s, Op.ClearWarnings), replies);
      (Logged(s, events), Outcome(events))
  }

  /**
   * `getMetaData`: asks the preferred connection; with none bound, binds a
   * read connection, normalises (which targets the still unbound write
   * connection), then asks the read connection.
   */
  function GetMetaData(s: Session, flags: Routing.Flags, username: Option<string>, password: Option<string>,
                       acquire: Acquire, replies: seq<Status>): (Session, Result<Handle, Fault>)
  {
    if s.closed then (s, Err(SqlError(ClosedMessage)))
    else if Preferred(s).Some? then Query(s, Preferred(s).value, Op.GetMetaData, replies)
    else
      var (s1, r1) := Acquired(s, true, Routing.ReadConnectionAs(flags, username, password), acquire);
      if r1.Err? then (s1, r1)
      else
        var (s2, st) := Normalize(s1, replies);
        if st.Raised? then (s2, Err(st.fault))
        else Query(s2, r1.value, Op.GetMetaData, replies)
  }

  // ---------------------------------------------------------------------------
  // Close
  // ---------------------------------------------------------------------------

  /** The `close` calls for the tracked statements that are not closed yet, in order. */
  function StatementCloses(stmts: seq<StatementRef>): (r: seq<Call>)
    ensures |r| <= |stmts|
    ensures forall c :: c in r ==> c.CloseStatement?
  {
    if stmts == [] then []
    else
      var last := stmts[|stmts| - 1];
      StatementCloses(stmts[..|stmts| - 1]) + (if last.isClosed then [] else [CloseStatement(last.id)])
  }

  /** The `close` calls for the connections of `conns` that are bound, in order. */
  function ConnectionCloses(conns: seq<Option<Handle>>): (r: seq<Call>)
    ensures |r| <= |conns|
    ensures forall c :: c in r ==> c.Invoke? && c.op == Op.Close && Some(c.handle) in conns
  {
    if conns == [] then []
    else
      var last := conns[|conns| - 1];
      ConnectionCloses(conns[..|conns| - 1]) + (if last.Some? then [Invoke(last.value, Op.Close)] else [])
  }

  /** The calls `close` makes: the open statements, then the write connection, then the read connection. */
  function CloseCalls(s: Session): seq<Call> {
    StatementCloses(s.openedStatements) + ConnectionCloses([s.writeConnection, s.readConnection])
  }

  /**
   * `close`: marks the session closed, then makes every call of `CloseCalls`
   * whatever the earlier ones answered, and raises the last failure.
   */
  function Close(s: Session, replies: seq<Status>): (Session, Status) {
    var events := BestEffort(CloseCalls(s), replies);
    (Logged(s.(closed := true), events), LastFailure(events))
  }

  // ---------------------------------------------------------------------------
  // Operations the router refuses
  // ---------------------------------------------------------------------------

  /** The `Connection` operations that always raise `UnsupportedOperationException`. */
  datatype Refused =
    | PrepareCall(sql: string)                   // `prepareCall(sql)`
    | PrepareCallTyped(sql: string)              // `prepareCall(sql, resultSetType, resultSetConcurrency)`
    | PrepareCallHoldable(sql: string)           // `prepareCall(sql, type, concurrency, holdability)`
    | RollbackToSavepoint
    | SetSavepoint
    | SetNamedSavepoint(savepointName: Option<string>)
    | ReleaseSavepoint
    | SetHoldability(holdability: int)
    | GetTypeMap
    | SetTypeMap
    | NativeSql(nativeSql: Option<string>)
    | GetCatalog

  /** What a refused operation raises, whatever the state of the session, closed or not. */
  function RefusedFault(op: Refused): (f: Fault)
    ensures f.Unsupported?
    ensures op.PrepareCall? || op.PrepareCallHoldable? ==> f.message == "callable statement:" + op.sql
    ensures op.PrepareCallTyped? ==> f.message == op.sql
  {
    match op
    case PrepareCall(sql) => Unsupported("callable statement:" + sql)
    case PrepareCallTyped(sql) => Unsupported(sql)
    case PrepareCallHoldable(sql) => Unsupported("callable statement:" + sql)
    case RollbackToSavepoint => Unsupported("rollback")
    case SetSavepoint => Unsupported("setSavepoint")
    case SetNamedSavepoint(_) => Unsupported("setSavepoint")
    case ReleaseSavepoint => Unsupported("releaseSavepoint")
    case SetHoldability(_) => Unsupported("setHoldability")
    case GetTypeMap => Unsupported("getTypeMap")
    case SetTypeMap => Unsupported("setTypeMap")
    case NativeSql(_) => Unsupported("nativeSQL")
    case GetCatalog => Unsupported("getCatalog")
  }

  // ===========================================================================
  // What the router promises
  // ===========================================================================

  /** A new session is open, in autocommit, with no isolation level, catalog or connection, and valid. */
  lemma NewSessionDefaults()
    ensures !NewSession.closed && NewSession.isAutoCommit && NewSession.transactionIsolation == -1
    ensures NewSession.catalog.None? && NewSession.readConnection.None? && NewSession.writeConnection.None?
    ensures NewSession.log == [] && Valid(NewSession)
  {
  }

  /** Logging calls that acquire nothing keeps the session valid. */
  lemma LoggedKeepsValid(s: Session, events: seq<Event>)
    requires Valid(s)
    requires forall i :: 0 <= i < |events| ==> !events[i].call.Connect?
    ensures Valid(Logged(s, events))
  {
    GrantedAppend(s.log, events, true);
    GrantedAppend(s.log, events, false);
    NoConnectNoGrant(events, true);
    NoConnectNoGrant(events, false);
  }

  /** Calls issued in order on bound connections acquire nothing. */
  lemma InOrderOnHandles(calls: seq<Call>, replies: seq<Status>)
    requires forall i :: 0 <= i < |calls| ==> !calls[i].Connect?
    ensures var es := InOrder(calls, replies); forall i :: 0 <= i < |es| ==> !es[i].call.Connect?
  {
  }

  /** An acquisition for a role that has no connection keeps the session valid. */
  lemma AcquiredKeepsValid(s: Session, forRead: bool, resolved: Result<Routing.Open, Fault>, acquire: Acquire)
    requires Valid(s)
    requires forRead ==> s.readConnection.None?
    requires !forRead ==> s.writeConnection.None?
    ensures Valid(Acquired(s, forRead, resolved, acquire).0)
  {
    if resolved.Ok? {
      var call := Connect(forRead, resolved.value);
      match acquire
      case Deny(f) =>
        GrantedAppend(s.log, [Event(call, Raised(f))], true);
        GrantedAppend(s.log, [Event(call, Raised(f))], false);
        assert Granted([Event(call, Raised(f))], true) == 0;
        assert Granted([Event(call, Raised(f))], false) == 0;
      case Grant(h) =>
        GrantedAppend(s.log, [Event(call, Done)], true);
        GrantedAppend(s.log, [Event(call, Done)], false);
        assert Granted([Event(call, Done)], forRead) == 1;
        assert Granted([Event(call, Done)], !forRead) == 0;
    }
  }

  /** Normalisation calls only the write connection, and acquires nothing. */
  lemma NormalizeKeepsValid(s: Session, replies: seq<Status>)
    requires Valid(s)
    ensures Valid(Normalize(s, replies).0)
  {
    var plan := PlanOf(s);
    if plan != [] && s.writeConnection.Some? {
      LoggedKeepsValid(s, InOrder(OnHandle(s.writeConnection.value, plan), replies));
    }
  }

  /**
   * Binding keeps the session valid: whatever the requests and the answers,
   * a session never holds more than one read and one write connection.
   */
  lemma TargetKeepsValid(s: Session, read: bool, flags: Routing.Flags, username: Option<string>,
                         password: Option<string>, acquire: Acquire, replies: seq<Status>)
    requires Valid(s)
    ensures Valid(Target(s, read, flags, username, password, acquire, replies).0)
  {
    if s.writeConnection.None? {
      if read {
        if s.readConnection.None? {
          AcquiredKeepsValid(s, true, Routing.ReadConnectionAs(flags, username, password), acquire);
        }
      } else {
        var resolved := Routing.WriteConnectionAs(flags, username, password);
        AcquiredKeepsValid(s, false, resolved, acquire);
        var (s1, r1) := Acquired(s, false, resolved, acquire);
        if r1.Ok? {
          NormalizeKeepsValid(s1, replies);
        }
      }
    }
  }

  /** Calls issued in order on bound connections acquire nothing, so the session stays valid. */
  lemma OnHandlesKeepsValid(s: Session, calls: seq<Call>, replies: seq<Status>)
    requires Valid(s)
    requires forall i :: 0 <= i < |calls| ==> calls[i].Invoke?
    ensures Valid(Logged(s, InOrder(calls, replies)))
  {
    InOrderOnHandles(calls, replies);
    LoggedKeepsValid(s, InOrder(calls, replies));
  }

  /** `setAutoCommit` calls only the write connection: the session stays valid. */
  lemma SetAutoCommitKeepsValid(s: Session, autoCommit: bool, replies: seq<Status>)
    requires Valid(s)
    ensures Valid(SetAutoCommit(s, autoCommit, replies).0)
  {
    if !s.closed && s.isAutoCommit != autoCommit && s.writeConnection.Some? {
      OnHandlesKeepsValid(s.(isAutoCommit := autoCommit),
                          [Invoke(s.writeConnection.value, Op.SetAutoCommit(autoCommit))], replies);
    }
  }

  /** `setCatalog` calls only the bound connections: the session stays valid. */
  lemma SetCatalogKeepsValid(s: Session, catalog: Option<string>, replies: seq<Status>)
    requires Valid(s)
    ensures Valid(SetCatalog(s, catalog, replies).0)
  {
    if !s.closed && catalog.Some? && catalog != s.catalog {
      OnHandlesKeepsValid(s.(catalog := catalog), OnBound(s, Op.SetCatalog(catalog.value)), replies);
    }
  }

  /** `commit` and `rollback` call only the write connection: the session stays valid. */
  lemma EndTransactionKeepsValid(s: Session, op: Op, replies: seq<Status>)
    requires Valid(s)
    ensures Valid(EndTransaction(s, op, replies).0)
  {
    if !s.closed && !s.isAutoCommit && s.writeConnection.Some? {
      OnHandlesKeepsValid(s, [Invoke(s.writeConnection.value, op)], replies);
    }
  }

  /** `getWarnings` calls only the preferred connection: the session stays valid. */
  lemma GetWarningsKeepsValid(s: Session, replies: seq<Status>)
    requires Valid(s)
    ensures Valid(GetWarnings(s, replies).0)
  {
    if !s.closed && Preferred(s).Some? {
      OnHandlesKeepsValid(s, [Invoke(Preferred(s).value, Op.GetWarnings)], replies);
    }
  }

  /** `clearWarnings` calls only the bound connections: the session stays valid. */
  lemma ClearWarningsKeepsValid(s: Session, replies: seq<Status>)
    requires Valid(s)
    ensures Valid(ClearWarnings(s, replies).0)
  {
    if !s.closed {
      OnHandlesKeepsValid(s, OnBound(s, Op.ClearWarnings), replies);
    }
  }

  /** `close` closes statements and bound connections and acquires nothing: the session stays valid. */
  lemma CloseKeepsValid(s: Session, replies: seq<Status>)
    requires Valid(s)
    ensures Valid(Close(s, replies).0)
  {
    var calls := CloseCalls(s);
    var a, b := StatementCloses(s.openedStatements), ConnectionCloses([s.writeConnection, s.readConnection]);
    assert forall i :: 0 <= i < |calls| ==> !calls[i].Connect? by {
      forall i | 0 <= i < |calls|
        ensures !calls[i].Connect?
      {
        if i < |a| {
          assert calls[i] == a[i] && a[i] in a;
        } else {
          assert calls[i] == b[i - |a|] && b[i - |a|] in b;
        }
      }
    }
    LoggedKeepsValid(s.(closed := true), BestEffort(calls, replies));
  }

  /** A bound write connection serves reads and writes alike, and nothing is acquired or logged. */
  lemma WriteConnectionWins(s: Session, read: bool, flags: Routing.Flags, username: Option<string>,
                            password: Option<string>, acquire: Acquire, replies: seq<Status>)
    requires s.writeConnection.Some?
    ensures Target(s, read, flags, username, password, acquire, replies) == (s, Ok(s.writeConnection.value))
  {
  }

  /**
   * A connection is requested only when the role asked for has none and no
   * write connection is bound, and it is requested for that role.
   */
  lemma TargetConnectsOnlyWhenUnbound(s: Session, read: bool, flags: Routing.Flags, username: Option<string>,
                                      password: Option<string>, acquire: Acquire, replies: seq<Status>)
    ensures var s' := Target(s, read, flags, username, password, acquire, replies).0;
            |s'.log| >= |s.log| && s'.log[..|s.log|] == s.log
            && forall i :: |s.log| <= i < |s'.log| && s'.log[i].call.Connect? ==>
                 s.writeConnection.None? && s'.log[i].call.forRead == read
                 && (read ==> s.readConnection.None?) && i == |s.log|
  {
    if s.writeConnection.None? {
      if read {
        AcquiredConnectsOnce(s, true, Routing.ReadConnectionAs(flags, username, password), acquire);
      } else {
        var (s1, r1) := Acquired(s, false, Routing.WriteConnectionAs(flags, username, password), acquire);
        AcquiredConnectsOnce(s, false, Routing.WriteConnectionAs(flags, username, password), acquire);
        if r1.Ok? {
          var s2 := Normalize(s1, replies).0;
          NormalizeConnectsNothing(s1, replies);
          ConnectThenNone(s.log, s1.log, s2.log, false);
          assert Target(s, read, flags, username, password, acquire, replies).0 == s2;
        }
      }
    }
  }

  /**
   * A log extended by at most one `getConnection` and then by calls that are
   * not `getConnection` holds that one at most, right after the original log.
   */
  lemma ConnectThenNone(a: seq<Event>, b: seq<Event>, c: seq<Event>, forRead: bool)
    requires |a| <= |b| <= |a| + 1 && b[..|a|] == a
    requires forall i :: |a| <= i < |b| ==> b[i].call.Connect? && b[i].call.forRead == forRead
    requires |b| <= |c| && c[..|b|] == b
    requires forall i :: |b| <= i < |c| ==> !c[i].call.Connect?
    ensures |a| <= |c| && c[..|a|] == a
    ensures forall i :: |a| <= i < |c| && c[i].call.Connect? ==> c[i].call.forRead == forRead && i == |a|
  {
    assert c[..|a|] == c[..|b|][..|a|];
    assert forall i :: |a| <= i < |b| ==> c[i] == b[i];
  }

  /** `Acquired` appends at most one call to the log: the `getConnection` for the role asked for. */
  lemma AcquiredConnectsOnce(s: Session, forRead: bool, resolved: Result<Routing.Open, Fault>, acquire: Acquire)
    ensures var s1 := Acquired(s, forRead, resolved, acquire).0;
            |s.log| <= |s1.log| <= |s.log| + 1 && s1.log[..|s.log|] == s.log
            && forall i :: |s.log| <= i < |s1.log| ==> s1.log[i].call == Connect(forRead, resolved.value)
  {
  }

  /** Normalisation appends calls on the write connection only, never a `getConnection`. */
  lemma NormalizeConnectsNothing(s: Session, replies: seq<Status>)
    ensures var s2 := Normalize(s, replies).0;
            |s.log| <= |s2.log| && s2.log[..|s.log|] == s.log
            && forall i :: |s.log| <= i < |s2.log| ==> !s2.log[i].call.Connect?
  {
    var plan := PlanOf(s);
    if plan != [] && s.writeConnection.Some? {
      var es := InOrder(OnHandle(s.writeConnection.value, plan), replies);
      assert forall i :: 0 <= i < |es| ==> !es[i].call.Connect?;
      assert Normalize(s, replies).0.log == s.log + es;
    }
  }

  /**
   * Binding a write connection normalises it: the only calls after the
   * `getConnection` are the settings of `NormalizePlan` pushed to the new
   * connection in order, stopping at the first failure, which the request
   * raises; the new connection stays bound even then.
   */
  lemma WriteBindingNormalizes(s: Session, flags: Routing.Flags, username: Option<string>,
                               password: Option<string>, h: Handle, replies: seq<Status>)
    requires s.writeConnection.None? && Routing.WriteConnectionAs(flags, username, password).Ok?
    ensures var o := Routing.WriteConnectionAs(flags, username, password).value;
            var events := InOrder(OnHandle(h, PlanOf(s)), replies);
            var (s', r) := Target(s, false, flags, username, password, Grant(h), replies);
            s'.writeConnection == Some(h)
            && s'.log == s.log + [Event(Connect(false, o), Done)] + events
            && (r == Ok(h) <==> Outcome(events) == Done)
            && (r.Err? ==> Outcome(events) == Raised(r.error))
  {
    var o := Routing.WriteConnectionAs(flags, username, password).value;
    var s1 := Logged(s.(writeConnection := Some(h)), [Event(Connect(false, o), Done)]);
    assert PlanOf(s1) == PlanOf(s);
    var events := InOrder(OnHandle(h, PlanOf(s)), replies);
    if PlanOf(s) == [] {
      assert events == [];
    }
  }

  /**
   * `setTransactionIsolation` records the level unconditionally on an open
   * session and calls no connection; `getTransactionIsolation` then answers it.
   */
  lemma IsolationIsOnlyRecorded(s: Session, level: int)
    ensures var (s', st) := SetTransactionIsolation(s, level);
            s'.log == s.log && s'.readConnection == s.readConnection && s'.writeConnection == s.writeConnection
            && (st.Raised? <==> s.closed)
            && (!s.closed ==> s' == s.(transactionIsolation := level) && GetTransactionIsolation(s') == Ok(level))
            && (s.closed ==> s' == s)
  {
  }

  /**
   * `setAutoCommit` fails on a closed session, changes nothing when the value
   * is the recorded one, and otherwise records it and pushes it to the write
   * connection alone, if one is bound.
   */
  lemma SetAutoCommitTouchesOnlyWrite(s: Session, autoCommit: bool, replies: seq<Status>)
    ensures var (s', st) := SetAutoCommit(s, autoCommit, replies);
            var added := s'.log[|s.log|..];
            |s'.log| >= |s.log| && s'.log[..|s.log|] == s.log
            && (s.closed ==> s' == s && st.Raised?)
            && (!s.closed && s.isAutoCommit == autoCommit ==> s' == s && st == Done)
            && (!s.closed && s.isAutoCommit != autoCommit ==>
                  s'.isAutoCommit == autoCommit
                  && |added| == (if s.writeConnection.Some? then 1 else 0)
                  && forall i :: 0 <= i < |added| ==>
                       added[i].call == Invoke(s.writeConnection.value, Op.SetAutoCommit(autoCommit))
                       && st == added[i].status)
  {
  }

  /**
   * `setCatalog` fails on a closed session or a null catalog, changes nothing
   * for the recorded catalog, and otherwise records it and pushes it to each
   * bound connection, read first, stopping at the first failure.
   */
  lemma SetCatalogTouchesEachBound(s: Session, catalog: Option<string>, replies: seq<Status>)
    ensures var (s', st) := SetCatalog(s, catalog, replies);
            |s'.log| >= |s.log| && s'.log[..|s.log|] == s.log
            && (s.closed || catalog.None? || catalog == s.catalog ==> s' == s)
            && (s.closed ==> st == Raised(SqlError(ClosedMessage)))
            && (!s.closed && catalog.None? ==> st == Raised(NullPointer))
            && (!s.closed && catalog.Some? && catalog != s.catalog ==>
                  s'.catalog == catalog
                  && s'.log[|s.log|..] == InOrder(OnBound(s, Op.SetCatalog(catalog.value)), replies)
                  && (st == Done ==> |s'.log| - |s.log| == |OnBound(s, Op.SetCatalog(catalog.value))|))
  {
    if !s.closed && catalog.Some? && catalog != s.catalog {
      var calls := OnBound(s, Op.SetCatalog(catalog.value));
      var events := InOrder(calls, replies);
      assert (s.log + events)[|s.log|..] == events;
      InOrderOutcome(calls, replies);
    }
  }

  /**
   * `commit` and `rollback` fail on a closed session, do nothing in autocommit
   * or without a write connection, and otherwise make one call on the write
   * connection and raise what it raised.
   */
  lemma EndTransactionGated(s: Session, op: Op, replies: seq<Status>)
    requires op == Op.Commit || op == Op.Rollback
    ensures var (s', st) := EndTransaction(s, op, replies);
            (s.closed ==> s' == s && st.Raised?)
            && (!s.closed && (s.isAutoCommit || s.writeConnection.None?) ==> s' == s && st == Done)
            && (!s.closed && !s.isAutoCommit && s.writeConnection.Some? ==>
                  s' == Logged(s, [Event(Invoke(s.writeConnection.value, op), ReplyAt(replies, 0))])
                  && st == ReplyAt(replies, 0))
  {
  }

  /**
   * `getWarnings` and `getMetaData` ask the read connection when one is bound,
   * else the write connection.
   */
  lemma QueriesPreferRead(s: Session, flags: Routing.Flags, username: Option<string>, password: Option<string>,
                          acquire: Acquire, replies: seq<Status>)
    requires !s.closed && s.readConnection.Some?
    ensures GetWarnings(s, replies).0 == Logged(s, [Event(Invoke(s.readConnection.value, Op.GetWarnings), ReplyAt(replies, 0))])
    ensures GetMetaData(s, flags, username, password, acquire, replies).0
            == Logged(s, [Event(Invoke(s.readConnection.value, Op.GetMetaData), ReplyAt(replies, 0))])
  {
  }

  /**
   * `getMetaData` on a session with nothing bound binds a read connection and
   * then normalises the write connection, which is not there: when any setting
   * differs from the defaults, the call raises `NullPointerException` and the
   * read connection stays bound; otherwise the read connection answers.
   */
  lemma MetaDataNormalizesAbsentWrite(s: Session, flags: Routing.Flags, username: Option<string>,
                                      password: Option<string>, h: Handle, replies: seq<Status>)
    requires !s.closed && s.readConnection.None? && s.writeConnection.None?
    requires Routing.ReadConnectionAs(flags, username, password).Ok?
    ensures var (s', r) := GetMetaData(s, flags, username, password, Grant(h), replies);
            s'.readConnection == Some(h)
            && (PlanOf(s) != [] ==> r == Err(NullPointer))
            && (PlanOf(s) == [] ==> r == (if ReplyAt(replies, 0).Raised? then Err(ReplyAt(replies, 0).fault) else Ok(h)))
  {
    var o := Routing.ReadConnectionAs(flags, username, password).value;
    var s1 := Logged(s.(readConnection := Some(h)), [Event(Connect(true, o), Done)]);
    assert PlanOf(s1) == PlanOf(s);
  }

  /** The calls `close` makes on statements are exactly one per tracked statement not yet closed. */
  lemma {:induction false} StatementClosesExact(stmts: seq<StatementRef>)
    ensures forall id :: CloseStatement(id) in StatementCloses(stmts)
                         <==> exists k :: 0 <= k < |stmts| && stmts[k] == StatementRef(id, false)
    decreases |stmts|
  {
    if stmts != [] {
      var init := stmts[..|stmts| - 1];
      StatementClosesExact(init);
      assert forall k :: 0 <= k < |init| ==> init[k] == stmts[k];
      forall id | exists k :: 0 <= k < |stmts| && stmts[k] == StatementRef(id, false)
        ensures CloseStatement(id) in StatementCloses(stmts)
      {
        var k :| 0 <= k < |stmts| && stmts[k] == StatementRef(id, false);
        if k < |init| {
          assert init[k] == StatementRef(id, false);
        }
      }
    }
  }

  /**
   * `close` marks the session closed even when a call fails, makes every close
   * call (statements, then the write connection, then the read connection)
   * whatever the earlier ones answered, and raises the last failure, if any.
   */
  lemma CloseIsBestEffort(s: Session, replies: seq<Status>)
    ensures var (s', st) := Close(s, replies);
            var calls := CloseCalls(s);
            s'.closed && s'.log == s.log + BestEffort(calls, replies)
            && |s'.log| == |s.log| + |calls|
            && (st == Done <==> forall i :: 0 <= i < |calls| ==> ReplyAt(replies, i) == Done)
            && (st.Raised? ==> exists k :: 0 <= k < |calls| && ReplyAt(replies, k) == st
                                 && forall i :: k < i < |calls| ==> ReplyAt(replies, i) == Done)
  {
    var calls := CloseCalls(s);
    var events := BestEffort(calls, replies);
    assert forall i :: 0 <= i < |calls| ==> events[i].status == ReplyAt(replies, i);
    LastFailureMeaning(events);
  }

  /** `close` does not check that the session is open: closing again closes the connections again. */
  lemma CloseIsNotIdempotent(s: Session, replies: seq<Status>)
    requires s.writeConnection.Some?
    ensures var s1 := Close(s, replies).0;
            var s2 := Close(s1, replies).0;
            Event(Invoke(s.writeConnection.value, Op.Close), ReplyAt(replies, |StatementCloses(s.openedStatements)|))
              in s2.log[|s1.log|..]
  {
    var s1 := Close(s, replies).0;
    var n := |StatementCloses(s.openedStatements)|;
    var conns := [s.writeConnection, s.readConnection];
    assert conns[..1] == [s.writeConnection];
    assert ConnectionCloses(conns[..1]) == [Invoke(s.writeConnection.value, Op.Close)];
    assert CloseCalls(s1)[n] == Invoke(s.writeConnection.value, Op.Close);
    assert (s1.log + BestEffort(CloseCalls(s1), replies))[|s1.log|..] == BestEffort(CloseCalls(s1), replies);
  }
}
