/**
 * The two classes of the router: `MasterslaveDataSource`, which holds the two
 * backend data sources and the availability flags, and `MasterslaveConnection`,
 * the session it hands out. Every method of the session is proved to make the
 * transition the value-level model `Session` gives it, so what is proved there
 * about the transitions holds of the class.
 *
 * The backend is not visible: the connection a `getConnection` call returns is
 * the parameter `acquire`, and the answer of the `i`-th call an operation makes
 * on a connection or statement is `ReplyAt(replies, i)`.
 */
module Masterslave {
  import opened Wrappers
  import opened Faults
  import opened Calls
  import Routing
  import S = Session

  /** The router data source: two backend data sources and the flags resolution reads. */
  class MasterslaveDataSource {
    var master: Option<nat>
    var slave: Option<nat>
    var slaveWritable: bool
    var masterAvailable: bool
    var slaveAvailable: bool

    /** A data source with neither backend set, both marked up, and a slave that takes no writes. */
    constructor ()
      ensures master.None? && slave.None?
      ensures Flags() == Routing.Flags(false, false, false, true, true)
    {
      master := None;
      slave := None;
      slaveWritable := false;
      masterAvailable := true;
      slaveAvailable := true;
    }

    /** What resolution reads from the data source. */
    function Flags(): Routing.Flags
      reads this
    {
      Routing.Flags(master.Some?, slave.Some?, slaveWritable, masterAvailable, slaveAvailable)
    }

    /** `setMaster`. */
    method SetMaster(m: Option<nat>)
      modifies this
      ensures master == m && slave == old(slave)
      ensures Flags() == old(Flags()).(masterPresent := m.Some?)
    {
      master := m;
    }

    /** `setSlave`. */
    method SetSlave(sl: Option<nat>)
      modifies this
      ensures slave == sl && master == old(master)
      ensures Flags() == old(Flags()).(slavePresent := sl.Some?)
    {
      slave := sl;
    }

    /** `setMasterAvailable`, which the health checker calls. */
    method SetMasterAvailable(available: bool)
      modifies this
      ensures master == old(master) && slave == old(slave)
      ensures Flags() == old(Flags()).(masterAvailable := available)
    {
      masterAvailable := available;
    }

    /** `setSlaveAvailable`, which the health checker calls. */
    method SetSlaveAvailable(available: bool)
      modifies this
      ensures master == old(master) && slave == old(slave)
      ensures Flags() == old(Flags()).(slaveAvailable := available)
    {
      slaveAvailable := available;
    }

    /** `setSlaveWritable`. */
    method SetSlaveWritable(writable: bool)
      modifies this
      ensures master == old(master) && slave == old(slave)
      ensures Flags() == old(Flags()).(slaveWritable := writable)
    {
      slaveWritable := writable;
    }

    /** `getConnection()`: a new session with no credentials; no backend call is made. */
    method GetConnection() returns (c: MasterslaveConnection)
      ensures fresh(c) && c.dataSource == this && c.username.None? && c.password.None?
      ensures c.State() == S.NewSession && c.Valid()
    {
      c := new MasterslaveConnection(this, None, None);
      S.NewSessionDefaults();
    }

    /** `getConnection(username, password)`: a new session carrying the credentials; no backend call is made. */
    method GetConnectionAs(username: Option<string>, password: Option<string>) returns (c: MasterslaveConnection)
      ensures fresh(c) && c.dataSource == this && c.username == username && c.password == password
      ensures c.State() == S.NewSession && c.Valid()
    {
      c := new MasterslaveConnection(this, username, password);
      S.NewSessionDefaults();
    }
  }

  /** A router session: the fields of `AbstractConnection` and `MasterslaveConnection`. */
  class MasterslaveConnection {
    const dataSource: MasterslaveDataSource
    const username: Option<string>
    const password: Option<string>
    var closed: bool
    var isAutoCommit: bool
    var transactionIsolation: int
    var catalog: Option<string>
    var readConnection: Option<Handle>
    var writeConnection: Option<Handle>
    var openedStatements: seq<S.StatementRef>
    /** The calls made on the backend so far, with their answers. */
    var log: seq<Event>

    /** The session as a value. */
    function State(): S.Session
      reads this
    {
      S.Session(closed, isAutoCommit, transactionIsolation, catalog, readConnection, writeConnection,
                openedStatements, log)
    }

    /** At most one read and one write connection were acquired, and they are the ones bound. */
    predicate Valid()
      reads this
    {
      S.Valid(State())
    }

    /** The two constructors of `MasterslaveConnection`, the plain one passing no credentials. */
    constructor (dataSource: MasterslaveDataSource, username: Option<string>, password: Option<string>)
      ensures this.dataSource == dataSource && this.username == username && this.password == password
      ensures State() == S.NewSession
    {
      this.dataSource := dataSource;
      this.username := username;
      this.password := password;
      closed := false;
      isAutoCommit := true;
      transactionIsolation := -1;
      catalog := None;
      readConnection := None;
      writeConnection := None;
      openedStatements := [];
      log := [];
    }

    /** `checkClosed`. */
    function CheckClosed(): Status
      reads this
    {
      S.CheckClosed(State())
    }

    /** `isClosed`: answers even on a closed session. */
    function IsClosed(): bool
      reads this
    {
      closed
    }

    /** `getAutoCommit`. */
    function GetAutoCommit(): Result<bool, Fault>
      reads this
    {
      S.GetAutoCommit(State())
    }

    /** `getTransactionIsolation`. */
    function GetTransactionIsolation(): Result<int, Fault>
      reads this
    {
      S.GetTransactionIsolation(State())
    }

    /** `hasWriteConnection`. */
    predicate HasWriteConnection()
      reads this
    {
      writeConnection.Some?
    }

    /** `isReadOnly`: the router is always read-write. */
    function IsReadOnly(): bool {
      false
    }

    /** `getHoldability`. */
    function GetHoldability(): int {
      S.CloseCursorsAtCommit
    }

    /** `setReadOnly`: does nothing. */
    method SetReadOnly(readOnly: bool) {
    }

    /** One call on the backend, which answers `reply`. */
    method Issue(c: Call, reply: Status) returns (st: Status)
      modifies this
      ensures st == reply
      ensures State() == S.Logged(old(State()), [Event(c, reply)])
    {
      log := log + [Event(c, reply)];
      st := reply;
    }

    /**
     * The call `c` of a batch `calls` issued in order, the calls `issued`
     * before it having returned: the batch stops here if it raises.
     */
    method IssueNext(c: Call, replies: seq<Status>, ghost s0: S.Session, ghost calls: seq<Call>,
                     ghost issued: seq<Call>, n: nat) returns (st: Status)
      requires n == |issued| && issued + [c] <= calls
      requires State() == S.Logged(s0, BestEffort(issued, replies))
      requires forall i :: 0 <= i < n ==> ReplyAt(replies, i) == Done
      modifies this
      ensures st == ReplyAt(replies, n)
      ensures State() == S.Logged(s0, BestEffort(issued + [c], replies))
      ensures st.Raised? ==> State() == S.Logged(s0, InOrder(calls, replies)) && st == Outcome(InOrder(calls, replies))
      ensures st == Done ==> forall i :: 0 <= i < n + 1 ==> ReplyAt(replies, i) == Done
    {
      st := Issue(c, ReplyAt(replies, n));
      BestEffortSnoc(issued, c, replies);
      assert s0.log + BestEffort(issued, replies) + [Event(c, st)] == s0.log + BestEffort(issued + [c], replies);
      if st.Raised? {
        assert calls[..n + 1] == issued + [c];
        InOrderFirstRaise(calls, replies, n);
      }
    }

    /**
     * One `close` call inside `try { ... } catch (SQLException e) { last = e; }`:
     * it is made whatever the calls before it answered, and its failure, if
     * any, becomes the one to report.
     */
    method CloseCall(c: Call, replies: seq<Status>, ghost log0: seq<Event>, ghost before: seq<Call>,
                     n: nat, last: Status) returns (last': Status)
      requires n == |before| && log == log0 + BestEffort(before, replies)
      requires last == LastFailure(BestEffort(before, replies))
      modifies this
      ensures State() == S.Logged(old(State()), [Event(c, ReplyAt(replies, n))])
      ensures log == log0 + BestEffort(before + [c], replies)
      ensures last' == LastFailure(BestEffort(before + [c], replies))
    {
      var reply := Issue(c, ReplyAt(replies, n));
      BestEffortSnoc(before, c, replies);
      LastFailureStep(BestEffort(before, replies), Event(c, reply));
      last' := KeepLast(last, reply);
    }

    /** Where the data source sends a request for the role, with this session's credentials. */
    function Resolve(forRead: bool): Result<Routing.Open, Fault>
      reads this, dataSource
    {
      if forRead then Routing.ReadConnectionAs(dataSource.Flags(), username, password)
      else Routing.WriteConnectionAs(dataSource.Flags(), username, password)
    }

    /**
     * `readConnection = groupDataSource.readConnection(username, password)`, or
     * the same for the write connection.
     */
    method AcquireConnection(forRead: bool, acquire: Acquire) returns (r: Result<Handle, Fault>)
      modifies this
      ensures (State(), r) == S.Acquired(old(State()), forRead, Resolve(forRead), acquire)
    {
      var resolved := Resolve(forRead);
      if resolved.Err? {
        return Err(resolved.error);
      }
      var call := Connect(forRead, resolved.value);
      match acquire
      case Deny(f) =>
        var _ := Issue(call, Raised(f));
        r := Err(f);
      case Grant(h) =>
        if forRead {
          readConnection := Some(h);
        } else {
          writeConnection := Some(h);
        }
        var _ := Issue(call, Done);
        r := Ok(h);
    }

    /** `normalizeConnection`. */
    method NormalizeConnection(replies: seq<Status>) returns (st: Status)
      modifies this
      ensures (State(), st) == S.Normalize(old(State()), replies)
    {
      ghost var s0 := State();
      ghost var pushed: seq<Op> := [];
      var n := 0;
      assert State() == S.Logged(s0, []);
      if !isAutoCommit {
        st := PushSetting(Op.SetAutoCommit(false), replies, s0, pushed, n);
        if st.Raised? {
          return;
        }
        pushed, n := pushed + [Op.SetAutoCommit(false)], n + 1;
      }
      if transactionIsolation != -1 {
        st := PushSetting(Op.SetTransactionIsolation(transactionIsolation), replies, s0, pushed, n);
        if st.Raised? {
          return;
        }
        pushed, n := pushed + [Op.SetTransactionIsolation(transactionIsolation)], n + 1;
      }
      if catalog.Some? {
        st := PushSetting(Op.SetCatalog(catalog.value), replies, s0, pushed, n);
        if st.Raised? {
          return;
        }
        pushed, n := pushed + [Op.SetCatalog(catalog.value)], n + 1;
      }
      st := Done;
      assert pushed == S.PlanOf(s0);
      if pushed != [] {
        InOrderAllDone(OnHandle(writeConnection.value, pushed), replies);
      }
    }

    /**
     * One setting `normalizeConnection` pushes, the settings `pushed` before it
     * having been pushed and having returned: with no write connection bound,
     * the push dereferences null; otherwise normalisation stops here if it
     * raises.
     */
    method PushSetting(op: Op, replies: seq<Status>, ghost s0: S.Session, ghost pushed: seq<Op>, n: nat)
      returns (st: Status)
      requires n == |pushed| && pushed + [op] <= S.PlanOf(s0) && writeConnection == s0.writeConnection
      requires writeConnection.None? ==> pushed == [] && State() == s0
      requires writeConnection.Some? ==> State() == S.Logged(s0, BestEffort(OnHandle(writeConnection.value, pushed), replies))
      requires forall i :: 0 <= i < |pushed| ==> ReplyAt(replies, i) == Done
      modifies this
      ensures unchanged(this`isAutoCommit, this`transactionIsolation, this`catalog, this`writeConnection)
      ensures st.Raised? ==> (State(), st) == S.Normalize(s0, replies)
      ensures st == Done ==> writeConnection.Some?
                             && State() == S.Logged(s0, BestEffort(OnHandle(writeConnection.value, pushed + [op]), replies))
                             && forall i :: 0 <= i < |pushed| + 1 ==> ReplyAt(replies, i) == Done
    {
      if writeConnection.None? {
        return Raised(NullPointer);
      }
      var h := writeConnection.value;
      ghost var calls := OnHandle(h, S.PlanOf(s0));
      assert calls[..n + 1] == OnHandle(h, pushed + [op]) == OnHandle(h, pushed) + [Invoke(h, op)];
      st := IssueNext(Invoke(h, op), replies, s0, calls, OnHandle(h, pushed), n);
    }

    /**
     * `targetConnection(read)`: the connection a statement runs on, bound on
     * first use.
     */
    method TargetConnection(read: bool, acquire: Acquire, replies: seq<Status>) returns (r: Result<Handle, Fault>)
      requires Valid()
      modifies this
      ensures (State(), r) == S.Target(old(State()), read, dataSource.Flags(), username, password, acquire, replies)
      ensures Valid()
    {
      ghost var s0 := State();
      S.TargetKeepsValid(s0, read, dataSource.Flags(), username, password, acquire, replies);
      if writeConnection.Some? {
        return Ok(writeConnection.value);
      }
      if read && readConnection.None? {
        r := AcquireConnection(true, acquire);
        if r.Err? {
          return;
        }
      } else if !read && writeConnection.None? {
        r := BindWriteConnection(acquire, replies);
        return;
      }
      r := Ok(readConnection.value);
    }

    /**
     * `writeConnection = groupDataSource.writeConnection(username, password)`
     * followed by `normalizeConnection()`, and the write connection returned.
     */
    method BindWriteConnection(acquire: Acquire, replies: seq<Status>) returns (r: Result<Handle, Fault>)
      requires writeConnection.None?
      modifies this
      ensures (State(), r) == S.Target(old(State()), false, dataSource.Flags(), username, password, acquire, replies)
    {
      r := AcquireConnection(false, acquire);
      if r.Err? {
        return;
      }
      var st := NormalizeConnection(replies);
      if st.Raised? {
        r := Err(st.fault);
      }
    }

    /** `setTransactionIsolation`. */
    method SetTransactionIsolation(level: int) returns (st: Status)
      requires Valid()
      modifies this
      ensures (State(), st) == S.SetTransactionIsolation(old(State()), level)
      ensures Valid()
    {
      st := CheckClosed();
      if st.Raised? {
        return;
      }
      transactionIsolation := level;
    }

    /** `setAutoCommit`. */
    method SetAutoCommit(autoCommit: bool, replies: seq<Status>) returns (st: Status)
      requires Valid()
      modifies this
      ensures (State(), st) == S.SetAutoCommit(old(State()), autoCommit, replies)
      ensures Valid()
    {
      S.SetAutoCommitKeepsValid(State(), autoCommit, replies);
      st := CheckClosed();
      if st.Raised? {
        return;
      }
      if isAutoCommit == autoCommit {
        return Done;
      }
      isAutoCommit := autoCommit;
      if writeConnection.Some? {
        st := Issue(Invoke(writeConnection.value, Op.SetAutoCommit(autoCommit)), ReplyAt(replies, 0));
        InOrderSingle(Invoke(old(writeConnection).value, Op.SetAutoCommit(autoCommit)), replies);
      }
    }

    /** `setCatalog`; `None` is a null catalog. */
    method SetCatalog(newCatalog: Option<string>, replies: seq<Status>) returns (st: Status)
      requires Valid()
      modifies this
      ensures (State(), st) == S.SetCatalog(old(State()), newCatalog, replies)
      ensures Valid()
    {
      S.SetCatalogKeepsValid(State(), newCatalog, replies);
      ghost var s0 := State();
      st := CheckClosed();
      if st.Raised? {
        return;
      }
      if newCatalog.None? {
        return Raised(NullPointer);
      }
      if newCatalog == catalog {
        return Done;
      }
      catalog := newCatalog;
      ghost var calls := S.OnBound(s0, Op.SetCatalog(newCatalog.value));
      st := OnEachBound(Op.SetCatalog(newCatalog.value), replies, calls);
    }

    /**
     * The calls `calls` (the operation `op` on the read connection, then on the
     * write connection, when bound), one after another.
     */
    method OnEachBound(op: Op, replies: seq<Status>, ghost calls: seq<Call>) returns (st: Status)
      requires calls == S.OnBound(State(), op)
      modifies this
      ensures st == Outcome(InOrder(calls, replies))
      ensures State() == S.Logged(old(State()), InOrder(calls, replies))
    {
      ghost var s0 := State();
      ghost var issued: seq<Call> := [];
      var n := 0;
      assert State() == S.Logged(s0, BestEffort(issued, replies));
      if readConnection.Some? {
        st := IssueNext(Invoke(readConnection.value, op), replies, s0, calls, issued, n);
        if st.Raised? {
          return;
        }
        issued, n := issued + [Invoke(readConnection.value, op)], n + 1;
      }
      if writeConnection.Some? {
        st := IssueNext(Invoke(writeConnection.value, op), replies, s0, calls, issued, n);
        if st.Raised? {
          return;
        }
        issued, n := issued + [Invoke(writeConnection.value, op)], n + 1;
      }
      assert issued == calls;
      InOrderAllDone(calls, replies);
      st := Done;
    }

    /** `commit`. */
    method Commit(replies: seq<Status>) returns (st: Status)
      requires Valid()
      modifies this
      ensures (State(), st) == S.EndTransaction(old(State()), Op.Commit, replies)
      ensures Valid()
    {
      S.EndTransactionKeepsValid(State(), Op.Commit, replies);
      st := CheckClosed();
      if st.Raised? {
        return;
      }
      if isAutoCommit {
        return Done;
      }
      if writeConnection.Some? {
        st := Issue(Invoke(writeConnection.value, Op.Commit), ReplyAt(replies, 0));
        InOrderSingle(Invoke(old(writeConnection).value, Op.Commit), replies);
      }
    }

    /** `rollback`: only the write connection is rolled back. */
    method Rollback(replies: seq<Status>) returns (st: Status)
      requires Valid()
      modifies this
      ensures (State(), st) == S.EndTransaction(old(State()), Op.Rollback, replies)
      ensures Valid()
    {
      S.EndTransactionKeepsValid(State(), Op.Rollback, replies);
      st := CheckClosed();
      if st.Raised? {
        return;
      }
      if isAutoCommit {
        return Done;
      }
      if writeConnection.Some? {
        st := Issue(Invoke(writeConnection.value, Op.Rollback), ReplyAt(replies, 0));
        InOrderSingle(Invoke(old(writeConnection).value, Op.Rollback), replies);
      }
    }

    /** `getWarnings`: the warnings are those of the connection named in the answer. */
    method GetWarnings(replies: seq<Status>) returns (r: Result<Option<Handle>, Fault>)
      requires Valid()
      modifies this
      ensures (State(), r) == S.GetWarnings(old(State()), replies)
      ensures Valid()
    {
      S.GetWarningsKeepsValid(State(), replies);
      var c := CheckClosed();
      if c.Raised? {
        return Err(c.fault);
      }
      var h;
      if readConnection.Some? {
        h := readConnection.value;
      } else if writeConnection.Some? {
        h := writeConnection.value;
      } else {
        return Ok(None);
      }
      var st := Issue(Invoke(h, Op.GetWarnings), ReplyAt(replies, 0));
      InOrderSingle(Invoke(h, Op.GetWarnings), replies);
      r := if st.Raised? then Err(st.fault) else Ok(Some(h));
    }

    /** `clearWarnings`. */
    method ClearWarnings(replies: seq<Status>) returns (st: Status)
      requires Valid()
      modifies this
      ensures (State(), st) == S.ClearWarnings(old(State()), replies)
      ensures Valid()
    {
      S.ClearWarningsKeepsValid(State(), replies);
      st := CheckClosed();
      if st.Raised? {
        return;
      }
      ghost var calls := S.OnBound(State(), Op.ClearWarnings);
      st := OnEachBound(Op.ClearWarnings, replies, calls);
    }

    /** `getMetaData`: the metadata is that of the connection named in the answer. */
    method GetMetaData(acquire: Acquire, replies: seq<Status>) returns (r: Result<Handle, Fault>)
      requires Valid()
      modifies this
      ensures (State(), r) == S.GetMetaData(old(State()), dataSource.Flags(), username, password, acquire, replies)
      ensures Valid()
    {
      ghost var s0 := State();
      var c := CheckClosed();
      if c.Raised? {
        return Err(c.fault);
      }
      var h;
      if readConnection.Some? {
        h := readConnection.value;
      } else if writeConnection.Some? {
        h := writeConnection.value;
      } else {
        S.AcquiredKeepsValid(s0, true, Resolve(true), acquire);
        r := AcquireConnection(true, acquire);
        if r.Err? {
          return;
        }
        S.NormalizeKeepsValid(State(), replies);
        var st := NormalizeConnection(replies);
        if st.Raised? {
          return Err(st.fault);
        }
        h := readConnection.value;
      }
      ghost var s1 := State();
      var st := Issue(Invoke(h, Op.GetMetaData), ReplyAt(replies, 0));
      InOrderSingle(Invoke(h, Op.GetMetaData), replies);
      S.LoggedKeepsValid(s1, [Event(Invoke(h, Op.GetMetaData), ReplyAt(replies, 0))]);
      r := if st.Raised? then Err(st.fault) else Ok(h);
    }

    /**
     * `close`: closes the open statements, then the write and the read
     * connection, whatever each answers, and raises the last failure.
     */
    method Close(replies: seq<Status>) returns (st: Status)
      requires Valid()
      modifies this
      ensures (State(), st) == S.Close(old(State()), replies)
      ensures Valid()
    {
      S.CloseKeepsValid(State(), replies);
      ghost var log0 := log;
      closed := true;
      var last, n := CloseStatements(replies);
      st := CloseConnections(replies, log0, S.StatementCloses(openedStatements), n, last);
    }

    /**
     * The second loop of `close`: the write and then the read connection, when
     * bound, are closed whatever each answers, after the calls `done`.
     */
    method CloseConnections(replies: seq<Status>, ghost log0: seq<Event>, ghost done: seq<Call>, n: nat, last: Status)
      returns (last': Status)
      requires n == |done| && log == log0 + BestEffort(done, replies)
      requires last == LastFailure(BestEffort(done, replies))
      modifies this
      ensures State() == old(State()).(log := log)
      ensures log == log0 + BestEffort(done + S.ConnectionCloses([writeConnection, readConnection]), replies)
      ensures last' == LastFailure(BestEffort(done + S.ConnectionCloses([writeConnection, readConnection]), replies))
    {
      var conns := [writeConnection, readConnection];
      var j, k := 0, n;
      last' := last;
      assert done + S.ConnectionCloses(conns[..j]) == done;
      while j < |conns|
        invariant 0 <= j <= |conns|
        invariant State() == old(State()).(log := log)
        invariant k == |done + S.ConnectionCloses(conns[..j])|
        invariant log == log0 + BestEffort(done + S.ConnectionCloses(conns[..j]), replies)
        invariant last' == LastFailure(BestEffort(done + S.ConnectionCloses(conns[..j]), replies))
      {
        ghost var before := done + S.ConnectionCloses(conns[..j]);
        ConnectionClosesStep(done, conns, j);
        last', k := CloseBound(conns[j], replies, log0, before, k, last');
        j := j + 1;
      }
      assert conns[..j] == conns;
    }

    /** The calls of the second loop of `close` grow by one connection at a time. */
    static lemma ConnectionClosesStep(done: seq<Call>, conns: seq<Option<Handle>>, j: nat)
      requires j < |conns|
      ensures done + S.ConnectionCloses(conns[..j + 1])
              == done + S.ConnectionCloses(conns[..j]) + (if conns[j].Some? then [Invoke(conns[j].value, Op.Close)] else [])
    {
      assert conns[..j + 1][..j] == conns[..j];
    }

    /** One turn of the second loop of `close`: the connection, if bound, is closed. */
    method CloseBound(connection: Option<Handle>, replies: seq<Status>, ghost log0: seq<Event>, ghost before: seq<Call>,
                      n: nat, last: Status) returns (last': Status, n': nat)
      requires n == |before| && log == log0 + BestEffort(before, replies)
      requires last == LastFailure(BestEffort(before, replies))
      modifies this
      ensures State() == old(State()).(log := log)
      ensures var after := before + (if connection.Some? then [Invoke(connection.value, Op.Close)] else []);
              n' == |after| && log == log0 + BestEffort(after, replies) && last' == LastFailure(BestEffort(after, replies))
    {
      if connection.Some? {
        last' := CloseCall(Invoke(connection.value, Op.Close), replies, log0, before, n, last);
        n' := n + 1;
      } else {
        assert before + [] == before;
        last', n' := last, n;
      }
    }

    /** The first loop of `close`: each tracked statement not yet closed is closed, whatever each answers. */
    method CloseStatements(replies: seq<Status>) returns (last: Status, n: nat)
      modifies this
      ensures n == |S.StatementCloses(openedStatements)|
      ensures State() == S.Logged(old(State()), BestEffort(S.StatementCloses(openedStatements), replies))
      ensures last == LastFailure(BestEffort(S.StatementCloses(openedStatements), replies))
    {
      ghost var log0 := log;
      last := Done;
      n := 0;
      var i := 0;
      while i < |openedStatements|
        invariant 0 <= i <= |openedStatements|
        invariant unchanged(this`closed, this`isAutoCommit, this`transactionIsolation, this`catalog)
        invariant unchanged(this`readConnection, this`writeConnection, this`openedStatements)
        invariant n == |S.StatementCloses(openedStatements[..i])|
        invariant log == log0 + BestEffort(S.StatementCloses(openedStatements[..i]), replies)
        invariant last == LastFailure(BestEffort(S.StatementCloses(openedStatements[..i]), replies))
      {
        var statement := openedStatements[i];
        assert openedStatements[..i + 1][..i] == openedStatements[..i];
        ghost var before := S.StatementCloses(openedStatements[..i]);
        if !statement.isClosed {
          last := CloseCall(CloseStatement(statement.id), replies, log0, before, n, last);
          n := n + 1;
        } else {
          assert before + [] == before;
        }
        i := i + 1;
      }
      assert openedStatements[..i] == openedStatements;
    }

    /** An operation of `Connection` the router refuses; it raises whatever the state. */
    function Refuse(op: S.Refused): Fault {
      S.RefusedFault(op)
    }
  }

  /**
   * On a closed session `checkClosed`, `getAutoCommit` and
   * `getTransactionIsolation` raise, while `isClosed` and the constant getters
   * still answer; on an open one the getters answer the recorded values.
   */
  lemma ConnectionGetters(c: MasterslaveConnection)
    ensures c.CheckClosed().Raised? <==> c.IsClosed()
    ensures c.GetAutoCommit() == (if c.IsClosed() then Err(SqlError(ClosedMessage)) else Ok(c.isAutoCommit))
    ensures c.GetTransactionIsolation()
            == (if c.IsClosed() then Err(SqlError(ClosedMessage)) else Ok(c.transactionIsolation))
    ensures c.HasWriteConnection() <==> c.writeConnection.Some?
    ensures !c.IsReadOnly() && c.GetHoldability() == 2
  {
  }

  // ===========================================================================
  // Connections and their data source together
  // ===========================================================================

  /**
   * The health checker marking the master down redirects the writes of a
   * session that has not bound a write connection yet, but not of one that
   * has: a session keeps the connection it bound.
   */
  method MasterDownRedirectsOnlyUnboundWrites(ds: MasterslaveDataSource, c: MasterslaveConnection, h: Handle)
    returns (r: Result<Handle, Fault>)
    requires c.dataSource == ds && c.Valid() && !c.closed
    requires ds.master.Some? && ds.slave.Some? && ds.slaveWritable && ds.slaveAvailable
    requires c.writeConnection.None? && c.isAutoCommit && c.transactionIsolation == -1 && c.catalog.None?
    modifies ds, c
    ensures r == Ok(h) && c.writeConnection == Some(h)
    ensures c.log == old(c.log) + [Event(Connect(false, Routing.Open(Routing.Slave, Routing.Anonymous)), Done)]
  {
    ds.SetMasterAvailable(false);
    ghost var s0 := c.State();
    assert Routing.WriteConnectionAs(ds.Flags(), c.username, c.password)
           == Ok(Routing.Open(Routing.Slave, Routing.Anonymous));
    r := c.TargetConnection(false, Grant(h), []);
    assert S.PlanOf(s0) == [];
    assert r == Ok(h) && c.writeConnection == Some(h);
    var r2 := c.TargetConnection(false, Grant(h + 1), []);
    assert r2 == Ok(h);
  }
}
