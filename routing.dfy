/**
 * Backend resolution of `MasterslaveDataSource`: which data source a read or a
 * write is sent to, and with which credentials, given the availability flags
 * at the time of the call.
 */
module Routing {
  import opened Wrappers
  import opened Faults

  /** The two data sources the router sits in front of. */
  datatype Endpoint = Master | Slave

  /** Which `getConnection` overload is called: without arguments, or with a user name and password. */
  datatype Credentials = Anonymous | Given(username: Option<string>, password: Option<string>)

  /** A `getConnection` call on one of the data sources. */
  datatype Open = Open(endpoint: Endpoint, credentials: Credentials)

  /** What resolution reads from the data source at the time of the call. */
  datatype Flags = Flags(masterPresent: bool, slavePresent: bool, slaveWritable: bool,
                         masterAvailable: bool, slaveAvailable: bool)

  /** `Strings.isNullOrEmpty`. */
  predicate NullOrEmpty(s: Option<string>) {
    s.None? || s.value == []
  }

  /** The writes fail over to the slave: the master is down and the slave is writable and up. */
  predicate SlaveTakesWrites(f: Flags) {
    !f.masterAvailable && f.slaveWritable && f.slaveAvailable
  }

  /** Calling `getConnection` on a data source field: a null field raises. */
  function Call(f: Flags, o: Open): (r: Result<Open, Fault>)
    ensures r.Ok? ==> r.value == o
    ensures r.Err? <==> (if o.endpoint == Master then !f.masterPresent else !f.slavePresent)
    ensures r.Err? ==> r.error == NullPointer
  {
    var present := if o.endpoint == Master then f.masterPresent else f.slavePresent;
    if present then Ok(o) else Err(NullPointer)
  }

  /** The private `writeConnection()`. */
  function WriteConnection(f: Flags): Result<Open, Fault> {
    if SlaveTakesWrites(f) then Call(f, Open(Slave, Anonymous)) else Call(f, Open(Master, Anonymous))
  }

  /** The private `readConnection()`. */
  function ReadConnection(f: Flags): Result<Open, Fault> {
    if !f.slavePresent || !f.slaveAvailable then WriteConnection(f) else Call(f, Open(Slave, Anonymous))
  }

  /** `writeConnection(username, password)`. */
  function WriteConnectionAs(f: Flags, username: Option<string>, password: Option<string>): Result<Open, Fault> {
    if NullOrEmpty(username) && NullOrEmpty(password) then WriteConnection(f)
    else if SlaveTakesWrites(f) then Call(f, Open(Slave, Anonymous))
    else Call(f, Open(Master, Given(username, password)))
  }

  /** `readConnection(username, password)`. */
  function ReadConnectionAs(f: Flags, username: Option<string>, password: Option<string>): Result<Open, Fault> {
    if NullOrEmpty(username) && NullOrEmpty(password) then ReadConnection(f)
    else if !f.slavePresent || !f.slaveAvailable then WriteConnectionAs(f, username, password)
    else Call(f, Open(Slave, Given(username, password)))
  }

  /** The data source a successful resolution opened, if it succeeded. */
  function Target(r: Result<Open, Fault>): Option<Endpoint> {
    if r.Ok? then Some(r.value.endpoint) else None
  }

  /**
   * A write without credentials goes to the slave exactly when the master is
   * down and the slave is writable and up; otherwise to the master, even one
   * marked down. Writes never carry credentials on this path.
   */
  lemma WriteResolution(f: Flags)
    ensures WriteConnection(f).Ok? ==> WriteConnection(f).value.credentials == Anonymous
    ensures WriteConnection(f).Ok? ==> (Target(WriteConnection(f)) == Some(Slave) <==> SlaveTakesWrites(f))
    ensures !f.masterAvailable && !SlaveTakesWrites(f) && f.masterPresent ==>
              WriteConnection(f) == Ok(Open(Master, Anonymous))
  {
  }

  /**
   * A read without credentials goes to the slave when there is one and it is
   * up; otherwise it is resolved as a write.
   */
  lemma ReadResolution(f: Flags)
    ensures f.slavePresent && f.slaveAvailable ==> ReadConnection(f) == Ok(Open(Slave, Anonymous))
    ensures !(f.slavePresent && f.slaveAvailable) ==> ReadConnection(f) == WriteConnection(f)
  {
  }

  /** With neither a user name nor a password, the credentialed overloads behave as the plain ones. */
  lemma EmptyCredentialsIgnored(f: Flags, username: Option<string>, password: Option<string>)
    requires NullOrEmpty(username) && NullOrEmpty(password)
    ensures ReadConnectionAs(f, username, password) == ReadConnection(f)
    ensures WriteConnectionAs(f, username, password) == WriteConnection(f)
  {
  }

  /**
   * With credentials, a write that fails over opens the slave without them,
   * and a write to the master passes them on.
   */
  lemma CredentialedWrite(f: Flags, username: Option<string>, password: Option<string>)
    requires !(NullOrEmpty(username) && NullOrEmpty(password))
    ensures SlaveTakesWrites(f) ==> WriteConnectionAs(f, username, password) == Call(f, Open(Slave, Anonymous))
    ensures !SlaveTakesWrites(f) ==> WriteConnectionAs(f, username, password) == Call(f, Open(Master, Given(username, password)))
  {
  }

  /**
   * With credentials, a read uses the slave with them when there is one and it
   * is up, and otherwise is resolved as a credentialed write.
   */
  lemma CredentialedRead(f: Flags, username: Option<string>, password: Option<string>)
    requires !(NullOrEmpty(username) && NullOrEmpty(password))
    ensures f.slavePresent && f.slaveAvailable ==>
              ReadConnectionAs(f, username, password) == Ok(Open(Slave, Given(username, password)))
    ensures !(f.slavePresent && f.slaveAvailable) ==>
              ReadConnectionAs(f, username, password) == WriteConnectionAs(f, username, password)
  {
  }

  /** Without a slave and with the slave marked down, every read goes to the master. */
  lemma NoSlaveReadsMaster(f: Flags, username: Option<string>, password: Option<string>)
    requires !f.slavePresent && !f.slaveAvailable && f.masterPresent
    ensures Target(ReadConnection(f)) == Some(Master)
    ensures Target(ReadConnectionAs(f, username, password)) == Some(Master)
  {
  }

  /**
   * A data source wired as the factory wires it (a master is set; a missing
   * slave is marked down) resolves every request to a data source that is
   * there.
   */
  lemma WellWiredNeverDereferencesNull(f: Flags, username: Option<string>, password: Option<string>)
    requires f.masterPresent && (!f.slavePresent ==> !f.slaveAvailable)
    ensures ReadConnection(f).Ok? && WriteConnection(f).Ok?
    ensures ReadConnectionAs(f, username, password).Ok? && WriteConnectionAs(f, username, password).Ok?
  {
  }

  /**
   * Without the wiring assumption the failover path can reach a missing
   * slave: with no slave, once the master is marked down while the slave is
   * still marked writable and up, every plain write and read dereferences the
   * null field. With a master, that is the only way a plain write raises.
   */
  lemma UnwiredSlaveDereferencesNull(f: Flags)
    ensures !f.slavePresent && SlaveTakesWrites(f) ==>
              WriteConnection(f) == Err(NullPointer) && ReadConnection(f) == Err(NullPointer)
    ensures f.masterPresent ==> (WriteConnection(f).Err? <==> !f.slavePresent && SlaveTakesWrites(f))
  {
  }
}
