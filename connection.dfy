/**
 * `wait_for_pg_connection`: decide the TLS mode, build the connection
 * manager, then try to connect until an attempt succeeds, sleeping the
 * sawtooth delay after every failure, and wrap the manager in a pool.
 *
 * The outcomes of successive `manager.connect()` calls are given as a
 * sequence; the sleeps are recorded in the order they happen instead of
 * being slept.
 */
module Connection {
  import opened SslPolicy
  import opened Backoff

  /** The outcome of one `manager.connect()` call. */
  datatype Attempt = Connected | Refused(error: string)

  /** Where the TLS negotiator's certificate policy comes from. */
  datatype Negotiator =
    | LibraryDefaults                           // a negotiator built on its own
    | FromConnector(verifyCertificate: bool)    // built from the configured connector

  datatype TlsMode = NoTls | RequireTls(negotiator: Negotiator)

  datatype ConnectionManager = ConnectionManager(uri: string, tls: TlsMode)

  /** The pool handed to the bridge: built from the manager, not from the tested connection. */
  datatype Pool = Pool(manager: ConnectionManager)

  /** The database comes up at some attempt; only then does the retry loop return. */
  predicate EventuallyConnects(attempts: seq<Attempt>) {
    exists k :: 0 <= k < |attempts| && attempts[k].Connected?
  }

  /** The index of the first successful attempt. */
  function FirstConnected(attempts: seq<Attempt>): (n: nat)
    requires EventuallyConnects(attempts)
    ensures n < |attempts| && attempts[n].Connected?
    ensures forall j :: 0 <= j < n ==> attempts[j].Refused?
  {
    if attempts[0].Connected? then 0
    else
      var k :| 0 <= k < |attempts| && attempts[k].Connected?;
      assert attempts[1..][k - 1].Connected?;
      1 + FirstConnected(attempts[1..])
  }

  /**
   * The TLS mode handed to the connection manager AS WRITTEN: the connector
   * whose verification was configured is never used, and the negotiator is
   * built on its own, so only the TLS request takes effect.
   */
  function TlsModeAsWritten(d: TlsDecision): (t: TlsMode)
    ensures t.RequireTls? <==> d.requestTls
    ensures t.RequireTls? ==> t.negotiator == LibraryDefaults
  {
    if d.requestTls then RequireTls(LibraryDefaults) else NoTls
  }

  /**
   * The corrected TLS mode: the configured connector is passed on, as the
   * verification step intends. The connect path does not use it; it models
   * the code as written.
   */
  function ManagerTls(d: TlsDecision): (t: TlsMode)
    ensures t.RequireTls? <==> d.requestTls
    ensures t.RequireTls? ==> t.negotiator == FromConnector(d.verifyCertificate)
  {
    if d.requestTls then RequireTls(FromConnector(d.verifyCertificate)) else NoTls
  }

  /**
   * As written, the manager's TLS mode depends only on the TLS request, so
   * `require` and `verify-full` reach the manager identically although their
   * verification differs.
   */
  lemma VerificationDecisionIsLost(d1: TlsDecision, d2: TlsDecision)
    ensures d1.requestTls == d2.requestTls ==> TlsModeAsWritten(d1) == TlsModeAsWritten(d2)
    ensures DecisionFor("require").verifyCertificate != DecisionFor("verify-full").verifyCertificate
    ensures TlsModeAsWritten(DecisionFor("require")) == TlsModeAsWritten(DecisionFor("verify-full"))
  {
    NamedModes();
  }

  /** With the connector passed on, two decisions that request TLS give the same manager mode only if they agree. */
  lemma ManagerTlsKeepsDecision(d1: TlsDecision, d2: TlsDecision)
    requires d1.requestTls
    ensures ManagerTls(d1) == ManagerTls(d2) <==> d1 == d2
  {
  }

  /**
   * Read the `sslmode`, take the TLS decision and create the connection
   * manager for `uri`. Only the TLS request reaches the manager; the
   * verification setting stays on the unused connector.
   */
  method NewConnectionManager(uri: string, query: Query) returns (manager: ConnectionManager)
    ensures manager.uri == uri
    ensures manager.tls.RequireTls? <==> Resolve(query).requestTls
    ensures manager.tls == TlsModeAsWritten(Resolve(query))
  {
    var decision := Resolve(query);
    manager := ConnectionManager(uri, TlsModeAsWritten(decision));
  }

  /**
   * The retry loop: try to connect until an attempt succeeds. There is no
   * failure return: the method comes back only after the successful
   * attempt, having slept once per failure with the sawtooth delays.
   */
  method ConnectWithRetry(manager: ConnectionManager, attempts: seq<Attempt>)
    returns (pool: Pool, delays: seq<nat>, attemptsMade: nat)
    requires EventuallyConnects(attempts)
    ensures pool == Pool(manager)
    ensures attemptsMade == FirstConnected(attempts) + 1
    ensures attempts[attemptsMade - 1].Connected?
    ensures forall j :: 0 <= j < attemptsMade - 1 ==> attempts[j].Refused?
    ensures |delays| == attemptsMade - 1
    ensures delays == Sawtooth(attemptsMade - 1)
  {
    var i: nat := InitialDelay;
    var k: nat := 0;
    ghost var firstSuccess := FirstConnected(attempts);
    delays := [];
    while attempts[k].Refused?
      invariant k <= firstSuccess
      invariant i == DelayAfter(k) && 1 <= i <= MaxDelay
      invariant delays == Sawtooth(k)
      decreases firstSuccess - k
    {
      delays := delays + [i];
      i := i * 2;
      if i > MaxDelay {
        i := InitialDelay;
      }
      k := k + 1;
      DelayAfterInRange(k);
    }
    attemptsMade := k + 1;
    pool := Pool(manager);
  }

  /** The pool a connect cycle builds for `uri` when its query is `query`. */
  function PoolFor(uri: string, query: Query): Pool {
    Pool(ConnectionManager(uri, TlsModeAsWritten(Resolve(query))))
  }

  /** `wait_for_pg_connection`: configure TLS from the URI's query, then connect with retries. */
  method WaitForPgConnection(uri: string, query: Query, attempts: seq<Attempt>)
    returns (pool: Pool, delays: seq<nat>, attemptsMade: nat)
    requires EventuallyConnects(attempts)
    ensures pool == PoolFor(uri, query)
    ensures attemptsMade == FirstConnected(attempts) + 1
    ensures delays == Sawtooth(attemptsMade - 1)
  {
    var manager := NewConnectionManager(uri, query);
    pool, delays, attemptsMade := ConnectWithRetry(manager, attempts);
  }

  /** What a caller of the retry loop can rely on: every sleep follows the closed-form schedule. */
  lemma RetryDelaysClosedForm(delays: seq<nat>, n: nat)
    requires delays == Sawtooth(n)
    ensures |delays| == n
    ensures forall k :: 0 <= k < n ==> delays[k] == Pow2(k % 6) && 1 <= delays[k] <= MaxDelay
  {
    SawtoothBounded(n);
    forall k | 0 <= k < n ensures delays[k] == Pow2(k % 6) {
      SawtoothAt(n, k);
    }
  }
}
