# pg-amqp-bridge: connection-resilience layer

A Dafny model of the start-up and reconnect logic of `pg-amqp-bridge`: the
process that hands a PostgreSQL connection pool to the bridge engine, which
forwards PostgreSQL `NOTIFY` messages to an AMQP broker. The model covers the
four parts of `src/main.rs` that decide what the process does:

- **Configuration** (`Configuration`, `Config::new`): `POSTGRESQL_URI`,
  `AMQP_URI` and `BRIDGE_CHANNELS` are required. The optional
  `DELIVERY_MODE` maps `NON-PERSISTENT` (or absence) to octet 1 and
  `PERSISTENT` to octet 2. These are the two values of the `delivery-mode`
  basic property of AMQP 0-9-1. Any other value aborts the process.
- **TLS decision** (`SslPolicy`): the `sslmode` query parameter is read,
  with the last value winning and `require` as the default. It is then
  lowercased and mapped to two independent flags: verify certificates, and
  request TLS. `require` (and the default) turns verification off while
  still requesting TLS. An unrecognised value keeps verification on and
  requests no TLS. The mapping is checked against a table of the six
  `sslmode` keywords of libpq (PostgreSQL documentation, section 34.1.2
  "Parameter Key Words").
- **Sawtooth backoff** (`Backoff`, `Connection`): the retry loop sleeps
  1, 2, 4, 8, 16, 32, 1, 2, … seconds, that is 2^(k mod 6) for the k-th
  failure. It never gives up. `ConnectWithRetry` is the loop itself, driven
  by a sequence of attempt outcomes, and it records each delay instead of
  sleeping.
- **Supervisor** (`Supervisor`, `main`): the configuration is loaded once.
  Each turn of the loop then connects with a fresh backoff and runs the
  bridge until it returns. `Supervise` runs a finite number of such turns
  and produces the trace of events (`Configured`/`Aborted`, `Connect`,
  `Bridge`) that the lemmas reason about.

Files: `outcomes.dfy` (Option/Result), `config.dfy`, `ssl_policy.dfy`,
`backoff.dfy`, `connection.dfy`, `supervisor.dfy`.

Points where the code's behaviour is easy to misread; the model follows the
code:
- An empty `DELIVERY_MODE` is refused like any other unrecognised value.
- The TLS decision is taken once per connect cycle, not once per attempt.
- The pool is built from the connection manager. The connection that proved
  the database reachable is dropped, not handed to the pool.
- The certificate-verification decision never reaches the connection
  manager (see "## Findings").

## Model

| member | source | states |
|---|---|---|
| `Configuration.DeliveryModeOf` | src/main.rs:32-38 | a successful delivery mode is 1 or 2; a failure carries the offending hint, which is always present |
| `Configuration.DeliveryModeByName` | src/main.rs:33-37 | each AMQP mode's own name selects its octet; exactly `PERSISTENT` and `NON-PERSISTENT` succeed; octet 2 comes only from `PERSISTENT` |
| `Configuration.DeliveryModeDefaultAndCasing` | src/main.rs:33-37 | an unset hint gives non-persistent; `persistent`, `Non-Persistent` and the empty string are refused |
| `Configuration.LoadConfig` | src/main.rs:26-40 | success exactly when the three required variables are set and the hint is valid; the three strings are stored unchanged and the mode is the octet the hint selects, 1 or 2; the first missing variable, in field order, is the one reported; with the three required variables set, an invalid hint fails as `InvalidDeliveryMode` carrying the hint's own value |
| `Configuration.LoadConfigRoundTrip` | src/main.rs:28-38 | the environment written from a valid configuration loads back to that configuration |
| `Configuration.LoadConfigIgnoresOtherVariables` | src/main.rs:29-33 | variables other than the four recognised ones do not affect the result |
| `SslPolicy.Collect` | src/main.rs:60 | the collected map has exactly the keys that occur in the query |
| `SslPolicy.CollectKeepsLast` | src/main.rs:60 | the value kept for a key is that of its last occurrence |
| `SslPolicy.EffectiveSslMode` | src/main.rs:61-64 | without an `sslmode` key the mode is `require` |
| `SslPolicy.LastSslModeWins` | src/main.rs:60-64 | an `sslmode` pair that ends the query decides, whatever pairs precede it |
| `SslPolicy.LastSslModeDecides` | src/main.rs:60-64 | the last `sslmode` pair gives the effective mode and decides, even when pairs with other keys follow it |
| `SslPolicy.MissingSslModeIsRequire` | src/main.rs:61-64 | a query without `sslmode` decides as an explicit `sslmode=require` does: no verification, TLS requested |
| `SslPolicy.Resolve` | src/main.rs:59-78 | the decision taken from a query; a query with no `sslmode` pair gives (no verify, TLS) |
| `SslPolicy.DecisionFor` | src/main.rs:67-78 | verification is off exactly for lowercased `disable`, `require`, `prefer`, `allow`; TLS is requested exactly for lowercased `require`, `verify-ca`, `verify-full` |
| `SslPolicy.ParseSslMode` | src/main.rs:67-78 | a recognised value lowercases to that libpq mode's keyword; an unrecognised one matches no keyword |
| `SslPolicy.ParseAnySpelling` | src/main.rs:67-78 | any value whose lowercase form is a libpq keyword, in whatever ASCII casing, parses to that keyword's mode |
| `SslPolicy.DecisionMatchesLibpqModes` | src/main.rs:67-78 | for every recognised libpq mode, in any casing, the two matches agree with the per-mode table |
| `SslPolicy.UnknownModeVerifiesWithoutTls` | src/main.rs:69-77 | a value libpq does not define verifies certificates and requests no TLS |
| `SslPolicy.DecisionIgnoresCase` | src/main.rs:67-73 | two values with the same lowercase form give the same decision |
| `SslPolicy.DecisionOfLowered` | src/main.rs:67-73 | lowercasing is idempotent, so a lowercased value decides as the original does |
| `SslPolicy.NamedModes` | src/main.rs:61-78 | `disable` gives (no verify, no TLS); `verify-full` gives (verify, TLS); `require` gives (no verify, TLS); `VERIFY-CA` gives (verify, TLS); an unknown value gives (verify, no TLS) |
| `Backoff.NextDelay` | src/main.rs:89-90 | the next delay is the doubled current one when that is at most 32, and 1 exactly when doubling would pass 32; from a delay in [1,32] it stays in [1,32] |
| `Backoff.DelayAfter` | src/main.rs:83-90 | the delay held after any number of failures lies in [1,32] |
| `Backoff.DelayAfterClosedForm` | src/main.rs:83-90 | the delay after k failures is 2^(k mod 6) |
| `Backoff.DelayAfterInRange` | src/main.rs:83-90 | the delay is always in [1,32] and a power of two |
| `Backoff.DelayAfterPeriodic` | src/main.rs:89-90 | the delay repeats every six failures |
| `Backoff.SawtoothAt` | src/main.rs:84-90 | the k-th sleep of a cycle, counting from 0, lasts 2^(k mod 6) seconds |
| `Backoff.SawtoothPrefix` | src/main.rs:84-90 | a cycle with more failures starts with the same delays, so the schedule does not depend on later outcomes |
| `Backoff.SawtoothBounded` | src/main.rs:84-90 | every sleep of a cycle is a power of two in [1,32] |
| `Backoff.SevenFailures` | src/main.rs:84-90 | seven failures sleep exactly 1, 2, 4, 8, 16, 32, 1 seconds |
| `Connection.FirstConnected` | src/main.rs:84 | the index found is a successful attempt and every earlier attempt failed |
| `Connection.TlsModeAsWritten` | src/main.rs:72-80 | the manager asks for TLS exactly when the decision does; its negotiator is always the one built with the library's defaults |
| `Connection.VerificationDecisionIsLost` | src/main.rs:66-80 | as written, any two decisions with the same TLS request give the same manager TLS mode; in particular `require` and `verify-full` differ in verification yet reach the manager identically |
| `Connection.ManagerTls` | src/main.rs:66-80 | corrected half of the finding below, not the code as written: the manager asks for TLS exactly when the decision does, and then carries the decision's verification setting |
| `Connection.ManagerTlsKeepsDecision` | src/main.rs:66-80 | with the connector passed on, a decision that requests TLS is recovered from the manager's TLS mode |
| `Connection.NewConnectionManager` | src/main.rs:59-81 | the manager connects to the given URI; it requests TLS exactly when the query's decision does, with the as-written TLS mode, so only the TLS request reaches it |
| `Connection.ConnectWithRetry` | src/main.rs:83-93 | returns only after the first successful attempt; it makes n+1 attempts and n sleeps for n failures, the sleeps are the sawtooth delays, and the pool wraps the manager |
| `Connection.WaitForPgConnection` | src/main.rs:56-94 | the pool is built for the URI with the as-written TLS mode of its query; n failures give n+1 attempts and the sawtooth delays |
| `Connection.RetryDelaysClosedForm` | src/main.rs:83-91 | every recorded sleep is 2^(k mod 6) seconds and lies in [1,32] |
| `Supervisor.RunCycle` | src/main.rs:48-52 | one loop turn gives one connect event, with a fresh sawtooth schedule, followed by one bridge run on the configured pool and broker settings |
| `Supervisor.RunCycles` | src/main.rs:47-53 | the loop's events are the cycle trace of the configured settings and the pool built from the configured URI |
| `Supervisor.Supervise` | src/main.rs:43-54 | the events of the run are those of the supervisor's trace |
| `Supervisor.CyclesTraceLength` | src/main.rs:47-53 | every cycle contributes exactly two events |
| `Supervisor.CyclesTraceShape` | src/main.rs:47-53 | cycle c gives a connect at position 2c, with its own backoff restarted at 1, and a bridge run at 2c+1 |
| `Supervisor.CyclesTraceKinds` | src/main.rs:47-53 | connects and bridge runs strictly alternate |
| `Supervisor.ConfigurationFirstAndOnce` | src/main.rs:45-53 | the configuration step is the first event and occurs once; a failed step is the whole run |
| `Supervisor.MissingDatabaseUriStopsFirst` | src/main.rs:29-48 | without `POSTGRESQL_URI` the run aborts before any connection attempt |
| `Supervisor.CyclesReconnect` | src/main.rs:47-53 | within the cycles a bridge run is followed at once by a connect, and each connect's delays begin at one second |
| `Supervisor.ReconnectAfterBridge` | src/main.rs:47-53 | in the whole run every bridge return is followed at once by a new connect cycle whose backoff starts again at 1 |
| `Supervisor.BridgeRunsUseConfig` | src/main.rs:48-52 | each bridge run receives the cycle's pool and the configured broker URI, channels and delivery mode |

## Left out

- Logging: `env_logger` initialisation and the `println!` diagnostics are not modelled. The sleeps are recorded as delays, not slept.
- The environment and the URL parser are parameters. `Configuration.Environment` is a map. `Supervisor.QueryParser` gives the query pairs of a URI, already percent-decoded. It stands for `Url::parse` and `query_pairs`.
- Panics in foreign code are not modelled: a malformed URI in `Url::parse(...).unwrap()`, failures of `SslConnector::builder(...).unwrap()` (src/main.rs:66) and `OpenSsl::new().unwrap()` (src/main.rs:72), and failures of `PostgresConnectionManager::new` and `Pool::new`. The model treats these steps as succeeding.
- An environment value that is not valid Unicode is not modelled; strings are sequences of characters. For a required variable the source would panic; for `DELIVERY_MODE` it would treat the value as unset.
- `SslPolicy.ToLower` lowercases ASCII letters only, where `to_lowercase` applies Unicode's full lowercase mapping. This does not change which of the six lowercase ASCII keywords a value matches. The only non-ASCII characters that lowercase into ASCII are the Kelvin sign (to `k`, which no keyword contains) and `İ` (to `i` followed by a combining dot, which no keyword contains either).
- The second read of `POSTGRESQL_URI` from the environment (src/main.rs:59) is not modelled. The model uses the configured URI for both the TLS decision and the connection manager.
- The OpenSSL connector and negotiator objects are reduced to the flags they carry (`Connection.Negotiator`).
- `bridge::start` is an opaque call that returns. Its threads, channels and AMQP traffic belong to the bridge library, which is not part of this model. So does `tests/main.rs`, which needs live servers.
- The supervisor loop runs forever; `Supervisor.Supervise` runs a given finite number of connect cycles, one per bridge return.
- The corrected TLS mode (`Connection.ManagerTls`) is stated and proved only as the corrected half of the finding; the connect path and the supervisor use the mode as written (`Connection.TlsModeAsWritten`).
- Connection.ConnectWithRetry: requires that some attempt eventually succeeds, because otherwise the source loop never returns. The delays of any prefix of failures are still given by `Backoff.Sawtooth`, whose schedule never depends on later attempts (`Backoff.SawtoothPrefix`).
- Process exit status and signals are not modelled; a failed configuration step is the `Aborted` event.
- The retry counter is a 64-bit integer in the source; it never exceeds 64, so no wrap-around is modelled.

## Findings

| source | as written | input that shows it | evidently intended | confidence | as-written member | corrected member |
|---|---|---|---|---|---|---|
| src/main.rs:66-80 | the connector on which `set_verify` switches verification off is never used; the negotiator handed to the manager is built on its own, with the TLS library's defaults | `sslmode=require` (or no `sslmode`) and `sslmode=verify-full`: different verification decisions, identical manager TLS mode | the negotiator is built from the configured connector, so the verification decision reaches the connection | not executed; high that the decision is dropped, since the connector is never read again | `Connection.VerificationDecisionIsLost` | `Connection.ManagerTlsKeepsDecision` |
