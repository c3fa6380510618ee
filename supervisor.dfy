/**
 * The `main` supervisor: load the configuration once, then forever connect
 * (with a fresh backoff) and run the bridge, reconnecting whenever the
 * bridge returns.
 *
 * The unbounded loop is observed over a finite run: `cycles` holds, for
 * each connect cycle, the outcomes of its connection attempts, and every
 * cycle ends with one `bridge::start` call that returns.
 */
module Supervisor {
  import opened Outcomes
  import opened Configuration
  import opened SslPolicy
  import opened Backoff
  import opened Connection

  /** What the supervisor does, one step per event. */
  datatype Event =
    | Aborted(error: ConfigError)                    // `Config::new` panicked
    | Configured(config: Config)                     // `Config::new` returned
    | Connect(delays: seq<nat>, attempts: nat)       // `wait_for_pg_connection` returned
    | Bridge(pool: Pool, amqpUri: string, bridgeChannels: string, deliveryMode: u8)  // `bridge::start` returned

  /** The URL parser turns a connection URI into its query pairs. */
  type QueryParser = string -> Query

  predicate AllCyclesConnect(cycles: seq<seq<Attempt>>) {
    forall c :: 0 <= c < |cycles| ==> EventuallyConnects(cycles[c])
  }

  /** How a connect cycle builds its pool from the configuration. */
  type PoolBuilder = Config -> Pool

  /** The pool builder of `wait_for_pg_connection`, with `parse` as the URL parser. */
  function BuildPool(parse: QueryParser): PoolBuilder {
    (config: Config) => PoolFor(config.postgresqlUri, parse(config.postgresqlUri))
  }

  /** The two events of one connect cycle, which hands `pool` to the bridge. */
  function CycleEvents(config: Config, pool: Pool, attempts: seq<Attempt>): seq<Event>
    requires EventuallyConnects(attempts)
  {
    var failures := FirstConnected(attempts);
    [Connect(Sawtooth(failures), failures + 1),
     Bridge(pool, config.amqpUri, config.bridgeChannels, config.deliveryMode)]
  }

  /**
   * The events of a sequence of connect cycles. Every cycle builds its pool
   * from the same URI, so every cycle hands the bridge an equal pool.
   */
  function CyclesTrace(config: Config, pool: Pool, cycles: seq<seq<Attempt>>): seq<Event>
    requires AllCyclesConnect(cycles)
  {
    if cycles == [] then []
    else
      var init := cycles[..|cycles| - 1];
      assert forall c :: 0 <= c < |init| ==> init[c] == cycles[c];
      CyclesTrace(config, pool, init) + CycleEvents(config, pool, cycles[|cycles| - 1])
  }

  /** The events of a run of `main` whose configuration step gave `loaded`. */
  function RunTrace(loaded: Result<Config, ConfigError>, build: PoolBuilder, cycles: seq<seq<Attempt>>): seq<Event>
    requires AllCyclesConnect(cycles)
  {
    match loaded
    case Failure(e) => [Aborted(e)]
    case Success(config) => [Configured(config)] + CyclesTrace(config, build(config), cycles)
  }

  /** The events of a run of `main` in environment `env` over the given connect cycles. */
  function SupervisorTrace(env: Environment, parse: QueryParser, cycles: seq<seq<Attempt>>): seq<Event>
    requires AllCyclesConnect(cycles)
  {
    RunTrace(LoadConfig(env), BuildPool(parse), cycles)
  }

  /** One more cycle appends that cycle's events. */
  lemma CyclesTraceSnoc(config: Config, pool: Pool, cycles: seq<seq<Attempt>>, c: nat)
    requires AllCyclesConnect(cycles)
    requires c < |cycles|
    ensures AllCyclesConnect(cycles[..c]) && AllCyclesConnect(cycles[..c + 1])
    ensures CyclesTrace(config, pool, cycles[..c + 1]) ==
      CyclesTrace(config, pool, cycles[..c]) + CycleEvents(config, pool, cycles[c])
  {
    assert cycles[..c + 1][..c] == cycles[..c];
  }

  /** The events a cycle records are those of `CycleEvents` once the retry loop has run. */
  lemma CycleEventsOfRun(config: Config, pool: Pool, attempts: seq<Attempt>, delays: seq<nat>, attemptsMade: nat)
    requires EventuallyConnects(attempts)
    requires attemptsMade == FirstConnected(attempts) + 1
    requires delays == Sawtooth(attemptsMade - 1)
    ensures [Connect(delays, attemptsMade),
             Bridge(pool, config.amqpUri, config.bridgeChannels, config.deliveryMode)]
            == CycleEvents(config, pool, attempts)
  {
  }

  /** One turn of the `main` loop: connect with a fresh backoff, then run the bridge until it returns. */
  method RunCycle(config: Config, parse: QueryParser, attempts: seq<Attempt>) returns (events: seq<Event>)
    requires EventuallyConnects(attempts)
    ensures events == CycleEvents(config, PoolFor(config.postgresqlUri, parse(config.postgresqlUri)), attempts)
  {
    var uri := config.postgresqlUri;
    var pool, delays, attemptsMade := WaitForPgConnection(uri, parse(uri), attempts);
    events := [Connect(delays, attemptsMade),
               Bridge(pool, config.amqpUri, config.bridgeChannels, config.deliveryMode)];
    CycleEventsOfRun(config, pool, attempts, delays, attemptsMade);
  }

  /** `main`: load the configuration once, then run one cycle per bridge return. */
  method Supervise(env: Environment, parse: QueryParser, cycles: seq<seq<Attempt>>)
    returns (trace: seq<Event>)
    requires AllCyclesConnect(cycles)
    ensures trace == SupervisorTrace(env, parse, cycles)
  {
    var loaded := LoadConfig(env);
    if loaded.Failure? {
      trace := [Aborted(loaded.error)];
      return;
    }
    var config := loaded.value;
    var events := RunCycles(config, parse, cycles);
    trace := [Configured(config)] + events;
  }

  /** The `loop` of `main`, run over the given connect cycles. */
  method RunCycles(config: Config, parse: QueryParser, cycles: seq<seq<Attempt>>)
    returns (events: seq<Event>)
    requires AllCyclesConnect(cycles)
    ensures events == CyclesTrace(config, BuildPool(parse)(config), cycles)
  {
    ghost var pool := BuildPool(parse)(config);
    assert pool == PoolFor(config.postgresqlUri, parse(config.postgresqlUri));
    events := [];
    var c := 0;
    while c < |cycles|
      invariant 0 <= c <= |cycles|
      invariant AllCyclesConnect(cycles[..c])
      invariant events == CyclesTrace(config, pool, cycles[..c])
    {
      var cycle := RunCycle(config, parse, cycles[c]);
      CyclesTraceSnoc(config, pool, cycles, c);
      events := events + cycle;
      c := c + 1;
    }
    assert cycles[..|cycles|] == cycles;
  }

  lemma {:induction false} CyclesTraceLength(config: Config, pool: Pool, cycles: seq<seq<Attempt>>)
    requires AllCyclesConnect(cycles)
    ensures |CyclesTrace(config, pool, cycles)| == 2 * |cycles|
  {
    if cycles != [] {
      var init := cycles[..|cycles| - 1];
      assert forall d :: 0 <= d < |init| ==> init[d] == cycles[d];
      CyclesTraceLength(config, pool, init);
    }
  }

  /** The cycles alternate a connect and a bridge run, one pair per cycle, in order. */
  lemma {:induction false} CyclesTraceShape(config: Config, pool: Pool, cycles: seq<seq<Attempt>>, c: nat)
    requires AllCyclesConnect(cycles)
    requires c < |cycles|
    ensures |CyclesTrace(config, pool, cycles)| == 2 * |cycles|
    ensures CyclesTrace(config, pool, cycles)[2 * c] ==
      Connect(Sawtooth(FirstConnected(cycles[c])), FirstConnected(cycles[c]) + 1)
    ensures CyclesTrace(config, pool, cycles)[2 * c + 1] ==
      Bridge(pool, config.amqpUri, config.bridgeChannels, config.deliveryMode)
  {
    var init := cycles[..|cycles| - 1];
    assert forall d :: 0 <= d < |init| ==> init[d] == cycles[d];
    if c < |cycles| - 1 {
      CyclesTraceShape(config, pool, init, c);
    } else if |init| > 0 {
      CyclesTraceShape(config, pool, init, 0);
    }
  }

  /** An event of the cycles is a connect at even positions and a bridge run at odd ones. */
  lemma CyclesTraceKinds(config: Config, pool: Pool, cycles: seq<seq<Attempt>>, i: nat)
    requires AllCyclesConnect(cycles)
    requires i < 2 * |cycles|
    ensures |CyclesTrace(config, pool, cycles)| == 2 * |cycles|
    ensures CyclesTrace(config, pool, cycles)[i].Connect? <==> i % 2 == 0
    ensures CyclesTrace(config, pool, cycles)[i].Bridge? <==> i % 2 == 1
  {
    CyclesTraceShape(config, pool, cycles, i / 2);
  }

  /**
   * The configuration step comes first and happens once; a failed step ends
   * the run before any connection attempt.
   */
  lemma ConfigurationFirstAndOnce(loaded: Result<Config, ConfigError>, build: PoolBuilder,
                                  cycles: seq<seq<Attempt>>, i: nat)
    requires AllCyclesConnect(cycles)
    ensures var t := RunTrace(loaded, build, cycles);
      |t| >= 1 &&
      (loaded.Failure? ==> t == [Aborted(loaded.error)]) &&
      (loaded.Success? ==> t[0] == Configured(loaded.value) && |t| == 1 + 2 * |cycles|) &&
      (1 <= i < |t| ==> t[i].Connect? || t[i].Bridge?)
  {
    if loaded.Success? && 1 <= i < 1 + 2 * |cycles| {
      var config := loaded.value;
      CyclesTraceKinds(config, build(config), cycles, i - 1);
    } else if loaded.Success? && cycles != [] {
      var config := loaded.value;
      CyclesTraceKinds(config, build(config), cycles, 0);
    }
  }

  /** Without `POSTGRESQL_URI` the process stops before any connection attempt. */
  lemma MissingDatabaseUriStopsFirst(env: Environment, parse: QueryParser, cycles: seq<seq<Attempt>>)
    requires AllCyclesConnect(cycles)
    requires PostgresqlUriVar !in env
    ensures SupervisorTrace(env, parse, cycles) == [Aborted(MissingVariable(PostgresqlUriVar))]
  {
  }

  /** Within the cycles: a bridge run is followed by a connect, and each connect backs off from one second. */
  lemma CyclesReconnect(config: Config, pool: Pool, cycles: seq<seq<Attempt>>, i: nat)
    requires AllCyclesConnect(cycles)
    requires i < 2 * |cycles|
    ensures var t := CyclesTrace(config, pool, cycles);
      |t| == 2 * |cycles| &&
      (t[i].Bridge? && i + 1 < |t| ==> t[i + 1].Connect?) &&
      (t[i].Connect? ==>
         t[i].attempts >= 1 && t[i].delays == Sawtooth(t[i].attempts - 1) &&
         (|t[i].delays| > 0 ==> t[i].delays[0] == InitialDelay))
  {
    var c := i / 2;
    CyclesTraceShape(config, pool, cycles, c);
    if i % 2 == 1 && c + 1 < |cycles| {
      CyclesTraceShape(config, pool, cycles, c + 1);
    }
    var n := FirstConnected(cycles[c]);
    if n > 0 {
      SawtoothAt(n, 0);
    }
  }

  /**
   * Every return of the bridge is followed at once by a new connect cycle,
   * and every connect cycle restarts the backoff at one second.
   */
  lemma ReconnectAfterBridge(loaded: Result<Config, ConfigError>, build: PoolBuilder,
                             cycles: seq<seq<Attempt>>, i: nat)
    requires AllCyclesConnect(cycles)
    requires i < |RunTrace(loaded, build, cycles)|
    ensures var t := RunTrace(loaded, build, cycles);
      (t[i].Bridge? && i + 1 < |t| ==> t[i + 1].Connect?) &&
      (t[i].Connect? ==>
         t[i].attempts >= 1 && t[i].delays == Sawtooth(t[i].attempts - 1) &&
         (|t[i].delays| > 0 ==> t[i].delays[0] == InitialDelay))
  {
    if loaded.Success? && i >= 1 {
      var config := loaded.value;
      var ct := CyclesTrace(config, build(config), cycles);
      assert RunTrace(loaded, build, cycles) == [Configured(config)] + ct;
      CyclesTraceLength(config, build(config), cycles);
      CyclesReconnect(config, build(config), cycles, i - 1);
    }
  }

  /** Each cycle's bridge run receives the pool of the configured database and the configured broker settings. */
  lemma BridgeRunsUseConfig(config: Config, build: PoolBuilder, cycles: seq<seq<Attempt>>, c: nat)
    requires AllCyclesConnect(cycles)
    requires c < |cycles|
    ensures var t := RunTrace(Success(config), build, cycles);
      |t| == 1 + 2 * |cycles| &&
      t[2 * c + 1] == Connect(Sawtooth(FirstConnected(cycles[c])), FirstConnected(cycles[c]) + 1) &&
      t[2 * c + 2] == Bridge(build(config), config.amqpUri, config.bridgeChannels, config.deliveryMode)
  {
    var pool := build(config);
    var ct := CyclesTrace(config, pool, cycles);
    assert RunTrace(Success(config), build, cycles) == [Configured(config)] + ct;
    CyclesTraceShape(config, pool, cycles, c);
    assert ([Configured(config)] + ct)[2 * c + 1] == ct[2 * c];
    assert ([Configured(config)] + ct)[2 * c + 2] == ct[2 * c + 1];
  }
}
