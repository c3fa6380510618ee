/**
 * Configuration loading (`Config::new`): three required environment
 * variables and the optional delivery-mode hint.
 *
 * The process environment is a map from variable names to values; an
 * `expect` or `panic!` in the source is a `Failure` here, which the
 * supervisor turns into process termination.
 */
module Configuration {
  import opened Outcomes

  /** The width of the `delivery_mode` field of the configuration record. */
  type u8 = x: int | 0 <= x < 256

  type Environment = map<string, string>

  const PostgresqlUriVar: string := "POSTGRESQL_URI"
  const AmqpUriVar: string := "AMQP_URI"
  const BridgeChannelsVar: string := "BRIDGE_CHANNELS"
  const DeliveryModeVar: string := "DELIVERY_MODE"

  datatype Config = Config(
    postgresqlUri: string,
    amqpUri: string,
    bridgeChannels: string,
    deliveryMode: u8)

  datatype ConfigError =
    | MissingVariable(name: string)
    | InvalidDeliveryMode(value: string)

  /**
   * The two values of the `delivery-mode` basic property of AMQP 0-9-1,
   * used as the reference the hint parser is checked against.
   */
  datatype DeliveryMode = NonPersistent | Persistent {
    /** The property's octet: 1 for non-persistent, 2 for persistent. */
    function Octet(): u8 {
      match this
      case NonPersistent => 1
      case Persistent => 2
    }

    /** The spelling that selects this mode in `DELIVERY_MODE`. */
    function Name(): string {
      match this
      case NonPersistent => "NON-PERSISTENT"
      case Persistent => "PERSISTENT"
    }
  }

  /** `env::var(name).ok()` */
  function Lookup(env: Environment, name: string): (r: Option<string>)
    ensures r.Some? <==> name in env
    ensures r.Some? ==> r.value == env[name]
  {
    if name in env then Some(env[name]) else None
  }

  /** The `match` on the delivery-mode hint: exact, case-sensitive spellings only. */
  function DeliveryModeOf(hint: Option<string>): (r: Result<u8, ConfigError>)
    ensures r.Success? ==> r.value == 1 || r.value == 2
    ensures r.Failure? ==> hint.Some? && r.error == InvalidDeliveryMode(hint.value)
  {
    match hint
    case None => Success(1)
    case Some("NON-PERSISTENT") => Success(1)
    case Some("PERSISTENT") => Success(2)
    case Some(other) => Failure(InvalidDeliveryMode(other))
  }

  /**
   * `Config::new`: the fields are evaluated in the order they are written,
   * so the first missing variable in that order is the one reported, and the
   * delivery-mode hint is only inspected once all three are present.
   */
  function LoadConfig(env: Environment): (r: Result<Config, ConfigError>)
    ensures r.Success? <==>
      PostgresqlUriVar in env && AmqpUriVar in env && BridgeChannelsVar in env &&
      DeliveryModeOf(Lookup(env, DeliveryModeVar)).Success?
    ensures r.Success? ==>
      r.value.postgresqlUri == env[PostgresqlUriVar] &&
      r.value.amqpUri == env[AmqpUriVar] &&
      r.value.bridgeChannels == env[BridgeChannelsVar] &&
      r.value.deliveryMode in {1, 2}
    ensures r.Success? ==> DeliveryModeOf(Lookup(env, DeliveryModeVar)) == Success(r.value.deliveryMode)
    ensures PostgresqlUriVar !in env ==> r == Failure(MissingVariable(PostgresqlUriVar))
    ensures PostgresqlUriVar in env && AmqpUriVar !in env ==>
      r == Failure(MissingVariable(AmqpUriVar))
    ensures PostgresqlUriVar in env && AmqpUriVar in env && BridgeChannelsVar !in env ==>
      r == Failure(MissingVariable(BridgeChannelsVar))
    ensures (PostgresqlUriVar in env && AmqpUriVar in env && BridgeChannelsVar in env &&
             DeliveryModeOf(Lookup(env, DeliveryModeVar)).Failure?) ==>
      r == Failure(InvalidDeliveryMode(env[DeliveryModeVar]))
    ensures r.Failure? && r.error.InvalidDeliveryMode? ==>
      DeliveryModeVar in env && r.error.value == env[DeliveryModeVar]
  {
    if PostgresqlUriVar !in env then Failure(MissingVariable(PostgresqlUriVar))
    else if AmqpUriVar !in env then Failure(MissingVariable(AmqpUriVar))
    else if BridgeChannelsVar !in env then Failure(MissingVariable(BridgeChannelsVar))
    else
      match DeliveryModeOf(Lookup(env, DeliveryModeVar))
      case Failure(e) => Failure(e)
      case Success(mode) =>
        Success(Config(env[PostgresqlUriVar], env[AmqpUriVar], env[BridgeChannelsVar], mode))
  }

  /** Each AMQP mode is selected by its own name, and by nothing else. */
  lemma DeliveryModeByName(m: DeliveryMode, s: string)
    ensures DeliveryModeOf(Some(m.Name())) == Success(m.Octet())
    ensures DeliveryModeOf(Some(s)).Success? <==> s == Persistent.Name() || s == NonPersistent.Name()
    ensures DeliveryModeOf(Some(s)) == Success(Persistent.Octet()) <==> s == Persistent.Name()
  {
  }

  /** An unset hint means non-persistent; other casings and the empty string are refused. */
  lemma DeliveryModeDefaultAndCasing()
    ensures DeliveryModeOf(None) == Success(NonPersistent.Octet())
    ensures DeliveryModeOf(Some("persistent")) == Failure(InvalidDeliveryMode("persistent"))
    ensures DeliveryModeOf(Some("Non-Persistent")).Failure?
    ensures DeliveryModeOf(Some("")).Failure?
  {
  }

  /** An environment that holds exactly the settings of a configuration. */
  function EnvironmentFor(c: Config): Environment {
    var required := map[PostgresqlUriVar := c.postgresqlUri, AmqpUriVar := c.amqpUri,
                         BridgeChannelsVar := c.bridgeChannels];
    if c.deliveryMode == Persistent.Octet() then required[DeliveryModeVar := Persistent.Name()]
    else required
  }

  /** Loading the environment written from a valid configuration gives that configuration back. */
  lemma LoadConfigRoundTrip(c: Config)
    requires c.deliveryMode in {1, 2}
    ensures LoadConfig(EnvironmentFor(c)) == Success(c)
  {
  }

  /** Only the four recognised variables influence the configuration. */
  lemma LoadConfigIgnoresOtherVariables(env: Environment, name: string, value: string)
    requires name !in {PostgresqlUriVar, AmqpUriVar, BridgeChannelsVar, DeliveryModeVar}
    ensures LoadConfig(env[name := value]) == LoadConfig(env)
  {
  }
}
