/**
 * The transport-security decision taken at the start of every connect
 * cycle from the `sslmode` query parameter of the PostgreSQL URI.
 *
 * The parsed query is the list of key/value pairs in the order they appear;
 * collecting it into a hash map keeps the last value given for a key.
 */
module SslPolicy {
  import opened Outcomes

  type Query = seq<(string, string)>

  const SslModeKey: string := "sslmode"
  /** The mode assumed when the query has no `sslmode` key. */
  const DefaultSslMode: string := "require"

  /** What the connection manager is asked to do. */
  datatype TlsDecision = TlsDecision(verifyCertificate: bool, requestTls: bool)

  /** `query_pairs().into_owned().collect()` into a `HashMap`: later pairs overwrite earlier ones. */
  function Collect(q: Query): (m: map<string, string>)
    ensures forall k :: k in m <==> exists i :: 0 <= i < |q| && q[i].0 == k
  {
    if q == [] then map[]
    else
      var last := q[|q| - 1];
      var m' := Collect(q[..|q| - 1]);
      assert forall i :: 0 <= i < |q| - 1 ==> q[..|q| - 1][i] == q[i];
      m'[last.0 := last.1]
  }

  /** The value the map holds for a key is the one of the last pair with that key. */
  lemma {:induction false} CollectKeepsLast(q: Query, i: nat)
    requires i < |q|
    requires forall j :: i < j < |q| ==> q[j].0 != q[i].0
    ensures q[i].0 in Collect(q) && Collect(q)[q[i].0] == q[i].1
  {
    if i < |q| - 1 {
      var init := q[..|q| - 1];
      assert init[i] == q[i];
      forall j | i < j < |init| ensures init[j].0 != init[i].0 {
        assert init[j] == q[j];
      }
      CollectKeepsLast(init, i);
    }
  }

  /** The `sslmode` of a query: its last value, or `"require"` when the key is absent. */
  function EffectiveSslMode(q: Query): (mode: string)
    ensures (forall i :: 0 <= i < |q| ==> q[i].0 != SslModeKey) ==> mode == DefaultSslMode
  {
    var h := Collect(q);
    if SslModeKey in h then h[SslModeKey] else DefaultSslMode
  }

  /** A character as `to_lowercase` leaves it, for the ASCII letters. */
  function LowerChar(c: char): char {
    if 'A' <= c <= 'Z' then (c as int + 32) as char else c
  }

  function ToLower(s: string): (r: string)
    ensures |r| == |s|
    ensures forall i :: 0 <= i < |s| ==> r[i] == LowerChar(s[i])
  {
    seq(|s|, i requires 0 <= i < |s| => LowerChar(s[i]))
  }

  /** The first `match`: these four modes switch certificate verification off. */
  function VerifiesCertificate(mode: string): bool {
    match ToLower(mode)
    case "disable" | "require" | "prefer" | "allow" => false
    case _ => true
  }

  /** The second `match`: these three modes ask for TLS; every other value gives a plain connection. */
  function RequestsTls(mode: string): bool {
    match ToLower(mode)
    case "require" | "verify-ca" | "verify-full" => true
    case _ => false
  }

  /**
   * Both flags for one mode. The ensures restate the two `match` expressions
   * as set membership; `DecisionMatchesLibpqModes` checks them against the
   * independent per-mode table of `LibpqSslMode`.
   */
  function DecisionFor(mode: string): (d: TlsDecision)
    ensures d.verifyCertificate <==> ToLower(mode) !in {"disable", "require", "prefer", "allow"}
    ensures d.requestTls <==> ToLower(mode) in {"require", "verify-ca", "verify-full"}
  {
    TlsDecision(VerifiesCertificate(mode), RequestsTls(mode))
  }

  /** The decision taken for a connection URI with the given query. */
  function Resolve(q: Query): (d: TlsDecision)
    ensures (forall i :: 0 <= i < |q| ==> q[i].0 != SslModeKey) ==> d == TlsDecision(false, true)
  {
    assert ToLower(DefaultSslMode) == DefaultSslMode;
    DecisionFor(EffectiveSslMode(q))
  }

  // ---------------------------------------------------------------------
  // Reference: the `sslmode` values of libpq's connection parameters
  // (PostgreSQL documentation, section 34.1.2 "Parameter Key Words").
  // ---------------------------------------------------------------------

  datatype LibpqSslMode = Disable | Allow | Prefer | Require | VerifyCa | VerifyFull {
    function Keyword(): string {
      match this
      case Disable => "disable"
      case Allow => "allow"
      case Prefer => "prefer"
      case Require => "require"
      case VerifyCa => "verify-ca"
      case VerifyFull => "verify-full"
    }

    /** The bridge's reading of each libpq mode, written down once per mode. */
    function BridgeDecision(): TlsDecision {
      match this
      case Disable => TlsDecision(false, false)
      case Allow => TlsDecision(false, false)
      case Prefer => TlsDecision(false, false)
      case Require => TlsDecision(false, true)
      case VerifyCa => TlsDecision(true, true)
      case VerifyFull => TlsDecision(true, true)
    }
  }

  /** Recognises a libpq mode whatever the casing of its keyword. */
  function ParseSslMode(s: string): (r: Option<LibpqSslMode>)
    ensures r.Some? ==> ToLower(s) == r.value.Keyword()
    ensures r.None? ==> forall m: LibpqSslMode :: ToLower(s) != m.Keyword()
  {
    match ToLower(s)
    case "disable" => Some(Disable)
    case "allow" => Some(Allow)
    case "prefer" => Some(Prefer)
    case "require" => Some(Require)
    case "verify-ca" => Some(VerifyCa)
    case "verify-full" => Some(VerifyFull)
    case _ => None
  }

  /** Lowering a lowercase keyword changes nothing. */
  lemma KeywordIsLowercase(m: LibpqSslMode)
    ensures ToLower(m.Keyword()) == m.Keyword()
  {
  }

  /** The two `match` expressions agree with the per-mode table for every recognised mode. */
  lemma DecisionMatchesLibpqModes(s: string)
    requires ParseSslMode(s).Some?
    ensures DecisionFor(s) == ParseSslMode(s).value.BridgeDecision()
  {
  }

  /** Anything libpq does not define keeps verification on and requests no TLS. */
  lemma UnknownModeVerifiesWithoutTls(s: string)
    requires ParseSslMode(s).None?
    ensures DecisionFor(s) == TlsDecision(true, false)
  {
  }

  /** A libpq keyword is parsed back to its mode. */
  lemma ParseKeyword(m: LibpqSslMode)
    ensures ParseSslMode(m.Keyword()) == Some(m)
  {
    KeywordIsLowercase(m);
  }

  /** Every spelling of a libpq keyword, in any ASCII casing, is parsed to its mode. */
  lemma ParseAnySpelling(s: string, m: LibpqSslMode)
    requires ToLower(s) == m.Keyword()
    ensures ParseSslMode(s) == Some(m)
  {
    match m
    case Disable =>
    case Allow =>
    case Prefer =>
    case Require =>
    case VerifyCa =>
    case VerifyFull =>
  }

  /** The decision depends on the mode only through its lowercase form. */
  lemma DecisionIgnoresCase(s: string, t: string)
    requires ToLower(s) == ToLower(t)
    ensures DecisionFor(s) == DecisionFor(t)
    ensures RequestsTls(s) == RequestsTls(t)
  {
  }

  /** Lowering twice is lowering once, so a lowered mode decides as the original does. */
  lemma DecisionOfLowered(s: string)
    ensures ToLower(ToLower(s)) == ToLower(s)
    ensures DecisionFor(ToLower(s)) == DecisionFor(s)
  {
  }

  /** Named cases, including the quirk of `require`. */
  lemma NamedModes()
    ensures DecisionFor("disable") == TlsDecision(false, false)
    ensures DecisionFor("verify-full") == TlsDecision(true, true)
    ensures DecisionFor("require") == TlsDecision(false, true)
    ensures DecisionFor("VERIFY-CA") == TlsDecision(true, true)
    ensures DecisionFor("bogus") == TlsDecision(true, false)
  {
    ParseKeyword(Disable);
    ParseKeyword(VerifyFull);
    ParseKeyword(Require);
    assert ToLower("VERIFY-CA") == "verify-ca";
    assert ToLower("bogus") == "bogus";
  }

  /** A query without `sslmode` decides exactly as an explicit `sslmode=require` does. */
  lemma MissingSslModeIsRequire(q: Query)
    requires forall i :: 0 <= i < |q| ==> q[i].0 != SslModeKey
    ensures Resolve(q) == Resolve(q + [(SslModeKey, DefaultSslMode)])
    ensures Resolve(q) == TlsDecision(false, true)
  {
    var q' := q + [(SslModeKey, DefaultSslMode)];
    CollectKeepsLast(q', |q|);
    NamedModes();
  }

  /** An `sslmode` pair that ends the query decides, whatever came before. */
  lemma LastSslModeWins(q: Query, mode: string)
    ensures Resolve(q + [(SslModeKey, mode)]) == DecisionFor(mode)
  {
  }

  /** Of several `sslmode` pairs the last one decides, even when pairs with other keys follow it. */
  lemma LastSslModeDecides(q: Query, i: nat)
    requires i < |q| && q[i].0 == SslModeKey
    requires forall j :: i < j < |q| ==> q[j].0 != SslModeKey
    ensures EffectiveSslMode(q) == q[i].1
    ensures Resolve(q) == DecisionFor(q[i].1)
  {
    CollectKeepsLast(q, i);
  }
}
