/** Reading the service configuration from the process environment and rejecting it when a key is missing. */
module Config {
  import opened Common

  /**
   * The result of `Number(text)`. JavaScript's numeric conversion is not
   * modelled, so a converted value carries the text it came from.
   */
  datatype Number = NumberOf(text: string)

  /** The record `getConfig` builds; `None` is `undefined`. */
  datatype Env = Env(
    port: Option<Number>,
    mongoUri: Option<string>,
    jwtSecret: Option<string>,
    encryptionKey: Option<string>,
    blockchainRpcUrl: Option<string>,
    solanaRpcUrl: Option<string>)

  /** The same record once every key is known to be defined. */
  datatype Config = Config(
    port: Number,
    mongoUri: string,
    jwtSecret: string,
    encryptionKey: string,
    blockchainRpcUrl: string,
    solanaRpcUrl: string)

  /** The keys of the record, in the order they are written and enumerated. */
  const KEYS: seq<string> := ["PORT", "MONGO_URI", "JWT_SECRET", "ENCRYPTION_KEY", "BLOCKCHAIN_RPC_URL", "SOLANA_RPC_URL"]

  /** `process.env.K`: a variable that is not set reads as undefined. */
  function Read(env: map<string, string>, key: string): Option<string> {
    if key in env then Some(env[key]) else None
  }

  /**
   * `getConfig`: PORT is converted only when it is set and non-empty (an empty
   * string is falsy); every other key is passed through as the raw string,
   * so an empty string stays defined.
   */
  function GetConfig(env: map<string, string>): (e: Env)
    ensures e.port.None? <==> "PORT" !in env || env["PORT"] == ""
    ensures e.port.Some? ==> e.port.value == NumberOf(env["PORT"])
    ensures e.mongoUri.Some? <==> "MONGO_URI" in env
    ensures e.jwtSecret.Some? <==> "JWT_SECRET" in env
    ensures e.encryptionKey.Some? <==> "ENCRYPTION_KEY" in env
    ensures e.blockchainRpcUrl.Some? <==> "BLOCKCHAIN_RPC_URL" in env
    ensures e.solanaRpcUrl.Some? <==> "SOLANA_RPC_URL" in env
    ensures e.mongoUri.Some? ==> e.mongoUri.value == env["MONGO_URI"]
    ensures e.jwtSecret.Some? ==> e.jwtSecret.value == env["JWT_SECRET"]
    ensures e.encryptionKey.Some? ==> e.encryptionKey.value == env["ENCRYPTION_KEY"]
    ensures e.blockchainRpcUrl.Some? ==> e.blockchainRpcUrl.value == env["BLOCKCHAIN_RPC_URL"]
    ensures e.solanaRpcUrl.Some? ==> e.solanaRpcUrl.value == env["SOLANA_RPC_URL"]
  {
    Env(
      if "PORT" in env && env["PORT"] != "" then Some(NumberOf(env["PORT"])) else None,
      Read(env, "MONGO_URI"),
      Read(env, "JWT_SECRET"),
      Read(env, "ENCRYPTION_KEY"),
      Read(env, "BLOCKCHAIN_RPC_URL"),
      Read(env, "SOLANA_RPC_URL"))
  }

  /** `Object.entries(config)`, reduced to each key and whether its value is defined. */
  function Entries(e: Env): seq<(string, bool)> {
    [ (KEYS[0], e.port.Some?),
      (KEYS[1], e.mongoUri.Some?),
      (KEYS[2], e.jwtSecret.Some?),
      (KEYS[3], e.encryptionKey.Some?),
      (KEYS[4], e.blockchainRpcUrl.Some?),
      (KEYS[5], e.solanaRpcUrl.Some?) ]
  }

  /** The `for...of` loop: the key of the first undefined entry, if there is one. */
  function FirstUndefined(entries: seq<(string, bool)>): Option<string> {
    if entries == [] then None
    else if !entries[0].1 then Some(entries[0].0)
    else FirstUndefined(entries[1..])
  }

  /** The loop stops exactly at the first undefined entry, and finds none only when all are defined. */
  lemma {:induction false} FirstUndefinedIsFirst(entries: seq<(string, bool)>)
    ensures FirstUndefined(entries).None? <==> forall i :: 0 <= i < |entries| ==> entries[i].1
    ensures FirstUndefined(entries).Some? ==>
      exists i :: 0 <= i < |entries| && !entries[i].1 && entries[i].0 == FirstUndefined(entries).value
        && forall j :: 0 <= j < i ==> entries[j].1
  {
    if entries != [] && entries[0].1 {
      var rest := entries[1..];
      FirstUndefinedIsFirst(rest);
      assert forall i :: 0 < i < |entries| ==> entries[i] == rest[i - 1];
      if FirstUndefined(rest).Some? {
        var i :| 0 <= i < |rest| && !rest[i].1 && rest[i].0 == FirstUndefined(rest).value
          && forall j :: 0 <= j < i ==> rest[j].1;
        assert entries[i + 1] == rest[i];
        assert forall j :: 0 <= j < i + 1 ==> entries[j].1 by {
          forall j | 0 < j < i + 1 ensures entries[j].1 { assert entries[j] == rest[j - 1]; }
        }
      }
    }
  }

  /** The message the loop throws for an undefined key. */
  function MissingKey(key: string): string {
    "Missing key " + key + " in config.env"
  }

  /** Reading a checked record back as a possibly-undefined one. */
  function AsEnv(c: Config): Env {
    Env(Some(c.port), Some(c.mongoUri), Some(c.jwtSecret), Some(c.encryptionKey),
        Some(c.blockchainRpcUrl), Some(c.solanaRpcUrl))
  }

  /**
   * `getSanitzedConfig`: fails with the message naming the first undefined
   * key in declaration order, or returns the very record it was given.
   */
  function GetSanitizedConfig(e: Env): (r: Result<Config, string>)
    ensures r.Success? <==> forall i :: 0 <= i < |Entries(e)| ==> Entries(e)[i].1
    ensures r.Failure? ==>
      exists i :: 0 <= i < |KEYS| && r.error == MissingKey(KEYS[i]) && !Entries(e)[i].1
        && forall j :: 0 <= j < i ==> Entries(e)[j].1
    ensures r.Success? ==> AsEnv(r.value) == e
  {
    FirstUndefinedIsFirst(Entries(e));
    match FirstUndefined(Entries(e))
    case Some(key) => Failure(MissingKey(key))
    case None =>
      assert Entries(e)[0].1 && Entries(e)[1].1 && Entries(e)[2].1;
      assert Entries(e)[3].1 && Entries(e)[4].1 && Entries(e)[5].1;
      Success(Config(e.port.value, e.mongoUri.value, e.jwtSecret.value, e.encryptionKey.value,
                     e.blockchainRpcUrl.value, e.solanaRpcUrl.value))
  }

  /** Checking a record in which every key is defined gives that record back. */
  lemma SanitizeRoundTrip(c: Config)
    ensures GetSanitizedConfig(AsEnv(c)) == Success(c)
  {
  }

  /** An empty PORT is falsy, so it is rejected as missing. */
  lemma EmptyPortIsMissing(env: map<string, string>)
    requires "PORT" in env && env["PORT"] == ""
    ensures GetSanitizedConfig(GetConfig(env)) == Failure(MissingKey("PORT"))
  {
    assert FirstUndefined(Entries(GetConfig(env))) == Some("PORT");
  }
}
