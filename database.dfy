/** The database configuration of the newer server (`back/src/config/database.js`): choosing
    and cleaning the connection string, the connection options, and the mapping of a failed
    connection's error message to the error the server reports. The environment variables and
    the connection attempt are parameters. */
module Database {
  import opened Wrappers
  import opened JsStrings

  const LocalhostPrefix: string := "mongodb://localhost"
  const LoopbackPrefix: string := "mongodb://127.0.0.1"
  const SrvScheme: string := "mongodb+srv://"
  const ServerSelectionTimeoutMS: int := 5000

  datatype ConfigError = MissingConnectionString

  /** A JavaScript falsy environment value: unset or empty. */
  predicate Falsy(v: Option<string>)
  {
    v.None? || v.value == ""
  }

  /** `DB_CONNECTION_SECRET || MONGO_URI || MONGODB_URI`. */
  function FirstTruthy(dbSecret: Option<string>, mongoUri: Option<string>, mongodbUri: Option<string>): (r: Option<string>)
    ensures r.None? <==> Falsy(dbSecret) && Falsy(mongoUri) && Falsy(mongodbUri)
    ensures !Falsy(dbSecret) ==> r == dbSecret
    ensures Falsy(dbSecret) && !Falsy(mongoUri) ==> r == mongoUri
    ensures Falsy(dbSecret) && Falsy(mongoUri) && !Falsy(mongodbUri) ==> r == mongodbUri
  {
    if !Falsy(dbSecret) then dbSecret
    else if !Falsy(mongoUri) then mongoUri
    else if !Falsy(mongodbUri) then mongodbUri
    else None
  }

  /** The connection string after trimming and removing every whitespace character. */
  function Sanitize(raw: string): string
  {
    RemoveWhiteSpace(Trim(raw))
  }

  /** `resolveMongoUri()`: it fails, with the missing-string error, exactly when no variable
      is set. */
  function ResolveMongoUri(dbSecret: Option<string>, mongoUri: Option<string>, mongodbUri: Option<string>): (r: Result<string, ConfigError>)
    ensures r.Failure? <==> Falsy(dbSecret) && Falsy(mongoUri) && Falsy(mongodbUri)
    ensures r.Failure? ==> r.error == MissingConnectionString
  {
    match FirstTruthy(dbSecret, mongoUri, mongodbUri)
    case None => Failure(MissingConnectionString)
    case Some(raw) =>
      var sanitized := Sanitize(raw);
      if Includes(sanitized, LocalhostPrefix) then Success(ReplaceFirst(sanitized, LocalhostPrefix, LoopbackPrefix))
      else Success(sanitized)
  }

  lemma LoopbackHasNoWhiteSpace()
    ensures NoWhiteSpace(LoopbackPrefix)
  {
  }

  /** The resolved string contains no whitespace at all. */
  lemma ResolvedHasNoWhiteSpace(dbSecret: Option<string>, mongoUri: Option<string>, mongodbUri: Option<string>)
    requires ResolveMongoUri(dbSecret, mongoUri, mongodbUri).Success?
    ensures NoWhiteSpace(ResolveMongoUri(dbSecret, mongoUri, mongodbUri).value)
  {
    var raw := FirstTruthy(dbSecret, mongoUri, mongodbUri).value;
    var s := Sanitize(raw);
    ReplaceFirstShape(s, LocalhostPrefix, LoopbackPrefix);
    if Includes(s, LocalhostPrefix) {
      var i := IndexOf(s, LocalhostPrefix).value;
      LoopbackHasNoWhiteSpace();
      SpliceNoWhiteSpace(s, i, i + |LocalhostPrefix|, LoopbackPrefix);
    }
  }

  /** Only the first "mongodb://localhost" becomes "mongodb://127.0.0.1", and the string is
      otherwise as sanitised; without that substring the sanitised string is returned as is. */
  lemma LocalhostRewrittenOnce(dbSecret: Option<string>, mongoUri: Option<string>, mongodbUri: Option<string>)
    requires ResolveMongoUri(dbSecret, mongoUri, mongodbUri).Success?
    ensures var s := Sanitize(FirstTruthy(dbSecret, mongoUri, mongodbUri).value);
      var r := ResolveMongoUri(dbSecret, mongoUri, mongodbUri);
      && (!Includes(s, LocalhostPrefix) ==> r.value == s)
      && (Includes(s, LocalhostPrefix) ==>
          var i := IndexOf(s, LocalhostPrefix).value;
          && r.value == s[..i] + LoopbackPrefix + s[i + |LocalhostPrefix|..]
          && (forall j: nat :: j < i ==> !OccursAt(s, LocalhostPrefix, j))
          && OccursAt(r.value, LoopbackPrefix, i))
  {
    ReplaceFirstShape(Sanitize(FirstTruthy(dbSecret, mongoUri, mongodbUri).value), LocalhostPrefix, LoopbackPrefix);
  }

  /** A string that starts with the local host prefix names the IPv4 loopback address after. */
  lemma LocalhostSchemeRewritten(raw: string)
    requires StartsWith(Sanitize(raw), LocalhostPrefix)
    ensures ResolveMongoUri(Some(raw), None, None).Success?
    ensures StartsWith(ResolveMongoUri(Some(raw), None, None).value, LoopbackPrefix)
  {
    var s := Sanitize(raw);
    assert raw != "";
    ReplaceFirstShape(s, LocalhostPrefix, LoopbackPrefix);
    assert OccursAt(s, LocalhostPrefix, 0);
  }

  // ---------------------------------------------------------------- connectDB

  datatype ConnectionOptions = ConnectionOptions(serverSelectionTimeoutMS: int, family: Option<int>)

  /** The options object as `connectDB` builds it: the timeout, then `family = 4` added for a
      URI that is not an SRV URI. */
  method BuildConnectionOptions(uri: string) returns (opts: ConnectionOptions)
    ensures opts.serverSelectionTimeoutMS == ServerSelectionTimeoutMS
    ensures opts.family.Some? <==> !StartsWith(uri, SrvScheme)
    ensures opts.family.Some? ==> opts.family.value == 4
  {
    var isSrvUri := StartsWith(uri, SrvScheme);
    opts := ConnectionOptions(ServerSelectionTimeoutMS, None);
    if !isSrvUri {
      opts := opts.(family := Some(4));
    }
  }

  /** The error `connectDB` reports for a failed connection with the given message. */
  datatype ConnectFailure =
    | ConnectionRefused(uri: string)
    | AuthenticationFailed
    | HostUnresolved
    | Rethrown(message: string)

  /** The ladder over the error message, checked in this order. */
  function ClassifyConnectError(uri: string, message: string): (f: ConnectFailure)
    ensures f.ConnectionRefused? <==> Includes(message, "ECONNREFUSED")
    ensures f.ConnectionRefused? ==> f.uri == uri
    ensures f.AuthenticationFailed? <==>
      !Includes(message, "ECONNREFUSED") && (Includes(message, "bad auth") || Includes(message, "Authentication failed"))
    ensures f.HostUnresolved? <==>
      && !Includes(message, "ECONNREFUSED") && !Includes(message, "bad auth") && !Includes(message, "Authentication failed")
      && (Includes(message, "querySrv") || Includes(message, "ENOTFOUND"))
    ensures f.Rethrown? <==>
      && !Includes(message, "ECONNREFUSED") && !Includes(message, "bad auth") && !Includes(message, "Authentication failed")
      && !Includes(message, "querySrv") && !Includes(message, "ENOTFOUND")
    ensures f.Rethrown? ==> f.message == message
  {
    if Includes(message, "ECONNREFUSED") then ConnectionRefused(uri)
    else if Includes(message, "bad auth") || Includes(message, "Authentication failed") then AuthenticationFailed
    else if Includes(message, "querySrv") || Includes(message, "ENOTFOUND") then HostUnresolved
    else Rethrown(message)
  }

  datatype DbError = Config(config: ConfigError) | Connect(failure: ConnectFailure)

  /** `connectDB()`, with the connection attempt's outcome as a parameter (None: connected,
      Some(message): failed with that message). It fails before connecting when no string is
      set, and otherwise returns the options it connected with. */
  method ConnectDB(dbSecret: Option<string>, mongoUri: Option<string>, mongodbUri: Option<string>, connectError: Option<string>)
    returns (r: Result<ConnectionOptions, DbError>)
    ensures ResolveMongoUri(dbSecret, mongoUri, mongodbUri).Failure? ==> r == Failure(Config(MissingConnectionString))
    ensures ResolveMongoUri(dbSecret, mongoUri, mongodbUri).Success? ==>
      var uri := ResolveMongoUri(dbSecret, mongoUri, mongodbUri).value;
      && (connectError.None? <==> r.Success?)
      && (r.Success? ==> r.value.serverSelectionTimeoutMS == ServerSelectionTimeoutMS
                         && (r.value.family == Some(4) <==> !StartsWith(uri, SrvScheme)))
      && (connectError.Some? ==> r == Failure(Connect(ClassifyConnectError(uri, connectError.value))))
  {
    var resolved := ResolveMongoUri(dbSecret, mongoUri, mongodbUri);
    if resolved.Failure? {
      return Failure(Config(resolved.error));
    }
    var uri := resolved.value;
    var opts := BuildConnectionOptions(uri);
    if connectError.Some? {
      return Failure(Connect(ClassifyConnectError(uri, connectError.value)));
    }
    return Success(opts);
  }
}
