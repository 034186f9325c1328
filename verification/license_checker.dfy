/** The license checker: the cached configuration read from config.json and
    `check_license`, which asks the license server for a quota. The HTTP round
    trip is a parameter `remote` that maps the request sent to what came back. */
module LicenseChecker {
  import opened Values

  /** A loaded configuration: the JSON object in config.json. */
  type Config = map<string, Json>

  /** What reading config.json can produce. */
  datatype ConfigFile =
    | Missing            // the file does not exist
    | InvalidJson        // the file is not valid JSON
    | Unreadable         // any other failure while opening or reading it
    | Parsed(doc: Json)  // the file held this JSON document

  /** The configuration used whenever loading fails. */
  const Fallback: Config := map["enabled" := JStr("False"), "license_server" := JStr("")]

  /** The process-wide cache: empty until the first load, then the loaded value. */
  datatype ConfigCache = Empty | Cached(config: Config)

  /** The configuration returned together with the cache left behind. */
  datatype Loaded = Loaded(config: Config, cache: ConfigCache)

  /** Validation is on only when "enabled" holds exactly the string "True". */
  function IsEnabled(config: Config): (enabled: bool)
    ensures enabled <==> "enabled" in config && config["enabled"] == JStr("True")
  {
    Get(config, "enabled", JStr("False")) == JStr("True")
  }

  /** `get_server_url`: the configured "license_server" value, "" when absent. */
  function ServerSetting(config: Config): (server: Json)
    ensures "license_server" in config ==> server == config["license_server"]
    ensures "license_server" !in config ==> server == JStr("")
  {
    Get(config, "license_server", JStr(""))
  }

  /** Reading config.json never raises. A document that is not an object
      fails inside the same `try` (the log line calls `.get` on it) and so
      falls back like every other failure. */
  function LoadConfig(file: ConfigFile): (config: Config)
    ensures file.Parsed? && file.doc.JObj? ==> config == file.doc.fields
    ensures !(file.Parsed? && file.doc.JObj?) ==>
              !IsEnabled(config) && ServerSetting(config) == JStr("") && config.Keys == {"enabled", "license_server"}
  {
    match file
    case Parsed(JObj(fields)) => fields
    case _ => Fallback
  }

  /** `get_config`: the file is read only while the cache is empty, and the
      value returned is the one cached afterwards. */
  function GetConfig(cache: ConfigCache, file: ConfigFile): (r: Loaded)
    ensures r.cache == Cached(r.config)
    ensures cache.Cached? ==> r.config == cache.config
    ensures cache.Empty? ==> r.config == LoadConfig(file)
  {
    match cache
    case Cached(config) => Loaded(config, cache)
    case Empty => var config := LoadConfig(file); Loaded(config, Cached(config))
  }

  /** `reload_config`: drop the cache and load again, whatever was cached. */
  function ReloadConfig(cache: ConfigCache, file: ConfigFile): (r: Loaded)
    ensures r.config == LoadConfig(file)
    ensures r.cache == Cached(r.config)
  {
    GetConfig(Empty, file)
  }

  /** Once filled, the cache answers every later `get_config` with the same
      value whatever the file now holds, and stays as it was. */
  lemma CachedConfigIsStable(cache: ConfigCache, file1: ConfigFile, file2: ConfigFile)
    requires cache.Cached?
    ensures GetConfig(cache, file1) == GetConfig(cache, file2)
    ensures GetConfig(cache, file1).cache == cache
  {
  }

  /** After a reload, `get_config` returns what the reload read, without
      reading the file again. */
  lemma ReloadThenGet(cache: ConfigCache, file: ConfigFile, later: ConfigFile)
    ensures GetConfig(ReloadConfig(cache, file).cache, later).config == LoadConfig(file)
  {
  }

  /** A failed or non-object load disables validation and leaves no server. */
  lemma LoadFailureDisables(file: ConfigFile)
    requires file.Missing? || file.InvalidJson? || file.Unreadable? || (file.Parsed? && !file.doc.JObj?)
    ensures LoadConfig(file) == Fallback
    ensures !IsEnabled(LoadConfig(file))
  {
  }

  /** Only the string "True" enables; other spellings and JSON `true` do not. */
  lemma OnlyExactTrueEnables(config: Config, v: Json)
    requires v != JStr("True")
    ensures !IsEnabled(config["enabled" := v])
    ensures !IsEnabled(config - {"enabled"})
  {
  }

  // ---------------------------------------------------------------------
  // The request

  /** The path appended to the server URL. */
  const Endpoint := "/se_license/check"

  /** Python's `s.rstrip('/')`. */
  function TrimTrailingSlashes(s: string): (t: string)
    ensures t <= s
    ensures t == [] || t[|t| - 1] != '/'
    ensures forall i :: |t| <= i < |s| ==> s[i] == '/'
  {
    if s != [] && s[|s| - 1] == '/' then TrimTrailingSlashes(s[..|s| - 1]) else s
  }

  /** `k` slashes. */
  function Slashes(k: nat): (r: string)
    ensures |r| == k
    ensures forall i :: 0 <= i < k ==> r[i] == '/'
  {
    if k == 0 then "" else Slashes(k - 1) + "/"
  }

  /** The URL posted to: the server with its trailing slashes removed,
      followed by the endpoint path. */
  function RequestUrl(server: string): (url: string)
    ensures |url| >= |Endpoint| && url[|url| - |Endpoint|..] == Endpoint
    ensures url[..|url| - |Endpoint|] <= server
    ensures |url| > |Endpoint| ==> url[|url| - |Endpoint| - 1] != '/'
    ensures forall i :: |url| - |Endpoint| <= i < |server| ==> server[i] == '/'
  {
    var base := TrimTrailingSlashes(server);
    assert (base + Endpoint)[..|base|] == base;
    base + Endpoint
  }

  /** Appending one slash to a server does not change what is trimmed. */
  lemma {:induction false} TrimIgnoresOneSlash(s: string)
    ensures TrimTrailingSlashes(s + "/") == TrimTrailingSlashes(s)
  {
    assert (s + "/")[..|s + "/"| - 1] == s;
  }

  lemma {:induction false} TrimIgnoresSlashes(server: string, k: nat)
    ensures TrimTrailingSlashes(server + Slashes(k)) == TrimTrailingSlashes(server)
    decreases k
  {
    if k == 0 {
      assert server + Slashes(k) == server;
    } else {
      var shorter := server + Slashes(k - 1);
      assert server + Slashes(k) == shorter + "/";
      calc {
        TrimTrailingSlashes(server + Slashes(k));
        TrimTrailingSlashes(shorter + "/");
        { TrimIgnoresOneSlash(shorter); }
        TrimTrailingSlashes(shorter);
        { TrimIgnoresSlashes(server, k - 1); }
        TrimTrailingSlashes(server);
      }
    }
  }

  /** Servers that differ only in trailing slashes are posted to the same URL. */
  lemma TrailingSlashesIrrelevant(server: string, k: nat)
    ensures RequestUrl(server + Slashes(k)) == RequestUrl(server)
  {
    TrimIgnoresSlashes(server, k);
  }

  /** The JSON request the checker posts. */
  datatype Request = Request(url: string, database: string, checkType: string)

  /** What the HTTP round trip produced. */
  datatype HttpOutcome =
    | ConnectionFailed      // the server could not be reached
    | TimedOut              // no answer within the 15-second timeout
    | OtherRequestError     // any other failure raised by the HTTP client
    | Response(status: int, body: Option<Json>)  // `body` is None when it is not valid JSON

  /** `raise_for_status` raises for the 4xx and 5xx status codes. */
  predicate ErrorStatus(status: int)
  {
    400 <= status < 600
  }

  /** One level of the JSON-RPC `result` wrapper removed. For a body that is
      not an object Python either fails at `'result' in` or at `result[...]`,
      or keeps the body and fails at `.get`; each is caught and ends as `None`,
      which `BodyValue` gives for every non-object. */
  function Unwrap(body: Json): Json
  {
    if body.JObj? && "result" in body.fields then body.fields["result"] else body
  }

  /** The (unwrapped) answer reports success. */
  predicate Succeeded(answer: Json)
  {
    answer.JObj? && Truthy(Get(answer.fields, "success", JNull))
  }

  /** What `check_license` returns for a body that parsed as JSON. */
  function BodyValue(body: Json): (v: Json)
    ensures v != JNull ==> Succeeded(Unwrap(body)) && "data" in Unwrap(body).fields
    ensures Succeeded(Unwrap(body)) ==> v == Get(Unwrap(body).fields, "data", JNull)
    ensures !body.JObj? ==> v == JNull
  {
    var answer := Unwrap(body);
    if Succeeded(answer) then Get(answer.fields, "data", JNull) else JNull
  }

  /** What `check_license` returns once a request was sent: every failure of
      the round trip becomes `None`. */
  function Interpret(outcome: HttpOutcome): (v: Json)
    ensures !outcome.Response? ==> v == JNull
    ensures outcome.Response? && (ErrorStatus(outcome.status) || outcome.body.None?) ==> v == JNull
    ensures v != JNull ==> outcome.Response? && outcome.body.Some? && Succeeded(Unwrap(outcome.body.value))
    ensures outcome.Response? && !ErrorStatus(outcome.status) && outcome.body.Some? ==> v == BodyValue(outcome.body.value)
  {
    match outcome
    case Response(status, body) =>
      if ErrorStatus(status) then JNull
      else if body.None? then JNull
      else BodyValue(body.value)
    case _ => JNull
  }

  /** A body and the same body wrapped once under "result" give the same
      answer, provided the body has no "result" key of its own. */
  lemma WrapperTransparent(body: Json, wrapper: map<string, Json>)
    requires "result" in wrapper && wrapper["result"] == body
    requires !(body.JObj? && "result" in body.fields)
    ensures BodyValue(JObj(wrapper)) == BodyValue(body)
  {
  }

  /** Only one level is unwrapped: a doubly wrapped success is not seen. */
  lemma OnlyOneLevelUnwrapped(inner: Json)
    ensures BodyValue(JObj(map["result" := JObj(map["result" := inner])])) == JNull
  {
    assert !Succeeded(JObj(map["result" := inner]));
  }

  // ---------------------------------------------------------------------
  // check_license

  /** The request sent (if any) and what `check_license` returned or raised. */
  datatype Check = Check(sent: Option<Request>, reply: Outcome<Json>)

  /** `check_license(env, check_type)` against the configuration `config`
      (every `get_config` it makes sees the same cached value), for the
      database `database`, with `remote` standing for the server. */
  function CheckLicense(config: Config, database: string, checkType: string,
                        remote: Request -> HttpOutcome): (c: Check)
    // disabled: the unlimited defaults, no request
    ensures !IsEnabled(config) ==> c.sent.None?
    ensures !IsEnabled(config) && checkType == "modules" ==> c.reply == Returns(JArr([JStr("all")]))
    ensures !IsEnabled(config) && checkType == "users" ==> c.reply == Returns(JInt(999999))
    ensures !IsEnabled(config) && checkType != "modules" && checkType != "users" ==> c.reply == Returns(JNull)
    // enabled without a server: unknown, no request
    ensures IsEnabled(config) && !Truthy(ServerSetting(config)) ==> c == Check(None, Returns(JNull))
    // a request goes out exactly when enabled with a non-empty server string
    ensures c.sent.Some? <==> IsEnabled(config) && ServerSetting(config).JStr? && ServerSetting(config).s != ""
    ensures c.sent.Some? ==>
              c.sent.value == Request(RequestUrl(ServerSetting(config).s), database, checkType)
              && c.reply == Returns(Interpret(remote(c.sent.value)))
    // only a truthy non-string server raises, before any request
    ensures c.reply.Throws? <==> IsEnabled(config) && Truthy(ServerSetting(config)) && !ServerSetting(config).JStr?
    ensures c.reply.Throws? ==> c.reply.error == AttributeError
  {
    if !IsEnabled(config) then
      if checkType == "modules" then Check(None, Returns(JArr([JStr("all")])))
      else if checkType == "users" then Check(None, Returns(JInt(999999)))
      else Check(None, Returns(JNull))
    else
      var server := ServerSetting(config);
      if !Truthy(server) then Check(None, Returns(JNull))
      else if !server.JStr? then Check(None, Throws(AttributeError))
      else
        var request := Request(RequestUrl(server.s), database, checkType);
        Check(Some(request), Returns(Interpret(remote(request))))
  }

  /** No failure of the round trip escapes: once a request is sent,
      `check_license` returns, and a transport failure returns `None`. */
  lemma RemoteFailuresAreUnknown(config: Config, database: string, checkType: string,
                                 remote: Request -> HttpOutcome)
    requires CheckLicense(config, database, checkType, remote).sent.Some?
    ensures var c := CheckLicense(config, database, checkType, remote);
            c.reply.Returns?
            && (!remote(c.sent.value).Response? ==> c.reply.value == JNull)
  {
  }

  /** The answer does not depend on the server's answer when no request is sent. */
  lemma NoRequestNoDependence(config: Config, database: string, checkType: string,
                              remote1: Request -> HttpOutcome, remote2: Request -> HttpOutcome)
    requires CheckLicense(config, database, checkType, remote1).sent.None?
    ensures CheckLicense(config, database, checkType, remote1) == CheckLicense(config, database, checkType, remote2)
  {
  }
}
