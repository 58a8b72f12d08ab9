/**
 * The records `RorVsWild::Client` assembles and reports: its settings, the
 * request, job and error hashes, and the pure steps that build them.
 */
module Records {
  import opened Wrappers
  import opened Text
  import opened Resolver
  import opened Aggregate

  /** A Ruby hash of strings: parameters, session data, environment. */
  type Params = map<string, string>

  /**
   * A raised exception: its class name, message and backtrace, and whether
   * it is an `ActionController::RoutingError` (or a subclass of it).
   */
  datatype Exception = Exception(className: string, message: string, backtrace: seq<string>, routingError: bool)

  /** The error hash built by `exception_to_hash` and later enriched. */
  datatype ErrorRecord = ErrorRecord(
    methodName: Option<string>,
    line: int,
    file: string,
    message: string,
    backtrace: seq<string>,
    exception: string,
    extraDetails: Option<string>,
    session: Option<Params>,
    environmentVariables: Option<Params>,
    parameters: Option<Params>)

  /** The request hash; the three runtimes are filled in when the request ends. */
  datatype Request = Request(
    controller: string,
    action: string,
    path: string,
    dbRuntime: Option<int>,
    viewRuntime: Option<int>,
    otherRuntime: Option<int>)

  /** The job hash of `measure_block`. */
  datatype Job = Job(name: string, error: Option<ErrorRecord>, runtime: Option<int>, cpuRuntime: Option<int>)

  /** A payload handed over for delivery to `/requests` or `/jobs`. */
  datatype Report =
    | RequestReport(request: Request, queries: seq<Query>, views: seq<View>, error: Option<ErrorRecord>)
    | JobReport(job: Job, queries: seq<Query>)

  /* ---------------- configuration ---------------- */

  /** A configuration hash: each recognised key is present or absent. */
  datatype Options = Options(
    apiUrl: Option<string>,
    apiKey: Option<string>,
    appId: Option<string>,
    explainSqlThreshold: Option<int>,
    logSqlThreshold: Option<int>)

  /** The client's settings once the defaults are merged in. */
  datatype Settings = Settings(
    apiUrl: string,
    apiKey: Option<string>,
    appId: Option<string>,
    explainSqlThreshold: int,
    logSqlThreshold: int)

  const DefaultApiUrl: string := "http://www.rorvswild.com/api"
  const DefaultExplainSqlThreshold: int := 500
  const DefaultLogSqlThreshold: int := 100

  /**
   * `default_config`: the API URL and both SQL thresholds have defaults;
   * the API key and the application id have none.
   */
  function DefaultConfig(): Options {
    Options(Some(DefaultApiUrl), None, None, Some(DefaultExplainSqlThreshold), Some(DefaultLogSqlThreshold))
  }

  function Override<T>(base: Option<T>, over: Option<T>): Option<T> {
    if over.Some? then over else base
  }

  /** Ruby `Hash#merge`: a key present in `over` wins, any other keeps `base`'s entry. */
  function Merge(base: Options, over: Options): Options {
    Options(
      Override(base.apiUrl, over.apiUrl),
      Override(base.apiKey, over.apiKey),
      Override(base.appId, over.appId),
      Override(base.explainSqlThreshold, over.explainSqlThreshold),
      Override(base.logSqlThreshold, over.logSqlThreshold))
  }

  /**
   * The settings `initialize` reads from `default_config.merge(config)`:
   * every option given is used as given, every absent one takes its default.
   */
  function Configure(config: Options): (s: Settings)
    ensures s.apiUrl == config.apiUrl.GetOr(DefaultApiUrl)
    ensures s.apiKey == config.apiKey && s.appId == config.appId
    ensures s.explainSqlThreshold == config.explainSqlThreshold.GetOr(DefaultExplainSqlThreshold)
    ensures s.logSqlThreshold == config.logSqlThreshold.GetOr(DefaultLogSqlThreshold)
  {
    var merged := Merge(DefaultConfig(), config);
    Settings(merged.apiUrl.value, merged.apiKey, merged.appId,
             merged.explainSqlThreshold.value, merged.logSqlThreshold.value)
  }

  /* ---------------- errors ---------------- */

  /**
   * `exception_to_hash`: the error location (the first application frame,
   * else the first frame), with the line read by `to_i` and the root removed
   * once more from the file, plus the message, backtrace and class name.
   * Resolving the location can raise, and then no hash is built.
   */
  function ExceptionToHash(e: Exception, extraDetails: Option<string>, root: string): (r: Result<ErrorRecord, Fault>)
    ensures r.Err? <==> ErrorLocation(e.backtrace, root).Err?
    ensures r.Ok? ==>
      var location := ErrorLocation(e.backtrace, root).value;
      && r.value.methodName == location.methodName
      && r.value.line == ToI(location.line)
      && r.value.file == RelativePath(location.file, root)
    ensures r.Ok? ==>
      && r.value.message == e.message && r.value.backtrace == e.backtrace
      && r.value.exception == e.className && r.value.extraDetails == extraDetails
      && r.value.session.None? && r.value.environmentVariables.None? && r.value.parameters.None?
  {
    match ErrorLocation(e.backtrace, root)
    case Err(fault) => Err(fault)
    case Ok(location) =>
      Ok(ErrorRecord(location.methodName, ToI(location.line), RelativePath(location.file, root),
                     e.message, e.backtrace, e.className, extraDetails, None, None, None))
  }

  /**
   * The root is removed twice from an application frame: once by
   * `extract_query_location` and again by `relative_path`. A frame under
   * `root + root` (with root `/app`, the file `/app/app/models/u.rb`) is
   * therefore recorded without either copy (`/models/u.rb`).
   */
  lemma ExceptionUnderDoubledRoot(e: Exception, extraDetails: Option<string>, root: string,
                                  file: string, n: nat, w: string)
    requires e.backtrace == [root + (root + file + ":" + DecimalString(n) + ":in `" + w + "'")]
    requires ':' !in root && ':' !in file && ValidMethodName(w)
    ensures ExceptionToHash(e, extraDetails, root) ==
            Ok(ErrorRecord(Some(w), n, file, e.message, e.backtrace, e.className, extraDetails, None, None, None))
  {
    var line := DecimalString(n);
    assert ':' !in line by {
      forall i | 0 <= i < |line| ensures line[i] != ':' { assert IsDigit(line[i]); }
    }
    var rest := root + file + ":" + line + ":in `" + w + "'";
    StripLeadingRoot(root, rest);
    PlainFrameSplits(root + file, line, w);
    FirstContainingFirst(e.backtrace, root, 0);
    assert QueryLocation(e.backtrace, root) == Ok(Some(Location(root + file, line, Some(w))));
    assert StartsWith(root + file, root) && (root + file)[|root|..] == file;
    ToIOfDecimal(n);
  }

  /** An exception without a backtrace has no location, and building its hash raises. */
  lemma ExceptionWithoutBacktrace(e: Exception, extraDetails: Option<string>, root: string)
    requires e.backtrace == []
    ensures ExceptionToHash(e, extraDetails, root) == Err(NoMethodError)
  {
    assert QueryLocation(e.backtrace, root) == Ok(None);
  }

  /**
   * An exception raised in application code at `file:n` in method `w`, with
   * an outside frame on top, is recorded at that file, line and method.
   */
  lemma ExceptionAtApplicationFrame(e: Exception, extraDetails: Option<string>, root: string,
                                    outside: string, file: string, n: nat, w: string)
    requires e.backtrace == [outside, root + (file + ":" + DecimalString(n) + ":in `" + w + "'")]
    requires !Contains(outside, root) && !Contains(file, root)
    requires ':' !in file && ValidMethodName(w)
    ensures ExceptionToHash(e, extraDetails, root) ==
            Ok(ErrorRecord(Some(w), n, file, e.message, e.backtrace, e.className, extraDetails, None, None, None))
  {
    var line := DecimalString(n);
    assert ':' !in line by {
      forall i | 0 <= i < |line| ensures line[i] != ':' { assert IsDigit(line[i]); }
    }
    ResolvesSecondFrame(outside, root, file, line, w);
    ToIOfDecimal(n);
  }

  /**
   * `filter_environment_variables`: keeps exactly the entries whose key
   * equals its upper-case form, that is, has no lower-case letter.
   */
  function FilterEnvironmentVariables(env: Params): (r: Params)
    ensures forall k :: k in r <==> k in env && forall i :: 0 <= i < |k| ==> !IsLower(k[i])
    ensures forall k :: k in r ==> r[k] == env[k]
  {
    assert forall k :: k == Upcase(k) <==> forall i :: 0 <= i < |k| ==> !IsLower(k[i]) by {
      forall k { UpcaseFixed(k); }
    }
    map k | k in env && k == Upcase(k) :: env[k]
  }

  /* ---------------- SQL events ---------------- */

  /** The placeholder file and method of a query with no application frame. */
  const UnknownPlace: string := "Unknow"

  /**
   * The record `after_sql_query` pushes for one SQL event: `location` is
   * what `extract_query_location` resolved, `explained` what `explain`
   * would answer. With no location the placeholders are used and the SQL
   * text is kept whatever the runtime; otherwise the SQL text is kept only
   * from the log threshold on. A plan is asked for only from the explain
   * threshold on. Each record counts one execution.
   */
  function SqlQueryRecord(location: Option<Location>, sql: Option<string>, runtime: int,
                          explained: Option<string>, logThreshold: int, explainThreshold: int): (q: Query)
    ensures q.runtime == runtime && q.times == 1
    ensures location.None? ==>
      q.file == UnknownPlace && q.line == LineNumber(0) && q.methodName == Some(UnknownPlace) && q.sql == sql
    ensures location.Some? ==>
      && q.file == location.value.file && q.line == LineText(location.value.line)
      && q.methodName == location.value.methodName
      && (runtime >= logThreshold ==> q.sql == sql)
      && (runtime < logThreshold ==> q.sql.None?)
    ensures runtime < explainThreshold ==> q.plan.None?
    ensures runtime >= explainThreshold ==> q.plan == explained
  {
    var plan := if runtime >= explainThreshold then explained else None;
    match location
    case None => Query(UnknownPlace, LineNumber(0), Some(UnknownPlace), sql, plan, runtime, 1)
    case Some(l) =>
      Query(l.file, LineText(l.line), l.methodName, if runtime >= logThreshold then sql else None, plan, runtime, 1)
  }

  /** A query faster than both thresholds keeps neither SQL text nor a plan, so it can merge. */
  lemma FastQueryMergeable(location: Location, sql: Option<string>, runtime: int,
                           explained: Option<string>, logThreshold: int, explainThreshold: int)
    requires runtime < logThreshold && runtime < explainThreshold
    ensures !CarriesPayload(SqlQueryRecord(Some(location), sql, runtime, explained, logThreshold, explainThreshold))
  {
  }

  /* ---------------- request end ---------------- */

  /**
   * The request as `after_http_request` completes it: missing database and
   * view runtimes count as 0, and the rest of the duration is "other".
   */
  function FinishedRequest(req: Request, dbRuntime: Option<int>, viewRuntime: Option<int>, duration: int): (r: Request)
    ensures r.controller == req.controller && r.action == req.action && r.path == req.path
    ensures r.dbRuntime == Some(dbRuntime.GetOr(0)) && r.viewRuntime == Some(viewRuntime.GetOr(0))
    ensures r.otherRuntime.Some?
    ensures r.dbRuntime.value + r.viewRuntime.value + r.otherRuntime.value == duration
  {
    var db := dbRuntime.GetOr(0);
    var view := viewRuntime.GetOr(0);
    req.(dbRuntime := Some(db), viewRuntime := Some(view), otherRuntime := Some(duration - db - view))
  }
}
