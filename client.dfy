/**
 * `RorVsWild::Client`, the per-process agent: it follows one request (or one
 * measured block) at a time, aggregating its queries and view renders and
 * capturing its error, and hands the finished record over for delivery.
 */
module RorVsWild {
  import opened Wrappers
  import opened Resolver
  import opened Aggregate
  import opened Records

  /** What escapes to the host: the host's own exception, or one the agent raised itself. */
  datatype Escape = Reraised(exception: Exception) | AgentNoMethodError

  /** How the measured block ended. */
  datatype BlockOutcome = Returned | Threw(exception: Exception)

  /** The name ActiveRecord gives the queries that `explain` itself issues. */
  const ExplainEventName: string := "EXPLAIN"

  class Client {
    const settings: Settings
    /** `Rails.root.to_s`. */
    const root: string
    /** `filter_sensitive_data`: Rails' parameter filter, outside this model. */
    const filterSensitiveData: Params -> Params

    var request: Option<Request>
    var queries: Option<seq<Query>>
    var views: Option<seq<View>>
    var error: Option<ErrorRecord>
    var job: Option<Job>
    /** The records handed over for delivery, oldest first. */
    var sent: seq<Report>

    /**
     * A request always has its query list and view table; a job has its
     * query list; the view table holds one entry per template path.
     */
    ghost predicate Valid()
      reads this`request, this`queries, this`views, this`job
    {
      && (request.Some? ==> queries.Some? && views.Some?)
      && (job.Some? ==> queries.Some?)
      && (views.Some? ==> DistinctFiles(views.value))
    }

    /** `initialize`: the settings merged over the defaults, and nothing recorded yet. */
    constructor (config: Options, root: string, filterSensitiveData: Params -> Params)
      ensures Valid()
      ensures settings == Configure(config) && this.root == root
      ensures this.filterSensitiveData == filterSensitiveData
      ensures request.None? && queries.None? && views.None? && error.None? && job.None? && sent == []
    {
      settings := Configure(config);
      this.root := root;
      this.filterSensitiveData := filterSensitiveData;
      request, queries, views, error, job, sent := None, None, None, None, None, [];
    }

    /** `before_http_request`: a fresh request with empty aggregates and no error. */
    method BeforeHttpRequest(controller: string, action: string, path: string)
      requires Valid()
      modifies this`request, this`queries, this`views, this`error
      ensures Valid()
      ensures request == Some(Request(controller, action, path, None, None, None))
      ensures queries == Some([]) && views == Some([]) && error.None?
    {
      request := Some(Request(controller, action, path, None, None, None));
      queries := Some([]);
      views := Some([]);
      error := None;
    }

    /**
     * `push_query`: `q` is appended when it carries SQL text or a plan;
     * otherwise the first entry at its location, found by a linear scan,
     * absorbs its runtime and one execution, or `q` is appended.
     */
    method PushQuery(q: Query)
      requires queries.Some?
      modifies this`queries
      ensures queries == Some(Pushed(old(queries).value, q))
    {
      var qs := queries.value;
      if q.sql.Some? || q.plan.Some? {
        queries := Some(qs + [q]);
        return;
      }
      var i := 0;
      while i < |qs| && !SameLocation(qs[i], q)
        invariant 0 <= i <= |qs|
        invariant forall j :: 0 <= j < i ==> !SameLocation(qs[j], q)
      {
        i := i + 1;
      }
      if i < |qs| {
        FindSameLocationFirst(qs, q, i);
        queries := Some(qs[i := Merged(qs[i], q)]);
      } else {
        assert FindSameLocation(qs, q).None?;
        queries := Some(qs + [q]);
      }
    }

    /**
     * `after_sql_query`: ignored before the first request or measured block and for
     * the agent's own EXPLAIN queries; a location that raises while being
     * resolved is logged and the query dropped; otherwise the query record is
     * pushed. `runtime` is the event's duration, `stack` the call stack at
     * the event and `explained` what `explain` would return.
     */
    method AfterSqlQuery(name: string, sql: Option<string>, runtime: int, stack: seq<string>,
                         explained: Option<string>)
      requires Valid()
      modifies this`queries
      ensures Valid()
      ensures old(queries).None? || name == ExplainEventName || QueryLocation(stack, root).Err? ==>
                queries == old(queries)
      ensures old(queries).Some? && name != ExplainEventName && QueryLocation(stack, root).Ok? ==>
                queries == Some(Pushed(old(queries).value,
                                       SqlQueryRecord(QueryLocation(stack, root).value, sql, runtime, explained,
                                                      settings.logSqlThreshold, settings.explainSqlThreshold)))
    {
      if queries.None? || name == ExplainEventName {
        return;
      }
      match QueryLocation(stack, root) {
        case Err(_) =>
        case Ok(location) =>
          var q := SqlQueryRecord(location, sql, runtime, explained,
                                  settings.logSqlThreshold, settings.explainSqlThreshold);
          PushQuery(q);
      }
    }

    /**
     * `after_view_rendering`: ignored before the first request; otherwise the
     * template's path relative to the root either accumulates the duration
     * and one more render in its entry, or gets a new entry at the end.
     * The body takes the two branches of the Ruby code, updating the entry
     * in place or adding one; `Rendered` is the value it is proved against.
     */
    method AfterViewRendering(identifier: string, duration: int)
      requires Valid()
      modifies this`views
      ensures Valid()
      ensures old(views).None? ==> views == old(views)
      ensures old(views).Some? ==> views == Some(Rendered(old(views).value, RelativePath(identifier, root), duration))
    {
      if views.None? {
        return;
      }
      var vs := views.value;
      var file := RelativePath(identifier, root);
      match ViewIndex(vs, file) {
        case Some(i) =>
          views := Some(vs[i := View(file, vs[i].runtime + duration, vs[i].times + 1)]);
        case None =>
          views := Some(vs + [View(file, duration, 1)]);
      }
    }

    /**
     * `after_http_request`: completes the request's runtimes, attaches the
     * filtered parameters to the error if there is one, and hands the request
     * with its 25 slowest queries and views over for delivery. Without a
     * request under way the first write raises, which is logged: nothing
     * changes.
     */
    method AfterHttpRequest(dbRuntime: Option<int>, viewRuntime: Option<int>, duration: int, params: Params)
      requires Valid()
      modifies this`request, this`error, this`sent
      ensures Valid()
      ensures old(request).None? ==> request == old(request) && error == old(error) && sent == old(sent)
      ensures old(request).Some? ==>
        && request == Some(FinishedRequest(old(request).value, dbRuntime, viewRuntime, duration))
        && error == (if old(error).Some?
                     then Some(old(error).value.(parameters := Some(filterSensitiveData(params))))
                     else None)
        && sent == old(sent) + [RequestReport(request.value, SlowestQueries(queries.value),
                                              SlowestViews(views.value), error)]
    {
      if request.None? {
        return;
      }
      request := Some(FinishedRequest(request.value, dbRuntime, viewRuntime, duration));
      if error.Some? {
        error := Some(error.value.(parameters := Some(filterSensitiveData(params))));
      }
      sent := sent + [RequestReport(request.value, SlowestQueries(queries.value), SlowestViews(views.value), error)];
    }

    /**
     * `after_exception`: an exception other than a routing error becomes the
     * request's error, with the session and the filtered upper-case
     * environment; the exception is then raised again. When its backtrace is
     * empty or its location cannot be resolved, the agent's own
     * `NoMethodError` escapes instead and no error is recorded.
     */
    method AfterException(e: Exception, session: Params, env: Params) returns (escape: Escape)
      requires Valid()
      modifies this`error
      ensures Valid()
      ensures e.routingError ==> escape == Reraised(e) && error == old(error)
      ensures !e.routingError && ExceptionToHash(e, None, root).Err? ==>
                escape == AgentNoMethodError && error == old(error)
      ensures !e.routingError && ExceptionToHash(e, None, root).Ok? ==>
                && escape == Reraised(e)
                && error == Some(ExceptionToHash(e, None, root).value.(
                                   session := Some(session),
                                   environmentVariables := Some(filterSensitiveData(FilterEnvironmentVariables(env)))))
    {
      var hash := ExceptionToHash(e, None, root);
      if e.routingError {
        escape := Reraised(e);
      } else if e.backtrace == [] {
        ExceptionWithoutBacktrace(e, None, root);
        escape := AgentNoMethodError;
      } else if hash.Err? {
        escape := AgentNoMethodError;
      } else {
        var environment := filterSensitiveData(FilterEnvironmentVariables(env));
        error := Some(hash.value.(session := Some(session), environmentVariables := Some(environment)));
        assert request == old(request) && queries == old(queries) && views == old(views) && job == old(job);
        escape := Reraised(e);
      }
    }

    /**
     * The start of `measure_block`: a fresh query list and a job record with
     * only its name, before the block runs.
     */
    method MeasureBlockStart(name: string)
      requires Valid()
      modifies this`queries, this`job
      ensures Valid()
      ensures queries == Some([]) && job == Some(Job(name, None, None, None))
    {
      queries := Some([]);
      job := Some(Job(name, None, None, None));
    }

    /**
     * The end of `measure_block`, once the block has run: an exception it
     * raised is recorded as the job's error and raised again (or, when its
     * location cannot be resolved, the agent's `NoMethodError` escapes); in
     * every case the wall and CPU runtimes are set and the job is handed over
     * with its 25 slowest queries, exactly once.
     */
    method MeasureBlockFinish(outcome: BlockOutcome, runtime: nat, cpuRuntime: nat) returns (escape: Option<Escape>)
      requires Valid() && job.Some?
      modifies this`job, this`sent
      ensures Valid()
      ensures outcome.Returned? ==>
                escape.None? && job == Some(old(job).value.(runtime := Some(runtime), cpuRuntime := Some(cpuRuntime)))
      ensures outcome.Threw? && ExceptionToHash(outcome.exception, None, root).Ok? ==>
                && escape == Some(Reraised(outcome.exception))
                && job == Some(old(job).value.(error := Some(ExceptionToHash(outcome.exception, None, root).value),
                                               runtime := Some(runtime), cpuRuntime := Some(cpuRuntime)))
      ensures outcome.Threw? && ExceptionToHash(outcome.exception, None, root).Err? ==>
                && escape == Some(AgentNoMethodError)
                && job == Some(old(job).value.(runtime := Some(runtime), cpuRuntime := Some(cpuRuntime)))
      ensures sent == old(sent) + [JobReport(job.value, SlowestQueries(queries.value))]
    {
      escape := None;
      match outcome {
        case Returned =>
        case Threw(e) =>
          match ExceptionToHash(e, None, root) {
            case Ok(hash) =>
              job := Some(job.value.(error := Some(hash)));
              escape := Some(Reraised(e));
            case Err(_) =>
              escape := Some(AgentNoMethodError);
          }
      }
      job := Some(job.value.(runtime := Some(runtime), cpuRuntime := Some(cpuRuntime)));
      sent := sent + [JobReport(job.value, SlowestQueries(queries.value))];
    }
  }
}
