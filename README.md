# RorVsWild client agent, modelled in Dafny

RorVsWild is a performance-monitoring agent for Ruby on Rails applications.
Its `RorVsWild::Client` subscribes to Rails instrumentation events. While a
request (or a measured background block) runs, it:

- records every SQL query with the application stack frame that issued it,
  and merges repeated executions at the same location;
- accumulates the runtime and render count of every view template;
- captures an unhandled exception as an error record.

When the request or block ends, the client sends the request or job, with its
25 slowest queries and views, to the RorVsWild API.

This project models that core:

- `text.dfy` (module `Text`): the Ruby string operations the agent relies
  on. These are `include?`, `index`, `sub` with a literal pattern, `split`
  on one character (trailing empty fields dropped), ASCII `upcase` and
  `to_i`.
- `resolver.dfy` (module `Resolver`): the stack-frame resolver. It covers
  `extract_query_location`, `extract_error_location`, `split_file_location`,
  `cleanup_method_name` and `relative_path`. Resolving can raise
  `NoMethodError`, and that failure is part of the model.
- `aggregate.dfy` (module `Aggregate`): the aggregation itself. It covers
  merging pushed queries (`push_query`), the per-template view table, and the
  selection of the 25 slowest entries.
- `records.dfy` (module `Records`): the settings, the request, job and
  error records, and the pure steps that build them. These are `initialize`'s
  configuration merge, `exception_to_hash`, `filter_environment_variables`,
  the query record of `after_sql_query` and the runtimes of
  `after_http_request`.
- `client.dfy` (module `RorVsWild`): the class `Client`. Its fields are the
  ones the Ruby object updates in place, and its methods are the event
  callbacks. Each callback is proved against the defining functions of
  the other modules. The class invariant `Valid` says:
  - a request always has its query list and view table;
  - a job always has its query list;
  - the view table holds one entry per template path.

  Every callback preserves `Valid`.

`root` stands for `Rails.root.to_s`. Payloads the agent would post are
appended to the `sent` field, oldest first. Each view table in the model is
a sequence of entries with distinct paths. `ViewMap` reads that sequence as
the Ruby hash it models, and `Aggregate.Rendered` is stated both ways.
`Aggregate.CarriesPayload` (line 189), `Aggregate.Merged` (lines 193-194)
and `Records.DefaultConfig` (lines 37-43) are plain definitions. What they
mean is stated by the contracts of `Aggregate.Pushed` and `Records.Configure`.

Some behaviour of `lib/rorvswild.rb` is easy to misread, and the model keeps
it as the code has it:

- A query with no frame under the root is recorded with the placeholder
  string `"Unknow"` as file and method, line `0` and its SQL text
  (lines 92-94). It is not located at the first frame of the stack: only
  `extract_error_location` (line 238) falls back to that frame.
- `find` (line 192) compares only the line and the file. A payload-free
  query therefore merges into the first entry at its location even when that
  entry keeps SQL text or a plan (`Aggregate.PushedOntoEntry`).
- Ruby's `sort` (lines 202 and 206) is not stable, so `Aggregate.Slowest`
  says nothing about how ties are ordered.
- An exception with an empty backtrace has no first frame. Splitting `nil`
  (lines 238 and 242) raises `NoMethodError`, and there is no default
  location.
- The root is removed once by `extract_query_location` (line 233) and again
  by `relative_path` (line 267). A file under a doubled root loses both
  copies (`Records.ExceptionUnderDoubledRoot`).

## Model

| member | source | states |
|---|---|---|
| Text.IndexOf | lib/rorvswild.rb:251 | `index`: the result is an occurrence with none before it, and `nil` means there is no occurrence at all |
| Text.Contains | lib/rorvswild.rb:232 | `include?` holds exactly when the pattern occurs at some position |
| Text.Sub | lib/rorvswild.rb:248-250 | `sub`: without an occurrence the string is unchanged; otherwise only the first occurrence is replaced, with the prefix and suffix kept |
| Text.SubLeading | lib/rorvswild.rb:259 | a pattern at the very start is what `sub` removes, leaving the rest of the string |
| Text.Fields | lib/rorvswild.rb:242 | the raw fields of a split join back to the input, and none contains the separator |
| Text.DropTrailingEmpty | lib/rorvswild.rb:242 | the kept fields are a prefix whose last field is non-empty, and only empty fields are dropped |
| Text.Split | lib/rorvswild.rb:242 | `split(":")`: separator-free parts, the last one non-empty, whose join is the input up to trailing separators only |
| Text.JoinDropTrailing | lib/rorvswild.rb:242 | dropping trailing empty fields drops only trailing separators from the joined string |
| Text.FieldBefore | lib/rorvswild.rb:242 | the separator-free prefix that ends at the first separator or at the end |
| Text.FieldBeforeUnique | lib/rorvswild.rb:242 | any separator-free prefix ending at a separator or at the end is that field |
| Text.SplitHead | lib/rorvswild.rb:242 | with three parts or more, the input starts with the first two parts each followed by `:`, and the third part is the field after them |
| Text.SplitThree | lib/rorvswild.rb:242 | `"a:b:c".split(":")` is `[a, b, c]` for separator-free parts with a non-empty last part |
| Text.SplitShort | lib/rorvswild.rb:242 | a string with at most one separator splits into fewer than three parts |
| Text.Upcase | lib/rorvswild.rb:292 | `upcase` keeps the length, maps each ASCII lower-case letter to its capital and keeps every other character |
| Text.UpcaseFixed | lib/rorvswild.rb:292 | `key == key.upcase` holds exactly when the key has no lower-case letter |
| Text.LeadingDigits | lib/rorvswild.rb:266 | the longest digit prefix that `to_i` reads |
| Text.DigitsValue | lib/rorvswild.rb:266 | the value of a digit string is never negative, and 0 for the empty string |
| Text.ToI | lib/rorvswild.rb:266 | `to_i`: negative only after a leading `-`; 0 when no digit follows the optional sign |
| Text.ToIOfDecimal | lib/rorvswild.rb:266 | `n.to_s.to_i == n` for every natural number |
| Text.ToIOfNegativeDecimal | lib/rorvswild.rb:266 | `("-" + n.to_s).to_i == -n` for every natural number |
| Text.ToINonNumeric | lib/rorvswild.rb:266 | a line that starts with no digit and no sign reads as 0 |
| Resolver.CleanupMethodName | lib/rorvswild.rb:247-252 | after the three first-occurrence removals, the name is `nil` exactly when it starts with the compiled-view prefix and is kept otherwise; a kept name is never longer than the raw one |
| Resolver.QuotedOccurrence | lib/rorvswild.rb:248 | an occurrence of `"block in "` in ``in `w'`` lies inside `w` |
| Resolver.BlockInsideQuotes | lib/rorvswild.rb:248 | ``in `w'`` contains `"block in "` only when `w` does |
| Resolver.CleanupPlainFrame | lib/rorvswild.rb:247-252 | ``in `w'`` cleans up to `w`, or to `nil` for a compiled view, for any `w` without a quote or `"block in "` (`rescue in foo`, `block (2 levels) in foo`) |
| Resolver.CleanupBlockFrame | lib/rorvswild.rb:247-252 | ``in `block in w'`` cleans up to `w` for any `w` without a quote, or to `nil` for a compiled view |
| Resolver.IndexZeroIsPrefix | lib/rorvswild.rb:251 | `index(prefix) == 0` holds exactly when the name starts with the prefix |
| Resolver.SplitFileLocation | lib/rorvswild.rb:241-245 | raises exactly when the split has fewer than three parts; otherwise the frame starts with `file:line:`, neither holds a `:`, and the method is the cleanup of the field after them |
| Resolver.FrameFields | lib/rorvswild.rb:242 | the first three fields of `file:line:method` followed by `:`-led text are the file, the line and the method |
| Resolver.SplitWellFormedFrame | lib/rorvswild.rb:241-245 | `file:line:method`, with any `:`-led text after the method, splits back into the file, the line and the cleaned-up method |
| Resolver.SplitFrameWithoutMethod | lib/rorvswild.rb:241-245 | a frame with at most one `:` raises `NoMethodError` |
| Resolver.RelativePath | lib/rorvswild.rb:258-260 | the first occurrence of the root is cut out, with what precedes and follows it kept; a leading root leaves the rest; a path without the root is unchanged |
| Resolver.FirstContaining | lib/rorvswild.rb:232 | `find`: the first frame that contains the root, and `nil` only when none does |
| Resolver.QueryLocation | lib/rorvswild.rb:231-235 | `nil` exactly when no frame contains the root; otherwise the first such frame, stripped of the root and split, including its failure |
| Resolver.ErrorLocation | lib/rorvswild.rb:237-239 | the query location when there is one; a failure propagates; otherwise the first frame, and an empty backtrace raises |
| Resolver.ResolvesSecondFrame | lib/rorvswild.rb:231-235 | an outside frame followed by an application frame resolves to the application frame's relative file, line and method |
| Resolver.PlainFrameSplits | lib/rorvswild.rb:241-252 | ``file:line:in `w'`` resolves to its file, its line and `w` |
| Resolver.StripLeadingRoot | lib/rorvswild.rb:233 | a frame that starts with the root contains it, and `sub` removes exactly the root |
| Resolver.FirstContainingFirst | lib/rorvswild.rb:232 | a frame that contains the root, with none before it, is the one `find` returns |
| Resolver.ErrorFallsBackToFirst | lib/rorvswild.rb:237-239 | with no application frame, the error is located at the first frame |
| Resolver.FirstFrameFallbackExample | lib/rorvswild.rb:237-252 | a concrete stack with no frame under `/app` is located at its first frame |
| Aggregate.FindSameLocation | lib/rorvswild.rb:192 | `find`: the first entry with the same line and file, and `nil` only when none has them |
| Aggregate.Pushed | lib/rorvswild.rb:188-199 | a query with SQL text or a plan, or one at a new location, is appended; otherwise the first entry at its location gains its runtime and one execution, and every other field and entry is unchanged |
| Aggregate.PushedTotals | lib/rorvswild.rb:188-199 | a push adds the query's runtime to the total; it adds one execution when merged and the query's count when appended |
| Aggregate.FindSameLocationFirst | lib/rorvswild.rb:192 | an entry at the query's location, with none before it, is the one `find` returns |
| Aggregate.PushedOntoEntry | lib/rorvswild.rb:192-194 | a payload-free query merges into the single entry at its location, even one that keeps SQL text or a plan |
| Aggregate.MergeOneMore | lib/rorvswild.rb:192-194 | one more payload-free execution at an aggregated location merges into its entry |
| Aggregate.RepeatedQueriesMerge | lib/rorvswild.rb:188-199 | N payload-free executions at one location aggregate to one entry with `times == N` and the summed runtime |
| Aggregate.ViewIndex | lib/rorvswild.rb:104 | the entry for a template path, and `nil` only when the table has none |
| Aggregate.ViewMapKeys | lib/rorvswild.rb:104 | every key of the hash is the path of some entry |
| Aggregate.ViewMapValues | lib/rorvswild.rb:104 | with distinct paths, each entry is what the hash maps its path to |
| Aggregate.ViewMapEntries | lib/rorvswild.rb:104 | the hash's keys are exactly the table's paths, each mapped to its own entry |
| Aggregate.ViewMapUpdate | lib/rorvswild.rb:105-106 | updating an entry in place changes only that key of the hash and keeps paths distinct |
| Aggregate.ViewMapAppend | lib/rorvswild.rb:108 | a new entry adds only its key to the hash and keeps paths distinct |
| Aggregate.RenderExisting | lib/rorvswild.rb:104-106 | a render of a template already in the table changes only its key, adding the duration and one render |
| Aggregate.RenderNew | lib/rorvswild.rb:107-108 | a render of a new template adds only its key, with one render |
| Aggregate.Rendered | lib/rorvswild.rb:102-111 | read as a hash, only the template's key changes: it gains the duration and one render, or it is created with one render |
| Aggregate.InsertByKey | lib/rorvswild.rb:202 | insertion into a runtime-descending list gives a runtime-descending permutation with one more element |
| Aggregate.SortByKey | lib/rorvswild.rb:202 | `sort` by descending runtime gives a permutation in non-increasing runtime order |
| Aggregate.PrefixNonIncreasing | lib/rorvswild.rb:202 | a prefix of a runtime-descending list is runtime-descending |
| Aggregate.SuffixNoSlower | lib/rorvswild.rb:202 | after `[0, n]` on a runtime-descending list, nothing left out is slower than anything kept |
| Aggregate.SortedPrefix | lib/rorvswild.rb:202 | the first n entries of a sorted permutation are sorted, come from the input, and are at least as slow as every entry left out |
| Aggregate.Slowest | lib/rorvswild.rb:201-207 | `sort{...}[0, 25]`: min(size, 25) entries in non-increasing runtime order, taken from the input, none slower than a selected one left out |
| Aggregate.SlowestQueries | lib/rorvswild.rb:205-207 | min(size, 25) queries in non-increasing runtime order, taken from the list, none slower than a selected one left out |
| Aggregate.SlowestViews | lib/rorvswild.rb:201-203 | min(size, 25) views in non-increasing runtime order, taken from the table, none slower than a selected one left out |
| Aggregate.SumUpdate | lib/rorvswild.rb:193 | replacing one entry changes a sum by the difference |
| Records.Configure | lib/rorvswild.rb:38-54 | each setting is the given option, or its default (`http://www.rorvswild.com/api`, 500, 100) when absent |
| Records.ExceptionToHash | lib/rorvswild.rb:262-273 | the method, the line (`to_i`) and the root-relative file come from the error location, and message, backtrace, class and extra details are copied; a failure happens exactly when locating raises |
| Records.ExceptionWithoutBacktrace | lib/rorvswild.rb:237-239 | an exception without a backtrace has no location, so building its hash raises `NoMethodError` |
| Records.ExceptionAtApplicationFrame | lib/rorvswild.rb:262-273 | an exception raised at application frame `file:n` in method `w`, below an outside frame, is recorded at `w`, `n` and `file` |
| Records.ExceptionUnderDoubledRoot | lib/rorvswild.rb:262-268 | a frame under the root twice over is recorded without either copy of the root, since `sub` removes one and `relative_path` the other |
| Records.FilterEnvironmentVariables | lib/rorvswild.rb:291-293 | exactly the entries whose key has no lower-case letter are kept, with their values |
| Records.SqlQueryRecord | lib/rorvswild.rb:89-97 | one execution with the event's runtime; with no location the placeholders `"Unknow"`, line 0 and the SQL text are used; otherwise the SQL text is kept exactly from the log threshold on; a plan is kept exactly from the explain threshold on |
| Records.FastQueryMergeable | lib/rorvswild.rb:95-96 | a query below both thresholds carries no payload, so `push_query` looks for an entry to merge it into |
| Records.FinishedRequest | lib/rorvswild.rb:79-81 | missing database and view runtimes count as 0; the three runtimes add up to the duration; the identity fields are kept |
| RorVsWild.Client.constructor | lib/rorvswild.rb:48-54 | the settings come from `Configure`, and nothing is recorded yet |
| RorVsWild.Client.BeforeHttpRequest | lib/rorvswild.rb:71-76 | a fresh request with empty query list and view table and no error |
| RorVsWild.Client.PushQuery | lib/rorvswild.rb:188-199 | the linear scan leaves the query list equal to `Pushed` of the old list |
| RorVsWild.Client.AfterSqlQuery | lib/rorvswild.rb:89-100 | no change with no query list, for `EXPLAIN` events, or when locating raises; otherwise the `SqlQueryRecord` is pushed |
| RorVsWild.Client.AfterViewRendering | lib/rorvswild.rb:102-111 | no change before the first request; otherwise the table becomes `Rendered` of the old one |
| RorVsWild.Client.AfterHttpRequest | lib/rorvswild.rb:78-87 | no change without a request; otherwise the request is finished, the error gets the filtered parameters, and the request with its 25 slowest queries and views and the error is sent |
| RorVsWild.Client.AfterException | lib/rorvswild.rb:113-122 | a routing error is re-raised untouched; an empty or unresolvable backtrace lets `NoMethodError` escape with no error recorded; otherwise the error record, with the session and the filtered upper-case environment, is stored and the exception re-raised |
| RorVsWild.Client.MeasureBlockStart | lib/rorvswild.rb:137-141 | a fresh query list and a job that has only its name |
| RorVsWild.Client.MeasureBlockFinish | lib/rorvswild.rb:142-150 | the block's exception is recorded as the job's error and re-raised, or `NoMethodError` escapes; the runtimes are set and the job with its 25 slowest queries is sent exactly once |

## Left out

- HTTP delivery (`post`, `post_request`, `post_job`, `post_error`, lines
  215-229 and 275-284) is left out, as network I/O. Each payload is appended
  to `sent` instead.
- The background `Thread` that posts a request is not modelled. Only the
  order in which payloads are handed over is kept.
- `setup_callbacks`, `ResquePlugin`, `around_delayed_job` and the module-level
  `RorVsWild.*` delegators (including `register_default_client`) are left
  out. They wire callbacks into other libraries.
- `measure_job` and `measure_code` are left out: they `eval` Ruby code.
- `measure_block` is split in two, because its block is arbitrary host code:
  - `MeasureBlockStart` covers what happens before the block runs.
  - `MeasureBlockFinish` covers what happens after it, with the block's
    outcome given as a parameter.
- `catch_error` and `record_error` are not modelled; they only post.
  `exception_to_hash`, the part of them that computes something, is
  modelled.
- `explain` runs SQL against the database. Its answer is the `explained`
  parameter, and `nil` stands for a failed `explain`.
- `compute_duration`, `Time.now` and `cpu_time` are not modelled, because
  they read clocks. Durations are integer milliseconds given as parameters.
- The `.round` of the database and view runtimes is left out, because the
  model has no floating point.
- `filter_sensitive_data` is a constructor parameter, because Rails'
  parameter filter is outside this model.
- `log_error` and `logger` are left out: logging has no effect on the
  state.
- Exceptions other than `StandardError` are left out; they bypass the
  `rescue` clauses.
- `Text.ToI`: leading whitespace and `_` digit separators are not read.
- `Text.Upcase`: only ASCII letters are modelled.
- `Records.Configure`: a key given explicitly as `nil` is not distinguished
  from an absent key.
- `test/plugin/action_controller_test.rb` drives
  `RorVsWild::Plugin::ActionController` and an `agent` test helper
  (`start_request`, `current_data`, `format_header_name`). None of these is
  defined in `lib/rorvswild.rb`, so no property is taken from that test.
