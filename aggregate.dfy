/**
 * The operation aggregator of `RorVsWild::Client`: how queries are merged
 * or kept apart (`push_query`), how view renders accumulate per template,
 * and how the 25 slowest entries are selected at the end of a request.
 */
module Aggregate {
  import opened Wrappers

  /** Both `slowest_queries` and `slowest_views` keep this many entries. */
  const TopN: nat := 25

  /**
   * A query's line: the text split out of a stack frame, or the integer 0
   * the agent records when no location was found. Ruby's `==` tells the
   * string `"0"` and the integer `0` apart, and so does this type.
   */
  datatype LineNo = LineText(text: string) | LineNumber(n: int)

  /** One aggregated query record; `times` counts the merged executions. */
  datatype Query = Query(
    file: string,
    line: LineNo,
    methodName: Option<string>,
    sql: Option<string>,
    plan: Option<string>,
    runtime: int,
    times: int)

  /** One view entry; the table is keyed by `file`. */
  datatype View = View(file: string, runtime: int, times: int)

  function QueryRuntime(q: Query): int { q.runtime }
  function QueryTimes(q: Query): int { q.times }
  function ViewRuntime(v: View): int { v.runtime }

  /** The sum of `f` over `s`. */
  function Sum<T>(s: seq<T>, f: T -> int): int {
    if s == [] then 0 else Sum(s[..|s| - 1], f) + f(s[|s| - 1])
  }

  lemma SumAppend<T>(s: seq<T>, x: T, f: T -> int)
    ensures Sum(s + [x], f) == Sum(s, f) + f(x)
  {
    assert (s + [x])[..|s|] == s;
  }

  /** Replacing one element changes the sum by the difference. */
  lemma {:induction false} SumUpdate<T>(s: seq<T>, i: nat, x: T, f: T -> int)
    requires i < |s|
    ensures Sum(s[i := x], f) == Sum(s, f) - f(s[i]) + f(x)
  {
    var n := |s| - 1;
    if i < n {
      SumUpdate(s[..n], i, x, f);
      assert s[i := x][..n] == s[..n][i := x];
    } else {
      assert s[i := x][..n] == s[..n];
    }
  }

  /* ---------------- queries ---------------- */

  /**
   * `query[:sql] || query[:plan]`: a query that keeps its SQL text or its
   * plan is never merged.
   */
  predicate CarriesPayload(q: Query) {
    q.sql.Some? || q.plan.Some?
  }

  /** The merge key: equal line and equal file. */
  predicate SameLocation(a: Query, b: Query) {
    a.line == b.line && a.file == b.file
  }

  /** Ruby `find`: the first entry at the location of `q`, whatever its payload. */
  function FindSameLocation(qs: seq<Query>, q: Query): (r: Option<nat>)
    ensures r.Some? ==> r.value < |qs| && SameLocation(qs[r.value], q)
    ensures r.Some? ==> forall j :: 0 <= j < r.value ==> !SameLocation(qs[j], q)
    ensures r.None? ==> forall j :: 0 <= j < |qs| ==> !SameLocation(qs[j], q)
  {
    if qs == [] then None
    else if SameLocation(qs[0], q) then Some(0)
    else match FindSameLocation(qs[1..], q)
      case None => None
      case Some(k) => Some(k + 1)
  }

  /** An entry at the location of `q` with none before it is the one `find` returns. */
  lemma FindSameLocationFirst(qs: seq<Query>, q: Query, i: nat)
    requires i < |qs| && SameLocation(qs[i], q)
    requires forall j :: 0 <= j < i ==> !SameLocation(qs[j], q)
    ensures FindSameLocation(qs, q) == Some(i)
  {
  }

  /** `entry` after `q` has been merged into it. */
  function Merged(entry: Query, q: Query): Query {
    entry.(runtime := entry.runtime + q.runtime, times := entry.times + 1)
  }

  /**
   * The query list after `push_query(q)`: `q` is appended when it carries
   * SQL text or a plan, or when no entry shares its location; otherwise its
   * runtime and one execution are added to the first entry at its location.
   */
  function Pushed(qs: seq<Query>, q: Query): (r: seq<Query>)
    ensures (CarriesPayload(q) || forall j :: 0 <= j < |qs| ==> !SameLocation(qs[j], q)) ==>
              r == qs + [q]
    ensures forall i ::
              (0 <= i < |qs| && !CarriesPayload(q) && SameLocation(qs[i], q) &&
               forall j :: 0 <= j < i ==> !SameLocation(qs[j], q)) ==>
              |r| == |qs| && r[i].runtime == qs[i].runtime + q.runtime && r[i].times == qs[i].times + 1 &&
              r[i] == qs[i].(runtime := r[i].runtime, times := r[i].times) &&
              forall j :: 0 <= j < |qs| && j != i ==> r[j] == qs[j]
  {
    if CarriesPayload(q) then qs + [q]
    else match FindSameLocation(qs, q)
      case None => qs + [q]
      case Some(i) =>
        assert forall k :: (0 <= k < |qs| && SameLocation(qs[k], q) &&
                            forall j :: 0 <= j < k ==> !SameLocation(qs[j], q)) ==> k == i;
        qs[i := Merged(qs[i], q)]
  }

  /**
   * Every push adds the query's runtime to the total runtime, and adds one
   * execution to the total count when merged, `q.times` when appended.
   */
  lemma PushedTotals(qs: seq<Query>, q: Query)
    ensures |Pushed(qs, q)| == |qs| || Pushed(qs, q) == qs + [q]
    ensures Sum(Pushed(qs, q), QueryRuntime) == Sum(qs, QueryRuntime) + q.runtime
    ensures Sum(Pushed(qs, q), QueryTimes) ==
            Sum(qs, QueryTimes) + (if |Pushed(qs, q)| == |qs| then 1 else q.times)
  {
    if CarriesPayload(q) || FindSameLocation(qs, q).None? {
      SumAppend(qs, q, QueryRuntime);
      SumAppend(qs, q, QueryTimes);
    } else {
      var i := FindSameLocation(qs, q).value;
      SumUpdate(qs, i, Merged(qs[i], q), QueryRuntime);
      SumUpdate(qs, i, Merged(qs[i], q), QueryTimes);
    }
  }

  /** The queries recorded by pushing `batch` in order onto `qs`. */
  function PushAll(qs: seq<Query>, batch: seq<Query>): seq<Query> {
    if batch == [] then qs else Pushed(PushAll(qs, batch[..|batch| - 1]), batch[|batch| - 1])
  }

  /** A payload-free query pushed onto its own location's single entry merges. */
  lemma PushedOntoEntry(entry: Query, q: Query)
    requires SameLocation(entry, q) && !CarriesPayload(q)
    ensures Pushed([entry], q) == [Merged(entry, q)]
  {
    assert FindSameLocation([entry], q) == Some(0);
  }

  /** One more payload-free execution at the location of an aggregated batch merges into its entry. */
  lemma MergeOneMore(batch: seq<Query>)
    requires |batch| > 1
    requires SameLocation(batch[|batch| - 1], batch[0]) && !CarriesPayload(batch[|batch| - 1])
    requires var n := |batch| - 1;
      PushAll([], batch[..n]) == [batch[0].(runtime := Sum(batch[..n], QueryRuntime), times := n)]
    ensures PushAll([], batch) == [batch[0].(runtime := Sum(batch, QueryRuntime), times := |batch|)]
  {
    var n := |batch| - 1;
    var prefix, last := batch[..n], batch[n];
    var entry := batch[0].(runtime := Sum(prefix, QueryRuntime), times := n);
    PushedOntoEntry(entry, last);
    assert Sum(batch, QueryRuntime) == Sum(prefix, QueryRuntime) + last.runtime;
    assert Merged(entry, last) == batch[0].(runtime := Sum(batch, QueryRuntime), times := |batch|);
  }

  /**
   * N payload-free single executions at one location aggregate to one entry
   * whose `times` is N and whose runtime is the sum of theirs.
   */
  lemma {:induction false} RepeatedQueriesMerge(batch: seq<Query>)
    requires |batch| > 0
    requires forall k :: 0 <= k < |batch| ==>
               SameLocation(batch[k], batch[0]) && !CarriesPayload(batch[k]) && batch[k].times == 1
    ensures PushAll([], batch) ==
            [batch[0].(runtime := Sum(batch, QueryRuntime), times := |batch|)]
  {
    var n := |batch| - 1;
    var prefix := batch[..n];
    if n == 0 {
      assert Pushed([], batch[0]) == [batch[0]];
      assert batch[..|batch| - 1] == [];
    } else {
      assert forall k :: 0 <= k < |prefix| ==> prefix[k] == batch[k];
      RepeatedQueriesMerge(prefix);
      MergeOneMore(batch);
    }
  }

  /* ---------------- views ---------------- */

  /** No two entries of the view table share a template path. */
  predicate DistinctFiles(vs: seq<View>) {
    forall i, j :: 0 <= i < j < |vs| ==> vs[i].file != vs[j].file
  }

  /** The position of the entry for `file`, if any (the hash lookup `views[file]`). */
  function ViewIndex(vs: seq<View>, file: string): (r: Option<nat>)
    ensures r.Some? ==> r.value < |vs| && vs[r.value].file == file
    ensures r.None? ==> forall j :: 0 <= j < |vs| ==> vs[j].file != file
  {
    if vs == [] then None
    else if vs[0].file == file then Some(0)
    else match ViewIndex(vs[1..], file)
      case None => None
      case Some(k) => Some(k + 1)
  }

  /** The table as the Ruby hash it models: template path to entry. */
  function ViewMap(vs: seq<View>): map<string, View> {
    if vs == [] then map[] else ViewMap(vs[..|vs| - 1])[vs[|vs| - 1].file := vs[|vs| - 1]]
  }

  /** Every key of the hash is the path of some entry. */
  lemma {:induction false} ViewMapKeys(vs: seq<View>)
    ensures forall f :: f in ViewMap(vs) ==> ViewIndex(vs, f).Some?
  {
    if vs != [] {
      var n := |vs| - 1;
      ViewMapKeys(vs[..n]);
      forall f | f in ViewMap(vs) ensures ViewIndex(vs, f).Some? {
        if f != vs[n].file {
          var k := ViewIndex(vs[..n], f).value;
          assert vs[k].file == f;
        }
      }
    }
  }

  /** With distinct paths, every entry is what the hash maps its path to. */
  lemma {:induction false} ViewMapValues(vs: seq<View>)
    requires DistinctFiles(vs)
    ensures forall i :: 0 <= i < |vs| ==> vs[i].file in ViewMap(vs) && ViewMap(vs)[vs[i].file] == vs[i]
  {
    if vs != [] {
      var n := |vs| - 1;
      var init := vs[..n];
      assert forall i :: 0 <= i < n ==> init[i] == vs[i];
      ViewMapValues(init);
      forall i | 0 <= i < |vs| ensures vs[i].file in ViewMap(vs) && ViewMap(vs)[vs[i].file] == vs[i] {
        if i < n {
          assert vs[i].file != vs[n].file;
        }
      }
    }
  }

  /** The hash holds exactly the table's paths, each mapped to its own entry. */
  lemma ViewMapEntries(vs: seq<View>)
    requires DistinctFiles(vs)
    ensures forall f :: f in ViewMap(vs) <==> ViewIndex(vs, f).Some?
    ensures forall i :: 0 <= i < |vs| ==> vs[i].file in ViewMap(vs) && ViewMap(vs)[vs[i].file] == vs[i]
  {
    ViewMapKeys(vs);
    ViewMapValues(vs);
  }

  /** Updating the entry of a path updates that key of the hash and nothing else. */
  lemma {:induction false} ViewMapUpdate(vs: seq<View>, i: nat, v: View)
    requires DistinctFiles(vs) && i < |vs| && v.file == vs[i].file
    ensures DistinctFiles(vs[i := v])
    ensures ViewMap(vs[i := v]) == ViewMap(vs)[v.file := v]
  {
    var n := |vs| - 1;
    if i < n {
      ViewMapUpdate(vs[..n], i, v);
      assert vs[i := v][..n] == vs[..n][i := v];
      assert vs[i := v][n] == vs[n];
    } else {
      assert vs[i := v][..n] == vs[..n];
      ViewMapValues(vs[..n]);
    }
  }

  /** Appending an entry for a new path adds that key to the hash. */
  lemma ViewMapAppend(vs: seq<View>, v: View)
    requires DistinctFiles(vs) && ViewIndex(vs, v.file).None?
    ensures DistinctFiles(vs + [v])
    ensures ViewMap(vs + [v]) == ViewMap(vs)[v.file := v]
  {
    assert (vs + [v])[..|vs|] == vs;
  }

  /** A render of a template already in the table updates its key of the hash. */
  lemma RenderExisting(vs: seq<View>, i: nat, duration: int)
    requires DistinctFiles(vs) && i < |vs|
    ensures var file := vs[i].file;
      var r := vs[i := View(file, vs[i].runtime + duration, vs[i].times + 1)];
      && DistinctFiles(r) && file in ViewMap(vs)
      && ViewMap(r) == ViewMap(vs)[file := View(file, ViewMap(vs)[file].runtime + duration, ViewMap(vs)[file].times + 1)]
  {
    ViewMapValues(vs);
    ViewMapUpdate(vs, i, View(vs[i].file, vs[i].runtime + duration, vs[i].times + 1));
  }

  /** A render of a template not yet in the table adds its key to the hash. */
  lemma RenderNew(vs: seq<View>, file: string, duration: int)
    requires DistinctFiles(vs) && ViewIndex(vs, file).None?
    ensures var r := vs + [View(file, duration, 1)];
      && DistinctFiles(r) && file !in ViewMap(vs)
      && ViewMap(r) == ViewMap(vs)[file := View(file, duration, 1)]
  {
    ViewMapKeys(vs);
    ViewMapAppend(vs, View(file, duration, 1));
  }

  /**
   * One render of the template at `file` taking `duration`: its entry
   * accumulates the duration and one more render, or a new entry is added
   * at the end. Read as a hash, only the key `file` changes.
   */
  function Rendered(vs: seq<View>, file: string, duration: int): (r: seq<View>)
    requires DistinctFiles(vs)
    ensures DistinctFiles(r)
    ensures file in ViewMap(vs) ==>
              ViewMap(r) == ViewMap(vs)[file := View(file, ViewMap(vs)[file].runtime + duration,
                                                     ViewMap(vs)[file].times + 1)]
    ensures file !in ViewMap(vs) ==> ViewMap(r) == ViewMap(vs)[file := View(file, duration, 1)]
    ensures file in ViewMap(vs) ==> |r| == |vs|
    ensures file !in ViewMap(vs) ==> |r| == |vs| + 1 && r[..|vs|] == vs
  {
    match ViewIndex(vs, file)
    case Some(i) =>
      RenderExisting(vs, i, duration);
      vs[i := View(file, vs[i].runtime + duration, vs[i].times + 1)]
    case None =>
      RenderNew(vs, file, duration);
      assert (vs + [View(file, duration, 1)])[..|vs|] == vs;
      vs + [View(file, duration, 1)]
  }

  /* ---------------- top-N selection ---------------- */

  /** Keys never increase along `s`. */
  predicate NonIncreasing<T>(s: seq<T>, key: T -> int) {
    forall i, j :: 0 <= i < j < |s| ==> key(s[i]) >= key(s[j])
  }

  /** Inserts `x` into a sequence sorted by decreasing key. */
  function InsertByKey<T>(x: T, s: seq<T>, key: T -> int): (r: seq<T>)
    requires NonIncreasing(s, key)
    ensures |r| == |s| + 1
    ensures r[0] == x || (s != [] && r[0] == s[0])
    ensures multiset(r) == multiset(s) + multiset{x}
    ensures NonIncreasing(r, key)
  {
    if s == [] || key(s[0]) < key(x) then [x] + s
    else
      var rest := InsertByKey(x, s[1..], key);
      assert s == [s[0]] + s[1..];
      assert key(s[0]) >= key(rest[0]);
      var r := [s[0]] + rest;
      assert NonIncreasing(r, key) by {
        forall i, j | 0 <= i < j < |r| ensures key(r[i]) >= key(r[j]) {
          if i == 0 {
            assert key(rest[0]) >= key(rest[j - 1]) || j == 1;
          } else {
            assert r[i] == rest[i - 1] && r[j] == rest[j - 1];
          }
        }
      }
      r
  }

  /** `sort` by decreasing key: a permutation with non-increasing keys. */
  function SortByKey<T>(s: seq<T>, key: T -> int): (r: seq<T>)
    ensures |r| == |s|
    ensures multiset(r) == multiset(s)
    ensures NonIncreasing(r, key)
  {
    if s == [] then []
    else
      assert s == [s[0]] + s[1..];
      InsertByKey(s[0], SortByKey(s[1..], key), key)
  }

  /** A prefix of a sorted sequence is sorted. */
  lemma PrefixNonIncreasing<T>(s: seq<T>, key: T -> int, n: nat)
    requires NonIncreasing(s, key) && n <= |s|
    ensures NonIncreasing(s[..n], key)
  {
    forall i, j | 0 <= i < j < n ensures key(s[..n][i]) >= key(s[..n][j]) {
      assert s[..n][i] == s[i] && s[..n][j] == s[j];
    }
  }

  /** No entry after position `n` of a sorted sequence is slower than one before it. */
  lemma SuffixNoSlower<T>(s: seq<T>, key: T -> int, n: nat)
    requires NonIncreasing(s, key) && n <= |s|
    ensures forall x, i :: x in multiset(s[n..]) && 0 <= i < n ==> key(x) <= key(s[..n][i])
  {
    forall x, i | x in multiset(s[n..]) && 0 <= i < n ensures key(x) <= key(s[..n][i]) {
      var k :| 0 <= k < |s[n..]| && s[n..][k] == x;
      assert s[n + k] == x && s[..n][i] == s[i];
    }
  }

  /** The first `n` entries of a sorted permutation of `s` are its top `n`. */
  lemma SortedPrefix<T>(s: seq<T>, sorted: seq<T>, key: T -> int, n: nat)
    requires multiset(sorted) == multiset(s) && NonIncreasing(sorted, key) && n <= |sorted|
    ensures NonIncreasing(sorted[..n], key)
    ensures multiset(sorted[..n]) <= multiset(s)
    ensures forall x, i :: x in multiset(s) - multiset(sorted[..n]) && 0 <= i < n ==>
              key(x) <= key(sorted[..n][i])
  {
    assert sorted == sorted[..n] + sorted[n..];
    assert multiset(s) - multiset(sorted[..n]) == multiset(sorted[n..]);
    PrefixNonIncreasing(sorted, key, n);
    SuffixNoSlower(sorted, key, n);
  }

  /**
   * `sort { |a, b| b[:runtime] <=> a[:runtime] }[0, n]`: at most `n`
   * entries, in non-increasing key order, taken from `s`, and none left out
   * has a larger key than one selected.
   */
  function Slowest<T>(s: seq<T>, key: T -> int, n: nat): (r: seq<T>)
    ensures |r| == if |s| < n then |s| else n
    ensures NonIncreasing(r, key)
    ensures multiset(r) <= multiset(s)
    ensures forall x, i :: x in multiset(s) - multiset(r) && 0 <= i < |r| ==> key(x) <= key(r[i])
  {
    var sorted := SortByKey(s, key);
    var m := if |sorted| <= n then |sorted| else n;
    SortedPrefix(s, sorted, key, m);
    assert sorted[..|sorted|] == sorted;
    sorted[..m]
  }

  /** `slowest_queries`: the 25 queries with the largest runtimes. */
  function SlowestQueries(qs: seq<Query>): (r: seq<Query>)
    ensures |r| == if |qs| < TopN then |qs| else TopN
    ensures NonIncreasing(r, QueryRuntime)
    ensures multiset(r) <= multiset(qs)
    ensures forall x, i :: x in multiset(qs) - multiset(r) && 0 <= i < |r| ==> x.runtime <= r[i].runtime
  {
    Slowest(qs, QueryRuntime, TopN)
  }

  /** `slowest_views`: the 25 views with the largest cumulative runtimes. */
  function SlowestViews(vs: seq<View>): (r: seq<View>)
    ensures |r| == if |vs| < TopN then |vs| else TopN
    ensures NonIncreasing(r, ViewRuntime)
    ensures multiset(r) <= multiset(vs)
    ensures forall x, i :: x in multiset(vs) - multiset(r) && 0 <= i < |r| ==> x.runtime <= r[i].runtime
  {
    Slowest(vs, ViewRuntime, TopN)
  }
}
