/** Latency percentiles of a benchmark run: nearest rank on the sorted samples, over exact arithmetic. */
module NearestRank {
  import opened Common
  import opened Picking

  function Ceil(x: real): int {
    -((-x).Floor)
  }

  /** 1-based `ceil(p / 100 * n)`. */
  function Rank(n: nat, pct: nat): int {
    Ceil(pct as real / 100.0 * n as real)
  }

  /** The sample at the clamped rank; an empty sample yields zero. */
  function Percentile(sorted: seq<real>, pct: nat): real {
    if sorted == [] then 0.0
    else
      var n := |sorted|;
      var rank := Rank(n, pct);
      var clamped := if rank < 1 then 1 else if rank > n then n else rank;
      sorted[clamped - 1]
  }

  function Insert(x: real, s: seq<real>): seq<real> {
    if s == [] || x <= s[0] then [x] + s else [s[0]] + Insert(x, s[1..])
  }

  function Sort(s: seq<real>): seq<real> {
    if s == [] then [] else Insert(s[0], Sort(s[1..]))
  }

  // ----- the metrics of one run ---------------------------------------------------------------

  datatype ErrorBuckets = ErrorBuckets(waf: nat, http: nat, timeout: nat, network: nat,
                                       rateLimit: nat, extraction: nat, internal: nat, panic: nat)

  datatype CrawlSummary = CrawlSummary(totalPages: nat, succeeded: nat, pagesPerSec: real, durationSecs: real,
                                       errors: ErrorBuckets)

  datatype TraceRecord = SpanClose(durationMs: real) | Summary(summary: CrawlSummary) | Other

  datatype BenchmarkError = MissingSummary | EmptyCrawl | MissingSpans(totalPages: nat)

  datatype Metrics<+S> = Metrics(strategy: S, successRate: real, p50: real, p95: real, pagesPerSec: real,
                                 wallClockSecs: real, errorBuckets: ErrorBuckets, ramCostBytes: nat)

  /** The durations of the closed spans, in trace order. */
  function Durations(records: seq<TraceRecord>): seq<real> {
    if records == [] then []
    else (if records[0].SpanClose? then [records[0].durationMs] else []) + Durations(records[1..])
  }

  method CollectDurations(records: seq<TraceRecord>) returns (durations: seq<real>)
    ensures durations == Durations(records)
  {
    durations := [];
    for i := 0 to |records|
      invariant durations + Durations(records[i..]) == Durations(records)
    {
      assert records[i..][1..] == records[i + 1..];
      match records[i]
      case SpanClose(ms) => durations := durations + [ms];
      case _ =>
    }
    assert durations + [] == durations;
  }

  function FirstSummary(records: seq<TraceRecord>): Option<CrawlSummary> {
    if records == [] then None
    else if records[0].Summary? then Some(records[0].summary)
    else FirstSummary(records[1..])
  }

  method SummaryOf(records: seq<TraceRecord>) returns (r: Result<CrawlSummary, BenchmarkError>)
    ensures r == if FirstSummary(records).Some? then Ok(FirstSummary(records).value) else Err(MissingSummary)
  {
    for i := 0 to |records|
      invariant FirstSummary(records) == FirstSummary(records[i..])
    {
      if records[i].Summary? {
        return Ok(records[i].summary);
      }
      assert records[i..][1..] == records[i + 1..];
    }
    return Err(MissingSummary);
  }

  /** The gates in order, then both percentiles of the sorted durations. */
  method Compute<S>(records: seq<TraceRecord>, strategy: S, ramCostBytes: nat)
    returns (r: Result<Metrics<S>, BenchmarkError>)
    ensures r == Err(MissingSummary) <==> FirstSummary(records).None?
    ensures r == Err(EmptyCrawl) <==> FirstSummary(records).Some? && FirstSummary(records).value.totalPages == 0
    ensures r.Err? && r.error.MissingSpans? <==>
              FirstSummary(records).Some? && FirstSummary(records).value.totalPages > 0 && Durations(records) == []
    ensures r.Ok? ==>
              && IsPercentile(Durations(records), 50, r.value.p50) && IsPercentile(Durations(records), 95, r.value.p95)
              && r.value.p50 <= r.value.p95
              && var m, summary := r.value, FirstSummary(records).value;
                 && m.successRate * summary.totalPages as real == summary.succeeded as real
                 && (m.strategy, m.ramCostBytes) == (strategy, ramCostBytes)
                 && (m.pagesPerSec, m.wallClockSecs, m.errorBuckets)
                    == (summary.pagesPerSec, summary.durationSecs, summary.errors)
  {
    hide IsPercentile, MetricsOf, Durations, FirstSummary;
    var summary := SummaryOf(records);
    if summary.Err? {
      return Err(MissingSummary);
    }
    if summary.value.totalPages == 0 {
      return Err(EmptyCrawl);
    }
    var durations := CollectDurations(records);
    if durations == [] {
      return Err(MissingSpans(summary.value.totalPages));
    }
    MetricsAreRight(summary.value, durations, strategy, ramCostBytes);
    return Ok(MetricsOf(summary.value, durations, strategy, ramCostBytes));
  }

  function MetricsOf<S>(summary: CrawlSummary, durations: seq<real>, strategy: S, ramCostBytes: nat): Metrics<S>
    requires summary.totalPages > 0
  {
    var sorted := Sort(durations);
    Metrics(strategy, summary.succeeded as real / summary.totalPages as real,
            Percentile(sorted, 50), Percentile(sorted, 95),
            summary.pagesPerSec, summary.durationSecs, summary.errors, ramCostBytes)
  }

  lemma MetricsAreRight<S>(summary: CrawlSummary, durations: seq<real>, strategy: S, ramCostBytes: nat)
    requires summary.totalPages > 0 && durations != []
    ensures var m := MetricsOf(summary, durations, strategy, ramCostBytes);
            && IsPercentile(durations, 50, m.p50) && IsPercentile(durations, 95, m.p95) && m.p50 <= m.p95
            && m.successRate * summary.totalPages as real == summary.succeeded as real
            && (m.strategy, m.ramCostBytes) == (strategy, ramCostBytes)
            && (m.pagesPerSec, m.wallClockSecs, m.errorBuckets)
               == (summary.pagesPerSec, summary.durationSecs, summary.errors)
  {
    hide IsPercentile, Percentile, Sort;
    PercentileMeetsDefinition(durations, 50);
    PercentileMeetsDefinition(durations, 95);
    SortIsSorted(durations);
    PercentileIsMonotone(Sort(durations), 50, 95);
  }

  // ----- sorting ------------------------------------------------------------------------------

  ghost predicate Ascending(s: seq<real>) {
    forall i, j :: 0 <= i < j < |s| ==> s[i] <= s[j]
  }

  lemma {:induction false} InsertIsPermutation(x: real, s: seq<real>)
    ensures multiset(Insert(x, s)) == multiset([x] + s)
    decreases |s|
  {
    if s != [] && x > s[0] {
      InsertIsPermutation(x, s[1..]);
      assert s == [s[0]] + s[1..];
    }
  }

  lemma {:induction false} InsertKeepsOrder(x: real, s: seq<real>)
    requires Ascending(s)
    ensures Ascending(Insert(x, s))
    decreases |s|
  {
    if s != [] && x > s[0] {
      assert Insert(x, s) == [s[0]] + Insert(x, s[1..]);
      hide Insert;
      InsertKeepsOrder(x, s[1..]);
      InsertIsPermutation(x, s[1..]);
      ConsKeepsOrder(s[0], [x] + s[1..], Insert(x, s[1..]));
    }
  }

  lemma ConsKeepsOrder(least: real, s: seq<real>, sorted: seq<real>)
    requires Ascending(sorted) && multiset(sorted) == multiset(s) && forall i :: 0 <= i < |s| ==> least <= s[i]
    ensures Ascending([least] + sorted)
  {
    forall j | 0 <= j < |sorted|
      ensures least <= sorted[j]
    {
      assert sorted[j] in multiset(s);
    }
  }

  lemma {:induction false} SortIsSorted(s: seq<real>)
    ensures Ascending(Sort(s)) && multiset(Sort(s)) == multiset(s) && |Sort(s)| == |s|
    decreases |s|
  {
    if s != [] {
      SortIsSorted(s[1..]);
      InsertKeepsOrder(s[0], Sort(s[1..]));
      InsertIsPermutation(s[0], Sort(s[1..]));
      assert s == [s[0]] + s[1..];
      assert |multiset(Sort(s))| == |Sort(s)| && |multiset(s)| == |s|;
    }
  }

  lemma {:induction false} SortedIsUnique(a: seq<real>, b: seq<real>)
    requires Ascending(a) && Ascending(b) && multiset(a) == multiset(b)
    ensures a == b
    decreases |a|
  {
    assert |multiset(a)| == |a| && |multiset(b)| == |b|;
    if a != [] {
      HeadIsLeast(a, b);
      HeadIsLeast(b, a);
      TailOf(a);
      TailOf(b);
      SortedIsUnique(a[1..], b[1..]);
      assert a == [a[0]] + a[1..] && b == [b[0]] + b[1..];
    }
  }

  lemma HeadIsLeast(a: seq<real>, b: seq<real>)
    requires Ascending(a) && multiset(a) == multiset(b) && a != [] && b != []
    ensures a[0] <= b[0]
  {
    assert b[0] in multiset(a);
    assert b[0] in a;
  }

  lemma TailOf(a: seq<real>)
    requires a != []
    ensures multiset(a[1..]) == multiset(a) - multiset{a[0]}
  {
    assert a == [a[0]] + a[1..];
  }

  // ----- the definition -----------------------------------------------------------------------

  /** How many samples are at or below `v`. */
  function CountLe(s: seq<real>, v: real): nat {
    if s == [] then 0 else (if s[0] <= v then 1 else 0) + CountLe(s[1..], v)
  }

  /** `v` is the smallest sample with at least `pct` percent of the samples at or below it. */
  ghost predicate IsPercentile(sample: seq<real>, pct: nat, v: real) {
    && v in sample
    && 100 * CountLe(sample, v) >= pct * |sample|
    && forall w :: w in sample && w < v ==> 100 * CountLe(sample, w) < pct * |sample|
  }

  lemma {:induction false} CountOfInsert(x: real, s: seq<real>, v: real)
    ensures CountLe(Insert(x, s), v) == (if x <= v then 1 else 0) + CountLe(s, v)
    decreases |s|
  {
    if s != [] && x > s[0] {
      CountOfInsert(x, s[1..], v);
    }
  }

  lemma {:induction false} CountOfSort(s: seq<real>, v: real)
    ensures CountLe(Sort(s), v) == CountLe(s, v)
    decreases |s|
  {
    if s != [] {
      CountOfSort(s[1..], v);
      CountOfInsert(s[0], Sort(s[1..]), v);
    }
  }

  /** In an ascending list the count at `v` reaches past every position that is at or below `v`, and
      stops before every position above it. */
  lemma {:induction false} CountBracket(s: seq<real>, v: real, k: nat)
    requires Ascending(s) && k < |s|
    ensures s[k] <= v ==> CountLe(s, v) >= k + 1
    ensures s[k] > v ==> CountLe(s, v) <= k
    decreases |s|
  {
    if k > 0 {
      CountBracket(s[1..], v, k - 1);
    } else if s[0] > v {
      NoneBelow(s, v);
    }
  }

  lemma {:induction false} NoneBelow(s: seq<real>, v: real)
    requires forall i :: 0 <= i < |s| ==> s[i] > v
    ensures CountLe(s, v) == 0
    decreases |s|
  {
    if s != [] {
      NoneBelow(s[1..], v);
    }
  }

  /** The clamped rank is the exact ceiling: the least `r` with `100 * r >= pct * n`. */
  lemma RankIsExact(n: nat, pct: nat)
    requires n > 0 && 1 <= pct <= 100
    ensures var r := Rank(n, pct);
            1 <= r <= n && 100 * r >= pct * n && 100 * (r - 1) < pct * n
  {
  }

  /** Nearest rank meets its definition on every non-empty sample, in whatever order it came. */
  lemma PercentileMeetsDefinition(sample: seq<real>, pct: nat)
    requires sample != [] && 1 <= pct <= 100
    ensures IsPercentile(sample, pct, Percentile(Sort(sample), pct))
  {
    hide Rank, Sort, IsPercentile;
    SortIsSorted(sample);
    RankIsExact(|sample|, pct);
    RankMeetsDefinition(sample, Sort(sample), pct, Rank(|sample|, pct));
  }

  lemma RankMeetsDefinition(sample: seq<real>, sorted: seq<real>, pct: nat, r: nat)
    requires sorted == Sort(sample) && Ascending(sorted) && multiset(sorted) == multiset(sample) && |sorted| == |sample|
    requires 1 <= r <= |sample| && 100 * r >= pct * |sample| && 100 * (r - 1) < pct * |sample|
    ensures IsPercentile(sample, pct, sorted[r - 1])
  {
    hide Sort, CountLe;
    var v := sorted[r - 1];
    assert v in multiset(sample);
    CountBracket(sorted, v, r - 1);
    CountOfSort(sample, v);
    forall w | w in sample && w < v
      ensures 100 * CountLe(sample, w) < pct * |sample|
    {
      CountBracket(sorted, w, r - 1);
      CountOfSort(sample, w);
    }
  }

  /** The definition determines the value. */
  lemma PercentileIsUnique(sample: seq<real>, pct: nat, v: real, w: real)
    requires IsPercentile(sample, pct, v) && IsPercentile(sample, pct, w)
    ensures v == w
  {
  }

  /** The order of the samples does not matter. */
  lemma PercentileIgnoresOrder(a: seq<real>, b: seq<real>, pct: nat)
    requires multiset(a) == multiset(b)
    ensures Percentile(Sort(a), pct) == Percentile(Sort(b), pct)
  {
    SortIsSorted(a);
    SortIsSorted(b);
    SortedIsUnique(Sort(a), Sort(b));
  }

  lemma PercentileIsMonotone(sorted: seq<real>, p: nat, q: nat)
    requires Ascending(sorted) && p <= q
    ensures Percentile(sorted, p) <= Percentile(sorted, q)
  {
    RankIsMonotone(|sorted|, p, q);
    hide Rank;
  }

  lemma RankIsMonotone(n: nat, p: nat, q: nat)
    requires p <= q
    ensures Rank(n, p) <= Rank(n, q)
  {
  }

  // ----- what is aggregated ---------------------------------------------------------------------

  function Closed(records: seq<TraceRecord>): (marked: seq<bool>)
    ensures |marked| == |records|
  {
    seq(|records|, i requires 0 <= i < |records| => records[i].SpanClose?)
  }

  /** The durations are those of all closed spans, in trace order. */
  lemma {:induction false} DurationsAreAll(records: seq<TraceRecord>)
    ensures var spans := Pick(records, Closed(records));
            && |Durations(records)| == |spans|
            && forall i :: 0 <= i < |spans| ==> spans[i] == SpanClose(Durations(records)[i])
    decreases |records|
  {
    if records != [] {
      DurationsAreAll(records[1..]);
      assert Closed(records)[1..] == Closed(records[1..]);
    }
  }

  /** The summary in use is the first one of the trace. */
  lemma {:induction false} FirstSummaryIsFirst(records: seq<TraceRecord>)
    ensures FirstSummary(records).None? <==> forall i :: 0 <= i < |records| ==> !records[i].Summary?
    ensures FirstSummary(records).Some? ==>
              exists i :: 0 <= i < |records| && records[i] == Summary(FirstSummary(records).value)
                          && forall j :: 0 <= j < i ==> !records[j].Summary?
    decreases |records|
  {
    if records != [] {
      FirstSummaryIsFirst(records[1..]);
      if !records[0].Summary? && FirstSummary(records).Some? {
        var i :| 0 <= i < |records| - 1 && records[1..][i] == Summary(FirstSummary(records).value)
                 && forall j :: 0 <= j < i ==> !records[1..][j].Summary?;
        assert records[i + 1] == records[1..][i];
        assert forall j :: 0 < j < i + 1 ==> records[j] == records[1..][j - 1];
      }
      assert forall i :: 0 < i < |records| ==> records[i] == records[1..][i - 1];
    }
  }

  /** Outside 1 to 100 percent the rank is clamped: to the least sample and to the greatest. */
  lemma PercentileClamps(sorted: seq<real>, pct: nat)
    requires sorted != []
    ensures pct == 0 ==> Percentile(sorted, pct) == sorted[0]
    ensures pct >= 100 ==> Percentile(sorted, pct) == sorted[|sorted| - 1]
  {
    if pct >= 100 {
      RankIsMonotone(|sorted|, 100, pct);
      RankIsExact(|sorted|, 100);
    }
  }
}
