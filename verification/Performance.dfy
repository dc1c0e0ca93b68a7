/** Rolling statistics of an agent, folded run by run and review by review, with the
  * rounding the code does. Figures are reals. */
module Performance {

  // ---- Rounding: to a nearest multiple of 1 / scale, however halves go ----

  type Rounding = real -> int

  ghost predicate IsNearest(near: Rounding) {
    forall y :: Abs(near(y) as real - y) <= 0.5
  }

  function RoundTo(near: Rounding, x: real, scale: nat): real
    requires scale > 0
  {
    near(x * scale as real) as real / scale as real
  }

  function Abs(x: real): real {
    if x < 0.0 then -x else x
  }

  predicate IsMultiple(x: real, n: int, scale: nat)
    requires scale > 0
  {
    x == n as real / scale as real
  }

  lemma RoundIsNear(near: Rounding, x: real, scale: nat)
    requires IsNearest(near) && scale > 0
    ensures Abs(RoundTo(near, x, scale) - x) <= 0.5 / scale as real
    ensures exists n :: IsMultiple(RoundTo(near, x, scale), n, scale)
  {
    assert IsMultiple(RoundTo(near, x, scale), near(x * scale as real), scale);
    var y := x * scale as real;
    assert Abs(near(y) as real - y) <= 0.5;
    ScaleBack(near(y) as real, x, scale as real);
  }

  lemma ScaleBack(n: real, x: real, s: real)
    requires s > 0.0 && Abs(n - x * s) <= 0.5
    ensures Abs(n / s - x) <= 0.5 / s
  {
    var d := n / s - x;
    assert d * s == n - x * s by {
      Cancel(n, s);
      assert d * s == n / s * s - x * s;
    }
    Cancel(0.5, s);
    if d > 0.5 / s {
      Bigger(d, 0.5 / s, s);
    }
    if -d > 0.5 / s {
      Bigger(-d, 0.5 / s, s);
    }
  }

  lemma Cancel(a: real, b: real)
    requires b != 0.0
    ensures a / b * b == a
  {
  }

  lemma Bigger(a: real, b: real, c: real)
    requires a > b && c > 0.0
    ensures a * c > b * c
  {
  }

  // A share of a whole stays one when rounded.
  lemma RoundedShare(near: Rounding, x: real, scale: nat)
    requires IsNearest(near) && scale > 0 && 0.0 <= x <= 1.0
    ensures 0.0 <= RoundTo(near, x, scale) <= 1.0
  {
    ScaledShare(x, near(x * scale as real), scale);
  }

  lemma ScaledShare(x: real, n: int, scale: nat)
    requires scale > 0 && 0.0 <= x <= 1.0 && Abs(n as real - x * scale as real) <= 0.5
    ensures 0.0 <= n as real / scale as real <= 1.0
  {
    var s := scale as real;
    Product(x, s);
    Product(1.0 - x, s);
    assert 0.0 <= x * s <= s;
    assert 0 <= n <= scale;
    Fraction(n, scale);
  }

  lemma Product(a: real, b: real)
    requires a >= 0.0 && b >= 0.0
    ensures a * b >= 0.0
  {
  }

  lemma Fraction(a: int, b: int)
    requires 0 <= a <= b && b > 0
    ensures 0.0 <= a as real / b as real <= 1.0
  {
  }

  // ---- Statistics ----

  datatype Stats = Stats(
    bucket: nat, runs: nat, completed: nat, failed: nat, successRate: real, totalCost: real, avgCost: real,
    totalTokens: nat, avgLatencyMs: real, totalRetries: nat, toolCalls: nat, failedToolCalls: nat,
    toolEfficiency: real, evaluationsPassed: nat, evaluationsTotal: nat, avgReviewScore: real)

  function Fresh(bucket: nat): Stats {
    Stats(bucket, 0, 0, 0, 1.0, 0.0, 0.0, 0, 0.0, 0, 0, 0, 1.0, 0, 0, 0.0)
  }

  datatype Event =
    | Run(completed: bool, cost: real, tokens: nat, latencyMs: int, retries: nat, toolCalls: nat, failedResults: nat)
    | Review(passed: bool, score: real)

  // No more failures are counted than calls.
  function FailedCalls(e: Event): nat
    requires e.Run?
  {
    if e.failedResults < e.toolCalls then e.failedResults else e.toolCalls
  }

  function Rate(near: Rounding, part: nat, whole: nat): real
    requires whole > 0
  {
    RoundTo(near, part as real / whole as real, 10_000)
  }

  function Latency(near: Rounding, avg: real, n: nat, latency: real): real {
    RoundTo(near, (avg * n as real + latency) / (n + 1) as real, 10)
  }

  function Efficiency(near: Rounding, bad: nat, calls: nat): real
    requires calls > 0
  {
    RoundTo(near, 1.0 - bad as real / calls as real, 10_000)
  }

  function ReviewAverage(avg: real, n: nat, score: real): real {
    (avg * n as real + score) / (n + 1) as real
  }

  function Fold(near: Rounding, s: Stats, e: Event): Stats {
    match e
    case Run(completed, cost, tokens, latencyMs, retries, toolCalls, _) =>
      var runs := s.runs + 1;
      var done := s.completed + if completed then 1 else 0;
      var calls, bad := s.toolCalls + toolCalls, s.failedToolCalls + FailedCalls(e);
      s.(runs := runs,
         completed := done,
         failed := s.failed + if completed then 0 else 1,
         successRate := Rate(near, done, runs),
         totalCost := s.totalCost + cost,
         avgCost := RoundTo(near, (s.totalCost + cost) / runs as real, 1_000_000),
         totalTokens := s.totalTokens + tokens,
         avgLatencyMs := Latency(near, s.avgLatencyMs, s.runs, latencyMs as real),
         totalRetries := s.totalRetries + retries,
         toolCalls := calls,
         failedToolCalls := bad,
         toolEfficiency := if calls > 0 then Efficiency(near, bad, calls) else s.toolEfficiency)
    case Review(passed, score) =>
      s.(evaluationsTotal := s.evaluationsTotal + 1,
         evaluationsPassed := s.evaluationsPassed + if passed then 1 else 0,
         avgReviewScore := ReviewAverage(s.avgReviewScore, s.evaluationsTotal, score))
  }

  function Roll(near: Rounding, bucket: nat, events: seq<Event>): Stats {
    if events == [] then Fresh(bucket)
    else Fold(near, Roll(near, bucket, events[..|events| - 1]), events[|events| - 1])
  }

  // ---- What happened ----

  datatype Tally = Tally(
    runs: nat, completed: nat, latency: real, cost: real, tokens: nat, retries: nat, calls: nat, bad: nat,
    reviews: nat, passed: nat, score: real)

  function Count(t: Tally, e: Event): Tally {
    match e
    case Run(completed, cost, tokens, latencyMs, retries, toolCalls, failedResults) =>
      t.(runs := t.runs + 1, completed := t.completed + if completed then 1 else 0,
         latency := t.latency + latencyMs as real, cost := t.cost + cost, tokens := t.tokens + tokens,
         retries := t.retries + retries, calls := t.calls + toolCalls,
         bad := t.bad + if failedResults <= toolCalls then failedResults else toolCalls)
    case Review(passed, score) =>
      t.(reviews := t.reviews + 1, passed := t.passed + if passed then 1 else 0, score := t.score + score)
  }

  function TallyOf(events: seq<Event>): Tally {
    if events == [] then Tally(0, 0, 0.0, 0.0, 0, 0, 0, 0, 0, 0, 0.0)
    else Count(TallyOf(events[..|events| - 1]), events[|events| - 1])
  }

  // The rounded average latency has drifted from the mean by at most 0.025 * (n + 1).
  ghost predicate LatencyClose(avg: real, n: nat, sum: real) {
    if n == 0 then avg == 0.0 && sum == 0.0 else Abs(avg - sum / n as real) <= 0.025 * (n + 1) as real
  }

  ghost predicate Shared(rate: real, part: nat, whole: nat) {
    part <= whole && 0.0 <= rate <= 1.0 && (whole == 0 ==> rate == 1.0)
    && (whole > 0 ==> Abs(rate - part as real / whole as real) <= 0.00005)
  }

  ghost predicate CostClose(avg: real, n: nat, cost: real) {
    if n == 0 then avg == 0.0 else Abs(avg - cost / n as real) <= 0.0000005
  }

  ghost predicate Describes(s: Stats, t: Tally) {
    s.runs == t.runs && s.completed == t.completed && s.completed + s.failed == s.runs
    && s.totalCost == t.cost && s.totalTokens == t.tokens && s.totalRetries == t.retries
    && s.toolCalls == t.calls && s.failedToolCalls == t.bad
    && LatencyClose(s.avgLatencyMs, t.runs, t.latency) && CostClose(s.avgCost, t.runs, t.cost)
    && Shared(s.successRate, t.completed, t.runs)
    && t.bad <= t.calls && Shared(s.toolEfficiency, t.calls - t.bad, t.calls)
    && s.evaluationsTotal == t.reviews && s.evaluationsPassed == t.passed
    && s.avgReviewScore * t.reviews as real == t.score && (t.reviews == 0 ==> s.avgReviewScore == 0.0)
  }

  lemma RoundedRate(near: Rounding, part: nat, whole: nat)
    requires IsNearest(near) && part <= whole && whole > 0
    ensures Shared(Rate(near, part, whole), part, whole)
  {
    Fraction(part, whole);
    RoundedShare(near, part as real / whole as real, 10_000);
    RoundIsNear(near, part as real / whole as real, 10_000);
  }

  lemma RoundedEfficiency(near: Rounding, bad: nat, calls: nat)
    requires IsNearest(near) && bad <= calls && calls > 0
    ensures Shared(Efficiency(near, bad, calls), calls - bad, calls)
  {
    Complement(bad, calls);
    RoundedRate(near, calls - bad, calls);
  }

  lemma Complement(bad: nat, calls: nat)
    requires bad <= calls && calls > 0
    ensures 1.0 - bad as real / calls as real == (calls - bad) as real / calls as real
  {
    var b, c := bad as real, calls as real;
    var q := b / c;
    Cancel(b, c);
    assert (1.0 - q) * c == c - b;
    Divide(1.0 - q, c - b, c);
  }

  lemma Divide(q: real, a: real, c: real)
    requires c != 0.0 && q * c == a
    ensures q == a / c
  {
  }

  // One more rounding: n times the drift grows by at most 0.05 * n.
  lemma LatencyStep(near: Rounding, avg: real, n: nat, sum: real, latency: real)
    requires IsNearest(near) && LatencyClose(avg, n, sum)
    ensures LatencyClose(Latency(near, avg, n, latency), n + 1, sum + latency)
  {
    RoundIsNear(near, (avg * n as real + latency) / (n + 1) as real, 10);
    Drifted(avg, n, sum, latency, Latency(near, avg, n, latency));
  }

  lemma Drifted(avg: real, n: nat, sum: real, latency: real, next: real)
    requires LatencyClose(avg, n, sum)
    requires Abs(next - (avg * n as real + latency) / (n + 1) as real) <= 0.05
    ensures LatencyClose(next, n + 1, sum + latency)
  {
    TotalDrift(avg, n, sum);
    Rounded(avg * n as real, sum, latency, n as real, (n + 1) as real, next);
  }

  lemma TotalDrift(avg: real, n: nat, sum: real)
    requires LatencyClose(avg, n, sum)
    ensures Abs(avg * n as real - sum) <= 0.025 * (n as real * (n + 1) as real)
  {
    if n > 0 {
      Drift(avg, sum, n as real);
    }
  }

  // n times the drift.
  lemma Drift(avg: real, sum: real, m: real)
    requires m > 0.0 && Abs(avg - sum / m) <= 0.025 * (m + 1.0)
    ensures Abs(avg * m - sum) <= 0.025 * (m * (m + 1.0))
  {
    var d := avg - sum / m;
    Cancel(sum, m);
    assert avg * m - sum == d * m;
    Product(0.025 * (m + 1.0) - d, m);
    Product(0.025 * (m + 1.0) + d, m);
  }

  // The next average from the total a of the averages and the total of the latencies.
  lemma Rounded(a: real, sum: real, latency: real, m: real, k: real, next: real)
    requires m >= 0.0 && k == m + 1.0 && Abs(a - sum) <= 0.025 * (m * k)
    requires Abs(next - (a + latency) / k) <= 0.05
    ensures Abs(next - (sum + latency) / k) <= 0.025 * (k + 1.0)
  {
    var top := 0.025 * m;
    var p, q := (a + latency) / k, (sum + latency) / k;
    Cancel(a + latency, k);
    Cancel(sum + latency, k);
    assert top * k == 0.025 * (m * k);
    Below(p, q, a - sum, top, k);
    Below(q, p, sum - a, top, k);
  }

  lemma Below(p: real, q: real, d: real, top: real, k: real)
    requires k > 0.0 && p * k - q * k == d && d <= top * k
    ensures p - q <= top
  {
    var e := p - q;
    assert e * k == d;
    if e > top {
      Bigger(e, top, k);
    }
  }

  lemma ReviewStep(avg: real, n: nat, sum: real, score: real)
    requires avg * n as real == sum
    ensures ReviewAverage(avg, n, score) * (n + 1) as real == sum + score
  {
    Cancel(avg * n as real + score, (n + 1) as real);
  }

  lemma RunDescribes(near: Rounding, s: Stats, t: Tally, e: Event)
    requires IsNearest(near) && Describes(s, t) && e.Run?
    ensures Describes(Fold(near, s, e), Count(t, e))
  {
    RunLatency(near, s, t, e);
    RunCost(near, s, t, e);
    RunRates(near, s, t, e);
  }

  lemma RunCost(near: Rounding, s: Stats, t: Tally, e: Event)
    requires IsNearest(near) && s.totalCost == t.cost && s.runs == t.runs && e.Run?
    ensures CostClose(Fold(near, s, e).avgCost, Count(t, e).runs, Count(t, e).cost)
  {
    RoundIsNear(near, (s.totalCost + e.cost) / (s.runs + 1) as real, 1_000_000);
  }

  lemma RunLatency(near: Rounding, s: Stats, t: Tally, e: Event)
    requires IsNearest(near) && LatencyClose(s.avgLatencyMs, t.runs, t.latency) && s.runs == t.runs && e.Run?
    ensures LatencyClose(Fold(near, s, e).avgLatencyMs, Count(t, e).runs, Count(t, e).latency)
  {
    LatencyStep(near, s.avgLatencyMs, t.runs, t.latency, e.latencyMs as real);
  }

  lemma RunRates(near: Rounding, s: Stats, t: Tally, e: Event)
    requires IsNearest(near) && e.Run? && s.runs == t.runs && s.completed == t.completed <= t.runs
    requires s.toolCalls == t.calls && s.failedToolCalls == t.bad <= t.calls
    requires t.calls == 0 ==> Shared(s.toolEfficiency, 0, 0)
    ensures var f, u := Fold(near, s, e), Count(t, e);
      Shared(f.successRate, u.completed, u.runs) && u.bad <= u.calls
      && Shared(f.toolEfficiency, u.calls - u.bad, u.calls)
  {
    var u := Count(t, e);
    RoundedRate(near, u.completed, u.runs);
    if u.calls > 0 {
      RoundedEfficiency(near, u.bad, u.calls);
    }
  }

  lemma FoldDescribes(near: Rounding, s: Stats, t: Tally, e: Event)
    requires IsNearest(near) && Describes(s, t)
    ensures Describes(Fold(near, s, e), Count(t, e))
  {
    if e.Run? {
      RunDescribes(near, s, t, e);
    } else {
      ReviewStep(s.avgReviewScore, t.reviews, t.score, e.score);
    }
  }

  /** Within one bucket, whatever the order of runs and reviews: the counts and sums are
    * exact, completed and failed add up to the runs, the rates are shares within half a
    * unit of the true ones, the review average is the true mean, and the repeatedly
    * rounded latency average is within 0.025 * (n + 1) of the mean of the n runs. */
  lemma {:induction false} RollDescribes(near: Rounding, bucket: nat, events: seq<Event>)
    requires IsNearest(near)
    ensures Describes(Roll(near, bucket, events), TallyOf(events))
  {
    if events != [] {
      var init := events[..|events| - 1];
      RollDescribes(near, bucket, init);
      FoldDescribes(near, Roll(near, bucket, init), TallyOf(init), events[|events| - 1]);
    }
  }

  // ---- Windows and buckets ----

  datatype Window = All | Weekly | Daily
  datatype Date = Date(day: nat, week: nat)

  // Only the daily window goes by days; the other two, and so also "all", by weeks.
  function BucketOf(window: Window, date: Date): nat {
    if window == Daily then date.day else date.week
  }

  type Table = map<(string, Window), Stats>

  // The statistics as they are loaded: started afresh in a new bucket.
  function Loaded(table: Table, agent: string, window: Window, date: Date): Stats {
    var bucket := BucketOf(window, date);
    if (agent, window) in table && table[(agent, window)].bucket == bucket then table[(agent, window)]
      else Fresh(bucket)
  }

  // One run or review of an agent, folded into all its windows.
  function Recorded(near: Rounding, table: Table, agent: string, date: Date, e: Event): Table {
    table[(agent, All) := Fold(near, Loaded(table, agent, All, date), e)]
         [(agent, Weekly) := Fold(near, Loaded(table, agent, Weekly, date), e)]
         [(agent, Daily) := Fold(near, Loaded(table, agent, Daily, date), e)]
  }

  class PerformanceTracker {
    const near: Rounding
    var table: Table

    constructor (near: Rounding)
      ensures this.near == near && table == map[]
    {
      this.near := near;
      table := map[];
    }

    method Load(agent: string, window: Window, date: Date) returns (s: Stats)
      modifies this
      ensures s == Loaded(old(table), agent, window, date)
      ensures table == old(table)[(agent, window) := s]
    {
      var bucket := BucketOf(window, date);
      if (agent, window) !in table || table[(agent, window)].bucket != bucket {
        s := Fresh(bucket);
        table := table[(agent, window) := s];
      } else {
        s := table[(agent, window)];
        assert table == table[(agent, window) := s];
      }
    }

    method Update(agent: string, window: Window, date: Date, e: Event) returns (s: Stats)
      modifies this
      ensures s == Fold(near, Loaded(old(table), agent, window, date), e)
      ensures table == old(table)[(agent, window) := s]
    {
      var before := Load(agent, window, date);
      s := Fold(near, before, e);
      table := table[(agent, window) := s];
    }

    /** Folds one run or review into all three windows of the agent. */
    method Record(agent: string, date: Date, e: Event)
      modifies this
      ensures table == Recorded(near, old(table), agent, date, e)
    {
      var _ := Update(agent, All, date, e);
      var _ := Update(agent, Weekly, date, e);
      var _ := Update(agent, Daily, date, e);
    }
  }

  datatype Entry = Entry(agent: string, date: Date, event: Event)

  // The table after a history of runs and reviews of any agents.
  function TableAfter(near: Rounding, log: seq<Entry>): Table {
    if log == [] then map[]
    else
      var last := log[|log| - 1];
      Recorded(near, TableAfter(near, log[..|log| - 1]), last.agent, last.date, last.event)
  }

  // What of it concerns one agent.
  function HistoryOf(log: seq<Entry>, agent: string): seq<Entry> {
    if log == [] then []
    else HistoryOf(log[..|log| - 1], agent) + if log[|log| - 1].agent == agent then [log[|log| - 1]] else []
  }

  // The events at the end of the history that fall into the same bucket.
  function LastBucket(window: Window, history: seq<Entry>, bucket: nat): seq<Event> {
    if history == [] || BucketOf(window, history[|history| - 1].date) != bucket then []
    else LastBucket(window, history[..|history| - 1], bucket) + [history[|history| - 1].event]
  }

  lemma RecordedAt(near: Rounding, table: Table, agent: string, date: Date, e: Event, other: string, window: Window)
    ensures var after := Recorded(near, table, agent, date, e);
      if other == agent
      then (agent, window) in after && after[(agent, window)] == Fold(near, Loaded(table, agent, window, date), e)
      else ((other, window) in after <==> (other, window) in table)
           && ((other, window) in table ==> after[(other, window)] == table[(other, window)])
  {
  }

  // The statistics of the agent's window are those of the last bucket of its history.
  ghost predicate Covers(near: Rounding, table: Table, agent: string, window: Window, history: seq<Entry>) {
    if history == [] then (agent, window) !in table
    else
      var bucket := BucketOf(window, history[|history| - 1].date);
      (agent, window) in table && table[(agent, window)] == Roll(near, bucket, LastBucket(window, history, bucket))
  }

  lemma CoversOneMore(
    near: Rounding, table: Table, after: Table, agent: string, window: Window, history: seq<Entry>, last: Entry)
    requires Covers(near, table, agent, window, history) && (agent, window) in after
    requires after[(agent, window)] == Fold(near, Loaded(table, agent, window, last.date), last.event)
    ensures Covers(near, after, agent, window, history + [last])
  {
    var bucket := BucketOf(window, last.date);
    var events := LastBucket(window, history, bucket);
    assert (history + [last])[..|history|] == history;
    assert (events + [last.event])[..|events|] == events;
    if history != [] {
      var b := BucketOf(window, history[|history| - 1].date);
      RollBucket(near, b, LastBucket(window, history, b));
    }
  }

  lemma OneRecord(near: Rounding, table: Table, agent: string, window: Window, history: seq<Entry>, last: Entry)
    requires Covers(near, table, agent, window, history)
    ensures Covers(near, Recorded(near, table, last.agent, last.date, last.event), agent, window,
                   history + if last.agent == agent then [last] else [])
  {
    var after := Recorded(near, table, last.agent, last.date, last.event);
    RecordedAt(near, table, last.agent, last.date, last.event, agent, window);
    if last.agent == agent {
      CoversOneMore(near, table, after, agent, window, history, last);
    } else {
      assert history + [] == history;
    }
  }

  /** After any history of records, of whatever agents, the statistics of an agent's window
    * cover exactly its events since the bucket began; for the window called "all", those
    * of the week of the last one. */
  lemma {:induction false} StatsCoverOneBucket(near: Rounding, log: seq<Entry>, agent: string, window: Window)
    ensures Covers(near, TableAfter(near, log), agent, window, HistoryOf(log, agent))
  {
    if log != [] {
      var init, last := log[..|log| - 1], log[|log| - 1];
      StatsCoverOneBucket(near, init, agent, window);
      OneRecord(near, TableAfter(near, init), agent, window, HistoryOf(init, agent), last);
    }
  }

  // Whether two dates fall into one period of the window.
  predicate SamePeriod(window: Window, a: Date, b: Date) {
    match window
    case Daily => a.day == b.day
    case Weekly => a.week == b.week
    case All => a.week == b.week
  }

  function EventsOf(history: seq<Entry>): (r: seq<Event>)
    ensures |r| == |history| && forall i :: 0 <= i < |r| ==> r[i] == history[i].event
  {
    seq(|history|, i requires 0 <= i < |history| => history[i].event)
  }

  lemma OneMoreEvent(history: seq<Entry>, last: Entry)
    ensures EventsOf(history + [last]) == EventsOf(history) + [last.event]
  {
  }

  // What of the history falls into the period of the date, at its end, begins at k.
  ghost predicate BeginsAt(window: Window, history: seq<Entry>, date: Date, k: nat) {
    k <= |history| && (forall i :: k <= i < |history| ==> SamePeriod(window, history[i].date, date))
    && (k > 0 ==> !SamePeriod(window, history[k - 1].date, date))
  }

  lemma {:induction false} PeriodBegins(window: Window, history: seq<Entry>, date: Date) returns (k: nat)
    ensures BeginsAt(window, history, date, k)
  {
    k := |history|;
    if history != [] && SamePeriod(window, history[|history| - 1].date, date) {
      k := PeriodBegins(window, history[..|history| - 1], date);
    }
  }

  lemma BucketOneMore(window: Window, history: seq<Entry>, last: Entry, date: Date)
    requires SamePeriod(window, last.date, date)
    ensures LastBucket(window, history + [last], BucketOf(window, date))
      == LastBucket(window, history, BucketOf(window, date)) + [last.event]
  {
    assert (history + [last])[..|history|] == history;
  }

  lemma LastBehind(history: seq<Entry>, k: nat)
    requires k < |history|
    ensures var init, last := history[..|history| - 1], history[|history| - 1];
      init + [last] == history && init[k..] + [last] == history[k..]
  {
  }

  lemma {:induction false} LastBucketBegins(window: Window, history: seq<Entry>, date: Date, k: nat)
    requires BeginsAt(window, history, date, k)
    ensures LastBucket(window, history, BucketOf(window, date)) == EventsOf(history[k..])
  {
    if k < |history| {
      var init, last := history[..|history| - 1], history[|history| - 1];
      LastBucketBegins(window, init, date, k);
      BucketOneMore(window, init, last, date);
      OneMoreEvent(init[k..], last);
      LastBehind(history, k);
    }
  }

  /** Whatever was recorded before: the statistics of an agent's day are exactly those of
    * its runs and reviews since the day of the last one began, and the statistics of its
    * week, as those called "all", of those since that week began. */
  lemma StatsBeginWithThePeriod(near: Rounding, log: seq<Entry>, agent: string, window: Window) returns (k: nat)
    requires IsNearest(near)
    ensures var history := HistoryOf(log, agent);
      if history == [] then (agent, window) !in TableAfter(near, log)
      else
        var date := history[|history| - 1].date;
        BeginsAt(window, history, date, k) && k < |history| && (agent, window) in TableAfter(near, log)
        && Describes(TableAfter(near, log)[(agent, window)], TallyOf(EventsOf(history[k..])))
  {
    var history := HistoryOf(log, agent);
    StatsCoverOneBucket(near, log, agent, window);
    k := 0;
    if history != [] {
      var date := history[|history| - 1].date;
      k := PeriodBegins(window, history, date);
      LastBucketBegins(window, history, date, k);
      RollDescribes(near, BucketOf(window, date), EventsOf(history[k..]));
    }
  }

  lemma {:induction false} RollBucket(near: Rounding, bucket: nat, events: seq<Event>)
    ensures Roll(near, bucket, events).bucket == bucket
  {
    if events != [] {
      RollBucket(near, bucket, events[..|events| - 1]);
    }
  }
}
