/** Response-time statistics of one validator: a running mean in integer arithmetic. */
module ValidatorMonitoring {
  import opened Arithmetic
  import opened Collections

  datatype Metrics = Metrics(
    participated: nat, snapshots: nat, average: nat, minimum: nat, maximum: nat, consecutiveFailures: nat,
    totalFailures: nat)

  const NEW := Metrics(0, 0, 0, U64_MAX, 0, 0, 0)

  datatype Op = Record(participated: bool, responseTime: nat) | ResetPeriod

  function Recorded(m: Metrics, participated: bool, responseTime: nat): Metrics {
    if participated then
      var n := m.participated + 1;
      m.(snapshots := m.snapshots + 1, participated := n, consecutiveFailures := 0,
         minimum := if responseTime < m.minimum then responseTime else m.minimum,
         maximum := if responseTime > m.maximum then responseTime else m.maximum,
         average := (m.average * (n - 1) + responseTime) / n)
    else
      m.(snapshots := m.snapshots + 1, consecutiveFailures := m.consecutiveFailures + 1,
         totalFailures := m.totalFailures + 1)
  }

  function Step(m: Metrics, op: Op): Metrics {
    match op
    case Record(participated, responseTime) => Recorded(m, participated, responseTime)
    case ResetPeriod => NEW.(totalFailures := m.totalFailures)
  }

  function Run(ops: seq<Op>): Metrics {
    if ops == [] then NEW else Step(Run(ops[..|ops| - 1]), ops[|ops| - 1])
  }

  // ---------- The period a run is in ----------

  /** The response times recorded since the last reset. */
  function Responses(ops: seq<Op>): seq<nat> {
    if ops == [] then []
    else
      var init := Responses(ops[..|ops| - 1]);
      match ops[|ops| - 1]
      case Record(participated, responseTime) => if participated then init + [responseTime] else init
      case ResetPeriod => []
  }

  /** How many of the last operations in a row were failures. */
  function TrailingFailures(ops: seq<Op>): nat {
    if ops == [] then 0
    else
      match ops[|ops| - 1]
      case Record(participated, _) => if participated then 0 else 1 + TrailingFailures(ops[..|ops| - 1])
      case ResetPeriod => 0
  }

  /** Within `n (n - 1) / 2` below the true sum, never above it, and inside the observed range. */
  ghost predicate Bounded(m: Metrics, responses: seq<nat>) {
    var n := |responses|;
    && m.participated == n
    && n * m.average <= Sum(responses)
    && 2 * Sum(responses) <= 2 * n * m.average + n * (n - 1)
    && (n > 0 ==> m.minimum <= m.average <= m.maximum)
    && (forall r :: r in responses ==> m.minimum <= r <= m.maximum)
    && (n > 0 ==> m.minimum in responses && m.maximum in responses)
  }

  /** One truncating division loses less than one unit per response counted so far. */
  lemma MeanStep(average: nat, sum: nat, r: nat, n: nat)
    requires n > 0
    requires (n - 1) * average <= sum && 2 * sum <= 2 * (n - 1) * average + (n - 1) * (n - 2)
    ensures var next := (average * (n - 1) + r) / n;
            n * next <= sum + r && 2 * (sum + r) <= 2 * n * next + n * (n - 1)
  {
    var x := average * (n - 1) + r;
    var next := x / n;
    assert n * next <= x <= n * next + (n - 1);
    assert (n - 1) * average == average * (n - 1);
    assert 2 * (n - 1) * average == 2 * (average * (n - 1));
    assert 2 * n * next == 2 * (n * next);
    assert (n - 1) * (n - 2) + 2 * (n - 1) == n * (n - 1);
  }

  lemma WeightedBounds(average: nat, r: nat, n: nat, low: nat, high: nat)
    requires n > 0 && low <= r <= high && (n > 1 ==> low <= average <= high)
    ensures low * n <= average * (n - 1) + r <= high * n
  {
    OneMore(low, n);
    OneMore(high, n);
    if n > 1 {
      ProductsKeepOrder(low, average, n - 1);
      ProductsKeepOrder(average, high, n - 1);
    }
  }

  lemma QuotientBounds(x: nat, n: nat, low: nat, high: nat)
    requires n > 0 && low * n <= x <= high * n
    ensures low <= x / n <= high
  {
    DivideParts(x, n);
    if x / n < low { ProductsKeepOrder(x / n + 1, low, n); }
    if high < x / n { ProductsKeepOrder(high + 1, x / n, n); OneMore(n, high + 1); }
  }

  /** The mean of values between two bounds stays between them. */
  lemma {:induction false} MeanInRange(average: nat, r: nat, n: nat, low: nat, high: nat)
    requires n > 0 && low <= r <= high && (n > 1 ==> low <= average <= high)
    ensures low <= (average * (n - 1) + r) / n <= high
  {
    WeightedBounds(average, r, n, low, high);
    QuotientBounds(average * (n - 1) + r, n, low, high);
  }

  lemma {:induction false} RecordKeepsBounds(m: Metrics, responses: seq<nat>, r: nat)
    requires Bounded(m, responses) && r <= U64_MAX && (responses == [] ==> m.average == 0 && m.minimum == U64_MAX)
    requires responses == [] ==> m.maximum == 0
    ensures Bounded(Recorded(m, true, r), responses + [r])
  {
    var n := |responses| + 1;
    var t := Recorded(m, true, r);
    SumConcat(responses, [r]);
    MeanStep(m.average, Sum(responses), r, n);
    MeanInRange(m.average, r, n, t.minimum, t.maximum);
  }

  /** Over every run, in whatever period it has reached. */
  lemma {:induction false} RunBounded(ops: seq<Op>)
    requires forall op :: op in ops && op.Record? ==> op.responseTime <= U64_MAX
    ensures Bounded(Run(ops), Responses(ops))
    ensures Responses(ops) == [] ==> Run(ops).average == 0 && Run(ops).minimum == U64_MAX && Run(ops).maximum == 0
    ensures Run(ops).consecutiveFailures == TrailingFailures(ops)
  {
    if ops != [] {
      var init, op := ops[..|ops| - 1], ops[|ops| - 1];
      RunBounded(init);
      if op.Record? && op.participated { RecordKeepsBounds(Run(init), Responses(init), op.responseTime); }
    }
  }

  /** Snapshots recorded since the last reset. */
  function RecordedSince(ops: seq<Op>): nat {
    if ops == [] || ops[|ops| - 1].ResetPeriod? then 0 else 1 + RecordedSince(ops[..|ops| - 1])
  }

  /** Failures ever recorded; a reset does not forget them. */
  function FailuresIn(ops: seq<Op>): nat {
    if ops == [] then 0
    else
      var op := ops[|ops| - 1];
      FailuresIn(ops[..|ops| - 1]) + if op.Record? && !op.participated then 1 else 0
  }

  /** The running mean: each division drops its remainder. */
  function RunningMean(responses: seq<nat>): nat {
    if responses == [] then 0
    else NextMean(RunningMean(responses[..|responses| - 1]), responses[|responses| - 1], |responses|)
  }

  function NextMean(average: nat, r: nat, n: nat): nat
    requires n > 0
  {
    var product: nat := average * (n - 1);
    QuotientIsNat(product + r, n);
    (average * (n - 1) + r) / n
  }

  /** Over every run the average is the running mean of the period's responses, in the order they came. */
  lemma {:induction false} AverageExactly(ops: seq<Op>)
    ensures Run(ops).average == RunningMean(Responses(ops))
  {
    if ops != [] {
      var init, op := ops[..|ops| - 1], ops[|ops| - 1];
      AverageExactly(init);
      CountsExactly(init);
      if op.Record? && op.participated {
        assert Responses(ops)[..|Responses(init)|] == Responses(init);
      }
    }
  }

  /** Over every run the counters count the period's snapshots and participations and the lifetime's failures. */
  lemma {:induction false} CountsExactly(ops: seq<Op>)
    ensures Run(ops).snapshots == RecordedSince(ops) && Run(ops).totalFailures == FailuresIn(ops)
    ensures Run(ops).participated == |Responses(ops)|
  {
    if ops != [] { CountsExactly(ops[..|ops| - 1]); }
  }

  lemma RunOne(ops: seq<Op>, op: Op)
    ensures Run(ops + [op]) == Step(Run(ops), op)
  {
    assert (ops + [op])[..|ops|] == ops;
  }

  class ValidatorMetrics {
    var snapshotsParticipated: nat
    var totalSnapshots: nat
    var avgResponseTime: nat
    var minResponseTime: nat
    var maxResponseTime: nat
    var consecutiveFailures: nat
    var totalFailures: nat
    /** Everything that has happened to this object. */
    ghost var trace: seq<Op>

    function State(): Metrics
      reads this
    {
      Metrics(snapshotsParticipated, totalSnapshots, avgResponseTime, minResponseTime, maxResponseTime,
              consecutiveFailures, totalFailures)
    }

    ghost predicate Valid()
      reads this
    {
      State() == Run(trace) && forall op :: op in trace && op.Record? ==> op.responseTime <= U64_MAX
    }

    constructor ()
      ensures Valid() && trace == []
    {
      snapshotsParticipated, totalSnapshots, avgResponseTime, minResponseTime := 0, 0, 0, U64_MAX;
      maxResponseTime, consecutiveFailures, totalFailures, trace := 0, 0, 0, [];
    }

    method RecordSnapshot(participated: bool, responseTime: nat)
      requires Valid() && responseTime <= U64_MAX
      modifies this
      ensures Valid() && trace == old(trace) + [Record(participated, responseTime)]
      ensures Bounded(State(), Responses(trace)) && consecutiveFailures == TrailingFailures(trace)
    {
      hide Run, Bounded, Responses, TrailingFailures;
      RunOne(trace, Record(participated, responseTime));
      trace := trace + [Record(participated, responseTime)];
      totalSnapshots := totalSnapshots + 1;
      if participated {
        snapshotsParticipated := snapshotsParticipated + 1;
        consecutiveFailures := 0;
        if responseTime < minResponseTime { minResponseTime := responseTime; }
        if responseTime > maxResponseTime { maxResponseTime := responseTime; }
        if snapshotsParticipated > 0 {
          avgResponseTime := (avgResponseTime * (snapshotsParticipated - 1) + responseTime) / snapshotsParticipated;
        }
      } else {
        consecutiveFailures := consecutiveFailures + 1;
        totalFailures := totalFailures + 1;
      }
      RunBounded(trace);
    }

    /** Everything but the lifetime failure count starts over. */
    method StartPeriod()
      requires Valid()
      modifies this
      ensures Valid() && trace == old(trace) + [ResetPeriod]
      ensures State() == NEW.(totalFailures := old(totalFailures))
    {
      hide Run;
      RunOne(trace, ResetPeriod);
      trace := trace + [ResetPeriod];
      snapshotsParticipated, totalSnapshots, avgResponseTime, minResponseTime := 0, 0, 0, U64_MAX;
      maxResponseTime, consecutiveFailures := 0, 0;
    }
  }
}
