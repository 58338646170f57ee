/** DeltaEvaluator of control_plane/verification_runner.py: the verdict from the log's suffix. */
module Evaluator {
  import opened Prelude
  import opened Jobs
  import opened StateLog

  datatype Verdict = Verdict(
    passed: bool,
    baseline: Option<real>,
    actual: Option<real>,
    delta: Option<real>,
    failureReason: Option<string>)

  /** expression_eval.evaluate: None stands for the ValueError of an unknown operator. */
  function Compare(op: string, actual: real, threshold: real): Option<bool> {
    if op == ">=" then Some(actual >= threshold)
    else if op == "<=" then Some(actual <= threshold)
    else if op == ">" then Some(actual > threshold)
    else if op == "<" then Some(actual < threshold)
    else if op == "==" then Some(actual == threshold)
    else if op == "!=" then Some(actual != threshold)
    else None
  }

  function MetricValues(records: seq<StateRecord>, metric: string): seq<real> {
    if records == [] then []
    else
      var r := records[|records| - 1];
      MetricValues(records[..|records| - 1], metric)
      + if r.variable == metric && r.value.Some? then [r.value.value] else []
  }

  function Sum(xs: seq<real>): real {
    if xs == [] then 0.0 else Sum(xs[..|xs| - 1]) + xs[|xs| - 1]
  }

  function Mean(xs: seq<real>): real
    requires xs != []
  {
    Sum(xs) / |xs| as real
  }

  /** The verdict on the records read after the baseline. */
  function Judgement(spec: VerifySpec, baseline: Option<real>, records: seq<StateRecord>): Verdict {
    var values := MetricValues(records, spec.metric);
    if values == [] then Verdict(false, baseline, None, None, Some("missing_metric"))
    else
      var actual := Mean(values);
      var delta := if baseline.Some? then Some(actual - baseline.value) else None;
      match Compare(spec.operator, actual, spec.threshold)
      case None => Verdict(false, baseline, Some(actual), delta, Some("unknown_op"))
      case Some(passed) =>
        Verdict(passed, baseline, Some(actual), delta, if passed then None else Some("threshold_not_met"))
  }

  method Evaluate(c: Codec, file: Bytes, job: Job) returns (v: Verdict)
    ensures v == Judgement(job.spec.verify, job.spec.baseline, ReadRecords(c, Suffix(file, job.spec.baselineOffset)))
  {
    var records := ReadFromOffset(c, file, job.spec.baselineOffset);
    v := Judgement(job.spec.verify, job.spec.baseline, records);
  }

  /**
   * The verdict depends on the records put after enqueue and on nothing earlier: neither the
   * prior history nor the action's own effects, both written before the offset is taken.
   */
  lemma VerdictSeesOnlyTheSuffix(c: Codec, job: Job, history: seq<StateRecord>, effects: seq<StateRecord>,
                                 since: seq<StateRecord>)
    requires c.Lawful() && job.spec.baselineOffset == |Encode(c, history + effects)|
    ensures Judgement(job.spec.verify, job.spec.baseline,
                      ReadRecords(c, Suffix(Encode(c, history + effects + since), job.spec.baselineOffset)))
         == Judgement(job.spec.verify, job.spec.baseline, since)
  {
    ReadFromBoundary(c, history + effects, since);
  }

  // ---- what the mean means ------------------------------------------------------------------

  lemma {:induction false} SumBounds(xs: seq<real>, lo: real, hi: real)
    requires forall i :: 0 <= i < |xs| ==> lo <= xs[i] <= hi
    ensures lo * |xs| as real <= Sum(xs) <= hi * |xs| as real
  {
    if xs != [] { SumBounds(xs[..|xs| - 1], lo, hi); }
  }

  /** The judged value lies within the range of the post-baseline values. */
  lemma MeanBounds(xs: seq<real>, lo: real, hi: real)
    requires xs != [] && forall i :: 0 <= i < |xs| ==> lo <= xs[i] <= hi
    ensures lo <= Mean(xs) <= hi
  {
    SumBounds(xs, lo, hi);
    var n := |xs| as real;
    assert Mean(xs) * n == Sum(xs);
    ScaleBack(lo, Mean(xs), n);
    ScaleBack(Mean(xs), hi, n);
  }

  lemma ScaleBack(a: real, b: real, n: real)
    requires a * n <= b * n && n > 0.0
    ensures a <= b
  {
  }

  lemma {:induction false} SumSplit(xs: seq<real>, ys: seq<real>)
    ensures Sum(xs + ys) == Sum(xs) + Sum(ys)
  {
    if ys == [] {
      assert xs + ys == xs;
    } else {
      assert (xs + ys)[..|xs + ys| - 1] == xs + ys[..|ys| - 1];
      SumSplit(xs, ys[..|ys| - 1]);
    }
  }

  lemma SumOne(x: real)
    ensures Sum([x]) == x
  {
    assert [x][..0] == [];
  }

  /** Taking one value out of the list takes it out of the sum. */
  lemma SumWithout(before: seq<real>, x: real, behind: seq<real>)
    ensures Sum(before + [x] + behind) == Sum(before + behind) + x
  {
    SumSplit(before + [x], behind);
    SumSplit(before, [x]);
    SumOne(x);
    SumSplit(before, behind);
  }

  lemma CountWithout(front: seq<real>, x: real, before: seq<real>, behind: seq<real>)
    requires multiset(front + [x]) == multiset(before + [x] + behind)
    ensures multiset(front) == multiset(before + behind)
  {
    assert multiset(front) == multiset(front + [x]) - multiset{x};
    assert multiset(before + behind) == multiset(before + [x] + behind) - multiset{x};
  }

  lemma SplitAt(ys: seq<real>, x: real) returns (before: seq<real>, behind: seq<real>)
    requires x in multiset(ys)
    ensures ys == before + [x] + behind
  {
    var k :| 0 <= k < |ys| && ys[k] == x;
    before, behind := ys[..k], ys[k + 1..];
    assert ys == before + [x] + behind;
  }

  lemma {:induction false} SumOrder(xs: seq<real>, ys: seq<real>)
    requires multiset(xs) == multiset(ys)
    ensures |xs| == |ys| && Sum(xs) == Sum(ys)
    decreases |xs|
  {
    if xs == [] {
      assert |multiset(ys)| == |multiset(xs)| == 0;
    } else {
      var front, x := xs[..|xs| - 1], xs[|xs| - 1];
      assert xs == front + [x];
      assert x in multiset(xs);
      var before, behind := SplitAt(ys, x);
      CountWithout(front, x, before, behind);
      SumOrder(front, before + behind);
      SumWithout(before, x, behind);
    }
  }

  lemma MeanOrder(xs: seq<real>, ys: seq<real>)
    requires multiset(xs) == multiset(ys)
    ensures xs == [] <==> ys == []
    ensures xs != [] ==> Mean(xs) == Mean(ys)
  {
    SumOrder(xs, ys);
  }

  /** The verdict does not depend on the order in which the post-baseline values were written. */
  lemma VerdictIgnoresOrder(spec: VerifySpec, baseline: Option<real>, a: seq<StateRecord>, b: seq<StateRecord>)
    requires multiset(MetricValues(a, spec.metric)) == multiset(MetricValues(b, spec.metric))
    ensures Judgement(spec, baseline, a) == Judgement(spec, baseline, b)
  {
    MeanOrder(MetricValues(a, spec.metric), MetricValues(b, spec.metric));
  }

  /** A lower bound passes when the post-baseline values all meet it and fails when none does. */
  lemma LowerBoundVerdict(spec: VerifySpec, baseline: Option<real>, since: seq<StateRecord>, lo: real, hi: real)
    requires spec.operator == ">=" && MetricValues(since, spec.metric) != []
    requires forall x <- MetricValues(since, spec.metric) :: lo <= x <= hi
    ensures spec.threshold <= lo ==> Judgement(spec, baseline, since).passed
    ensures hi < spec.threshold ==> !Judgement(spec, baseline, since).passed
  {
    var values := MetricValues(since, spec.metric);
    forall i | 0 <= i < |values| ensures lo <= values[i] <= hi { assert values[i] in values; }
    MeanBounds(values, lo, hi);
  }

  // ---- the verdict in plain terms ---------------------------------------------------------------

  /** The records that count: those of the metric that hold a value. */
  predicate Counts(spec: VerifySpec, r: StateRecord) {
    r.variable == spec.metric && r.value.Some?
  }

  function CountingIn(spec: VerifySpec, since: seq<StateRecord>): set<nat> {
    set i: nat | i < |since| && Counts(spec, since[i])
  }

  lemma ValuesPush(since: seq<StateRecord>, r: StateRecord, metric: string)
    ensures MetricValues(since + [r], metric)
         == MetricValues(since, metric) + if r.variable == metric && r.value.Some? then [r.value.value] else []
  {
    assert (since + [r])[..|since|] == since;
  }

  lemma {:induction false} ValuesSplit(a: seq<StateRecord>, b: seq<StateRecord>, metric: string)
    ensures MetricValues(a + b, metric) == MetricValues(a, metric) + MetricValues(b, metric)
  {
    if b == [] {
      assert a + b == a;
    } else {
      var front, last := b[..|b| - 1], b[|b| - 1];
      assert a + b == (a + front) + [last];
      ValuesSplit(a, front, metric);
      ValuesPush(a + front, last, metric);
    }
  }

  lemma {:induction false} ValuesCount(spec: VerifySpec, since: seq<StateRecord>)
    ensures |MetricValues(since, spec.metric)| == |CountingIn(spec, since)|
  {
    if since == [] {
      assert CountingIn(spec, since) == {};
    } else {
      var n := |since| - 1;
      var front := since[..n];
      ValuesCount(spec, front);
      assert CountingIn(spec, since) == CountingIn(spec, front) + if Counts(spec, since[n]) then {n} else {};
    }
  }

  lemma OthersAddNoValue(metric: string, a: seq<StateRecord>, r: StateRecord, b: seq<StateRecord>)
    requires r.variable != metric || r.value.None?
    ensures MetricValues(a + [r] + b, metric) == MetricValues(a + b, metric)
  {
    ValuesSplit(a + [r], b, metric);
    ValuesPush(a, r, metric);
    ValuesSplit(a, b, metric);
    assert MetricValues(a, metric) + [] == MetricValues(a, metric);
  }

  /** A record of another variable, or with a null value, has no say in the verdict wherever it stands. */
  lemma OthersHaveNoSay(spec: VerifySpec, baseline: Option<real>, a: seq<StateRecord>, r: StateRecord,
                        b: seq<StateRecord>)
    requires r.variable != spec.metric || r.value.None?
    ensures Judgement(spec, baseline, a + [r] + b) == Judgement(spec, baseline, a + b)
  {
    OthersAddNoValue(spec.metric, a, r, b);
  }

  /** A comparison with one of the six known operators. */
  predicate Meets(operator: string, actual: real, threshold: real) {
    || (operator == ">=" && actual >= threshold) || (operator == "<=" && actual <= threshold)
    || (operator == ">" && actual > threshold) || (operator == "<" && actual < threshold)
    || (operator == "==" && actual == threshold) || (operator == "!=" && actual != threshold)
  }

  const OPERATORS := {">=", "<=", ">", "<", "==", "!="}

  lemma CompareExactly(operator: string, actual: real, threshold: real)
    ensures operator !in OPERATORS ==>
              Compare(operator, actual, threshold) == None && !Meets(operator, actual, threshold)
    ensures operator in OPERATORS ==>
              Compare(operator, actual, threshold) == Some(Meets(operator, actual, threshold))
  {
  }

  lemma ActualExactly(spec: VerifySpec, since: seq<StateRecord>)
    ensures MetricValues(since, spec.metric) != [] <==> exists r <- since :: Counts(spec, r)
  {
    ValuesCount(spec, since);
    var counting := CountingIn(spec, since);
    if r :| r in since && Counts(spec, r) {
      var i: nat :| i < |since| && since[i] == r;
      assert i in counting;
    }
    if MetricValues(since, spec.metric) != [] {
      assert counting != {};
      var i :| i in counting;
      assert since[i] in since;
    }
  }

  /**
   * There is an actual value exactly if some record of the metric holds one. The verdict is PASSED
   * exactly if that value meets the threshold; the reason says which of three things went wrong.
   */
  lemma VerdictExactly(spec: VerifySpec, baseline: Option<real>, since: seq<StateRecord>)
    ensures var v := Judgement(spec, baseline, since);
            && v.baseline == baseline
            && (v.actual.Some? <==> exists r <- since :: Counts(spec, r))
            && v.delta == (if v.actual.Some? && baseline.Some? then Some(v.actual.value - baseline.value) else None)
            && (v.passed <==> v.actual.Some? && Meets(spec.operator, v.actual.value, spec.threshold))
            && v.failureReason == (if v.passed then None
                                   else if v.actual.None? then Some("missing_metric")
                                   else if spec.operator !in OPERATORS then Some("unknown_op")
                                   else Some("threshold_not_met"))
  {
    ActualExactly(spec, since);
    var v := Judgement(spec, baseline, since);
    if v.actual.Some? { CompareExactly(spec.operator, v.actual.value, spec.threshold); }
  }

  lemma ActualIsTheMean(spec: VerifySpec, baseline: Option<real>, since: seq<StateRecord>)
    ensures var values, actual := MetricValues(since, spec.metric), Judgement(spec, baseline, since).actual;
            && |values| == |CountingIn(spec, since)|
            && actual == if values == [] then None else Some(Mean(values))
  {
    ValuesCount(spec, since);
  }

  /** `after` is the average of n values averaging `before` and of one more. */
  predicate Averages(before: real, n: nat, x: real, after: real) {
    after * (n + 1) as real == before * n as real + x
  }

  /** One more value of the metric shifts the actual value as it shifts an average; one alone is it. */
  lemma ActualIsTheAverage(spec: VerifySpec, baseline: Option<real>, since: seq<StateRecord>, r: StateRecord)
    requires Counts(spec, r)
    ensures var n, before := |CountingIn(spec, since)|, Judgement(spec, baseline, since).actual;
            var actual := Judgement(spec, baseline, since + [r]).actual;
            && actual.Some?
            && (n == 0 ==> actual == Some(r.value.value))
            && (n > 0 ==> before.Some? && Averages(before.value, n, r.value.value, actual.value))
  {
    ActualIsTheMean(spec, baseline, since);
    ActualIsTheMean(spec, baseline, since + [r]);
    ValuesPush(since, r, spec.metric);
    MeanPush(MetricValues(since, spec.metric), r.value.value);
  }

  lemma MeanPush(xs: seq<real>, x: real)
    ensures xs == [] ==> Mean(xs + [x]) == x
    ensures xs != [] ==> Averages(Mean(xs), |xs|, x, Mean(xs + [x]))
  {
    assert (xs + [x])[..|xs|] == xs;
    assert Mean(xs + [x]) * |xs + [x]| as real == Sum(xs + [x]);
    if xs != [] { assert Mean(xs) * |xs| as real == Sum(xs); }
  }
}
