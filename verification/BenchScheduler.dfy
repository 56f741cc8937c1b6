/**
 utils/bench-scheduler.cc: Welford's one-pass statistics over the results of the runs, over the
 reals, and the event loop in which every event schedules the next.
 */
module BenchScheduler {

  // ----- statistics

  datatype PhaseResult = PhaseResult(time: real, rate: real, period: real)
  datatype Result = Result(init: PhaseResult, run: PhaseResult)

  datatype Field = InitTime | InitRate | InitPeriod | RunTime | RunRate | RunPeriod

  function Get(r: Result, f: Field): real {
    match f
    case InitTime => r.init.time
    case InitRate => r.init.rate
    case InitPeriod => r.init.period
    case RunTime => r.run.time
    case RunRate => r.run.rate
    case RunPeriod => r.run.period
  }

  /** The values of one field in the first n results. */
  ghost function Column(rs: seq<Result>, f: Field, n: nat): seq<real>
    requires n <= |rs|
  {
    seq(n, i requires 0 <= i < n => Get(rs[i], f))
  }

  ghost function Sum(xs: seq<real>): real {
    if xs == [] then 0.0 else Sum(xs[..|xs| - 1]) + xs[|xs| - 1]
  }

  /** The sum of the squared deviations from a. */
  ghost function Deviation(xs: seq<real>, a: real): real {
    if xs == [] then 0.0
    else Deviation(xs[..|xs| - 1], a) + (xs[|xs| - 1] - a) * (xs[|xs| - 1] - a)
  }

  ghost predicate IsMean(xs: seq<real>, a: real) {
    a * |xs| as real == Sum(xs)
  }

  lemma SquareNonNegative(x: real)
    ensures x * x >= 0.0
  {}

  lemma {:induction false} DeviationNonNegative(xs: seq<real>, a: real)
    ensures Deviation(xs, a) >= 0.0
  {
    if xs == [] {
    } else {
      DeviationNonNegative(xs[..|xs| - 1], a);
      SquareNonNegative(xs[|xs| - 1] - a);
    }
  }

  lemma Distribute(x: real, y: real, z: real)
    ensures (x + y) * z == x * z + y * z
  {}

  /** The sum of the signed deviations from a. */
  ghost function Bias(xs: seq<real>, a: real): real {
    if xs == [] then 0.0 else Bias(xs[..|xs| - 1], a) + (xs[|xs| - 1] - a)
  }

  lemma {:induction false} BiasIs(xs: seq<real>, a: real)
    ensures Bias(xs, a) == Sum(xs) - |xs| as real * a
    decreases |xs|
  {
    if xs == [] {
    } else {
      BiasIs(xs[..|xs| - 1], a);
      Distribute((|xs| - 1) as real, 1.0, a);
    }
  }

  /** What a sample with deviation u adds when the reference point moves by e. */
  lemma ShiftOne(q: real, n: real, e: real, u: real, t: real)
    requires t == u - e
    ensures t * t == u * u - 2.0 * (e * u) + e * e
    ensures e * (q + u) == e * q + e * u
    ensures (n + 1.0) * (e * e) == n * (e * e) + e * e
  {
    Distribute(u, -e, t);
    Distribute(q, u, e);
    Distribute(n, 1.0, e * e);
  }

  lemma ShiftTotal(before: real, after: real, q: real, n: real, e: real, u: real, t: real)
    requires after == before - 2.0 * (e * q) + n * (e * e) && t == u - e
    ensures after + t * t == (before + u * u) - 2.0 * (e * (q + u)) + (n + 1.0) * (e * e)
  {
    ShiftOne(q, n, e, u, t);
  }

  /** How the deviations from b == a + e differ from those from a. */
  ghost predicate Shifts(before: real, after: real, q: real, n: real, e: real) {
    after == before - 2.0 * (e * q) + n * (e * e)
  }

  lemma NothingShifts(e: real)
    ensures Shifts(0.0, 0.0, 0.0, 0.0, e)
  {
    assert e * 0.0 == 0.0 && 0.0 * (e * e) == 0.0;
  }

  lemma OneMoreShifts(before: real, after: real, q: real, n: real, e: real, u: real, t: real)
    requires Shifts(before, after, q, n, e) && t == u - e
    ensures Shifts(before + u * u, after + t * t, q + u, n + 1.0, e)
  {
    ShiftTotal(before, after, q, n, e, u, t);
  }

  lemma {:induction false} AllShift(xs: seq<real>, a: real, b: real, e: real)
    requires b == a + e
    ensures Shifts(Deviation(xs, a), Deviation(xs, b), Bias(xs, a), |xs| as real, e)
    decreases |xs|
  {
    if xs == [] {
      NothingShifts(e);
    } else {
      var m := |xs| - 1;
      AllShift(xs[..m], a, b, e);
      OneMoreShifts(Deviation(xs[..m], a), Deviation(xs[..m], b), Bias(xs[..m], a), m as real, e, xs[m] - a, xs[m] - b);
      assert |xs| as real == m as real + 1.0;
    }
  }

  lemma DeviationShift(xs: seq<real>, a: real, b: real, e: real)
    requires b == a + e
    ensures Deviation(xs, b) == Deviation(xs, a) - 2.0 * (e * Bias(xs, a)) + |xs| as real * (e * e)
  {
    AllShift(xs, a, b, e);
  }

  lemma Append(xs: seq<real>, x: real, a: real)
    ensures Sum(xs + [x]) == Sum(xs) + x && Deviation(xs + [x], a) == Deviation(xs, a) + (x - a) * (x - a)
  {
    assert (xs + [x])[..|xs|] == xs;
  }

  /** With e the share of d that the mean moves: what the deviations grow by. */
  lemma Growth(n: real, d: real, e: real)
    requires e * (n + 1.0) == d
    ensures n * (e * e) + (d - e) * (d - e) == d * (d - e)
  {
    Distribute(n, 1.0, e);
    assert n * (e * e) == (n * e) * e;
    assert n * e == d - e;
    Distribute(e, d - e, d - e);
  }

  /** The mean of n + 1 values from the mean a of n of them. */
  lemma NewMean(n: real, a: real, d: real, e: real, s: real)
    requires a * n == s && e * (n + 1.0) == d
    ensures (a + e) * (n + 1.0) == s + (a + d)
  {
    Distribute(a, e, n + 1.0);
    Distribute(n, 1.0, a);
  }

  lemma FirstSample(x: real)
    ensures IsMean([] + [x], x) && Deviation([] + [x], x) == 0.0
  {
    Append([], x, x);
  }

  lemma NoBias(xs: seq<real>, a: real)
    requires IsMean(xs, a)
    ensures Bias(xs, a) == 0.0
  {
    BiasIs(xs, a);
  }

  /** Seen from elsewhere the deviations are larger, by n times the square of the distance from the mean. */
  lemma AwayFromMean(xs: seq<real>, a: real, b: real, e: real)
    requires Bias(xs, a) == 0.0 && b == a + e
    ensures Deviation(xs, b) == Deviation(xs, a) + |xs| as real * (e * e)
  {
    DeviationShift(xs, a, b, e);
  }

  lemma NextMean(xs: seq<real>, x: real, a: real, e: real)
    requires IsMean(xs, a) && e * (|xs| as real + 1.0) == x - a
    ensures IsMean(xs + [x], a + e)
  {
    Append(xs, x, a);
    NewMean(|xs| as real, a, x - a, e, Sum(xs));
  }

  lemma Combine(after: real, between: real, before: real, n: real, d: real, e: real, t: real)
    requires after == between + t * t && between == before + n * (e * e)
    requires t == d - e && e * (n + 1.0) == d
    ensures after == before + d * t
  {
    Growth(n, d, e);
  }

  lemma AppendAt(xs: seq<real>, b: real, t: real)
    ensures Deviation(xs + [b + t], b) == Deviation(xs, b) + t * t
  {
    assert (xs + [b + t])[..|xs|] == xs;
  }

  /** From the old mean to the new mean b, by the differences d and t of the new sample b + t from both. */
  lemma NextDeviation(xs: seq<real>, before: real, b: real, d: real, e: real, t: real)
    requires t == d - e && e * (|xs| as real + 1.0) == d
    requires Deviation(xs, b) == before + |xs| as real * (e * e)
    ensures Deviation(xs + [b + t], b) == before + d * t
  {
    AppendAt(xs, b, t);
    Combine(Deviation(xs + [b + t], b), Deviation(xs, b), before, |xs| as real, d, e, t);
  }

  /** Both the mean and the deviations from it follow a new sample. */
  lemma WelfordStep(xs: seq<real>, x: real, a: real, m: real)
    requires (xs == [] && a == x && m == 0.0) || (xs != [] && IsMean(xs, a) && m == Deviation(xs, a))
    ensures var a' := a + (x - a) / (|xs| + 1) as real;
      IsMean(xs + [x], a') && m + (x - a) * (x - a') == Deviation(xs + [x], a')
  {
    if xs == [] {
      FirstSample(x);
    } else {
      var n := |xs| as real;
      assert (|xs| + 1) as real == n + 1.0;
      var e := Share(x - a, n + 1.0);
      NextMean(xs, x, a, e);
      NoBias(xs, a);
      AwayFromMean(xs, a, a + e, e);
      var b := a + e;
      NextDeviation(xs, m, b, x - a, e, x - b);
      assert b + (x - b) == x;
    }
  }

  lemma Share(d: real, k: real) returns (e: real)
    requires k > 0.0
    ensures e == d / k && e * k == d
  {
    e := d / k;
  }

  function NewAverage(x: real, average: real, count: nat): real
    requires count >= 1
  {
    average + (x - average) / count as real
  }

  function NewMoment(x: real, average: real, moment2: real, count: nat): real
    requires count >= 1
  {
    var deltaPre, deltaPost := x - average, x - NewAverage(x, average, count);
    moment2 + deltaPre * deltaPost
  }

  /** One ACCUMULATE of the loop. */
  method Accumulate(x: real, average: real, moment2: real, count: nat) returns (average': real, moment2': real)
    requires count >= 1
    ensures average' == NewAverage(x, average, count) && moment2' == NewMoment(x, average, moment2, count)
  {
    var deltaPre := x - average;
    average' := average + deltaPre / count as real;
    assert average' == NewAverage(x, average, count);
    var deltaPost := x - average';
    moment2' := moment2 + deltaPre * deltaPost;
  }

  /** The loop body: all six fields. */
  method AccumulateAll(run: Result, average: Result, moment2: Result, count: nat)
    returns (average': Result, moment2': Result)
    requires count >= 1
    ensures forall f: Field ::
      && Get(average', f) == NewAverage(Get(run, f), Get(average, f), count)
      && Get(moment2', f) == NewMoment(Get(run, f), Get(average, f), Get(moment2, f), count)
  {
    var a0, m0 := Accumulate(run.init.time, average.init.time, moment2.init.time, count);
    var a1, m1 := Accumulate(run.init.rate, average.init.rate, moment2.init.rate, count);
    var a2, m2 := Accumulate(run.init.period, average.init.period, moment2.init.period, count);
    var a3, m3 := Accumulate(run.run.time, average.run.time, moment2.run.time, count);
    var a4, m4 := Accumulate(run.run.rate, average.run.rate, moment2.run.rate, count);
    var a5, m5 := Accumulate(run.run.period, average.run.period, moment2.run.period, count);
    average' := Result(PhaseResult(a0, a1, a2), PhaseResult(a3, a4, a5));
    moment2' := Result(PhaseResult(m0, m1, m2), PhaseResult(m3, m4, m5));
  }

  /** What the loop has computed for one field from the values seen so far. */
  ghost predicate Tracks(rs: seq<Result>, n: nat, average: Result, moment2: Result, f: Field)
    requires n <= |rs|
  {
    var xs, a, m := Column(rs, f, n), Get(average, f), Get(moment2, f);
    if n == 0 then |rs| > 0 && a == Get(rs[0], f) && m == 0.0
    else IsMean(xs, a) && m == Deviation(xs, a)
  }

  lemma TracksNext(rs: seq<Result>, n: nat, average: Result, moment2: Result, average': Result, moment2': Result, f: Field)
    requires n < |rs| && Tracks(rs, n, average, moment2, f)
    requires Get(average', f) == NewAverage(Get(rs[n], f), Get(average, f), n + 1)
    requires Get(moment2', f) == NewMoment(Get(rs[n], f), Get(average, f), Get(moment2, f), n + 1)
    ensures Tracks(rs, n + 1, average', moment2', f)
  {
    var xs := Column(rs, f, n);
    WelfordStep(xs, Get(rs[n], f), Get(average, f), Get(moment2, f));
    assert Column(rs, f, n + 1) == xs + [Get(rs[n], f)];
  }

  /** The mean of the values, and the mean of the squared deviations from it. */
  ghost predicate Describes(xs: seq<real>, average: real, variance: real) {
    IsMean(xs, average) && variance * |xs| as real == Deviation(xs, average) && variance >= 0.0
  }

  datatype Statistics = TooFew | Statistics(average: Result, variance: Result)

  /**
   BenchSuite::Log without the printing.  The average starts at the first result, which the loop
   then adds once more.  The variance is the square of what is logged as the standard deviation.
   */
  method Log(results: seq<Result>) returns (s: Statistics)
    ensures s.TooFew? <==> |results| < 2
    ensures s.Statistics? ==> forall f: Field ::
      Describes(Column(results, f, |results|), Get(s.average, f), Get(s.variance, f))
  {
    if |results| < 2 {
      return TooFew;
    }
    var n := 0;
    var average := results[0];
    var moment2 := Result(PhaseResult(0.0, 0.0, 0.0), PhaseResult(0.0, 0.0, 0.0));
    while n < |results|
      invariant n <= |results|
      invariant forall f: Field :: Tracks(results, n, average, moment2, f)
    {
      var a, m := average, moment2;
      average, moment2 := AccumulateAll(results[n], average, moment2, n + 1);
      n := n + 1;
      forall f: Field ensures Tracks(results, n, average, moment2, f) {
        TracksNext(results, n - 1, a, m, average, moment2, f);
      }
    }
    var variance := Divide(moment2, n as real);
    forall f: Field ensures Describes(Column(results, f, |results|), Get(average, f), Get(variance, f)) {
      Finish(results, average, moment2, variance, f);
    }
    s := Statistics(average, variance);
  }

  function Divide(r: Result, k: real): (q: Result)
    requires k > 0.0
    ensures forall f: Field :: Get(q, f) == Get(r, f) / k
  {
    Result(PhaseResult(r.init.time / k, r.init.rate / k, r.init.period / k),
           PhaseResult(r.run.time / k, r.run.rate / k, r.run.period / k))
  }

  lemma Finish(rs: seq<Result>, average: Result, moment2: Result, variance: Result, f: Field)
    requires |rs| > 0 && Tracks(rs, |rs|, average, moment2, f)
    requires Get(variance, f) == Get(moment2, f) / |rs| as real
    ensures Describes(Column(rs, f, |rs|), Get(average, f), Get(variance, f))
  {
    DeviationNonNegative(Column(rs, f, |rs|), Get(average, f));
    Quotient(Get(moment2, f), |rs| as real);
  }

  lemma Quotient(m: real, k: real)
    requires m >= 0.0 && k > 0.0
    ensures m / k * k == m && m / k >= 0.0
  {}

  // ----- the event loop

  /** Scheduled at some time not before now. */
  ghost predicate ScheduledAfter(before: seq<nat>, after: seq<nat>, now: nat) {
    |after| == |before| + 1 && after[..|before|] == before && now <= after[|before|]
  }

  /** One of the pending events is taken out. */
  ghost predicate TakenFrom(before: seq<nat>, after: seq<nat>, at: nat) {
    exists k :: 0 <= k < |before| && before[k] == at && after == before[..k] + before[k + 1..]
  }

  lemma TakenIsGone(before: seq<nat>, after: seq<nat>, at: nat)
    requires TakenFrom(before, after, at)
    ensures |after| == |before| - 1 && multiset(before) == multiset(after) + multiset{at}
  {
    var k :| 0 <= k < |before| && before[k] == at && after == before[..k] + before[k + 1..];
    assert before[k + 1..] == before[k..][1..] && before[k..] == [at] + before[k + 1..];
    assert before == before[..k] + ([at] + before[k + 1..]);
  }

  lemma ScheduledIsThere(before: seq<nat>, after: seq<nat>, now: nat)
    requires ScheduledAfter(before, after, now)
    ensures multiset(after) == multiset(before) + multiset{after[|before|]}
  {
    assert after == before + [after[|before|]];
  }

  /**
   The benchmark in its simulator.  `pending` holds the times of the scheduled events; which of them
   comes next, and how long each new one is delayed, is left open, so that every scheduler is covered.
   `scheduled` and `executed` are the times of all events that were scheduled and of all callbacks made.
   */
  class Bench {
    const population: nat
    const total: nat
    var count: nat
    var pending: seq<nat>
    var now: nat
    var stopped: bool
    ghost var pendingBefore: seq<nat>
    ghost var scheduled: multiset<nat>
    ghost var executed: seq<nat>

    /** Every event that was scheduled is pending or was executed, each once. */
    ghost predicate Accounted()
      reads this
    {
      scheduled == multiset(pending) + multiset(executed)
    }

    constructor (population: nat, total: nat)
      ensures this.population == population && this.total == total
    {
      this.population, this.total := population, total;
      count, pending, now, stopped, pendingBefore := 0, [], 0, false, [];
      scheduled, executed := multiset{}, [];
    }

    /** Schedule a callback after some delay. */
    method Schedule()
      requires Accounted()
      modifies this`pending, this`scheduled
      ensures Accounted() && ScheduledAfter(old(pending), pending, now)
      ensures |scheduled| == old(|scheduled|) + 1
    {
      var at: nat :| now <= at;
      ghost var before := pending;
      pending := pending + [at];
      scheduled := scheduled + multiset{at};
      ScheduledIsThere(before, pending, now);
    }

    /** Take out the event that the scheduler chooses, and move the clock to it. */
    method TakeNext()
      requires Accounted() && pending != []
      modifies this`pending, this`now, this`executed
      ensures Accounted() && TakenFrom(old(pending), pending, now) && executed == old(executed) + [now]
      ensures now in old(pending) && |pending| == |old(pending)| - 1
    {
      ghost var before := pending;
      var next :| 0 <= next < |pending|;
      now := pending[next];
      pending := pending[..next] + pending[next + 1..];
      executed := executed + [now];
      TakenIsGone(before, pending, now);
    }

    method Cb()
      requires Accounted()
      modifies this`count, this`pending, this`stopped, this`scheduled
      ensures Accounted()
      ensures old(count) >= total ==>
        stopped && count == old(count) && pending == old(pending) && scheduled == old(scheduled)
      ensures old(count) < total ==>
        && stopped == old(stopped) && count == old(count) + 1
        && ScheduledAfter(old(pending), pending, now) && |scheduled| == old(|scheduled|) + 1
    {
      if count >= total {
        stopped := true;
        return;
      }
      Schedule();
      count := count + 1;
    }

    /** One turn of the simulator: the next event is taken out and its callback made. */
    method RunNext()
      requires Accounted() && pending != []
      modifies this
      ensures Accounted() && executed == old(executed) + [now] && now in old(pending)
      ensures pendingBefore == old(pendingBefore) + [|old(pending)|]
      ensures if old(count) < total
        then stopped == old(stopped) && count == old(count) + 1
          && |pending| == |old(pending)| && |scheduled| == |old(scheduled)| + 1
        else stopped && count == old(count) && |pending| == |old(pending)| - 1 && scheduled == old(scheduled)
    {
      pendingBefore := pendingBefore + [|pending|];
      TakeNext();
      Cb();
    }

    /** One run; pendingBefore records how many events are pending before each callback. */
    method Run() returns (events: nat)
      modifies this
      ensures events == count == if population == 0 then 0 else total
      ensures |pendingBefore| == |executed| == if population == 0 then 0 else total + 1
      ensures forall i :: 0 <= i < |pendingBefore| ==> pendingBefore[i] == population
      ensures Accounted() && |scheduled| == if population == 0 then 0 else population + total
    {
      count, pending, now, stopped, pendingBefore := 0, [], 0, false, [];
      scheduled, executed := multiset{}, [];
      for i := 0 to population
        invariant |pending| == i == |scheduled| && count == 0 && !stopped && pendingBefore == [] && executed == []
        invariant Accounted()
      {
        Schedule();
      }
      while pending != [] && !stopped
        invariant if stopped then |pendingBefore| == total + 1 && count == total && population > 0
                  else |pendingBefore| == count <= total && |pending| == population
        invariant Accounted() && |executed| == |pendingBefore| && |scheduled| == population + count
        invariant forall i :: 0 <= i < |pendingBefore| ==> pendingBefore[i] == population
        invariant population == 0 ==> count == 0
        decreases total - count, if stopped then 0 else 1
      {
        RunNext();
      }
      events := count;
    }
  }
}
