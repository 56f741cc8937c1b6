/**
 How run_tests of test.py turns the reports it collects into counters, name lists, the list of
 failed jobs and an exit status.
 */
module TestResults {
  import opened Sequences
  import opened WorkerPool

  datatype Verdict = Interrupted | Skip | Pass | Fail | Valgrind | Crash

  function VerdictOf(j: Job): Verdict {
    if j.isBreak then Interrupted
    else if j.isSkip then Skip
    else if j.returncode == 0 then Pass
    else if j.returncode == 1 then Fail
    else if j.returncode == 2 then Valgrind
    else Crash
  }

  /** The line that stands for the job in the summary. */
  function Label(j: Job): string {
    if j.isSkip then j.name + " (" + j.skipReason + ")" else j.name
  }

  function LabelIf(j: Job, v: Verdict): seq<string> {
    if VerdictOf(j) == v then [Label(j)] else []
  }

  /** The labels of the reports with one verdict, in the order of collection. */
  function Labels(js: seq<Job>, v: Verdict): seq<string> {
    if js == [] then [] else Labels(js[..|js| - 1], v) + LabelIf(js[|js| - 1], v)
  }

  function Count(js: seq<Job>, v: Verdict): nat {
    |Labels(js, v)|
  }

  /** What one report leaves in failed_jobs: nothing, one entry or two. */
  function FailedEntries(j: Job): seq<Job> {
    if j.isBreak || j.isSkip then []
    else
      (if j.returncode == 0 then [] else [j])
      + (if j.isExample || (0 <= j.returncode <= 2 && j.xmlPasses) then [] else [j])
  }

  function FailedJobs(js: seq<Job>): seq<Job> {
    if js == [] then [] else FailedJobs(js[..|js| - 1]) + FailedEntries(js[|js| - 1])
  }

  /** The counters and name lists of run_tests.  Only passes are counted without keeping names. */
  datatype Summary = Summary(passed: nat, skipped: seq<string>, failed: seq<string>,
                             crashed: seq<string>, valgrind: seq<string>)

  function Extend(s: Summary, j: Job): Summary {
    match VerdictOf(j)
    case Interrupted => s
    case Skip => s.(skipped := s.skipped + [Label(j)])
    case Pass => s.(passed := s.passed + 1)
    case Fail => s.(failed := s.failed + [Label(j)])
    case Valgrind => s.(valgrind := s.valgrind + [Label(j)])
    case Crash => s.(crashed := s.crashed + [Label(j)])
  }

  function Summarize(js: seq<Job>): Summary {
    if js == [] then Summary(0, [], [], [], []) else Extend(Summarize(js[..|js| - 1]), js[|js| - 1])
  }

  /** The local variables of run_tests that the collecting loop updates. */
  class Collector {
    var passedTests: nat
    var skippedTests: nat
    var failedTests: nat
    var crashedTests: nat
    var valgrindErrors: nat
    var skippedNames: seq<string>
    var failedNames: seq<string>
    var crashedNames: seq<string>
    var valgrindNames: seq<string>
    var failedJobs: seq<Job>
    ghost var seen: seq<Job>

    ghost predicate Counted()
      reads this
    {
      && skippedTests == |skippedNames| && failedTests == |failedNames|
      && crashedTests == |crashedNames| && valgrindErrors == |valgrindNames|
    }

    ghost function Totals(): Summary
      reads this
    {
      Summary(passedTests, skippedNames, failedNames, crashedNames, valgrindNames)
    }

    ghost predicate Valid()
      reads this
    {
      Counted() && Totals() == Summarize(seen) && failedJobs == FailedJobs(seen)
    }

    constructor ()
      ensures Valid() && seen == []
    {
      passedTests, skippedTests, failedTests, crashedTests, valgrindErrors := 0, 0, 0, 0, 0;
      skippedNames, failedNames, crashedNames, valgrindNames := [], [], [], [];
      failedJobs, seen := [], [];
    }

    /** One turn of the collecting loop. */
    method Record(job: Job)
      requires Valid()
      modifies this
      ensures Valid() && seen == old(seen) + [job]
    {
      if !job.isBreak {
        Classify(job);
        if !job.isExample {
          AddSuiteResult(job);
        }
      }
      assert failedJobs == old(failedJobs) + FailedEntries(job);
      seen := seen + [job];
      assert seen[..|seen| - 1] == old(seen);
    }

    /** Count the job under its verdict; a job that did not pass also goes to failed_jobs. */
    method Classify(job: Job)
      requires Counted() && !job.isBreak
      modifies this
      ensures Counted() && Totals() == Extend(old(Totals()), job)
      ensures failedJobs == old(failedJobs) + (if job.isSkip || job.returncode == 0 then [] else [job])
      ensures seen == old(seen)
    {
      if job.isSkip {
        skippedTests := skippedTests + 1;
        skippedNames := skippedNames + [job.name + " (" + job.skipReason + ")"];
      } else {
        failedJobs := failedJobs + [job];
        if job.returncode == 0 {
          passedTests := passedTests + 1;
          failedJobs := failedJobs[..|failedJobs| - 1];
        } else if job.returncode == 1 {
          failedTests := failedTests + 1;
          failedNames := failedNames + [job.name];
        } else if job.returncode == 2 {
          valgrindErrors := valgrindErrors + 1;
          valgrindNames := valgrindNames + [job.name];
        } else {
          crashedTests := crashedTests + 1;
          crashedNames := crashedNames + [job.name];
        }
      }
    }

    /** A test suite goes to failed_jobs once more unless its result file says PASS or SKIP. */
    method AddSuiteResult(job: Job)
      modifies this`failedJobs
      ensures failedJobs == old(failedJobs)
        + (if job.isSkip || (0 <= job.returncode <= 2 && job.xmlPasses) then [] else [job])
    {
      if !job.isSkip {
        failedJobs := failedJobs + [job];
        if job.returncode == 0 || job.returncode == 1 || job.returncode == 2 {
          if job.xmlPasses {
            failedJobs := failedJobs[..|failedJobs| - 1];
          }
        }
      }
    }

    /** 0 for success, 1 for anything else. */
    method ExitStatus(totalTests: nat) returns (status: int)
      requires Valid() && totalTests == |seen|
      ensures status == 0 || status == 1
      ensures status == 0 <==> forall i :: 0 <= i < |seen| ==> VerdictOf(seen[i]) == Pass || VerdictOf(seen[i]) == Skip
      ensures SomeInterrupted(seen) ==> status == 1
    {
      AllGoodIffCounted(seen);
      if SomeInterrupted(seen) {
        InterruptedIsNotGood(seen);
      }
      SummaryMeans(seen);
      status := if passedTests + skippedTests == totalTests then 0 else 1;
    }
  }

  // ----- the counters and lists in terms of return codes

  /** The job was run, or at least neither interrupted nor skipped, and returned this. */
  predicate Passed(j: Job) { !j.isBreak && !j.isSkip && j.returncode == 0 }
  predicate Failed(j: Job) { !j.isBreak && !j.isSkip && j.returncode == 1 }
  predicate ValgrindError(j: Job) { !j.isBreak && !j.isSkip && j.returncode == 2 }
  predicate Crashed(j: Job) { !j.isBreak && !j.isSkip && (j.returncode < 0 || j.returncode > 2) }
  predicate Skipped(j: Job) { !j.isBreak && j.isSkip }

  function NameOf(j: Job): string { j.name }
  function NameAndReason(j: Job): string { j.name + " (" + j.skipReason + ")" }

  ghost predicate CountOf(n: nat, js: seq<Job>, keep: Job -> bool) {
    exists idx :: Selects(idx, js, keep) && n == |idx|
  }

  ghost predicate LabelsAt(names: seq<string>, js: seq<Job>, idx: seq<nat>, text: Job -> string) {
    |names| == |idx| && forall k :: 0 <= k < |idx| ==> idx[k] < |js| && names[k] == text(js[idx[k]])
  }

  /** The labels of the jobs that satisfy `keep`, in the order in which the jobs were reported. */
  ghost predicate ListOf(names: seq<string>, js: seq<Job>, keep: Job -> bool, text: Job -> string) {
    exists idx :: Selects(idx, js, keep) && LabelsAt(names, js, idx, text)
  }

  /** The reports with verdict v are those that satisfy `keep`, and their label is `text`. */
  ghost predicate Means(v: Verdict, keep: Job -> bool, text: Job -> string) {
    forall j :: (VerdictOf(j) == v <==> keep(j)) && (keep(j) ==> Label(j) == text(j))
  }

  lemma VerdictsByCode()
    ensures Means(Pass, Passed, NameOf) && Means(Skip, Skipped, NameAndReason)
    ensures Means(Fail, Failed, NameOf) && Means(Valgrind, ValgrindError, NameOf) && Means(Crash, Crashed, NameOf)
  {}

  lemma {:induction false} LabelsListed(js: seq<Job>, v: Verdict, keep: Job -> bool, text: Job -> string)
    returns (idx: seq<nat>)
    requires Means(v, keep, text)
    ensures Selects(idx, js, keep) && LabelsAt(Labels(js, v), js, idx, text)
  {
    if js == [] {
      idx := [];
    } else {
      var m := |js| - 1;
      var before := LabelsListed(js[..m], v, keep, text);
      NextIndex(js, before, keep);
      NextLabel(js, before, Labels(js[..m], v), keep(js[m]), text);
      LastLabel(js, v, keep, text);
      idx := if keep(js[m]) then before + [m] else before;
    }
  }

  lemma LastLabel(js: seq<Job>, v: Verdict, keep: Job -> bool, text: Job -> string)
    requires js != [] && Means(v, keep, text)
    ensures var m := |js| - 1;
      Labels(js, v) == if keep(js[m]) then Labels(js[..m], v) + [text(js[m])] else Labels(js[..m], v)
  {
    var m := |js| - 1;
    assert LabelIf(js[m], v) == if keep(js[m]) then [text(js[m])] else [];
    assert Labels(js[..m], v) + [] == Labels(js[..m], v);
  }

  lemma NextIndex(js: seq<Job>, idx: seq<nat>, keep: Job -> bool)
    requires js != [] && Selects(idx, js[..|js| - 1], keep)
    ensures Selects(if keep(js[|js| - 1]) then idx + [|js| - 1] else idx, js, keep)
  {
    SelectsNext(idx, js[..|js| - 1], keep, js[|js| - 1]);
    assert js == js[..|js| - 1] + [js[|js| - 1]];
  }

  lemma NextLabel(js: seq<Job>, idx: seq<nat>, names: seq<string>, kept: bool, text: Job -> string)
    requires js != [] && LabelsAt(names, js[..|js| - 1], idx, text)
    ensures var m := |js| - 1;
      LabelsAt(if kept then names + [text(js[m])] else names, js, if kept then idx + [m] else idx, text)
  {
    forall k | 0 <= k < |idx| ensures idx[k] < |js| && names[k] == text(js[idx[k]]) {
      assert js[..|js| - 1][idx[k]] == js[idx[k]];
    }
  }

  lemma CountAndList(js: seq<Job>, v: Verdict, keep: Job -> bool, text: Job -> string)
    requires Means(v, keep, text)
    ensures CountOf(Count(js, v), js, keep) && ListOf(Labels(js, v), js, keep, text)
  {
    var idx := LabelsListed(js, v, keep, text);
  }

  /** What the local variables of run_tests hold after the reports js, by their return codes. */
  ghost predicate Tallied(c: Collector, js: seq<Job>)
    reads c
  {
    && CountOf(c.passedTests, js, Passed) && CountOf(c.skippedTests, js, Skipped)
    && CountOf(c.failedTests, js, Failed) && CountOf(c.valgrindErrors, js, ValgrindError)
    && CountOf(c.crashedTests, js, Crashed)
    && ListOf(c.skippedNames, js, Skipped, NameAndReason) && ListOf(c.failedNames, js, Failed, NameOf)
    && ListOf(c.valgrindNames, js, ValgrindError, NameOf) && ListOf(c.crashedNames, js, Crashed, NameOf)
  }

  /** Return code 1 is a failure, 2 a valgrind error, and any other but 0 a crash; the names go with the counts. */
  lemma CollectorTallies(c: Collector)
    requires c.Valid()
    ensures Tallied(c, c.seen)
  {
    SummaryMeans(c.seen);
    VerdictsByCode();
    CountAndList(c.seen, Pass, Passed, NameOf);
    CountAndList(c.seen, Skip, Skipped, NameAndReason);
    CountAndList(c.seen, Fail, Failed, NameOf);
    CountAndList(c.seen, Valgrind, ValgrindError, NameOf);
    CountAndList(c.seen, Crash, Crashed, NameOf);
  }

  // ----- accounting

  /** The summary lists, per verdict, the labels of exactly the reports with that verdict, in order. */
  lemma {:induction false} SummaryMeans(js: seq<Job>)
    ensures Summarize(js) == Summary(Count(js, Pass), Labels(js, Skip), Labels(js, Fail),
                                     Labels(js, Crash), Labels(js, Valgrind))
  {
    if js == [] {
    } else {
      SummaryMeans(js[..|js| - 1]);
    }
  }

  /** Each report is counted under exactly one verdict. */
  lemma {:induction false} VerdictsPartition(js: seq<Job>)
    ensures Count(js, Pass) + Count(js, Skip) + Count(js, Fail) + Count(js, Crash) + Count(js, Valgrind)
         + Count(js, Interrupted) == |js|
  {
    if js == [] {
    } else {
      VerdictsPartition(js[..|js| - 1]);
    }
  }

  lemma {:induction false} AllGoodIffCounted(js: seq<Job>)
    ensures Count(js, Pass) + Count(js, Skip) <= |js|
    ensures Count(js, Pass) + Count(js, Skip) == |js|
       <==> forall i :: 0 <= i < |js| ==> VerdictOf(js[i]) == Pass || VerdictOf(js[i]) == Skip
  {
    if js == [] {
    } else {
      AllGoodIffCounted(js[..|js| - 1]);
    }
  }

  /** Some job came back marked because of SIGINT. */
  ghost predicate SomeInterrupted(js: seq<Job>) {
    exists i :: 0 <= i < |js| && js[i].isBreak
  }

  lemma InterruptedIsNotGood(js: seq<Job>)
    requires SomeInterrupted(js)
    ensures Count(js, Pass) + Count(js, Skip) < |js|
  {
    var i :| 0 <= i < |js| && js[i].isBreak;
    assert VerdictOf(js[i]) == Interrupted;
    AllGoodIffCounted(js);
  }

  /**
   How often one report puts its job on failed_jobs: once for a verdict that is not good, and once more for a
   test suite that ran and whose result file does not say PASS or SKIP or, after a crash, is not looked at.
   */
  ghost function TimesFailed(j: Job): nat {
    (if VerdictOf(j) in {Fail, Crash, Valgrind} then 1 else 0)
    + (if VerdictOf(j) !in {Interrupted, Skip} && !j.isExample && (j.xmlPasses ==> VerdictOf(j) == Crash) then 1 else 0)
  }

  lemma EntriesOfOne(i: Job, j: Job)
    ensures multiset(FailedEntries(i))[j] == if i == j then TimesFailed(j) else 0
  {}

  /** What the last report adds. */
  lemma LastReport(js: seq<Job>, j: Job)
    requires js != []
    ensures var m := |js| - 1;
      && multiset(js)[j] == multiset(js[..m])[j] + (if js[m] == j then 1 else 0)
      && multiset(FailedJobs(js))[j] == multiset(FailedJobs(js[..m]))[j] + (if js[m] == j then TimesFailed(j) else 0)
  {
    var m := |js| - 1;
    assert js == js[..m] + [js[m]];
    var before, last := FailedJobs(js[..m]), FailedEntries(js[m]);
    assert FailedJobs(js) == before + last;
    assert multiset(before + last) == multiset(before) + multiset(last);
    EntriesOfOne(js[m], j);
  }

  lemma OneMore(n: nat, times: nat)
    ensures (n + 1) * times == n * times + times && 0 * times == 0
  {}

  lemma {:induction false} FailedTimes(js: seq<Job>, j: Job)
    ensures multiset(FailedJobs(js))[j] == multiset(js)[j] * TimesFailed(j)
  {
    if js == [] {
      assert multiset(js)[j] == 0;
    } else {
      LastReport(js, j);
      FailedTimes(js[..|js| - 1], j);
      OneMore(multiset(js[..|js| - 1])[j], TimesFailed(j));
    }
  }

  /** failed_jobs has every job once or twice that failed, crashed or upset valgrind, and no job that was skipped. */
  lemma FailedJobsExactly(js: seq<Job>, j: Job)
    ensures multiset(FailedJobs(js))[j] == multiset(js)[j] * TimesFailed(j)
    ensures j in FailedJobs(js) <==>
      && j in js
      && (VerdictOf(j) in {Fail, Crash, Valgrind} || (VerdictOf(j) == Pass && !j.isExample && !j.xmlPasses))
  {
    FailedTimes(js, j);
    assert j in FailedJobs(js) <==> multiset(FailedJobs(js))[j] > 0;
    assert j in js <==> multiset(js)[j] > 0;
  }

  lemma Associate(a: seq<Job>, b: seq<Job>, c: seq<Job>)
    ensures (a + b) + c == a + (b + c)
  {}

  /** failed_jobs follows the order of the reports: what two lists of them leave comes one after the other. */
  lemma {:induction false} FailedJobsInOrder(a: seq<Job>, b: seq<Job>)
    ensures FailedJobs(a + b) == FailedJobs(a) + FailedJobs(b)
  {
    if b == [] {
      assert a + b == a;
    } else {
      var m := |b| - 1;
      assert (a + b)[..|a + b| - 1] == a + b[..m];
      FailedJobsInOrder(a, b[..m]);
      Associate(FailedJobs(a), FailedJobs(b[..m]), FailedEntries(b[m]));
    }
  }

  // ----- the order of collection does not matter

  lemma {:induction false} LabelsConcat(a: seq<Job>, b: seq<Job>, v: Verdict)
    ensures Labels(a + b, v) == Labels(a, v) + Labels(b, v)
  {
    if b == [] {
      assert a + b == a;
    } else {
      var m := |b| - 1;
      assert (a + b)[..|a + b| - 1] == a + b[..m];
      LabelsConcat(a, b[..m], v);
    }
  }

  lemma LabelsOfOne(j: Job, v: Verdict)
    ensures Labels([j], v) == LabelIf(j, v)
  {
    assert [j][..0] == [];
  }

  lemma RemoveOne(ks: seq<Job>, m: nat)
    requires m < |ks|
    ensures multiset(ks[..m] + ks[m + 1..]) == multiset(ks) - multiset{ks[m]}
  {
    assert ks == ks[..m] + ([ks[m]] + ks[m + 1..]);
  }

  lemma LabelsRemove(ks: seq<Job>, m: nat, v: Verdict)
    requires m < |ks|
    ensures multiset(Labels(ks, v)) == multiset(Labels(ks[..m] + ks[m + 1..], v)) + multiset(LabelIf(ks[m], v))
  {
    assert ks == ks[..m] + ([ks[m]] + ks[m + 1..]);
    LabelsConcat(ks[..m], ks[m + 1..], v);
    LabelsConcat(ks[..m], [ks[m]] + ks[m + 1..], v);
    LabelsConcat([ks[m]], ks[m + 1..], v);
    LabelsOfOne(ks[m], v);
  }

  lemma LastOne(js: seq<Job>, v: Verdict)
    requires js != []
    ensures multiset(js[..|js| - 1]) == multiset(js) - multiset{js[|js| - 1]}
    ensures multiset(Labels(js, v)) == multiset(Labels(js[..|js| - 1], v)) + multiset(LabelIf(js[|js| - 1], v))
  {
    var n := |js| - 1;
    RemoveOne(js, n);
    assert js[..n] + js[n + 1..] == js[..n];
  }

  lemma SomewhereIn(js: seq<Job>, ks: seq<Job>) returns (m: nat)
    requires js != [] && multiset(js) == multiset(ks)
    ensures m < |ks| && ks[m] == js[|js| - 1]
  {
    assert js[|js| - 1] in multiset(ks);
    m :| 0 <= m < |ks| && ks[m] == js[|js| - 1];
  }

  /** Permuting the reports permutes the labels of each verdict. */
  lemma {:induction false} LabelsPermute(js: seq<Job>, ks: seq<Job>, v: Verdict)
    requires multiset(js) == multiset(ks)
    ensures multiset(Labels(js, v)) == multiset(Labels(ks, v))
    decreases |js|
  {
    if js == [] {
      assert |multiset(ks)| == 0;
    } else {
      var m := SomewhereIn(js, ks);
      var rest := ks[..m] + ks[m + 1..];
      LastOne(js, v);
      assert multiset(rest) == multiset(ks) - multiset{ks[m]} by { RemoveOne(ks, m); }
      LabelsPermute(js[..|js| - 1], rest, v);
      LabelsRemove(ks, m, v);
    }
  }

  // ----- sorted name lists

  /** The order of Python strings: by code point, a proper prefix first. */
  predicate StringLe(a: string, b: string) {
    if a == [] then true
    else if b == [] then false
    else if a[0] != b[0] then a[0] < b[0]
    else StringLe(a[1..], b[1..])
  }

  /** At position k the strings differ for the first time, and a has the smaller character. */
  ghost predicate LessAt(a: string, b: string, k: nat) {
    k < |a| && k < |b| && a[..k] == b[..k] && a[k] < b[k]
  }

  lemma {:induction false} StringLeMeans(a: string, b: string)
    ensures StringLe(a, b) <==> a <= b || exists k: nat :: LessAt(a, b, k)
  {
    if a == [] || b == [] {
    } else if a[0] != b[0] {
      assert a[0] < b[0] ==> LessAt(a, b, 0);
    } else {
      StringLeMeans(a[1..], b[1..]);
      assert a <= b <==> a[1..] <= b[1..] by {
        assert a == [a[0]] + a[1..] && b == [b[0]] + b[1..];
      }
      if k: nat :| LessAt(a[1..], b[1..], k) {
        LessLater(a, b, k + 1);
      }
      if k: nat :| LessAt(a, b, k) {
        LessLater(a, b, k);
      }
    }
  }

  lemma LessLater(a: string, b: string, k: nat)
    requires a != [] && b != [] && a[0] == b[0]
    ensures LessAt(a, b, k) <==> k > 0 && LessAt(a[1..], b[1..], k - 1)
  {
    if 0 < k < |a| && k < |b| {
      assert a[..k] == [a[0]] + a[1..][..k - 1] && b[..k] == [b[0]] + b[1..][..k - 1];
      assert a[1..][..k - 1] == a[..k][1..] && b[1..][..k - 1] == b[..k][1..];
    }
  }

  lemma {:induction false} StringLeAntisymmetric(a: string, b: string)
    requires StringLe(a, b) && StringLe(b, a)
    ensures a == b
  {
    if a != [] && b != [] {
      StringLeAntisymmetric(a[1..], b[1..]);
      assert a == [a[0]] + a[1..] && b == [b[0]] + b[1..];
    }
  }

  /** What list.sort() leaves: the same entries, in ascending order. */
  ghost predicate IsSortOf(sorted: seq<string>, names: seq<string>) {
    && multiset(sorted) == multiset(names)
    && forall i, k :: 0 <= i < k < |sorted| ==> StringLe(sorted[i], sorted[k])
  }

  lemma {:induction false} SortIsUnique(a: seq<string>, b: seq<string>)
    requires multiset(a) == multiset(b)
    requires forall i, k :: 0 <= i < k < |a| ==> StringLe(a[i], a[k])
    requires forall i, k :: 0 <= i < k < |b| ==> StringLe(b[i], b[k])
    ensures a == b
    decreases |a|
  {
    assert |multiset(a)| == |a| && |multiset(b)| == |b|;
    if a == [] {
    } else {
      SameHead(a, b);
      assert a == [a[0]] + a[1..] && b == [b[0]] + b[1..];
      assert multiset(a[1..]) == multiset(a) - multiset{a[0]};
      assert multiset(b[1..]) == multiset(b) - multiset{b[0]};
      SortIsUnique(a[1..], b[1..]);
    }
  }

  lemma SameHead(a: seq<string>, b: seq<string>)
    requires a != [] && b != [] && multiset(a) == multiset(b)
    requires forall i, k :: 0 <= i < k < |a| ==> StringLe(a[i], a[k])
    requires forall i, k :: 0 <= i < k < |b| ==> StringLe(b[i], b[k])
    ensures a[0] == b[0]
  {
    assert a[0] in multiset(b) && b[0] in multiset(a);
    var i :| 0 <= i < |b| && b[i] == a[0];
    var k :| 0 <= k < |a| && a[k] == b[0];
    if a[0] != b[0] {
      StringLeAntisymmetric(a[0], b[0]);
    }
  }

  /** Same reports in any order: same counts and the same sorted list of names for each verdict. */
  lemma OrderIrrelevant(js: seq<Job>, ks: seq<Job>, v: Verdict, sj: seq<string>, sk: seq<string>)
    requires multiset(js) == multiset(ks)
    requires IsSortOf(sj, Labels(js, v)) && IsSortOf(sk, Labels(ks, v))
    ensures Count(js, v) == Count(ks, v) && sj == sk
  {
    LabelsPermute(js, ks, v);
    assert |multiset(Labels(js, v))| == |multiset(Labels(ks, v))|;
    SortIsUnique(sj, sk);
  }
}
