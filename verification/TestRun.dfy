/**
 The queues, threads and collecting loop of run_tests in test.py as a mutable object.  Each method
 is one atomic action of a thread and is proved to be a step of the transition system; `RunTests`
 lets the threads take steps in any order and is proved to end.
 */
module TestRuns {
  import opened WorkerPool
  import opened WorkerPoolProperties
  import opened WorkerPoolReports
  import opened TestResults

  // ----- one run against another

  /** The reports of an undisturbed run, in dispatch order. */
  ghost function Expected(cfg: Config, n: nat): seq<Job>
    requires WellFormed(cfg) && n <= |cfg.jobs|
  {
    if n == 0 then [] else Expected(cfg, n - 1) + [Result(cfg, n - 1)]
  }

  lemma {:induction false} ExpectedOnce(cfg: Config, n: nat, k: nat)
    requires WellFormed(cfg) && n <= |cfg.jobs|
    ensures InQueue(Expected(cfg, n), k) == if k < n then 1 else 0
    ensures forall i :: 0 <= i < |Expected(cfg, n)| ==> Reported(cfg, false, Expected(cfg, n)[i])
  {
    if n == 0 {
    } else {
      ExpectedOnce(cfg, n - 1, k);
      QueueAppend(Expected(cfg, n - 1), Result(cfg, n - 1), k);
    }
  }

  /** Among undisturbed reports the id determines the report, so counting ids counts reports. */
  lemma {:induction false} CountById(cfg: Config, js: seq<Job>, j: Job)
    requires WellFormed(cfg) && forall i :: 0 <= i < |js| ==> Reported(cfg, false, js[i])
    ensures multiset(js)[j] == if Reported(cfg, false, j) then InQueue(js, j.id) else 0
  {
    if js == [] {
    } else {
      var n := |js| - 1;
      assert js == js[..n] + [js[n]];
      CountById(cfg, js[..n], j);
    }
  }

  /** However the threads are scheduled, an uninterrupted run collects the expected reports. */
  lemma CollectsExpected(cfg: Config, s: State)
    requires WellFormed(cfg) && Reachable(cfg, s) && Done(cfg, s) && !s.threadExit
    ensures multiset(s.collected) == multiset(Expected(cfg, |cfg.jobs|))
  {
    DoneMeansCollected(cfg, s);
    var js := Expected(cfg, |cfg.jobs|);
    forall j: Job ensures multiset(s.collected)[j] == multiset(js)[j] {
      ExpectedOnce(cfg, |cfg.jobs|, j.id);
      CountById(cfg, s.collected, j);
      CountById(cfg, js, j);
    }
  }

  /** Two complete uninterrupted runs report the same counts and the same sorted name lists. */
  lemma ScheduleIndependence(cfg: Config, s: State, t: State, v: Verdict, ss: seq<string>, ts: seq<string>)
    requires WellFormed(cfg) && Reachable(cfg, s) && Reachable(cfg, t)
    requires Done(cfg, s) && Done(cfg, t) && !s.threadExit && !t.threadExit
    requires IsSortOf(ss, Labels(s.collected, v)) && IsSortOf(ts, Labels(t.collected, v))
    ensures Count(s.collected, v) == Count(t.collected, v) && ss == ts
  {
    CollectsExpected(cfg, s);
    CollectsExpected(cfg, t);
    OrderIrrelevant(s.collected, t.collected, v, ss, ts);
  }

  /** Interrupted or not, a complete run counts every dispatched job under one verdict. */
  lemma CompleteAccounting(cfg: Config, s: State)
    requires WellFormed(cfg) && Reachable(cfg, s) && Done(cfg, s)
    ensures Count(s.collected, Pass) + Count(s.collected, Skip) + Count(s.collected, Fail)
         + Count(s.collected, Crash) + Count(s.collected, Valgrind) + Count(s.collected, Interrupted) == |cfg.jobs|
    ensures !s.threadExit ==> Count(s.collected, Interrupted) == 0
  {
    VerdictsPartition(s.collected);
    DoneMeansCollected(cfg, s);
    if !s.threadExit {
      NoneInterrupted(cfg, s.collected);
    }
  }

  lemma {:induction false} NoneInterrupted(cfg: Config, js: seq<Job>)
    requires WellFormed(cfg) && forall i :: 0 <= i < |js| ==> Reported(cfg, false, js[i])
    ensures Count(js, Interrupted) == 0
  {
    if js == [] {
    } else {
      NoneInterrupted(cfg, js[..|js| - 1]);
      assert Reported(cfg, false, js[|js| - 1]);
    }
  }

  /** All collected reports are good exactly when each job was skipped, or ran undisturbed and returned 0. */
  lemma GoodReports(cfg: Config, s: State)
    requires WellFormed(cfg) && Reachable(cfg, s) && Done(cfg, s)
    ensures (forall i :: 0 <= i < |s.collected| ==> VerdictOf(s.collected[i]) == Pass || VerdictOf(s.collected[i]) == Skip)
       <==> forall k :: 0 <= k < |cfg.jobs| ==> (cfg.jobs[k].isSkip || cfg.codes[k] == 0) && Result(cfg, k) in s.collected
  {
    DoneMeansCollected(cfg, s);
    var js := s.collected;
    if forall i :: 0 <= i < |js| ==> VerdictOf(js[i]) == Pass || VerdictOf(js[i]) == Skip {
      forall k | 0 <= k < |cfg.jobs| ensures (cfg.jobs[k].isSkip || cfg.codes[k] == 0) && Result(cfg, k) in js {
        var i := PositionOf(js, k);
        assert Reported(cfg, s.threadExit, js[i]);
      }
    }
    if forall k :: 0 <= k < |cfg.jobs| ==> (cfg.jobs[k].isSkip || cfg.codes[k] == 0) && Result(cfg, k) in js {
      forall i | 0 <= i < |js| ensures VerdictOf(js[i]) == Pass || VerdictOf(js[i]) == Skip {
        assert Reported(cfg, s.threadExit, js[i]);
        var k := js[i].id;
        assert Result(cfg, k) in js;
        var m :| 0 <= m < |js| && js[m] == Result(cfg, k);
        if m != i {
          TwoPlaces(js, i, m);
          assert false;
        }
      }
    }
  }

  /** A run in which SIGINT comes while some job is not tested yet cannot be a success. */
  lemma InterruptedRunFails(cfg: Config, s: State, acts: seq<Action>, k: nat)
    requires WellFormed(cfg) && Reachable(cfg, s) && s.threadExit && IsRun(cfg, s, acts)
    requires k < |cfg.jobs| && Untested(s, k) && Done(cfg, After(cfg, s, acts))
    ensures SomeInterrupted(After(cfg, s, acts).collected)
    ensures Count(After(cfg, s, acts).collected, Pass) + Count(After(cfg, s, acts).collected, Skip) < |cfg.jobs|
  {
    var js := After(cfg, s, acts).collected;
    UntestedIsInterrupted(cfg, s, acts, k);
    RunReachable(cfg, s, acts);
    DoneMeansCollected(cfg, After(cfg, s, acts));
    var i := PositionOf(js, k);
    assert js[i].isBreak;
    InterruptedIsNotGood(js);
  }

  lemma PositionOf(js: seq<Job>, k: nat) returns (i: nat)
    requires InQueue(js, k) == 1
    ensures i < |js| && js[i].id == k
  {
    if forall i :: 0 <= i < |js| ==> js[i].id != k {
      NotInQueue(js, k);
      assert false;
    }
    i :| i < |js| && js[i].id == k;
  }

  lemma {:induction false} TwoPlaces(js: seq<Job>, i: nat, m: nat)
    requires i < |js| && m < |js| && i != m && js[i].id == js[m].id
    ensures InQueue(js, js[i].id) >= 2
  {
    var n := |js| - 1;
    if i < n && m < n {
      TwoPlaces(js[..n], i, m);
    } else {
      var o := if i == n then m else i;
      if InQueue(js[..n], js[i].id) == 0 {
        OnePlaceAtLeast(js[..n], o);
      }
    }
  }

  lemma {:induction false} OnePlaceAtLeast(js: seq<Job>, i: nat)
    requires i < |js|
    ensures InQueue(js, js[i].id) >= 1
  {
    var n := |js| - 1;
    if i < n {
      OnePlaceAtLeast(js[..n], i);
    }
  }

  // ----- the threads

  class TestRun {
    const cfg: Config
    const results: Collector
    var next: nat
    var input: seq<Job>
    var workers: seq<Worker>
    var output: seq<Job>
    var collected: seq<Job>
    var joined: nat
    var threadExit: bool
    var launched: seq<nat>

    ghost function St(): State
      reads this
    {
      State(next, input, workers, output, collected, joined, threadExit, launched)
    }

    ghost predicate Valid()
      reads this, results
    {
      && WellFormed(cfg) && Reachable(cfg, St())
      && results.Valid() && results.seen == collected
    }

    ghost predicate Can(a: Action)
      reads this
    {
      Enabled(cfg, St(), a)
    }

    constructor (cfg: Config)
      requires WellFormed(cfg)
      ensures Valid() && this.cfg == cfg && St() == Init(cfg) && fresh(results)
    {
      this.cfg := cfg;
      results := new Collector();
      next, input, workers, output := 0, [], seq(cfg.processors, _ => Idle), [];
      collected, joined, threadExit, launched := [], 0, false, [];
      new;
      StartReachable(cfg);
    }

    /** The dispatcher puts the next real job or, after those, a break job for one of the workers. */
    method PutNext()
      requires Valid() && Can(Put)
      modifies this
      ensures Valid() && St() == Apply(cfg, old(St()), Put)
    {
      StaysReachable(cfg, St(), Put);
      if next < |cfg.jobs| {
        input := input + [cfg.jobs[next]];
      } else {
        input := input + [Job(next, "", true, false, "", false, 0, false)];
      }
      next := next + 1;
    }

    /** input_queue.get() in worker w. */
    method WorkerGet(w: nat)
      requires Valid() && Can(Get(w))
      modifies this
      ensures Valid() && St() == Apply(cfg, old(St()), Get(w))
    {
      StaysReachable(cfg, St(), Get(w));
      var job := input[0];
      input := input[1..];
      workers := workers[w := Holding(job)];
    }

    /** What the loop body of worker w does with the job: stop, hand back, or go on to launch it. */
    method WorkerDecide(w: nat)
      requires Valid() && Can(Decide(w))
      modifies this
      ensures Valid() && St() == Apply(cfg, old(St()), Decide(w))
    {
      StaysReachable(cfg, St(), Decide(w));
      var job := workers[w].job;
      if job.isBreak {
        workers := workers[w := Returned(job)];
        return;
      }
      if threadExit {
        job := job.(isBreak := true);
        workers := workers[w := Ready(job)];
      } else if job.isSkip {
        workers := workers[w := Ready(job)];
      } else {
        workers := workers[w := Cleared(job)];
      }
    }

    /** Worker w calls run_job_synchronously, whatever has become of the flag since it was tested. */
    method WorkerLaunch(w: nat)
      requires Valid() && Can(Launch(w))
      modifies this
      ensures Valid() && St() == Apply(cfg, old(St()), Launch(w))
    {
      StaysReachable(cfg, St(), Launch(w));
      var job := workers[w].job;
      launched := launched + [job.id];
      workers := workers[w := Running(job)];
    }

    /** run_job_synchronously returns in worker w. */
    method WorkerFinish(w: nat)
      requires Valid() && Can(Finish(w))
      modifies this
      ensures Valid() && St() == Apply(cfg, old(St()), Finish(w))
    {
      StaysReachable(cfg, St(), Finish(w));
      var job := workers[w].job;
      assert WorkerOk(cfg, threadExit, workers[w]);
      job := job.(returncode := cfg.codes[job.id]);
      workers := workers[w := Ready(job)];
    }

    /** output_queue.put(job) in worker w. */
    method WorkerPut(w: nat)
      requires Valid() && Can(Deliver(w))
      modifies this
      ensures Valid() && St() == Apply(cfg, old(St()), Deliver(w))
    {
      StaysReachable(cfg, St(), Deliver(w));
      output := output + [workers[w].job];
      workers := workers[w := Idle];
    }

    /** One turn of the dispatcher's collecting loop. */
    method CollectOne()
      requires Valid() && Can(Collect)
      modifies this, results
      ensures Valid() && St() == Apply(cfg, old(St()), Collect)
    {
      StaysReachable(cfg, St(), Collect);
      var job := output[0];
      output := output[1..];
      collected := collected + [job];
      results.Record(job);
    }

    /** thread.join() for the next worker. */
    method JoinOne()
      requires Valid() && Can(Join)
      modifies this
      ensures Valid() && St() == Apply(cfg, old(St()), Join)
    {
      StaysReachable(cfg, St(), Join);
      joined := joined + 1;
    }

    /** sigint_hook. */
    method Sigint()
      requires Valid() && Can(Interrupt)
      modifies this
      ensures Valid() && St() == Apply(cfg, old(St()), Interrupt)
    {
      StaysReachable(cfg, St(), Interrupt);
      threadExit := true;
    }

    /** One step of some thread: any step that is enabled may be the one, SIGINT included. */
    method StepAny()
      requires Valid() && !Done(cfg, St())
      requires cfg.processors >= 1 || cfg.jobs == []
      modifies this, results
      ensures Valid() && exists a :: Enabled(cfg, old(St()), a) && St() == Apply(cfg, old(St()), a)
    {
      SomethingCanMove();
      if {
        case next < |cfg.jobs| + cfg.processors =>
          PutNext();
        case w: nat :| w < |workers| && workers[w].Idle? && input != [] =>
          WorkerGet(w);
        case w: nat :| w < |workers| && workers[w].Holding? =>
          WorkerDecide(w);
        case w: nat :| w < |workers| && workers[w].Cleared? =>
          WorkerLaunch(w);
        case w: nat :| w < |workers| && workers[w].Running? =>
          WorkerFinish(w);
        case w: nat :| w < |workers| && workers[w].Ready? =>
          WorkerPut(w);
        case next == |cfg.jobs| + cfg.processors && |collected| < |cfg.jobs| && output != [] =>
          CollectOne();
        case && next == |cfg.jobs| + cfg.processors && |collected| == |cfg.jobs|
             && joined < |workers| && workers[joined].Returned? =>
          JoinOne();
        case !threadExit =>
          Sigint();
      }
    }

    /** All threads to the end; the contract holds for every interleaving. */
    method RunTests() returns (status: int)
      requires Valid() && St() == Init(cfg)
      requires cfg.processors >= 1 || cfg.jobs == []
      modifies this, results
      ensures Valid() && Done(cfg, St())
      ensures status == 0 || status == 1
      ensures status == 0 <==>
        forall k :: 0 <= k < |cfg.jobs| ==> (cfg.jobs[k].isSkip || cfg.codes[k] == 0) && Result(cfg, k) in collected
      ensures SomeInterrupted(collected) ==> status == 1
      ensures !threadExit ==> multiset(collected) == multiset(Expected(cfg, |cfg.jobs|))
    {
      while !(next == |cfg.jobs| + cfg.processors && |collected| == |cfg.jobs| && joined == cfg.processors)
        invariant Valid()
        decreases StepsLeft(cfg, St())
      {
        ghost var s := St();
        StepAny();
        ghost var a :| Enabled(cfg, s, a) && St() == Apply(cfg, s, a);
        StaysReachable(cfg, s, a);
      }
      GoodReports(cfg, St());
      if !threadExit {
        CollectsExpected(cfg, St());
      }
      status := results.ExitStatus(|cfg.jobs|);
    }

    lemma SomethingCanMove()
      requires Valid() && !Done(cfg, St())
      requires cfg.processors >= 1 || cfg.jobs == []
      ensures exists a: Action :: Can(a) && !a.Interrupt?
    {
      ReachableInv(cfg, St());
      var a := NextStep(cfg, St());
    }
  }
}
