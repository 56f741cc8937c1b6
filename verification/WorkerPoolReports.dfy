/**
 What the reports of the worker pool say: which jobs SIGINT turns into interrupted ones, what a report
 keeps of its job, and which thread waits for which.
 */
module WorkerPoolReports {
  import opened WorkerPool
  import opened WorkerPoolProperties

  // ----- what an interrupt does to the reports

  /** The job k is not put yet, is queued, or is with a worker that has not tested the exit flag. */
  ghost predicate Untested(s: State, k: nat) {
    k >= s.next || InQueue(s.input, k) > 0 || HeldUntested(s, k)
  }

  /** Every report on the job k says that it was interrupted, or every one that it was not. */
  ghost predicate ReportedAs(js: seq<Job>, k: nat, interrupted: bool) {
    forall i :: 0 <= i < |js| && js[i].id == k ==> js[i].isBreak == interrupted
  }

  lemma {:induction false} NoneQueued(js: seq<Job>, k: nat)
    requires InQueue(js, k) == 0
    ensures forall i :: 0 <= i < |js| ==> js[i].id != k
  {
    if js == [] {
    } else {
      NoneQueued(js[..|js| - 1], k);
    }
  }

  lemma {:induction false} NoneHeld(ws: seq<Worker>, k: nat)
    requires InHands(ws, k) == 0
    ensures forall w :: 0 <= w < |ws| && !ws[w].Idle? ==> ws[w].job.id != k
  {
    if ws == [] {
    } else {
      NoneHeld(ws[1..], k);
      assert forall w :: 0 < w < |ws| ==> ws[w] == ws[1..][w - 1];
    }
  }

  /** The flag is up, and whoever has the job k has yet to test it or has marked the job. */
  ghost predicate WillBreak(s: State, k: nat) {
    && s.threadExit && ReportedAs(s.output, k, true) && ReportedAs(s.collected, k, true)
    && forall w :: 0 <= w < |s.workers| && !s.workers[w].Idle? && s.workers[w].job.id == k ==>
      s.workers[w].Holding? || (s.workers[w].Ready? && s.workers[w].job.isBreak)
  }

  /** The job k is past the test of the flag, and not marked. */
  ghost predicate WillNotBreak(s: State, k: nat) {
    && k < s.next && (forall i :: 0 <= i < |s.input| ==> s.input[i].id != k)
    && ReportedAs(s.output, k, false) && ReportedAs(s.collected, k, false)
    && forall w :: 0 <= w < |s.workers| && !s.workers[w].Idle? && s.workers[w].job.id == k ==>
      !s.workers[w].Holding? && !s.workers[w].job.isBreak
  }

  lemma WillBreakStep(cfg: Config, s: State, a: Action, k: nat)
    requires WellFormed(cfg) && Inv(cfg, s) && Enabled(cfg, s, a) && k < |cfg.jobs| && WillBreak(s, k)
    ensures WillBreak(Apply(cfg, s, a), k)
  {
    if a.Get? || a.Decide? || a.Launch? || a.Finish? || a.Deliver? {
      assert WorkerOk(cfg, s.threadExit, s.workers[a.w]);
    }
  }

  lemma WillNotBreakStep(cfg: Config, s: State, a: Action, k: nat)
    requires WellFormed(cfg) && Inv(cfg, s) && Enabled(cfg, s, a) && k < |cfg.jobs| && WillNotBreak(s, k)
    ensures WillNotBreak(Apply(cfg, s, a), k)
  {
    if a.Get? || a.Decide? || a.Launch? || a.Finish? || a.Deliver? {
      assert WorkerOk(cfg, s.threadExit, s.workers[a.w]);
    }
  }

  lemma {:induction false} WillBreakRun(cfg: Config, s: State, acts: seq<Action>, k: nat, interrupted: bool)
    requires WellFormed(cfg) && Inv(cfg, s) && IsRun(cfg, s, acts) && k < |cfg.jobs|
    requires if interrupted then WillBreak(s, k) else WillNotBreak(s, k)
    ensures ReportedAs(After(cfg, s, acts).output, k, interrupted)
    ensures ReportedAs(After(cfg, s, acts).collected, k, interrupted)
    decreases |acts|
  {
    if acts == [] {
    } else {
      InvStep(cfg, s, acts[0]);
      if interrupted {
        WillBreakStep(cfg, s, acts[0], k);
      } else {
        WillNotBreakStep(cfg, s, acts[0], k);
      }
      WillBreakRun(cfg, Apply(cfg, s, acts[0]), acts[1..], k, interrupted);
    }
  }

  lemma UntestedWillBreak(cfg: Config, s: State, k: nat)
    requires WellFormed(cfg) && Inv(cfg, s) && s.threadExit && k < |cfg.jobs| && Untested(s, k)
    ensures WillBreak(s, k)
  {
    assert Places(s, k) <= 1;
    if HeldUntested(s, k) {
      var w :| 0 <= w < |s.workers| && s.workers[w].Holding? && s.workers[w].job.id == k;
      var ws := s.workers[w := Idle];
      WorkerChanges(cfg, s.workers, w, Idle, k);
      NoneHeld(ws, k);
      assert forall v :: 0 <= v < |ws| && v != w ==> ws[v] == s.workers[v];
    } else {
      NoneHeld(s.workers, k);
    }
    NoneQueued(s.output, k);
    NoneQueued(s.collected, k);
  }

  lemma TestedWillNotBreak(cfg: Config, s: State, k: nat)
    requires WellFormed(cfg) && Inv(cfg, s) && !s.threadExit && k < |cfg.jobs| && !Untested(s, k)
    ensures WillNotBreak(s, k)
  {
    NoneQueued(s.input, k);
    forall i | 0 <= i < |s.output| ensures !s.output[i].isBreak { assert Reported(cfg, false, s.output[i]); }
    forall i | 0 <= i < |s.collected| ensures !s.collected[i].isBreak { assert Reported(cfg, false, s.collected[i]); }
    forall w | 0 <= w < |s.workers| && !s.workers[w].Idle? && s.workers[w].job.id == k
      ensures !s.workers[w].Holding? && !s.workers[w].job.isBreak
    {
      assert WorkerOk(cfg, false, s.workers[w]);
    }
  }

  /** Once the flag is up, a job that is not tested yet is reported as interrupted, even one to be skipped. */
  lemma UntestedIsInterrupted(cfg: Config, s: State, acts: seq<Action>, k: nat)
    requires WellFormed(cfg) && Reachable(cfg, s) && s.threadExit && IsRun(cfg, s, acts)
    requires k < |cfg.jobs| && Untested(s, k)
    ensures ReportedAs(After(cfg, s, acts).output, k, true) && ReportedAs(After(cfg, s, acts).collected, k, true)
  {
    ReachableInv(cfg, s);
    UntestedWillBreak(cfg, s, k);
    WillBreakRun(cfg, s, acts, k, true);
  }

  /** When SIGINT comes the jobs that will be reported as interrupted are exactly those not tested yet. */
  lemma InterruptedIffUntested(cfg: Config, s: State, acts: seq<Action>, k: nat)
    requires WellFormed(cfg) && Reachable(cfg, s) && !s.threadExit && k < |cfg.jobs|
    requires IsRun(cfg, s.(threadExit := true), acts)
    ensures ReportedAs(After(cfg, s.(threadExit := true), acts).output, k, Untested(s, k))
    ensures ReportedAs(After(cfg, s.(threadExit := true), acts).collected, k, Untested(s, k))
  {
    var t := s.(threadExit := true);
    AnyMoment(cfg, s);
    ReachableInv(cfg, s);
    ReachableInv(cfg, t);
    if Untested(s, k) {
      UntestedIsInterrupted(cfg, t, acts, k);
    } else {
      TestedWillNotBreak(cfg, s, k);
      WillBreakRun(cfg, t, acts, k, false);
    }
  }

  /** SIGINT may come in any state, and sets the flag and nothing else. */
  lemma AnyMoment(cfg: Config, s: State)
    requires WellFormed(cfg) && Reachable(cfg, s)
    ensures Reachable(cfg, s.(threadExit := true))
  {
    if s.threadExit {
      assert s.(threadExit := true) == s;
    } else {
      StaysReachable(cfg, s, Interrupt);
    }
  }

  // ----- what a report says

  /** A report is the job as it was dispatched, marked after SIGINT, or with the return code of its run. */
  ghost predicate Faithful(cfg: Config, s: State, j: Job)
    requires WellFormed(cfg)
  {
    && j.id < |cfg.jobs|
    && var job := cfg.jobs[j.id];
      && j.name == job.name && j.isSkip == job.isSkip && j.skipReason == job.skipReason
      && j.isExample == job.isExample && j.xmlPasses == job.xmlPasses
      && (j.isBreak ==> s.threadExit)
      && j.returncode == if j.isBreak || j.isSkip then job.returncode else cfg.codes[j.id]
  }

  lemma ReportsAreFaithful(cfg: Config, s: State)
    requires WellFormed(cfg) && Reachable(cfg, s)
    ensures forall i :: 0 <= i < |s.output| ==> Faithful(cfg, s, s.output[i])
    ensures forall i :: 0 <= i < |s.collected| ==> Faithful(cfg, s, s.collected[i])
  {
    ReachableInv(cfg, s);
    forall i | 0 <= i < |s.output| ensures Faithful(cfg, s, s.output[i]) {
      assert Reported(cfg, s.threadExit, s.output[i]);
    }
    forall i | 0 <= i < |s.collected| ensures Faithful(cfg, s, s.collected[i]) {
      assert Reported(cfg, s.threadExit, s.collected[i]);
    }
  }

  // ----- who waits for whom

  /** Some step of worker w can be taken. */
  ghost predicate WorkerCanMove(cfg: Config, s: State, w: nat) {
    exists a: Action :: Enabled(cfg, s, a) && (a.Get? || a.Decide? || a.Launch? || a.Finish? || a.Deliver?) && a.w == w
  }

  ghost predicate DispatcherCanMove(cfg: Config, s: State) {
    exists a: Action :: Enabled(cfg, s, a) && (a.Put? || a.Collect? || a.Join?)
  }

  /** A worker waits for a job only, and for no other thread, until it has returned. */
  lemma WorkerWaitsForJobs(cfg: Config, s: State, w: nat)
    requires w < |s.workers|
    ensures !WorkerCanMove(cfg, s, w) <==> s.workers[w].Returned? || (s.workers[w].Idle? && s.input == [])
  {
    match s.workers[w]
    case Idle => assert s.input != [] ==> Enabled(cfg, s, Get(w));
    case Holding(_) => assert Enabled(cfg, s, Decide(w));
    case Cleared(_) => assert Enabled(cfg, s, Launch(w));
    case Running(_) => assert Enabled(cfg, s, Finish(w));
    case Ready(_) => assert Enabled(cfg, s, Deliver(w));
    case Returned(_) =>
  }

  /** The dispatcher waits for a report while some are missing, and then for the next thread to return. */
  lemma DispatcherWaits(cfg: Config, s: State)
    requires WellFormed(cfg) && Reachable(cfg, s)
    ensures !DispatcherCanMove(cfg, s) <==>
      && s.next == |cfg.jobs| + cfg.processors
      && if |s.collected| < |cfg.jobs| then s.output == []
         else s.joined >= |s.workers| || !s.workers[s.joined].Returned?
  {
    ReachableInv(cfg, s);
    assert Enabled(cfg, s, Put) || Enabled(cfg, s, Collect) || Enabled(cfg, s, Join)
      <==> DispatcherCanMove(cfg, s);
  }
}
