/**
 The dispatcher, the worker threads and the two FIFO queues of test.py as a transition system.

 The dispatcher puts every job and then one break job per worker on the input queue, collects one
 report per job from the output queue, and finally joins the workers.  Each worker repeats: get a
 job, decide what to do with it, perhaps launch and run it, put it on the output queue.  A SIGINT may
 set the global exit flag at any moment, also between the test of the flag and the launch.
 */
module WorkerPool {

  /**
   A unit of work.  `id` stands for the identity of the Python object, `isExample` for either kind
   of example, and `xmlPasses` for what the result file of a test suite says: PASS or SKIP.
   */
  datatype Job = Job(id: nat, name: string, isBreak: bool, isSkip: bool, skipReason: string,
                     isExample: bool, returncode: int, xmlPasses: bool)

  /**
   What one invocation of test.py starts from: the jobs in dispatch order, the number of worker
   threads, and, for each job, the return code that running it gives.  A job is launched at most
   once (`LaunchedOnce`), so fixing the codes in advance loses no behaviour.
   */
  datatype Config = Config(jobs: seq<Job>, processors: nat, codes: seq<int>)

  ghost predicate WellFormed(cfg: Config) {
    && |cfg.codes| == |cfg.jobs|
    && forall k :: 0 <= k < |cfg.jobs| ==> cfg.jobs[k].id == k && !cfg.jobs[k].isBreak
  }

  /** How many items the dispatcher puts on the input queue. */
  function Puts(cfg: Config): nat {
    |cfg.jobs| + cfg.processors
  }

  /** The k-th item that the dispatcher puts on the input queue. */
  function Item(cfg: Config, k: nat): Job {
    if k < |cfg.jobs| then cfg.jobs[k] else Job(k, "", true, false, "", false, 0, false)
  }

  /** A job after it ran, or after it was skipped. */
  function Result(cfg: Config, k: nat): Job
    requires k < |cfg.jobs| == |cfg.codes|
  {
    if cfg.jobs[k].isSkip then cfg.jobs[k] else cfg.jobs[k].(returncode := cfg.codes[k])
  }

  /**
   Where a worker thread is in its loop.  A worker that is Cleared has seen the exit flag down and goes on
   to launch its job.  A worker that returned keeps the break job that told it to.
   */
  datatype Worker =
    | Idle
    | Holding(job: Job)
    | Cleared(job: Job)
    | Running(job: Job)
    | Ready(job: Job)
    | Returned(job: Job)

  /** `launched` lists the jobs handed to run_job_synchronously, in order. */
  datatype State = State(next: nat, input: seq<Job>, workers: seq<Worker>, output: seq<Job>,
                         collected: seq<Job>, joined: nat, threadExit: bool, launched: seq<nat>)

  datatype Action =
    | Put
    | Get(w: nat)
    | Decide(w: nat)
    | Launch(w: nat)
    | Finish(w: nat)
    | Deliver(w: nat)
    | Collect
    | Join
    | Interrupt

  function Init(cfg: Config): State {
    State(0, [], seq(cfg.processors, _ => Idle), [], [], 0, false, [])
  }

  predicate Done(cfg: Config, s: State) {
    s.next == Puts(cfg) && |s.collected| == |cfg.jobs| && s.joined == cfg.processors
  }

  /** The steps that can be taken; `Queue.get` and `Thread.join` block until theirs can. */
  predicate Enabled(cfg: Config, s: State, a: Action) {
    match a
    case Put => s.next < Puts(cfg)
    case Get(w) => w < |s.workers| && s.workers[w].Idle? && s.input != []
    case Decide(w) => w < |s.workers| && s.workers[w].Holding?
    case Launch(w) => w < |s.workers| && s.workers[w].Cleared?
    case Finish(w) => w < |s.workers| && s.workers[w].Running?
    case Deliver(w) => w < |s.workers| && s.workers[w].Ready?
    case Collect => s.next == Puts(cfg) && |s.collected| < |cfg.jobs| && s.output != []
    case Join =>
      && s.next == Puts(cfg) && |s.collected| == |cfg.jobs|
      && s.joined < |s.workers| && s.workers[s.joined].Returned?
    case Interrupt => !s.threadExit
  }

  function Apply(cfg: Config, s: State, a: Action): State
    requires Enabled(cfg, s, a)
  {
    match a
    case Put => s.(next := s.next + 1, input := s.input + [Item(cfg, s.next)])
    case Get(w) => s.(input := s.input[1..], workers := s.workers[w := Holding(s.input[0])])
    case Decide(w) =>
      var job := s.workers[w].job;
      if job.isBreak then
        s.(workers := s.workers[w := Returned(job)])
      else if s.threadExit then
        s.(workers := s.workers[w := Ready(job.(isBreak := true))])
      else if job.isSkip then
        s.(workers := s.workers[w := Ready(job)])
      else
        s.(workers := s.workers[w := Cleared(job)])
    case Launch(w) =>
      var job := s.workers[w].job;
      s.(workers := s.workers[w := Running(job)], launched := s.launched + [job.id])
    case Finish(w) =>
      var job := s.workers[w].job;
      var code := if job.id < |cfg.codes| then cfg.codes[job.id] else 0;
      s.(workers := s.workers[w := Ready(job.(returncode := code))])
    case Deliver(w) =>
      s.(workers := s.workers[w := Idle], output := s.output + [s.workers[w].job])
    case Collect => s.(output := s.output[1..], collected := s.collected + [s.output[0]])
    case Join => s.(joined := s.joined + 1)
    case Interrupt => s.(threadExit := true)
  }

  /** A run: a sequence of steps, each enabled when it is taken. */
  ghost predicate IsRun(cfg: Config, s: State, acts: seq<Action>)
    decreases |acts|
  {
    acts == [] || (Enabled(cfg, s, acts[0]) && IsRun(cfg, Apply(cfg, s, acts[0]), acts[1..]))
  }

  ghost function After(cfg: Config, s: State, acts: seq<Action>): State
    requires IsRun(cfg, s, acts)
    decreases |acts|
  {
    if acts == [] then s else After(cfg, Apply(cfg, s, acts[0]), acts[1..])
  }

  // ----- where the jobs are

  /** How often a queue holds the job k. */
  ghost function InQueue(js: seq<Job>, k: nat): nat {
    if js == [] then 0 else InQueue(js[..|js| - 1], k) + (if js[|js| - 1].id == k then 1 else 0)
  }

  ghost function InHand(w: Worker, k: nat): nat {
    if !w.Idle? && w.job.id == k then 1 else 0
  }

  /** How often the workers hold the job k. */
  ghost function InHands(ws: seq<Worker>, k: nat): nat {
    if ws == [] then 0 else InHand(ws[0], k) + InHands(ws[1..], k)
  }

  /** In how many places the job k is. */
  ghost function Places(s: State, k: nat): nat {
    InQueue(s.input, k) + InHands(s.workers, k) + InQueue(s.output, k) + InQueue(s.collected, k)
  }

  // ----- which jobs ran

  /** A report that a run of the job stands behind: neither interrupted nor skipped. */
  ghost predicate Ran(j: Job) {
    !j.isBreak && !j.isSkip
  }

  ghost function RanInQueue(js: seq<Job>, k: nat): nat {
    if js == [] then 0
    else RanInQueue(js[..|js| - 1], k) + (if js[|js| - 1].id == k && Ran(js[|js| - 1]) then 1 else 0)
  }

  ghost function RanInHand(w: Worker, k: nat): nat {
    if (w.Running? || (w.Ready? && Ran(w.job))) && w.job.id == k then 1 else 0
  }

  ghost function RanInHands(ws: seq<Worker>, k: nat): nat {
    if ws == [] then 0 else RanInHand(ws[0], k) + RanInHands(ws[1..], k)
  }

  /** The number of places in which the job k is and has been run or is running. */
  ghost function RanPlaces(s: State, k: nat): nat {
    RanInHands(s.workers, k) + RanInQueue(s.output, k) + RanInQueue(s.collected, k)
  }

  /** How often the job k was launched. */
  ghost function Launches(launched: seq<nat>, k: nat): nat {
    if launched == [] then 0
    else Launches(launched[..|launched| - 1], k) + (if launched[|launched| - 1] == k then 1 else 0)
  }

  // ----- who has been told to stop

  ghost predicate HasBreak(cfg: Config, w: Worker) {
    !w.Idle? && w.job.id >= |cfg.jobs|
  }

  ghost function BreaksHeld(cfg: Config, ws: seq<Worker>): nat {
    if ws == [] then 0 else (if HasBreak(cfg, ws[0]) then 1 else 0) + BreaksHeld(cfg, ws[1..])
  }

  // ----- the invariant of every run

  /** How many items the workers have taken off the input queue. */
  ghost function Taken(s: State): int {
    s.next - |s.input|
  }

  /** A job that a worker is through with: its result, or interrupted. */
  ghost predicate Reported(cfg: Config, exited: bool, j: Job)
    requires WellFormed(cfg)
  {
    && j.id < |cfg.jobs|
    && (j == Result(cfg, j.id) || (exited && j == cfg.jobs[j.id].(isBreak := true)))
  }

  ghost predicate WorkerOk(cfg: Config, exited: bool, w: Worker)
    requires WellFormed(cfg)
  {
    match w
    case Idle => true
    case Holding(j) => j == Item(cfg, j.id)
    case Cleared(j) => j.id < |cfg.jobs| && j == cfg.jobs[j.id] && Ran(j)
    case Running(j) => j.id < |cfg.jobs| && j == cfg.jobs[j.id] && Ran(j)
    case Ready(j) => Reported(cfg, exited, j)
    case Returned(j) => j == Item(cfg, j.id) && j.id >= |cfg.jobs|
  }

  /** The input queue is exactly the part of the dispatch order that has been put and not yet taken. */
  ghost predicate InputInOrder(cfg: Config, s: State) {
    && |s.input| <= s.next <= Puts(cfg)
    && forall i :: 0 <= i < |s.input| ==> s.input[i] == Item(cfg, Taken(s) + i)
  }

  ghost predicate WorkersOk(cfg: Config, s: State)
    requires WellFormed(cfg)
  {
    && |s.workers| == cfg.processors
    && forall w :: 0 <= w < |s.workers| ==> WorkerOk(cfg, s.threadExit, s.workers[w])
  }

  ghost predicate ReportsOk(cfg: Config, s: State)
    requires WellFormed(cfg)
  {
    && (forall i :: 0 <= i < |s.output| ==> Reported(cfg, s.threadExit, s.output[i]))
    && (forall i :: 0 <= i < |s.collected| ==> Reported(cfg, s.threadExit, s.collected[i]))
  }

  /** The dispatcher puts first, then collects, then joins workers that have returned. */
  ghost predicate DispatcherOk(cfg: Config, s: State) {
    && |s.collected| <= |cfg.jobs|
    && s.joined <= |s.workers|
    && (s.collected != [] ==> s.next == Puts(cfg))
    && (s.joined > 0 ==> s.next == Puts(cfg) && |s.collected| == |cfg.jobs|)
    && (forall w :: 0 <= w < s.joined ==> s.workers[w].Returned?)
  }

  /** Each job that was dispatched is in one place, and no other job is anywhere. */
  ghost predicate Conserved(s: State) {
    forall k: nat :: Places(s, k) == if k < s.next then 1 else 0
  }

  ghost predicate LaunchesMatch(s: State) {
    forall k: nat :: Launches(s.launched, k) == RanPlaces(s, k)
  }

  ghost predicate BreaksMatch(cfg: Config, s: State) {
    BreaksHeld(cfg, s.workers) == if Taken(s) <= |cfg.jobs| then 0 else Taken(s) - |cfg.jobs|
  }

  ghost predicate Inv(cfg: Config, s: State)
    requires WellFormed(cfg)
  {
    && InputInOrder(cfg, s) && WorkersOk(cfg, s) && ReportsOk(cfg, s) && DispatcherOk(cfg, s)
    && Conserved(s) && LaunchesMatch(s) && BreaksMatch(cfg, s)
  }

  // ----- one worker changes, one queue changes

  lemma {:induction false} WorkerChanges(cfg: Config, ws: seq<Worker>, i: nat, w: Worker, k: nat)
    requires i < |ws|
    ensures InHands(ws[i := w], k) == InHands(ws, k) - InHand(ws[i], k) + InHand(w, k)
    ensures RanInHands(ws[i := w], k) == RanInHands(ws, k) - RanInHand(ws[i], k) + RanInHand(w, k)
    ensures BreaksHeld(cfg, ws[i := w]) ==
      BreaksHeld(cfg, ws) - (if HasBreak(cfg, ws[i]) then 1 else 0) + (if HasBreak(cfg, w) then 1 else 0)
  {
    if i == 0 {
      assert ws[i := w][1..] == ws[1..];
    } else {
      WorkerChanges(cfg, ws[1..], i - 1, w, k);
      assert ws[i := w][1..] == ws[1..][i - 1 := w];
    }
  }

  lemma QueueAppend(js: seq<Job>, j: Job, k: nat)
    ensures InQueue(js + [j], k) == InQueue(js, k) + (if j.id == k then 1 else 0)
    ensures RanInQueue(js + [j], k) == RanInQueue(js, k) + (if j.id == k && Ran(j) then 1 else 0)
  {
    assert (js + [j])[..|js|] == js;
  }

  lemma {:induction false} QueueDropFirst(js: seq<Job>, k: nat)
    requires js != []
    ensures InQueue(js, k) == InQueue(js[1..], k) + (if js[0].id == k then 1 else 0)
    ensures RanInQueue(js, k) == RanInQueue(js[1..], k) + (if js[0].id == k && Ran(js[0]) then 1 else 0)
  {
    var n := |js| - 1;
    if n == 0 {
    } else {
      QueueDropFirst(js[..n], k);
      assert js[..n][1..] == js[1..][..n - 1];
    }
  }

  // ----- conservation, step by step

  /** While a worker deals with a job it keeps it. */
  lemma StaysInHand(cfg: Config, s: State, a: Action, k: nat)
    requires Enabled(cfg, s, a) && (a.Decide? || a.Launch? || a.Finish?)
    ensures Places(Apply(cfg, s, a), k) == Places(s, k)
  {
    var t := Apply(cfg, s, a);
    WorkerChanges(cfg, s.workers, a.w, t.workers[a.w], k);
    assert t.workers == s.workers[a.w := t.workers[a.w]] && InHand(t.workers[a.w], k) == InHand(s.workers[a.w], k);
  }

  lemma FromQueueToHand(cfg: Config, s: State, a: Action, k: nat)
    requires Enabled(cfg, s, a) && (a.Get? || a.Deliver?)
    ensures Places(Apply(cfg, s, a), k) == Places(s, k)
  {
    var t := Apply(cfg, s, a);
    WorkerChanges(cfg, s.workers, a.w, t.workers[a.w], k);
    if a.Get? {
      QueueDropFirst(s.input, k);
    } else {
      QueueAppend(s.output, s.workers[a.w].job, k);
    }
  }

  /** A step moves jobs between places; only Put adds one, and none loses one. */
  lemma PlacesStep(cfg: Config, s: State, a: Action, k: nat)
    requires WellFormed(cfg) && Enabled(cfg, s, a)
    ensures Places(Apply(cfg, s, a), k) == Places(s, k) + (if a.Put? && k == s.next then 1 else 0)
  {
    match a
    case Put => QueueAppend(s.input, Item(cfg, s.next), k);
    case Get(_) => FromQueueToHand(cfg, s, a, k);
    case Decide(_) => StaysInHand(cfg, s, a, k);
    case Launch(_) => StaysInHand(cfg, s, a, k);
    case Finish(_) => StaysInHand(cfg, s, a, k);
    case Deliver(_) => FromQueueToHand(cfg, s, a, k);
    case Collect => QueueDropFirst(s.output, k); QueueAppend(s.collected, s.output[0], k);
    case Join =>
    case Interrupt =>
  }

  lemma RanInThisHand(cfg: Config, s: State, a: Action, k: nat)
    requires WellFormed(cfg) && WorkersOk(cfg, s) && Enabled(cfg, s, a)
    requires a.Get? || a.Decide? || a.Launch? || a.Finish?
    ensures RanInHand(Apply(cfg, s, a).workers[a.w], k)
         == RanInHand(s.workers[a.w], k) + (if a.Launch? && s.workers[a.w].job.id == k then 1 else 0)
  {
    assert WorkerOk(cfg, s.threadExit, s.workers[a.w]);
  }

  /** A launch is recorded exactly when a job starts to run, and the record stays with the job. */
  lemma LaunchesStep(cfg: Config, s: State, a: Action, k: nat)
    requires WellFormed(cfg) && WorkersOk(cfg, s) && Enabled(cfg, s, a)
    ensures var t := Apply(cfg, s, a);
      Launches(t.launched, k) - RanPlaces(t, k) == Launches(s.launched, k) - RanPlaces(s, k)
  {
    if a.Get? || a.Decide? || a.Launch? || a.Finish? {
      LaunchesInHand(cfg, s, a, k);
    } else if a.Deliver? {
      QueueAppend(s.output, s.workers[a.w].job, k);
      WorkerChanges(cfg, s.workers, a.w, Idle, k);
    } else if a.Collect? {
      QueueDropFirst(s.output, k);
      QueueAppend(s.collected, s.output[0], k);
    }
  }

  lemma LaunchesInHand(cfg: Config, s: State, a: Action, k: nat)
    requires WellFormed(cfg) && WorkersOk(cfg, s) && Enabled(cfg, s, a)
    requires a.Get? || a.Decide? || a.Launch? || a.Finish?
    ensures var t := Apply(cfg, s, a);
      Launches(t.launched, k) - RanPlaces(t, k) == Launches(s.launched, k) - RanPlaces(s, k)
  {
    var t := Apply(cfg, s, a);
    RanInThisHand(cfg, s, a, k);
    WorkerChanges(cfg, s.workers, a.w, t.workers[a.w], k);
    assert t.workers == s.workers[a.w := t.workers[a.w]] && t.output == s.output && t.collected == s.collected;
    assert a.Launch? ==> t.launched[..|s.launched|] == s.launched;
  }

  lemma BreaksStep(cfg: Config, s: State, a: Action)
    requires WellFormed(cfg) && InputInOrder(cfg, s) && WorkersOk(cfg, s) && BreaksMatch(cfg, s) && Enabled(cfg, s, a)
    ensures BreaksMatch(cfg, Apply(cfg, s, a))
  {
    var t := Apply(cfg, s, a);
    if a.Get? || a.Decide? || a.Launch? || a.Finish? || a.Deliver? {
      assert WorkerOk(cfg, s.threadExit, s.workers[a.w]);
      WorkerChanges(cfg, s.workers, a.w, t.workers[a.w], 0);
      assert t.workers == s.workers[a.w := t.workers[a.w]];
    }
  }

  lemma InputStep(cfg: Config, s: State, a: Action)
    requires WellFormed(cfg) && InputInOrder(cfg, s) && Enabled(cfg, s, a)
    ensures InputInOrder(cfg, Apply(cfg, s, a))
  {}

  lemma WorkersStep(cfg: Config, s: State, a: Action)
    requires WellFormed(cfg) && InputInOrder(cfg, s) && WorkersOk(cfg, s) && Enabled(cfg, s, a)
    ensures WorkersOk(cfg, Apply(cfg, s, a))
  {
    if a.Get? || a.Decide? || a.Launch? || a.Finish? || a.Deliver? {
      assert WorkerOk(cfg, s.threadExit, s.workers[a.w]);
    }
  }

  lemma ReportsStep(cfg: Config, s: State, a: Action)
    requires WellFormed(cfg) && WorkersOk(cfg, s) && ReportsOk(cfg, s) && Enabled(cfg, s, a)
    ensures ReportsOk(cfg, Apply(cfg, s, a))
  {
    if a.Deliver? {
      assert WorkerOk(cfg, s.threadExit, s.workers[a.w]);
    }
  }

  lemma DispatcherStep(cfg: Config, s: State, a: Action)
    requires WellFormed(cfg) && DispatcherOk(cfg, s) && Enabled(cfg, s, a)
    ensures DispatcherOk(cfg, Apply(cfg, s, a))
  {}

  // ----- the invariant holds at the start and is kept by every step

  lemma {:induction false} AllIdle(cfg: Config, ws: seq<Worker>, k: nat)
    requires forall i :: 0 <= i < |ws| ==> ws[i].Idle?
    ensures InHands(ws, k) == 0 && RanInHands(ws, k) == 0 && BreaksHeld(cfg, ws) == 0
  {
    if ws == [] {
    } else {
      AllIdle(cfg, ws[1..], k);
    }
  }

  lemma InvInit(cfg: Config)
    requires WellFormed(cfg)
    ensures Inv(cfg, Init(cfg))
  {
    forall k: nat
      ensures Places(Init(cfg), k) == 0 && RanPlaces(Init(cfg), k) == 0 && BreaksHeld(cfg, Init(cfg).workers) == 0
    {
      AllIdle(cfg, Init(cfg).workers, k);
    }
    assert BreaksHeld(cfg, Init(cfg).workers) == 0 by { AllIdle(cfg, Init(cfg).workers, 0); }
  }

  /** Every step of the dispatcher, of a worker or of the signal handler keeps the invariant. */
  lemma InvStep(cfg: Config, s: State, a: Action)
    requires WellFormed(cfg) && Inv(cfg, s) && Enabled(cfg, s, a)
    ensures Inv(cfg, Apply(cfg, s, a))
  {
    var t := Apply(cfg, s, a);
    assert Conserved(t) by {
      forall k: nat ensures Places(t, k) == if k < t.next then 1 else 0 { PlacesStep(cfg, s, a, k); }
    }
    assert LaunchesMatch(t) by {
      forall k: nat ensures Launches(t.launched, k) == RanPlaces(t, k) { LaunchesStep(cfg, s, a, k); }
    }
    BreaksStep(cfg, s, a);
    InputStep(cfg, s, a);
    WorkersStep(cfg, s, a);
    ReportsStep(cfg, s, a);
    DispatcherStep(cfg, s, a);
  }

  lemma {:induction false} InvRun(cfg: Config, s: State, acts: seq<Action>)
    requires WellFormed(cfg) && Inv(cfg, s) && IsRun(cfg, s, acts)
    ensures Inv(cfg, After(cfg, s, acts))
    decreases |acts|
  {
    if acts == [] {
    } else {
      InvStep(cfg, s, acts[0]);
      InvRun(cfg, Apply(cfg, s, acts[0]), acts[1..]);
    }
  }

  /** The states that some interleaving of the threads, interrupted at any moment or never, leads to. */
  ghost predicate Reachable(cfg: Config, s: State) {
    exists acts :: IsRun(cfg, Init(cfg), acts) && After(cfg, Init(cfg), acts) == s
  }

  lemma ReachableInv(cfg: Config, s: State)
    requires WellFormed(cfg) && Reachable(cfg, s)
    ensures Inv(cfg, s)
  {
    var acts :| IsRun(cfg, Init(cfg), acts) && After(cfg, Init(cfg), acts) == s;
    InvInit(cfg);
    InvRun(cfg, Init(cfg), acts);
  }
}
