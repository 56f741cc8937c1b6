/**
 What every interleaving of the dispatcher, the workers and the signal handler guarantees: safety
 in each reachable state, termination of every run, and the exact condition under which no thread
 waits for ever.
 */
module WorkerPoolProperties {
  import opened WorkerPool

  // ----- safety

  /** Each dispatched job, real or break, is in exactly one place; a job not yet dispatched is in none. */
  lemma OnePlace(cfg: Config, s: State, k: nat)
    requires WellFormed(cfg) && Reachable(cfg, s)
    ensures Places(s, k) == if k < s.next then 1 else 0
  {
    ReachableInv(cfg, s);
  }

  /** Break jobs are held by none of the workers, by some, or by all of them. */
  lemma {:induction false} BreaksHeldRange(cfg: Config, ws: seq<Worker>)
    ensures BreaksHeld(cfg, ws) <= |ws|
    ensures BreaksHeld(cfg, ws) == |ws| <==> forall i :: 0 <= i < |ws| ==> HasBreak(cfg, ws[i])
    ensures BreaksHeld(cfg, ws) == 0 <==> forall i :: 0 <= i < |ws| ==> !HasBreak(cfg, ws[i])
  {
    if ws == [] {
    } else {
      BreaksHeldRange(cfg, ws[1..]);
      assert forall i :: 0 < i < |ws| ==> ws[i] == ws[1..][i - 1];
      assert forall i :: 0 <= i < |ws| - 1 ==> ws[1..][i] == ws[i + 1];
    }
  }

  /** A worker meets its break job only when every real job has been put and has left the input queue. */
  lemma StopsOnlyWhenDrained(cfg: Config, s: State, w: nat)
    requires WellFormed(cfg) && Reachable(cfg, s)
    requires w < |s.workers| && !s.workers[w].Idle? && s.workers[w].job.id >= |cfg.jobs|
    ensures s.next > |cfg.jobs|
    ensures forall i :: 0 <= i < |s.input| ==> s.input[i].isBreak
  {
    ReachableInv(cfg, s);
    BreaksHeldRange(cfg, s.workers);
    assert HasBreak(cfg, s.workers[w]);
  }

  lemma {:induction false} InSomeHand(ws: seq<Worker>, w: nat)
    requires w < |ws| && !ws[w].Idle?
    ensures InHands(ws, ws[w].job.id) > 0
  {
    if w == 0 {
    } else {
      InSomeHand(ws[1..], w - 1);
    }
  }

  /** `run` returns only on a break job of the dispatcher, never on a real one. */
  lemma ReturnsOnlyOnBreak(cfg: Config, s: State, w: nat)
    requires WellFormed(cfg) && Reachable(cfg, s)
    requires w < |s.workers| && s.workers[w].Returned?
    ensures var job := s.workers[w].job;
      |cfg.jobs| <= job.id < s.next && job == Item(cfg, job.id) && job.isBreak
    ensures forall i :: 0 <= i < |s.input| ==> s.input[i].id >= |cfg.jobs|
  {
    ReachableInv(cfg, s);
    assert WorkerOk(cfg, s.threadExit, s.workers[w]);
    StopsOnlyWhenDrained(cfg, s, w);
    InSomeHand(s.workers, w);
    assert Places(s, s.workers[w].job.id) > 0;
  }

  lemma {:induction false} RanIsInQueue(cfg: Config, exited: bool, js: seq<Job>, k: nat)
    requires WellFormed(cfg) && forall i :: 0 <= i < |js| ==> Reported(cfg, exited, js[i])
    ensures RanInQueue(js, k) <= InQueue(js, k)
    ensures RanInQueue(js, k) > 0 ==> k < |cfg.jobs| && !cfg.jobs[k].isSkip
  {
    if js == [] {
    } else {
      RanIsInQueue(cfg, exited, js[..|js| - 1], k);
      assert Reported(cfg, exited, js[|js| - 1]);
    }
  }

  lemma {:induction false} RanIsInHands(cfg: Config, exited: bool, ws: seq<Worker>, k: nat)
    requires WellFormed(cfg) && forall i :: 0 <= i < |ws| ==> WorkerOk(cfg, exited, ws[i])
    ensures RanInHands(ws, k) <= InHands(ws, k)
    ensures RanInHands(ws, k) > 0 ==> k < |cfg.jobs| && !cfg.jobs[k].isSkip
  {
    if ws == [] {
    } else {
      RanIsInHands(cfg, exited, ws[1..], k);
      assert WorkerOk(cfg, exited, ws[0]);
    }
  }

  /** No job is launched twice, and a job to be skipped is not launched at all. */
  lemma LaunchedOnce(cfg: Config, s: State, k: nat)
    requires WellFormed(cfg) && Reachable(cfg, s)
    ensures Launches(s.launched, k) <= 1
    ensures Launches(s.launched, k) == 1 ==> k < |cfg.jobs| && !cfg.jobs[k].isSkip
  {
    ReachableInv(cfg, s);
    RanIsInHands(cfg, s.threadExit, s.workers, k);
    RanIsInQueue(cfg, s.threadExit, s.output, k);
    RanIsInQueue(cfg, s.threadExit, s.collected, k);
    assert Places(s, k) <= 1;
  }

  /** Reports are collected in the order in which the workers handed them over, and stay as they are. */
  lemma {:induction false} ReportsKeepOrder(cfg: Config, s: State, acts: seq<Action>)
    requires IsRun(cfg, s, acts)
    ensures s.collected + s.output <= After(cfg, s, acts).collected + After(cfg, s, acts).output
    ensures s.collected <= After(cfg, s, acts).collected
    decreases |acts|
  {
    if acts == [] {
    } else {
      var t := Apply(cfg, s, acts[0]);
      assert s.collected + s.output <= t.collected + t.output;
      ReportsKeepOrder(cfg, t, acts[1..]);
    }
  }

  // ----- what is launched after an interrupt

  ghost function ClearedInHand(w: Worker, k: nat): nat {
    if w.Cleared? && w.job.id == k then 1 else 0
  }

  /** How often a worker is about to launch the job k. */
  ghost function ClearedInHands(ws: seq<Worker>, k: nat): nat {
    if ws == [] then 0 else ClearedInHand(ws[0], k) + ClearedInHands(ws[1..], k)
  }

  /** How many workers are about to launch their job. */
  ghost function AllCleared(ws: seq<Worker>): nat {
    if ws == [] then 0 else (if ws[0].Cleared? then 1 else 0) + AllCleared(ws[1..])
  }

  lemma {:induction false} ClearedChanges(ws: seq<Worker>, i: nat, w: Worker, k: nat)
    requires i < |ws|
    ensures ClearedInHands(ws[i := w], k) == ClearedInHands(ws, k) - ClearedInHand(ws[i], k) + ClearedInHand(w, k)
    ensures AllCleared(ws[i := w]) ==
      AllCleared(ws) - (if ws[i].Cleared? then 1 else 0) + (if w.Cleared? then 1 else 0)
  {
    if i == 0 {
      assert ws[i := w][1..] == ws[1..];
    } else {
      ClearedChanges(ws[1..], i - 1, w, k);
      assert ws[i := w][1..] == ws[1..][i - 1 := w];
    }
  }

  lemma {:induction false} ClearedRange(ws: seq<Worker>, k: nat)
    ensures AllCleared(ws) <= |ws|
    ensures ClearedInHands(ws, k) <= InHands(ws, k)
    ensures ClearedInHands(ws, k) > 0 <==> exists w :: 0 <= w < |ws| && ws[w].Cleared? && ws[w].job.id == k
  {
    if ws == [] {
    } else {
      ClearedRange(ws[1..], k);
      assert forall i :: 0 < i < |ws| ==> ws[i] == ws[1..][i - 1];
      assert forall i :: 0 <= i < |ws| - 1 ==> ws[1..][i] == ws[i + 1];
    }
  }

  /** With the flag up a step launches only what a worker was about to launch, and clears nothing. */
  lemma ClearedStep(cfg: Config, s: State, a: Action, k: nat)
    requires Enabled(cfg, s, a) && s.threadExit
    ensures var t := Apply(cfg, s, a);
      && t.threadExit && s.launched <= t.launched && |t.workers| == |s.workers|
      && Launches(t.launched, k) + ClearedInHands(t.workers, k) == Launches(s.launched, k) + ClearedInHands(s.workers, k)
      && |t.launched| + AllCleared(t.workers) == |s.launched| + AllCleared(s.workers)
  {
    var t := Apply(cfg, s, a);
    if a.Get? || a.Decide? || a.Launch? || a.Finish? || a.Deliver? {
      ClearedChanges(s.workers, a.w, t.workers[a.w], k);
      assert t.workers == s.workers[a.w := t.workers[a.w]];
      assert a.Launch? ==> t.launched[..|s.launched|] == s.launched;
    }
  }

  /** However a run goes on from there, what is launched and what is about to be launched is kept together. */
  lemma {:induction false} ClearedRun(cfg: Config, s: State, acts: seq<Action>, k: nat)
    requires IsRun(cfg, s, acts) && s.threadExit
    ensures var t := After(cfg, s, acts);
      && t.threadExit && s.launched <= t.launched && |t.workers| == |s.workers|
      && Launches(t.launched, k) + ClearedInHands(t.workers, k) == Launches(s.launched, k) + ClearedInHands(s.workers, k)
      && |t.launched| + AllCleared(t.workers) == |s.launched| + AllCleared(s.workers)
    decreases |acts|
  {
    if acts == [] {
    } else {
      ClearedStep(cfg, s, acts[0], k);
      ClearedRun(cfg, Apply(cfg, s, acts[0]), acts[1..], k);
    }
  }

  /**
   Once SIGINT has been seen only jobs whose worker had already passed the test of the flag are launched,
   each once, so at most one per worker; no job that is queued or not yet tested is.
   */
  lemma LaunchesAfterInterrupt(cfg: Config, s: State, acts: seq<Action>, k: nat)
    requires WellFormed(cfg) && Reachable(cfg, s) && s.threadExit && IsRun(cfg, s, acts)
    ensures var t := After(cfg, s, acts);
      && t.threadExit && s.launched <= t.launched
      && |t.launched| <= |s.launched| + AllCleared(s.workers) <= |s.launched| + cfg.processors
    ensures Launches(After(cfg, s, acts).launched, k) > Launches(s.launched, k) ==>
      && (exists w :: 0 <= w < |s.workers| && s.workers[w].Cleared? && s.workers[w].job.id == k)
      && Launches(s.launched, k) == 0 && Launches(After(cfg, s, acts).launched, k) == 1
    ensures k >= s.next || InQueue(s.input, k) > 0 || HeldUntested(s, k) ==>
      Launches(After(cfg, s, acts).launched, k) == 0
  {
    ReachableInv(cfg, s);
    ClearedRun(cfg, s, acts, k);
    ClearedRange(s.workers, k);
    LaunchesOfCleared(cfg, s, k);
    if HeldUntested(s, k) {
      var w :| 0 <= w < |s.workers| && s.workers[w].Holding? && s.workers[w].job.id == k;
      HeldNotLaunched(cfg, s, w);
    }
  }

  /** A worker has got the job k and has not yet tested the exit flag. */
  ghost predicate HeldUntested(s: State, k: nat) {
    exists w :: 0 <= w < |s.workers| && s.workers[w].Holding? && s.workers[w].job.id == k
  }

  /** A job about to be launched is in one worker's hands, nowhere else, and was not launched before. */
  lemma LaunchesOfCleared(cfg: Config, s: State, k: nat)
    requires WellFormed(cfg) && Inv(cfg, s)
    ensures InQueue(s.input, k) + ClearedInHands(s.workers, k) + Launches(s.launched, k) <= Places(s, k)
    ensures Places(s, k) == if k < s.next then 1 else 0
  {
    AtMostHeld(s.workers, k);
    RanIsInQueue(cfg, s.threadExit, s.output, k);
    RanIsInQueue(cfg, s.threadExit, s.collected, k);
    assert Launches(s.launched, k) == RanPlaces(s, k);
  }

  lemma {:induction false} AtMostHeld(ws: seq<Worker>, k: nat)
    ensures ClearedInHands(ws, k) + RanInHands(ws, k) <= InHands(ws, k)
  {
    if ws == [] {
    } else {
      AtMostHeld(ws[1..], k);
    }
  }

  /** A job whose worker has not yet tested the flag is neither launched nor about to be. */
  lemma HeldNotLaunched(cfg: Config, s: State, w: nat)
    requires WellFormed(cfg) && Inv(cfg, s) && w < |s.workers| && s.workers[w].Holding?
    ensures var k := s.workers[w].job.id; ClearedInHands(s.workers, k) + Launches(s.launched, k) == 0
  {
    var k := s.workers[w].job.id;
    var ws := s.workers[w := Idle];
    LaunchesOfCleared(cfg, s, k);
    WorkerChanges(cfg, s.workers, w, Idle, k);
    ClearedChanges(s.workers, w, Idle, k);
    AtMostHeld(ws, k);
    RanIsInQueue(cfg, s.threadExit, s.output, k);
    RanIsInQueue(cfg, s.threadExit, s.collected, k);
    assert Launches(s.launched, k) == RanPlaces(s, k);
  }

  // ----- every run is finite

  ghost function QueueWeight(cfg: Config, js: seq<Job>): nat {
    if js == [] then 0
    else QueueWeight(cfg, js[..|js| - 1]) + (if js[|js| - 1].id < |cfg.jobs| then 6 else 2)
  }

  ghost function WorkerWeight(w: Worker): nat {
    match w
    case Idle => 0
    case Holding(j) => if j.isBreak then 1 else 5
    case Cleared(_) => 4
    case Running(_) => 3
    case Ready(_) => 2
    case Returned(_) => 0
  }

  ghost function WorkersWeight(ws: seq<Worker>): nat {
    if ws == [] then 0 else WorkerWeight(ws[0]) + WorkersWeight(ws[1..])
  }

  /** The steps still ahead of the jobs that have not been put yet, put and collect included. */
  ghost function Undispatched(cfg: Config, s: State): int {
    if s.next < |cfg.jobs| then 7 * (|cfg.jobs| - s.next) + 3 * cfg.processors
    else 3 * (Puts(cfg) - s.next)
  }

  /** An upper bound on the number of steps that are left. */
  ghost function StepsLeft(cfg: Config, s: State): int {
    Undispatched(cfg, s) + QueueWeight(cfg, s.input) + WorkersWeight(s.workers) + |s.output|
    + (cfg.processors - s.joined) + (if s.threadExit then 0 else 1)
  }

  lemma {:induction false} WeightChanges(ws: seq<Worker>, i: nat, w: Worker)
    requires i < |ws|
    ensures WorkersWeight(ws[i := w]) == WorkersWeight(ws) - WorkerWeight(ws[i]) + WorkerWeight(w)
  {
    if i == 0 {
      assert ws[i := w][1..] == ws[1..];
    } else {
      WeightChanges(ws[1..], i - 1, w);
      assert ws[i := w][1..] == ws[1..][i - 1 := w];
    }
  }

  lemma {:induction false} QueueWeightDropFirst(cfg: Config, js: seq<Job>)
    requires js != []
    ensures QueueWeight(cfg, js) == QueueWeight(cfg, js[1..]) + (if js[0].id < |cfg.jobs| then 6 else 2)
  {
    var n := |js| - 1;
    if n == 0 {
    } else {
      QueueWeightDropFirst(cfg, js[..n]);
      assert js[..n][1..] == js[1..][..n - 1];
    }
  }

  lemma PutUsesStep(cfg: Config, s: State)
    requires Enabled(cfg, s, Put) && WellFormed(cfg)
    ensures StepsLeft(cfg, Apply(cfg, s, Put)) == StepsLeft(cfg, s) - 1
  {
    assert (s.input + [Item(cfg, s.next)])[..|s.input|] == s.input;
  }

  lemma GetUsesStep(cfg: Config, s: State, w: nat)
    requires WellFormed(cfg) && InputInOrder(cfg, s) && Enabled(cfg, s, Get(w))
    ensures StepsLeft(cfg, Apply(cfg, s, Get(w))) == StepsLeft(cfg, s) - 1
  {
    QueueWeightDropFirst(cfg, s.input);
    WeightChanges(s.workers, w, Holding(s.input[0]));
    assert s.input[0] == Item(cfg, Taken(s));
  }

  lemma WorkerUsesStep(cfg: Config, s: State, a: Action)
    requires Enabled(cfg, s, a) && (a.Decide? || a.Launch? || a.Finish? || a.Deliver?)
    ensures StepsLeft(cfg, Apply(cfg, s, a)) < StepsLeft(cfg, s)
  {
    var t := Apply(cfg, s, a);
    WeightChanges(s.workers, a.w, t.workers[a.w]);
    assert t.workers == s.workers[a.w := t.workers[a.w]];
  }

  /** Each step, the interrupt included, uses up at least one of the steps that were left. */
  lemma StepsLeftDecreases(cfg: Config, s: State, a: Action)
    requires WellFormed(cfg) && InputInOrder(cfg, s) && Enabled(cfg, s, a)
    ensures StepsLeft(cfg, Apply(cfg, s, a)) < StepsLeft(cfg, s)
  {
    match a
    case Put => PutUsesStep(cfg, s);
    case Get(w) => GetUsesStep(cfg, s, w);
    case Decide(_) => WorkerUsesStep(cfg, s, a);
    case Launch(_) => WorkerUsesStep(cfg, s, a);
    case Finish(_) => WorkerUsesStep(cfg, s, a);
    case Deliver(_) => WorkerUsesStep(cfg, s, a);
    case Collect =>
    case Join =>
    case Interrupt =>
  }

  lemma StepsLeftNat(cfg: Config, s: State)
    requires WellFormed(cfg) && Inv(cfg, s)
    ensures StepsLeft(cfg, s) >= 0
  {}

  lemma {:induction false} IdleWeight(ws: seq<Worker>)
    requires forall i :: 0 <= i < |ws| ==> ws[i].Idle?
    ensures WorkersWeight(ws) == 0
  {
    if ws == [] {
    } else {
      IdleWeight(ws[1..]);
    }
  }

  lemma {:induction false} RunUsesSteps(cfg: Config, s: State, acts: seq<Action>)
    requires WellFormed(cfg) && Inv(cfg, s) && IsRun(cfg, s, acts)
    ensures |acts| <= StepsLeft(cfg, s)
    decreases |acts|
  {
    StepsLeftNat(cfg, s);
    if acts == [] {
    } else {
      InvStep(cfg, s, acts[0]);
      StepsLeftDecreases(cfg, s, acts[0]);
      RunUsesSteps(cfg, Apply(cfg, s, acts[0]), acts[1..]);
    }
  }

  /** No run goes on for ever: a job takes at most seven steps, a worker four, the interrupt one. */
  lemma RunsAreFinite(cfg: Config, acts: seq<Action>)
    requires WellFormed(cfg) && IsRun(cfg, Init(cfg), acts)
    ensures |acts| <= 7 * |cfg.jobs| + 4 * cfg.processors + 1
  {
    InvInit(cfg);
    RunUsesSteps(cfg, Init(cfg), acts);
    IdleWeight(Init(cfg).workers);
  }

  // ----- counting collected jobs

  /** How many entries of the queue have an id below n. */
  ghost function Below(js: seq<Job>, n: nat): nat {
    if n == 0 then 0 else Below(js, n - 1) + InQueue(js, n - 1)
  }

  lemma {:induction false} BelowAppend(js: seq<Job>, j: Job, n: nat)
    ensures Below(js + [j], n) == Below(js, n) + (if j.id < n then 1 else 0)
  {
    if n == 0 {
    } else {
      BelowAppend(js, j, n - 1);
      QueueAppend(js, j, n - 1);
    }
  }

  lemma {:induction false} BelowIsSize(js: seq<Job>, n: nat)
    requires forall i :: 0 <= i < |js| ==> js[i].id < n
    ensures Below(js, n) == |js|
  {
    if js == [] {
      BelowEmpty(n);
    } else {
      var m := |js| - 1;
      BelowIsSize(js[..m], n);
      BelowAppend(js[..m], js[m], n);
      assert js[..m] + [js[m]] == js;
    }
  }

  lemma {:induction false} BelowEmpty(n: nat)
    ensures Below([], n) == 0
  {
    if n == 0 {
    } else {
      BelowEmpty(n - 1);
    }
  }

  lemma {:induction false} BelowOnes(js: seq<Job>, n: nat)
    requires forall k: nat :: k < n ==> InQueue(js, k) == 1
    ensures Below(js, n) == n
  {
    if n == 0 {
    } else {
      BelowOnes(js, n - 1);
    }
  }

  lemma {:induction false} QueueConcat(a: seq<Job>, b: seq<Job>, k: nat)
    ensures InQueue(a + b, k) == InQueue(a, k) + InQueue(b, k)
  {
    if b == [] {
      assert a + b == a;
    } else {
      var m := |b| - 1;
      assert (a + b)[..|a + b| - 1] == a + b[..m];
      QueueConcat(a, b[..m], k);
    }
  }

  lemma {:induction false} NotInQueue(js: seq<Job>, k: nat)
    requires forall i :: 0 <= i < |js| ==> js[i].id != k
    ensures InQueue(js, k) == 0
  {
    if js == [] {
    } else {
      NotInQueue(js[..|js| - 1], k);
    }
  }

  lemma {:induction false} NotInHands(ws: seq<Worker>, k: nat)
    requires forall i :: 0 <= i < |ws| ==> ws[i].Idle? || ws[i].job.id != k
    ensures InHands(ws, k) == 0
  {
    if ws == [] {
    } else {
      NotInHands(ws[1..], k);
    }
  }

  /** When no real job is queued or held, every one of them is on the output queue or collected. */
  lemma AllReported(cfg: Config, s: State)
    requires WellFormed(cfg) && Inv(cfg, s) && s.next >= |cfg.jobs|
    requires forall i :: 0 <= i < |s.input| ==> s.input[i].id >= |cfg.jobs|
    requires forall w :: 0 <= w < |s.workers| ==> s.workers[w].Idle? || s.workers[w].job.id >= |cfg.jobs|
    ensures |s.output| + |s.collected| == |cfg.jobs|
  {
    var js := s.output + s.collected;
    forall k: nat | k < |cfg.jobs| ensures InQueue(js, k) == 1 {
      NotInQueue(s.input, k);
      NotInHands(s.workers, k);
      QueueConcat(s.output, s.collected, k);
      assert Places(s, k) == 1;
    }
    BelowOnes(js, |cfg.jobs|);
    forall i | 0 <= i < |js| ensures js[i].id < |cfg.jobs| {
      assert Reported(cfg, s.threadExit, js[i]);
    }
    BelowIsSize(js, |cfg.jobs|);
  }

  // ----- no thread waits for ever

  /** With a worker to do the work, some thread can move until everything is collected and joined. */
  lemma NextStep(cfg: Config, s: State) returns (a: Action)
    requires WellFormed(cfg) && Inv(cfg, s) && !Done(cfg, s)
    requires cfg.processors >= 1 || cfg.jobs == []
    ensures Enabled(cfg, s, a) && !a.Interrupt?
  {
    if s.next < Puts(cfg) {
      a := Put;
    } else if w: nat :| w < |s.workers| && s.workers[w].Holding? {
      a := Decide(w);
    } else if w: nat :| w < |s.workers| && s.workers[w].Cleared? {
      a := Launch(w);
    } else if w: nat :| w < |s.workers| && s.workers[w].Running? {
      a := Finish(w);
    } else if w: nat :| w < |s.workers| && s.workers[w].Ready? {
      a := Deliver(w);
    } else {
      assert forall w :: 0 <= w < |s.workers| ==> s.workers[w].Idle? || s.workers[w].Returned?;
      BreaksHeldRange(cfg, s.workers);
      if s.input != [] {
        var w := SomeIdle(cfg, s);
        a := Get(w);
      } else {
        a := CollectOrJoin(cfg, s);
      }
    }
  }

  lemma SomeIdle(cfg: Config, s: State) returns (w: nat)
    requires WellFormed(cfg) && Inv(cfg, s) && s.next == Puts(cfg) && s.input != []
    requires cfg.processors >= 1 || cfg.jobs == []
    requires forall w :: 0 <= w < |s.workers| ==> s.workers[w].Idle? || s.workers[w].Returned?
    ensures w < |s.workers| && s.workers[w].Idle?
  {
    BreaksHeldRange(cfg, s.workers);
    if forall v :: 0 <= v < |s.workers| ==> s.workers[v].Returned? {
      forall v | 0 <= v < |s.workers| ensures HasBreak(cfg, s.workers[v]) {
        assert WorkerOk(cfg, s.threadExit, s.workers[v]);
      }
      assert false;
    }
    w :| w < |s.workers| && s.workers[w].Idle?;
  }

  lemma CollectOrJoin(cfg: Config, s: State) returns (a: Action)
    requires WellFormed(cfg) && Inv(cfg, s) && !Done(cfg, s) && s.next == Puts(cfg) && s.input == []
    requires forall w :: 0 <= w < |s.workers| ==> s.workers[w].Idle? || s.workers[w].Returned?
    ensures Enabled(cfg, s, a) && (a.Collect? || a.Join?)
  {
    forall w | 0 <= w < |s.workers| ensures s.workers[w].Idle? || s.workers[w].job.id >= |cfg.jobs| {
      assert WorkerOk(cfg, s.threadExit, s.workers[w]);
    }
    AllReported(cfg, s);
    if |s.collected| < |cfg.jobs| {
      a := Collect;
    } else {
      BreaksHeldRange(cfg, s.workers);
      assert HasBreak(cfg, s.workers[s.joined]);
      a := Join;
    }
  }

  /** The threads can be scheduled to the end from every state of every run. */
  lemma {:induction false} CanAlwaysFinish(cfg: Config, s: State) returns (acts: seq<Action>)
    requires WellFormed(cfg) && Inv(cfg, s)
    requires cfg.processors >= 1 || cfg.jobs == []
    ensures IsRun(cfg, s, acts) && Done(cfg, After(cfg, s, acts))
    ensures After(cfg, s, acts).threadExit == s.threadExit
    decreases StepsLeft(cfg, s)
  {
    acts := [];
    if !Done(cfg, s) {
      var a := NextStep(cfg, s);
      InvStep(cfg, s, a);
      StepsLeftDecreases(cfg, s, a);
      StepsLeftNat(cfg, Apply(cfg, s, a));
      var rest := CanAlwaysFinish(cfg, Apply(cfg, s, a));
      acts := [a] + rest;
      assert acts[1..] == rest;
    }
  }

  lemma {:induction false} NobodyWorks(cfg: Config, s: State, acts: seq<Action>)
    requires WellFormed(cfg) && Inv(cfg, s) && IsRun(cfg, s, acts)
    requires cfg.processors == 0 && s.output == [] && s.collected == []
    ensures After(cfg, s, acts).collected == []
    decreases |acts|
  {
    if acts == [] {
    } else {
      InvStep(cfg, s, acts[0]);
      NobodyWorks(cfg, Apply(cfg, s, acts[0]), acts[1..]);
    }
  }

  /**
   When no thread can move, everything is collected and joined, unless the process limit left no
   worker for the jobs.  A negative limit is such a case: test.py takes it over as it is.
   */
  lemma StuckOnlyWithoutWorkers(cfg: Config, s: State)
    requires WellFormed(cfg) && Reachable(cfg, s)
    requires forall a: Action :: Enabled(cfg, s, a) ==> a.Interrupt?
    ensures Done(cfg, s) <==> cfg.processors >= 1 || cfg.jobs == []
  {
    ReachableInv(cfg, s);
    if (cfg.processors >= 1 || cfg.jobs == []) && !Done(cfg, s) {
      var a := NextStep(cfg, s);
      assert false;
    }
    if cfg.processors == 0 {
      var acts :| IsRun(cfg, Init(cfg), acts) && After(cfg, Init(cfg), acts) == s;
      InvInit(cfg);
      NobodyWorks(cfg, Init(cfg), acts);
    }
  }

  // ----- runs grow one step at a time

  lemma {:induction false} RunGrows(cfg: Config, s: State, acts: seq<Action>, a: Action)
    requires IsRun(cfg, s, acts) && Enabled(cfg, After(cfg, s, acts), a)
    ensures IsRun(cfg, s, acts + [a]) && After(cfg, s, acts + [a]) == Apply(cfg, After(cfg, s, acts), a)
    decreases |acts|
  {
    if acts == [] {
      assert acts + [a] == [a] && [a][1..] == [];
    } else {
      RunGrows(cfg, Apply(cfg, s, acts[0]), acts[1..], a);
      assert (acts + [a])[1..] == acts[1..] + [a];
    }
  }

  lemma StaysReachable(cfg: Config, s: State, a: Action)
    requires WellFormed(cfg) && Reachable(cfg, s) && Enabled(cfg, s, a)
    ensures Reachable(cfg, Apply(cfg, s, a))
    ensures Inv(cfg, s) && 0 <= StepsLeft(cfg, Apply(cfg, s, a)) < StepsLeft(cfg, s)
  {
    var acts :| IsRun(cfg, Init(cfg), acts) && After(cfg, Init(cfg), acts) == s;
    RunGrows(cfg, Init(cfg), acts, a);
    ReachableInv(cfg, s);
    StepsLeftDecreases(cfg, s, a);
    ReachableInv(cfg, Apply(cfg, s, a));
    StepsLeftNat(cfg, Apply(cfg, s, a));
  }

  lemma {:induction false} RunReachable(cfg: Config, s: State, acts: seq<Action>)
    requires WellFormed(cfg) && Reachable(cfg, s) && IsRun(cfg, s, acts)
    ensures Reachable(cfg, After(cfg, s, acts))
    decreases |acts|
  {
    if acts == [] {
    } else {
      StaysReachable(cfg, s, acts[0]);
      RunReachable(cfg, Apply(cfg, s, acts[0]), acts[1..]);
    }
  }

  lemma StartReachable(cfg: Config)
    ensures Reachable(cfg, Init(cfg))
  {
    assert IsRun(cfg, Init(cfg), []) && After(cfg, Init(cfg), []) == Init(cfg);
  }

  // ----- runs in which things go wrong

  /** A worker that finds the flag down launches its job even when SIGINT comes before the launch. */
  lemma LaunchCanFollowInterrupt(cfg: Config) returns (s: State)
    requires WellFormed(cfg) && cfg.processors >= 1 && cfg.jobs != [] && !cfg.jobs[0].isSkip
    ensures Reachable(cfg, s) && s.threadExit && s.launched == []
    ensures Enabled(cfg, s, Launch(0)) && Apply(cfg, s, Launch(0)).launched == [0]
  {
    StartReachable(cfg);
    s := Init(cfg);
    StaysReachable(cfg, s, Put);
    s := Apply(cfg, s, Put);
    StaysReachable(cfg, s, Get(0));
    s := Apply(cfg, s, Get(0));
    StaysReachable(cfg, s, Decide(0));
    s := Apply(cfg, s, Decide(0));
    StaysReachable(cfg, s, Interrupt);
    s := Apply(cfg, s, Interrupt);
  }

  /** The first n jobs can be put before any thread does anything else. */
  lemma {:induction false} PutsAlone(cfg: Config, n: nat) returns (s: State)
    requires WellFormed(cfg) && n <= Puts(cfg)
    ensures Reachable(cfg, s) && s == Init(cfg).(next := n, input := s.input)
  {
    if n == 0 {
      StartReachable(cfg);
      s := Init(cfg);
    } else {
      s := PutsAlone(cfg, n - 1);
      StaysReachable(cfg, s, Put);
      s := Apply(cfg, s, Put);
    }
  }

  /** Without workers every choice of jobs leads to a state in which only SIGINT can happen. */
  lemma StuckWithoutWorkers(cfg: Config) returns (s: State)
    requires WellFormed(cfg) && cfg.processors == 0 && cfg.jobs != []
    ensures Reachable(cfg, s) && !Done(cfg, s) && s.collected == []
    ensures forall a: Action :: Enabled(cfg, s, a) ==> a.Interrupt?
  {
    s := PutsAlone(cfg, Puts(cfg));
  }

  // ----- what a completed run leaves behind

  /** At the end both queues are empty, every worker has returned, and each job was collected once. */
  lemma DoneMeansCollected(cfg: Config, s: State)
    requires WellFormed(cfg) && Reachable(cfg, s) && Done(cfg, s)
    ensures s.input == [] && s.output == []
    ensures forall w :: 0 <= w < |s.workers| ==> s.workers[w].Returned?
    ensures forall k: nat :: InQueue(s.collected, k) == if k < |cfg.jobs| then 1 else 0
    ensures forall i :: 0 <= i < |s.collected| ==> Reported(cfg, s.threadExit, s.collected[i])
  {
    ReachableInv(cfg, s);
    if cfg.processors == 0 {
      var acts :| IsRun(cfg, Init(cfg), acts) && After(cfg, Init(cfg), acts) == s;
      InvInit(cfg);
      NobodyWorks(cfg, Init(cfg), acts);
    }
    forall w | 0 <= w < |s.workers| ensures HasBreak(cfg, s.workers[w]) {
      assert WorkerOk(cfg, s.threadExit, s.workers[w]);
    }
    BreaksHeldRange(cfg, s.workers);
    assert s.input == [];
    AllReported(cfg, s);
    forall k: nat ensures InQueue(s.collected, k) == if k < |cfg.jobs| then 1 else 0 {
      if k < |cfg.jobs| {
        NotInHands(s.workers, k);
        assert Places(s, k) == 1;
      } else {
        forall i | 0 <= i < |s.collected| ensures s.collected[i].id != k {
          assert Reported(cfg, s.threadExit, s.collected[i]);
        }
        NotInQueue(s.collected, k);
      }
    }
  }

  lemma {:induction false} SomeoneRan(js: seq<Job>, k: nat)
    ensures RanInQueue(js, k) > 0 <==> exists i :: 0 <= i < |js| && js[i].id == k && Ran(js[i])
  {
    if js == [] {
    } else {
      SomeoneRan(js[..|js| - 1], k);
    }
  }

  /** The jobs that were launched are those that come back neither interrupted nor skipped. */
  lemma LaunchedMeansRan(cfg: Config, s: State, k: nat)
    requires WellFormed(cfg) && Reachable(cfg, s) && Done(cfg, s)
    ensures Launches(s.launched, k) == 1
       <==> exists i :: 0 <= i < |s.collected| && s.collected[i].id == k && Ran(s.collected[i])
    ensures !s.threadExit ==> (Launches(s.launched, k) == 1 <==> k < |cfg.jobs| && !cfg.jobs[k].isSkip)
  {
    ReachableInv(cfg, s);
    DoneMeansCollected(cfg, s);
    LaunchedOnce(cfg, s, k);
    SomeoneRan(s.collected, k);
    assert Launches(s.launched, k) == RanPlaces(s, k);
    NobodyRuns(s.workers, k);
    if k < |cfg.jobs| && !s.threadExit {
      if forall i :: 0 <= i < |s.collected| ==> s.collected[i].id != k {
        NotInQueue(s.collected, k);
      }
      var i :| 0 <= i < |s.collected| && s.collected[i].id == k;
      assert Reported(cfg, s.threadExit, s.collected[i]);
    }
  }

  lemma {:induction false} NobodyRuns(ws: seq<Worker>, k: nat)
    requires forall w :: 0 <= w < |ws| ==> ws[w].Returned?
    ensures RanInHands(ws, k) == 0
  {
    if ws == [] {
    } else {
      NobodyRuns(ws[1..], k);
    }
  }

  lemma {:induction false} NobodyCleared(ws: seq<Worker>, k: nat)
    requires forall w :: 0 <= w < |ws| ==> ws[w].Returned?
    ensures ClearedInHands(ws, k) == 0
  {
    if ws == [] {
    } else {
      NobodyCleared(ws[1..], k);
    }
  }

  /** A run that SIGINT cut short launches to its end exactly the jobs that were cleared when it came. */
  lemma InterruptedRunLaunches(cfg: Config, s: State, acts: seq<Action>, k: nat)
    requires WellFormed(cfg) && Reachable(cfg, s) && s.threadExit && IsRun(cfg, s, acts)
    requires Done(cfg, After(cfg, s, acts))
    ensures Launches(After(cfg, s, acts).launched, k) == 1 <==>
      Launches(s.launched, k) == 1 || exists w :: 0 <= w < |s.workers| && s.workers[w].Cleared? && s.workers[w].job.id == k
  {
    ReachableInv(cfg, s);
    ClearedRun(cfg, s, acts, k);
    ClearedRange(s.workers, k);
    LaunchesOfCleared(cfg, s, k);
    RunReachable(cfg, s, acts);
    DoneMeansCollected(cfg, After(cfg, s, acts));
    NobodyCleared(After(cfg, s, acts).workers, k);
  }
}
