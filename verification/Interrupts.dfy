/** What becomes of the jobs when the test runner is interrupted, and the order in which jobs and
    results go through the queues. */
module Interrupts {
  import opened Sequences
  import opened Sums
  import opened TestRunner

  // ----- Jobs that an interrupt catches -----

  /** Among the jobs handed back, those that an interrupt kept from running. */
  function PickBroken(pick: Job -> bool, j: Job): nat {
    if j.isBreak then PickJob(pick, j) else 0
  }

  /** A worker's job that nobody has looked at yet. */
  function PickUnseen(pick: Job -> bool, w: Worker): nat {
    match w
    case Holding(j) => PickReal(pick, j)
    case _ => 0
  }

  /** That, or one on its way back because of an interrupt. */
  function PickCaught(pick: Job -> bool, w: Worker): nat {
    match w
    case Holding(j) => PickReal(pick, j)
    case Reporting(j) => PickBroken(pick, j)
    case _ => 0
  }

  function PickedBroken(pick: Job -> bool): Job -> nat { j => PickBroken(pick, j) }
  function PickedUnseen(pick: Job -> bool): Worker -> nat { w => PickUnseen(pick, w) }
  function PickedCaught(pick: Job -> bool): Worker -> nat { w => PickCaught(pick, w) }

  /** The jobs that no worker has looked at: not dispatched, queued, or just taken. */
  ghost function Unseen(s: State, pick: Job -> bool): nat
    requires s.dispatched <= |s.plan|
  {
    Sum(s.plan[s.dispatched..], Picked(pick)) + Sum(s.input, PickedReal(pick)) + Sum(s.workers, PickedUnseen(pick))
  }

  /** Those and the jobs that were handed back instead of being run. */
  ghost function Caught(s: State, pick: Job -> bool): nat
    requires s.dispatched <= |s.plan|
  {
    Sum(s.plan[s.dispatched..], Picked(pick)) + Sum(s.input, PickedReal(pick)) + Sum(s.workers, PickedCaught(pick))
    + Sum(s.output, PickedBroken(pick)) + Sum(s.collected, PickedBroken(pick))
  }

  lemma WorkerKeepsCaught(s: State, w: nat, v: Worker, input: seq<Job>, output: seq<Job>, pick: Job -> bool)
    requires s.dispatched <= |s.plan| && w < |s.workers|
    requires Sum(input, PickedReal(pick)) + PickCaught(pick, v) + Sum(output, PickedBroken(pick))
      == Sum(s.input, PickedReal(pick)) + PickCaught(pick, s.workers[w]) + Sum(s.output, PickedBroken(pick))
    ensures Caught(s.(workers := s.workers[w := v], input := input, output := output), pick) == Caught(s, pick)
  {
    SumUpdate(s.workers, w, v, PickedCaught(pick));
  }

  lemma TakingKeepsCaught(s: State, step: Step, pick: Job -> bool)
    requires s.dispatched <= |s.plan| && s.threadExit && Enabled(s, step) && (step.Get? || step.Examine?)
    ensures Caught(Apply(s, step), pick) == Caught(s, pick)
  {
    var w := step.w;
    if step.Get? {
      WorkerKeepsCaught(s, w, Holding(s.input[0]), s.input[1..], s.output, pick);
    } else {
      WorkerKeepsCaught(s, w, Apply(s, step).workers[w], s.input, s.output, pick);
    }
  }

  lemma GivingKeepsCaught(s: State, step: Step, pick: Job -> bool)
    requires s.dispatched <= |s.plan| && ResultsOk(s) && Enabled(s, step) && (step.Finish? || step.Put?)
    ensures Caught(Apply(s, step), pick) == Caught(s, pick)
  {
    var w := step.w;
    var j := s.workers[w].job;
    if step.Finish? {
      WorkerKeepsCaught(s, w, Reporting(j.(returncode := j.outcome)), s.input, s.output, pick);
    } else {
      SumAppend(s.output, j, PickedBroken(pick));
      WorkerKeepsCaught(s, w, Waiting, s.input, s.output + [j], pick);
    }
  }

  lemma MainStepKeepsCaught(s: State, step: Step, pick: Job -> bool)
    requires s.dispatched <= |s.plan| && Enabled(s, step) && PlanFresh(s.plan)
    requires !(step.Get? || step.Examine? || step.Finish? || step.Put?)
    ensures Caught(Apply(s, step), pick) == Caught(s, pick)
  {
    match step
    case Dispatch =>
      var j := s.plan[s.dispatched];
      Advance(s.plan, s.dispatched);
      SumAppend(s.input, j, PickedReal(pick));
    case Poison =>
      SumAppend(s.input, POISON, PickedReal(pick));
    case Collect =>
      SumAppend(s.collected, s.output[0], PickedBroken(pick));
    case _ =>
  }

  /** After an interrupt a job that no worker has looked at can only go back unrun. */
  lemma InterruptKeepsCaught(s: State, t: State, pick: Job -> bool)
    requires Inv(s) && s.threadExit && Steps(s, t)
    ensures t.dispatched <= |t.plan| && Caught(t, pick) == Caught(s, pick)
  {
    var step :| Enabled(s, step) && Apply(s, step) == t;
    if step.Get? || step.Examine? {
      TakingKeepsCaught(s, step, pick);
    } else if step.Finish? || step.Put? {
      GivingKeepsCaught(s, step, pick);
    } else {
      MainStepKeepsCaught(s, step, pick);
    }
  }

  /** After an interrupt no worker starts a job. */
  lemma NoJobStarts(s: State, t: State)
    requires s.threadExit && Steps(s, t)
    ensures t.threadExit && |t.workers| == |s.workers|
    ensures forall w :: 0 <= w < |t.workers| && t.workers[w].Running? ==> t.workers[w] == s.workers[w]
  {
  }

  /** Nothing is handed back unrun before an interrupt. */
  lemma NothingBroken(s: State, pick: Job -> bool)
    requires Inv(s) && !s.threadExit
    ensures Caught(s, pick) == Unseen(s, pick)
  {
    SumZero(s.output, PickedBroken(pick));
    SumZero(s.collected, PickedBroken(pick));
    SumSame(s.workers, PickedCaught(pick), PickedUnseen(pick));
  }

  // ----- Interrupted runs -----

  lemma StateOfRun(plan: seq<Job>, processors: nat, run: seq<State>, k: nat)
    requires IsRun(plan, processors, run) && PlanFresh(plan) && k < |run|
    ensures Inv(run[k]) && run[k].plan == plan && |run[k].workers| == processors && run[k].dispatched <= |plan|
  {
    RunsAreSafe(plan, processors, run);
    hide IsRun;
    assert SafeState(plan, processors, run[k]);
  }

  /** After an interrupt that catches `n` of the jobs picked. */
  ghost predicate Catching(s: State, pick: Job -> bool, n: nat) {
    s.threadExit && s.dispatched <= |s.plan| && Caught(s, pick) == n
  }

  lemma StepKeepsCaught(s: State, t: State, pick: Job -> bool, n: nat)
    requires Inv(s) && Steps(s, t) && Catching(s, pick, n)
    ensures Catching(t, pick, n)
  {
    InterruptKeepsCaught(s, t, pick);
    NoJobStarts(s, t);
  }

  lemma RunStep(plan: seq<Job>, processors: nat, run: seq<State>, k: nat)
    requires IsRun(plan, processors, run) && k + 1 < |run|
    ensures Steps(run[k], run[k + 1])
  {
    hide Steps;
  }

  /** From an interrupt on the jobs it catches stay the same. */
  lemma {:induction false} RunKeepsCaught(plan: seq<Job>, processors: nat, run: seq<State>, k: nat, m: nat,
      pick: Job -> bool, n: nat)
    requires IsRun(plan, processors, run) && PlanFresh(plan) && k <= m < |run|
    requires Catching(run[k], pick, n)
    ensures Catching(run[m], pick, n)
  {
    hide *;
    if k < m {
      RunKeepsCaught(plan, processors, run, k, m - 1, pick, n);
      StateOfRun(plan, processors, run, m - 1);
      RunStep(plan, processors, run, m - 1);
      StepKeepsCaught(run[m - 1], run[m], pick, n);
    }
  }

  ghost predicate IsInterrupt(s: State, t: State) {
    !s.threadExit && t.threadExit && Steps(s, t)
  }

  lemma InterruptOnlySets(s: State, t: State)
    requires IsInterrupt(s, t)
    ensures t == s.(threadExit := true)
  {
  }

  lemma SettingCatches(s: State, pick: Job -> bool)
    requires s.dispatched <= |s.plan|
    ensures Catching(s.(threadExit := true), pick, Caught(s, pick))
  {
  }

  lemma InterruptCatches(s: State, t: State, pick: Job -> bool)
    requires Inv(s) && s.dispatched <= |s.plan| && IsInterrupt(s, t)
    ensures Catching(t, pick, Unseen(s, pick))
  {
    assert !s.threadExit;
    hide *;
    InterruptOnlySets(s, t);
    SettingCatches(s, pick);
    NothingBroken(s, pick);
  }

  lemma EndCaught(s: State, pick: Job -> bool, n: nat)
    requires Inv(s) && s.exit.Returned? && |s.workers| > 0 && Catching(s, pick, n)
    ensures Sum(s.collected, PickedBroken(pick)) == n
  {
    EndState(s);
    SumZero(s.workers, PickedCaught(pick));
    assert s.plan[s.dispatched..] == [];
  }

  /** The jobs that come back unrun are exactly those that no worker had looked at when the
      interrupt came, jobs to be skipped and jobs not yet dispatched included. */
  lemma InterruptedJobs(plan: seq<Job>, processors: nat, run: seq<State>, k: nat, pick: Job -> bool)
    requires IsRun(plan, processors, run) && PlanFresh(plan) && processors > 0
    requires k + 1 < |run| && IsInterrupt(run[k], run[k + 1]) && run[|run| - 1].exit.Returned?
    ensures run[k].dispatched <= |run[k].plan|
    ensures Sum(run[|run| - 1].collected, PickedBroken(pick)) == Unseen(run[k], pick)
  {
    hide *;
    var n := |run| - 1;
    StateOfRun(plan, processors, run, k);
    StateOfRun(plan, processors, run, n);
    InterruptCatches(run[k], run[k + 1], pick);
    RunKeepsCaught(plan, processors, run, k + 1, n, pick, Unseen(run[k], pick));
    EndCaught(run[n], pick, Unseen(run[k], pick));
  }

  /** How many jobs no worker has looked at. */
  ghost function UnseenCount(s: State): int {
    |s.plan| - s.dispatched
    + |set i: nat | i < |s.input| && !s.input[i].isBreak|
    + |set w: nat | w < |s.workers| && s.workers[w].Holding? && !s.workers[w].job.isBreak|
  }

  lemma UnseenCounts(s: State)
    requires s.dispatched <= |s.plan|
    ensures Unseen(s, (_: Job) => true) == UnseenCount(s)
  {
    var all: Job -> bool, genuine := _ => true, (j: Job) => !j.isBreak;
    var held := (w: Worker) => w.Holding? && !w.job.isBreak;
    SumOnes(s.plan[s.dispatched..], Picked(all));
    SumIsCount(s.input, PickedReal(all), genuine);
    SumIsCount(s.workers, PickedUnseen(all), held);
    assert Where(s.input, genuine) == set i: nat | i < |s.input| && !s.input[i].isBreak;
    assert Where(s.workers, held)
      == set w: nat | w < |s.workers| && s.workers[w].Holding? && !s.workers[w].job.isBreak;
  }

  /** How many results are jobs that did not run. */
  ghost function BrokenCount(results: seq<Job>): nat {
    |set i: nat | i < |results| && results[i].isBreak|
  }

  lemma BrokenCounts(results: seq<Job>)
    ensures Sum(results, PickedBroken((_: Job) => true)) == BrokenCount(results)
    ensures BrokenCount(results) == 0 <==> forall i :: 0 <= i < |results| ==> !results[i].isBreak
  {
    var all: Job -> bool, broken := _ => true, (j: Job) => j.isBreak;
    SumIsCount(results, PickedBroken(all), broken);
    assert Where(results, broken) == set i: nat | i < |results| && results[i].isBreak;
    SumZero(results, PickedBroken(all));
  }

  /** The exit code of a run is 0 exactly when no result is an interrupted job and all jobs are
      skipped or return 0. */
  lemma ZeroIff(s: State)
    requires Inv(s) && s.exit.Returned? && |s.workers| > 0
    ensures s.exit.code == 0 <==>
      && BrokenCount(s.collected) == 0
      && forall i :: 0 <= i < |s.plan| ==> s.plan[i].isSkip || s.plan[i].outcome == 0
  {
    EndCode(s);
    BrokenCounts(s.collected);
    EndState(s);
    NoBadJobs(s.plan, s.collected, s.threadExit);
    if BrokenCount(s.collected) == 0 {
      NoBadJobs(s.plan, s.collected, false);
    }
  }

  /** An interrupted run hands back as many jobs as no worker had looked at, and returns 0 exactly
      when the interrupt came too late to catch a job and all jobs are skipped or return 0. */
  lemma InterruptedEnd(plan: seq<Job>, processors: nat, run: seq<State>, k: nat)
    requires IsRun(plan, processors, run) && PlanFresh(plan) && processors > 0
    requires k + 1 < |run| && IsInterrupt(run[k], run[k + 1]) && run[|run| - 1].exit.Returned?
    ensures BrokenCount(run[|run| - 1].collected) == UnseenCount(run[k])
    ensures run[|run| - 1].exit.code == 0 <==>
      UnseenCount(run[k]) == 0 && forall i :: 0 <= i < |plan| ==> plan[i].isSkip || plan[i].outcome == 0
  {
    hide *;
    InterruptedJobs(plan, processors, run, k, (_: Job) => true);
    UnseenCounts(run[k]);
    BrokenCounts(run[|run| - 1].collected);
    StateOfRun(plan, processors, run, |run| - 1);
    ZeroIff(run[|run| - 1]);
  }

  // ----- Order -----

  /** After `taken` jobs were taken, the queue holds the jobs dispatched since, in order, and
      nothing but poison after them, and that only when all jobs have been dispatched. */
  ghost predicate QueueInOrder(s: State, taken: nat) {
    && taken <= s.dispatched <= |s.plan| && s.dispatched - taken <= |s.input|
    && s.input[..s.dispatched - taken] == s.plan[taken..s.dispatched]
    && (forall i :: s.dispatched - taken <= i < |s.input| ==> s.input[i] == POISON)
    && (s.dispatched < |s.plan| ==> |s.input| == s.dispatched - taken)
  }

  lemma DispatchKeepsOrder(s: State, taken: nat)
    requires QueueInOrder(s, taken) && s.dispatched < |s.plan|
    ensures QueueInOrder(Apply(s, Dispatch), taken)
  {
    var n, j := s.dispatched - taken, s.plan[s.dispatched];
    assert s.input[..n] == s.input;
    assert s.plan[taken..s.dispatched + 1] == s.plan[taken..s.dispatched] + [j];
    assert (s.input + [j])[..n + 1] == s.input + [j];
  }

  lemma PoisonKeepsOrder(s: State, taken: nat)
    requires QueueInOrder(s, taken) && Enabled(s, Poison)
    ensures QueueInOrder(Apply(s, Poison), taken)
  {
    var n := s.dispatched - taken;
    assert (s.input + [POISON])[..n] == s.input[..n];
  }

  lemma GetKeepsOrder(s: State, w: nat, taken: nat)
    requires QueueInOrder(s, taken) && Enabled(s, Get(w))
    ensures QueueInOrder(Apply(s, Get(w)), if taken < s.dispatched then taken + 1 else taken)
  {
    if taken < s.dispatched {
      var n := s.dispatched - taken;
      assert s.input[1..][..n - 1] == s.input[..n][1..];
      assert s.plan[taken + 1..s.dispatched] == s.plan[taken..s.dispatched][1..];
    } else {
      assert s.input[1..][..0] == [];
    }
  }

  /** Jobs are taken in the order in which they are dispatched. */
  lemma QueueIsFair(s: State, t: State, taken: nat) returns (next: nat)
    requires QueueInOrder(s, taken) && Steps(s, t)
    ensures QueueInOrder(t, next) && taken <= next
  {
    var step :| Enabled(s, step) && Apply(s, step) == t;
    next := taken;
    match step
    case Dispatch =>
      DispatchKeepsOrder(s, taken);
    case Poison =>
      PoisonKeepsOrder(s, taken);
    case Get(w) =>
      GetKeepsOrder(s, w, taken);
      next := if taken < s.dispatched then taken + 1 else taken;
    case _ =>
  }

  lemma QueueStarts(plan: seq<Job>, processors: nat)
    ensures QueueInOrder(Init(plan, processors), 0)
  {
  }

  /** At every moment of every run the queue holds the jobs that are next. */
  lemma {:induction false} RunIsFair(plan: seq<Job>, processors: nat, run: seq<State>, k: nat) returns (taken: nat)
    requires IsRun(plan, processors, run) && k < |run|
    ensures QueueInOrder(run[k], taken)
  {
    if k == 0 {
      QueueStarts(plan, processors);
      taken := 0;
    } else {
      hide *;
      taken := RunIsFair(plan, processors, run, k - 1);
      RunStep(plan, processors, run, k - 1);
      taken := QueueIsFair(run[k - 1], run[k], taken);
    }
  }

  /** Results are collected in the order in which they are reported. */
  lemma ResultsAreFair(s: State, t: State)
    requires Steps(s, t)
    ensures s.collected + s.output <= t.collected + t.output
  {
  }
}
