/** The protocol between the main thread of the test runner, its worker threads and the
    interrupt handler, as a state machine whose steps are the atomic actions of the threads. */
module TestRunner {
  import opened Sequences
  import opened Sums

  // ----- Jobs -----

  /** `outcome` is what running the job's command is going to return; nobody reads it before. */
  datatype Job = Job(displayName: string, isBreak: bool, isSkip: bool, returncode: int, outcome: int)

  const POISON := Job("", true, false, 0, 0)

  /** The job as it was dispatched. */
  function Original(j: Job): Job {
    j.(isBreak := false, returncode := 0)
  }

  datatype Kind = PASS | FAIL | VALGR | CRASH | SKIP | BREAK

  /** How the collecting loop classifies a result. */
  function KindOf(j: Job): Kind {
    if j.isBreak then BREAK
    else if j.isSkip then SKIP
    else if j.returncode == 0 then PASS
    else if j.returncode == 1 then FAIL
    else if j.returncode == 2 then VALGR
    else CRASH
  }

  /** The counters and name lists of the collecting loop. */
  datatype Summary = Summary(passed: nat, skipped: nat, failed: nat, crashed: nat, valgrindErrors: nat,
    skippedNames: seq<string>, failedNames: seq<string>, crashedNames: seq<string>, valgrindNames: seq<string>)

  const NO_RESULTS := Summary(0, 0, 0, 0, 0, [], [], [], [])

  function CountResult(t: Summary, j: Job): Summary {
    match KindOf(j)
    case BREAK => t
    case SKIP => t.(skipped := t.skipped + 1, skippedNames := t.skippedNames + [j.displayName])
    case PASS => t.(passed := t.passed + 1)
    case FAIL => t.(failed := t.failed + 1, failedNames := t.failedNames + [j.displayName])
    case VALGR => t.(valgrindErrors := t.valgrindErrors + 1, valgrindNames := t.valgrindNames + [j.displayName])
    case CRASH => t.(crashed := t.crashed + 1, crashedNames := t.crashedNames + [j.displayName])
  }

  // ----- States and steps -----

  datatype Worker = Waiting | Holding(job: Job) | Running(job: Job) | Reporting(job: Job) | Exited

  datatype ExitCode = NotYet | Returned(code: int)

  /** The main thread dispatches `plan`, then one poison job per worker, then collects one
      result per dispatched job, then joins the workers in turn, then returns. */
  datatype State = State(
    plan: seq<Job>, dispatched: nat, poisoned: nat, input: seq<Job>,
    workers: seq<Worker>, threadExit: bool,
    output: seq<Job>, collected: seq<Job>, summary: Summary, joined: nat, exit: ExitCode)

  function Init(plan: seq<Job>, processors: nat): State {
    State(plan, 0, 0, [], seq(processors, _ => Waiting), false, [], [], NO_RESULTS, 0, NotYet)
  }

  datatype Step =
    | Dispatch | Poison | Collect | Join | Return
    | Get(w: nat) | Examine(w: nat) | Finish(w: nat) | Put(w: nat)
    | Interrupt

  predicate Enabled(s: State, step: Step) {
    match step
    case Dispatch => s.dispatched < |s.plan|
    case Poison => s.dispatched == |s.plan| && s.poisoned < |s.workers|
    case Collect =>
      s.dispatched == |s.plan| && s.poisoned == |s.workers| && |s.collected| < |s.plan| && s.output != []
    case Join =>
      s.dispatched == |s.plan| && s.poisoned == |s.workers| && |s.collected| == |s.plan|
      && s.joined < |s.workers| && s.workers[s.joined].Exited?
    case Return =>
      s.dispatched == |s.plan| && s.poisoned == |s.workers| && |s.collected| == |s.plan|
      && s.joined == |s.workers| && s.exit.NotYet?
    case Get(w) => w < |s.workers| && s.workers[w].Waiting? && s.input != []
    case Examine(w) => w < |s.workers| && s.workers[w].Holding?
    case Finish(w) => w < |s.workers| && s.workers[w].Running?
    case Put(w) => w < |s.workers| && s.workers[w].Reporting?
    case Interrupt => !s.threadExit
  }

  /** What a worker does with the job it took: leave on poison, hand real jobs straight back
      after an interrupt or when they are to be skipped, and otherwise run them. */
  function Decide(j: Job, threadExit: bool): Worker {
    if j.isBreak then Exited
    else if threadExit then Reporting(j.(isBreak := true))
    else if j.isSkip then Reporting(j)
    else Running(j)
  }

  function Apply(s: State, step: Step): State
    requires Enabled(s, step)
  {
    match step
    case Dispatch => s.(input := s.input + [s.plan[s.dispatched]], dispatched := s.dispatched + 1)
    case Poison => s.(input := s.input + [POISON], poisoned := s.poisoned + 1)
    case Collect =>
      var j := s.output[0];
      s.(output := s.output[1..], collected := s.collected + [j], summary := CountResult(s.summary, j))
    case Join => s.(joined := s.joined + 1)
    case Return =>
      s.(exit := Returned(if s.summary.passed + s.summary.skipped == |s.plan| then 0 else 1))
    case Get(w) => s.(input := s.input[1..], workers := s.workers[w := Holding(s.input[0])])
    case Examine(w) => s.(workers := s.workers[w := Decide(s.workers[w].job, s.threadExit)])
    case Finish(w) =>
      var j := s.workers[w].job;
      s.(workers := s.workers[w := Reporting(j.(returncode := j.outcome))])
    case Put(w) => s.(output := s.output + [s.workers[w].job], workers := s.workers[w := Waiting])
    case Interrupt => s.(threadExit := true)
  }

  // ----- Where the jobs are -----

  // `pick` picks jobs as they were dispatched, whatever became of them since.

  function PickJob(pick: Job -> bool, j: Job): nat {
    if pick(Original(j)) then 1 else 0
  }

  /** Among the jobs of the input queue, those that are not poison. */
  function PickReal(pick: Job -> bool, j: Job): nat {
    if j.isBreak then 0 else PickJob(pick, j)
  }

  function PickHeld(pick: Job -> bool, w: Worker): nat {
    match w
    case Waiting => 0
    case Holding(j) => PickReal(pick, j)
    case Running(j) => PickJob(pick, j)
    case Reporting(j) => PickJob(pick, j)
    case Exited => 0
  }

  function Picked(pick: Job -> bool): Job -> nat { j => PickJob(pick, j) }
  function PickedReal(pick: Job -> bool): Job -> nat { j => PickReal(pick, j) }
  function PickedHeld(pick: Job -> bool): Worker -> nat { w => PickHeld(pick, w) }

  function PoisonIn(j: Job): nat {
    if j.isBreak then 1 else 0
  }

  /** A worker has taken a poison job once it holds one or has left on it. */
  function PoisonBy(w: Worker): nat {
    match w
    case Holding(j) => PoisonIn(j)
    case Exited => 1
    case _ => 0
  }

  // ----- The invariant -----

  /** The main thread's phases follow one another. */
  ghost predicate InOrder(s: State) {
    && s.dispatched <= |s.plan| && s.poisoned <= |s.workers| && |s.collected| <= |s.plan|
    && s.joined <= |s.workers|
    && (s.poisoned > 0 ==> s.dispatched == |s.plan|)
    && (s.collected != [] ==> s.poisoned == |s.workers|)
    && (s.joined > 0 ==> |s.collected| == |s.plan|)
    && (forall i :: 0 <= i < s.joined ==> s.workers[i].Exited?)
    && (s.exit.Returned? ==>
          && s.dispatched == |s.plan| && s.poisoned == |s.workers|
          && |s.collected| == |s.plan| && s.joined == |s.workers|)
  }

  /** As many of the jobs dispatched are picked as of those queued, held, reported and collected. */
  ghost predicate Balanced(s: State, pick: Job -> bool)
    requires s.dispatched <= |s.plan|
  {
    Sum(s.plan[..s.dispatched], Picked(pick))
      == Sum(s.input, PickedReal(pick)) + Sum(s.workers, PickedHeld(pick))
       + Sum(s.output, Picked(pick)) + Sum(s.collected, Picked(pick))
  }

  /** No job is lost and none is duplicated. */
  ghost predicate Conserved(s: State) {
    s.dispatched <= |s.plan| && forall pick: Job -> bool :: Balanced(s, pick)
  }

  /** Each poison job is in the queue or has been taken by one worker. */
  ghost predicate PoisonConserved(s: State) {
    s.poisoned == Sum(s.input, PoisonIn) + Sum(s.workers, PoisonBy)
  }

  /** Poison follows all real jobs, in the queue and out of it. */
  ghost predicate PoisonLast(s: State) {
    && (forall i, j :: 0 <= i < j < |s.input| && s.input[i].isBreak ==> s.input[j].isBreak)
    && (Sum(s.workers, PoisonBy) > 0 ==> forall j :: 0 <= j < |s.input| ==> s.input[j].isBreak)
  }

  /** A result is either a job handed back after an interrupt, a skipped job, or a job carrying
      the return code of its command. */
  predicate IsResult(j: Job, threadExit: bool) {
    if j.isBreak then threadExit else j.isSkip || j.returncode == j.outcome
  }

  /** Dispatched jobs are real jobs that have not run. */
  ghost predicate PlanFresh(plan: seq<Job>) {
    forall i :: 0 <= i < |plan| ==> plan[i] == Original(plan[i])
  }

  ghost predicate ResultsOk(s: State) {
    && PlanFresh(s.plan)
    && (forall i :: 0 <= i < |s.input| && !s.input[i].isBreak ==> s.input[i] == Original(s.input[i]))
    && (forall w :: 0 <= w < |s.workers| ==>
          match s.workers[w]
          case Holding(j) => j.isBreak || j == Original(j)
          case Running(j) => j == Original(j) && !j.isSkip
          case Reporting(j) => IsResult(j, s.threadExit)
          case _ => true)
    && (forall i :: 0 <= i < |s.output| ==> IsResult(s.output[i], s.threadExit))
    && (forall i :: 0 <= i < |s.collected| ==> IsResult(s.collected[i], s.threadExit))
  }

  function Tally(results: seq<Job>): Summary {
    if results == [] then NO_RESULTS
    else CountResult(Tally(results[..|results| - 1]), results[|results| - 1])
  }

  ghost predicate Counted(s: State) {
    && s.summary == Tally(s.collected)
    && (s.exit.Returned? ==>
          s.exit.code == if s.summary.passed + s.summary.skipped == |s.plan| then 0 else 1)
  }

  ghost predicate Inv(s: State) {
    InOrder(s) && Conserved(s) && PoisonConserved(s) && PoisonLast(s) && ResultsOk(s) && Counted(s)
  }

  // ----- Every step keeps the invariant -----

  lemma InitInv(plan: seq<Job>, processors: nat)
    requires PlanFresh(plan)
    ensures Inv(Init(plan, processors))
  {
    var s := Init(plan, processors);
    SumZero(s.workers, PoisonBy);
    assert s.plan[..0] == [];
    forall pick: Job -> bool ensures Balanced(s, pick) {
      SumZero(s.workers, PickedHeld(pick));
    }
  }

  lemma KeepsInOrder(s: State, step: Step)
    requires InOrder(s) && Enabled(s, step)
    ensures InOrder(Apply(s, step))
  {
  }

  /** A worker passes a job on, or keeps it in another state. */
  lemma WorkerKeepsBalance(s: State, w: nat, v: Worker, input: seq<Job>, output: seq<Job>, pick: Job -> bool)
    requires s.dispatched <= |s.plan| && Balanced(s, pick) && w < |s.workers|
    requires Sum(input, PickedReal(pick)) + PickHeld(pick, v) + Sum(output, Picked(pick))
          == Sum(s.input, PickedReal(pick)) + PickHeld(pick, s.workers[w]) + Sum(s.output, Picked(pick))
    ensures Balanced(s.(workers := s.workers[w := v], input := input, output := output), pick)
  {
    SumUpdate(s.workers, w, v, PickedHeld(pick));
  }

  lemma TakingKeepsBalance(s: State, step: Step, pick: Job -> bool)
    requires s.dispatched <= |s.plan| && Balanced(s, pick) && Enabled(s, step) && (step.Get? || step.Examine?)
    ensures Balanced(Apply(s, step), pick)
  {
    var w := step.w;
    if step.Get? {
      WorkerKeepsBalance(s, w, Holding(s.input[0]), s.input[1..], s.output, pick);
    } else {
      WorkerKeepsBalance(s, w, Decide(s.workers[w].job, s.threadExit), s.input, s.output, pick);
    }
  }

  lemma GivingKeepsBalance(s: State, step: Step, pick: Job -> bool)
    requires s.dispatched <= |s.plan| && Balanced(s, pick) && Enabled(s, step) && (step.Finish? || step.Put?)
    ensures Balanced(Apply(s, step), pick)
  {
    var w := step.w;
    var j := s.workers[w].job;
    if step.Finish? {
      WorkerKeepsBalance(s, w, Reporting(j.(returncode := j.outcome)), s.input, s.output, pick);
    } else {
      SumAppend(s.output, j, Picked(pick));
      WorkerKeepsBalance(s, w, Waiting, s.input, s.output + [j], pick);
    }
  }

  lemma MainStepKeepsBalance(s: State, step: Step, pick: Job -> bool)
    requires s.dispatched <= |s.plan| && Balanced(s, pick) && Enabled(s, step) && PlanFresh(s.plan)
    requires !(step.Get? || step.Examine? || step.Finish? || step.Put?)
    ensures Balanced(Apply(s, step), pick)
  {
    match step
    case Dispatch =>
      var j := s.plan[s.dispatched];
      Advance(s.plan, s.dispatched);
      SumAppend(s.plan[..s.dispatched], j, Picked(pick));
      SumAppend(s.input, j, PickedReal(pick));
      hide Sum;
    case Poison =>
      SumAppend(s.input, POISON, PickedReal(pick));
    case Collect =>
      SumAppend(s.collected, s.output[0], Picked(pick));
    case _ =>
  }

  lemma KeepsConserved(s: State, step: Step)
    requires Conserved(s) && Enabled(s, step) && PlanFresh(s.plan)
    ensures Conserved(Apply(s, step))
  {
    forall pick: Job -> bool ensures Balanced(Apply(s, step), pick) {
      if step.Get? || step.Examine? {
        TakingKeepsBalance(s, step, pick);
      } else if step.Finish? || step.Put? {
        GivingKeepsBalance(s, step, pick);
      } else {
        MainStepKeepsBalance(s, step, pick);
      }
    }
  }

  /** A worker changes its state without taking or dropping poison. */
  lemma SamePoison(s: State, w: nat, v: Worker)
    requires w < |s.workers| && PoisonBy(v) == PoisonBy(s.workers[w])
    ensures Sum(s.workers[w := v], PoisonBy) == Sum(s.workers, PoisonBy)
  {
    SumUpdate(s.workers, w, v, PoisonBy);
  }

  /** A step of a worker other than taking a job leaves the queue and the poison alone. */
  lemma WorkerKeepsPoison(s: State, step: Step)
    requires Enabled(s, step) && (step.Examine? || step.Finish? || step.Put?)
    ensures var t := Apply(s, step);
      t.input == s.input && t.poisoned == s.poisoned && Sum(t.workers, PoisonBy) == Sum(s.workers, PoisonBy)
  {
    hide Sum;
    var w := step.w;
    SamePoison(s, w, Apply(s, step).workers[w]);
  }

  lemma KeepsPoisonConserved(s: State, step: Step)
    requires InOrder(s) && PoisonConserved(s) && Enabled(s, step) && PlanFresh(s.plan)
    ensures PoisonConserved(Apply(s, step))
  {
    match step
    case Dispatch =>
      SumAppend(s.input, s.plan[s.dispatched], PoisonIn);
    case Poison =>
      SumAppend(s.input, POISON, PoisonIn);
    case Get(w) =>
      SumUpdate(s.workers, w, Holding(s.input[0]), PoisonBy);
    case Examine(_) =>
      WorkerKeepsPoison(s, step);
    case Finish(_) =>
      WorkerKeepsPoison(s, step);
    case Put(_) =>
      WorkerKeepsPoison(s, step);
    case _ =>
  }

  lemma KeepsPoisonLast(s: State, step: Step)
    requires InOrder(s) && PoisonConserved(s) && PoisonLast(s) && Enabled(s, step) && PlanFresh(s.plan)
    ensures PoisonLast(Apply(s, step))
  {
    match step
    case Dispatch =>
      SumZero(s.input, PoisonIn);
    case Get(w) =>
      SumUpdate(s.workers, w, Holding(s.input[0]), PoisonBy);
      hide Sum;
    case Examine(_) =>
      WorkerKeepsPoison(s, step);
      hide Sum, Apply, Enabled;
    case Finish(_) =>
      WorkerKeepsPoison(s, step);
      hide Sum, Apply, Enabled;
    case Put(_) =>
      WorkerKeepsPoison(s, step);
      hide Sum, Apply, Enabled;
    case _ =>
      hide Sum;
  }

  lemma KeepsResults(s: State, step: Step)
    requires ResultsOk(s) && Enabled(s, step)
    ensures ResultsOk(Apply(s, step))
  {
  }

  lemma KeepsCounted(s: State, step: Step)
    requires InOrder(s) && Counted(s) && Enabled(s, step)
    ensures Counted(Apply(s, step))
  {
  }

  lemma KeepsInv(s: State, step: Step)
    requires Inv(s) && Enabled(s, step)
    ensures Inv(Apply(s, step))
  {
    KeepsInOrder(s, step);
    KeepsConserved(s, step);
    KeepsPoisonConserved(s, step);
    KeepsPoisonLast(s, step);
    KeepsResults(s, step);
    KeepsCounted(s, step);
  }

  // ----- No deadlock -----

  /** The step open to a worker that holds a job. */
  function OwnStep(s: State, w: nat): Step
    requires w < |s.workers| && !s.workers[w].Waiting? && !s.workers[w].Exited?
  {
    match s.workers[w]
    case Holding(_) => Examine(w)
    case Running(_) => Finish(w)
    case Reporting(_) => Put(w)
  }

  /** When no worker holds a job and no result waits, missing results are still queued, and
      nobody has left. */
  lemma MissingJobsQueued(s: State)
    requires InOrder(s) && Conserved(s) && PoisonLast(s)
    requires s.dispatched == |s.plan| && |s.collected| < |s.plan| && s.output == []
    requires forall w :: 0 <= w < |s.workers| ==> s.workers[w].Waiting? || s.workers[w].Exited?
    ensures s.input != [] && forall w :: 0 <= w < |s.workers| ==> s.workers[w].Waiting?
  {
    var all: Job -> bool := _ => true;
    assert Balanced(s, all);
    SumOnes(s.plan, Picked(all));
    SumOnes(s.collected, Picked(all));
    assert s.plan[..s.dispatched] == s.plan;
    SumZero(s.workers, PickedHeld(all));
    SumZero(s.input, PickedReal(all));
    SumZero(s.workers, PoisonBy);
  }

  /** While results are missing, there is one to collect or a worker that can step. */
  lemma ResultsComing(s: State) returns (step: Step)
    requires Inv(s) && |s.workers| > 0 && s.poisoned == |s.workers| && |s.collected| < |s.plan|
    ensures Enabled(s, step) && !step.Interrupt?
  {
    if s.output != [] {
      return Collect;
    }
    if w: nat :| w < |s.workers| && !s.workers[w].Waiting? && !s.workers[w].Exited? {
      return OwnStep(s, w);
    }
    MissingJobsQueued(s);
    return Get(0);
  }

  /** In every state short of the end the program can move on by itself, provided there is a
      worker or nothing to do. */
  lemma Progress(s: State) returns (step: Step)
    requires Inv(s) && s.exit.NotYet? && (|s.workers| > 0 || s.plan == [])
    ensures Enabled(s, step) && !step.Interrupt?
  {
    if s.dispatched < |s.plan| {
      return Dispatch;
    }
    if s.poisoned < |s.workers| {
      return Poison;
    }
    if |s.collected| < |s.plan| {
      step := ResultsComing(s);
    } else if s.joined == |s.workers| {
      return Return;
    } else if s.workers[s.joined].Exited? {
      return Join;
    } else if s.workers[s.joined].Waiting? {
      PoisonLeft(s, s.joined);
      return Get(s.joined);
    } else {
      return OwnStep(s, s.joined);
    }
  }

  /** As long as a worker waits, a poison job is left for it. */
  lemma PoisonLeft(s: State, w: nat)
    requires PoisonConserved(s) && s.poisoned == |s.workers| && w < |s.workers| && s.workers[w].Waiting?
    ensures s.input != []
  {
    SumShort(s.workers, PoisonBy, w);
  }

  // ----- Termination -----

  function QueueWork(j: Job): nat {
    if j.isBreak then 2 else 5
  }

  function HeldWork(w: Worker): nat {
    match w
    case Waiting => 0
    case Holding(j) => if j.isBreak then 1 else 4
    case Running(_) => 3
    case Reporting(_) => 2
    case Exited => 0
  }

  /** No more steps than this can follow. */
  ghost function Remaining(s: State): int {
    6 * (|s.plan| - s.dispatched) + 3 * (|s.workers| - s.poisoned)
    + Sum(s.input, QueueWork) + Sum(s.workers, HeldWork) + |s.output|
    + (|s.workers| - s.joined) + (if s.exit.NotYet? then 1 else 0) + (if s.threadExit then 0 else 1)
  }

  lemma WorkerStepDecreases(s: State, step: Step)
    requires InOrder(s) && Enabled(s, step) && (step.Get? || step.Examine? || step.Finish? || step.Put?)
    ensures Remaining(Apply(s, step)) < Remaining(s)
  {
    var w := step.w;
    if step.Get? {
      SumUpdate(s.workers, w, Holding(s.input[0]), HeldWork);
    } else {
      hide Sum;
      SumUpdate(s.workers, w, Apply(s, step).workers[w], HeldWork);
    }
  }

  lemma StepDecreases(s: State, step: Step)
    requires InOrder(s) && Enabled(s, step) && PlanFresh(s.plan)
    ensures Remaining(Apply(s, step)) < Remaining(s)
  {
    match step
    case Dispatch => SumAppend(s.input, s.plan[s.dispatched], QueueWork);
    case Poison => SumAppend(s.input, POISON, QueueWork);
    case Collect =>
    case Join =>
    case Return =>
    case Interrupt =>
    case _ => WorkerStepDecreases(s, step);
  }

  // ----- Whole runs -----

  ghost predicate Steps(s: State, t: State) {
    exists step :: Enabled(s, step) && Apply(s, step) == t
  }

  /** Any interleaving of the threads' steps, from the start and not necessarily to the end. */
  ghost predicate IsRun(plan: seq<Job>, processors: nat, run: seq<State>) {
    && run != [] && run[0] == Init(plan, processors)
    && forall i, j :: 0 <= i < |run| && j == i + 1 < |run| ==> Steps(run[i], run[j])
  }

  lemma StepIsSafe(s: State, t: State)
    requires Inv(s) && Steps(s, t)
    ensures Inv(t) && t.plan == s.plan && |t.workers| == |s.workers|
    ensures Remaining(t) < Remaining(s)
  {
    var step :| Enabled(s, step) && Apply(s, step) == t;
    assert t.plan == s.plan && |t.workers| == |s.workers| && InOrder(s) && PlanFresh(s.plan);
    hide *;
    KeepsInv(s, step);
    StepDecreases(s, step);
  }

  /** What holds of every state of a run. */
  ghost predicate SafeState(plan: seq<Job>, processors: nat, s: State) {
    Inv(s) && s.plan == plan && |s.workers| == processors
  }

  lemma LastStep(plan: seq<Job>, processors: nat, run: seq<State>)
    requires IsRun(plan, processors, run) && |run| > 1
    ensures var n := |run| - 1; IsRun(plan, processors, run[..n]) && Steps(run[n - 1], run[n])
  {
  }

  lemma SafeStep(plan: seq<Job>, processors: nat, s: State, t: State)
    requires SafeState(plan, processors, s) && Steps(s, t)
    ensures SafeState(plan, processors, t) && Remaining(t) < Remaining(s)
  {
    StepIsSafe(s, t);
    hide Inv, Steps, Remaining;
  }

  /** Every state of every run satisfies the invariant, and each step uses up some of the work. */
  lemma {:induction false} RunsAreSafe(plan: seq<Job>, processors: nat, run: seq<State>)
    requires IsRun(plan, processors, run) && PlanFresh(plan)
    ensures forall i :: 0 <= i < |run| ==> SafeState(plan, processors, run[i])
    ensures |run| + Remaining(run[|run| - 1]) <= 1 + Remaining(Init(plan, processors))
  {
    var n := |run| - 1;
    if n == 0 {
      InitInv(plan, processors);
    } else {
      hide *;
      LastStep(plan, processors, run);
      RunsAreSafe(plan, processors, run[..n]);
      assert forall i :: 0 <= i < n ==> run[..n][i] == run[i];
      SafeStep(plan, processors, run[n - 1], run[n]);
    }
  }

  /** No run goes on for ever: six steps for each job, four for each worker, and two more. */
  lemma RunsAreBounded(plan: seq<Job>, processors: nat, run: seq<State>)
    requires IsRun(plan, processors, run) && PlanFresh(plan)
    ensures |run| - 1 <= 6 * |plan| + 4 * processors + 2
  {
    RunsAreSafe(plan, processors, run);
    SumZero(Init(plan, processors).workers, HeldWork);
    assert SafeState(plan, processors, run[|run| - 1]);
  }

  /** A run that cannot be continued by the program has reached the end. */
  lemma RunsEndReturned(plan: seq<Job>, processors: nat, run: seq<State>)
    requires IsRun(plan, processors, run) && PlanFresh(plan) && (processors > 0 || plan == [])
    requires forall step :: Enabled(run[|run| - 1], step) ==> step.Interrupt?
    ensures run[|run| - 1].exit.Returned?
  {
    RunsAreSafe(plan, processors, run);
    assert SafeState(plan, processors, run[|run| - 1]);
    if run[|run| - 1].exit.NotYet? {
      var step := Progress(run[|run| - 1]);
    }
  }

  /** With jobs but no worker the main thread waits for ever, so the proviso is exact. */
  lemma {:induction false} NoWorkersNoReturn(plan: seq<Job>, run: seq<State>)
    requires IsRun(plan, 0, run) && plan != []
    ensures var s := run[|run| - 1];
      s.plan == plan && s.workers == [] && s.output == [] && s.collected == [] && s.exit.NotYet?
  {
    var n := |run| - 1;
    if n > 0 {
      NoWorkersNoReturn(plan, run[..n]);
      assert Steps(run[n - 1], run[n]);
    }
  }

  // ----- What the end says -----

  function IsKind(k: Kind): Job -> nat {
    (j: Job) => if KindOf(j) == k then 1 else 0
  }

  function NamesOf(results: seq<Job>, k: Kind): seq<string> {
    if results == [] then []
    else
      var j := results[|results| - 1];
      NamesOf(results[..|results| - 1], k) + (if KindOf(j) == k then [j.displayName] else [])
  }

  function Count(results: seq<Job>, k: Kind): nat {
    Sum(results, IsKind(k))
  }

  lemma CountAppend(results: seq<Job>, j: Job)
    ensures forall k :: Count(results + [j], k) == Count(results, k) + (if KindOf(j) == k then 1 else 0)
  {
    forall k ensures Count(results + [j], k) == Count(results, k) + (if KindOf(j) == k then 1 else 0) {
      SumAppend(results, j, IsKind(k));
    }
  }

  lemma NamesAppend(results: seq<Job>, j: Job)
    ensures forall k ::
      NamesOf(results + [j], k) == NamesOf(results, k) + (if KindOf(j) == k then [j.displayName] else [])
  {
    assert (results + [j])[..|results|] == results;
  }

  /** The counters count the results by kind, and the name lists list them. */
  lemma {:induction false} TallyCounts(results: seq<Job>)
    ensures var t := Tally(results);
      && t.passed == Count(results, PASS) && t.skipped == Count(results, SKIP)
      && t.failed == Count(results, FAIL) && t.crashed == Count(results, CRASH)
      && t.valgrindErrors == Count(results, VALGR)
      && t.skippedNames == NamesOf(results, SKIP) && t.failedNames == NamesOf(results, FAIL)
      && t.crashedNames == NamesOf(results, CRASH) && t.valgrindNames == NamesOf(results, VALGR)
  {
    if results != [] {
      var init, j := results[..|results| - 1], results[|results| - 1];
      TallyCounts(init);
      assert results == init + [j];
      CountAppend(init, j);
      NamesAppend(init, j);
      hide Count, NamesOf;
    }
  }

  lemma {:induction false} KindsPartition(results: seq<Job>)
    ensures |results| == Count(results, PASS) + Count(results, SKIP) + Count(results, FAIL)
      + Count(results, CRASH) + Count(results, VALGR) + Count(results, BREAK)
  {
    if results != [] {
      KindsPartition(results[1..]);
    }
  }

  predicate Good(j: Job) {
    KindOf(j) == PASS || KindOf(j) == SKIP
  }

  lemma {:induction false} AllGood(results: seq<Job>)
    ensures Count(results, PASS) + Count(results, SKIP) <= |results|
    ensures Count(results, PASS) + Count(results, SKIP) == |results| <==>
      forall i :: 0 <= i < |results| ==> Good(results[i])
  {
    if results != [] {
      AllGood(results[1..]);
      assert forall i :: 0 < i < |results| ==> results[i] == results[1..][i - 1];
    }
  }

  lemma EndQueues(s: State)
    requires InOrder(s) && PoisonConserved(s) && PoisonLast(s) && s.exit.Returned? && |s.workers| > 0
    ensures s.input == [] && forall w :: 0 <= w < |s.workers| ==> s.workers[w].Exited?
  {
    SumOnes(s.workers, PoisonBy);
    SumZero(s.input, PoisonIn);
  }

  lemma EndBalance(s: State, pick: Job -> bool)
    requires InOrder(s) && Conserved(s) && s.exit.Returned? && s.input == []
    requires forall w :: 0 <= w < |s.workers| ==> s.workers[w].Exited?
    ensures Sum(s.plan, Picked(pick)) == Sum(s.output, Picked(pick)) + Sum(s.collected, Picked(pick))
  {
    assert Balanced(s, pick);
    SumZero(s.workers, PickedHeld(pick));
    assert s.plan[..s.dispatched] == s.plan;
  }

  /** At the end everybody has left, the queues are empty, and every dispatched job has come
      back exactly once. */
  lemma EndState(s: State)
    requires Inv(s) && s.exit.Returned? && |s.workers| > 0
    ensures s.input == [] && s.output == [] && forall w :: 0 <= w < |s.workers| ==> s.workers[w].Exited?
    ensures |s.collected| == |s.plan|
    ensures forall pick: Job -> bool :: Sum(s.plan, Picked(pick)) == Sum(s.collected, Picked(pick))
  {
    EndQueues(s);
    var all: Job -> bool := _ => true;
    EndBalance(s, all);
    SumOnes(s.plan, Picked(all));
    SumOnes(s.output, Picked(all));
    SumOnes(s.collected, Picked(all));
    forall pick: Job -> bool ensures Sum(s.plan, Picked(pick)) == Sum(s.collected, Picked(pick)) {
      EndBalance(s, pick);
    }
  }

  /** The counters and the interrupted jobs add up to all jobs, and the exit code says whether
      every job was passed or skipped. */
  lemma EndCode(s: State)
    requires Inv(s) && s.exit.Returned?
    ensures |s.plan| == s.summary.passed + s.summary.skipped + s.summary.failed + s.summary.crashed
      + s.summary.valgrindErrors + Count(s.collected, BREAK)
    ensures s.exit.code == if forall i :: 0 <= i < |s.collected| ==> Good(s.collected[i]) then 0 else 1
  {
    TallyCounts(s.collected);
    KindsPartition(s.collected);
    AllGood(s.collected);
  }

  // ----- Independence of the schedule -----

  /** How a dispatched job is reported that no interrupt catches: by what its command returns. */
  function ExpectedKind(j: Job): Kind {
    if j.isSkip then SKIP
    else match j.outcome
      case 0 => PASS
      case 1 => FAIL
      case 2 => VALGR
      case _ => CRASH
  }

  lemma {:induction false} CountExpected(results: seq<Job>, k: Kind)
    requires forall i :: 0 <= i < |results| ==> IsResult(results[i], false)
    ensures Count(results, k) == Sum(results, Picked((j: Job) => ExpectedKind(j) == k))
  {
    if results != [] {
      assert IsResult(results[0], false);
      CountExpected(results[1..], k);
    }
  }

  /** Without an interrupt the counts depend on the jobs alone, not on the interleaving, and the
      exit code is 0 exactly when every job is skipped or its command returns 0. */
  lemma UninterruptedEnd(s: State)
    requires Inv(s) && s.exit.Returned? && |s.workers| > 0 && !s.threadExit
    ensures forall k :: Count(s.collected, k) == Sum(s.plan, Picked((j: Job) => ExpectedKind(j) == k))
    ensures s.exit.code == 0 <==> forall i :: 0 <= i < |s.plan| ==> s.plan[i].isSkip || s.plan[i].outcome == 0
  {
    EndState(s);
    EndCode(s);
    forall k ensures Count(s.collected, k) == Sum(s.plan, Picked((j: Job) => ExpectedKind(j) == k)) {
      CountExpected(s.collected, k);
    }
    NoBadJobs(s.plan, s.collected, false);
  }

  /** Whatever was interrupted, exit code 0 vouches for every dispatched job. */
  lemma ZeroVouches(s: State)
    requires Inv(s) && s.exit.Returned? && |s.workers| > 0 && s.exit.code == 0
    ensures forall i :: 0 <= i < |s.plan| ==> s.plan[i].isSkip || s.plan[i].outcome == 0
  {
    EndState(s);
    EndCode(s);
    NoBadJobs(s.plan, s.collected, s.threadExit);
  }

  predicate Bad(j: Job) {
    !j.isSkip && j.outcome != 0
  }

  /** If the same jobs come back, the good results show whether the plan has bad jobs. */
  lemma NoBadJobs(plan: seq<Job>, results: seq<Job>, threadExit: bool)
    requires PlanFresh(plan) && forall i :: 0 <= i < |results| ==> IsResult(results[i], threadExit)
    requires Sum(plan, Picked(Bad)) == Sum(results, Picked(Bad))
    ensures (forall i :: 0 <= i < |results| ==> Good(results[i])) ==> forall i :: 0 <= i < |plan| ==> !Bad(plan[i])
    ensures !threadExit && (forall i :: 0 <= i < |plan| ==> !Bad(plan[i])) ==>
      forall i :: 0 <= i < |results| ==> Good(results[i])
  {
    SumZero(plan, Picked(Bad));
    SumZero(results, Picked(Bad));
    forall i | 0 <= i < |plan| ensures Picked(Bad)(plan[i]) == 0 <==> !Bad(plan[i]) {
    }
    forall i | 0 <= i < |results| && IsResult(results[i], threadExit)
      ensures Good(results[i]) ==> Picked(Bad)(results[i]) == 0
      ensures !threadExit && Picked(Bad)(results[i]) == 0 ==> Good(results[i])
    {
    }
  }
}
