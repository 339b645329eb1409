/** A simulated core's clock ticks: round-robin choice of a thread, what the thread's yield does, and when the
    simulation may end. */
module CoreScheduler {
  import opened Options
  import opened Remainders

  datatype Stage = StageInit | StageComp | StageComm | StageOther

  /** What a thread waits for; completed tells whether it has been granted. */
  datatype ThreadState =
    | Idle
    | Mem(completed: bool)
    | SetStage(stage: Stage, completed: bool)
    | IncrementPhase(completed: bool)
    | Nop(count: nat, completed: bool)
    | Terminated
  {
    predicate CanResume() { Idle? || (!Terminated? && completed) }
  }

  datatype Core = Core(threads: seq<ThreadState>, last: nat, done: int, idle: nat, maxIdle: nat, stage: Stage,
                       phase: nat, phaseMax: nat, on: bool, mayEnd: bool)

  // ---------------------------------------------------------------- selection

  /** The t-th candidate after the last thread. */
  function Candidate(last: nat, t: nat, n: nat): (u: nat)
    requires last < n && t < n
    ensures u < n
  {
    (last + t + 1) % n
  }

  /** How many candidates come before thread u. */
  function Distance(last: nat, u: nat, n: nat): (d: nat)
    requires last < n && u < n
    ensures d < n
  {
    if u > last then u - last - 1 else u + n - last - 1
  }

  lemma CandidateAt(last: nat, t: nat, n: nat)
    requires last < n && t < n
    ensures Distance(last, Candidate(last, t, n), n) == t
  {
    var x := last + t + 1;
    if x < n { Small(x, n); } else { TurnOnce(x, n); }
  }

  lemma TurnOnce(x: nat, n: nat)
    requires n <= x < 2 * n
    ensures x % n == x - n
  {
  }

  /** The ready thread closest after the last one. */
  ghost predicate IsNext(threads: seq<ThreadState>, last: nat, u: nat) {
    && last < |threads| && u < |threads| && threads[u].CanResume()
    && forall v :: 0 <= v < |threads| && threads[v].CanResume() ==>
         Distance(last, u, |threads|) <= Distance(last, v, |threads|)
  }

  ghost predicate Selected(threads: seq<ThreadState>, last: nat, r: Option<nat>) {
    match r
    case Some(u) => IsNext(threads, last, u)
    case None => forall v :: 0 <= v < |threads| ==> !threads[v].CanResume()
  }

  // ---------------------------------------------------------------- ticks

  /** What a resumed thread may ask for. */
  predicate Yields(y: ThreadState) { !y.Idle? && (y.Terminated? || !y.completed) }

  /** handleThreadStateAfterYield. */
  function AfterYield(c: Core, u: nat, y: ThreadState): (c': Core)
    requires u < |c.threads| && Yields(y) && c.phaseMax > 0
  {
    match y
    case SetStage(stage, _) => c.(threads := c.threads[u := SetStage(stage, true)], stage := stage)
    case IncrementPhase(_) => c.(threads := c.threads[u := IncrementPhase(true)], phase := (c.phase + 1) % c.phaseMax)
    case Terminated => c.(threads := c.threads[u := y], done := c.done - 1)
    case _ => c.(threads := c.threads[u := y])
  }

  /** executeReadyThread, when chosen is selected and asks for y. */
  function Execute(c: Core, chosen: Option<nat>, y: ThreadState): (c': Core)
    requires c.phaseMax > 0 && (chosen.Some? ==> chosen.value < |c.threads| && Yields(y))
  {
    match chosen
    case None => c.(idle := c.idle + 1)
    case Some(u) => AfterYield(c, u, y).(idle := 0, last := u)
  }

  /** clockTick. */
  function Tick(c: Core, chosen: Option<nat>, y: ThreadState): (c': Core)
    requires c.phaseMax > 0 && (chosen.Some? ==> chosen.value < |c.threads| && Yields(y))
  {
    var e := Execute(c, chosen, y);
    e.(mayEnd := e.mayEnd || e.done == 0, on := !(e.done == 0 || e.idle >= e.maxIdle))
  }

  /** A response or a nop's end turns the core on. */
  function Complete(c: Core, t: nat): (c': Core)
    requires t < |c.threads|
  {
    match c.threads[t]
    case Mem(_) => c.(threads := c.threads[t := Mem(true)], on := true)
    case Nop(k, _) => c.(threads := c.threads[t := Nop(k, true)], on := true)
    case _ => c
  }

  // ---------------------------------------------------------------- runs

  datatype Event = Ticked(chosen: Option<nat>, y: ThreadState) | Completed(t: nat)

  ghost predicate Next(c: Core, e: Event, c': Core) {
    match e
    case Ticked(chosen, y) =>
      && c.on && c.phaseMax > 0 && Selected(c.threads, c.last, chosen) && (chosen.Some? ==> Yields(y))
      && c' == Tick(c, chosen, y)
    case Completed(t) => t < |c.threads| && c' == Complete(c, t)
  }

  ghost predicate Start(c: Core) {
    && 0 < |c.threads| == c.done && c.last == |c.threads| - 1 && c.idle == 0 < c.maxIdle && c.phaseMax > 0 && c.on && !c.mayEnd
    && c.stage == StageInit && c.phase == 0
    && forall t :: 0 <= t < |c.threads| ==> c.threads[t] == Idle
  }

  ghost predicate IsRun(run: seq<Core>, events: seq<Event>) {
    && |run| == |events| + 1 && Start(run[0])
    && forall i :: 0 <= i < |events| ==> Next(run[i], events[i], run[i + 1])
  }

  ghost function Running(threads: seq<ThreadState>): (n: nat) {
    if threads == [] then 0 else Running(threads[..|threads| - 1]) + if threads[|threads| - 1].Terminated? then 0 else 1
  }

  lemma {:induction false} RunningUpdate(threads: seq<ThreadState>, u: nat, y: ThreadState)
    requires u < |threads|
    ensures Running(threads[u := y]) ==
      Running(threads) - (if threads[u].Terminated? then 0 else 1) + (if y.Terminated? then 0 else 1)
    decreases |threads|
  {
    var n := |threads| - 1;
    if u == n {
      assert threads[u := y][..n] == threads[..n];
    } else {
      RunningUpdate(threads[..n], u, y);
      assert threads[u := y][..n] == threads[..n][u := y];
    }
  }

  lemma {:induction false} AllRunning(threads: seq<ThreadState>)
    requires forall t :: 0 <= t < |threads| ==> !threads[t].Terminated?
    ensures Running(threads) == |threads|
  {
    if threads != [] { AllRunning(threads[..|threads| - 1]); }
  }

  lemma {:induction false} NoneRunning(threads: seq<ThreadState>)
    ensures Running(threads) == 0 <==> forall t :: 0 <= t < |threads| ==> threads[t].Terminated?
  {
    if threads != [] { NoneRunning(threads[..|threads| - 1]); }
  }

  /** The counter is exact, ending is allowed exactly when it is zero, and the clock runs while it is needed. */
  ghost predicate Inv(c: Core) {
    && 0 < |c.threads| && c.last < |c.threads| && c.phaseMax > 0 && c.maxIdle > 0
    && c.done == Running(c.threads) && (c.mayEnd <==> c.done == 0)
    && forall t :: 0 <= t < |c.threads| && c.threads[t].CanResume() ==> c.on
  }

  lemma NextKeepsInv(c: Core, e: Event, c': Core)
    requires Inv(c) && Next(c, e, c')
    ensures Inv(c')
  {
    match e {
      case Ticked(chosen, y) => if chosen.Some? { ExecuteKeepsCount(c, chosen.value, y); NoneRunning(c'.threads); }
      case Completed(t) => RunningUpdate(c.threads, t, c'.threads[t]);
    }
  }

  lemma ExecuteKeepsCount(c: Core, u: nat, y: ThreadState)
    requires u < |c.threads| && c.threads[u].CanResume() && Yields(y) && c.phaseMax > 0 && c.done == Running(c.threads)
    ensures var c' := AfterYield(c, u, y); c'.done == Running(c'.threads)
  {
    var c' := AfterYield(c, u, y);
    RunningUpdate(c.threads, u, c'.threads[u]);
    assert c'.threads == c.threads[u := c'.threads[u]];
  }

  lemma {:induction false} RunKeepsInv(run: seq<Core>, events: seq<Event>, i: nat)
    requires IsRun(run, events) && i < |run|
    ensures Inv(run[i])
  {
    if i == 0 {
      AllRunning(run[0].threads);
    } else {
      RunKeepsInv(run, events, i - 1);
      assert Next(run[i - 1], events[i - 1], run[i - 1 + 1]);
      NextKeepsInv(run[i - 1], events[i - 1], run[i]);
    }
  }

  /** The simulation may end exactly when every thread has terminated. */
  lemma EndsWhenAllTerminated(run: seq<Core>, events: seq<Event>, i: nat)
    requires IsRun(run, events) && i < |run|
    ensures run[i].done == Running(run[i].threads)
    ensures run[i].mayEnd <==> forall t :: 0 <= t < |run[i].threads| ==> run[i].threads[t].Terminated?
  {
    RunKeepsInv(run, events, i);
    NoneRunning(run[i].threads);
  }

  // ---------------------------------------------------------------- fairness

  /** The number of ticks among events i to j. */
  ghost function Ticks(events: seq<Event>, i: nat, j: nat): (n: nat)
    requires i <= j <= |events|
  {
    if i == j then 0 else Ticks(events, i, j - 1) + if events[j - 1].Ticked? then 1 else 0
  }

  ghost predicate Executed(events: seq<Event>, i: nat, j: nat, u: nat)
    requires j <= |events|
  {
    exists k :: i <= k < j && events[k].Ticked? && events[k].chosen == Some(u)
  }

  /** A tick that executes another thread brings a ready thread closer. */
  lemma TickBringsCloser(c: Core, e: Event, c': Core, u: nat)
    requires Inv(c) && Next(c, e, c') && u < |c.threads| && c.threads[u].CanResume()
    ensures |c'.threads| == |c.threads| && c'.last < |c.threads|
    ensures e.Ticked? && e.chosen != Some(u) ==> Distance(c'.last, u, |c.threads|) < Distance(c.last, u, |c.threads|)
    ensures e.Completed? ==> c'.last == c.last
  {
    if e.Ticked? { assert e.chosen.Some?; }
  }

  lemma {:induction false} Closer(run: seq<Core>, events: seq<Event>, i: nat, j: nat, u: nat)
    requires IsRun(run, events) && i <= j < |run| && u < |run[0].threads| && !Executed(events, i, j, u)
    requires forall k :: i <= k < j ==> |run[k].threads| > u && run[k].threads[u].CanResume()
    ensures |run[i].threads| == |run[j].threads| == |run[0].threads|
    ensures run[i].last < |run[0].threads| && run[j].last < |run[0].threads|
    ensures Distance(run[j].last, u, |run[0].threads|) + Ticks(events, i, j) <= Distance(run[i].last, u, |run[0].threads|)
    decreases j
  {
    RunKeepsInv(run, events, i);
    SameThreads(run, events, i);
    if i < j {
      Closer(run, events, i, j - 1, u);
      RunKeepsInv(run, events, j - 1);
      assert Next(run[j - 1], events[j - 1], run[j - 1 + 1]);
      TickBringsCloser(run[j - 1], events[j - 1], run[j], u);
    }
  }

  lemma {:induction false} SameThreads(run: seq<Core>, events: seq<Event>, i: nat)
    requires IsRun(run, events) && i < |run|
    ensures |run[i].threads| == |run[0].threads|
  {
    if i > 0 {
      SameThreads(run, events, i - 1);
      assert Next(run[i - 1], events[i - 1], run[i - 1 + 1]);
    }
  }

  /** A thread that can resume throughout as many ticks as there are threads is executed in one of them. */
  lemma ReadyThreadIsExecuted(run: seq<Core>, events: seq<Event>, i: nat, j: nat, u: nat)
    requires IsRun(run, events) && i <= j < |run| && u < |run[0].threads|
    requires forall k :: i <= k < j ==> |run[k].threads| > u && run[k].threads[u].CanResume()
    requires Ticks(events, i, j) >= |run[0].threads|
    ensures Executed(events, i, j, u)
  {
    if !Executed(events, i, j, u) { Closer(run, events, i, j, u); }
  }

  /** While a thread can resume, the clock runs. */
  lemma ClockRuns(run: seq<Core>, events: seq<Event>, i: nat, u: nat)
    requires IsRun(run, events) && i < |run| && u < |run[i].threads| && run[i].threads[u].CanResume()
    ensures run[i].on
  {
    RunKeepsInv(run, events, i);
  }

  // ---------------------------------------------------------------- what the fields tell of the past

  /** What the event's thread asked for, if a thread was executed. */
  ghost function Asked(e: Event): Option<ThreadState> {
    if e.Ticked? && e.chosen.Some? then Some(e.y) else None
  }

  /** The stage set last. */
  ghost function LastStage(events: seq<Event>): Stage {
    if events == [] then StageInit
    else
      var asked := Asked(events[|events| - 1]);
      if asked.Some? && asked.value.SetStage? then asked.value.stage else LastStage(events[..|events| - 1])
  }

  /** How often a thread has asked for the next phase. */
  ghost function PhaseSteps(events: seq<Event>): nat {
    if events == [] then 0
    else
      var asked := Asked(events[|events| - 1]);
      PhaseSteps(events[..|events| - 1]) + if asked.Some? && asked.value.IncrementPhase? then 1 else 0
  }

  /** The ticks since a thread was executed. */
  ghost function IdleTicks(events: seq<Event>): nat {
    if events == [] then 0
    else
      var e, earlier := events[|events| - 1], IdleTicks(events[..|events| - 1]);
      if e.Completed? then earlier else if e.chosen.None? then earlier + 1 else 0
  }

  /** The thread executed last, of n; before any, the last one. */
  ghost function LastRun(events: seq<Event>, n: nat): int {
    if events == [] then n - 1
    else
      var e := events[|events| - 1];
      if e.Ticked? && e.chosen.Some? then e.chosen.value else LastRun(events[..|events| - 1], n)
  }

  /** The fields of c after the given events of n threads. */
  ghost predicate Tally(c: Core, events: seq<Event>, n: nat) {
    && c.stage == LastStage(events) && c.idle == IdleTicks(events) && c.last == LastRun(events, n)
    && c.phaseMax > 0 && c.phase == PhaseSteps(events) % c.phaseMax
  }

  lemma TallyStep(c: Core, events: seq<Event>, e: Event, c': Core, n: nat)
    requires Tally(c, events, n) && Next(c, e, c')
    ensures Tally(c', events + [e], n) && c'.phaseMax == c.phaseMax && c'.maxIdle == c.maxIdle
  {
    assert (events + [e])[..|events|] == events;
    if Asked(e).Some? && Asked(e).value.IncrementPhase? { NextRemainder(PhaseSteps(events), c.phaseMax); }
  }

  lemma {:induction false} Tallies(run: seq<Core>, events: seq<Event>, i: nat)
    requires IsRun(run, events) && i < |run|
    ensures Tally(run[i], events[..i], |run[0].threads|)
    ensures run[i].phaseMax == run[0].phaseMax && run[i].maxIdle == run[0].maxIdle
  {
    if i == 0 {
      Small(0, run[0].phaseMax);
    } else {
      Tallies(run, events, i - 1);
      assert events[..i] == events[..i - 1] + [events[i - 1]];
      assert Next(run[i - 1], events[i - 1], run[i - 1 + 1]);
      TallyStep(run[i - 1], events[..i - 1], events[i - 1], run[i], |run[0].threads|);
    }
  }

  lemma NextRemainder(a: nat, n: nat)
    requires n > 0
    ensures (a % n + 1) % n == (a + 1) % n
  {
    assert a + 1 == a % n + 1 + n * (a / n);
    ModAdd(a % n + 1, n, a / n);
  }

  /** What an event does to a thread: the executed one is as it asked to be, and can resume at once exactly if it set a
      stage or began a phase; a completed request lets its thread resume; nothing happens to the others. */
  lemma ThreadStep(c: Core, e: Event, c': Core, t: nat)
    requires Next(c, e, c') && t < |c.threads|
    ensures |c'.threads| == |c.threads|
    ensures e.Ticked? && e.chosen == Some(t) ==>
      && c.threads[t].CanResume() && (c'.threads[t].CanResume() <==> e.y.SetStage? || e.y.IncrementPhase?)
      && (e.y.Mem? || e.y.Nop? || e.y.Terminated? ==> c'.threads[t] == e.y)
    ensures e == Completed(t) && (c.threads[t].Mem? || c.threads[t].Nop?) ==>
      c'.threads[t] == c.threads[t].(completed := true) && c'.threads[t].CanResume() && c'.on
    ensures e == Completed(t) && !c.threads[t].Mem? && !c.threads[t].Nop? ==> c' == c
    ensures e.Ticked? && e.chosen != Some(t) ==> c'.threads[t] == c.threads[t]
    ensures e.Completed? && e.t != t ==> c'.threads[t] == c.threads[t]
    ensures c.threads[t].Terminated? ==> c'.threads[t].Terminated?
  {
  }

  ghost predicate AllTerminated(threads: seq<ThreadState>) { forall t :: 0 <= t < |threads| ==> threads[t].Terminated? }

  /** A tick turns the clock off exactly if all threads have terminated or maxIdle ticks in a row found none to execute. */
  lemma ClockStops(run: seq<Core>, events: seq<Event>, i: nat)
    requires IsRun(run, events) && i < |events| && events[i].Ticked?
    ensures run[i + 1].on <==>
      !AllTerminated(run[i + 1].threads) && IdleTicks(events[..i + 1]) < run[0].maxIdle
  {
    RunKeepsInv(run, events, i + 1);
    NoneRunning(run[i + 1].threads);
    Tallies(run, events, i + 1);
    assert Next(run[i], events[i], run[i + 1]);
  }

  // ---------------------------------------------------------------- the component

  class DrvCore {
    const maxIdle: nat
    const phaseMax: nat
    var threads: seq<ThreadState>
    var last: nat
    var done: int
    var idle: nat
    var stage: Stage
    var phase: nat
    var on: bool
    var mayEnd: bool

    function Snapshot(): (c: Core)
      reads this
    {
      Core(threads, last, done, idle, maxIdle, stage, phase, phaseMax, on, mayEnd)
    }

    constructor (count: nat, maxIdle: nat, phaseMax: nat)
      requires count > 0 && maxIdle > 0 && phaseMax > 0
      ensures Start(Snapshot()) && |threads| == count
    {
      this.maxIdle, this.phaseMax := maxIdle, phaseMax;
      threads := seq(count, i => Idle);
      last, done, idle, stage, phase, on, mayEnd := count - 1, count, 0, StageInit, 0, true, false;
    }

    method SelectReadyThread() returns (r: Option<nat>)
      requires last < |threads|
      ensures Selected(threads, last, r)
    {
      r := None;
      for t := 0 to |threads|
        invariant r.Some? ==> IsNext(threads, last, r.value)
        invariant r.None? ==> forall v :: 0 <= v < |threads| && threads[v].CanResume() ==> t <= Distance(last, v, |threads|)
      {
        var u := Candidate(last, t, |threads|);
        CandidateAt(last, t, |threads|);
        if r.None? {
          if threads[u].CanResume() {
            r := Some(u);
          } else {
            forall v | 0 <= v < |threads| && threads[v].CanResume() ensures t + 1 <= Distance(last, v, |threads|) {
              if Distance(last, v, |threads|) == t { SameDistance(last, u, v, |threads|); }
            }
          }
        }
      }
    }

    /** What thread u asks for when it has been resumed. */
    method HandleThreadStateAfterYield(u: nat, y: ThreadState)
      requires u < |threads| && Yields(y) && phaseMax > 0
      modifies this
      ensures Snapshot() == AfterYield(old(Snapshot()), u, y)
    {
      threads := threads[u := y];
      match y {
        case SetStage(s, _) =>
          stage := s;
          threads := threads[u := SetStage(s, true)];
        case IncrementPhase(_) =>
          phase := (phase + 1) % phaseMax;
          threads := threads[u := IncrementPhase(true)];
        case Terminated => done := done - 1;
        case _ =>
      }
    }

    /** asks(u) is what thread u asks for next. */
    method ExecuteReadyThread(asks: nat -> ThreadState) returns (chosen: Option<nat>)
      requires last < |threads| && phaseMax > 0 && forall u :: Yields(asks(u))
      modifies this
      ensures Selected(old(threads), old(last), chosen)
      ensures Snapshot() == Execute(old(Snapshot()), chosen, if chosen.Some? then asks(chosen.value) else Idle)
    {
      chosen := SelectReadyThread();
      match chosen {
        case None => idle := idle + 1;
        case Some(u) =>
          idle := 0;
          HandleThreadStateAfterYield(u, asks(u));
          last := u;
      }
    }

    method ClockTick(asks: nat -> ThreadState) returns (unregister: bool, ghost e: Event)
      requires on && last < |threads| && phaseMax > 0 && forall u :: Yields(asks(u))
      modifies this
      ensures Next(old(Snapshot()), e, Snapshot()) && e.Ticked? && unregister == !on
    {
      var chosen := ExecuteReadyThread(asks);
      e := Ticked(chosen, if chosen.Some? then asks(chosen.value) else Idle);
      if done == 0 { mayEnd := true; }
      unregister := done == 0 || idle >= maxIdle;
      on := !unregister;
    }
  }

  lemma SameDistance(last: nat, u: nat, v: nat, n: nat)
    requires last < n && u < n && v < n && Distance(last, u, n) == Distance(last, v, n)
    ensures u == v
  {
  }
}
