/** The whole sub-queue: the dequeue protocol and the block index in one machine. A consumer that has claimed elements
    of the head looks their blocks up; what it claims is what the protocol gives it, and nothing guards the claim. */
module QueueRuns {
  import DP = DequeueProtocol
  import IR = IndexRuns
  import opened BlockSlots
  import opened Sums

  /** The two halves, over the same consumers. */
  datatype State<T> = State(queue: DP.State<T>, index: IR.State)

  datatype Action<T> =
    | Store(a: IR.Action)     // the producer's steps in the index
    | Publish(xs: seq<T>)     // its store of tailIndex, with the elements it constructed
    | Begin(t: nat, max: nat) // a consumer's call
    | Count(t: nat)           // its next operation on the counters
    | Look(t: nat)            // its next load or store in the index

  /** The claim: fetch_add on headIndex, and the batch is the consumer's to look up. */
  ghost function ClaimStep<T>(s: State<T>, t: nat): (s': State<T>)
    requires t < |s.queue.pcs| == |s.index.consumers| && s.queue.pcs[t].Claim?
  {
    var first, n := s.queue.head, s.queue.pcs[t].actual;
    State(DP.Step(s.queue, t, DP.Go),
          if n == 0 then s.index
          else s.index.(consumers := s.index.consumers[t := IR.LoadHeader(first, first + n)],
                        claimed := s.index.claimed + IR.Range(first, first + n)))
  }

  /** A dequeue returns when it has taken its elements. */
  ghost predicate CanCount<T>(s: State<T>, t: nat) {
    && t < |s.queue.pcs| == |s.index.consumers| && DP.Enabled(s.queue, t, DP.Go)
    && (s.queue.pcs[t].Read? ==> s.index.consumers[t].Free?)
  }

  ghost predicate CanLook<T>(s: State<T>, t: nat)
    requires IR.WellFormed(s.index)
  {
    t < |s.index.consumers| && IR.ConsumerEnabled(s.index, t, IR.Go(t))
  }

  ghost predicate StepsBy<T>(s: State<T>, a: Action<T>, s': State<T>)
    requires IR.WellFormed(s.index)
  {
    match a
    case Store(b) =>
      && !b.Publish? && IR.ProducerEnabled(s.index, b)
      && s' == s.(index := IR.ProducerStep(s.index, b))
    case Publish(xs) =>
      var b := IR.Publish(|s.queue.items| + |xs|);
      && IR.ProducerEnabled(s.index, b)
      && s' == State(DP.Step(s.queue, 0, DP.Enqueue(xs)), IR.ProducerStep(s.index, b))
    case Begin(t, max) =>
      && DP.Enabled(s.queue, t, DP.Start(max))
      && s' == s.(queue := DP.Step(s.queue, t, DP.Start(max)))
    case Count(t) =>
      && CanCount(s, t)
      && s' == if s.queue.pcs[t].Claim? then ClaimStep(s, t) else s.(queue := DP.Step(s.queue, t, DP.Go))
    case Look(t) =>
      && CanLook(s, t)
      && s' == s.(index := IR.ConsumerStep(s.index, t, IR.Go(t)))
  }

  ghost predicate Next<T(!new)>(s: State<T>, s': State<T>) { IR.WellFormed(s.index) && exists a :: StepsBy(s, a, s') }

  ghost predicate Init<T>(s: State<T>) { DP.Init(s.queue) && IR.Init(s.index) && |s.queue.pcs| == |s.index.consumers| }

  ghost predicate IsRun<T(!new)>(run: seq<State<T>>) {
    |run| > 0 && Init(run[0]) && forall k :: 0 <= k < |run| - 1 ==> Next(run[k], run[k + 1])
  }

  // ---------------------------------------------------------------- the invariant

  /** A consumer looks up elements of the batch it claimed, in order, and has taken those before. */
  ghost predicate BatchOk(pc: DP.Pc, c: IR.Consumer, taken: set<nat>) {
    if pc.Read? then
      if c.Free? then IR.Range(pc.first, pc.first + pc.actual) <= taken
      else pc.first <= c.i < c.end == pc.first + pc.actual && forall k: nat :: pc.first <= k < c.end && !IR.Owns(c, k) ==> k in taken
    else c.Free?
  }

  ghost predicate Linked<T>(s: State<T>) {
    && |s.queue.pcs| == |s.index.consumers| && s.index.tailIndex == |s.queue.items|
    && s.index.claimed == IR.Range(0, s.queue.head)
    && forall t :: 0 <= t < |s.queue.pcs| ==> BatchOk(s.queue.pcs[t], s.index.consumers[t], s.index.taken)
  }

  datatype Ghost = Ghost(history: DP.History, index: IR.Ghost)

  ghost predicate Inv<T>(s: State<T>, g: Ghost) {
    DP.Inv(s.queue, g.history) && DP.Conserved(s.queue) && IR.SysInv(s.index, g.index) && Linked(s)
  }

  /** The protocol only lets a consumer claim elements that are published and unclaimed. */
  lemma ClaimIsEnabled<T>(s: State<T>, g: Ghost, t: nat)
    requires Inv(s, g) && IR.WellFormed(s.index) && t < |s.queue.pcs| && s.queue.pcs[t].Claim? && s.queue.pcs[t].actual > 0
    ensures var first, n := s.queue.head, s.queue.pcs[t].actual;
      && IR.ConsumerEnabled(s.index, t, IR.Claim(t, first, first + n))
      && ClaimStep(s, t).index == IR.ConsumerStep(s.index, t, IR.Claim(t, first, first + n))
  {
    DP.ClaimsArePublished(s.queue, g.history);
    assert BatchOk(s.queue.pcs[t], s.index.consumers[t], s.index.taken);
  }

  lemma OthersLinked<T>(s: State<T>, s': State<T>, t: nat)
    requires Linked(s) && |s'.queue.pcs| == |s.queue.pcs| == |s'.index.consumers| && t < |s.queue.pcs|
    requires forall u :: 0 <= u < |s.queue.pcs| && u != t ==> s'.queue.pcs[u] == s.queue.pcs[u] && s'.index.consumers[u] == s.index.consumers[u]
    requires s.index.taken <= s'.index.taken && BatchOk(s'.queue.pcs[t], s'.index.consumers[t], s'.index.taken)
    requires s'.index.tailIndex == |s'.queue.items| && s'.index.claimed == IR.Range(0, s'.queue.head)
    ensures Linked(s')
  {
    forall u | 0 <= u < |s.queue.pcs| ensures BatchOk(s'.queue.pcs[u], s'.index.consumers[u], s'.index.taken) {
      assert BatchOk(s.queue.pcs[u], s.index.consumers[u], s.index.taken);
    }
  }

  lemma CountIndex<T>(s: State<T>, g: Ghost, t: nat, s': State<T>)
    requires Inv(s, g) && IR.WellFormed(s.index) && StepsBy(s, Count(t), s')
    ensures IR.SysInv(s'.index, g.index)
  {
    if s.queue.pcs[t].Claim? && s.queue.pcs[t].actual > 0 {
      ClaimIsEnabled(s, g, t);
      var first := s.queue.head;
      IR.ClaimKeeps(s.index, g.index, t, IR.Claim(t, first, first + s.queue.pcs[t].actual), s'.index);
    }
  }

  lemma CountLinked<T>(s: State<T>, t: nat, s': State<T>)
    requires Linked(s) && IR.WellFormed(s.index) && StepsBy(s, Count(t), s')
    ensures Linked(s')
  {
    assert BatchOk(s.queue.pcs[t], s.index.consumers[t], s.index.taken);
    OthersLinked(s, s', t);
  }

  lemma CountKeeps<T>(s: State<T>, g: Ghost, t: nat, s': State<T>) returns (g': Ghost)
    requires Inv(s, g) && IR.WellFormed(s.index) && StepsBy(s, Count(t), s')
    ensures Inv(s', g')
  {
    var h' := DP.StepKeepsInv(s.queue, g.history, t, DP.Go);
    DP.StepConserves(s.queue, t, DP.Go);
    g' := Ghost(h', g.index);
    CountIndex(s, g, t, s');
    CountLinked(s, t, s');
  }

  lemma LookLinked<T>(s: State<T>, t: nat, s': State<T>)
    requires Linked(s) && IR.WellFormed(s.index) && StepsBy(s, Look(t), s')
    ensures Linked(s')
  {
    var c := s.index.consumers[t];
    assert BatchOk(s.queue.pcs[t], c, s.index.taken) && IR.ConsumerFits(s.index.index, c);
    IR.BlockSteps(c.i, c.end);
    OthersLinked(s, s', t);
  }

  lemma LookKeeps<T>(s: State<T>, g: Ghost, t: nat, s': State<T>) returns (g': Ghost)
    requires Inv(s, g) && IR.WellFormed(s.index) && StepsBy(s, Look(t), s')
    ensures Inv(s', g')
  {
    var x' := IR.StepKeepsInv(s.index, g.index, IR.Go(t), s'.index);
    g' := Ghost(g.history, x');
    LookLinked(s, t, s');
  }

  lemma ProducerKeeps<T>(s: State<T>, g: Ghost, a: Action<T>, s': State<T>) returns (g': Ghost)
    requires Inv(s, g) && IR.WellFormed(s.index) && (a.Store? || a.Publish?) && StepsBy(s, a, s')
    ensures Inv(s', g')
  {
    var b := if a.Store? then a.a else IR.Publish(|s.queue.items| + |a.xs|);
    var x' := IR.ProducerKeepsInv(s.index, g.index, b, s'.index);
    var h' := g.history;
    if a.Publish? {
      h' := DP.StepKeepsInv(s.queue, g.history, 0, DP.Enqueue(a.xs));
      DP.StepConserves(s.queue, 0, DP.Enqueue(a.xs));
    }
    g' := Ghost(h', x');
  }

  /** Every step keeps the invariant. */
  lemma StepKeepsInv<T>(s: State<T>, g: Ghost, a: Action<T>, s': State<T>) returns (g': Ghost)
    requires Inv(s, g) && IR.WellFormed(s.index) && StepsBy(s, a, s')
    ensures Inv(s', g')
  {
    match a
    case Store(_) => g' := ProducerKeeps(s, g, a, s');
    case Publish(_) => g' := ProducerKeeps(s, g, a, s');
    case Begin(t, max) =>
      var h' := DP.StepKeepsInv(s.queue, g.history, t, DP.Start(max));
      DP.StepConserves(s.queue, t, DP.Start(max));
      g' := Ghost(h', g.index);
      assert BatchOk(s.queue.pcs[t], s.index.consumers[t], s.index.taken);
      OthersLinked(s, s', t);
    case Count(t) => g' := CountKeeps(s, g, t, s');
    case Look(t) => g' := LookKeeps(s, g, t, s');
  }

  // ---------------------------------------------------------------- all runs

  ghost predicate Safe<T>(s: State<T>) {
    && DP.Safe(s.queue) && IR.Safe(s.index) && Linked(s)
    // only claimed elements are taken
    && (forall k :: k in s.index.taken ==> k in s.index.claimed)
    // what a consumer is about to claim is published, and nobody else's
    && (forall t: nat :: t < |s.queue.pcs| && s.queue.pcs[t].Claim? ==>
          && s.index.consumers[t].Free? && s.queue.head + s.queue.pcs[t].actual <= s.index.tailIndex
          && IR.Range(s.queue.head, s.queue.head + s.queue.pcs[t].actual) !! s.index.claimed)
    // no consumer is ever stuck: it has a step on the counters or one in the index
    && (forall t: nat :: t < |s.queue.pcs| && !s.queue.pcs[t].Idle? ==> CanCount(s, t) || CanLook(s, t))
  }

  lemma InvIsSafe<T>(s: State<T>, g: Ghost)
    requires Inv(s, g)
    ensures Safe(s)
  {
    DP.InvIsSafe(s.queue, g.history);
    IR.InvIsSafe(s.index, g.index);
    DP.ClaimsArePublished(s.queue, g.history);
    forall t: nat | t < |s.queue.pcs| && s.queue.pcs[t].Claim?
      ensures s.index.consumers[t].Free? && s.queue.head + s.queue.pcs[t].actual <= s.index.tailIndex
    {
      assert BatchOk(s.queue.pcs[t], s.index.consumers[t], s.index.taken);
    }
  }

  lemma InitInv<T(!new)>(s: State<T>) returns (g: Ghost)
    requires Init(s)
    ensures Inv(s, g)
  {
    var run := [s.queue];
    var h := DP.RunKeepsInv(run, 0);
    var x := IR.InitInv(s.index);
    g := Ghost(h, x);
  }

  lemma {:induction false} RunKeepsInv<T(!new)>(run: seq<State<T>>, k: nat) returns (g: Ghost)
    requires IsRun(run) && k < |run|
    ensures Inv(run[k], g)
  {
    if k == 0 {
      g := InitInv(run[0]);
    } else {
      var g0 := RunKeepsInv(run, k - 1);
      assert Next(run[k - 1], run[k - 1 + 1]);
      var a :| StepsBy(run[k - 1], a, run[k]);
      g := StepKeepsInv(run[k - 1], g0, a, run[k]);
    }
  }

  /** Every state of every run of the whole sub-queue is safe. */
  lemma RunsAreSafe<T(!new)>(run: seq<State<T>>)
    requires IsRun(run)
    ensures forall k :: 0 <= k < |run| ==> Safe(run[k])
  {
    forall k | 0 <= k < |run| ensures Safe(run[k]) {
      var g := RunKeepsInv(run, k);
      InvIsSafe(run[k], g);
    }
  }

  /** With no call under way, the elements taken are those below the head, each live entry of the index holds a block
      with an element at or above the head, and every such element's block is found. */
  lemma QuietIndex<T(!new)>(run: seq<State<T>>, k: nat)
    requires IsRun(run) && k < |run| && run[k].index.producer.Adding? && run[k].index.count == 0
    requires forall t :: 0 <= t < |run[k].queue.pcs| ==> run[k].queue.pcs[t].Idle?
    ensures var s := run[k];
      && s.index.taken == IR.Range(0, s.queue.head) && IR.IndexFits(s.index.index)
      && (forall e: nat :: e < |s.index.index.entries| && !IR.Unused(s.index.index.entries[e]) ==>
            exists b: nat :: IR.HoldsStored(s.index, e, b) && b < s.index.first && s.queue.head < (b + 1) * BLOCK_SIZE)
      && (forall i: nat :: s.queue.head <= i < |s.queue.items| ==>
            IR.HoldsStored(s.index, IR.Lookup(s.index.index, i), i / BLOCK_SIZE))
  {
    var s := run[k];
    RunsAreSafe(run);
    assert Safe(s);
    QuietTaken(s);
    forall e: nat | e < |s.index.index.entries| && !IR.Unused(s.index.index.entries[e])
      ensures exists b: nat :: IR.HoldsStored(s.index, e, b) && b < s.index.first && s.queue.head < (b + 1) * BLOCK_SIZE
    {
      var b: nat :| IR.InUse(s.index, b) && IR.HoldsStored(s.index, e, b);
      QuietBlock(s, b);
    }
  }

  lemma QuietTaken<T>(s: State<T>)
    requires Safe(s) && forall t :: 0 <= t < |s.queue.pcs| ==> s.queue.pcs[t].Idle?
    ensures s.index.taken == IR.Range(0, s.queue.head)
  {
    forall t | 0 <= t < |s.queue.pcs| ensures s.index.consumers[t].Free? {
      assert BatchOk(s.queue.pcs[t], s.index.consumers[t], s.index.taken);
    }
  }

  lemma QuietBlock<T>(s: State<T>, b: nat)
    requires Safe(s) && IR.InUse(s.index, b) && s.index.taken == IR.Range(0, s.queue.head) && s.index.count == 0
    requires forall t :: 0 <= t < |s.queue.pcs| ==> s.queue.pcs[t].Idle?
    ensures b < s.index.first && s.queue.head < (b + 1) * BLOCK_SIZE
  {
    forall t | 0 <= t < |s.queue.pcs| ensures s.index.consumers[t].Free? {
      assert BatchOk(s.queue.pcs[t], s.index.consumers[t], s.index.taken);
    }
    assert !IR.BeingCleared(s.index, b);
    var i: nat :| i / BLOCK_SIZE == b && i !in s.index.taken;
  }
}
