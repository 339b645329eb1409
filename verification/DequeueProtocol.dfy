/** The optimistic-count dequeue protocol of one producer's sub-queue: one producer publishes
    elements by advancing the tail, and any number of consumers dequeue, singly or in bulk.
    One atomic operation per step, any interleaving, sequential consistency. Counters are
    naturals; CircularLessThan below relates them to the wrapping 64-bit comparisons. */
module DequeueProtocol {
  import opened PowersOfTwo
  import opened Remainders
  import opened Sums

  /** A consumer's position: the next atomic operation, with its locals. A single dequeue is
      the bulk dequeue of at most one element. */
  datatype Pc =
    | Idle
    | LoadOver(max: nat, tail: nat)                  // load dequeueOvercommit
    | LoadCount(max: nat, tail: nat, over: nat)      // load dequeueOptimisticCount
    | Reserve(desired: nat, over: nat)               // fetch_add on dequeueOptimisticCount
    | Recheck(desired: nat, over: nat, mine: nat)    // reload tailIndex and judge
    | Refund(desired: nat, actual: nat)              // give back desired - actual to dequeueOvercommit
    | Claim(actual: nat)                             // fetch_add on headIndex
    | GiveUp(desired: nat)                           // give back everything
    | Read(first: nat, actual: nat)                  // move the elements out and return

  /** What one successful dequeue returned, and from which index. */
  datatype Batch<T> = Batch(first: nat, elems: seq<T>)

  /** items are all elements ever published, so |items| is tailIndex; done are the dequeues that returned. */
  datatype State<T> = State(items: seq<T>, head: nat, count: nat, over: nat, pcs: seq<Pc>, done: seq<Batch<T>>)

  datatype Action<T> = Enqueue(xs: seq<T>) | Start(max: nat) | Go

  ghost predicate Enabled<T>(s: State<T>, t: nat, a: Action<T>) {
    a.Enqueue? || (t < |s.pcs| && (a.Start? <==> s.pcs[t].Idle?)
                   && (s.pcs[t].Read? ==> s.pcs[t].first + s.pcs[t].actual <= |s.items|))
  }

  function Min(a: int, b: int): int { if a < b then a else b }

  /** One atomic operation: the producer's publication, or the next operation of consumer t. */
  ghost function Step<T>(s: State<T>, t: nat, a: Action<T>): (s': State<T>)
    requires Enabled(s, t, a)
  {
    match a
    case Enqueue(xs) => s.(items := s.items + xs)
    case Start(max) => s.(pcs := s.pcs[t := LoadOver(max, |s.items|)])
    case Go =>
      match s.pcs[t]
      case LoadOver(max, tail) => s.(pcs := s.pcs[t := LoadCount(max, tail, s.over)])
      case LoadCount(max, tail, over) =>
        var room := tail - (s.count - over);
        s.(pcs := s.pcs[t := if 0 < room then Reserve(Min(room, max), over) else Idle])
      case Reserve(desired, over) =>
        s.(count := s.count + desired, pcs := s.pcs[t := Recheck(desired, over, s.count)])
      case Recheck(desired, over, mine) =>
        var room := |s.items| - (mine - over);
        if 0 >= room then s.(pcs := s.pcs[t := GiveUp(desired)])
        else if room < desired then s.(pcs := s.pcs[t := Refund(desired, room)])
        else s.(pcs := s.pcs[t := Claim(desired)])
      case Refund(desired, actual) =>
        s.(over := if actual <= desired then s.over + (desired - actual) else s.over,
           pcs := s.pcs[t := Claim(actual)])
      case Claim(actual) => s.(head := s.head + actual, pcs := s.pcs[t := Read(s.head, actual)])
      case GiveUp(desired) => s.(over := s.over + desired, pcs := s.pcs[t := Idle])
      case Read(first, actual) =>
        s.(done := s.done + [Batch(first, s.items[first..first + actual])], pcs := s.pcs[t := Idle])
  }

  ghost predicate Init<T>(s: State<T>) {
    && s.items == [] && s.head == s.count == s.over == 0 && s.done == []
    && forall t :: 0 <= t < |s.pcs| ==> s.pcs[t].Idle?
  }

  ghost predicate Next<T(!new)>(s: State<T>, s': State<T>) {
    exists t: nat, a: Action<T> :: Enabled(s, t, a) && s' == Step(s, t, a)
  }

  ghost predicate IsRun<T(!new)>(run: seq<State<T>>) {
    && |run| > 0 && Init(run[0])
    && forall i :: 0 <= i < |run| - 1 ==> Next(run[i], run[i + 1])
  }

  // ---------------------------------------------------------------- invariant

  /** Reserved in dequeueOptimisticCount, but neither claimed nor given back yet. */
  ghost function InFlight(pc: Pc): int {
    match pc
    case Recheck(desired, _, _) => desired
    case Refund(desired, _) => desired
    case Claim(actual) => actual
    case GiveUp(desired) => desired
    case _ => 0
  }

  /** Judged to succeed, but not claimed yet. */
  ghost function Judged(pc: Pc): int { if pc.Refund? || pc.Claim? then pc.actual else 0 }

  /** The history of reservations, in the order of the fetch_adds: how much each asked for,
      how much of it has been given back, and how much was judged successful. */
  datatype Attempt = Attempt(desired: nat, failed: nat, succ: nat)
  datatype History = History(log: seq<Attempt>, slot: seq<nat>)

  ghost function Desired(a: Attempt): int { a.desired }
  ghost function Failed(a: Attempt): int { a.failed }
  ghost function Succ(a: Attempt): int { a.succ }
  ghost function Effective(a: Attempt): int { a.desired - a.failed }

  ghost predicate Logged(pc: Pc) { pc.Recheck? || pc.Refund? || pc.GiveUp? }

  ghost predicate PcOk<T>(s: State<T>, h: History, t: nat)
    requires t < |s.pcs| == |h.slot|
  {
    var j := h.slot[t];
    && (Logged(s.pcs[t]) ==> j < |h.log|)
    && match s.pcs[t]
       case LoadCount(_, _, over) => over <= s.over
       case Reserve(_, over) => over <= s.over
       // the remembered overcommit counts failures of earlier reservations only
       case Recheck(desired, over, mine) =>
         && h.log[j] == Attempt(desired, 0, 0)
         && mine == Sum(Desired, h.log[..j]) && over <= Sum(Failed, h.log[..j])
       case Refund(desired, actual) => actual <= desired && h.log[j] == Attempt(desired, 0, actual)
       case GiveUp(desired) => h.log[j] == Attempt(desired, 0, 0)
       case Read(first, actual) => first + actual <= s.head
       case _ => true
  }

  /** A judged success fits below the tail even if every earlier reservation not yet given back succeeds. */
  ghost predicate Fits(log: seq<Attempt>, tail: nat, j: nat)
    requires j < |log|
  {
    && log[j].failed + log[j].succ <= log[j].desired
    && (log[j].succ > 0 ==> Sum(Effective, log[..j]) + log[j].succ <= tail)
  }

  ghost predicate Inv<T>(s: State<T>, h: History) {
    && |h.slot| == |s.pcs|
    && s.count == Sum(Desired, h.log) == s.head + s.over + Sum(InFlight, s.pcs)
    && s.over == Sum(Failed, h.log)
    && s.head + Sum(Judged, s.pcs) == Sum(Succ, h.log)
    && (forall j :: 0 <= j < |h.log| ==> Fits(h.log, |s.items|, j))
    && (forall t :: 0 <= t < |s.pcs| ==> PcOk(s, h, t))
    && (forall t, u :: 0 <= t < u < |s.pcs| && Logged(s.pcs[t]) && Logged(s.pcs[u]) ==> h.slot[t] != h.slot[u])
  }

  lemma {:induction false} EffectiveIsDifference(log: seq<Attempt>)
    ensures Sum(Effective, log) == Sum(Desired, log) - Sum(Failed, log)
  {
    if log != [] { EffectiveIsDifference(log[..|log| - 1]); }
  }

  /** The successes judged so far never exceed the published elements. */
  lemma {:induction false} SuccessesFit(log: seq<Attempt>, tail: nat)
    requires forall j :: 0 <= j < |log| ==> Fits(log, tail, j)
    ensures Sum(Succ, log) <= tail
  {
    if log != [] {
      var n := |log| - 1;
      var init := log[..n];
      assert Fits(log, tail, n);
      forall j | 0 <= j < n ensures Fits(init, tail, j) && init[j].succ <= Effective(init[j]) {
        assert Fits(log, tail, j) && init[..j] == log[..j];
      }
      if log[n].succ > 0 {
        SumMonotone(Succ, Effective, init);
      } else {
        SuccessesFit(init, tail);
      }
    }
  }

  // ---------------------------------------------------------------- each step keeps the invariant

  lemma PrefixUpdate(f: Attempt -> int, log: seq<Attempt>, j: nat, e: Attempt, k: nat)
    requires j < |log| && k <= |log|
    ensures Sum(f, log[j := e][..k]) == Sum(f, log[..k]) + if j < k then f(e) - f(log[j]) else 0
  {
    if j < k {
      assert log[j := e][..k] == log[..k][j := e];
      SumUpdate(f, log[..k], j, e);
    } else {
      assert log[j := e][..k] == log[..k];
    }
  }

  /** Thread t moves to pc; the counters only grow. */
  ghost predicate Moves<T>(s: State<T>, s': State<T>, t: nat, pc: Pc) {
    && t < |s.pcs| && s'.pcs == s.pcs[t := pc] && s'.items == s.items
    && s.head <= s'.head && s.over <= s'.over
  }

  lemma MoveSums<T>(s: State<T>, s': State<T>, t: nat, pc: Pc)
    requires Moves(s, s', t, pc)
    ensures Sum(InFlight, s'.pcs) == Sum(InFlight, s.pcs) - InFlight(s.pcs[t]) + InFlight(pc)
    ensures Sum(Judged, s'.pcs) == Sum(Judged, s.pcs) - Judged(s.pcs[t]) + Judged(pc)
  {
    SumUpdate(InFlight, s.pcs, t, pc);
    SumUpdate(Judged, s.pcs, t, pc);
  }

  /** A step that leaves the history alone. */
  lemma SameHistory<T>(s: State<T>, h: History, s': State<T>, t: nat, pc: Pc)
    requires Inv(s, h) && Moves(s, s', t, pc) && s'.over == s.over
    requires Logged(pc) ==> Logged(s.pcs[t])
    requires PcOk(s', h, t)
    requires s'.count == s.count && s'.head - s.head == Judged(s.pcs[t]) - Judged(pc)
    requires InFlight(s.pcs[t]) - InFlight(pc) == s'.head - s.head
    ensures Inv(s', h)
  {
    MoveSums(s, s', t, pc);
    forall u | 0 <= u < |s'.pcs| ensures PcOk(s', h, u) { assert PcOk(s, h, u); }
  }

  /** A step that updates thread t's own entry of the history. */
  ghost predicate Amends<T>(s: State<T>, h: History, s': State<T>, t: nat, pc: Pc, e: Attempt) {
    && Inv(s, h) && Moves(s, s', t, pc) && Logged(s.pcs[t])
    && h.slot[t] < |h.log| && var a := h.log[h.slot[t]];
    && e.desired == a.desired && a.failed <= e.failed
  }

  lemma AmendKeepsOtherPc<T>(s: State<T>, h: History, s': State<T>, t: nat, pc: Pc, e: Attempt, u: nat)
    requires Amends(s, h, s', t, pc, e) && u < |s.pcs| && u != t
    ensures PcOk(s', h.(log := h.log[h.slot[t] := e]), u)
  {
    assert PcOk(s, h, u);
    if s.pcs[u].Recheck? {
      PrefixUpdate(Desired, h.log, h.slot[t], e, h.slot[u]);
      PrefixUpdate(Failed, h.log, h.slot[t], e, h.slot[u]);
    }
  }

  lemma AmendKeepsOtherFit<T>(s: State<T>, h: History, s': State<T>, t: nat, pc: Pc, e: Attempt, k: nat)
    requires Amends(s, h, s', t, pc, e) && k < |h.log|
    requires k == h.slot[t] ==> Fits(h.log[k := e], |s.items|, k)
    ensures Fits(h.log[h.slot[t] := e], |s'.items|, k)
  {
    assert Fits(h.log, |s.items|, k);
    PrefixUpdate(Effective, h.log, h.slot[t], e, k);
  }

  lemma AmendKeepsInv<T>(s: State<T>, h: History, s': State<T>, t: nat, pc: Pc, e: Attempt)
    requires Amends(s, h, s', t, pc, e) && Fits(h.log[h.slot[t] := e], |s.items|, h.slot[t])
    requires PcOk(s', h.(log := h.log[h.slot[t] := e]), t)
    requires s'.count == s.count && s'.head == s.head && s'.over - s.over == e.failed - h.log[h.slot[t]].failed
    requires InFlight(s.pcs[t]) - InFlight(pc) == s'.over - s.over
    requires Judged(pc) - Judged(s.pcs[t]) == e.succ - h.log[h.slot[t]].succ
    ensures Inv(s', h.(log := h.log[h.slot[t] := e]))
  {
    var j := h.slot[t];
    var h' := h.(log := h.log[j := e]);
    MoveSums(s, s', t, pc);
    SumUpdate(Desired, h.log, j, e);
    SumUpdate(Failed, h.log, j, e);
    SumUpdate(Succ, h.log, j, e);
    forall u | 0 <= u < |s'.pcs| ensures PcOk(s', h', u) {
      if u != t { AmendKeepsOtherPc(s, h, s', t, pc, e, u); }
    }
    forall k | 0 <= k < |h'.log| ensures Fits(h'.log, |s'.items|, k) {
      AmendKeepsOtherFit(s, h, s', t, pc, e, k);
    }
  }

  lemma EnqueueKeepsInv<T>(s: State<T>, h: History, t: nat, xs: seq<T>)
    requires Inv(s, h)
    ensures Inv(Step(s, t, Enqueue(xs)), h)
  {
    var s' := Step(s, t, Enqueue(xs));
    forall u | 0 <= u < |s'.pcs| ensures PcOk(s', h, u) { assert PcOk(s, h, u); }
    forall k | 0 <= k < |h.log| ensures Fits(h.log, |s'.items|, k) { assert Fits(h.log, |s.items|, k); }
  }

  /** The history after the next operation of thread t: a reservation is logged, judged, and given back. */
  ghost function NextHistory<T>(s: State<T>, h: History, t: nat, a: Action<T>): History
    requires Inv(s, h) && Enabled(s, t, a)
  {
    if !a.Go? then h
    else
      assert PcOk(s, h, t);
      var j, pc := h.slot[t], Step(s, t, Go).pcs[t];
      match s.pcs[t]
      case Reserve(desired, _) => History(h.log + [Attempt(desired, 0, 0)], h.slot[t := |h.log|])
      case Recheck(_, _, _) => if pc.GiveUp? then h else h.(log := h.log[j := h.log[j].(succ := pc.actual)])
      case Refund(desired, actual) => h.(log := h.log[j := h.log[j].(failed := if actual <= desired then desired - actual else 0)])
      case GiveUp(desired) => h.(log := h.log[j := h.log[j].(failed := desired)])
      case _ => h
  }

  lemma ReserveKeepsInv<T>(s: State<T>, h: History, t: nat) returns (h': History)
    requires Inv(s, h) && Enabled(s, t, Go) && s.pcs[t].Reserve?
    ensures Inv(Step(s, t, Go), h') && h' == NextHistory(s, h, t, Go)
  {
    var s', d, n := Step(s, t, Go), s.pcs[t].desired, |h.log|;
    var e := Attempt(d, 0, 0);
    h' := History(h.log + [e], h.slot[t := n]);
    assert PcOk(s, h, t) && h'.log[..n] == h.log;
    MoveSums(s, s', t, s'.pcs[t]);
    SumAppend(Desired, h.log, e);
    SumAppend(Failed, h.log, e);
    SumAppend(Succ, h.log, e);
    forall u | 0 <= u < |s'.pcs| ensures PcOk(s', h', u) && (u != t && Logged(s.pcs[u]) ==> h.slot[u] < n) {
      assert PcOk(s, h, u);
      assert u != t && Logged(s.pcs[u]) ==> h'.log[..h.slot[u]] == h.log[..h.slot[u]];
    }
    forall k | 0 <= k < |h'.log| ensures Fits(h'.log, |s'.items|, k) {
      if k < n { assert Fits(h.log, |s.items|, k) && h'.log[..k] == h.log[..k]; }
    }
  }

  /** The reloaded tail, less the reservations that may still succeed, bounds what may be taken. */
  lemma RecheckKeepsInv<T>(s: State<T>, h: History, t: nat) returns (h': History)
    requires Inv(s, h) && Enabled(s, t, Go) && s.pcs[t].Recheck?
    ensures Inv(Step(s, t, Go), h') && h' == NextHistory(s, h, t, Go)
  {
    var s', j := Step(s, t, Go), h.slot[t];
    assert PcOk(s, h, t);
    if s'.pcs[t].GiveUp? {
      h' := h;
      SameHistory(s, h, s', t, s'.pcs[t]);
    } else {
      var e := h.log[j].(succ := s'.pcs[t].actual);
      h' := h.(log := h.log[j := e]);
      assert h'.log[..j] == h.log[..j];
      EffectiveIsDifference(h.log[..j]);
      AmendKeepsInv(s, h, s', t, s'.pcs[t], e);
    }
  }

  lemma GiveBackKeepsInv<T>(s: State<T>, h: History, t: nat) returns (h': History)
    requires Inv(s, h) && Enabled(s, t, Go) && (s.pcs[t].Refund? || s.pcs[t].GiveUp?)
    ensures Inv(Step(s, t, Go), h') && h' == NextHistory(s, h, t, Go)
  {
    var s', j := Step(s, t, Go), h.slot[t];
    assert PcOk(s, h, t) && Fits(h.log, |s.items|, j);
    var e := h.log[j].(failed := h.log[j].desired - h.log[j].succ);
    h' := h.(log := h.log[j := e]);
    assert h'.log[..j] == h.log[..j];
    AmendKeepsInv(s, h, s', t, s'.pcs[t], e);
  }

  lemma StepKeepsInv<T>(s: State<T>, h: History, t: nat, a: Action<T>) returns (h': History)
    requires Inv(s, h) && Enabled(s, t, a)
    ensures Inv(Step(s, t, a), h') && h' == NextHistory(s, h, t, a)
  {
    var s' := Step(s, t, a);
    h' := h;
    if a.Enqueue? {
      EnqueueKeepsInv(s, h, t, a.xs);
    } else if s.pcs[t].Reserve? {
      h' := ReserveKeepsInv(s, h, t);
    } else if s.pcs[t].Recheck? {
      h' := RecheckKeepsInv(s, h, t);
    } else if s.pcs[t].Refund? || s.pcs[t].GiveUp? {
      h' := GiveBackKeepsInv(s, h, t);
    } else {
      assert PcOk(s, h, t);
      SameHistory(s, h, s', t, s'.pcs[t]);
    }
  }

  // ---------------------------------------------------------------- elements are neither lost nor duplicated

  ghost function Within(i: nat, first: nat, size: nat): int { if first <= i < first + size then 1 else 0 }

  /** How often index i occurs among the indices a consumer is moving out, or has returned. */
  ghost function Reading(i: nat): Pc -> int { (pc: Pc) => if pc.Read? then Within(i, pc.first, pc.actual) else 0 }
  ghost function Returned<T>(i: nat): Batch<T> -> int { (b: Batch<T>) => Within(i, b.first, |b.elems|) }

  ghost function Taken<T>(s: State<T>, i: nat): int { Sum(Returned<T>(i), s.done) + Sum(Reading(i), s.pcs) }

  /** A returned batch holds the elements that were published at its indices. */
  ghost predicate Genuine<T>(items: seq<T>, b: Batch<T>) {
    b.first + |b.elems| <= |items| && forall k :: 0 <= k < |b.elems| ==> b.elems[k] == items[b.first + k]
  }

  /** Every index below the head has been returned or is being moved out, exactly once; no other has. */
  ghost predicate Conserved<T>(s: State<T>) {
    && (forall i: nat :: Taken(s, i) == if i < s.head then 1 else 0)
    && (forall j :: 0 <= j < |s.done| ==> Genuine(s.items, s.done[j]))
  }

  /** What is claimed, plus what is judged to succeed, has been published. */
  lemma ClaimsArePublished<T>(s: State<T>, h: History)
    requires Inv(s, h)
    ensures s.head + Sum(Judged, s.pcs) <= |s.items|
    ensures forall t :: 0 <= t < |s.pcs| ==> s.head + Judged(s.pcs[t]) <= |s.items|
  {
    SuccessesFit(h.log, |s.items|);
    forall t | 0 <= t < |s.pcs| ensures s.head + Judged(s.pcs[t]) <= |s.items| {
      SumAtLeast(Judged, s.pcs, t);
    }
  }

  lemma ReturnTakes<T>(s: State<T>, t: nat, i: nat)
    requires Enabled(s, t, Go) && !s.pcs[t].Idle?
    ensures Sum(Returned<T>(i), Step(s, t, Go).done) == Sum(Returned<T>(i), s.done) + Reading(i)(s.pcs[t])
  {
    if s.pcs[t].Read? {
      var first, actual := s.pcs[t].first, s.pcs[t].actual;
      SumAppend(Returned<T>(i), s.done, Batch(first, s.items[first..first + actual]));
    }
  }

  lemma StepTakes<T>(s: State<T>, t: nat, a: Action<T>, i: nat)
    requires Enabled(s, t, a)
    ensures Taken(Step(s, t, a), i) == Taken(s, i)
         + if a.Go? && s.pcs[t].Claim? then Within(i, s.head, s.pcs[t].actual) else 0
  {
    if !a.Enqueue? { SumUpdate(Reading(i), s.pcs, t, Step(s, t, a).pcs[t]); }
    if a.Go? { ReturnTakes(s, t, i); }
  }

  lemma StepConserves<T>(s: State<T>, t: nat, a: Action<T>)
    requires Conserved(s) && Enabled(s, t, a)
    ensures Conserved(Step(s, t, a))
  {
    forall i: nat ensures Taken(Step(s, t, a), i) == if i < Step(s, t, a).head then 1 else 0 {
      StepTakes(s, t, a, i);
    }
  }

  // ---------------------------------------------------------------- what every run guarantees

  ghost predicate Safe<T>(s: State<T>) {
    // the counter law
    && s.count == s.head + s.over + Sum(InFlight, s.pcs)
    // claimed and promised indices are published
    && s.head + Sum(Judged, s.pcs) <= |s.items|
    && Conserved(s)
    // no consumer is ever stuck on an index that is out of range
    && (forall t: nat :: t < |s.pcs| && !s.pcs[t].Idle? ==> Enabled(s, t, Go))
  }

  lemma InvIsSafe<T>(s: State<T>, h: History)
    requires Inv(s, h) && Conserved(s)
    ensures Safe(s)
  {
    ClaimsArePublished(s, h);
    forall t: nat | t < |s.pcs| && !s.pcs[t].Idle? ensures Enabled(s, t, Go) { assert PcOk(s, h, t); }
  }

  lemma NextKeepsInv<T(!new)>(s: State<T>, h: History, s': State<T>) returns (h': History)
    requires Inv(s, h) && Conserved(s) && Next(s, s')
    ensures Inv(s', h') && Conserved(s')
  {
    var t: nat, a: Action<T> :| Enabled(s, t, a) && s' == Step(s, t, a);
    h' := StepKeepsInv(s, h, t, a);
    StepConserves(s, t, a);
  }

  lemma {:induction false} RunKeepsInv<T(!new)>(run: seq<State<T>>, i: nat) returns (h: History)
    requires IsRun(run) && i < |run|
    ensures Inv(run[i], h) && Conserved(run[i])
  {
    if i == 0 {
      h := History([], seq(|run[0].pcs|, t => 0));
      SumZero(InFlight, run[0].pcs);
      SumZero(Judged, run[0].pcs);
      forall i: nat ensures Taken(run[0], i) == 0 { SumZero(Reading(i), run[0].pcs); }
    } else {
      h := RunKeepsInv(run, i - 1);
      assert Next(run[i - 1], run[i - 1 + 1]);
      h := NextKeepsInv(run[i - 1], h, run[i]);
    }
  }

  /** Every state of every run is safe. */
  lemma RunsAreSafe<T(!new)>(run: seq<State<T>>)
    requires IsRun(run)
    ensures forall i :: 0 <= i < |run| ==> Safe(run[i])
  {
    forall i | 0 <= i < |run| ensures Safe(run[i]) {
      var h := RunKeepsInv(run, i);
      InvIsSafe(run[i], h);
    }
  }

  /** With no dequeue in flight, exactly the indices below the head have been returned, once each:
      failed attempts have lost nothing. */
  lemma QuietQueue<T(!new)>(run: seq<State<T>>, i: nat)
    requires IsRun(run) && i < |run| && forall t :: 0 <= t < |run[i].pcs| ==> run[i].pcs[t].Idle?
    ensures var s := run[i]; s.count - s.over == s.head <= |s.items|
    ensures forall k: nat :: Sum(Returned<T>(k), run[i].done) == if k < run[i].head then 1 else 0
  {
    RunsAreSafe(run);
    assert Safe(run[i]);
    SumZero(InFlight, run[i].pcs);
    SumZero(Judged, run[i].pcs);
    forall k: nat ensures Sum(Returned<T>(k), run[i].done) == if k < run[i].head then 1 else 0 {
      SumZero(Reading(k), run[i].pcs);
      assert Taken(run[i], k) == if k < run[i].head then 1 else 0;
    }
  }

  /** k further operations of consumer t, with nobody else moving. */
  ghost predicate Alone<T>(s: State<T>, t: nat, k: nat, s': State<T>)
    decreases k
  {
    if k == 0 then s' == s else Enabled(s, t, Go) && Alone(Step(s, t, Go), t, k - 1, s')
  }

  /** With no dequeue in flight, a dequeue of at most max > 0 on a non-empty sub-queue succeeds
      in six further operations, with the oldest min(max, available) elements. */
  lemma SoloDequeueSucceeds<T>(s: State<T>, t: nat, max: nat)
    requires Safe(s) && t < |s.pcs| && forall u :: 0 <= u < |s.pcs| ==> s.pcs[u].Idle?
    requires s.head < |s.items| && max > 0
    ensures var k := Min(max, |s.items| - s.head);
            Alone(Step(s, t, Start(max)), t, 6,
                  s.(head := s.head + k, count := s.count + k,
                     done := s.done + [Batch(s.head, s.items[s.head..s.head + k])]))
  {
    SumZero(InFlight, s.pcs);
    var k := Min(max, |s.items| - s.head);
    var s0 := Step(s, t, Start(max));
    var s1 := Step(s0, t, Go);
    var s2 := Step(s1, t, Go);
    var s3 := Step(s2, t, Go);
    var s4 := Step(s3, t, Go);
    var s5 := Step(s4, t, Go);
    var s6 := Step(s5, t, Go);
    assert s6.pcs == s.pcs;
    assert Alone(s5, t, 1, s6) && Alone(s4, t, 2, s6) && Alone(s3, t, 3, s6);
    assert Alone(s2, t, 4, s6) && Alone(s1, t, 5, s6);
  }

  /** On an empty sub-queue a lone dequeue reports failure and changes no counter. */
  lemma SoloDequeueFails<T>(s: State<T>, t: nat, max: nat)
    requires Safe(s) && t < |s.pcs| && forall u :: 0 <= u < |s.pcs| ==> s.pcs[u].Idle?
    requires s.head == |s.items|
    ensures Alone(Step(s, t, Start(max)), t, 2, s)
  {
    SumZero(InFlight, s.pcs);
    var s0 := Step(s, t, Start(max));
    var s1 := Step(s0, t, Go);
    var s2 := Step(s1, t, Go);
    assert s2.pcs == s.pcs;
    assert Alone(s1, t, 1, s2);
  }

  // ---------------------------------------------------------------- wrapping comparisons

  /** details::circular_less_than on 64-bit indices. */
  function CircularLessThan(a: nat, b: nat): (r: bool) { (a - b) % WORD > WORD / 2 }

  /** What the comparison decides on any two wrapped counters: b is ahead by less than half the range. */
  lemma CircularMeaning(a: int, b: int)
    ensures CircularLessThan(a % WORD, b % WORD) <==> 0 < (b - a) % WORD < WORD / 2
  {
    var d := a % WORD - b % WORD;
    ModAdd(d, WORD, a / WORD - b / WORD);
    assert a - b == d + WORD * (a / WORD - b / WORD);
    assert (a - b) % WORD == d % WORD;
    var e := (a - b) % WORD;
    assert b - a == -e + WORD * -((a - b) / WORD);
    ModAdd(-e, WORD, -((a - b) / WORD));
    if e > 0 { ModAdd(-e, WORD, 1); }
  }

  /** So it decides a < b, as long as the counters are less than half the range apart. */
  lemma CircularAgrees(a: int, b: int)
    requires -(WORD / 2) < a - b < WORD / 2
    ensures CircularLessThan(a % WORD, b % WORD) <==> a < b
  {
    CircularMeaning(a, b);
    if b < a { ModAdd(b - a, WORD, 1); }
  }
}
