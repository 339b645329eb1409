/** What the free list's calls come to: when try_get may answer that the list is empty, and that a thread left alone
    returns. */
module FreeListProgress {
  import opened FreeList

  // ---------------------------------------------------------------- the empty list

  /** A lone try_get on an empty list ends after its one load, and changes nothing. */
  lemma SoloTryGetOnEmpty(s: State, t: nat)
    requires WellFormed(s) && t < |s.pcs| && s.pcs[t].Idle? && s.head.Null?
    ensures WellFormed(Step(s, t, CallGet)) && Alone(Step(s, t, CallGet), t, 1) == s
  {
    var s0 := Step(s, t, CallGet);
    StepIsWellFormed(s, t, CallGet);
    var s1 := Step(s0, t, Go);
    StepIsWellFormed(s0, t, Go);
    assert s1.pcs == s.pcs;
    assert Alone(s0, t, 1) == Alone(s1, t, 0);
  }

  /** A lone try_get on a list that is not empty takes its head, whoever else still references that. */
  lemma SoloTryGetTakesHead(s: State, g: Ghost, t: nat)
    requires Inv(s, g) && t < |s.pcs| && s.pcs[t].Idle? && s.head.To?
    ensures WellFormed(Step(s, t, CallGet)) && s.refs[s.head.node] > 0
    ensures var n := s.head.node;
      Alone(Step(s, t, CallGet), t, 6) == s.(head := s.next[n], refs := s.refs[n := s.refs[n] - 1], out := s.out + {n})
  {
    var n := s.head.node;
    HeadIsListed(s, g);
    ListedCount(s, g, n);
    var s0 := Step(s, t, CallGet);
    StepIsWellFormed(s, t, CallGet);
    var s1 := Step(s0, t, Go);
    StepIsWellFormed(s0, t, Go);
    var s2 := Step(s1, t, Go);
    StepIsWellFormed(s1, t, Go);
    var s3 := Step(s2, t, Go);
    StepIsWellFormed(s2, t, Go);
    var s4 := Step(s3, t, Go);
    StepIsWellFormed(s3, t, Go);
    var s5 := Step(s4, t, Go);
    StepIsWellFormed(s4, t, Go);
    var s6 := Step(s5, t, Go);
    assert s6.pcs == s.pcs && s6.refs == s.refs[n := s.refs[n] - 1];
    assert Alone(s0, t, 6) == Alone(s1, t, 5) == Alone(s2, t, 4) == Alone(s3, t, 3);
    assert Alone(s3, t, 3) == Alone(s4, t, 2) == Alone(s5, t, 1) == s6;
  }

  /** An add of a node that some thread still references only flags it. */
  lemma SoloAddFlags(s: State, t: nat, n: nat)
    requires WellFormed(s) && t < |s.pcs| && s.pcs[t].Idle? && n in s.out && 0 < s.refs[n] < FLAG
    ensures WellFormed(Step(s, t, CallAdd(n)))
    ensures Alone(Step(s, t, CallAdd(n)), t, 1) == s.(refs := s.refs[n := s.refs[n] + FLAG], out := s.out - {n})
  {
    var s0 := Step(s, t, CallAdd(n));
    StepIsWellFormed(s, t, CallAdd(n));
    var s1 := Step(s0, t, Go);
    StepIsWellFormed(s0, t, Go);
    assert s1.pcs == s.pcs;
    assert Alone(s0, t, 1) == Alone(s1, t, 0);
  }

  /** The thread is in a try_get. */
  ghost predicate Getting(pc: Pc) {
    pc.GetHead? || pc.GetRefs? || pc.GetCount? || pc.GetNext? || pc.GetCas? || pc.GetTake? || pc.GetDrop? ||
    (Putting(pc) && pc.k.Resume?)
  }

  /** It will find that the head it loaded was null. */
  ghost predicate SawNull(pc: Pc) { (pc.GetDrop? && pc.cur.Null?) || (Putting(pc) && pc.k == Resume(Null)) }

  /** From its call at step j up to step k, thread t has been in one try_get. */
  ghost predicate InCall(run: seq<State>, t: nat, j: nat, k: nat) {
    && j < k < |run| && t < |run[j].pcs| && run[j].pcs[t].Idle?
    && forall i :: j < i <= k ==> t < |run[i].pcs| && (i == j + 1 ==> run[i].pcs[t] == GetHead) && !run[i].pcs[t].Idle?
  }

  /** A step moves thread t by its own operation only. */
  lemma OwnMove(s: State, s': State, t: nat)
    requires Next(s, s') && t < |s.pcs| && !s.pcs[t].Idle?
    ensures t < |s'.pcs| && (s'.pcs[t] == s.pcs[t] || s'.pcs[t] == Step(s, t, Go).pcs[t])
  {
    var u: nat, a: Action :| Enabled(s, u, a) && s' == Step(s, u, a);
    if u == t { assert a.Go?; }
  }

  /** What a step can make of thread t's try_get. */
  ghost predicate Progressed(s: State, s': State, t: nat) {
    t < |s.pcs| && Getting(s.pcs[t]) ==>
      && t < |s'.pcs|
      && var pc := s'.pcs[t];
      && (pc.Idle? ==> s.pcs[t].GetTake? || s.head.Null? || SawNull(s.pcs[t]))
      && (!pc.Idle? ==> Getting(pc) && (SawNull(pc) ==> s.head.Null? || SawNull(s.pcs[t])))
  }

  lemma StepProgresses(run: seq<State>, k: nat, t: nat)
    requires IsRun(run) && k + 1 < |run|
    ensures Progressed(run[k], run[k + 1], t)
  {
    assert Next(run[k], run[k + 1]);
    if t < |run[k].pcs| && Getting(run[k].pcs[t]) { OwnMove(run[k], run[k + 1], t); }
  }

  /** The list has been empty in some state since the call. */
  ghost predicate WasEmpty(run: seq<State>, j: nat, k: nat) { exists i :: j < i <= k && i < |run| && run[i].head.Null? }

  lemma {:induction false} InGet(run: seq<State>, t: nat, j: nat, k: nat)
    requires InCall(run, t, j, k) && forall i: nat :: i + 1 < |run| ==> Progressed(run[i], run[i + 1], t)
    ensures Getting(run[k].pcs[t]) && (SawNull(run[k].pcs[t]) ==> WasEmpty(run, j, k))
    decreases k
  {
    if k > j + 1 {
      InGet(run, t, j, k - 1);
      assert Progressed(run[k - 1], run[k - 1 + 1], t);
    }
  }

  /** A try_get called at step j that returns at step k without a node: the list was empty at some time in between. */
  lemma EmptyAnswerIsTrue(run: seq<State>, t: nat, j: nat, k: nat)
    requires IsRun(run) && InCall(run, t, j, k) && k + 1 < |run|
    requires t < |run[k + 1].pcs| && run[k + 1].pcs[t].Idle? && !run[k].pcs[t].GetTake?
    ensures WasEmpty(run, j, k)
  {
    forall i: nat | i + 1 < |run| ensures Progressed(run[i], run[i + 1], t) { StepProgresses(run, i, t); }
    InGet(run, t, j, k);
    assert Progressed(run[k], run[k + 1], t);
  }

  // ---------------------------------------------------------------- a thread left alone returns

  /** Left alone, thread t returns within k operations. */
  ghost predicate Returns(s: State, t: nat, k: nat)
    requires WellFormed(s) && t < |s.pcs|
    decreases k, |s.pcs|
  {
    s.pcs[t].Idle? || (k > 0 && (StepIsWellFormed(s, t, Go); Returns(Step(s, t, Go), t, k - 1)))
  }

  lemma {:induction false} Longer(s: State, t: nat, k: nat, m: nat)
    requires WellFormed(s) && t < |s.pcs| && Returns(s, t, k) && k <= m
    ensures Returns(s, t, m)
    decreases k
  {
    if !s.pcs[t].Idle? {
      StepIsWellFormed(s, t, Go);
      Longer(Step(s, t, Go), t, k - 1, m - 1);
    }
  }

  /** The next operation of thread t, and what it does to the list. */
  lemma Move(s: State, g: Ghost, t: nat) returns (s': State, g': Ghost)
    requires Inv(s, g) && t < |s.pcs| && !s.pcs[t].Idle?
    ensures WellFormed(s') && s' == Step(s, t, Go) && Inv(s', g') && |s'.pcs| == |s.pcs|
    ensures if s.pcs[t].PutCas? && s.head == s.pcs[t].h then g'.chain == [s.pcs[t].n] + g.chain
            else (s.pcs[t].GetCas? && s.head == To(s.pcs[t].n)) || g'.chain == g.chain
    ensures forall k: nat :: Returns(s', t, k) ==> Returns(s, t, k + 1)
  {
    StepIsWellFormed(s, t, Go);
    s' := Step(s, t, Go);
    g' := StepKeepsInv(s, g, t, Go);
    if s.pcs[t].PutNext? {
      assert PcOk(s, g.at, t) && PlaceOk(s, g, s.pcs[t].n);
      ListKeepsOff(s, g.chain, s', s.pcs[t].n);
      OneList(s', s', g.chain, g'.chain);
    } else if s.pcs[t].PutCas? && s.head == s.pcs[t].h {
      assert PcOk(s, g.at, t) && PlaceOk(s, g, s.pcs[t].n);
      ListPush(s, g.chain, s', s.pcs[t].n);
      OneList(s', s', [s.pcs[t].n] + g.chain, g'.chain);
    } else if !s.pcs[t].GetCas? || s.head != To(s.pcs[t].n) {
      OneList(s, s', g.chain, g'.chain);
    }
  }

  lemma {:induction false} SameLinks(s: State, s': State, a: seq<nat>, b: seq<nat>, k: nat)
    requires IsList(s, a) && IsList(s', b) && s'.head == s.head && s'.next == s.next
    ensures Link(a, k) == Link(b, k)
  {
    if k > 0 {
      SameLinks(s, s', a, b, k - 1);
      if k - 1 < |a| { assert s.next[a[k - 1]] == Link(a, k) && s'.next[b[k - 1]] == Link(b, k); }
    }
  }

  /** The head and the links determine the list. */
  lemma OneList(s: State, s': State, a: seq<nat>, b: seq<nat>)
    requires IsList(s, a) && IsList(s', b) && s'.head == s.head && s'.next == s.next
    ensures a == b
  {
    SameLinks(s, s', a, b, |a|);
    SameLinks(s, s', a, b, |b|);
    forall k | 0 <= k < |a| ensures a[k] == b[k] { SameLinks(s, s', a, b, k); }
  }

  /** A listed node is referenced by the list, and not flagged. */
  lemma ListedCount(s: State, g: Ghost, n: nat)
    requires Inv(s, g) && n in g.chain
    ensures n < |s.refs| && 1 <= s.refs[n] < FLAG && Count(s.refs[n]) != 0
  {
    assert PlaceOk(s, g, n);
  }

  lemma HeadIsListed(s: State, g: Ghost)
    requires Inv(s, g) && s.head.To?
    ensures s.head.node in g.chain
  {
    assert g.chain[0] == s.head.node;
  }

  /** Operations left to a thread on its way to take the current head ... */
  ghost function ToTake(pc: Pc): nat {
    match pc
    case Idle => 0
    case GetHead => 6
    case GetRefs(_) => 5
    case GetCount(_, _) => 4
    case GetNext(_) => 3
    case GetCas(_, _) => 2
    case _ => 1
  }

  lemma {:induction false} TakesHead(s: State, g: Ghost, t: nat)
    requires Inv(s, g) && t < |s.pcs|
    requires match s.pcs[t]
             case Idle => true
             case GetHead => true
             case GetRefs(n) => To(n) == s.head
             case GetCount(n, w) => To(n) == s.head && w == s.refs[n]
             case GetNext(n) => To(n) == s.head
             case GetCas(n, _) => To(n) == s.head
             case GetTake(_) => true
             case _ => false
    ensures Returns(s, t, ToTake(s.pcs[t]))
    decreases ToTake(s.pcs[t])
  {
    if !s.pcs[t].Idle? {
      if s.head.To? {
        HeadIsListed(s, g);
        ListedCount(s, g, s.head.node);
      }
      var s', g' := Move(s, g, t);
      TakesHead(s', g', t);
      Longer(s', t, ToTake(s'.pcs[t]), ToTake(s.pcs[t]) - 1);
    }
  }

  /** ... to one that works on a listed node that need not be the head, and so may have to go on from the head ... */
  ghost predicate AtListed(s: State, g: Ghost, pc: Pc) {
    match pc
    case GetRefs(n) => n in g.chain
    case GetCount(n, w) => n in g.chain && n < |s.refs| && w == s.refs[n]
    case GetNext(n) => n in g.chain
    case GetCas(n, _) => n in g.chain
    case GetDrop(n, cur) => n in g.chain && cur == s.head
    case _ => false
  }

  ghost function FromListed(pc: Pc): nat {
    match pc
    case GetRefs(_) => 10
    case GetCount(_, _) => 9
    case GetNext(_) => 8
    case GetCas(_, _) => 7
    case _ => 6
  }

  lemma {:induction false} ListedReturns(s: State, g: Ghost, t: nat)
    requires Inv(s, g) && t < |s.pcs| && AtListed(s, g, s.pcs[t])
    ensures Returns(s, t, FromListed(s.pcs[t]))
    decreases FromListed(s.pcs[t])
  {
    ListedCount(s, g, s.pcs[t].n);
    var s', g' := Move(s, g, t);
    if s.pcs[t].GetDrop? || (s.pcs[t].GetCas? && s.head == To(s.pcs[t].n)) {
      TakesHead(s', g', t);
      Longer(s', t, ToTake(s'.pcs[t]), FromListed(s.pcs[t]) - 1);
    } else {
      ListedReturns(s', g', t);
    }
  }

  /** ... and to one that puts a node on the list, with nobody in its way, and goes on from a head seen earlier. */
  ghost predicate Unhindered(s: State, pc: Pc) { pc.PutLoad? || ((pc.PutNext? || pc.PutRefs? || pc.PutCas?) && pc.h == s.head) }

  ghost function ToPut(pc: Pc): nat {
    match pc
    case PutLoad(_, _) => 4
    case PutNext(_, _, _) => 3
    case PutRefs(_, _, _) => 2
    case _ => 1
  }

  ghost predicate SeenListed(g: Ghost, k: Cont) { k.Resume? && k.head.To? ==> k.head.node in g.chain }

  lemma {:induction false} PutReturns(s: State, g: Ghost, t: nat, more: nat)
    requires Inv(s, g) && t < |s.pcs| && Unhindered(s, s.pcs[t])
    requires (more == 10 && SeenListed(g, s.pcs[t].k)) || more == 19
    ensures Returns(s, t, ToPut(s.pcs[t]) + more)
    decreases more, ToPut(s.pcs[t])
  {
    var s', g' := Move(s, g, t);
    if !s.pcs[t].PutCas? {
      PutReturns(s', g', t, more);
    } else {
      LoopReturns(s', g', t, more);
    }
  }

  lemma {:induction false} LoopReturns(s: State, g: Ghost, t: nat, more: nat)
    requires Inv(s, g) && t < |s.pcs| && (s.pcs[t].Idle? || s.pcs[t].GetRefs?)
    requires more == 19 || (more == 10 && (s.pcs[t].GetRefs? ==> s.pcs[t].n in g.chain))
    ensures Returns(s, t, more)
    decreases more, 0
  {
    if s.pcs[t].Idle? {
    } else if more == 10 {
      ListedReturns(s, g, t);
    } else {
      GetReturns(s, g, t);
    }
  }

  /** A try_get on its way, wherever its node is now. */
  ghost predicate AtAny(s: State, pc: Pc) {
    pc.GetHead? || pc.GetRefs? || pc.GetCount? || pc.GetNext? || pc.GetCas? || (pc.GetDrop? && pc.cur == s.head)
  }

  ghost function FromAny(pc: Pc): nat {
    match pc
    case GetHead => 6
    case GetRefs(_) => 19
    case GetCount(_, _) => 18
    case GetNext(_) => 17
    case GetCas(_, _) => 16
    case _ => 15
  }

  lemma {:induction false} GetReturns(s: State, g: Ghost, t: nat)
    requires Inv(s, g) && t < |s.pcs| && AtAny(s, s.pcs[t])
    ensures Returns(s, t, FromAny(s.pcs[t]))
    decreases 15, FromAny(s.pcs[t])
  {
    if s.pcs[t].GetHead? {
      TakesHead(s, g, t);
    } else {
      var s', g' := Move(s, g, t);
      if s.pcs[t].GetDrop? && s'.pcs[t].PutLoad? {
        if s.head.To? { HeadIsListed(s, g); }
        PutReturns(s', g', t, 10);
      } else if s.pcs[t].GetDrop? || s'.pcs[t].GetTake? {
        TakesHead(s', g', t);
        Longer(s', t, ToTake(s'.pcs[t]), 14);
      } else {
        GetReturns(s', g', t);
        Longer(s', t, FromAny(s'.pcs[t]), FromAny(s.pcs[t]) - 1);
      }
    }
  }

  /** The rest: threads that other threads may have got in the way of. */
  lemma {:induction false} PutFailReturns(s: State, g: Ghost, t: nat)
    requires Inv(s, g) && t < |s.pcs| && s.pcs[t].PutFail? && s.pcs[t].h == s.head
    ensures Returns(s, t, 23)
  {
    var s', g' := Move(s, g, t);
    if s'.pcs[t].PutNext? { PutReturns(s', g', t, 19); }
    else if !s'.pcs[t].Idle? { GetReturns(s', g', t); Longer(s', t, 19, 22); }
  }

  lemma {:induction false} HinderedReturns(s: State, g: Ghost, t: nat)
    requires Inv(s, g) && t < |s.pcs| && (s.pcs[t].PutNext? || s.pcs[t].PutRefs? || s.pcs[t].PutCas?)
    ensures Returns(s, t, ToPut(s.pcs[t]) + 23)
    decreases ToPut(s.pcs[t])
  {
    if s.pcs[t].h == s.head {
      PutReturns(s, g, t, 19);
      Longer(s, t, ToPut(s.pcs[t]) + 19, ToPut(s.pcs[t]) + 23);
    } else {
      var s', g' := Move(s, g, t);
      if s.pcs[t].PutCas? { PutFailReturns(s', g', t); } else { HinderedReturns(s', g', t); }
    }
  }

  /** A thread left alone returns within 27 operations, whatever state the others are in. */
  lemma {:induction false} ReturnsAlone(s: State, g: Ghost, t: nat)
    requires Inv(s, g) && t < |s.pcs|
    ensures Returns(s, t, 27)
  {
    var pc := s.pcs[t];
    if pc.Idle? {
    } else if pc.PutNext? || pc.PutRefs? || pc.PutCas? {
      HinderedReturns(s, g, t);
      Longer(s, t, ToPut(pc) + 23, 27);
    } else if pc.PutLoad? {
      PutReturns(s, g, t, 19);
      Longer(s, t, 23, 27);
    } else if AtAny(s, pc) {
      GetReturns(s, g, t);
      Longer(s, t, FromAny(pc), 27);
    } else if pc.GetTake? {
      TakesHead(s, g, t);
      Longer(s, t, 1, 27);
    } else {
      LastReturns(s, g, t);
    }
  }

  lemma {:induction false} LastReturns(s: State, g: Ghost, t: nat)
    requires Inv(s, g) && t < |s.pcs| && (s.pcs[t].AddFlag? || s.pcs[t].PutFail? || s.pcs[t].GetDrop?)
    ensures Returns(s, t, 27)
  {
    var s', g' := Move(s, g, t);
    var pc := s'.pcs[t];
    if pc.PutLoad? {
      PutReturns(s', g', t, 19);
      Longer(s', t, 23, 26);
    } else if pc.PutNext? {
      HinderedReturns(s', g', t);
    } else if !pc.Idle? {
      GetReturns(s', g', t);
      Longer(s', t, 19, 26);
    } else {
      Longer(s', t, 0, 26);
    }
  }

  /** In every state of every run, each thread would return if left alone. */
  lemma RunsReturn(run: seq<State>, k: nat, t: nat)
    requires IsRun(run) && k < |run| && t < |run[k].pcs|
    ensures WellFormed(run[k]) && Returns(run[k], t, 27)
  {
    var g := RunKeepsInv(run, k);
    ReturnsAlone(run[k], g, t);
  }
}
