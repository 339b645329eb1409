/** The reference-counted lock-free free list of the task queue, as a state machine
    with one atomic operation per step. Any number of threads run `add` and `try_get`
    in any interleaving, under sequential consistency. */
module FreeList {

  const FLAG := 0x8000_0000          // SHOULD_BE_ON_FREELIST; the low 31 bits count references
  const WORD := 0x1_0000_0000        // freeListRefs is a 32-bit unsigned word

  datatype Ptr = Null | To(node: nat)

  /** What add_knowing_refcount_is_zero goes back to: its caller `add`, or the loop of `try_get`. */
  datatype Cont = Return | Resume(head: Ptr)

  /** A thread's position: the next atomic operation it will perform, with its locals. */
  datatype Pc =
    | Idle
    | AddFlag(n: nat)                        // add: fetch_add(FLAG)
    | PutLoad(n: nat, k: Cont)               // add_knowing_...: load head
    | PutNext(n: nat, h: Ptr, k: Cont)       // store next
    | PutRefs(n: nat, h: Ptr, k: Cont)       // store refs = 1
    | PutCas(n: nat, h: Ptr, k: Cont)        // CAS head: h -> n
    | PutFail(n: nat, h: Ptr, k: Cont)       // fetch_add(FLAG - 1)
    | GetHead                                // try_get: load head
    | GetRefs(n: nat)                        // load refs
    | GetCount(n: nat, w: nat)               // CAS refs: w -> w + 1
    | GetNext(n: nat)                        // load next
    | GetCas(n: nat, nx: Ptr)                // CAS head: n -> nx
    | GetTake(n: nat)                        // fetch_sub(2), return n
    | GetDrop(n: nat, cur: Ptr)              // fetch_sub(1)

  /** Shared memory, the threads, and the nodes currently in the hands of clients. */
  datatype State = State(head: Ptr, refs: seq<nat>, next: seq<Ptr>, pcs: seq<Pc>, out: set<nat>)

  datatype Action = CallAdd(n: nat) | CallGet | Go

  /** 32-bit wrap-around addition and subtraction, and the low 31 bits (`& REFS_MASK`). */
  function FetchAdd(w: nat, k: nat): (r: nat)
    ensures w < WORD && k < WORD ==> r == (w + k) % WORD
  {
    if w + k < WORD then w + k else w + k - WORD
  }

  function FetchSub(w: nat, k: nat): (r: nat)
    requires k <= WORD
    ensures w < WORD ==> r == (w - k) % WORD
  {
    if k <= w then w - k else w + WORD - k
  }

  function Count(w: nat): (r: nat)
    ensures w < WORD ==> r == w % FLAG
  {
    if w < FLAG then w else w - FLAG
  }

  function Loop(p: Ptr): (pc: Pc) { if p.Null? then Idle else GetRefs(p.node) }
  function Continue(k: Cont): (pc: Pc) { if k.Return? then Idle else Loop(k.head) }

  ghost predicate InRange(p: Ptr, size: nat) { p.To? ==> p.node < size }

  ghost predicate Putting(pc: Pc) { pc.PutLoad? || pc.PutNext? || pc.PutRefs? || pc.PutCas? || pc.PutFail? }

  /** All node ids and pointers in flight denote existing nodes. */
  ghost predicate PcInRange(pc: Pc, size: nat) {
    && (!pc.Idle? && !pc.GetHead? ==> pc.n < size)
    && (Putting(pc) && pc.k.Resume? ==> InRange(pc.k.head, size))
    && (Putting(pc) && !pc.PutLoad? ==> InRange(pc.h, size))
    && (pc.GetCas? ==> InRange(pc.nx, size))
    && (pc.GetDrop? ==> InRange(pc.cur, size))
  }

  ghost predicate WellFormed(s: State) {
    && |s.refs| == |s.next|
    && |s.pcs| < FLAG - 1                    // fewer than 2^31 - 1 threads
    && InRange(s.head, |s.refs|)
    && (forall n :: 0 <= n < |s.next| ==> InRange(s.next[n], |s.refs|))
    && (forall t :: 0 <= t < |s.pcs| ==> PcInRange(s.pcs[t], |s.refs|))
    && (forall n :: n in s.out ==> n < |s.refs|)
  }

  /** Clients add only nodes that are in their hands. */
  ghost predicate Enabled(s: State, t: nat, a: Action) {
    && t < |s.pcs|
    && match a
       case CallAdd(n) => s.pcs[t].Idle? && n in s.out
       case CallGet => s.pcs[t].Idle?
       case Go => !s.pcs[t].Idle?
  }

  /** One atomic operation of thread t. */
  ghost function Step(s: State, t: nat, a: Action): (s': State)
    requires WellFormed(s) && Enabled(s, t, a)
  {
    match a
    case CallAdd(n) => s.(pcs := s.pcs[t := AddFlag(n)], out := s.out - {n})
    case CallGet => s.(pcs := s.pcs[t := GetHead])
    case Go =>
      match s.pcs[t]
      case AddFlag(n) =>
        s.(refs := s.refs[n := FetchAdd(s.refs[n], FLAG)],
           pcs := s.pcs[t := if s.refs[n] == 0 then PutLoad(n, Return) else Idle])
      case PutLoad(n, k) => s.(pcs := s.pcs[t := PutNext(n, s.head, k)])
      case PutNext(n, h, k) => s.(next := s.next[n := h], pcs := s.pcs[t := PutRefs(n, h, k)])
      case PutRefs(n, h, k) => s.(refs := s.refs[n := 1], pcs := s.pcs[t := PutCas(n, h, k)])
      case PutCas(n, h, k) =>
        if s.head == h then s.(head := To(n), pcs := s.pcs[t := Continue(k)])
        else s.(pcs := s.pcs[t := PutFail(n, s.head, k)])
      case PutFail(n, h, k) =>
        s.(refs := s.refs[n := FetchAdd(s.refs[n], FLAG - 1)],
           pcs := s.pcs[t := if s.refs[n] == 1 then PutNext(n, h, k) else Continue(k)])
      case GetHead => s.(pcs := s.pcs[t := Loop(s.head)])
      case GetRefs(n) =>
        s.(pcs := s.pcs[t := if Count(s.refs[n]) == 0 then GetHead else GetCount(n, s.refs[n])])
      case GetCount(n, w) =>
        if s.refs[n] == w then s.(refs := s.refs[n := FetchAdd(w, 1)], pcs := s.pcs[t := GetNext(n)])
        else s.(pcs := s.pcs[t := GetHead])
      case GetNext(n) => s.(pcs := s.pcs[t := GetCas(n, s.next[n])])
      case GetCas(n, nx) =>
        if s.head == To(n) then s.(head := nx, pcs := s.pcs[t := GetTake(n)])
        else s.(pcs := s.pcs[t := GetDrop(n, s.head)])
      case GetTake(n) =>
        s.(refs := s.refs[n := FetchSub(s.refs[n], 2)], pcs := s.pcs[t := Idle], out := s.out + {n})
      case GetDrop(n, cur) =>
        s.(refs := s.refs[n := FetchSub(s.refs[n], 1)],
           pcs := s.pcs[t := if s.refs[n] == FLAG + 1 then PutLoad(n, Resume(cur)) else Loop(cur)])
  }

  /** Every node starts in the hands of clients, unreferenced; the list is empty. */
  ghost predicate Init(s: State) {
    && WellFormed(s)
    && s.head.Null?
    && (forall n :: 0 <= n < |s.refs| ==> s.refs[n] == 0 && n in s.out)
    && (forall t :: 0 <= t < |s.pcs| ==> s.pcs[t].Idle?)
  }

  ghost predicate Next(s: State, s': State) {
    WellFormed(s) && exists t: nat, a: Action :: Enabled(s, t, a) && s' == Step(s, t, a)
  }

  ghost predicate IsRun(run: seq<State>) {
    && |run| > 0 && Init(run[0])
    && forall i :: 0 <= i < |run| - 1 ==> Next(run[i], run[i + 1])
  }

  // ---------------------------------------------------------------- invariant

  /** Where each node is. Owners are thread ids. */
  datatype Place = Out | Flagging(t: nat) | Pending | Preparing(t: nat) | Publishing(t: nat) | Listed | Taken(t: nat)

  datatype Ghost = Ghost(chain: seq<nat>, at: seq<Place>)

  /** The thread at pc counts as one reference to node n. */
  ghost predicate Holds(pc: Pc, n: nat) {
    (pc.GetNext? || pc.GetCas? || pc.GetTake? || pc.GetDrop?) && pc.n == n
  }

  ghost function Held(pc: Pc, n: nat): (c: nat) { if Holds(pc, n) then 1 else 0 }

  ghost function Holders(pcs: seq<Pc>, n: nat): (c: nat)
    ensures c <= |pcs|
  {
    if pcs == [] then 0 else Holders(pcs[..|pcs| - 1], n) + Held(pcs[|pcs| - 1], n)
  }

  ghost function Base(p: Place): nat {
    if p.Out? || p.Flagging? then 0 else if p.Pending? || p.Preparing? then FLAG else 1
  }

  ghost predicate PcOk(s: State, at: seq<Place>, t: nat)
    requires WellFormed(s) && |at| == |s.refs| && t < |s.pcs|
  {
    match s.pcs[t]
    case AddFlag(n) => at[n] == Flagging(t)
    case PutLoad(n, _) => at[n] == Preparing(t)
    case PutNext(n, _, _) => at[n] == Preparing(t)
    case PutRefs(n, h, _) => at[n] == Preparing(t) && s.next[n] == h
    case PutCas(n, h, _) => at[n] == Publishing(t) && s.next[n] == h
    case PutFail(n, _, _) => at[n] == Publishing(t)
    case GetCount(_, w) => Count(w) != 0
    case GetCas(n, nx) => nx == s.next[n]
    case GetTake(n) => at[n] == Taken(t)
    case _ => true
  }

  ghost predicate PlaceOk(s: State, g: Ghost, n: nat)
    requires WellFormed(s) && |g.at| == |s.refs| && n < |s.refs|
  {
    && (n in s.out <==> g.at[n].Out?)
    && (n in g.chain <==> g.at[n].Listed?)
    && match g.at[n]
       case Out | Listed => true
       case Flagging(t) => t < |s.pcs| && s.pcs[t] == AddFlag(n)
       case Pending => Holders(s.pcs, n) > 0
       case Preparing(t) =>
         && t < |s.pcs| && (s.pcs[t].PutLoad? || s.pcs[t].PutNext? || s.pcs[t].PutRefs?) && s.pcs[t].n == n
         && Holders(s.pcs, n) == 0
       case Publishing(t) => t < |s.pcs| && (s.pcs[t].PutCas? || s.pcs[t].PutFail?) && s.pcs[t].n == n
       case Taken(t) => t < |s.pcs| && s.pcs[t] == GetTake(n)
  }

  ghost function Link(chain: seq<nat>, i: nat): Ptr { if i < |chain| then To(chain[i]) else Null }

  /** The nodes of chain, in order, are exactly the list that starts at head. */
  ghost predicate IsList(s: State, chain: seq<nat>) {
    && s.head == Link(chain, 0)
    && (forall i :: 0 <= i < |chain| ==> chain[i] < |s.next|)
    && (forall i :: 0 <= i < |chain| ==> s.next[chain[i]] == Link(chain, i + 1))
    && (forall i, j :: 0 <= i < j < |chain| ==> chain[i] != chain[j])
  }

  ghost predicate Inv(s: State, g: Ghost) {
    && WellFormed(s) && |g.at| == |s.refs|
    && IsList(s, g.chain)
    && (forall n :: 0 <= n < |s.refs| ==> s.refs[n] == Base(g.at[n]) + Holders(s.pcs, n))
    && (forall t :: 0 <= t < |s.pcs| ==> PcOk(s, g.at, t))
    && (forall n :: 0 <= n < |s.refs| ==> PlaceOk(s, g, n))
  }

  lemma {:induction false} HoldersUpdate(pcs: seq<Pc>, t: nat, pc: Pc, n: nat)
    requires t < |pcs|
    ensures Holders(pcs[t := pc], n) == Holders(pcs, n) - Held(pcs[t], n) + Held(pc, n)
  {
    var last := |pcs| - 1;
    if t == last {
      assert pcs[t := pc][..last] == pcs[..last];
    } else {
      assert pcs[t := pc][..last] == pcs[..last][t := pc];
      HoldersUpdate(pcs[..last], t, pc, n);
    }
  }

  lemma {:induction false} HoldersPositive(pcs: seq<Pc>, t: nat, n: nat)
    requires t < |pcs|
    ensures Holders(pcs, n) >= Held(pcs[t], n)
  {
    if t < |pcs| - 1 { HoldersPositive(pcs[..|pcs| - 1], t, n); }
  }

  lemma {:induction false} NoHolders(pcs: seq<Pc>, n: nat)
    requires forall t :: 0 <= t < |pcs| ==> !Holds(pcs[t], n)
    ensures Holders(pcs, n) == 0
  {
    if pcs != [] { NoHolders(pcs[..|pcs| - 1], n); }
  }

  // ---------------------------------------------------------------- each step keeps the invariant

  ghost predicate Owned(p: Place) { p.Flagging? || p.Preparing? || p.Publishing? || p.Taken? }

  /** The thread is at an operation that concerns node n, or no node at all. */
  ghost predicate About(pc: Pc, n: nat) { pc.Idle? || pc.GetHead? || pc.GetRefs? || pc.GetCount? || pc.n == n }

  /** What thread t knows of the node n it works on. */
  ghost predicate Known(s: State, g: Ghost, t: nat, n: nat) {
    && WellFormed(s) && |g.at| == |s.refs| && t < |s.pcs| && n < |s.refs|
    && PcOk(s, g.at, t) && PlaceOk(s, g, n)
    && s.refs[n] == Base(g.at[n]) + Holders(s.pcs, n)
    && Holders(s.pcs, n) >= Held(s.pcs[t], n)
  }

  /** Thread t, and only it, moves. */
  ghost predicate Moves(s: State, s': State, t: nat, n: nat) {
    && WellFormed(s') && t < |s.pcs| == |s'.pcs| && s'.pcs == s.pcs[t := s'.pcs[t]]
    && Holders(s'.pcs, n) == Holders(s.pcs, n) - Held(s.pcs[t], n) + Held(s'.pcs[t], n)
  }

  /** A step of thread t that changes nothing of the other nodes: what is to be checked of node n. */
  ghost predicate Local(s: State, g: Ghost, s': State, g': Ghost, t: nat, n: nat) {
    && Known(s, g, t, n) && Known(s', g', t, n) && |s'.refs| == |s.refs| && |s'.pcs| == |s.pcs|
    && s'.pcs == s.pcs[t := s'.pcs[t]] && About(s.pcs[t], n) && About(s'.pcs[t], n)
    && (forall m :: 0 <= m < |s.refs| && m != n ==>
          && s'.refs[m] == s.refs[m] && s'.next[m] == s.next[m] && g'.at[m] == g.at[m]
          && (m in s'.out <==> m in s.out) && (m in g'.chain <==> m in g.chain))
    && (g'.at[n] != g.at[n] || s'.next[n] != s.next[n] ==> Owned(g.at[n]) ==> g.at[n].t == t)
    && (s'.next[n] != s.next[n] ==> Holders(s.pcs, n) == 0)
    && IsList(s', g'.chain)
  }

  lemma OtherPcKept(s: State, g: Ghost, s': State, g': Ghost, t: nat, n: nat, u: nat)
    requires Local(s, g, s', g', t, n) && u < |s.pcs| && u != t && PcOk(s, g.at, u)
    ensures PcOk(s', g'.at, u)
  {
    HoldersPositive(s.pcs, u, n);
  }

  lemma OtherPlaceKept(s: State, g: Ghost, s': State, g': Ghost, t: nat, n: nat, m: nat)
    requires Local(s, g, s', g', t, n) && m < |s.refs| && m != n && PlaceOk(s, g, m)
    ensures PlaceOk(s', g', m) && Holders(s'.pcs, m) == Holders(s.pcs, m)
  {
    assert Owned(g.at[m]) ==> g.at[m].t != t;
    HoldersUpdate(s.pcs, t, s'.pcs[t], m);
  }

  /** The rest of the invariant follows from the local checks. */
  lemma LocalStepKeepsInv(s: State, g: Ghost, s': State, g': Ghost, t: nat, n: nat)
    requires Inv(s, g) && Local(s, g, s', g', t, n)
    ensures Inv(s', g')
  {
    forall u | 0 <= u < |s'.pcs| ensures PcOk(s', g'.at, u) {
      if u != t { OtherPcKept(s, g, s', g', t, n, u); }
    }
    forall m | 0 <= m < |s'.refs|
      ensures PlaceOk(s', g', m) && s'.refs[m] == Base(g'.at[m]) + Holders(s'.pcs, m)
    {
      if m != n { OtherPlaceKept(s, g, s', g', t, n, m); }
    }
  }

  ghost predicate Bystander(pc: Pc) { pc.Idle? || pc.GetHead? || pc.GetRefs? || pc.GetCount? }

  lemma QuietPcKept(s: State, g: Ghost, t: nat, pc: Pc, u: nat)
    requires WellFormed(s) && |g.at| == |s.refs| && t < |s.pcs| && WellFormed(s.(pcs := s.pcs[t := pc]))
    requires u < |s.pcs| && PcOk(s, g.at, u)
    requires Bystander(pc) && (pc.GetCount? ==> Count(pc.w) != 0)
    ensures PcOk(s.(pcs := s.pcs[t := pc]), g.at, u)
  {
  }

  lemma QuietPlaceKept(s: State, g: Ghost, t: nat, pc: Pc, m: nat)
    requires WellFormed(s) && |g.at| == |s.refs| && t < |s.pcs| && WellFormed(s.(pcs := s.pcs[t := pc]))
    requires m < |s.refs| && PlaceOk(s, g, m)
    requires Bystander(s.pcs[t]) && Bystander(pc)
    ensures PlaceOk(s.(pcs := s.pcs[t := pc]), g, m) && Holders(s.pcs[t := pc], m) == Holders(s.pcs, m)
  {
    HoldersUpdate(s.pcs, t, pc, m);
  }

  /** A step that changes nothing but the position of a thread that owns and holds no node. */
  lemma QuietStepKeepsInv(s: State, g: Ghost, t: nat, pc: Pc)
    requires Inv(s, g) && t < |s.pcs| && Bystander(s.pcs[t])
    requires Bystander(pc) && (pc.GetCount? ==> Count(pc.w) != 0) && PcInRange(pc, |s.refs|)
    ensures Inv(s.(pcs := s.pcs[t := pc]), g)
  {
    var s' := s.(pcs := s.pcs[t := pc]);
    assert WellFormed(s');
    forall u | 0 <= u < |s'.pcs| ensures PcOk(s', g.at, u) { QuietPcKept(s, g, t, pc, u); }
    forall m | 0 <= m < |s'.refs|
      ensures PlaceOk(s', g, m) && s'.refs[m] == Base(g.at[m]) + Holders(s'.pcs, m)
    {
      QuietPlaceKept(s, g, t, pc, m);
    }
  }

  lemma ListStays(s: State, chain: seq<nat>, s': State)
    requires IsList(s, chain) && s'.head == s.head && s'.next == s.next
    ensures IsList(s', chain)
  {
  }

  lemma ListKeepsOff(s: State, chain: seq<nat>, s': State, n: nat)
    requires IsList(s, chain) && n !in chain && s'.head == s.head && |s'.next| == |s.next|
    requires forall m :: 0 <= m < |s.next| && m != n ==> s'.next[m] == s.next[m]
    ensures IsList(s', chain)
  {
    forall i | 0 <= i < |chain| ensures s'.next[chain[i]] == s.next[chain[i]] { assert chain[i] in chain; }
  }

  lemma {:induction false} ListPush(s: State, chain: seq<nat>, s': State, n: nat)
    requires IsList(s, chain) && n !in chain && n < |s.next| && s'.next == s.next
    requires s.next[n] == s.head && s'.head == To(n)
    ensures IsList(s', [n] + chain)
  {
    var pushed := [n] + chain;
    assert pushed[0] == n && forall i :: 0 < i < |pushed| ==> pushed[i] == chain[i - 1];
    forall i | 0 <= i < |pushed| ensures pushed[i] < |s'.next| && s'.next[pushed[i]] == Link(pushed, i + 1) {
      if i > 0 { assert Link(pushed, i + 1) == Link(chain, i) && s.next[chain[i - 1]] == Link(chain, i); }
    }
    forall i, j | 0 <= i < j < |pushed| ensures pushed[i] != pushed[j] {
      assert chain[j - 1] in chain;
      if i > 0 { assert chain[i - 1] != chain[j - 1]; }
    }
  }

  lemma ListPop(s: State, chain: seq<nat>, s': State, n: nat)
    requires IsList(s, chain) && s.head == To(n) && s'.next == s.next && n < |s.next| && s'.head == s.next[n]
    ensures chain != [] && chain[0] == n && n !in chain[1..]
    ensures IsList(s', chain[1..])
  {
    var popped := chain[1..];
    assert Link(popped, 0) == Link(chain, 1) == s.next[chain[0]];
    forall i | 0 <= i < |popped| ensures popped[i] < |s'.next| && s'.next[popped[i]] == Link(popped, i + 1) {
      assert popped[i] == chain[i + 1] && Link(popped, i + 1) == Link(chain, i + 2);
    }
  }

  lemma StepIsWellFormed(s: State, t: nat, a: Action)
    requires WellFormed(s) && Enabled(s, t, a)
    ensures WellFormed(Step(s, t, a))
  {
    var s' := Step(s, t, a);
    assert PcInRange(s'.pcs[t], |s'.refs|);
  }

  /** The facts of the invariant that a step of t on node n needs. */
  ghost predicate Ready(s: State, g: Ghost, t: nat, a: Action, n: nat) {
    Known(s, g, t, n) && IsList(s, g.chain) && Enabled(s, t, a) && Moves(s, Step(s, t, a), t, n)
  }

  lemma Focus(s: State, g: Ghost, t: nat, a: Action, n: nat)
    requires Inv(s, g) && Enabled(s, t, a) && n < |s.refs|
    ensures Ready(s, g, t, a, n)
  {
    StepIsWellFormed(s, t, a);
    HoldersPositive(s.pcs, t, n);
    HoldersUpdate(s.pcs, t, Step(s, t, a).pcs[t], n);
  }

  lemma CallAddIsLocal(s: State, g: Ghost, t: nat, n: nat) returns (g': Ghost)
    requires Ready(s, g, t, CallAdd(n), n)
    ensures Local(s, g, Step(s, t, CallAdd(n)), g', t, n)
  {
    g' := g.(at := g.at[n := Flagging(t)]);
  }

  lemma AddIsLocal(s: State, g: Ghost, t: nat, n: nat) returns (g': Ghost)
    requires Ready(s, g, t, Go, n) && s.pcs[t] == AddFlag(n)
    ensures Local(s, g, Step(s, t, Go), g', t, n)
  {
    g' := g.(at := g.at[n := if s.refs[n] == 0 then Preparing(t) else Pending]);
  }

  lemma PrepareIsLocal(s: State, g: Ghost, t: nat, n: nat)
    requires Ready(s, g, t, Go, n)
    requires (s.pcs[t].PutLoad? || s.pcs[t].PutNext?) && s.pcs[t].n == n
    ensures Local(s, g, Step(s, t, Go), g, t, n)
  {
    ListKeepsOff(s, g.chain, Step(s, t, Go), n);
  }

  lemma ExposeIsLocal(s: State, g: Ghost, t: nat, n: nat) returns (g': Ghost)
    requires Ready(s, g, t, Go, n)
    requires s.pcs[t].PutRefs? && s.pcs[t].n == n
    ensures Local(s, g, Step(s, t, Go), g', t, n)
  {
    g' := g.(at := g.at[n := Publishing(t)]);
  }

  lemma PublishIsLocal(s: State, g: Ghost, t: nat, n: nat) returns (g': Ghost)
    requires Ready(s, g, t, Go, n)
    requires s.pcs[t].PutCas? && s.pcs[t].n == n && s.head == s.pcs[t].h
    ensures Local(s, g, Step(s, t, Go), g', t, n)
  {
    g' := Ghost([n] + g.chain, g.at[n := Listed]);
    assert forall m :: m in g'.chain <==> m == n || m in g.chain;
    ListPush(s, g.chain, Step(s, t, Go), n);
  }

  lemma FailedPutIsLocal(s: State, g: Ghost, t: nat, n: nat)
    requires Ready(s, g, t, Go, n) && s.pcs[t].PutCas? && s.head != s.pcs[t].h && s.pcs[t].n == n
    ensures Local(s, g, Step(s, t, Go), g, t, n)
  {
    ListStays(s, g.chain, Step(s, t, Go));
  }

  lemma FailedGetIsLocal(s: State, g: Ghost, t: nat, n: nat)
    requires Ready(s, g, t, Go, n) && s.pcs[t].GetCas? && s.head != To(n) && s.pcs[t].n == n
    ensures Local(s, g, Step(s, t, Go), g, t, n)
  {
    assert !g.at[n].Preparing? && (Owned(g.at[n]) ==> g.at[n].t != t);
    ListStays(s, g.chain, Step(s, t, Go));
  }

  lemma RetryIsLocal(s: State, g: Ghost, t: nat, n: nat) returns (g': Ghost)
    requires Ready(s, g, t, Go, n)
    requires s.pcs[t].PutFail? && s.pcs[t].n == n
    ensures Local(s, g, Step(s, t, Go), g', t, n)
  {
    g' := g.(at := g.at[n := if s.refs[n] == 1 then Preparing(t) else Pending]);
  }

  /** A reference is only taken while the count is above zero, hence never while a thread prepares the node. */
  lemma AcquireIsLocal(s: State, g: Ghost, t: nat, n: nat)
    requires Ready(s, g, t, Go, n) && s.pcs[t] == GetCount(n, s.refs[n])
    ensures Local(s, g, Step(s, t, Go), g, t, n)
  {
    assert !g.at[n].Preparing? && (Owned(g.at[n]) ==> g.at[n].t != t);
    ListStays(s, g.chain, Step(s, t, Go));
  }

  lemma ReadNextIsLocal(s: State, g: Ghost, t: nat, n: nat)
    requires Ready(s, g, t, Go, n) && s.pcs[t] == GetNext(n)
    ensures Local(s, g, Step(s, t, Go), g, t, n)
  {
    assert !g.at[n].Preparing? && (Owned(g.at[n]) ==> g.at[n].t != t);
    ListStays(s, g.chain, Step(s, t, Go));
  }

  /** The node is unlinked with its current successor: a held node's next never changes. */
  lemma UnlinkIsLocal(s: State, g: Ghost, t: nat, n: nat) returns (g': Ghost)
    requires Ready(s, g, t, Go, n)
    requires s.pcs[t].GetCas? && s.pcs[t].n == n
    requires s.head == To(n)
    ensures Local(s, g, Step(s, t, Go), g', t, n)
    ensures s.pcs[t].nx == s.next[n]
  {
    ListPop(s, g.chain, Step(s, t, Go), n);
    g' := Ghost(g.chain[1..], g.at[n := Taken(t)]);
    assert g.chain == [n] + g'.chain;
    assert forall m :: m in g.chain <==> m == n || m in g'.chain;
  }

  lemma TakeIsLocal(s: State, g: Ghost, t: nat, n: nat) returns (g': Ghost)
    requires Ready(s, g, t, Go, n) && s.pcs[t] == GetTake(n)
    ensures Local(s, g, Step(s, t, Go), g', t, n)
  {
    g' := g.(at := g.at[n := Out]);
  }

  /** The thread that drops the last reference to a flagged node takes over its insertion. */
  lemma DropIsLocal(s: State, g: Ghost, t: nat, n: nat) returns (g': Ghost)
    requires Ready(s, g, t, Go, n)
    requires s.pcs[t].GetDrop? && s.pcs[t].n == n
    ensures Local(s, g, Step(s, t, Go), g', t, n)
  {
    assert !g.at[n].Preparing? && (Owned(g.at[n]) ==> g.at[n].t != t);
    ListStays(s, g.chain, Step(s, t, Go));
    g' := if s.refs[n] == FLAG + 1 then g.(at := g.at[n := Preparing(t)]) else g;
  }

  lemma PutStepIsLocal(s: State, g: Ghost, t: nat, n: nat) returns (g': Ghost)
    requires Ready(s, g, t, Go, n) && (s.pcs[t].AddFlag? || Putting(s.pcs[t])) && s.pcs[t].n == n
    ensures Local(s, g, Step(s, t, Go), g', t, n)
  {
    match s.pcs[t] {
      case AddFlag(_) => g' := AddIsLocal(s, g, t, n);
      case PutRefs(_, _, _) => g' := ExposeIsLocal(s, g, t, n);
      case PutFail(_, _, _) => g' := RetryIsLocal(s, g, t, n);
      case PutCas(_, h, _) =>
        if s.head == h {
          g' := PublishIsLocal(s, g, t, n);
        } else {
          g' := g;
          FailedPutIsLocal(s, g, t, n);
        }
      case _ =>
        g' := g;
        PrepareIsLocal(s, g, t, n);
    }
  }

  lemma GetStepIsLocal(s: State, g: Ghost, t: nat, n: nat) returns (g': Ghost)
    requires Ready(s, g, t, Go, n)
    requires Holds(s.pcs[t], n) || s.pcs[t] == GetCount(n, s.refs[n])
    ensures Local(s, g, Step(s, t, Go), g', t, n)
  {
    match s.pcs[t] {
      case GetTake(_) => g' := TakeIsLocal(s, g, t, n);
      case GetDrop(_, _) => g' := DropIsLocal(s, g, t, n);
      case GetCas(_, nx) =>
        if s.head == To(n) {
          g' := UnlinkIsLocal(s, g, t, n);
        } else {
          g' := g;
          FailedGetIsLocal(s, g, t, n);
        }
      case GetNext(_) =>
        g' := g;
        ReadNextIsLocal(s, g, t, n);
      case _ =>
        g' := g;
        AcquireIsLocal(s, g, t, n);
    }
  }

  lemma StepKeepsInv(s: State, g: Ghost, t: nat, a: Action) returns (g': Ghost)
    requires Inv(s, g) && Enabled(s, t, a)
    ensures Inv(Step(s, t, a), g')
  {
    StepIsWellFormed(s, t, a);
    if a.CallGet? || (a.Go? && (s.pcs[t].GetHead? || s.pcs[t].GetRefs?)) {
      g' := g;
      QuietStepKeepsInv(s, g, t, Step(s, t, a).pcs[t]);
    } else if a.Go? && s.pcs[t].GetCount? && s.refs[s.pcs[t].n] != s.pcs[t].w {
      g' := g;
      QuietStepKeepsInv(s, g, t, GetHead);
    } else {
      var n := if a.CallAdd? then a.n else s.pcs[t].n;
      Focus(s, g, t, a, n);
      if a.CallAdd? {
        g' := CallAddIsLocal(s, g, t, n);
      } else if s.pcs[t].AddFlag? || Putting(s.pcs[t]) {
        g' := PutStepIsLocal(s, g, t, n);
      } else {
        g' := GetStepIsLocal(s, g, t, n);
      }
      LocalStepKeepsInv(s, g, Step(s, t, a), g', t, n);
    }
  }

  // ---------------------------------------------------------------- what every run guarantees

  lemma InitEstablishesInv(s: State) returns (g: Ghost)
    requires Init(s)
    ensures Inv(s, g)
  {
    g := Ghost([], seq(|s.refs|, i => Out));
    forall n | 0 <= n < |s.refs| ensures s.refs[n] == Base(g.at[n]) + Holders(s.pcs, n) { NoHolders(s.pcs, n); }
  }

  lemma NextKeepsInv(s: State, g: Ghost, s': State) returns (g': Ghost)
    requires Inv(s, g) && Next(s, s')
    ensures Inv(s', g')
  {
    var t: nat, a: Action :| Enabled(s, t, a) && s' == Step(s, t, a);
    g' := StepKeepsInv(s, g, t, a);
  }

  lemma {:induction false} RunKeepsInv(run: seq<State>, i: nat) returns (g: Ghost)
    requires IsRun(run) && i < |run|
    ensures Inv(run[i], g)
  {
    if i == 0 {
      g := InitEstablishesInv(run[0]);
    } else {
      var before := RunKeepsInv(run, i - 1);
      assert Next(run[i - 1], run[i - 1 + 1]);
      g := NextKeepsInv(run[i - 1], before, run[i]);
    }
  }

  /** The node a thread has unlinked and is about to return. */
  ghost predicate Takes(s: State, t: nat, n: nat) { t < |s.pcs| && s.pcs[t] == GetTake(n) }

  /** Safety, in terms of the program's own state. */
  ghost predicate Safe(s: State) {
    // the list is finite, acyclic and duplicate free, and its nodes are nobody else's
    && (exists chain ::
          && IsList(s, chain)
          && (forall n :: n in chain ==> n !in s.out && forall t: nat :: !Takes(s, t, n)))
    // no node has two takers
    && (forall t: nat, n: nat :: Takes(s, t, n) ==> n !in s.out)
    && (forall t: nat, u: nat, n: nat :: Takes(s, t, n) && Takes(s, u, n) ==> t == u)
    // no ABA: a head CAS that is about to run carries the node's current successor
    && (forall t :: 0 <= t < |s.pcs| && s.pcs[t].GetCas? ==>
          s.pcs[t].n < |s.next| && s.pcs[t].nx == s.next[s.pcs[t].n])
    // the assertion after a successful CAS, and no reference word can wrap
    && (forall t: nat, n: nat :: Takes(s, t, n) ==> n < |s.refs| && 2 <= s.refs[n] < FLAG)
    && (forall n :: 0 <= n < |s.refs| ==> s.refs[n] < WORD - 1)
  }

  lemma InvIsSafe(s: State, g: Ghost)
    requires Inv(s, g)
    ensures Safe(s)
  {
    forall t: nat, n: nat | Takes(s, t, n)
      ensures n < |s.refs| && g.at[n] == Taken(t) && n !in s.out && 2 <= s.refs[n] < FLAG
    {
      assert PcOk(s, g.at, t) && PlaceOk(s, g, n);
      HoldersPositive(s.pcs, t, n);
    }
    forall n | n in g.chain ensures n !in s.out && forall t: nat :: !Takes(s, t, n) { assert PlaceOk(s, g, n); }
    forall t | 0 <= t < |s.pcs| && s.pcs[t].GetCas? ensures s.pcs[t].nx == s.next[s.pcs[t].n] {
      assert PcOk(s, g.at, t);
    }
  }

  /** Every state of every run is safe. */
  lemma RunsAreSafe(run: seq<State>)
    requires IsRun(run)
    ensures forall i :: 0 <= i < |run| ==> Safe(run[i])
  {
    forall i | 0 <= i < |run| ensures Safe(run[i]) {
      var g := RunKeepsInv(run, i);
      InvIsSafe(run[i], g);
    }
  }

  lemma QuietPlaces(s: State, g: Ghost, n: nat)
    requires Inv(s, g) && n < |s.refs| && forall t :: 0 <= t < |s.pcs| ==> s.pcs[t].Idle?
    ensures n in g.chain <==> n !in s.out
  {
    assert PlaceOk(s, g, n);
    NoHolders(s.pcs, n);
  }

  /** Nothing is lost: when no call is under way, each node is on the list once or in a client's hands,
      never both and never neither. */
  lemma QuietNodesAreListedOrOut(run: seq<State>, i: nat) returns (chain: seq<nat>)
    requires IsRun(run) && i < |run|
    requires forall t :: 0 <= t < |run[i].pcs| ==> run[i].pcs[t].Idle?
    ensures IsList(run[i], chain)
    ensures forall n :: 0 <= n < |run[i].refs| ==> (n in chain <==> n !in run[i].out)
  {
    var s := run[i];
    var g := RunKeepsInv(run, i);
    chain := g.chain;
    forall n | 0 <= n < |s.refs| ensures n in chain <==> n !in s.out { QuietPlaces(s, g, n); }
  }

  // ---------------------------------------------------------------- progress without interference

  /** Up to k further operations of thread t, with no other thread moving. */
  ghost function Alone(s: State, t: nat, k: nat): (s': State)
    requires WellFormed(s) && t < |s.pcs|
    decreases k
  {
    if k == 0 || s.pcs[t].Idle? then s
    else
      StepIsWellFormed(s, t, Go);
      Alone(Step(s, t, Go), t, k - 1)
  }

  /** When no call is under way the head is referenced by the list alone. */
  lemma QuietHeadCount(s: State, g: Ghost)
    requires Inv(s, g) && s.head.To? && forall u :: 0 <= u < |s.pcs| ==> s.pcs[u].Idle?
    ensures s.refs[s.head.node] == 1
  {
    assert g.chain[0] == s.head.node && PlaceOk(s, g, s.head.node);
    NoHolders(s.pcs, s.head.node);
  }

  /** A lone try_get on a list whose head nobody else references returns the head
      and leaves its successor as the head. */
  lemma SoloTryGet(s: State, t: nat)
    requires WellFormed(s) && t < |s.pcs| && s.pcs[t].Idle? && s.head.To? && s.refs[s.head.node] == 1
    ensures WellFormed(Step(s, t, CallGet))
    ensures Alone(Step(s, t, CallGet), t, 6)
         == s.(head := s.next[s.head.node], refs := s.refs[s.head.node := 0], out := s.out + {s.head.node})
  {
    var n := s.head.node;
    var s0 := Step(s, t, CallGet);
    StepIsWellFormed(s, t, CallGet);
    var s1 := Step(s0, t, Go);
    StepIsWellFormed(s0, t, Go);
    var s2 := Step(s1, t, Go);
    StepIsWellFormed(s1, t, Go);
    var s3 := Step(s2, t, Go);
    StepIsWellFormed(s2, t, Go);
    var s4 := Step(s3, t, Go);
    StepIsWellFormed(s3, t, Go);
    var s5 := Step(s4, t, Go);
    StepIsWellFormed(s4, t, Go);
    var s6 := Step(s5, t, Go);
    assert s6.pcs == s.pcs && s6.refs == s.refs[n := 0];
    assert Alone(s0, t, 6) == Alone(s1, t, 5) == Alone(s2, t, 4) == Alone(s3, t, 3);
    assert Alone(s3, t, 3) == Alone(s4, t, 2) == Alone(s5, t, 1) == s6;
  }

  /** A lone add of a node nobody references pushes it on the list. */
  lemma SoloAdd(s: State, t: nat, n: nat)
    requires WellFormed(s) && t < |s.pcs| && s.pcs[t].Idle? && n in s.out && s.refs[n] == 0
    ensures WellFormed(Step(s, t, CallAdd(n)))
    ensures Alone(Step(s, t, CallAdd(n)), t, 5)
         == s.(head := To(n), next := s.next[n := s.head], refs := s.refs[n := 1], out := s.out - {n})
  {
    var s0 := Step(s, t, CallAdd(n));
    StepIsWellFormed(s, t, CallAdd(n));
    var s1 := Step(s0, t, Go);
    StepIsWellFormed(s0, t, Go);
    var s2 := Step(s1, t, Go);
    StepIsWellFormed(s1, t, Go);
    var s3 := Step(s2, t, Go);
    StepIsWellFormed(s2, t, Go);
    var s4 := Step(s3, t, Go);
    StepIsWellFormed(s3, t, Go);
    var s5 := Step(s4, t, Go);
    assert s5.pcs == s.pcs && s5.refs == s.refs[n := 1];
    assert Alone(s0, t, 5) == Alone(s1, t, 4) == Alone(s2, t, 3) == Alone(s3, t, 2) == Alone(s4, t, 1) == s5;
  }
}
