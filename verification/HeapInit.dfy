/** The simulator heap: threads race to initialise it, then allocate by bumping a shared base.
    One atomic operation per step, any interleaving, sequential consistency. Addresses are naturals. */
module HeapInit {

  datatype Status = Uninit | Init | InProcess

  /** A thread's next operation. */
  datatype Pc =
    | Check        // load status: done already?
    | TryClaim     // compare and swap status from Uninit to InProcess
    | StoreBase    // won: store the base
    | StoreStatus  // store Init
    | Wait         // load status until it is no longer InProcess
    | Ready        // init has returned: may allocate

  /** Where the statics of a thread's section end; the heap starts there. */
  datatype Section = Section(base: nat, size: nat) {
    function HeapBase(): (b: nat)
      ensures base + size <= b < base + size + 16 && (b - base) % 16 == 0
    {
      base + (size + 15) / 16 * 16
    }
  }

  /** A block of size bytes, for a caller that asked for so many. */
  datatype Block = Block(addr: nat, size: nat, asked: nat)

  /** blocks are all blocks handed out, in order; winners all threads that ever stored the base. */
  datatype State = State(status: Status, base: nat, pcs: seq<Pc>, blocks: seq<Block>, winners: seq<nat>)

  /** Allocations are rounded up to whole words. */
  function Rounded(size: nat): (r: nat)
    ensures size <= r < size + 8 && r % 8 == 0
  {
    (size + 7) / 8 * 8
  }

  /** Thread t's next step; size matters only to an allocation. */
  function Step(s: State, t: nat, size: nat, sections: seq<Section>): (s': State)
    requires t < |s.pcs| == |sections|
  {
    match s.pcs[t]
    case Check => s.(pcs := s.pcs[t := if s.status == Init then Ready else TryClaim])
    case TryClaim =>
      if s.status == Uninit then s.(status := InProcess, pcs := s.pcs[t := StoreBase])
      else s.(pcs := s.pcs[t := if s.status == InProcess then Wait else Ready])
    case StoreBase => s.(base := sections[t].HeapBase(), winners := s.winners + [t], pcs := s.pcs[t := StoreStatus])
    case StoreStatus => s.(status := Init, pcs := s.pcs[t := Ready])
    case Wait => if s.status == InProcess then s else s.(pcs := s.pcs[t := Ready])
    case Ready => s.(base := s.base + Rounded(size), blocks := s.blocks + [Block(s.base, Rounded(size), size)])
  }

  ghost predicate Next(s: State, s': State, sections: seq<Section>) {
    |s.pcs| == |sections| && exists t: nat, size: nat :: t < |s.pcs| && s' == Step(s, t, size, sections)
  }

  ghost predicate Start(s: State, sections: seq<Section>) {
    && s.status == Uninit && |s.pcs| == |sections| && s.blocks == [] && s.winners == []
    && forall t :: 0 <= t < |s.pcs| ==> s.pcs[t] == Check
  }

  ghost predicate IsRun(run: seq<State>, sections: seq<Section>) {
    && |run| > 0 && Start(run[0], sections)
    && forall i :: 0 <= i < |run| - 1 ==> Next(run[i], run[i + 1], sections)
  }

  // ---------------------------------------------------------------- invariant

  /** The blocks follow each other from position from up to position to. */
  ghost predicate Packed(blocks: seq<Block>, from: nat, to: nat) {
    if blocks == [] then from == to
    else
      var n := |blocks| - 1;
      blocks[n].addr + blocks[n].size == to && Ample(blocks[n]) && Packed(blocks[..n], from, blocks[n].addr)
  }

  /** A block is the least number of whole words that holds what was asked for. */
  ghost predicate Ample(b: Block) { b.asked <= b.size < b.asked + 8 && b.size % 8 == 0 }

  ghost predicate PcOk(s: State, t: nat)
    requires t < |s.pcs|
  {
    match s.pcs[t]
    case Check => true
    case TryClaim => true
    case StoreBase => s.status == InProcess && s.winners == []
    case StoreStatus => s.status == InProcess && s.winners == [t]
    case Wait => s.status != Uninit
    case Ready => s.status == Init
  }

  ghost predicate Winning(pc: Pc) { pc.StoreBase? || pc.StoreStatus? }

  ghost predicate OneWinner(s: State) {
    && (forall t, u :: 0 <= t < u < |s.pcs| && Winning(s.pcs[t]) ==> !Winning(s.pcs[u]))
    && (s.status == InProcess <==> exists t :: 0 <= t < |s.pcs| && Winning(s.pcs[t]))
  }

  ghost predicate Inv(s: State, sections: seq<Section>) {
    && |s.pcs| == |sections|
    && (forall t :: 0 <= t < |s.pcs| ==> PcOk(s, t))
    && OneWinner(s)
    && (s.status == Uninit ==> s.winners == [])
    && (s.status == Init ==> |s.winners| == 1)
    && |s.winners| <= 1
    && (s.winners == [] ==> s.blocks == [])
    && (s.winners != [] ==> s.winners[0] < |sections| && Packed(s.blocks, sections[s.winners[0]].HeapBase(), s.base))
  }

  lemma StepKeepsPcs(s: State, t: nat, size: nat, sections: seq<Section>, u: nat)
    requires Inv(s, sections) && t < |s.pcs| && u < |s.pcs|
    ensures PcOk(Step(s, t, size, sections), u)
  {
    assert PcOk(s, t) && PcOk(s, u);
    assert u != t && Winning(s.pcs[t]) ==> !Winning(s.pcs[u]);
  }

  lemma StepKeepsWinner(s: State, t: nat, size: nat, sections: seq<Section>)
    requires Inv(s, sections) && t < |s.pcs|
    ensures OneWinner(Step(s, t, size, sections))
  {
    var s' := Step(s, t, size, sections);
    assert PcOk(s, t);
    if s.status == InProcess {
      var w :| 0 <= w < |s.pcs| && Winning(s.pcs[w]);
      if s'.status == InProcess { assert Winning(s'.pcs[w]); }
    } else if s'.status == InProcess {
      assert Winning(s'.pcs[t]);
    }
  }

  lemma StepKeepsInv(s: State, t: nat, size: nat, sections: seq<Section>)
    requires Inv(s, sections) && t < |s.pcs|
    ensures Inv(Step(s, t, size, sections), sections)
  {
    var s' := Step(s, t, size, sections);
    assert PcOk(s, t);
    forall u | 0 <= u < |s'.pcs| ensures PcOk(s', u) { StepKeepsPcs(s, t, size, sections, u); }
    StepKeepsWinner(s, t, size, sections);
    if s.pcs[t] == Ready { assert s'.blocks[..|s.blocks|] == s.blocks; }
  }

  lemma {:induction false} RunKeepsInv(run: seq<State>, sections: seq<Section>, i: nat)
    requires IsRun(run, sections) && i < |run|
    ensures Inv(run[i], sections)
  {
    if i > 0 {
      RunKeepsInv(run, sections, i - 1);
      assert Next(run[i - 1], run[i - 1 + 1], sections);
      var t: nat, size: nat :| t < |run[i - 1].pcs| && run[i] == Step(run[i - 1], t, size, sections);
      StepKeepsInv(run[i - 1], t, size, sections);
    }
  }

  // ---------------------------------------------------------------- what every run gives

  ghost predicate Disjoint(b: Block, c: Block) { b.addr + b.size <= c.addr || c.addr + c.size <= b.addr }

  lemma {:induction false} PackedEnd(blocks: seq<Block>, from: nat, to: nat)
    requires Packed(blocks, from, to)
    ensures from <= to && (from % 8 == 0 ==> to % 8 == 0)
    decreases |blocks|
  {
    if blocks != [] { PackedEnd(blocks[..|blocks| - 1], from, blocks[|blocks| - 1].addr); }
  }

  lemma {:induction false} PackedBlock(blocks: seq<Block>, from: nat, to: nat, i: nat)
    requires Packed(blocks, from, to) && i < |blocks|
    ensures from <= blocks[i].addr && blocks[i].addr + blocks[i].size <= to && (from % 8 == 0 ==> blocks[i].addr % 8 == 0)
    decreases |blocks|
  {
    var n := |blocks| - 1;
    PackedEnd(blocks[..n], from, blocks[n].addr);
    if i < n { PackedBlock(blocks[..n], from, blocks[n].addr, i); }
  }

  lemma {:induction false} PackedPair(blocks: seq<Block>, from: nat, to: nat, i: nat, j: nat)
    requires Packed(blocks, from, to) && i < j < |blocks|
    ensures blocks[i].addr + blocks[i].size <= blocks[j].addr
    decreases |blocks|
  {
    var n := |blocks| - 1;
    if j == n { PackedBlock(blocks[..n], from, blocks[n].addr, i); } else { PackedPair(blocks[..n], from, blocks[n].addr, i, j); }
  }

  /** The base was stored once before any init returned. The blocks follow the statics of the section that won without
      a gap; each holds what its caller asked for, no two callers' bytes overlap, and all are aligned if the section is. */
  ghost predicate Safe(s: State, sections: seq<Section>) {
    && |s.winners| <= 1
    && (forall t :: 0 <= t < |s.pcs| && s.pcs[t] == Ready ==> s.status == Init && |s.winners| == 1)
    && (s.blocks != [] ==> |s.winners| == 1 && s.winners[0] < |sections|)
    && (forall i, j :: 0 <= i < j < |s.blocks| ==> Disjoint(s.blocks[i], s.blocks[j]))
    && (forall i, j :: 0 <= i < j < |s.blocks| ==> NoByteShared(s.blocks[i], s.blocks[j]))
    && (forall i :: 0 <= i < |s.blocks| ==> AboveStatics(s.blocks[i], sections[s.winners[0]]) && Ample(s.blocks[i]))
    && (forall i :: 0 <= i < |s.blocks| ==>
          s.blocks[i].addr == if i == 0 then sections[s.winners[0]].HeapBase() else s.blocks[i - 1].addr + s.blocks[i - 1].size)
  }

  /** No byte belongs to what both callers asked for. */
  ghost predicate NoByteShared(b: Block, c: Block) { b.addr + b.asked <= c.addr || c.addr + c.asked <= b.addr }

  ghost predicate AboveStatics(b: Block, section: Section) {
    && section.base + section.size <= b.addr
    && (section.base % 8 == 0 ==> b.addr % 8 == 0)
  }

  lemma {:induction false} PackedAmple(blocks: seq<Block>, from: nat, to: nat, i: nat)
    requires Packed(blocks, from, to) && i < |blocks|
    ensures Ample(blocks[i]) && blocks[i].addr == if i == 0 then from else blocks[i - 1].addr + blocks[i - 1].size
    decreases |blocks|
  {
    var n := |blocks| - 1;
    if i < n {
      PackedAmple(blocks[..n], from, blocks[n].addr, i);
    } else if n == 0 {
      assert Packed(blocks[..n], from, blocks[n].addr);
    } else {
      assert Packed(blocks[..n], from, blocks[n].addr) && blocks[..n][n - 1] == blocks[n - 1];
    }
  }

  lemma RunsAreSafe(run: seq<State>, sections: seq<Section>, i: nat)
    requires IsRun(run, sections) && i < |run|
    ensures Safe(run[i], sections)
  {
    RunKeepsInv(run, sections, i);
    var s := run[i];
    forall t | 0 <= t < |s.pcs| && s.pcs[t] == Ready ensures s.status == Init && |s.winners| == 1 { assert PcOk(s, t); }
    if s.blocks != [] {
      var from := sections[s.winners[0]].HeapBase();
      forall k | 0 <= k < |s.blocks|
        ensures AboveStatics(s.blocks[k], sections[s.winners[0]]) && Ample(s.blocks[k])
        ensures s.blocks[k].addr == if k == 0 then from else s.blocks[k - 1].addr + s.blocks[k - 1].size
      {
        PackedBlock(s.blocks, from, s.base, k);
        PackedAmple(s.blocks, from, s.base, k);
      }
      forall j, k | 0 <= j < k < |s.blocks| ensures Disjoint(s.blocks[j], s.blocks[k]) && NoByteShared(s.blocks[j], s.blocks[k]) {
        PackedPair(s.blocks, from, s.base, j, k);
        assert Ample(s.blocks[j]) && Ample(s.blocks[k]);
      }
    }
  }

  // ---------------------------------------------------------------- progress

  /** k further steps of thread t, with nobody else moving. */
  function Alone(s: State, t: nat, k: nat, sections: seq<Section>): (s': State)
    requires t < |s.pcs| == |sections|
    decreases k
  {
    if k == 0 then s else Alone(Step(s, t, 0, sections), t, k - 1, sections)
  }

  /** A lone init returns after its one load if the heap is initialised, and else after initialising it. */
  lemma SoloInit(s: State, t: nat, sections: seq<Section>)
    requires t < |s.pcs| == |sections| && s.pcs[t] == Check && s.status != InProcess
    ensures if s.status == Init then Alone(s, t, 1, sections) == s.(pcs := s.pcs[t := Ready])
            else Alone(s, t, 4, sections) ==
                 s.(status := Init, base := sections[t].HeapBase(), pcs := s.pcs[t := Ready], winners := s.winners + [t])
  {
    var s1 := Step(s, t, 0, sections);
    if s.status == Init {
      assert Alone(s, t, 1, sections) == Alone(s1, t, 0, sections);
    } else {
      var s2 := Step(s1, t, 0, sections);
      var s3 := Step(s2, t, 0, sections);
      var s4 := Step(s3, t, 0, sections);
      assert s4.pcs == s.pcs[t := Ready];
      assert Alone(s, t, 4, sections) == Alone(s1, t, 3, sections) == Alone(s2, t, 2, sections) == Alone(s3, t, 1, sections) == s4;
    }
  }

  /** How much of init lies ahead of a thread at most, once the heap is initialised. */
  ghost function Ahead(pc: Pc): nat {
    match pc
    case Check => 2
    case TryClaim => 1
    case StoreBase => 2
    case StoreStatus => 1
    case Wait => 1
    case Ready => 0
  }

  /** Nobody waits in vain: while a thread is still in init, either the heap is initialised and any step
      of that thread brings it closer to its return, or some thread can take a step that changes the state. */
  lemma InitProgresses(run: seq<State>, sections: seq<Section>, i: nat, t: nat)
    requires IsRun(run, sections) && i < |run| && t < |run[i].pcs| && run[i].pcs[t] != Ready
    ensures |run[i].pcs| == |sections|
    ensures run[i].status == Init ==> Ahead(Step(run[i], t, 0, sections).pcs[t]) < Ahead(run[i].pcs[t])
    ensures exists u: nat :: u < |run[i].pcs| && Moves(run[i], u, sections)
  {
    RunKeepsInv(run, sections, i);
    var s := run[i];
    assert PcOk(s, t);
    if s.pcs[t] == Wait && s.status == InProcess {
      var w :| 0 <= w < |s.pcs| && Winning(s.pcs[w]);
      assert Step(s, w, 0, sections).pcs[w] != s.pcs[w];
      assert Moves(s, w, sections);
    } else {
      assert Step(s, t, 0, sections).pcs[t] != s.pcs[t];
      assert Moves(s, t, sections);
    }
  }

  ghost predicate Moves(s: State, u: nat, sections: seq<Section>)
    requires |s.pcs| == |sections|
  {
    u < |s.pcs| && s.pcs[u] != Ready && Step(s, u, 0, sections).pcs[u] != s.pcs[u]
  }
}
