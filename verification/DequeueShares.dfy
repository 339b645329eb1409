/** How many elements a dequeue takes when dequeues overlap. */
module DequeueShares {
  import opened DequeueProtocol
  import opened Sums

  /** What a reservation of desired elements gets of the room it finds. */
  ghost function Share(desired: int, room: int): int { if room <= 0 then 0 else Min(desired, room) }

  /** What earlier reservations asked for, less the overcommit that this one remembers, is taken up; of the rest up to
      the tail the attempt takes as much as it asked for, or all there is. */
  lemma RecheckTakesShare<T>(s: State<T>, h: History, t: nat)
    requires Inv(s, h) && Enabled(s, t, Go) && s.pcs[t].Recheck?
    ensures h.slot[t] < |h.log| && h.log[h.slot[t]].desired == s.pcs[t].desired
    ensures var earlier := Sum(Desired, h.log[..h.slot[t]]);
      Judged(Step(s, t, Go).pcs[t]) == Share(s.pcs[t].desired, |s.items| - (earlier - s.pcs[t].over))
  {
    assert PcOk(s, h, t);
  }

  /** A dequeue that looks at the counters counts what is claimed and what others have reserved, and what has been given
      back since it loaded the overcommit; it fails exactly if that reaches the tail it loaded, and else reserves what it
      wants of the rest. */
  lemma CheckIsExact<T>(s: State<T>, h: History, t: nat)
    requires Inv(s, h) && Enabled(s, t, Go) && s.pcs[t].LoadCount?
    ensures var pc, pc' := s.pcs[t], Step(s, t, Go).pcs[t];
      var room := pc.tail - (s.head + Sum(InFlight, s.pcs) + (s.over - pc.over));
      pc' == if room <= 0 then Idle else Reserve(Min(room, pc.max), pc.over)
  {
  }

  // ---------------------------------------------------------------- overlapping dequeues

  ghost predicate Quiet<T>(s: State<T>) { forall t :: 0 <= t < |s.pcs| ==> s.pcs[t].Idle? }

  /** The quiet state that the dequeues began from: reservations logged so far, head, overcommit and tail. */
  datatype Origin = Origin(first: nat, head: nat, over: nat, tail: nat)

  ghost function Room(log: seq<Attempt>, j: nat, o: Origin): int
    requires j <= |log|
  {
    o.tail - (Sum(Desired, log[..j]) - o.over)
  }

  /** Reservation j has been judged, and got its share. */
  ghost predicate Settled(log: seq<Attempt>, j: nat, o: Origin)
    requires j < |log|
  {
    log[j].succ == Share(log[j].desired, Room(log, j, o))
  }

  ghost predicate Unjudged<T>(s: State<T>, h: History, j: nat) {
    exists t: nat :: t < |s.pcs| && t < |h.slot| && s.pcs[t].Recheck? && h.slot[t] == j
  }

  ghost predicate ThreadOk<T>(s: State<T>, h: History, o: Origin, t: nat)
    requires t < |s.pcs| == |h.slot|
  {
    && (Logged(s.pcs[t]) ==> h.slot[t] >= o.first)
    && (s.pcs[t].Recheck? ==> s.pcs[t].desired == 0 || s.pcs[t].over == o.over)
  }

  /** Nothing has been given back since the start, so every thread remembers the overcommit of then. */
  ghost predicate NothingBack<T>(s: State<T>, o: Origin) {
    s.over == o.over && forall t :: 0 <= t < |s.pcs| ==> (s.pcs[t].LoadCount? || s.pcs[t].Reserve? ==> s.pcs[t].over == o.over)
  }

  ghost predicate Overlaps<T>(s: State<T>, h: History, o: Origin) {
    && Inv(s, h) && |s.items| == o.tail && o.first <= |h.log|
    && Sum(Desired, h.log[..o.first]) == o.head + o.over && Sum(Succ, h.log[..o.first]) == o.head
    && (forall t :: 0 <= t < |s.pcs| ==> ThreadOk(s, h, o, t))
    && (forall j :: o.first <= j < |h.log| ==> Settled(h.log, j, o) || Unjudged(s, h, j))
  }

  lemma StartOverlaps<T>(s: State<T>, h: History) returns (o: Origin)
    requires Inv(s, h) && Quiet(s)
    ensures o == Origin(|h.log|, s.head, s.over, |s.items|) && Overlaps(s, h, o) && NothingBack(s, o)
  {
    o := Origin(|h.log|, s.head, s.over, |s.items|);
    SumZero(InFlight, s.pcs);
    SumZero(Judged, s.pcs);
    assert h.log[..o.first] == h.log;
  }

  /** Threads other than t keep their places in the history, and the sums up to any place stay. */
  ghost predicate SameElsewhere<T>(s: State<T>, h: History, s': State<T>, h': History, t: nat) {
    && t < |s.pcs| == |s'.pcs| == |h.slot| == |h'.slot| && |h.log| <= |h'.log|
    && (forall u :: 0 <= u < |s.pcs| && u != t ==> s'.pcs[u] == s.pcs[u] && h'.slot[u] == h.slot[u])
    && (forall j :: 0 <= j <= |h.log| ==> Sum(Desired, h'.log[..j]) == Sum(Desired, h.log[..j]))
    && (forall j :: 0 <= j < |h.log| ==> h'.log[j].desired == h.log[j].desired)
  }

  lemma OthersUnjudged<T>(s: State<T>, h: History, s': State<T>, h': History, t: nat, j: nat)
    requires SameElsewhere(s, h, s', h', t) && Unjudged(s, h, j) && !(s.pcs[t].Recheck? && h.slot[t] == j)
    ensures Unjudged(s', h', j)
  {
    var u: nat :| u < |s.pcs| && u < |h.slot| && s.pcs[u].Recheck? && h.slot[u] == j;
    assert u != t && s'.pcs[u].Recheck? && h'.slot[u] == j;
  }

  lemma StepElsewhere<T>(s: State<T>, h: History, t: nat)
    requires Inv(s, h) && Enabled(s, t, Go)
    ensures SameElsewhere(s, h, Step(s, t, Go), NextHistory(s, h, t, Go), t)
  {
    assert PcOk(s, h, t);
    var h', j := NextHistory(s, h, t, Go), h.slot[t];
    forall k | 0 <= k <= |h.log| ensures Sum(Desired, h'.log[..k]) == Sum(Desired, h.log[..k]) {
      if s.pcs[t].Reserve? { assert h'.log[..k] == h.log[..k]; }
      else if Logged(s.pcs[t]) && h'.log != h.log { PrefixUpdate(Desired, h.log, j, h'.log[j], k); }
    }
  }

  /** The successes before the start stay: their attempts are over. */
  lemma EarlierStay<T>(s: State<T>, h: History, o: Origin, t: nat)
    requires Overlaps(s, h, o) && Enabled(s, t, Go)
    ensures var h' := NextHistory(s, h, t, Go);
      o.first <= |h'.log| && Sum(Succ, h'.log[..o.first]) == Sum(Succ, h.log[..o.first])
  {
    assert PcOk(s, h, t) && ThreadOk(s, h, o, t);
    assert NextHistory(s, h, t, Go).log[..o.first] == h.log[..o.first];
  }

  lemma JudgedStay<T>(s: State<T>, h: History, o: Origin, t: nat, j: nat)
    requires Overlaps(s, h, o) && Enabled(s, t, Go) && o.first <= j < |h.log|
    ensures var s', h' := Step(s, t, Go), NextHistory(s, h, t, Go);
      j < |h'.log| && (Settled(h'.log, j, o) || Unjudged(s', h', j))
  {
    var s', h' := Step(s, t, Go), NextHistory(s, h, t, Go);
    assert PcOk(s, h, t) && ThreadOk(s, h, o, t);
    StepElsewhere(s, h, t);
    if s.pcs[t].Recheck? && h.slot[t] == j {
      RecheckTakesShare(s, h, t);
    } else if Settled(h.log, j, o) {
      assert h'.log[j].succ == h.log[j].succ;
    } else {
      OthersUnjudged(s, h, s', h', t, j);
    }
  }

  lemma GoOverlaps<T>(s: State<T>, h: History, o: Origin, t: nat)
    requires Overlaps(s, h, o) && Enabled(s, t, Go) && (NothingBack(s, o) || Step(s, t, Go).count == s.count)
    ensures Overlaps(Step(s, t, Go), NextHistory(s, h, t, Go), o)
  {
    var s', h' := Step(s, t, Go), NextHistory(s, h, t, Go);
    var h1 := StepKeepsInv(s, h, t, Go);
    assert PcOk(s, h, t) && ThreadOk(s, h, o, t);
    StepElsewhere(s, h, t);
    EarlierStay(s, h, o, t);
    forall u | 0 <= u < |s'.pcs| ensures ThreadOk(s', h', o, u) { assert ThreadOk(s, h, o, u); }
    forall j | o.first <= j < |h'.log| ensures Settled(h'.log, j, o) || Unjudged(s', h', j) {
      if j < |h.log| { JudgedStay(s, h, o, t, j); } else { assert s'.pcs[t].Recheck? && h'.slot[t] == j; }
    }
  }

  lemma OtherOverlaps<T>(s: State<T>, h: History, o: Origin, t: nat, a: Action<T>)
    requires Overlaps(s, h, o) && Enabled(s, t, a) && !a.Go? && |Step(s, t, a).items| == |s.items|
    ensures Overlaps(Step(s, t, a), h, o)
  {
    var s' := Step(s, t, a);
    var h1 := StepKeepsInv(s, h, t, a);
    forall u | 0 <= u < |s'.pcs| ensures ThreadOk(s', h, o, u) { assert ThreadOk(s, h, o, u); }
    forall j | o.first <= j < |h.log| && Unjudged(s, h, j) ensures Unjudged(s', h, j) {
      var u: nat :| u < |s.pcs| && u < |h.slot| && s.pcs[u].Recheck? && h.slot[u] == j;
      assert s'.pcs[u].Recheck?;
    }
  }

  lemma StepOverlaps<T(!new)>(s: State<T>, h: History, o: Origin, s': State<T>) returns (h': History)
    requires Overlaps(s, h, o) && Next(s, s') && s'.items == s.items && (NothingBack(s, o) || s'.count == s.count)
    ensures Overlaps(s', h', o)
    ensures NothingBack(s, o) && s'.over == s.over ==> NothingBack(s', o)
  {
    var t: nat, a: Action<T> :| Enabled(s, t, a) && s' == Step(s, t, a);
    h' := NextHistory(s, h, t, a);
    if a.Go? { GoOverlaps(s, h, o, t); } else { OtherOverlaps(s, h, o, t, a); }
  }

  /** All shares together: what was asked for, or all there was. */
  lemma {:induction false} SharesAdd(log: seq<Attempt>, k: nat, o: Origin)
    requires o.first <= k <= |log| && o.head <= o.tail && forall j :: o.first <= j < |log| ==> Settled(log, j, o)
    requires Sum(Desired, log[..o.first]) == o.head + o.over && Sum(Succ, log[..o.first]) == o.head
    ensures Sum(Desired, log[..k]) >= o.head + o.over
    ensures Sum(Succ, log[..k]) == o.head + Min(o.tail - o.head, Sum(Desired, log[..k]) - (o.head + o.over))
    decreases k
  {
    if k > o.first {
      SharesAdd(log, k - 1, o);
      assert Settled(log, k - 1, o);
      assert log[..k][..k - 1] == log[..k - 1];
    }
  }

  lemma QuietOverlaps<T>(s: State<T>, h: History, o: Origin)
    requires Overlaps(s, h, o) && Quiet(s) && o.head <= o.tail
    ensures s.head == o.head + Min(o.tail - o.head, s.count - (o.head + o.over))
  {
    SumZero(Judged, s.pcs);
    assert h.log[..|h.log|] == h.log;
    SharesAdd(h.log, |h.log|, o);
  }

  /** From step a on to step k, dequeues overlap: nothing is enqueued, and nothing given back before step m, after which
      nothing is reserved. */
  ghost predicate OverlapUpTo<T>(run: seq<State<T>>, a: nat, m: nat, k: nat) {
    && a <= m && a <= k < |run|
    && (forall i :: a <= i <= k ==> run[i].items == run[a].items)
    && (forall i :: a <= i <= k && i <= m ==> run[i].over == run[a].over)
    && (forall i :: m <= i <= k ==> run[i].count == run[m].count)
  }

  lemma {:induction false} RunOverlaps<T(!new)>(run: seq<State<T>>, a: nat, m: nat, k: nat, ha: History, o: Origin)
    returns (h: History)
    requires IsRun(run) && OverlapUpTo(run, a, m, k) && m < |run| && Overlaps(run[a], ha, o) && NothingBack(run[a], o)
    ensures Overlaps(run[k], h, o) && (k <= m ==> NothingBack(run[k], o))
    decreases k
  {
    if k == a {
      h := ha;
    } else {
      var before := RunOverlaps(run, a, m, k - 1, ha, o);
      assert Next(run[k - 1], run[k - 1 + 1]);
      h := StepOverlaps(run[k - 1], before, o, run[k]);
    }
  }

  /** Dequeues that begin on a quiet sub-queue and overlap take, together, as much as they reserved or all there is. */
  lemma OverlappingDequeues<T(!new)>(run: seq<State<T>>, a: nat, m: nat, b: nat)
    requires IsRun(run) && OverlapUpTo(run, a, m, b) && m <= b && Quiet(run[a]) && Quiet(run[b])
    ensures run[b].head - run[a].head == Min(|run[a].items| - run[a].head, run[m].count - run[a].count)
  {
    var ha := RunKeepsInv(run, a);
    RunsAreSafe(run);
    assert Safe(run[a]);
    SumZero(InFlight, run[a].pcs);
    SumZero(Judged, run[a].pcs);
    var o := StartOverlaps(run[a], ha);
    var hb := RunOverlaps(run, a, m, b, ha, o);
    QuietOverlaps(run[b], hb, o);
  }
}
