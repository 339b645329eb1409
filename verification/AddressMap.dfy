/** Virtual and physical simulator addresses: bit fields, translation, and making an address global. */
module AddressMap {
  import opened Options
  import opened PowersOfTwo

  // ---------------------------------------------------------------- words

  /** A 64-bit word, least significant bit first. */
  type Word = w: seq<bool> | |w| == 64 witness Zero()

  function Zero(): (z: seq<bool>)
    ensures |z| == 64 && forall i :: 0 <= i < 64 ==> !z[i]
  {
    seq(64, i => false)
  }

  function And(a: Word, b: Word): (r: Word) { seq(64, i requires 0 <= i < 64 => a[i] && b[i]) }

  function Or(a: Word, b: Word): (r: Word) { seq(64, i requires 0 <= i < 64 => a[i] || b[i]) }

  function Not(a: Word): (r: Word) { seq(64, i requires 0 <= i < 64 => !a[i]) }

  function ShiftLeft(a: Word, n: nat): (r: Word) { seq(64, i requires 0 <= i < 64 => i >= n && a[i - n]) }

  function ShiftRight(a: Word, n: nat): (r: Word) { seq(64, i requires 0 <= i < 64 => i + n < 64 && a[i + n]) }

  // ---------------------------------------------------------------- bit fields

  /** bitrange_handle: bits hi down to lo of a word. */
  datatype Bits = Bits(hi: nat, lo: nat)
  type Field = b: Bits | b.lo <= b.hi < 64 witness Bits(0, 0)

  function Mask(f: Field): (m: Word) { seq(64, i => f.lo <= i <= f.hi) }

  /** getbits. */
  function Get(f: Field, a: Word): (v: Word)
    ensures forall i :: 0 <= i < 64 ==> v[i] == (i <= f.hi - f.lo && a[f.lo + i])
  {
    ShiftRight(And(a, Mask(f)), f.lo)
  }

  /** setbits. */
  function Set(f: Field, a: Word, v: Word): (r: Word)
    ensures forall i :: 0 <= i < 64 ==> r[i] == if f.lo <= i <= f.hi then v[i - f.lo] else a[i]
  {
    Or(And(a, Not(Mask(f))), And(Mask(f), ShiftLeft(v, f.lo)))
  }

  /** The low bits of a word that a field has room for. */
  function Trim(f: Field, v: Word): (t: Word) { seq(64, i requires 0 <= i < 64 => i <= f.hi - f.lo && v[i]) }

  ghost predicate Apart(f: Field, g: Field) { f.hi < g.lo || g.hi < f.lo }

  lemma GetSet(f: Field, a: Word, v: Word)
    ensures Get(f, Set(f, a, v)) == Trim(f, v)
  {
  }

  lemma GetOther(f: Field, g: Field, a: Word, v: Word)
    requires Apart(f, g)
    ensures Get(g, Set(f, a, v)) == Get(g, a)
  {
  }

  lemma SetTrimmed(f: Field, a: Word, v: Word, t: Word)
    requires Trim(f, v) == Trim(f, t)
    ensures Set(f, a, v) == Set(f, a, t)
  {
    forall i | 0 <= i <= f.hi - f.lo ensures v[i] == t[i] { assert Trim(f, v)[i] == Trim(f, t)[i]; }
  }

  lemma TrimTwice(f: Field, v: Word)
    ensures Trim(f, Trim(f, v)) == Trim(f, v)
  {
  }

  lemma GetIsTrimmed(f: Field, g: Field, a: Word)
    requires g.hi - g.lo == f.hi - f.lo
    ensures Trim(g, Get(f, a)) == Get(f, a)
  {
  }

  const CtrlRegister: Field := Bits(63, 63)
  const NotScratchpad: Field := Bits(47, 47)
  const Pxn: Field := Bits(46, 33)
  const Global: Field := Bits(32, 32)
  const Pod: Field := Bits(31, 26)
  const L2NotL1: Field := Bits(25, 25)
  const CoreY: Field := Bits(22, 20)
  const CoreX: Field := Bits(19, 17)
  const L1Offset: Field := Bits(16, 0)
  const L2Offset: Field := Bits(24, 0)
  const DramOffsetHi10: Field := Bits(57, 48)
  const DramOffsetLo33: Field := Bits(32, 0)

  const PType: Field := Bits(63, 58)
  const PPxn: Field := Bits(57, 44)
  const PPod: Field := Bits(39, 34)
  const PCoreY: Field := Bits(30, 28)
  const PCoreX: Field := Bits(24, 22)
  const PL1Offset: Field := Bits(16, 0)
  const PL2Offset: Field := Bits(24, 0)
  const PDramOffset: Field := Bits(43, 0)

  /** The word with the single bit k set. */
  function Bit(k: nat): (w: Word) { seq(64, i => i == k) }

  function TYPE_L1SP(): (t: Word) { Zero() }
  function TYPE_L2SP(): (t: Word) { Bit(0) }
  function TYPE_DRAM(): (t: Word) { Bit(2) }
  function TYPE_CTRL(): (t: Word) { Bit(3) }

  // ---------------------------------------------------------------- translation

  /** A place in the machine; fields take the low bits of each number. */
  datatype Place = Place(pxn: Word, pod: Word, coreY: Word, coreX: Word)

  predicate IsCtrl(a: Word) { Get(CtrlRegister, a) != Zero() }
  predicate IsDram(a: Word) { !IsCtrl(a) && Get(NotScratchpad, a) != Zero() }
  predicate IsL2(a: Word) { !IsCtrl(a) && !IsDram(a) && Get(L2NotL1, a) != Zero() }
  predicate IsL1(a: Word) { !IsCtrl(a) && !IsDram(a) && Get(L2NotL1, a) == Zero() }
  predicate IsGlobal(a: Word) { Get(Global, a) != Zero() }
  function DramOffset(a: Word): (o: Word) { Or(ShiftLeft(Get(DramOffsetHi10, a), 33), Get(DramOffsetLo33, a)) }

  lemma OneBit(f: Field, a: Word)
    requires f.hi == f.lo
    ensures Get(f, a) != Zero() <==> a[f.lo]
  {
    assert Get(f, a)[0] == a[f.lo];
  }

  function DramAddress(pxn: Word, offset: Word): (p: Word) {
    Set(PDramOffset, Set(PPxn, Set(PType, Zero(), TYPE_DRAM()), pxn), offset)
  }

  function AtPod(t: Word, pxn: Word, pod: Word): (p: Word) { Set(PPod, Set(PPxn, Set(PType, Zero(), t), pxn), pod) }

  function AtCore(t: Word, at: Place): (p: Word) { Set(PCoreX, Set(PCoreY, AtPod(t, at.pxn, at.pod), at.coreY), at.coreX) }

  /** The place an address refers to, seen from here. */
  function Resolved(a: Word, here: Place): (p: Place) {
    if IsGlobal(a) then Place(Get(Pxn, a), Get(Pod, a), Get(CoreY, a), Get(CoreX, a)) else here
  }

  /** DrvAPIVAddress::to_physical. */
  function ToPhysical(a: Word, here: Place): (p: Word) {
    if IsCtrl(a) then AtCore(TYPE_CTRL(), Place(Get(Pxn, a), Get(Pod, a), Get(CoreY, a), Get(CoreX, a)))
    else if Get(NotScratchpad, a) != Zero() then DramAddress(Get(Pxn, a), DramOffset(a))
    else if Get(L2NotL1, a) != Zero() then
      Set(PL2Offset, AtPod(TYPE_L2SP(), Resolved(a, here).pxn, Resolved(a, here).pod), Get(L2Offset, a))
    else Set(PL1Offset, AtCore(TYPE_L1SP(), Resolved(a, here)), Get(L1Offset, a))
  }

  function PlacedL2(a: Word, there: Place): (g: Word) { Set(Global, Set(Pod, Set(Pxn, a, there.pxn), there.pod), Bit(0)) }

  function PlacedL1(a: Word, there: Place): (g: Word) {
    Set(CoreX, Set(CoreY, PlacedL2(a, there), there.coreY), there.coreX)
  }

  /** toGlobalAddress; None is the exception for an unknown address type. */
  function ToGlobal(a: Word, there: Place): (g: Option<Word>) {
    if Get(NotScratchpad, a) != Zero() || IsGlobal(a) then Some(a)
    else if IsL2(a) then Some(PlacedL2(a, there))
    else if IsL1(a) then Some(PlacedL1(a, there))
    else None
  }

  /** The exception is for control registers whose global bit and not-scratchpad bit are both clear. */
  lemma ToGlobalRaises(a: Word, there: Place)
    ensures ToGlobal(a, there).None? <==> IsCtrl(a) && Get(NotScratchpad, a) == Zero() && !IsGlobal(a)
  {
  }

  // ---------------------------------------------------------------- bit by bit

  /** A bit of the place: of the address if that is global, of the observer's number otherwise. */
  function PlaceBit(a: Word, at: nat, here: Word, j: nat): bool
    requires at + j < 64 && j < 64
  {
    if a[32] then a[at + j] else here[j]
  }

  /** Where each bit of the physical address comes from. */
  function PhysicalBit(a: Word, here: Place, k: nat): bool
    requires k < 64
  {
    if a[63] then // a control register
      if 22 <= k < 25 then a[17 + (k - 22)]
      else if 28 <= k < 31 then a[20 + (k - 28)]
      else if 34 <= k < 40 then a[26 + (k - 34)]
      else if 44 <= k < 58 then a[33 + (k - 44)]
      else k == 61
    else if a[47] then // main memory
      if k < 33 then a[k]
      else if k < 43 then a[48 + (k - 33)]
      else if 44 <= k < 58 then a[33 + (k - 44)]
      else k == 60
    else if 34 <= k < 40 then PlaceBit(a, 26, here.pod, k - 34)
    else if 44 <= k < 58 then PlaceBit(a, 33, here.pxn, k - 44)
    else if a[25] then (if k < 25 then a[k] else k == 58) // L2 scratchpad
    else if 22 <= k < 25 then PlaceBit(a, 17, here.coreX, k - 22) // L1 scratchpad
    else if 28 <= k < 31 then PlaceBit(a, 20, here.coreY, k - 28)
    else k < 17 && a[k]
  }

  lemma PhysicalBits(a: Word, here: Place, k: nat)
    requires k < 64
    ensures ToPhysical(a, here)[k] == PhysicalBit(a, here, k)
  {
    OneBit(CtrlRegister, a);
    OneBit(NotScratchpad, a);
    OneBit(L2NotL1, a);
    OneBit(Global, a);
  }

  /** Where each bit of a local scratchpad address made global comes from. */
  function GlobalBit(a: Word, there: Place, k: nat): bool
    requires k < 64
  {
    if 26 <= k < 32 then there.pod[k - 26]
    else if k == 32 then true
    else if 33 <= k < 47 then there.pxn[k - 33]
    else if !a[25] && 17 <= k < 20 then there.coreX[k - 17]
    else if !a[25] && 20 <= k < 23 then there.coreY[k - 20]
    else a[k]
  }

  lemma GlobalBits(a: Word, there: Place, k: nat)
    requires k < 64 && !a[63] && !a[47] && !a[32]
    ensures ToGlobal(a, there).Some? && ToGlobal(a, there).value[k] == GlobalBit(a, there, k)
  {
    OneBit(CtrlRegister, a);
    OneBit(NotScratchpad, a);
    OneBit(L2NotL1, a);
    OneBit(Global, a);
  }

  // ---------------------------------------------------------------- making an address global

  /** A place's numbers, cut down to their fields. */
  function Trimmed(p: Place): (t: Place) { Place(Trim(Pxn, p.pxn), Trim(Pod, p.pod), Trim(CoreY, p.coreY), Trim(CoreX, p.coreX)) }

  lemma PlacedL2Fields(a: Word, there: Place, f: Field)
    ensures var g := PlacedL2(a, there);
      Get(Pxn, g) == Trim(Pxn, there.pxn) && Get(Pod, g) == Trim(Pod, there.pod) && IsGlobal(g) &&
      (Apart(f, Pxn) && Apart(f, Pod) && Apart(f, Global) ==> Get(f, g) == Get(f, a))
  {
    var x := Set(Pxn, a, there.pxn);
    var y := Set(Pod, x, there.pod);
    GetSet(Pxn, a, there.pxn);
    GetOther(Pod, Pxn, x, there.pod);
    GetOther(Global, Pxn, y, Bit(0));
    GetSet(Pod, x, there.pod);
    GetOther(Global, Pod, y, Bit(0));
    OneBit(Global, PlacedL2(a, there));
    if Apart(f, Pxn) && Apart(f, Pod) && Apart(f, Global) {
      GetOther(Pxn, f, a, there.pxn);
      GetOther(Pod, f, x, there.pod);
      GetOther(Global, f, y, Bit(0));
    }
  }

  lemma PlacedL1Fields(a: Word, there: Place, f: Field)
    ensures var g := PlacedL1(a, there);
      IsGlobal(g) && Resolved(g, there) == Trimmed(there) &&
      (Apart(f, Pxn) && Apart(f, Pod) && Apart(f, Global) && Apart(f, CoreY) && Apart(f, CoreX) ==> Get(f, g) == Get(f, a))
  {
    var x := PlacedL2(a, there);
    var y := Set(CoreY, x, there.coreY);
    PlacedL2Fields(a, there, f);
    CoreFields(x, there.coreY, there.coreX, Pxn);
    CoreFields(x, there.coreY, there.coreX, Pod);
    CoreFields(x, there.coreY, there.coreX, Global);
    if Apart(f, CoreY) && Apart(f, CoreX) { CoreFields(x, there.coreY, there.coreX, f); }
    GetSet(CoreY, x, there.coreY);
    GetOther(CoreX, CoreY, y, there.coreX);
    GetSet(CoreX, y, there.coreX);
  }

  lemma CoreFields(a: Word, y: Word, x: Word, f: Field)
    requires Apart(f, CoreY) && Apart(f, CoreX)
    ensures Get(f, Set(CoreX, Set(CoreY, a, y), x)) == Get(f, a)
  {
    GetOther(CoreY, f, a, y);
    GetOther(CoreX, f, Set(CoreY, a, y), x);
  }

  lemma SameWidth(f: Field, g: Field, v: Word)
    requires g.hi - g.lo == f.hi - f.lo
    ensures Trim(f, v) == Trim(g, v)
  {
  }

  lemma AtPodTrimmed(t: Word, pxn: Word, pod: Word)
    ensures AtPod(t, Trim(Pxn, pxn), Trim(Pod, pod)) == AtPod(t, pxn, pod)
  {
    SameWidth(Pxn, PPxn, pxn);
    SameWidth(Pod, PPod, pod);
    TrimTwice(PPxn, pxn);
    TrimTwice(PPod, pod);
    SetTrimmed(PPxn, Set(PType, Zero(), t), pxn, Trim(Pxn, pxn));
    SetTrimmed(PPod, Set(PPxn, Set(PType, Zero(), t), pxn), pod, Trim(Pod, pod));
  }

  lemma AtCoreTrimmed(t: Word, at: Place)
    ensures AtCore(t, Trimmed(at)) == AtCore(t, at)
  {
    AtPodTrimmed(t, at.pxn, at.pod);
    SameWidth(CoreY, PCoreY, at.coreY);
    SameWidth(CoreX, PCoreX, at.coreX);
    TrimTwice(PCoreY, at.coreY);
    TrimTwice(PCoreX, at.coreX);
    var r := AtPod(t, at.pxn, at.pod);
    SetTrimmed(PCoreY, r, at.coreY, Trim(CoreY, at.coreY));
    SetTrimmed(PCoreX, Set(PCoreY, r, at.coreY), at.coreX, Trim(CoreX, at.coreX));
  }

  lemma GlobalL2(a: Word, there: Place, observer: Place)
    requires IsL2(a) && !IsGlobal(a)
    ensures ToPhysical(PlacedL2(a, there), observer) == ToPhysical(a, there)
  {
    PlacedL2Fields(a, there, CtrlRegister);
    PlacedL2Fields(a, there, NotScratchpad);
    PlacedL2Fields(a, there, L2NotL1);
    PlacedL2Fields(a, there, L2Offset);
    AtPodTrimmed(TYPE_L2SP(), there.pxn, there.pod);
  }

  lemma GlobalL1(a: Word, there: Place, observer: Place)
    requires IsL1(a) && !IsGlobal(a)
    ensures ToPhysical(PlacedL1(a, there), observer) == ToPhysical(a, there)
  {
    PlacedL1Fields(a, there, CtrlRegister);
    PlacedL1Fields(a, there, NotScratchpad);
    PlacedL1Fields(a, there, L2NotL1);
    PlacedL1Fields(a, there, L1Offset);
    AtCoreTrimmed(TYPE_L1SP(), there);
  }

  /** Making an address global at a place, and translating it anywhere, is translating it at that place. */
  lemma GlobalThenPhysical(a: Word, there: Place, observer: Place)
    requires !IsCtrl(a)
    ensures ToGlobal(a, there).Some? && ToPhysical(ToGlobal(a, there).value, observer) == ToPhysical(a, there)
  {
    if IsL2(a) && !IsGlobal(a) { GlobalL2(a, there, observer); }
    if IsL1(a) && !IsGlobal(a) { GlobalL1(a, there, observer); }
  }

  /** Making an address global twice is making it global once, at the first place. */
  lemma GlobalOnce(a: Word, there: Place, elsewhere: Place)
    requires ToGlobal(a, there).Some?
    ensures ToGlobal(ToGlobal(a, there).value, elsewhere) == ToGlobal(a, there)
  {
    PlacedL2Fields(a, there, L2NotL1);
    PlacedL1Fields(a, there, L2NotL1);
  }

  // ---------------------------------------------------------------- what a physical address tells

  /** What a virtual address stands for. */
  datatype Target = Dram(pxn: Word, offset: Word) | L2(pxn: Word, pod: Word, offset: Word) | L1(place: Place, offset: Word)

  function TargetOf(a: Word, here: Place): (t: Target)
    requires !IsCtrl(a)
  {
    if Get(NotScratchpad, a) != Zero() then Dram(Get(Pxn, a), DramOffset(a))
    else if Get(L2NotL1, a) != Zero() then
      L2(Trim(Pxn, Resolved(a, here).pxn), Trim(Pod, Resolved(a, here).pod), Get(L2Offset, a))
    else L1(Trimmed(Resolved(a, here)), Get(L1Offset, a))
  }

  /** Writes a physical address, and reads one back. */
  function Encode(t: Target): (p: Word) {
    match t
    case Dram(pxn, offset) => DramAddress(pxn, offset)
    case L2(pxn, pod, offset) => Set(PL2Offset, AtPod(TYPE_L2SP(), pxn, pod), offset)
    case L1(at, offset) => Set(PL1Offset, AtCore(TYPE_L1SP(), at), offset)
  }

  function Decode(p: Word): (t: Target) {
    if Get(PType, p) == TYPE_DRAM() then Dram(Get(PPxn, p), Get(PDramOffset, p))
    else if Get(PType, p) == TYPE_L2SP() then L2(Get(PPxn, p), Get(PPod, p), Get(PL2Offset, p))
    else L1(Place(Get(PPxn, p), Get(PPod, p), Get(PCoreY, p), Get(PCoreX, p)), Get(PL1Offset, p))
  }

  lemma EncodePhysical(a: Word, here: Place)
    requires !IsCtrl(a)
    ensures ToPhysical(a, here) == Encode(TargetOf(a, here))
  {
    AtPodTrimmed(TYPE_L2SP(), Resolved(a, here).pxn, Resolved(a, here).pod);
    AtCoreTrimmed(TYPE_L1SP(), Resolved(a, here));
  }

  /** What all numbers of a target look like. */
  ghost predicate Fits(t: Target) {
    match t
    case Dram(pxn, offset) => Trim(PPxn, pxn) == pxn && Trim(PDramOffset, offset) == offset
    case L2(pxn, pod, offset) => Trim(PPxn, pxn) == pxn && Trim(PPod, pod) == pod && Trim(PL2Offset, offset) == offset
    case L1(at, offset) =>
      Trim(PPxn, at.pxn) == at.pxn && Trim(PPod, at.pod) == at.pod && Trim(PCoreY, at.coreY) == at.coreY &&
      Trim(PCoreX, at.coreX) == at.coreX && Trim(PL1Offset, offset) == offset
  }

  lemma TargetFits(a: Word, here: Place)
    requires !IsCtrl(a)
    ensures Fits(TargetOf(a, here))
  {
    var at := Resolved(a, here);
    GetIsTrimmed(Pxn, PPxn, a);
    GetIsTrimmed(L1Offset, PL1Offset, a);
    GetIsTrimmed(L2Offset, PL2Offset, a);
    assert Trim(PDramOffset, DramOffset(a)) == DramOffset(a);
    SameWidth(Pxn, PPxn, Trim(Pxn, at.pxn));
    SameWidth(Pod, PPod, Trim(Pod, at.pod));
    SameWidth(CoreY, PCoreY, Trim(CoreY, at.coreY));
    SameWidth(CoreX, PCoreX, Trim(CoreX, at.coreX));
    TrimTwice(Pxn, at.pxn);
    TrimTwice(Pod, at.pod);
    TrimTwice(CoreY, at.coreY);
    TrimTwice(CoreX, at.coreX);
  }

  lemma TypePxn(t: Word, pxn: Word)
    ensures Get(PType, Set(PPxn, Set(PType, Zero(), t), pxn)) == Trim(PType, t)
    ensures Get(PPxn, Set(PPxn, Set(PType, Zero(), t), pxn)) == Trim(PPxn, pxn)
  {
    GetSet(PType, Zero(), t);
    GetOther(PPxn, PType, Set(PType, Zero(), t), pxn);
    GetSet(PPxn, Set(PType, Zero(), t), pxn);
  }

  lemma TypePod(t: Word, pxn: Word, pod: Word)
    ensures Get(PType, AtPod(t, pxn, pod)) == Trim(PType, t) && Get(PPxn, AtPod(t, pxn, pod)) == Trim(PPxn, pxn)
    ensures Get(PPod, AtPod(t, pxn, pod)) == Trim(PPod, pod)
  {
    var r := Set(PPxn, Set(PType, Zero(), t), pxn);
    TypePxn(t, pxn);
    GetOther(PPod, PType, r, pod);
    GetOther(PPod, PPxn, r, pod);
    GetSet(PPod, r, pod);
  }

  lemma TypeCore(t: Word, at: Place, f: Field)
    requires f in {PType, PPxn, PPod}
    ensures Get(f, AtCore(t, at)) == Get(f, AtPod(t, at.pxn, at.pod))
    ensures Get(PCoreY, AtCore(t, at)) == Trim(PCoreY, at.coreY) && Get(PCoreX, AtCore(t, at)) == Trim(PCoreX, at.coreX)
  {
    var r := AtPod(t, at.pxn, at.pod);
    var y := Set(PCoreY, r, at.coreY);
    GetOther(PCoreY, f, r, at.coreY);
    GetOther(PCoreX, f, y, at.coreX);
    GetSet(PCoreY, r, at.coreY);
    GetOther(PCoreX, PCoreY, y, at.coreX);
    GetSet(PCoreX, y, at.coreX);
  }

  lemma Types()
    ensures Trim(PType, TYPE_DRAM()) == TYPE_DRAM() && Trim(PType, TYPE_L2SP()) == TYPE_L2SP()
    ensures Trim(PType, TYPE_L1SP()) == TYPE_L1SP()
    ensures TYPE_L1SP() != TYPE_DRAM() && TYPE_DRAM() != TYPE_L2SP() && TYPE_L2SP() != TYPE_L1SP()
  {
    assert TYPE_DRAM()[2] && !TYPE_L2SP()[2] && TYPE_L2SP()[0] && !TYPE_L1SP()[0] && !TYPE_L1SP()[2];
  }

  /** A physical address of scratchpad or main memory tells what it stands for. */
  lemma DecodeEncode(t: Target)
    requires Fits(t)
    ensures Decode(Encode(t)) == t
  {
    Types();
    match t {
      case Dram(pxn, offset) =>
        var r := Set(PPxn, Set(PType, Zero(), TYPE_DRAM()), pxn);
        TypePxn(TYPE_DRAM(), pxn);
        GetOther(PDramOffset, PType, r, offset);
        GetOther(PDramOffset, PPxn, r, offset);
        GetSet(PDramOffset, r, offset);
      case L2(pxn, pod, offset) =>
        var r := AtPod(TYPE_L2SP(), pxn, pod);
        TypePod(TYPE_L2SP(), pxn, pod);
        GetOther(PL2Offset, PType, r, offset);
        GetOther(PL2Offset, PPxn, r, offset);
        GetOther(PL2Offset, PPod, r, offset);
        GetSet(PL2Offset, r, offset);
      case L1(at, offset) =>
        DecodeL1(at, offset);
    }
  }

  lemma DecodeL1(at: Place, offset: Word)
    requires Fits(L1(at, offset))
    ensures Decode(Encode(L1(at, offset))) == L1(at, offset)
  {
    var r := AtCore(TYPE_L1SP(), at);
    Types();
    TypePod(TYPE_L1SP(), at.pxn, at.pod);
    TypeCore(TYPE_L1SP(), at, PType);
    TypeCore(TYPE_L1SP(), at, PPxn);
    TypeCore(TYPE_L1SP(), at, PPod);
    GetOther(PL1Offset, PType, r, offset);
    GetOther(PL1Offset, PPxn, r, offset);
    GetOther(PL1Offset, PPod, r, offset);
    GetOther(PL1Offset, PCoreY, r, offset);
    GetOther(PL1Offset, PCoreX, r, offset);
    GetSet(PL1Offset, r, offset);
  }

  /** Two addresses share a physical address exactly when kind, place and offset agree. */
  lemma SamePhysical(a: Word, here: Place, b: Word, there: Place)
    requires !IsCtrl(a) && !IsCtrl(b)
    ensures ToPhysical(a, here) == ToPhysical(b, there) <==> TargetOf(a, here) == TargetOf(b, there)
  {
    EncodePhysical(a, here);
    EncodePhysical(b, there);
    TargetFits(a, here);
    TargetFits(b, there);
    DecodeEncode(TargetOf(a, here));
    DecodeEncode(TargetOf(b, there));
  }

  // ---------------------------------------------------------------- pointer arithmetic

  function Number(w: seq<bool>): (n: nat) { if w == [] then 0 else (if w[0] then 1 else 0) + 2 * Number(w[1..]) }

  function ToBits(n: nat, len: nat): (w: seq<bool>)
    ensures |w| == len
  {
    if len == 0 then [] else [n % 2 == 1] + ToBits(n / 2, len - 1)
  }

  /** a + k on 64-bit words. */
  function Plus(a: Word, k: nat): (s: Word) { ToBits(Number(a) + k, 64) }

  lemma {:induction false} BitsOfNumber(w: seq<bool>, n: nat, len: nat)
    requires |w| == len && n == Number(w)
    ensures ToBits(n, len) == w
    decreases len
  {
    if len > 0 { BitsOfNumber(w[1..], n / 2, len - 1); }
  }

  lemma {:induction false} NumberOfBits(n: nat, len: nat)
    requires n < Pow2(len)
    ensures Number(ToBits(n, len)) == n
    decreases len
  {
    if len > 0 { NumberOfBits(n / 2, len - 1); }
  }

  /** The high bits are worth the same whatever the low bits are. */
  lemma {:induction false} SameHigh(low: seq<bool>, low': seq<bool>, high: seq<bool>)
    requires |low| == |low'|
    ensures Number(low + high) - Number(low) == Number(low' + high) - Number(low')
    decreases |low|
  {
    if low == [] {
      assert low + high == low' + high;
    } else {
      SameHigh(low[1..], low'[1..], high);
      assert (low + high)[1..] == low[1..] + high && (low' + high)[1..] == low'[1..] + high;
    }
  }

  /** Adding without a carry out of the low bits. */
  lemma PlusLow(a: Word, k: nat, n: nat)
    requires n <= 64 && Number(a[..n]) + k < Pow2(n)
    ensures Plus(a, k) == ToBits(Number(a[..n]) + k, n) + a[n..]
  {
    var low, high := ToBits(Number(a[..n]) + k, n), a[n..];
    assert a == a[..n] + high;
    SameHigh(a[..n], low, high);
    NumberOfBits(Number(a[..n]) + k, n);
    BitsOfNumber(low + high, Number(a) + k, 64);
  }

  /** The bits that pointer arithmetic may change. */
  function OffsetBits(a: Word): (n: nat)
    ensures n <= 64
  {
    if Get(NotScratchpad, a) != Zero() then 33 else if Get(L2NotL1, a) != Zero() then 25 else 17
  }

  predicate StaysInside(a: Word, k: nat) { Number(a[..OffsetBits(a)]) + k < Pow2(OffsetBits(a)) }

  lemma GetAbove(f: Field, a: Word, b: Word, n: nat)
    requires n <= f.lo && a[n..] == b[n..]
    ensures Get(f, a) == Get(f, b)
  {
    forall i | f.lo <= i <= f.hi ensures a[i] == b[i] { assert a[n..][i - n] == b[n..][i - n]; }
  }

  /** Writing the low bits of a word. */
  lemma SetLow(f: Field, r: Word, v: Word, n: nat)
    requires f.lo == 0 && n <= f.hi + 1
    ensures Set(f, r, v)[..n] == v[..n]
  {
  }

  lemma SetAbove(f: Field, r: Word, v: Word, v': Word, n: nat)
    requires f.lo == 0 && n <= f.hi + 1 && v[n..] == v'[n..]
    ensures Set(f, r, v)[n..] == Set(f, r, v')[n..]
  {
    forall i | n <= i < 64 ensures v[i] == v'[i] { assert v[n..][i - n] == v'[n..][i - n]; }
  }

  lemma GetLow(f: Field, a: Word)
    requires f.lo == 0
    ensures Get(f, a)[..f.hi + 1] == a[..f.hi + 1] && Get(f, a)[f.hi + 1..] == Zero()[f.hi + 1..]
  {
  }

  /** If the low n bits of two physical addresses are those of a and of a + k, and the rest agrees, then
      they differ by k too. */
  lemma SumCarriesOver(a: Word, k: nat, p: Word, p': Word, n: nat)
    requires n <= 64 && Number(a[..n]) + k < Pow2(n)
    requires p[..n] == a[..n] && p'[..n] == Plus(a, k)[..n] && p'[n..] == p[n..]
    ensures p' == Plus(p, k)
  {
    PlusLow(a, k, n);
    PlusLow(p, k, n);
    assert p' == p'[..n] + p'[n..];
  }

  lemma AddL1(a: Word, k: nat, here: Place)
    requires IsL1(a) && StaysInside(a, k)
    ensures var b := Plus(a, k); IsL1(b) && ToPhysical(b, here) == Plus(ToPhysical(a, here), k)
  {
    var b, r := Plus(a, k), AtCore(TYPE_L1SP(), Resolved(a, here));
    PlusLow(a, k, 17);
    SameAbove(a, b, 17);
    GetAbove(L2NotL1, a, b, 17);
    GetAbove(Global, a, b, 17);
    GetAbove(Pod, a, b, 17);
    GetAbove(CoreY, a, b, 17);
    GetAbove(CoreX, a, b, 17);
    AddPhysical(PL1Offset, r, L1Offset, a, k, 17);
  }

  lemma AddL2(a: Word, k: nat, here: Place)
    requires IsL2(a) && StaysInside(a, k)
    ensures var b := Plus(a, k); IsL2(b) && ToPhysical(b, here) == Plus(ToPhysical(a, here), k)
  {
    var b, r := Plus(a, k), AtPod(TYPE_L2SP(), Resolved(a, here).pxn, Resolved(a, here).pod);
    PlusLow(a, k, 25);
    SameAbove(a, b, 25);
    GetAbove(L2NotL1, a, b, 25);
    GetAbove(Global, a, b, 25);
    GetAbove(Pod, a, b, 25);
    AddPhysical(PL2Offset, r, L2Offset, a, k, 25);
  }

  /** The fields above every offset. */
  lemma SameAbove(a: Word, b: Word, n: nat)
    requires n <= 33 && a[n..] == b[n..]
    ensures Get(CtrlRegister, b) == Get(CtrlRegister, a) && Get(NotScratchpad, b) == Get(NotScratchpad, a)
    ensures Get(Pxn, b) == Get(Pxn, a) && Get(DramOffsetHi10, b) == Get(DramOffsetHi10, a)
  {
    GetAbove(CtrlRegister, a, b, n);
    GetAbove(NotScratchpad, a, b, n);
    GetAbove(Pxn, a, b, n);
    GetAbove(DramOffsetHi10, a, b, n);
  }

  /** A scratchpad offset field: the physical field is as wide as the virtual one. */
  lemma AddPhysical(pf: Field, r: Word, vf: Field, a: Word, k: nat, n: nat)
    requires pf.lo == vf.lo == 0 && pf.hi == vf.hi == n - 1 && Number(a[..n]) + k < Pow2(n)
    ensures Set(pf, r, Get(vf, Plus(a, k))) == Plus(Set(pf, r, Get(vf, a)), k)
  {
    var b := Plus(a, k);
    var p, p' := Set(pf, r, Get(vf, a)), Set(pf, r, Get(vf, b));
    GetLow(vf, a);
    GetLow(vf, b);
    SetLow(pf, r, Get(vf, a), n);
    SetLow(pf, r, Get(vf, b), n);
    SetAbove(pf, r, Get(vf, a), Get(vf, b), n);
    SumCarriesOver(a, k, p, p', n);
  }

  lemma DramParts(a: Word)
    ensures DramOffset(a)[..33] == a[..33] && DramOffset(a)[33..43] == a[48..58]
    ensures DramOffset(a)[43..] == Zero()[43..]
  {
  }

  lemma AddDram(a: Word, k: nat, here: Place)
    requires IsDram(a) && StaysInside(a, k)
    ensures var b := Plus(a, k); IsDram(b) && ToPhysical(b, here) == Plus(ToPhysical(a, here), k)
  {
    var b, r := Plus(a, k), Set(PPxn, Set(PType, Zero(), TYPE_DRAM()), Get(Pxn, a));
    PlusLow(a, k, 33);
    SameAbove(a, b, 33);
    DramParts(a);
    DramParts(b);
    var o, o' := DramOffset(a), DramOffset(b);
    assert o[33..] == o[33..43] + o[43..] && o'[33..] == o'[33..43] + o'[43..];
    forall i | 48 <= i < 58 ensures b[i] == a[i] { assert b[33..][i - 33] == a[33..][i - 33]; }
    SetLow(PDramOffset, r, o, 33);
    SetLow(PDramOffset, r, o', 33);
    SetAbove(PDramOffset, r, o, o', 33);
    SumCarriesOver(a, k, Set(PDramOffset, r, o), Set(PDramOffset, r, o'), 33);
  }

  /** Pointer arithmetic within the offset field carries over to the physical address. */
  lemma AddThenPhysical(a: Word, k: nat, here: Place)
    requires !IsCtrl(a) && StaysInside(a, k)
    ensures !IsCtrl(Plus(a, k)) && ToPhysical(Plus(a, k), here) == Plus(ToPhysical(a, here), k)
  {
    if IsDram(a) { AddDram(a, k, here); }
    else if IsL2(a) { AddL2(a, k, here); }
    else { AddL1(a, k, here); }
  }

  // ---------------------------------------------------------------- field by field

  /** DrvAPIVAddress and DrvAPIPAddress: an address word and assignments to its fields. */
  class Address {
    var word: Word

    constructor (word: Word)
      ensures this.word == word
    {
      this.word := word;
    }

    method Assign(f: Field, v: Word)
      modifies this
      ensures word == Set(f, old(word), v)
    {
      word := Set(f, word, v);
    }

    /** to_physical fills a new address field by field. */
    method Translate(here: Place) returns (ret: Address)
      ensures fresh(ret) && ret.word == ToPhysical(word, here)
    {
      ret := new Address(Zero());
      if IsCtrl(word) {
        ret.Assign(PType, TYPE_CTRL());
        ret.Assign(PPxn, Get(Pxn, word));
        ret.Assign(PPod, Get(Pod, word));
        ret.Assign(PCoreY, Get(CoreY, word));
        ret.Assign(PCoreX, Get(CoreX, word));
      } else if Get(NotScratchpad, word) != Zero() {
        ret.Assign(PType, TYPE_DRAM());
        ret.Assign(PPxn, Get(Pxn, word));
        ret.Assign(PDramOffset, DramOffset(word));
      } else if Get(L2NotL1, word) != Zero() {
        ret.Assign(PType, TYPE_L2SP());
        ret.Assign(PPxn, if IsGlobal(word) then Get(Pxn, word) else here.pxn);
        ret.Assign(PPod, if IsGlobal(word) then Get(Pod, word) else here.pod);
        ret.Assign(PL2Offset, Get(L2Offset, word));
      } else {
        ret.Assign(PType, TYPE_L1SP());
        ret.Assign(PPxn, if IsGlobal(word) then Get(Pxn, word) else here.pxn);
        ret.Assign(PPod, if IsGlobal(word) then Get(Pod, word) else here.pod);
        ret.Assign(PCoreY, if IsGlobal(word) then Get(CoreY, word) else here.coreY);
        ret.Assign(PCoreX, if IsGlobal(word) then Get(CoreX, word) else here.coreX);
        ret.Assign(PL1Offset, Get(L1Offset, word));
      }
    }
  }

  /** toGlobalAddress works on a copy of the address; an answer of None is the exception. */
  method MakeGlobal(local: Word, there: Place) returns (r: Option<Word>)
    ensures r == ToGlobal(local, there)
  {
    var vaddr := new Address(local);
    if Get(NotScratchpad, local) != Zero() || IsGlobal(local) {
      return Some(local);
    } else if IsL2(vaddr.word) {
      vaddr.Assign(Pxn, there.pxn);
      vaddr.Assign(Pod, there.pod);
      vaddr.Assign(Global, Bit(0));
      return Some(vaddr.word);
    } else if IsL1(vaddr.word) {
      vaddr.Assign(Pxn, there.pxn);
      vaddr.Assign(Pod, there.pod);
      vaddr.Assign(Global, Bit(0));
      vaddr.Assign(CoreY, there.coreY);
      vaddr.Assign(CoreX, there.coreX);
      return Some(vaddr.word);
    }
    return None;
  }
}
