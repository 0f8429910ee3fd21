/** The comparison of the PowerPC registers, bit by bit and register by register: which differences
    between two images are reported, said without the masks that the code computes. */
module RegisterBits {
  import opened Reginfo
  import opened FpRules
  import opened Comparer
  import opened Tolerance

  // ---------------------------------------------------------------- single bits

  /** Bit `i` of a register, counted from the left. */
  predicate BitOf(w: Word, i: nat) { On(w.bits, RegBit(i)) }

  lemma RegBits()
    ensures RegBit(0) == 0x8000_0000 && RegBit(1) == 0x4000_0000 && RegBit(2) == 0x2000_0000 && RegBit(3) == 0x1000_0000
    ensures RegBit(4) == 0x0800_0000 && RegBit(5) == 0x0400_0000 && RegBit(6) == 0x0200_0000 && RegBit(7) == 0x0100_0000
    ensures RegBit(8) == 0x0080_0000 && RegBit(9) == 0x0040_0000
      && RegBit(10) == 0x0020_0000 && RegBit(11) == 0x0010_0000
    ensures RegBit(12) == 0x0008_0000 && RegBit(13) == 0x0004_0000
      && RegBit(14) == 0x0002_0000 && RegBit(15) == 0x0001_0000
    ensures RegBit(16) == 0x0000_8000 && RegBit(17) == 0x0000_4000
      && RegBit(18) == 0x0000_2000 && RegBit(19) == 0x0000_1000
    ensures RegBit(20) == 0x0000_0800 && RegBit(21) == 0x0000_0400
      && RegBit(22) == 0x0000_0200 && RegBit(23) == 0x0000_0100
    ensures RegBit(24) == 0x0000_0080 && RegBit(25) == 0x0000_0040
      && RegBit(26) == 0x0000_0020 && RegBit(27) == 0x0000_0010
    ensures RegBit(28) == 0x0000_0008 && RegBit(29) == 0x0000_0004
      && RegBit(30) == 0x0000_0002 && RegBit(31) == 0x0000_0001
  {
    assert RegBit(0) == 0x8000_0000 && RegBit(1) == 0x4000_0000 && RegBit(2) == 0x2000_0000 && RegBit(3) == 0x1000_0000;
    assert RegBit(4) == 0x0800_0000 && RegBit(5) == 0x0400_0000 && RegBit(6) == 0x0200_0000 && RegBit(7) == 0x0100_0000;
    assert RegBit(8) == 0x0080_0000 && RegBit(9) == 0x0040_0000
      && RegBit(10) == 0x0020_0000 && RegBit(11) == 0x0010_0000;
    assert RegBit(12) == 0x0008_0000 && RegBit(13) == 0x0004_0000
      && RegBit(14) == 0x0002_0000 && RegBit(15) == 0x0001_0000;
    assert RegBit(16) == 0x0000_8000 && RegBit(17) == 0x0000_4000
      && RegBit(18) == 0x0000_2000 && RegBit(19) == 0x0000_1000;
    assert RegBit(20) == 0x0000_0800 && RegBit(21) == 0x0000_0400
      && RegBit(22) == 0x0000_0200 && RegBit(23) == 0x0000_0100;
    assert RegBit(24) == 0x0000_0080 && RegBit(25) == 0x0000_0040
      && RegBit(26) == 0x0000_0020 && RegBit(27) == 0x0000_0010;
    assert RegBit(28) == 0x0000_0008 && RegBit(29) == 0x0000_0004
      && RegBit(30) == 0x0000_0002 && RegBit(31) == 0x0000_0001;
  }

  /** The place of a bit is read off a mask: register 0 is its highest bit, register 31 its lowest. */
  lemma SelectedMeans(mask: Word, i: nat)
    requires i < 32
    ensures Selected(mask, i) <==> BitOf(mask, i)
  {
    hide RegBit, On;
  }

  predicate AgreeAt(x: bv32, y: bv32, m: bv32, p: bv32) { On(m, p) ==> (On(x, p) <==> On(y, p)) }

  /** Every selected bit is the same. */
  ghost predicate SameBits(x: Word, y: Word, mask: Word) {
    forall i :: 0 <= i < 32 && BitOf(mask, i) ==> (BitOf(x, i) <==> BitOf(y, i))
  }

  lemma SingleAgrees(x: bv32, y: bv32, m: bv32, p: bv32)
    requires x & m == y & m && p & (p - 1) == 0
    ensures AgreeAt(x, y, m, p)
  {
  }

  lemma SingleBit(i: nat)
    requires i < 32
    ensures RegBit(i) != 0 && RegBit(i) & (RegBit(i) - 1) == 0
  {
    RegBits();
    hide RegBit;
    SmallNumber(i);
  }

  lemma SmallNumber(i: nat)
    requires i < 32
    ensures i in {0, 1, 2, 3, 4, 5, 6, 7, 8, 9, 10, 11, 12, 13, 14, 15,
                  16, 17, 18, 19, 20, 21, 22, 23, 24, 25, 26, 27, 28, 29, 30, 31}
  {
  }

  /** Registers are equal under a mask exactly if every selected bit is the same. */
  lemma MaskedMeans(x: Word, y: Word, mask: Word)
    ensures And(x, mask) == And(y, mask) <==> SameBits(x, y, mask)
  {
    hide RegBit, AgreeAt, SameBits, And;
    if And(x, mask) == And(y, mask) {
      MaskedOneWay(x, y, mask);
    }
    if SameBits(x, y, mask) {
      MaskedBack(x, y, mask);
    }
  }

  lemma MaskedBit(x: Word, y: Word, mask: Word, i: nat)
    requires i < 32 && And(x, mask) == And(y, mask)
    ensures BitOf(mask, i) ==> (BitOf(x, i) <==> BitOf(y, i))
  {
    hide RegBit, On;
    SingleBit(i);
    SingleAgrees(x.bits, y.bits, mask.bits, RegBit(i));
  }

  lemma MaskedOneWay(x: Word, y: Word, mask: Word)
    requires And(x, mask) == And(y, mask)
    ensures SameBits(x, y, mask)
  {
    hide BitOf, And;
    forall i | 0 <= i < 32 ensures BitOf(mask, i) ==> (BitOf(x, i) <==> BitOf(y, i)) {
      MaskedBit(x, y, mask, i);
    }
  }

  lemma BitAgrees(a: Word, b: Word, mask: Word, i: nat)
    requires i < 32 && SameBits(a, b, mask)
    ensures AgreeAt(a.bits, b.bits, mask.bits, RegBit(i))
  {
    hide RegBit, On;
    assert BitOf(mask, i) ==> (BitOf(a, i) <==> BitOf(b, i));
  }

  function Join(u: bv32, p: bv32): bv32 { u | p }

  function Meet(x: bv32, m: bv32): bv32 { x & m }

  /** The first `n` bits from the left. */
  function Upto(n: nat): bv32 { if n == 0 then 0 else Join(Upto(n - 1), RegBit(n - 1)) }

  lemma AllBits()
    ensures Upto(32) == 0xFFFF_FFFF
  {
    RegBits();
    hide RegBit;
    assert Upto(1) == 0x8000_0000;
    assert Upto(2) == 0xC000_0000;
    assert Upto(3) == 0xE000_0000;
    assert Upto(4) == 0xF000_0000;
    assert Upto(5) == 0xF800_0000;
    assert Upto(6) == 0xFC00_0000;
    assert Upto(7) == 0xFE00_0000;
    assert Upto(8) == 0xFF00_0000;
    assert Upto(9) == 0xFF80_0000;
    assert Upto(10) == 0xFFC0_0000;
    assert Upto(11) == 0xFFE0_0000;
    assert Upto(12) == 0xFFF0_0000;
    assert Upto(13) == 0xFFF8_0000;
    assert Upto(14) == 0xFFFC_0000;
    assert Upto(15) == 0xFFFE_0000;
    assert Upto(16) == 0xFFFF_0000;
    assert Upto(17) == 0xFFFF_8000;
    assert Upto(18) == 0xFFFF_C000;
    assert Upto(19) == 0xFFFF_E000;
    assert Upto(20) == 0xFFFF_F000;
    assert Upto(21) == 0xFFFF_F800;
    assert Upto(22) == 0xFFFF_FC00;
    assert Upto(23) == 0xFFFF_FE00;
    assert Upto(24) == 0xFFFF_FF00;
    assert Upto(25) == 0xFFFF_FF80;
    assert Upto(26) == 0xFFFF_FFC0;
    assert Upto(27) == 0xFFFF_FFE0;
    assert Upto(28) == 0xFFFF_FFF0;
    assert Upto(29) == 0xFFFF_FFF8;
    assert Upto(30) == 0xFFFF_FFFC;
    assert Upto(31) == 0xFFFF_FFFE;
    assert Upto(32) == 0xFFFF_FFFF;
  }

  lemma SingleOn(x: bv32, p: bv32)
    requires p & (p - 1) == 0
    ensures Meet(x, p) == if On(x, p) then p else 0
  {
  }

  lemma Spread(x: bv32, m: bv32, p: bv32)
    ensures Meet(Meet(x, m), p) == Meet(Meet(x, p), Meet(m, p))
  {
  }

  lemma MeetEnds(x: bv32)
    ensures Meet(x, 0) == 0 && Meet(x, 0xFFFF_FFFF) == x
  {
  }

  lemma OneBit(x: bv32, y: bv32, m: bv32, p: bv32)
    requires p & (p - 1) == 0 && AgreeAt(x, y, m, p)
    ensures Meet(Meet(x, m), p) == Meet(Meet(y, m), p)
  {
    hide Meet, On;
    SingleOn(x, p);
    SingleOn(y, p);
    SingleOn(m, p);
    Spread(x, m, p);
    Spread(y, m, p);
    MeetEnds(Meet(x, p));
    MeetEnds(Meet(y, p));
  }

  lemma OneMore(x: bv32, y: bv32, u: bv32, p: bv32)
    requires Meet(x, u) == Meet(y, u) && Meet(x, p) == Meet(y, p)
    ensures Meet(x, Join(u, p)) == Meet(y, Join(u, p))
  {
  }

  lemma {:induction false} UptoAgrees(a: Word, b: Word, mask: Word, n: nat)
    requires n <= 32 && SameBits(a, b, mask)
    ensures Meet(Meet(a.bits, mask.bits), Upto(n)) == Meet(Meet(b.bits, mask.bits), Upto(n))
  {
    if n > 0 {
      hide RegBit, AgreeAt, SameBits, Meet, Join;
      UptoAgrees(a, b, mask, n - 1);
      SingleBit(n - 1);
      BitAgrees(a, b, mask, n - 1);
      OneBit(a.bits, b.bits, mask.bits, RegBit(n - 1));
      OneMore(Meet(a.bits, mask.bits), Meet(b.bits, mask.bits), Upto(n - 1), RegBit(n - 1));
    }
  }

  lemma AndMeets(a: Word, mask: Word)
    ensures And(a, mask) == Word(Meet(a.bits, mask.bits))
  {
  }

  lemma MaskedBack(a: Word, b: Word, mask: Word)
    requires SameBits(a, b, mask)
    ensures And(a, mask) == And(b, mask)
  {
    hide SameBits, Upto, Meet, And;
    UptoAgrees(a, b, mask, 32);
    AllBits();
    MeetEnds(Meet(a.bits, mask.bits));
    MeetEnds(Meet(b.bits, mask.bits));
    AndMeets(a, mask);
    AndMeets(b, mask);
  }

  // ---------------------------------------------------------------- the general registers

  lemma {:induction false} RegBitsFall(i: nat, j: nat)
    requires i < j < 32
    ensures RegBit(j) < RegBit(i)
  {
    SingleBit(j - 1);
    Halved(RegBit(j - 1));
    if i < j - 1 {
      RegBitsFall(i, j - 1);
    }
  }

  lemma Halved(p: bv32)
    requires p != 0
    ensures p >> 1 < p
  {
  }

  lemma Disjoint(p: bv32, q: bv32)
    requires p & (p - 1) == 0 && q & (q - 1) == 0 && p != q
    ensures p & q == 0
  {
  }

  lemma Apart(m: Word, p: bv32, q: bv32)
    requires p & q == 0
    ensures On(Less(m, q).bits, p) <==> On(m.bits, p)
  {
    hide On, Less, Meet, Cleared;
    OnMeets(m.bits, p);
    OnMeets(Less(m, q).bits, p);
    LessIs(m, q);
    Elsewhere(m.bits, p, q);
  }

  lemma OnMeets(x: bv32, p: bv32)
    ensures On(x, p) <==> Meet(x, p) != 0
  {
  }

  lemma LessIs(m: Word, q: bv32)
    ensures Less(m, q) == Word(Cleared(m.bits, q))
  {
    hide Cleared;
  }

  lemma Elsewhere(m: bv32, p: bv32, q: bv32)
    requires p & q == 0
    ensures Meet(Cleared(m, q), p) == Meet(m, p)
  {
  }

  lemma Cut(m: Word, p: bv32)
    ensures !On(Less(m, p).bits, p)
  {
  }

  lemma Different(i: nat, t: nat)
    requires i < 32 && t < 32 && i != t
    ensures RegBit(i) != RegBit(t)
  {
    hide RegBit;
    if i < t {
      RegBitsFall(i, t);
    } else {
      RegBitsFall(t, i);
    }
  }

  lemma NoOverlap(i: nat, t: nat)
    requires i < 32 && t < 32 && i != t
    ensures RegBit(i) & RegBit(t) == 0
  {
    hide RegBit;
    SingleBit(i);
    SingleBit(t);
    Different(i, t);
    Disjoint(RegBit(i), RegBit(t));
  }

  /** A mask without register `t`. */
  lemma WithoutOne(mask: Word, t: nat, i: nat)
    requires t < 32 && i < 32
    ensures BitOf(Less(mask, RegBit(t)), i) <==> BitOf(mask, i) && i != t
  {
    hide RegBit, On, Less;
    if i == t {
      Cut(mask, RegBit(t));
    } else {
      NoOverlap(i, t);
      Apart(mask, RegBit(i), RegBit(t));
    }
  }

  /** The apprentice stopped at an illegal instruction that is no trap of the test, and the next one is
      `addi` or `subf`, whose target is register `i`: primary opcode 14, or primary opcode 31 with
      extended opcode 40 and no record bit. */
  predicate PatchedTarget(a: RegInfo, i: nat) {
    && a.faulting.bits >> 4 != 0x5AF
    && (a.next.bits >> 26 == 14 || (a.next.bits >> 26 == 31 && a.next.bits & 0x7FF == 2 * 40))
    && i == RT(a.next)
  }

  lemma PatchedMeans(a: RegInfo)
    ensures IsSigill(a) <==> a.faulting.bits >> 4 != 0x5AF
    ensures Is(a.next, 0xFC00_0000, 0x3800_0000) <==> a.next.bits >> 26 == 14
    ensures Is(a.next, 0xFC00_07FF, 0x7C00_0050) <==> a.next.bits >> 26 == 31 && a.next.bits & 0x7FF == 2 * 40
  {
    TrapKey(a.faulting.bits);
    NextWord(a.next.bits);
  }

  lemma TrapKey(w: bv32)
    ensures w & 0xFFFF_FFF0 == 0x0000_5AF0 <==> w >> 4 == 0x5AF
  {
  }

  lemma NextWord(w: bv32)
    ensures w & 0xFC00_0000 == 0x3800_0000 <==> w >> 26 == 14
    ensures w & 0xFC00_07FF == 0x7C00_0050 <==> w >> 26 == 31 && w & 0x7FF == 80
  {
  }

  /** The registers that are compared. */
  lemma LocalMeans(o: Opts, a: RegInfo, i: nat)
    requires i < 32
    ensures Selected(LocalMask(o, a), i) <==> BitOf(o.gregsMask, i) && !PatchedTarget(a, i)
  {
    hide Is, RT, Less, RegBit, BitOf, Selected, IsSigill;
    PatchedMeans(a);
    SelectedMeans(LocalMask(o, a), i);
    WithoutOne(o.gregsMask, RT(a.next), i);
  }

  // ---------------------------------------------------------------- the condition register

  predicate Nibble(x: bv32) { x & 15 == x }

  function Low(k: nat): bv32 { if k == 0 then 8 else if k == 1 then 4 else if k == 2 then 2 else 1 }

  /** Bit `k` of the field at offset `f`. */
  function Place(f: bv32, k: nat): bv32
    requires FieldOffset(f)
  {
    Up(Low(k), 28 - f)
  }

  lemma DownBit(w: bv32, o: bv32, k: nat)
    requires FieldOffset(o)
    ensures On(Down(w, 28 - o), Low(k)) <==> On(w, Place(o, k))
    ensures Nibble(Down(w, 28 - o))
  {
  }

  lemma UpSame(x: bv32, l: bv32, o: bv32)
    requires FieldOffset(o) && Nibble(x) && Nibble(l)
    ensures On(Up(x, 28 - o), Up(l, 28 - o)) <==> On(x, l)
  {
  }

  lemma UpApart(x: bv32, l: bv32, o: bv32, f: bv32)
    requires FieldOffset(o) && FieldOffset(f) && o != f && Nibble(x) && Nibble(l)
    ensures !On(Up(x, 28 - o), Up(l, 28 - f))
  {
  }

  lemma KeepBit(o: bv32, f: bv32, k: nat)
    requires FieldOffset(o) && FieldOffset(f)
    ensures On(!(15 << (28 - o)), Place(f, k)) <==> f != o
    ensures Place(f, k) & (Place(f, k) - 1) == 0
  {
  }

  lemma MergeBit(ccr: bv32, keep: bv32, field: bv32, p: bv32)
    requires p & (p - 1) == 0
    ensures On(((ccr & keep) | field) & ccr, p) <==> On(ccr, p) && (On(keep, p) || On(field, p))
  {
  }

  lemma MovedBit(w: bv32, from: bv32, to: bv32, f: bv32, k: nat)
    requires FieldOffset(from) && FieldOffset(to) && FieldOffset(f)
    ensures On(Moved(w, from, to), Place(f, k)) <==> f == to && On(w, Place(from, k))
  {
    hide On, Place, Moved, FieldOffset;
    if f == to {
      MovedThere(w, from, to, k);
    } else {
      MovedElsewhere(w, from, to, f, k);
    }
  }

  lemma MovedThere(w: bv32, from: bv32, to: bv32, k: nat)
    requires FieldOffset(from) && FieldOffset(to)
    ensures On(Moved(w, from, to), Place(to, k)) <==> On(w, Place(from, k))
  {
    hide Down, Up, On, Place, Moved, Low, FieldOffset, Nibble;
    Flipped(from);
    Flipped(to);
    MovedIs(w, from, to);
    DownBit(w, from, k);
    LowSmall(k);
    PlaceIs(to, k);
    UpSame(Down(w, 28 - from), Low(k), to);
  }

  lemma MovedElsewhere(w: bv32, from: bv32, to: bv32, f: bv32, k: nat)
    requires FieldOffset(from) && FieldOffset(to) && FieldOffset(f) && f != to
    ensures !On(Moved(w, from, to), Place(f, k))
  {
    hide Down, Up, On, Place, Moved, Low, FieldOffset, Nibble;
    Flipped(from);
    Flipped(to);
    Flipped(f);
    MovedIs(w, from, to);
    DownBit(w, from, k);
    LowSmall(k);
    PlaceIs(f, k);
    UpApart(Down(w, 28 - from), Low(k), to, f);
  }

  lemma Flipped(o: bv32)
    requires FieldOffset(o)
    ensures FieldOffset(28 - o)
  {
  }

  lemma MovedIs(w: bv32, from: bv32, to: bv32)
    requires FieldOffset(from) && FieldOffset(to)
    ensures FieldOffset(28 - from) && FieldOffset(28 - to) && Moved(w, from, to) == Up(Down(w, 28 - from), 28 - to)
  {
    hide Up, Down;
  }

  lemma LowSmall(k: nat)
    ensures Nibble(Low(k))
  {
  }

  lemma PlaceIs(f: bv32, k: nat)
    requires FieldOffset(f)
    ensures FieldOffset(28 - f) && Place(f, k) == Up(Low(k), 28 - f)
  {
    hide Up, Low;
  }

  lemma FieldBit(ccr: bv32, fpscr: bv32, bf: bv32, bfa: bv32, f: bv32, k: nat)
    requires FieldOffset(bf) && FieldOffset(bfa) && FieldOffset(f)
    ensures On(WithField(ccr, Moved(fpscr, bfa, bf), bf), Place(f, k)) <==>
      On(ccr, Place(f, k)) && (f == bf ==> On(fpscr, Place(bfa, k)))
  {
    hide Moved, On, Place;
    MovedBit(fpscr, bfa, bf, f, k);
    KeepBit(bf, f, k);
    MergeBit(ccr, !(15 << (28 - bf)), Moved(fpscr, bfa, bf), Place(f, k));
  }

  /** The offset of field `g` of eight. */
  function Offset(g: nat): (o: bv32)
    ensures FieldOffset(o)
  {
    if g == 0 then 0 else if g == 1 then 4 else if g == 2 then 8 else if g == 3 then 12
    else if g == 4 then 16 else if g == 5 then 20 else if g == 6 then 24 else 28
  }

  lemma PlaceBit(g: nat, k: nat)
    requires g < 8 && k < 4
    ensures Place(Offset(g), k) == RegBit(4 * g + k)
  {
    RegBits();
    hide RegBit;
    assert k == 0 || k == 1 || k == 2 || k == 3;
    assert g == 0 || g == 1 || g == 2 || g == 3 || g == 4 || g == 5 || g == 6 || g == 7;
  }

  /** The condition-register field an instruction writes, and the status field it reads. */
  function TargetOf(insn: Word): nat { (((insn.bits >> 23) & 7) as bv3) as nat }

  function SourceOf(insn: Word): nat { (((insn.bits >> 18) & 7) as bv3) as nat }

  lemma CrOffsets(insn: Word)
    ensures TargetOf(insn) < 8 && Offset(TargetOf(insn)) == CrField(insn, 21)
    ensures SourceOf(insn) < 8 && Offset(SourceOf(insn)) == CrField(insn, 16)
  {
    var t, s := ((insn.bits >> 23) & 7) as bv3, ((insn.bits >> 18) & 7) as bv3;
    Eight(t);
    Eight(s);
    FieldOfWord(insn.bits);
  }

  lemma Eight(x: bv3)
    ensures x as nat == if x == 0 then 0 else if x == 1 then 1 else if x == 2 then 2 else if x == 3 then 3
      else if x == 4 then 4 else if x == 5 then 5 else if x == 6 then 6 else 7
  {
  }

  lemma FieldOfWord(w: bv32)
    ensures (w >> 21) & 0x1C == (((w >> 23) & 7) as bv3) as bv32 * 4
    ensures (w >> 16) & 0x1C == (((w >> 18) & 7) as bv3) as bv32 * 4
  {
  }

  lemma OffsetApart(g: nat, h: nat)
    requires g < 8 && h < 8
    ensures Offset(g) == Offset(h) <==> g == h
  {
  }

  /** Bit `k` of a field of the copied mask: it is compared if the condition mask has it and, in the
      field that was written, if the mask of the source has its bit. */
  lemma CopiedMask(ccr: Word, source: Word, to: nat, from: nat, g: nat, k: nat)
    requires to < 8 && from < 8 && g < 8 && k < 4
    ensures BitOf(McrfsMask(ccr, source, Offset(to), Offset(from)), 4 * g + k) <==>
      BitOf(ccr, 4 * g + k) && (g == to ==> BitOf(source, 4 * from + k))
  {
    hide RegBit, On, WithField, Moved, Place, Offset;
    FieldBit(ccr.bits, source.bits, Offset(to), Offset(from), Offset(g), k);
    PlaceBit(g, k);
    PlaceBit(from, k);
    OffsetApart(g, to);
  }

  lemma WithoutThree(mask: Word, b: nat)
    requires b < 32
    ensures BitOf(And(mask, Word(0x1FFF_FFFF)), b) <==> BitOf(mask, b) && b >= 3
  {
    hide RegBit, On, And;
    ThreeCut(b);
    OnLow(mask, RegBit(b));
  }

  lemma ThreeCut(b: nat)
    requires b < 32
    ensures if b < 3 then RegBit(b) & 0x1FFF_FFFF == 0 else RegBit(b) & 0x1FFF_FFFF == RegBit(b)
  {
    RegBits();
    hide RegBit;
    SmallNumber(b);
  }

  lemma OnLow(mask: Word, p: bv32)
    ensures p & 0x1FFF_FFFF == 0 ==> !On(And(mask, Word(0x1FFF_FFFF)).bits, p)
    ensures p & 0x1FFF_FFFF == p ==> (On(And(mask, Word(0x1FFF_FFFF)).bits, p) <==> On(mask.bits, p))
  {
    hide And, Meet, On;
    AndMeets(mask, Word(0x1FFF_FFFF));
    OnMeets(Meet(mask.bits, 0x1FFF_FFFF), p);
    OnMeets(mask.bits, p);
    LowMeets(mask.bits, p);
  }

  lemma LowMeets(m: bv32, p: bv32)
    ensures p & 0x1FFF_FFFF == 0 ==> Meet(Meet(m, 0x1FFF_FFFF), p) == 0
    ensures p & 0x1FFF_FFFF == p ==> Meet(Meet(m, 0x1FFF_FFFF), p) == Meet(m, p)
  {
  }

  /** Instructions by their opcodes: primary, extended, and record bit. */
  predicate FloatCompare(w: bv32) { w >> 26 == 63 && (w >> 21) & 3 == 0 && (w & 0x7FF == 0 || w & 0x7FF == 2 * 32) }
  predicate MoveFpscrField(w: bv32) {
    w >> 26 == 63 && (w >> 21) & 3 == 0 && (w >> 16) & 3 == 0 && w & 0xFFFF == 2 * 64
  }
  predicate DivideLong(w: bv32) { w >> 26 == 31 && (w >> 1) & 0x1FF == 331 }
  predicate DivideShort(w: bv32) { w >> 26 == 31 && (w >> 1) & 0x1FF == 363 }
  predicate Records(w: bv32) { w & 1 == 1 }
  predicate MoveFromLink(w: bv32) { w >> 26 == 31 && w & 0x1F_FFFF == 8 * 0x1_0000 + 2 * 339 }

  lemma IntegerForms(w: bv32)
    ensures w & 0xFC60_07BF == 0xFC00_0000 <==> FloatCompare(w)
    ensures w & 0xFC63_FFFF == 0xFC00_0080 <==> MoveFpscrField(w)
    ensures w & 0xFC00_03FE == 0x7C00_0296 <==> DivideLong(w)
    ensures w & 0xFC00_03FE == 0x7C00_02D6 <==> DivideShort(w)
    ensures w & 0xFC00_03FF == 0x7C00_0297 <==> DivideLong(w) && Records(w)
    ensures w & 0xFC1F_FFFF == 0x7C08_02A6 <==> MoveFromLink(w)
  {
  }

  /** Bit `k` of condition field `g` is compared. */
  ghost predicate CrCompared(o: Opts, m: RegInfo, g: nat, k: nat)
    requires Sized(m)
  {
    var w := m.prev.bits;
    && BitOf(o.ccrMask, 4 * g + k)
    && (FloatCompare(w) && g == TargetOf(m.prev) ==> BitOf(o.ccrMask, 4 + k))
    && (MoveFpscrField(w) && g == TargetOf(m.prev) ==> BitOf(o.fpscrMask, 4 * SourceOf(m.prev) + k))
    && (DivideLong(w) && Records(w) && DivUndefined(m) ==> !(g == 0 && k < 3))
  }

  lemma CcrMeans(o: Opts, m: RegInfo, g: nat, k: nat)
    requires Sized(m) && g < 8 && k < 4
    ensures BitOf(CcrBits(o, m), 4 * g + k) <==> CrCompared(o, m, g, k)
  {
    hide BitOf, DivUndefined, And, McrfsMask, FloatCompare, MoveFpscrField, DivideLong, Records, CrField, TargetOf,
      SourceOf, Offset;
    IntegerForms(m.prev.bits);
    OneForm(m.prev.bits);
    CrOffsets(m.prev);
    OffsetOne();
    CopiedMask(o.ccrMask, o.ccrMask, TargetOf(m.prev), 1, g, k);
    CopiedMask(o.ccrMask, o.fpscrMask, TargetOf(m.prev), SourceOf(m.prev), g, k);
    WithoutThree(o.ccrMask, 4 * g + k);
  }

  lemma OneForm(w: bv32)
    ensures !(FloatCompare(w) && MoveFpscrField(w)) && !(FloatCompare(w) && DivideLong(w))
    ensures !(MoveFpscrField(w) && DivideLong(w))
  {
  }

  lemma OffsetOne()
    ensures Offset(1) == 4
  {
  }

  // ---------------------------------------------------------------- fields and quotients

  /** An instruction word put together from its fields. */
  function Assembled(op: bv6, rt: bv5, ra: bv5, rb: bv5, rc: bv5, low: bv6): bv32 {
    (op as bv32 << 26) | (rt as bv32 << 21) | (ra as bv32 << 16) | (rb as bv32 << 11) | (rc as bv32 << 6) | low as bv32
  }

  lemma BitsBack(op: bv6, rt: bv5, ra: bv5, rb: bv5, rc: bv5, low: bv6)
    ensures var x := Assembled(op, rt, ra, rb, rc, low);
      && ((x >> 21) & 31) as bv5 == rt && ((x >> 16) & 31) as bv5 == ra
      && ((x >> 11) & 31) as bv5 == rb && ((x >> 6) & 31) as bv5 == rc
  {
  }

  lemma FieldsBack(op: bv6, rt: bv5, ra: bv5, rb: bv5, rc: bv5, low: bv6)
    ensures var w := Word(Assembled(op, rt, ra, rb, rc, low));
      RT(w) == rt as nat && RA(w) == ra as nat && RB(w) == rb as nat && RC(w) == rc as nat
  {
    BitsBack(op, rt, ra, rb, rc, low);
    hide Assembled;
  }

  /** A quotient is truncated: what is left over is smaller than the divisor and has the sign of the
      dividend. */
  lemma QuotientTruncates(a: int, b: int)
    requires b != 0
    ensures var left := a - b * Quotient(a, b);
      && -(if b > 0 then b else -b) < left < (if b > 0 then b else -b)
      && (left != 0 ==> (left < 0 <==> a < 0))
  {
    var x := if a >= 0 then a else -a;
    assert x == b * (x / b) + x % b;
    assert b * -(x / b) == -(b * (x / b));
  }

  /** The number a register holds, in two's complement. */
  function TwosComplement(w: Word): int {
    if w.bits < 0x8000_0000 then w.bits as int else w.bits as int - 0x1_0000_0000
  }

  lemma TwosComplementMeans(w: Word)
    ensures Signed(w) == TwosComplement(w)
  {
  }

  /** The quotient of `div`, which divides a register and the quotient register behind it, is
      undefined if the target is an operand too, the divisor is 0, or the quotient does not fit; that
      of `divs`, which divides a register alone, likewise. */
  lemma DivMeans(m: RegInfo)
    requires Sized(m)
    ensures var rt, ra, rb := RT(m.prev), RA(m.prev), RB(m.prev);
      var long, short, d := TwosComplement(m.gregs[ra]) * 0x1_0000_0000 + m.mq.bits as int, TwosComplement(m.gregs[ra]),
        TwosComplement(m.gregs[rb]);
      && (DivUndefined(m) <==>
            ra == rt || rb == rt || d == 0 || !(-0x8000_0000 <= Quotient(long, d) < 0x8000_0000))
      && (DivsUndefined(m) <==>
            ra == rt || rb == rt || d == 0 || !(-0x8000_0000 <= Quotient(short, d) < 0x8000_0000))
  {
    hide Quotient, Overflows, RT, RA, RB, Signed, TwosComplement;
    var a, b := m.gregs[RA(m.prev)], m.gregs[RB(m.prev)];
    TwosComplementMeans(a);
    TwosComplementMeans(b);
    ZeroNumber(b);
    if TwosComplement(b) != 0 {
      OverflowMeans(TwosComplement(a) * 0x1_0000_0000 + m.mq.bits as int, TwosComplement(b));
      OverflowMeans(TwosComplement(a), TwosComplement(b));
    }
  }

  lemma ZeroNumber(w: Word)
    ensures TwosComplement(w) == 0 <==> w == Word(0)
  {
    BitsAgain(w.bits);
    BelowTwo32(w.bits);
    if w != Word(0) {
      NotZero(w.bits);
    }
  }

  lemma BitsAgain(x: bv32)
    ensures (x as int) as bv32 == x
  {
  }

  lemma BelowTwo32(x: bv32)
    ensures x as int < 0x1_0000_0000
  {
  }

  lemma NotZero(x: bv32)
    requires x != 0
    ensures x as int != 0
  {
    BitsAgain(x);
  }

  // ---------------------------------------------------------------- tolerated differences

  /** A difference in general register `i` that is let pass: a return address read by `mflr`, equal
      relative to the program counter; the undefined quotient of `div` or `divs`; or the bytes that a
      string load before the last instruction did not fill. */
  ghost predicate GregTolerated(m: RegInfo, i: nat, x: Word, nip: Word)
    requires Sized(m) && i < 32
  {
    var w := m.prev.bits;
    || (MoveFromLink(w) && i == RT(m.prev) && Minus(m.gregs[i], m.nip) == Minus(x, nip))
    || (DivideLong(w) && i == RT(m.prev) && DivUndefined(m))
    || (DivideShort(w) && i == RT(m.prev) && DivsUndefined(m))
    || StringTail(m, i, x)
  }

  lemma GregMeans(m: RegInfo, i: nat, x: Word, nip: Word)
    requires Sized(m) && i < 32
    ensures GregExcused(m, i, x, nip) <==> GregTolerated(m, i, x, nip)
  {
    hide DivUndefined, DivsUndefined, Minus, RT, MoveFromLink, DivideLong, DivideShort, StringTail, SameTop, Rest,
      LastRegister;
    IntegerForms(m.prev.bits);
    StringMeans(m, i, x);
  }

  /** Multiplications and divisions that leave their own value in the quotient register of a 601. */
  predicate UsesQuotient(w: bv32) {
    || w >> 26 == 7
    || (w >> 26 == 31 && (w >> 1) & 0x1FF in {235, 491, 459})
    || (w >> 26 == 31 && (w >> 1) & 0x3FF in {75, 11})
  }

  lemma QuotientForms(w: bv32)
    ensures UsesQuotient(w) <==>
      || w & 0xFC00_0000 == 0x1C00_0000 || w & 0xFC00_03FE == 0x7C00_01D6 || w & 0xFC00_07FE == 0x7C00_0096
      || w & 0xFC00_07FE == 0x7C00_0016 || w & 0xFC00_03FE == 0x7C00_03D6 || w & 0xFC00_03FE == 0x7C00_0396
  {
  }

  /** A difference in the quotient register that is let pass. */
  ghost predicate MqTolerated(o: Opts, m: RegInfo, signals: nat)
    requires Sized(m)
  {
    || (DivideLong(m.prev.bits) && DivUndefined(m))
    || (o.cpuOpts.bits & 2 != 0 && UsesQuotient(m.prev.bits))
    || signals == 0 || signals == 1
  }

  lemma MqMeans(o: Opts, m: RegInfo, signals: nat)
    requires Sized(m)
    ensures MqExcused(o, m, signals) <==> MqTolerated(o, m, signals)
  {
    hide DivUndefined, UsesQuotient, DivideLong;
    IntegerForms(m.prev.bits);
    QuotientForms(m.prev.bits);
  }

  // ---------------------------------------------------------------- the whole comparison

  /** Every selected general register is equal, or the target of a patched instruction, or tolerated. */
  ghost predicate GregPart(o: Opts, m: RegInfo, a: RegInfo)
    requires Sized(m) && Sized(a)
  {
    forall i :: 0 <= i < 32 && BitOf(o.gregsMask, i) ==>
      m.gregs[i] == a.gregs[i] || PatchedTarget(a, i) || GregTolerated(m, i, a.gregs[i], a.nip)
  }

  /** Every bit of the condition register that is compared is the same. */
  ghost predicate CrPart(o: Opts, m: RegInfo, a: RegInfo)
    requires Sized(m)
  {
    forall g, k :: 0 <= g < 8 && 0 <= k < 4 && CrCompared(o, m, g, k) ==>
      (BitOf(m.ccr, 4 * g + k) <==> BitOf(a.ccr, 4 * g + k))
  }

  /** Every selected floating register is equal, or some option that is set excuses it; the rules see
      the registers below it as the master has them. */
  ghost predicate FloatPart(o: Opts, rules: seq<FpRule>, m: RegInfo, a: RegInfo)
    requires Sized(m) && Sized(a)
  {
    forall i :: 0 <= i < 32 && BitOf(o.fpregsMask, i) ==>
      m.fpregs[i] == a.fpregs[i] || FpTolerated(o, rules, Case(m, SeenFloats(m, a, i), i))
  }

  /** Two images that the comparison lets pass, bit by bit and register by register. */
  ghost predicate Tolerable(o: Opts, rules: seq<FpRule>, m: RegInfo, a: RegInfo, signals: nat)
    requires Sized(m) && Sized(a)
  {
    && GregPart(o, m, a)
    && SameBits(m.xer, a.xer, o.xerMask)
    && Minus(m.lnk, m.nip) == Minus(a.lnk, a.nip) && m.ctr == a.ctr
    && CrPart(o, m, a)
    && (SameBits(m.mq, a.mq, o.mqMask) || MqTolerated(o, m, signals))
    && SameBits(m.fpscr, a.fpscr, o.fpscrMask)
    && FloatPart(o, rules, m, a)
  }

  /** An option that is set has a rule that applies. */
  ghost predicate FpTolerated(o: Opts, rules: seq<FpRule>, c: Case) {
    exists k :: 0 <= k < |rules| && Has(o.fpOpts, rules[k].bit) && Applies(rules[k], c)
  }

  lemma CcrSame(o: Opts, m: RegInfo, a: RegInfo)
    requires Sized(m)
    ensures And(m.ccr, CcrBits(o, m)) == And(a.ccr, CcrBits(o, m)) <==> CrPart(o, m, a)
  {
    hide And, CcrBits, BitOf, CrCompared;
    var mask := CcrBits(o, m);
    MaskedMeans(m.ccr, a.ccr, mask);
    forall g: nat, k: nat | g < 8 && k < 4 ensures BitOf(mask, 4 * g + k) <==> CrCompared(o, m, g, k) {
      CcrMeans(o, m, g, k);
    }
    if SameBits(m.ccr, a.ccr, mask) {
      forall g: nat, k: nat | g < 8 && k < 4 && CrCompared(o, m, g, k)
        ensures BitOf(m.ccr, 4 * g + k) <==> BitOf(a.ccr, 4 * g + k)
      {
        assert BitOf(mask, 4 * g + k);
      }
    }
    if CrPart(o, m, a) {
      forall i | 0 <= i < 32 && BitOf(mask, i) ensures BitOf(m.ccr, i) <==> BitOf(a.ccr, i) {
        assert i == 4 * (i / 4) + i % 4;
        assert CrCompared(o, m, i / 4, i % 4);
      }
    }
  }

  /** The comparison of the code, which computes masks and rewrites the image as it goes, lets two
      images pass if and only if they are tolerable. */
  lemma IsEqMeans(o: Opts, rules: seq<FpRule>, m: RegInfo, a: RegInfo, signals: nat)
    requires Sized(m) && Sized(a)
    ensures IsEq(o, rules, m, a, signals).Same? <==> Tolerable(o, rules, m, a, signals)
  {
    hide IsEq, And, CcrBits, SameBits, CrCompared, MqExcused, MqTolerated, GregAccepted, FloatAccepted, Minus;
    hide GregPart, FloatPart, CrPart;
    IsEqAccepts(o, rules, m, a, signals);
    MaskedMeans(m.xer, a.xer, o.xerMask);
    MaskedMeans(m.mq, a.mq, o.mqMask);
    MaskedMeans(m.fpscr, a.fpscr, o.fpscrMask);
    CcrSame(o, m, a);
    MqMeans(o, m, signals);
    GregsSame(o, m, a);
    FloatsSame(o, rules, m, a);
  }

  lemma GregsSame(o: Opts, m: RegInfo, a: RegInfo)
    requires Sized(m) && Sized(a)
    ensures GregPart(o, m, a) <==> forall i :: 0 <= i < 32 ==> GregAccepted(LocalMask(o, a), m, a, i)
  {
    hide BitOf, Selected, LocalMask, PatchedTarget, GregExcused, GregTolerated;
    forall i | 0 <= i < 32
      ensures GregAccepted(LocalMask(o, a), m, a, i) <==>
        !BitOf(o.gregsMask, i) || m.gregs[i] == a.gregs[i] || PatchedTarget(a, i)
        || GregTolerated(m, i, a.gregs[i], a.nip)
    {
      LocalMeans(o, a, i);
      GregMeans(m, i, a.gregs[i], a.nip);
    }
  }

  lemma FloatsSame(o: Opts, rules: seq<FpRule>, m: RegInfo, a: RegInfo)
    requires Sized(m) && Sized(a)
    ensures FloatPart(o, rules, m, a) <==> forall i :: 0 <= i < 32 ==> FloatAccepted(o, rules, m, a, i)
  {
    hide BitOf, Selected, Applies, Has;
    forall i | 0 <= i < 32
      ensures FloatAccepted(o, rules, m, a, i) <==>
        !BitOf(o.fpregsMask, i) || m.fpregs[i] == a.fpregs[i]
        || FpTolerated(o, rules, Case(m, SeenFloats(m, a, i), i))
    {
      SelectedMeans(o.fpregsMask, i);
    }
  }

  /** The image an accepted comparison leaves: the master's registers, except for the general registers
      that were not compared and the ones that depend on addresses. */
  ghost predicate Overwritten(o: Opts, m: RegInfo, a: RegInfo, b: RegInfo)
    requires Sized(m) && Sized(a)
  {
    && |b.gregs| == 32
    && (forall i :: 0 <= i < 32 ==>
          b.gregs[i] == if BitOf(o.gregsMask, i) && !PatchedTarget(a, i) then m.gregs[i] else a.gregs[i])
    && b == a.(gregs := b.gregs, xer := m.xer, ctr := m.ctr, ccr := m.ccr, mq := m.mq,
               fpregs := m.fpregs, fpscr := m.fpscr)
  }

  lemma SettledMeans(o: Opts, m: RegInfo, a: RegInfo, b: RegInfo)
    requires Sized(m) && Sized(a)
    ensures Settled(o, m, a, b) <==> Overwritten(o, m, a, b)
  {
    hide BitOf, Selected, LocalMask, PatchedTarget;
    forall i | 0 <= i < 32
      ensures Selected(LocalMask(o, a), i) <==> BitOf(o.gregsMask, i) && !PatchedTarget(a, i)
    {
      LocalMeans(o, a, i);
    }
  }

  // ---------------------------------------------------------------- reporting

  /** The place of a line in the report. */
  function Rank(l: Line): nat {
    match l
    case Greg(i) => i
    case Ctr => 32
    case Lr => 33
    case Xer => 34
    case Ccr => 35
    case Mq => 36
    case Fpr(i) => 37 + i
    case Fpscr => 69
  }

  /** What a line says: these registers differ; the link register counts from the place of the trap. */
  ghost predicate True(o: Opts, m: RegInfo, a: RegInfo, l: Line)
    requires Sized(m) && Sized(a)
  {
    match l
    case Greg(i) => i < 32 && BitOf(o.gregsMask, i) && m.gregs[i] != a.gregs[i]
    case Ctr => m.ctr != a.ctr
    case Lr => Minus(m.lnk, m.nip) != Minus(a.lnk, a.nip)
    case Xer => m.xer != a.xer
    case Ccr => m.ccr != a.ccr
    case Mq => m.mq != a.mq
    case Fpr(i) => i < 32 && m.fpregs[i] != a.fpregs[i]
    case Fpscr => m.fpscr != a.fpscr
  }

  /** Lines of ranks `from` to `to` in order, exactly the true ones. */
  ghost predicate Lists(o: Opts, m: RegInfo, a: RegInfo, ls: seq<Line>, from: nat, to: nat)
    requires Sized(m) && Sized(a)
  {
    && (forall l :: l in ls <==> from <= Rank(l) < to && True(o, m, a, l))
    && (forall i, j :: 0 <= i < j < |ls| ==> Rank(ls[i]) < Rank(ls[j]))
  }

  lemma ListsJoin(o: Opts, m: RegInfo, a: RegInfo, s: seq<Line>, t: seq<Line>, from: nat, mid: nat, to: nat)
    requires Sized(m) && Sized(a) && from <= mid <= to && Lists(o, m, a, s, from, mid) && Lists(o, m, a, t, mid, to)
    ensures Lists(o, m, a, s + t, from, to)
  {
    hide Rank, True;
    forall i, j | 0 <= i < j < |s + t| ensures Rank((s + t)[i]) < Rank((s + t)[j]) {
      if i < |s| <= j {
        assert s[i] in s && t[j - |s|] in t;
      }
    }
  }

  lemma ListsOne(o: Opts, m: RegInfo, a: RegInfo, l: Line)
    requires Sized(m) && Sized(a) && (l.Greg? || l.Fpr? ==> l.i < 32)
    ensures Lists(o, m, a, if True(o, m, a, l) then [l] else [], Rank(l), Rank(l) + 1)
  {
    hide True;
    forall k | Rank(k) == Rank(l) && True(o, m, a, k) ensures k == l {
      TrueIsLine(o, m, a, k);
    }
  }

  lemma TrueIsLine(o: Opts, m: RegInfo, a: RegInfo, l: Line)
    requires Sized(m) && Sized(a) && True(o, m, a, l)
    ensures l.Greg? || l.Fpr? ==> l.i < 32
  {
  }

  lemma {:induction false} GregsListed(o: Opts, m: RegInfo, a: RegInfo, i: nat)
    requires Sized(m) && Sized(a) && i <= 32
    ensures Lists(o, m, a, GregLines(o, m, a, i), i, 32)
    decreases 32 - i
  {
    hide BitOf, Selected, Lists;
    if i == 32 {
      assert Lists(o, m, a, [], 32, 32) by { NothingListed(o, m, a, 32); }
    } else {
      GregsListed(o, m, a, i + 1);
      SelectedMeans(o.gregsMask, i);
      ListsOne(o, m, a, Greg(i));
      ListsJoin(o, m, a, if True(o, m, a, Greg(i)) then [Greg(i)] else [], GregLines(o, m, a, i + 1), i, i + 1, 32);
    }
  }

  lemma NothingListed(o: Opts, m: RegInfo, a: RegInfo, k: nat)
    requires Sized(m) && Sized(a)
    ensures Lists(o, m, a, [], k, k)
  {
  }

  lemma {:induction false} FprsListed(o: Opts, m: RegInfo, a: RegInfo, i: nat)
    requires Sized(m) && Sized(a) && i <= 32
    ensures Lists(o, m, a, FprLines(m, a, i), 37 + i, 69)
    decreases 32 - i
  {
    hide BitOf, Lists;
    if i == 32 {
      assert Lists(o, m, a, [], 69, 69) by { NothingListed(o, m, a, 69); }
    } else {
      FprsListed(o, m, a, i + 1);
      ListsOne(o, m, a, Fpr(i));
      ListsJoin(o, m, a, if True(o, m, a, Fpr(i)) then [Fpr(i)] else [], FprLines(m, a, i + 1), 37 + i, 38 + i, 69);
    }
  }

  /** One line, by its condition. */
  function Maybe(l: Line, c: bool): seq<Line> { if c then [l] else [] }

  /** The report names exactly the registers that differ, each once and in order. */
  lemma DumpMeans(o: Opts, m: RegInfo, a: RegInfo)
    requires Sized(m) && Sized(a)
    ensures var ls := DumpMismatch(o, m, a);
      && (forall l :: l in ls <==> True(o, m, a, l))
      && (forall i, j :: 0 <= i < j < |ls| ==> Rank(ls[i]) < Rank(ls[j]))
  {
    hide BitOf, GregLines, FprLines, Lists, Minus;
    var gs, fs := GregLines(o, m, a, 0), FprLines(m, a, 0);
    var g1 := gs + Maybe(Ctr, m.ctr != a.ctr);
    var g2 := g1 + Maybe(Lr, LinkDiffers(m, a));
    var g3 := g2 + Maybe(Xer, m.xer != a.xer);
    var g4 := g3 + Maybe(Ccr, m.ccr != a.ccr);
    var g5 := g4 + Maybe(Mq, m.mq != a.mq);
    var g6 := g5 + fs;
    assert DumpMismatch(o, m, a) == g6 + Maybe(Fpscr, m.fpscr != a.fpscr);
    hide DumpMismatch;
    assert LinkDiffers(m, a) <==> True(o, m, a, Lr);
    hide LinkDiffers;
    GregsListed(o, m, a, 0);
    ListsOne(o, m, a, Ctr);
    ListsJoin(o, m, a, gs, Maybe(Ctr, m.ctr != a.ctr), 0, 32, 33);
    ListsOne(o, m, a, Lr);
    ListsJoin(o, m, a, g1, Maybe(Lr, LinkDiffers(m, a)), 0, 33, 34);
    ListsOne(o, m, a, Xer);
    ListsJoin(o, m, a, g2, Maybe(Xer, m.xer != a.xer), 0, 34, 35);
    ListsOne(o, m, a, Ccr);
    ListsJoin(o, m, a, g3, Maybe(Ccr, m.ccr != a.ccr), 0, 35, 36);
    ListsOne(o, m, a, Mq);
    ListsJoin(o, m, a, g4, Maybe(Mq, m.mq != a.mq), 0, 36, 37);
    FprsListed(o, m, a, 0);
    ListsJoin(o, m, a, g5, fs, 0, 37, 69);
    ListsOne(o, m, a, Fpscr);
    ListsJoin(o, m, a, g6, Maybe(Fpscr, m.fpscr != a.fpscr), 0, 69, 70);
    ListedAll(o, m, a, DumpMismatch(o, m, a));
  }

  /** Differences are taken modulo 2 to the 32. */
  lemma MinusBack(x: bv32, y: bv32)
    ensures Minus(Word(x + y), Word(y)) == Word(x)
  {
    DifferenceBack(x, y);
    hide Difference;
  }

  lemma DifferenceBack(x: bv32, y: bv32)
    ensures Difference(x + y, y) == x
  {
  }

  lemma ListedAll(o: Opts, m: RegInfo, a: RegInfo, ls: seq<Line>)
    requires Sized(m) && Sized(a) && Lists(o, m, a, ls, 0, 70)
    ensures forall l :: l in ls <==> True(o, m, a, l)
    ensures forall i, j :: 0 <= i < j < |ls| ==> Rank(ls[i]) < Rank(ls[j])
  {
    forall l | True(o, m, a, l) ensures Rank(l) < 70 {
      TrueIsLine(o, m, a, l);
    }
  }
}
