/** The PowerPC register image, the options of the comparison, and its tolerance rules. */
module Reginfo {
  import opened Ieee

  /** A 32-bit register; the bits are boxed so that whole images compare as plain values. */
  datatype Word = Word(bits: bv32)

  function And(x: Word, y: Word): Word { Word(x.bits & y.bits) }

  function Difference(x: bv32, y: bv32): bv32 { x - y }

  function Minus(x: Word, y: Word): Word { Word(Difference(x.bits, y.bits)) }

  /** The instruction has the given bits under a mask. */
  predicate Is(insn: Word, mask: bv32, value: bv32) { insn.bits & mask == value }

  /** `struct reginfo` without vector registers, on a 32-bit target; the special registers, which
      the C struct keeps behind the 32 general ones in one array, are fields of their own. */
  datatype RegInfo = RegInfo(
    secondPrev: Word, prev: Word, faulting: Word, next: Word,
    gregs: seq<Word>, nip: Word, msr: Word, ctr: Word, lnk: Word, xer: Word, ccr: Word, mq: Word,
    fpregs: seq<Double>, fpscr: Word)

  ghost predicate Sized(r: RegInfo) { |r.gregs| == 32 && |r.fpregs| == 32 }

  /** The option words of the comparer. */
  datatype Opts = Opts(
    gregsMask: Word, ccrMask: Word, xerMask: Word, mqMask: Word, fpscrMask: Word, fpregsMask: Word,
    fpOpts: Word, cpuOpts: Word)

  /** The bit that stands for register `i` in a mask, and for bit `i` of a register counted from the
      left: one at the top, moved `i` places down. */
  function RegBit(i: nat): bv32 {
    if i == 0 then 0x8000_0000 else RegBit(i - 1) >> 1
  }

  predicate On(w: bv32, p: bv32) { w & p != 0 }

  /** Register `i` is selected by a mask whose first bit stands for register 0. */
  predicate Selected(mask: Word, i: nat)
    requires i < 32
  {
    On(mask.bits, RegBit(i))
  }

  predicate Has(opts: Word, bit: bv32) { opts.bits & bit != 0 }

  /** Bit set inclusion. */
  predicate Sub(a: bv32, b: bv32) { a & b == a }

  predicate Within(a: Word, b: Word) { Sub(a.bits, b.bits) }

  lemma WithinHas(a: Word, b: Word, bit: bv32)
    requires Within(a, b)
    ensures Has(a, bit) ==> Has(b, bit)
  {
  }

  lemma WithinSelected(a: Word, b: Word, i: nat)
    requires Within(a, b) && i < 32
    ensures Selected(a, i) ==> Selected(b, i)
  {
    WithinHas(a, b, RegBit(i));
  }

  lemma WithinMasked(a: Word, b: Word, x: Word, y: Word)
    requires Within(a, b) && And(x, b) == And(y, b)
    ensures And(x, a) == And(y, a)
  {
    hide Within, Sub, And;
    Nested(a, b, x);
    Nested(a, b, y);
  }

  lemma Nested(a: Word, b: Word, x: Word)
    requires Within(a, b)
    ensures And(And(x, b), a) == And(x, a)
  {
  }

  lemma AndWithin(x: Word, y: Word, k: Word)
    requires Within(x, y)
    ensures Within(And(x, k), And(y, k))
  {
  }

  lemma LessWithin(x: Word, y: Word, p: bv32)
    requires Within(x, y)
    ensures Within(Less(x, p), Less(y, p))
  {
  }

  lemma LessShrinks(x: Word, p: bv32)
    ensures Within(Less(x, p), x)
  {
    hide Cleared, Sub;
    ClearedSub(x.bits, p);
  }

  lemma ClearedSub(m: bv32, p: bv32)
    ensures Sub(Cleared(m, p), m)
  {
  }

  lemma WithinSelf(x: Word)
    ensures Within(x, x)
  {
  }

  // ---------------------------------------------------------------- instruction fields

  function Field(insn: Word, shift: bv32): (r: nat)
    requires shift <= 31
    ensures r < 32
  {
    (((insn.bits >> shift) & 31) as bv5) as nat
  }

  function RT(insn: Word): (r: nat)
    ensures r < 32
  {
    Field(insn, 21)
  }

  function RA(insn: Word): (r: nat)
    ensures r < 32
  {
    Field(insn, 16)
  }

  function RB(insn: Word): (r: nat)
    ensures r < 32
  {
    Field(insn, 11)
  }

  function RC(insn: Word): (r: nat)
    ensures r < 32
  {
    Field(insn, 6)
  }

  predicate IsSigill(r: RegInfo) { !Is(r.faulting, 0xFFFF_FFF0, 0x0000_5AF0) }

  // ---------------------------------------------------------------- integer rules

  function Signed(w: Word): int {
    var n := w.bits as int;
    if n >= 0x8000_0000 then n - 0x1_0000_0000 else n
  }

  /** Division as C does it, toward zero. */
  function Quotient(a: int, b: int): int
    requires b != 0
  {
    if a >= 0 then a / b else -((-a) / b)
  }

  /** What `((q >> 31) + 1) & ~1` leaves. */
  function HighPart(q: int): int {
    var h := q / 0x8000_0000 + 1;
    h - h % 2
  }

  predicate Overflows(a: int, b: int) { b == 0 || HighPart(Quotient(a, b)) != 0 }

  /** The bit test finds exactly the quotients that are no signed 32-bit numbers. */
  lemma OverflowMeans(a: int, b: int)
    requires b != 0
    ensures Overflows(a, b) <==> !(-0x8000_0000 <= Quotient(a, b) < 0x8000_0000)
  {
    hide Quotient;
    var q := Quotient(a, b);
    var h := q / 0x8000_0000 + 1;
    assert h - h % 2 == 0 <==> h == 0 || h == 1;
  }

  /** The result of `div` is undefined: an operand was overwritten, the divisor is zero, or the
      quotient of the 64-bit dividend does not fit. */
  predicate DivUndefined(m: RegInfo)
    requires Sized(m)
  {
    var rt, ra, rb := RT(m.prev), RA(m.prev), RB(m.prev);
    ra == rt || rb == rt || m.gregs[rb] == Word(0) ||
    Overflows(Signed(m.gregs[ra]) * 0x1_0000_0000 + m.mq.bits as int, Signed(m.gregs[rb]))
  }

  predicate DivsUndefined(m: RegInfo)
    requires Sized(m)
  {
    var rt, ra, rb := RT(m.prev), RA(m.prev), RB(m.prev);
    ra == rt || rb == rt || m.gregs[rb] == Word(0) ||
    Overflows(Signed(m.gregs[ra]), Signed(m.gregs[rb]))
  }

  /** The highest `k` bytes of a register, for one to three of them: a shift by 32 - 8k. */
  function TopBytes(x: bv32, k: bv32): bv32 { if k == 1 then x >> 24 else if k == 2 then x >> 16 else x >> 8 }

  predicate SameTop(x: bv32, y: bv32, k: bv32) { TopBytes(x ^ y, k) == 0 }

  /** How many bytes of its last register a string load fills, and which register that is, as the code
      computes them from the instruction and the length in XER. */
  function Rest(xer: bv32): bv32 { xer & 3 }

  function LastRegister(insn: bv32, xer: bv32): nat {
    ((((insn >> 21) + ((xer & 0x7F) - 1) / 4) & 31) as bv5) as nat
  }

  /** A difference in general register `i` that the last instructions explain; `x` is the
      apprentice's value, `nip` its program counter. */
  predicate GregExcused(m: RegInfo, i: nat, x: Word, nip: Word)
    requires Sized(m) && i < 32
  {
    || (Is(m.prev, 0xFC1F_FFFF, 0x7C08_02A6) && RT(m.prev) == i && Minus(m.gregs[i], m.nip) == Minus(x, nip))
    || (Is(m.prev, 0xFC00_03FE, 0x7C00_0296) && RT(m.prev) == i && DivUndefined(m))
    || (Is(m.prev, 0xFC00_03FE, 0x7C00_02D6) && RT(m.prev) == i && DivsUndefined(m))
    || (&& Is(m.secondPrev, 0xFC00_07FE, 0x7C00_022A)
        && Rest(m.xer.bits) != 0
        && i == LastRegister(m.secondPrev.bits, m.xer.bits)
        && SameTop(m.gregs[i].bits, x.bits, Rest(m.xer.bits)))
  }

  /** The general registers to compare: the target of an `addi` or `subf` that follows an
      illegal instruction is left out. */
  function LocalMask(o: Opts, a: RegInfo): Word {
    if IsSigill(a) && (Is(a.next, 0xFC00_0000, 0x3800_0000) || Is(a.next, 0xFC00_07FF, 0x7C00_0050))
    then Less(o.gregsMask, RegBit(RT(a.next)))
    else o.gregsMask
  }

  function Cleared(m: bv32, p: bv32): bv32 { m & !p }

  /** A mask without one bit. */
  function Less(mask: Word, p: bv32): Word { Word(Cleared(mask.bits, p)) }

  /** The condition-register bits to compare. */
  function CcrBits(o: Opts, m: RegInfo): Word
    requires Sized(m)
  {
    if Is(m.prev, 0xFC60_07BF, 0xFC00_0000) then FcmpMask(o.ccrMask, CrField(m.prev, 21))
    else if Is(m.prev, 0xFC63_FFFF, 0xFC00_0080) then
      McrfsMask(o.ccrMask, o.fpscrMask, CrField(m.prev, 21), CrField(m.prev, 16))
    else if Is(m.prev, 0xFC00_03FF, 0x7C00_0297) && DivUndefined(m) then And(o.ccrMask, Word(0x1FFF_FFFF))
    else o.ccrMask
  }

  /** The offset of one of the eight four-bit fields of a register. */
  predicate FieldOffset(k: bv32) {
    k == 0 || k == 4 || k == 8 || k == 12 || k == 16 || k == 20 || k == 24 || k == 28
  }

  lemma FieldBits(w: bv32)
    ensures FieldOffset(w & 0x1C)
  {
  }

  /** The bit offset of a four-bit field named by an instruction. */
  function CrField(insn: Word, shift: bv32): (r: bv32)
    requires shift <= 31
    ensures FieldOffset(r)
  {
    var w := insn.bits >> shift;
    FieldBits(w);
    w & 0x1C
  }

  /** The mask `ccr` with the field at `to` replaced by `field`, and cut back to `ccr`. */
  function WithField(ccr: bv32, field: bv32, to: bv32): bv32
    requires FieldOffset(to)
  {
    ((ccr & !(15 << (28 - to))) | field) & ccr
  }

  /** The field of `w` at `from`, moved to `to`. */
  function Moved(w: bv32, from: bv32, to: bv32): bv32
    requires FieldOffset(from) && FieldOffset(to)
  {
    Up(Down(w, 28 - from), 28 - to)
  }

  /** The four bits of `w` at `k`, at constant distances. */
  function Down(w: bv32, k: bv32): bv32
    requires FieldOffset(k)
  {
    if k == 0 then (w >> 0) & 15
    else if k == 4 then (w >> 4) & 15
    else if k == 8 then (w >> 8) & 15
    else if k == 12 then (w >> 12) & 15
    else if k == 16 then (w >> 16) & 15
    else if k == 20 then (w >> 20) & 15
    else if k == 24 then (w >> 24) & 15
    else (w >> 28) & 15
  }

  /** `x` at `k`. */
  function Up(x: bv32, k: bv32): bv32
    requires FieldOffset(k)
  {
    if k == 0 then x << 0
    else if k == 4 then x << 4
    else if k == 8 then x << 8
    else if k == 12 then x << 12
    else if k == 16 then x << 16
    else if k == 20 then x << 20
    else if k == 24 then x << 24
    else x << 28
  }

  /** A floating compare into field `crf` is masked like field 1. */
  function FcmpMask(ccr: Word, crf: bv32): Word
    requires FieldOffset(crf)
  {
    McrfsMask(ccr, ccr, crf, 4)
  }

  /** A copy of FPSCR field `bfa` into field `bf` is masked like its source. */
  function McrfsMask(ccr: Word, fpscr: Word, bf: bv32, bfa: bv32): Word
    requires FieldOffset(bf) && FieldOffset(bfa)
  {
    Word(WithField(ccr.bits, Moved(fpscr.bits, bfa, bf), bf))
  }

  lemma MovedMonotone(w: bv32, w': bv32, from: bv32, to: bv32)
    requires FieldOffset(from) && FieldOffset(to) && Sub(w', w)
    ensures Sub(Moved(w', from, to), Moved(w, from, to))
  {
    hide Sub, Up, Down;
    DownMonotone(w, w', 28 - from);
    UpMonotone(Down(w, 28 - from), Down(w', 28 - from), 28 - to);
  }

  lemma DownMonotone(x: bv32, x': bv32, k: bv32)
    requires Sub(x', x) && FieldOffset(k)
    ensures Sub(Down(x', k), Down(x, k))
  {
  }

  lemma UpMonotone(x: bv32, x': bv32, k: bv32)
    requires Sub(x', x) && FieldOffset(k)
    ensures Sub(Up(x', k), Up(x, k))
  {
  }

  lemma WithFieldMonotone(c: bv32, c': bv32, f: bv32, f': bv32, to: bv32)
    requires FieldOffset(to) && Sub(c', c) && Sub(f', f)
    ensures Sub(WithField(c', f', to), WithField(c, f, to))
  {
    MergeMonotone(c, c', f, f', !(15 << (28 - to)));
  }

  lemma MergeMonotone(c: bv32, c': bv32, f: bv32, f': bv32, keep: bv32)
    requires c' & c == c' && f' & f == f'
    ensures (((c' & keep) | f') & c') & (((c & keep) | f) & c) == ((c' & keep) | f') & c'
  {
  }

  lemma FcmpMaskMonotone(c: Word, c': Word, crf: bv32)
    requires FieldOffset(crf) && Within(c', c)
    ensures Within(FcmpMask(c', crf), FcmpMask(c, crf))
  {
    hide McrfsMask, Within;
    McrfsMaskMonotone(c, c', c, c', crf, 4);
  }

  lemma McrfsMaskMonotone(c: Word, c': Word, f: Word, f': Word, bf: bv32, bfa: bv32)
    requires FieldOffset(bf) && FieldOffset(bfa) && Within(c', c) && Within(f', f)
    ensures Within(McrfsMask(c', f', bf, bfa), McrfsMask(c, f, bf, bfa))
  {
    hide Moved, WithField, Sub;
    MovedMonotone(f.bits, f'.bits, bfa, bf);
    WithFieldMonotone(c.bits, c'.bits, Moved(f.bits, bfa, bf), Moved(f'.bits, bfa, bf), bf);
  }

  const USE_601 := 0x2 as bv32

  /** The quotient register may differ after these instructions, or at the first checkpoint. */
  predicate MqExcused(o: Opts, m: RegInfo, signals: nat)
    requires Sized(m)
  {
    || (Is(m.prev, 0xFC00_03FE, 0x7C00_0296) && DivUndefined(m))
    || (Has(o.cpuOpts, USE_601) &&
        (|| Is(m.prev, 0xFC00_0000, 0x1C00_0000)
         || Is(m.prev, 0xFC00_03FE, 0x7C00_01D6)
         || Is(m.prev, 0xFC00_07FE, 0x7C00_0096)
         || Is(m.prev, 0xFC00_07FE, 0x7C00_0016)
         || Is(m.prev, 0xFC00_03FE, 0x7C00_03D6)
         || Is(m.prev, 0xFC00_03FE, 0x7C00_0396)))
    || signals <= 1
  }
}
