/** The tolerances of the floating-point comparison, one rule for each clause of the code. */
module FpRules {
  import opened Ieee
  import opened Reginfo

  /** What a rule looks at: the master's image, the apprentice's floating registers as they stand,
      and the register in question. */
  datatype Case = Case(m: RegInfo, af: seq<Double>, i: nat) {
    /** The last instruction and its register fields. */
    function P(): Word { m.prev }
    function Ra(): nat { RA(m.prev) }
    function Rb(): nat { RB(m.prev) }
    function Rc(): nat { RC(m.prev) }
    /** The register on the apprentice and on the master. */
    function X(): Double { A(i) }
    function Y(): Double { M(i) }
    function A(r: nat): Double { if r < |af| then af[r] else 0 }
    function M(r: nat): Double { if r < |m.fpregs| then m.fpregs[r] else 0 }
    function ExpX(): int { ExponentOf(X()) }
    function ExpY(): int { ExponentOf(Y()) }
    /** The exponent of a master's register. */
    function Exp(r: nat): int { ExponentOf(M(r)) }
    predicate NotA() { Ra() != i }
    predicate NotB() { Rb() != i }
    predicate NotC() { Rc() != i }
    predicate SameSign() { Negative(X()) == Negative(Y()) }
  }

  /** Which register a rule can excuse: any, the target of the last instruction, or the target of
      the one before. */
  datatype Where = Anywhere | LastTarget | LoadTarget

  /** An option bit, a place, and a test. */
  datatype FpRule = FpRule(bit: bv32, where: Where, test: Case -> bool)

  predicate Applies(rule: FpRule, c: Case) {
    && (rule.where.LastTarget? ==> RT(c.m.prev) == c.i)
    && (rule.where.LoadTarget? ==> RT(c.m.secondPrev) == c.i)
    && rule.test(c)
  }

  predicate FpExcused(o: Opts, rules: seq<FpRule>, m: RegInfo, af: seq<Double>, i: nat)
    requires i < 32
  {
    !Selected(o.fpregsMask, i) ||
    exists k :: 0 <= k < |rules| && Has(o.fpOpts, rules[k].bit) && Applies(rules[k], Case(m, af, i))
  }

  // ---------------------------------------------------------------- instructions

  predicate XForm(insn: Word, code: bv32) { Is(insn, 0xFC00_07FE, code) }
  predicate AForm(insn: Word, code: bv32) { Is(insn, 0xFC00_003E, code) }
  predicate Unary(insn: Word, code: bv32) { Is(insn, 0xFC1F_07FE, code) }
  predicate Product(insn: Word, code: bv32) { Is(insn, 0xFC00_F83E, code) }

  predicate Fadd(p: Word) { XForm(p, 0xFC00_002A) }
  predicate Fadds(p: Word) { XForm(p, 0xEC00_002A) }
  predicate Fsub(p: Word) { XForm(p, 0xFC00_0028) }
  predicate Fsubs(p: Word) { XForm(p, 0xEC00_0028) }
  predicate Fdiv(p: Word) { XForm(p, 0xFC00_0024) }
  predicate Fdivs(p: Word) { XForm(p, 0xEC00_0024) }
  predicate Fmul(p: Word) { Product(p, 0xFC00_0032) }
  predicate Fmuls(p: Word) { Product(p, 0xEC00_0032) }
  predicate Frsp(p: Word) { Unary(p, 0xFC00_0018) }
  predicate Frsqrte(p: Word) { Unary(p, 0xFC00_0034) }
  predicate Fres(p: Word) { Unary(p, 0xEC00_0030) }
  predicate Fmadd(p: Word) { AForm(p, 0xFC00_003A) }
  predicate Fmsub(p: Word) { AForm(p, 0xFC00_0038) }
  predicate Fnmadd(p: Word) { AForm(p, 0xFC00_003E) }
  predicate Fnmsub(p: Word) { AForm(p, 0xFC00_003C) }
  predicate Fmadds(p: Word) { AForm(p, 0xEC00_003A) }
  predicate Fmsubs(p: Word) { AForm(p, 0xEC00_0038) }
  predicate Fnmadds(p: Word) { AForm(p, 0xEC00_003E) }
  predicate Fnmsubs(p: Word) { AForm(p, 0xEC00_003C) }

  predicate Fused(p: Word) { Fmadd(p) || Fmsub(p) || Fnmadd(p) || Fnmsub(p) }
  predicate FusedSingle(p: Word) { Fmadds(p) || Fmsubs(p) || Fnmadds(p) || Fnmsubs(p) }
  predicate AnyFused(p: Word) { Fused(p) || FusedSingle(p) }
  predicate SumSingle(p: Word) { Fadds(p) || Fsubs(p) }
  predicate Multiplies(p: Word) { Fmul(p) || Fused(p) }
  predicate MultipliesSingle(p: Word) { Fmuls(p) || FusedSingle(p) }
  predicate Double64(p: Word) { Fused(p) || Fsub(p) || Fmul(p) || Fdiv(p) || Fadd(p) }
  predicate Rounded(p: Word) { MultipliesSingle(p) || Fdivs(p) || SumSingle(p) || Frsp(p) }

  // ---------------------------------------------------------------- NaNs, infinities and zeros

  predicate QNanSigns(c: Case) { AnyQNan(c.X()) && AnyQNan(c.Y()) && Magnitude(c.X()) == Magnitude(c.Y()) }
  predicate QNanValues(c: Case) { NegAnyQNan(c.X()) && NegAnyQNan(c.Y()) }
  predicate QNanDiffs(c: Case) { AnyQNan(c.X()) && AnyQNan(c.Y()) }

  /** The quiet bit of a NaN. */
  function Bit51(n: Double): int { (n / 0x8_0000_0000_0000) % 2 }

  predicate QNanLoadFloat(c: Case) {
    var p := c.m.secondPrev;
    && (|| Is(p, 0xFC00_07FE, 0x7C00_046E) || Is(p, 0xFC00_0000, 0xC400_0000)
        || Is(p, 0xFC00_07FF, 0x7C00_042E) || Is(p, 0xFC00_0000, 0xC000_0000))
    && Bit51(c.Y()) == 0 && c.X() - Bit51(c.X()) * 0x8_0000_0000_0000 == c.Y()
  }

  predicate NanBinary(c: Case) {
    var p := c.P();
    && (Fadd(p) || Fadds(p) || Fdiv(p) || Fdivs(p) || Fsub(p) || Fsubs(p)) && c.NotA() && c.NotB()
    && (IsNan(c.M(c.Ra())) || IsNan(c.M(c.Rb())))
  }

  predicate NanUnary(c: Case) { (Frsqrte(c.P()) || Frsp(c.P())) && c.NotB() && IsNan(c.M(c.Rb())) }

  predicate NanProduct(c: Case) {
    (Fmul(c.P()) || Fmuls(c.P())) && c.NotA() && c.NotC() && (IsNan(c.M(c.Ra())) || IsNan(c.M(c.Rc())))
  }

  predicate NanFused(c: Case) {
    && AnyFused(c.P()) && c.NotA() && c.NotB() && c.NotC()
    && (IsNan(c.M(c.Ra())) || IsNan(c.M(c.Rb())) || IsNan(c.M(c.Rc())))
  }

  predicate BothInfinite(c: Case) { c.NotA() && c.NotB() && Infinite(c.M(c.Ra())) && Infinite(c.M(c.Rb())) }

  predicate OppositeSum(c: Case) {
    (Fadd(c.P()) || Fadds(c.P())) && BothInfinite(c) && Negative(c.M(c.Ra())) != Negative(c.M(c.Rb()))
  }

  predicate OppositeDifference(c: Case) {
    (Fsub(c.P()) || Fsubs(c.P())) && BothInfinite(c) && Negative(c.M(c.Ra())) == Negative(c.M(c.Rb()))
  }

  predicate OppositeFused(c: Case) {
    var p, product := c.P(), Negative(c.M(c.Ra())) != Negative(c.M(c.Rc()));
    && c.NotA() && c.NotB() && c.NotC() && c.Exp(c.Ra()) + c.Exp(c.Rc()) >= 2048 && Infinite(c.M(c.Rb()))
    && (|| ((Fmsub(p) || Fmsubs(p) || Fnmsub(p) || Fnmsubs(p)) && product == Negative(c.M(c.Rb())))
        || ((Fmadd(p) || Fnmadd(p) || Fmadds(p) || Fnmadds(p)) && product != Negative(c.M(c.Rb()))))
  }

  predicate InfTimesZero(c: Case) {
    && (Multiplies(c.P()) || MultipliesSingle(c.P())) && c.NotA() && c.NotC()
    && ((Infinite(c.M(c.Ra())) && Zero(c.M(c.Rc()))) || (Zero(c.M(c.Ra())) && Infinite(c.M(c.Rc()))))
  }

  predicate DivideByZero(c: Case) {
    (Fdivs(c.P()) || Fdiv(c.P()) || Fres(c.P())) && c.NotB() && Zero(c.M(c.Rb()))
  }

  // ---------------------------------------------------------------- underflow

  /** The smallest normal and the largest finite single. */
  const FLT_MIN := 0x3810_0000_0000_0000
  const FLT_MAX := 0x47EF_FFFF_E000_0000

  predicate UnderflowSingle(c: Case) {
    var p := c.P();
    && (Frsp(p) || MultipliesSingle(p) || Fdivs(p) || SumSingle(p) || Fres(p))
    && Magnitude(c.Y()) < FLT_MIN && c.SameSign() && c.ExpX() < -126
  }

  predicate UnderflowProductSingle(c: Case) {
    && MultipliesSingle(c.P()) && c.SameSign() && c.ExpX() < -126
    && (c.NotA() && c.NotC() ==> c.Exp(c.Ra()) + c.Exp(c.Rc()) < -126)
  }

  predicate UnderflowQuotientSingle(c: Case) {
    && Fdivs(c.P()) && c.SameSign() && c.ExpX() < -126
    && (c.NotA() && c.NotB() ==> c.Exp(c.Ra()) - c.Exp(c.Rb()) <= -126)
  }

  predicate UnderflowRound(c: Case) {
    Frsp(c.P()) && c.NotB() && c.SameSign() && c.ExpX() < -126 && c.Exp(c.Rb()) < -126
  }

  predicate UnderflowRoundSelf(c: Case) {
    Frsp(c.P()) && !c.NotB() && c.SameSign() && c.ExpX() < -126 && c.ExpY() < -126 + 192
  }

  predicate UnderflowToZero(c: Case) {
    var p := c.P();
    && (Fmadd(p) || Fnmadd(p) || Fnmsub(p) || Fsub(p) || Fadd(p))
    && c.Y() == SignedZero(c.X()) && c.ExpX() < -1022
  }

  predicate UnderflowToZeroSingle(c: Case) {
    SumSingle(c.P()) && c.Y() == SignedZero(c.X()) && c.ExpX() < -126
  }

  predicate UnderflowTinySum(c: Case) {
    && SumSingle(c.P()) && c.SameSign() && c.ExpX() < -126
    && (c.NotA() ==> c.Exp(c.Ra()) < -126) && (c.NotB() ==> c.Exp(c.Rb()) < -126)
  }

  predicate UnderflowShiftedSum(c: Case) {
    && SumSingle(c.P()) && c.SameSign() && c.ExpX() < -126
    && -1 <= c.ExpY() - c.ExpX() - 192 <= 1
  }

  predicate UnderflowProduct(c: Case) {
    && Multiplies(c.P()) && c.NotA() && c.NotC() && c.ExpX() < -126
    && c.Exp(c.Ra()) + c.Exp(c.Rc()) < -1022
  }

  predicate UnderflowProductZero(c: Case) {
    && Multiplies(c.P()) && c.NotA() && c.NotC() && c.Y() == SignedZero(c.X()) && Denormal(c.X())
    && c.Exp(c.Ra()) + c.Exp(c.Rc()) < -1022
  }

  predicate UnderflowSquare(c: Case) {
    Fmul(c.P()) && !(c.NotA() && c.NotC()) && c.ExpX() < -126 && c.Exp(c.Ra()) < 0x200
  }

  predicate UnderflowQuotient(c: Case) {
    && Fdiv(c.P()) && c.NotA() && c.NotB() && c.SameSign() && Denormal(c.X())
    && c.Exp(c.Ra()) - c.Exp(c.Rb()) < -1022
  }

  predicate UnderflowQuotientZero(c: Case) {
    && Fdiv(c.P()) && c.NotA() && c.NotB() && c.X() == SignedZero(c.Y())
    && c.Exp(c.Ra()) - c.Exp(c.Rb()) < -1022
  }

  predicate UnderflowDivideSelf(c: Case) {
    Fdiv(c.P()) && c.NotA() && !c.NotB() && c.X() == SignedZero(c.Y()) && ExponentOf(c.A(c.Ra())) < -126
  }

  predicate UnderflowSelfDivide(c: Case) {
    Fdiv(c.P()) && !c.NotA() && c.NotB() && c.X() == SignedZero(c.Y())
  }

  predicate UnderflowAdjustedSelf(c: Case) {
    Fdiv(c.P()) && !(c.NotA() && c.NotB()) && c.ExpX() < -1022 && c.ExpY() < -1022 + 1536
  }

  predicate UnderflowSingleZero(c: Case) {
    && Fdivs(c.P()) && c.NotA() && c.NotB() && c.X() == SignedZero(c.Y())
    && c.Exp(c.Ra()) - c.Exp(c.Rb()) < -126
  }

  predicate UnderflowSingleFromZero(c: Case) {
    && Fdivs(c.P()) && c.NotA() && c.NotB() && c.Y() == SignedZero(c.X())
    && c.Exp(c.Ra()) - c.Exp(c.Rb()) < -126
  }

  predicate UnderflowSingleDivideSelf(c: Case) {
    Fdivs(c.P()) && c.NotA() && !c.NotB() && c.X() == SignedZero(c.Y()) && Denormal(c.A(c.Ra()))
  }

  predicate UnderflowSingleSelfDivide(c: Case) {
    Fdivs(c.P()) && c.NotB() && !c.NotA() && c.X() == SignedZero(c.Y())
  }

  predicate UnderflowReciprocal(c: Case) {
    Fres(c.P()) && c.ExpX() < -126 && (c.NotB() ==> c.Exp(c.Rb()) >= 126)
  }

  predicate UnderflowReciprocalSelf(c: Case) {
    Fres(c.P()) && !c.NotB() && c.ExpX() < -126 && c.ExpY() == c.ExpX() + 192
  }

  /** The master shows the denormal rescaled by the underflow adjustment. */
  predicate UnderflowAdjusted(c: Case) {
    Double64(c.P()) && c.SameSign() && Denormal(c.X()) && Near(NormalizeOf(c.X()), c.Y(), 0x20000)
  }

  predicate UnderflowMsub(c: Case) { Fmsub(c.P()) && c.Y() == SignedZero(c.X()) && Denormal(c.X()) }

  predicate UnderflowAddSelf(c: Case) {
    Fadd(c.P()) && !(c.NotA() && c.NotB()) && c.Y() == SignedZero(c.X()) && Denormal(c.X())
  }

  predicate UnderflowMantissa(c: Case) {
    && (Fnmsubs(c.P()) || SumSingle(c.P())) && c.ExpX() < -126 && c.ExpY() == c.ExpX() + 192
    && Near(Mantissa(c.X()), Mantissa(c.Y()), 0x2000_0000)
  }

  predicate UnderflowZeroProduct(c: Case) {
    && Fmadds(c.P()) && c.NotA() && c.NotC() && c.NotB()
    && (|| (Zero(c.M(c.Ra())) && Denormal(c.M(c.Rc())))
        || (Zero(c.M(c.Rc())) && Denormal(c.M(c.Ra()))))
    && Zero(c.Y()) && c.X() == c.M(c.Rb())
  }

  /** Reads the apprentice's other operands, which may have been rewritten already. */
  predicate UnderflowTinyOperands(c: Case) {
    && FusedSingle(c.P())
    && (c.NotA() ==> ExponentOf(c.A(c.Ra())) < -126)
    && (c.NotB() ==> ExponentOf(c.A(c.Rb())) < -126)
    && (c.NotC() ==> ExponentOf(c.A(c.Rc())) < -126)
  }

  // ---------------------------------------------------------------- overflow

  predicate ToInfinity(c: Case) { c.X() == SignedInfinity(c.Y()) }

  predicate OverflowQNan(c: Case) {
    AnyFused(c.P()) && Infinite(c.Y()) && IsQNan(c.X()) && !(c.NotA() && c.NotB() && c.NotC())
  }

  predicate OverflowSingle(c: Case) {
    var p := c.P();
    && (FusedSingle(p) || Fdivs(p) || Fadds(p) || Fmuls(p) || Fres(p) || Fsubs(p))
    && (Infinite(c.Y()) || (Magnitude(c.Y()) >= FLT_MAX && !IsNan(c.Y()))) && c.ExpX() > 126
  }

  predicate OverflowLargeOperand(c: Case) {
    && (SumSingle(c.P()) || MultipliesSingle(c.P())) && ToInfinity(c)
    && (|| (&& c.NotA() && c.NotB() && Denormal(c.A(c.Rb())) && c.Exp(c.Ra()) > 126
            && c.ExpY() == ExponentOf(c.A(c.Ra())) - 192
            && Near(Mantissa(c.A(c.Ra())), Mantissa(c.Y()), 0x2000_0000))
        || (c.NotA() && c.Exp(c.Ra()) > 126) || (c.NotB() && c.Exp(c.Rb()) > 126)
        || (Infinite(c.X()) && !(c.NotA() && c.NotB())))
  }

  predicate OverflowProductSingle(c: Case) {
    && MultipliesSingle(c.P()) && c.NotA() && c.NotC() && ToInfinity(c)
    && c.Exp(c.Ra()) + c.Exp(c.Rc()) >= 126
  }

  predicate OverflowAddend(c: Case) {
    FusedSingle(c.P()) && c.NotB() && c.SameSign() && c.ExpX() >= 126 && c.Exp(c.Rb()) >= 126
  }

  predicate OverflowProduct(c: Case) {
    && Multiplies(c.P()) && c.NotA() && c.NotC() && ToInfinity(c)
    && c.Exp(c.Ra()) + c.Exp(c.Rc()) >= 1023
  }

  predicate OverflowFusedSelf(c: Case) { Fused(c.P()) && ToInfinity(c) && !(c.NotB() && c.NotA()) }

  predicate OverflowNmadd(c: Case) {
    Fnmadd(c.P()) && c.NotA() && !c.NotC() && ToInfinity(c) && c.Exp(c.Ra()) > 0
  }

  predicate OverflowQuotient(c: Case) {
    && Fdiv(c.P()) && c.NotA() && c.NotB() && ToInfinity(c)
    && c.Exp(c.Ra()) - c.Exp(c.Rb()) >= 1023
  }

  predicate OverflowDivideSelf(c: Case) { Fdiv(c.P()) && !(c.NotB() && c.NotA()) && ToInfinity(c) }

  predicate OverflowQuotientSingle(c: Case) {
    && Fdivs(c.P()) && c.NotA() && c.NotB() && ToInfinity(c)
    && c.Exp(c.Ra()) - c.Exp(c.Rb()) >= 126
  }

  predicate OverflowReciprocal(c: Case) {
    Fres(c.P()) && ToInfinity(c) && (c.NotB() ==> -c.Exp(c.Rb()) >= 126)
  }

  predicate OverflowRound(c: Case) { Frsp(c.P()) && c.NotB() && ToInfinity(c) && c.Exp(c.Rb()) >= 126 }

  predicate OverflowRoundSelf(c: Case) { Frsp(c.P()) && !c.NotB() && ToInfinity(c) && Infinite(c.X()) }

  // ---------------------------------------------------------------- rounding

  predicate NeitherQuiet(c: Case) { !AnyQNan(c.X()) && !AnyQNan(c.Y()) }

  predicate RoundDouble(c: Case) { Double64(c.P()) && NeitherQuiet(c) && Near(c.X(), c.Y(), 1) }

  predicate RoundEstimate(c: Case) {
    (Frsqrte(c.P()) || Fres(c.P())) && NeitherQuiet(c) && Near(c.X(), c.Y(), 0x8000_0000_0000)
  }

  predicate RoundSingle(c: Case) {
    Rounded(c.P()) && NeitherQuiet(c) && NearUnsigned(c.X(), c.Y(), 0x8_0000_0000)
  }

  predicate RoundTinySingle(c: Case) {
    && Rounded(c.P()) && NeitherQuiet(c) && c.ExpX() < -126 && c.ExpY() < -126
    && NearUnsigned(c.X(), c.Y(), 0x8000_0000_0000)
  }

  predicate RoundTinyOperands(c: Case) {
    && SumSingle(c.P()) && c.NotA() && c.NotB() && NeitherQuiet(c) && c.ExpY() < -126 && c.ExpX() < -126
    && ExponentOf(c.A(c.Ra())) < -126 && c.Exp(c.Rb()) < -126
  }

  // ---------------------------------------------------------------- the rest

  predicate RsqrtNegative(c: Case) {
    Frsqrte(c.P()) && IsQNan(c.X()) && (c.NotB() ==> Negative(c.M(c.Rb())))
  }

  predicate RsqrtNegativeZero(c: Case) {
    Frsqrte(c.P()) && c.NotB() && c.M(c.Rb()) == P63 && c.X() == P63 + INFINITY
  }

  predicate RsqrtZero(c: Case) { Frsqrte(c.P()) && c.NotB() && c.M(c.Rb()) == 0 && c.X() == INFINITY }

  predicate QNanFromInf(c: Case) {
    && (Multiplies(c.P()) || Fnmadds(c.P())) && IsQNan(c.X())
    && ((c.NotA() && Infinite(c.A(c.Ra()))) || (c.NotC() && Infinite(c.A(c.Rc()))))
  }

  predicate QNanFromUnknown(c: Case) { Fdiv(c.P()) && IsQNan(c.X()) && !(c.NotA() && c.NotB()) }

  predicate InfFromEstimate(c: Case) { (Frsqrte(c.P()) || Fres(c.P())) && Infinite(c.X()) && !c.NotB() }

  predicate InfFromDivide(c: Case) { Fdivs(c.P()) && Infinite(c.X()) && !(c.NotA() && c.NotB()) }

  predicate InfFromProduct(c: Case) {
    (Multiplies(c.P()) || MultipliesSingle(c.P())) && Infinite(c.X()) && !(c.NotA() && c.NotC())
  }

  predicate ZeroSigns(c: Case) { Zero(c.X()) && Zero(c.Y()) }

  predicate InfDivInf(c: Case) {
    (Fdiv(c.P()) || Fdivs(c.P())) && Infinite(c.A(c.Ra())) && Infinite(c.A(c.Rb()))
  }

  predicate QNanSNan(c: Case) { Fdiv(c.P()) && IsNan(c.X()) && IsNan(c.Y()) }

  predicate NanUnknownOperands(c: Case) {
    AnyFused(c.P()) && IsNan(c.X()) && !(c.NotA() && c.NotB() && c.NotC())
  }

  // ---------------------------------------------------------------- the list

  predicate AllOnTarget(rules: seq<FpRule>) {
    forall k :: 0 <= k < |rules| ==> rules[k].where.LastTarget?
  }

  /** Rules of one option for the target of the last instruction. */
  function OnTarget(bit: bv32, tests: seq<Case -> bool>): (rules: seq<FpRule>)
    ensures |rules| == |tests|
    ensures forall k :: 0 <= k < |rules| ==> rules[k] == FpRule(bit, LastTarget, tests[k])
  {
    if tests == [] then [] else [FpRule(bit, LastTarget, tests[0])] + OnTarget(bit, tests[1..])
  }

  function ValueRules(): seq<FpRule> {
    [ FpRule(0x0000_0001, Anywhere, QNanSigns), FpRule(0x0000_0002, Anywhere, QNanValues),
      FpRule(0x0000_0004, Anywhere, QNanDiffs), FpRule(0x0004_0000, Anywhere, ZeroSigns),
      FpRule(0x0000_0008, LoadTarget, QNanLoadFloat) ]
  }

  function UnderflowRules(): (rules: seq<FpRule>)
    ensures AllOnTarget(rules)
  {
    OnTarget(0x0000_0100, [UnderflowSingle, UnderflowProductSingle, UnderflowQuotientSingle, UnderflowRound])
    + OnTarget(0x0000_0100, [UnderflowRoundSelf, UnderflowToZero, UnderflowToZeroSingle, UnderflowTinySum])
    + OnTarget(0x0000_0100, [UnderflowShiftedSum, UnderflowProduct, UnderflowProductZero, UnderflowSquare])
    + OnTarget(0x0000_0100, [UnderflowQuotient, UnderflowQuotientZero, UnderflowDivideSelf, UnderflowSelfDivide])
    + OnTarget(0x0000_0100,
        [UnderflowAdjustedSelf, UnderflowSingleZero, UnderflowSingleFromZero, UnderflowSingleDivideSelf])
    + OnTarget(0x0000_0100,
        [UnderflowSingleSelfDivide, UnderflowReciprocal, UnderflowReciprocalSelf, UnderflowAdjusted])
    + OnTarget(0x0000_0100, [UnderflowMsub, UnderflowAddSelf, UnderflowMantissa, UnderflowZeroProduct])
    + OnTarget(0x0000_0100, [UnderflowTinyOperands])
  }

  function OverflowRules(): (rules: seq<FpRule>)
    ensures AllOnTarget(rules)
  {
    OnTarget(0x0000_0200, [OverflowQNan, OverflowSingle, OverflowLargeOperand, OverflowProductSingle])
    + OnTarget(0x0000_0200, [OverflowAddend, OverflowProduct, OverflowFusedSelf, OverflowNmadd])
    + OnTarget(0x0000_0200, [OverflowQuotient, OverflowDivideSelf, OverflowQuotientSingle, OverflowReciprocal])
    + OnTarget(0x0000_0200, [OverflowRound, OverflowRoundSelf])
  }

  function OperandRules(): (rules: seq<FpRule>)
    ensures AllOnTarget(rules)
  {
    OnTarget(0x0000_0010, [NanBinary, NanUnary, NanProduct, NanFused])
    + OnTarget(0x0000_0020, [OppositeSum, OppositeDifference, OppositeFused])
    + OnTarget(0x0000_0040, [InfTimesZero]) + OnTarget(0x0000_0080, [DivideByZero])
  }

  function ResultRules(): (rules: seq<FpRule>)
    ensures AllOnTarget(rules)
  {
    OnTarget(0x0000_0400, [RoundDouble, RoundEstimate])
    + OnTarget(0x0000_0800, [RoundSingle, RoundTinySingle, RoundTinyOperands])
    + OnTarget(0x0000_1000, [RsqrtNegative]) + OnTarget(0x0000_2000, [RsqrtNegativeZero])
    + OnTarget(0x0000_4000, [RsqrtZero]) + OnTarget(0x0000_8000, [QNanFromInf])
    + OnTarget(0x0001_0000, [QNanFromUnknown])
    + OnTarget(0x0002_0000, [InfFromEstimate, InfFromDivide, InfFromProduct])
    + OnTarget(0x0008_0000, [InfDivInf]) + OnTarget(0x0010_0000, [QNanSNan])
    + OnTarget(0x0020_0000, [NanUnknownOperands])
  }

  /** Every rule of the comparison. */
  function PpcRules(): seq<FpRule> { ValueRules() + TargetRules() }

  function TargetRules(): (rules: seq<FpRule>)
    ensures AllOnTarget(rules)
  {
    OperandRules() + UnderflowRules() + OverflowRules() + ResultRules()
  }
}
