/** What each option of the floating-point comparison excuses, and the instructions it speaks of by
    their opcodes. */
module FpOptions {
  import opened Ieee
  import opened Reginfo
  import opened FpRules

  // ---------------------------------------------------------------- instructions by opcode

  /** Primary opcode and the ten bits behind the operands. */
  predicate Op10(w: bv32, primary: bv32, extended: bv32) { w >> 26 == primary && (w >> 1) & 0x3FF == extended }

  /** Primary opcode and the five bits of instructions with four operands. */
  predicate Op5(w: bv32, primary: bv32, extended: bv32) { w >> 26 == primary && (w >> 1) & 0x1F == extended }

  lemma AddForms(p: Word)
    ensures Fadd(p) <==> Op10(p.bits, 63, 21)
    ensures Fadds(p) <==> Op10(p.bits, 59, 21)
  {
  }

  lemma SubForms(p: Word)
    ensures Fsub(p) <==> Op10(p.bits, 63, 20)
    ensures Fsubs(p) <==> Op10(p.bits, 59, 20)
  {
  }

  lemma DivForms(p: Word)
    ensures Fdiv(p) <==> Op10(p.bits, 63, 18)
    ensures Fdivs(p) <==> Op10(p.bits, 59, 18)
  {
  }

  lemma ProductForms(p: Word)
    ensures Fmul(p) <==> Op5(p.bits, 63, 25) && RB(p) == 0
    ensures Fmuls(p) <==> Op5(p.bits, 59, 25) && RB(p) == 0
  {
  }

  lemma RoundForms(p: Word)
    ensures Frsp(p) <==> Op10(p.bits, 63, 12) && RA(p) == 0
  {
  }

  lemma EstimateForms(p: Word)
    ensures Frsqrte(p) <==> Op10(p.bits, 63, 26) && RA(p) == 0
    ensures Fres(p) <==> Op10(p.bits, 59, 24) && RA(p) == 0
  {
  }

  lemma FusedForms(p: Word)
    ensures Fmadd(p) <==> Op5(p.bits, 63, 29)
    ensures Fmsub(p) <==> Op5(p.bits, 63, 28)
    ensures Fnmadd(p) <==> Op5(p.bits, 63, 31)
    ensures Fnmsub(p) <==> Op5(p.bits, 63, 30)
    ensures Fmadds(p) <==> Op5(p.bits, 59, 29)
    ensures Fmsubs(p) <==> Op5(p.bits, 59, 28)
    ensures Fnmadds(p) <==> Op5(p.bits, 59, 31)
    ensures Fnmsubs(p) <==> Op5(p.bits, 59, 30)
  {
  }

  // ---------------------------------------------------------------- what an option excuses

  predicate Underflows(c: Case) {
    || UnderflowSingle(c) || UnderflowProductSingle(c) || UnderflowQuotientSingle(c) || UnderflowRound(c)
    || UnderflowRoundSelf(c) || UnderflowToZero(c) || UnderflowToZeroSingle(c) || UnderflowTinySum(c)
    || UnderflowShiftedSum(c) || UnderflowProduct(c) || UnderflowProductZero(c) || UnderflowSquare(c)
    || UnderflowQuotient(c) || UnderflowQuotientZero(c) || UnderflowDivideSelf(c) || UnderflowSelfDivide(c)
    || UnderflowAdjustedSelf(c) || UnderflowSingleZero(c) || UnderflowSingleFromZero(c)
    || UnderflowSingleDivideSelf(c) || UnderflowSingleSelfDivide(c) || UnderflowReciprocal(c)
    || UnderflowReciprocalSelf(c) || UnderflowAdjusted(c) || UnderflowMsub(c) || UnderflowAddSelf(c)
    || UnderflowMantissa(c) || UnderflowZeroProduct(c) || UnderflowTinyOperands(c)
  }

  predicate Overflows(c: Case) {
    || OverflowQNan(c) || OverflowSingle(c) || OverflowLargeOperand(c) || OverflowProductSingle(c)
    || OverflowAddend(c) || OverflowProduct(c) || OverflowFusedSelf(c) || OverflowNmadd(c)
    || OverflowQuotient(c) || OverflowDivideSelf(c) || OverflowQuotientSingle(c) || OverflowReciprocal(c)
    || OverflowRound(c) || OverflowRoundSelf(c)
  }

  /** The register was written by the last instruction. */
  predicate LastWrote(c: Case) { RT(c.m.prev) == c.i }

  /** Options that look at the values alone, or at the register a load wrote. */
  predicate ExcusesValues(bit: bv32, c: Case) {
    || (bit == 0x0000_0001 && QNanSigns(c)) || (bit == 0x0000_0002 && QNanValues(c))
    || (bit == 0x0000_0004 && QNanDiffs(c)) || (bit == 0x0004_0000 && ZeroSigns(c))
    || (bit == 0x0000_0008 && RT(c.m.secondPrev) == c.i && QNanLoadFloat(c))
  }

  /** Options that look at the operands of the last instruction. */
  predicate ExcusesOperands(bit: bv32, c: Case) {
    || (bit == 0x0000_0010 && (NanBinary(c) || NanUnary(c) || NanProduct(c) || NanFused(c)))
    || (bit == 0x0000_0020 && (OppositeSum(c) || OppositeDifference(c) || OppositeFused(c)))
    || (bit == 0x0000_0040 && InfTimesZero(c)) || (bit == 0x0000_0080 && DivideByZero(c))
  }

  /** Options that look at its result. */
  predicate ExcusesResults(bit: bv32, c: Case) {
    || (bit == 0x0000_0400 && (RoundDouble(c) || RoundEstimate(c)))
    || (bit == 0x0000_0800 && (RoundSingle(c) || RoundTinySingle(c) || RoundTinyOperands(c)))
    || (bit == 0x0000_1000 && RsqrtNegative(c)) || (bit == 0x0000_2000 && RsqrtNegativeZero(c))
    || (bit == 0x0000_4000 && RsqrtZero(c)) || (bit == 0x0000_8000 && QNanFromInf(c))
    || (bit == 0x0001_0000 && QNanFromUnknown(c))
    || (bit == 0x0002_0000 && (InfFromEstimate(c) || InfFromDivide(c) || InfFromProduct(c)))
    || (bit == 0x0008_0000 && InfDivInf(c)) || (bit == 0x0010_0000 && QNanSNan(c))
    || (bit == 0x0020_0000 && NanUnknownOperands(c))
  }

  /** What the option with the given bit excuses. */
  predicate Excuses(bit: bv32, c: Case) {
    || ExcusesValues(bit, c)
    || (LastWrote(c) && (|| ExcusesOperands(bit, c) || ExcusesResults(bit, c)
                         || (bit == 0x0000_0100 && Underflows(c)) || (bit == 0x0000_0200 && Overflows(c))))
  }

  // ---------------------------------------------------------------- the list against the options

  /** Some rule of a list, under the given option, applies. */
  ghost predicate Listed(rules: seq<FpRule>, bit: bv32, c: Case) {
    exists k :: 0 <= k < |rules| && rules[k].bit == bit && Applies(rules[k], c)
  }

  ghost predicate Any(tests: seq<Case -> bool>, c: Case) { exists k :: 0 <= k < |tests| && tests[k](c) }

  lemma TargetListed(b: bv32, tests: seq<Case -> bool>, bit: bv32, c: Case)
    ensures Listed(OnTarget(b, tests), bit, c) <==> bit == b && LastWrote(c) && Any(tests, c)
  {
    hide RT, OnTarget;
    var rules := OnTarget(b, tests);
    if Listed(rules, bit, c) {
      var k :| 0 <= k < |rules| && rules[k].bit == bit && Applies(rules[k], c);
      assert rules[k] == FpRule(b, LastTarget, tests[k]);
    }
    if bit == b && LastWrote(c) && Any(tests, c) {
      var k :| 0 <= k < |tests| && tests[k](c);
      assert rules[k] == FpRule(b, LastTarget, tests[k]);
    }
  }

  lemma JoinListed(a: seq<FpRule>, b: seq<FpRule>, bit: bv32, c: Case)
    ensures Listed(a + b, bit, c) <==> Listed(a, bit, c) || Listed(b, bit, c)
  {
    hide Applies;
    if Listed(a, bit, c) {
      var k :| 0 <= k < |a| && a[k].bit == bit && Applies(a[k], c);
      assert (a + b)[k] == a[k];
    }
    if Listed(b, bit, c) {
      var k :| 0 <= k < |b| && b[k].bit == bit && Applies(b[k], c);
      assert (a + b)[|a| + k] == b[k];
    }
  }

  lemma OneAny(t: Case -> bool, c: Case)
    ensures Any([t], c) <==> t(c)
  {
    assert [t][0](c) <==> t(c);
  }

  lemma TwoAny(t: Case -> bool, u: Case -> bool, c: Case)
    ensures Any([t, u], c) <==> t(c) || u(c)
  {
    assert ([t, u][0](c) <==> t(c)) && ([t, u][1](c) <==> u(c));
  }

  lemma ThreeAny(t: Case -> bool, u: Case -> bool, v: Case -> bool, c: Case)
    ensures Any([t, u, v], c) <==> t(c) || u(c) || v(c)
  {
    var ts := [t, u, v];
    assert (ts[0](c) <==> t(c)) && (ts[1](c) <==> u(c)) && (ts[2](c) <==> v(c));
  }

  lemma FourAny(t: Case -> bool, u: Case -> bool, v: Case -> bool, w: Case -> bool, c: Case)
    ensures Any([t, u, v, w], c) <==> t(c) || u(c) || v(c) || w(c)
  {
    var ts := [t, u, v, w];
    assert (ts[0](c) <==> t(c)) && (ts[1](c) <==> u(c)) && (ts[2](c) <==> v(c)) && (ts[3](c) <==> w(c));
  }

  lemma UnderflowListed(bit: bv32, c: Case)
    ensures Listed(UnderflowRules(), bit, c) <==> bit == 0x0000_0100 && LastWrote(c) && Underflows(c)
  {
    hide OnTarget, Listed, Any, LastWrote, UnderflowSingle, UnderflowProductSingle, UnderflowQuotientSingle,
      UnderflowRound, UnderflowRoundSelf, UnderflowToZero, UnderflowToZeroSingle, UnderflowTinySum,
      UnderflowShiftedSum, UnderflowProduct, UnderflowProductZero, UnderflowSquare, UnderflowQuotient,
      UnderflowQuotientZero, UnderflowDivideSelf, UnderflowSelfDivide, UnderflowAdjustedSelf,
      UnderflowSingleZero, UnderflowSingleFromZero, UnderflowSingleDivideSelf, UnderflowSingleSelfDivide,
      UnderflowReciprocal, UnderflowReciprocalSelf, UnderflowAdjusted, UnderflowMsub, UnderflowAddSelf,
      UnderflowMantissa, UnderflowZeroProduct, UnderflowTinyOperands;
    var g0 := OnTarget(0x0000_0100, [UnderflowSingle, UnderflowProductSingle, UnderflowQuotientSingle, UnderflowRound]);
    var g1 := OnTarget(0x0000_0100, [UnderflowRoundSelf, UnderflowToZero, UnderflowToZeroSingle, UnderflowTinySum]);
    var g2 := OnTarget(0x0000_0100, [UnderflowShiftedSum, UnderflowProduct, UnderflowProductZero, UnderflowSquare]);
    var g3 := OnTarget(0x0000_0100,
      [UnderflowQuotient, UnderflowQuotientZero, UnderflowDivideSelf, UnderflowSelfDivide]);
    var g4 := OnTarget(0x0000_0100,
      [UnderflowAdjustedSelf, UnderflowSingleZero, UnderflowSingleFromZero, UnderflowSingleDivideSelf]);
    var g5 := OnTarget(0x0000_0100,
      [UnderflowSingleSelfDivide, UnderflowReciprocal, UnderflowReciprocalSelf, UnderflowAdjusted]);
    var g6 := OnTarget(0x0000_0100, [UnderflowMsub, UnderflowAddSelf, UnderflowMantissa, UnderflowZeroProduct]);
    var g7 := OnTarget(0x0000_0100, [UnderflowTinyOperands]);
    JoinListed(g0, g1, bit, c);
    JoinListed(g0 + g1, g2, bit, c);
    JoinListed(g0 + g1 + g2, g3, bit, c);
    JoinListed(g0 + g1 + g2 + g3, g4, bit, c);
    JoinListed(g0 + g1 + g2 + g3 + g4, g5, bit, c);
    JoinListed(g0 + g1 + g2 + g3 + g4 + g5, g6, bit, c);
    JoinListed(g0 + g1 + g2 + g3 + g4 + g5 + g6, g7, bit, c);
    TargetListed(0x0000_0100,
      [UnderflowSingle, UnderflowProductSingle, UnderflowQuotientSingle, UnderflowRound], bit, c);
    FourAny(UnderflowSingle, UnderflowProductSingle, UnderflowQuotientSingle, UnderflowRound, c);
    TargetListed(0x0000_0100, [UnderflowRoundSelf, UnderflowToZero, UnderflowToZeroSingle, UnderflowTinySum], bit, c);
    FourAny(UnderflowRoundSelf, UnderflowToZero, UnderflowToZeroSingle, UnderflowTinySum, c);
    TargetListed(0x0000_0100, [UnderflowShiftedSum, UnderflowProduct, UnderflowProductZero, UnderflowSquare], bit, c);
    FourAny(UnderflowShiftedSum, UnderflowProduct, UnderflowProductZero, UnderflowSquare, c);
    TargetListed(0x0000_0100,
      [UnderflowQuotient, UnderflowQuotientZero, UnderflowDivideSelf, UnderflowSelfDivide], bit, c);
    FourAny(UnderflowQuotient, UnderflowQuotientZero, UnderflowDivideSelf, UnderflowSelfDivide, c);
    TargetListed(0x0000_0100,
      [UnderflowAdjustedSelf, UnderflowSingleZero, UnderflowSingleFromZero, UnderflowSingleDivideSelf], bit, c);
    FourAny(UnderflowAdjustedSelf, UnderflowSingleZero, UnderflowSingleFromZero, UnderflowSingleDivideSelf, c);
    TargetListed(0x0000_0100,
      [UnderflowSingleSelfDivide, UnderflowReciprocal, UnderflowReciprocalSelf, UnderflowAdjusted], bit, c);
    FourAny(UnderflowSingleSelfDivide, UnderflowReciprocal, UnderflowReciprocalSelf, UnderflowAdjusted, c);
    TargetListed(0x0000_0100, [UnderflowMsub, UnderflowAddSelf, UnderflowMantissa, UnderflowZeroProduct], bit, c);
    FourAny(UnderflowMsub, UnderflowAddSelf, UnderflowMantissa, UnderflowZeroProduct, c);
    TargetListed(0x0000_0100, [UnderflowTinyOperands], bit, c);
    OneAny(UnderflowTinyOperands, c);
  }

  lemma OverflowListed(bit: bv32, c: Case)
    ensures Listed(OverflowRules(), bit, c) <==> bit == 0x0000_0200 && LastWrote(c) && Overflows(c)
  {
    hide OnTarget, Listed, Any, LastWrote, OverflowQNan, OverflowSingle, OverflowLargeOperand,
      OverflowProductSingle, OverflowAddend, OverflowProduct, OverflowFusedSelf, OverflowNmadd,
      OverflowQuotient, OverflowDivideSelf, OverflowQuotientSingle, OverflowReciprocal, OverflowRound,
      OverflowRoundSelf;
    var g0 := OnTarget(0x0000_0200, [OverflowQNan, OverflowSingle, OverflowLargeOperand, OverflowProductSingle]);
    var g1 := OnTarget(0x0000_0200, [OverflowAddend, OverflowProduct, OverflowFusedSelf, OverflowNmadd]);
    var g2 := OnTarget(0x0000_0200, [OverflowQuotient, OverflowDivideSelf, OverflowQuotientSingle, OverflowReciprocal]);
    var g3 := OnTarget(0x0000_0200, [OverflowRound, OverflowRoundSelf]);
    JoinListed(g0, g1, bit, c);
    JoinListed(g0 + g1, g2, bit, c);
    JoinListed(g0 + g1 + g2, g3, bit, c);
    TargetListed(0x0000_0200, [OverflowQNan, OverflowSingle, OverflowLargeOperand, OverflowProductSingle], bit, c);
    FourAny(OverflowQNan, OverflowSingle, OverflowLargeOperand, OverflowProductSingle, c);
    TargetListed(0x0000_0200, [OverflowAddend, OverflowProduct, OverflowFusedSelf, OverflowNmadd], bit, c);
    FourAny(OverflowAddend, OverflowProduct, OverflowFusedSelf, OverflowNmadd, c);
    TargetListed(0x0000_0200,
      [OverflowQuotient, OverflowDivideSelf, OverflowQuotientSingle, OverflowReciprocal], bit, c);
    FourAny(OverflowQuotient, OverflowDivideSelf, OverflowQuotientSingle, OverflowReciprocal, c);
    TargetListed(0x0000_0200, [OverflowRound, OverflowRoundSelf], bit, c);
    TwoAny(OverflowRound, OverflowRoundSelf, c);
  }

  lemma OperandListed(bit: bv32, c: Case)
    ensures Listed(OperandRules(), bit, c) <==> LastWrote(c) && ExcusesOperands(bit, c)
  {
    hide OnTarget, Listed, Any, LastWrote, NanBinary, NanUnary, NanProduct, NanFused, OppositeSum, OppositeDifference,
      OppositeFused, InfTimesZero, DivideByZero;
    var a := OnTarget(0x0000_0010, [NanBinary, NanUnary, NanProduct, NanFused]);
    var b := OnTarget(0x0000_0020, [OppositeSum, OppositeDifference, OppositeFused]);
    var d, e := OnTarget(0x0000_0040, [InfTimesZero]), OnTarget(0x0000_0080, [DivideByZero]);
    JoinListed(a, b, bit, c);
    JoinListed(a + b, d, bit, c);
    JoinListed(a + b + d, e, bit, c);
    TargetListed(0x0000_0010, [NanBinary, NanUnary, NanProduct, NanFused], bit, c);
    TargetListed(0x0000_0020, [OppositeSum, OppositeDifference, OppositeFused], bit, c);
    TargetListed(0x0000_0040, [InfTimesZero], bit, c);
    TargetListed(0x0000_0080, [DivideByZero], bit, c);
    FourAny(NanBinary, NanUnary, NanProduct, NanFused, c);
    ThreeAny(OppositeSum, OppositeDifference, OppositeFused, c);
    OneAny(InfTimesZero, c);
    OneAny(DivideByZero, c);
  }

  lemma ResultListed(bit: bv32, c: Case)
    ensures Listed(ResultRules(), bit, c) <==> LastWrote(c) && ExcusesResults(bit, c)
  {
    hide OnTarget, Listed, Any, LastWrote, RoundDouble, RoundEstimate, RoundSingle, RoundTinySingle,
      RoundTinyOperands, RsqrtNegative, RsqrtNegativeZero, RsqrtZero, QNanFromInf, QNanFromUnknown,
      InfFromEstimate, InfFromDivide, InfFromProduct, InfDivInf, QNanSNan, NanUnknownOperands;
    var g0 := OnTarget(0x0000_0400, [RoundDouble, RoundEstimate]);
    var g1 := OnTarget(0x0000_0800, [RoundSingle, RoundTinySingle, RoundTinyOperands]);
    var g2 := OnTarget(0x0000_1000, [RsqrtNegative]);
    var g3 := OnTarget(0x0000_2000, [RsqrtNegativeZero]);
    var g4 := OnTarget(0x0000_4000, [RsqrtZero]);
    var g5 := OnTarget(0x0000_8000, [QNanFromInf]);
    var g6 := OnTarget(0x0001_0000, [QNanFromUnknown]);
    var g7 := OnTarget(0x0002_0000, [InfFromEstimate, InfFromDivide, InfFromProduct]);
    var g8 := OnTarget(0x0008_0000, [InfDivInf]);
    var g9 := OnTarget(0x0010_0000, [QNanSNan]);
    var g10 := OnTarget(0x0020_0000, [NanUnknownOperands]);
    JoinListed(g0, g1, bit, c);
    JoinListed(g0 + g1, g2, bit, c);
    JoinListed(g0 + g1 + g2, g3, bit, c);
    JoinListed(g0 + g1 + g2 + g3, g4, bit, c);
    JoinListed(g0 + g1 + g2 + g3 + g4, g5, bit, c);
    JoinListed(g0 + g1 + g2 + g3 + g4 + g5, g6, bit, c);
    JoinListed(g0 + g1 + g2 + g3 + g4 + g5 + g6, g7, bit, c);
    JoinListed(g0 + g1 + g2 + g3 + g4 + g5 + g6 + g7, g8, bit, c);
    JoinListed(g0 + g1 + g2 + g3 + g4 + g5 + g6 + g7 + g8, g9, bit, c);
    JoinListed(g0 + g1 + g2 + g3 + g4 + g5 + g6 + g7 + g8 + g9, g10, bit, c);
    TargetListed(0x0000_0400, [RoundDouble, RoundEstimate], bit, c);
    TwoAny(RoundDouble, RoundEstimate, c);
    TargetListed(0x0000_0800, [RoundSingle, RoundTinySingle, RoundTinyOperands], bit, c);
    ThreeAny(RoundSingle, RoundTinySingle, RoundTinyOperands, c);
    TargetListed(0x0000_1000, [RsqrtNegative], bit, c);
    OneAny(RsqrtNegative, c);
    TargetListed(0x0000_2000, [RsqrtNegativeZero], bit, c);
    OneAny(RsqrtNegativeZero, c);
    TargetListed(0x0000_4000, [RsqrtZero], bit, c);
    OneAny(RsqrtZero, c);
    TargetListed(0x0000_8000, [QNanFromInf], bit, c);
    OneAny(QNanFromInf, c);
    TargetListed(0x0001_0000, [QNanFromUnknown], bit, c);
    OneAny(QNanFromUnknown, c);
    TargetListed(0x0002_0000, [InfFromEstimate, InfFromDivide, InfFromProduct], bit, c);
    ThreeAny(InfFromEstimate, InfFromDivide, InfFromProduct, c);
    TargetListed(0x0008_0000, [InfDivInf], bit, c);
    OneAny(InfDivInf, c);
    TargetListed(0x0010_0000, [QNanSNan], bit, c);
    OneAny(QNanSNan, c);
    TargetListed(0x0020_0000, [NanUnknownOperands], bit, c);
    OneAny(NanUnknownOperands, c);
  }

  lemma ValueListed(bit: bv32, c: Case)
    ensures Listed(ValueRules(), bit, c) <==> ExcusesValues(bit, c)
  {
    hide RT, QNanSigns, QNanValues, QNanDiffs, ZeroSigns, QNanLoadFloat;
    var rules := ValueRules();
    assert rules[0] == FpRule(0x0000_0001, Anywhere, QNanSigns);
    assert rules[1] == FpRule(0x0000_0002, Anywhere, QNanValues);
    assert rules[2] == FpRule(0x0000_0004, Anywhere, QNanDiffs) && rules[3] == FpRule(0x0004_0000, Anywhere, ZeroSigns);
    assert rules[4] == FpRule(0x0000_0008, LoadTarget, QNanLoadFloat);
  }

  /** The rules of the code are exactly those of its options. */
  lemma PpcListed(bit: bv32, c: Case)
    ensures Listed(PpcRules(), bit, c) <==> Excuses(bit, c)
  {
    hide Listed, ValueRules, OperandRules, UnderflowRules, OverflowRules, ResultRules, LastWrote, ExcusesValues,
      ExcusesOperands, ExcusesResults, Underflows, Overflows;
    ValueListed(bit, c);
    OperandListed(bit, c);
    UnderflowListed(bit, c);
    OverflowListed(bit, c);
    ResultListed(bit, c);
    JoinListed(ValueRules(), TargetRules(), bit, c);
    JoinListed(OperandRules(), UnderflowRules(), bit, c);
    JoinListed(OperandRules() + UnderflowRules(), OverflowRules(), bit, c);
    JoinListed(OperandRules() + UnderflowRules() + OverflowRules(), ResultRules(), bit, c);
  }

  /** A register is excused exactly if some option that is set excuses it. */
  lemma PpcTolerated(o: Opts, c: Case)
    ensures (exists k :: 0 <= k < |PpcRules()| && Has(o.fpOpts, PpcRules()[k].bit) && Applies(PpcRules()[k], c)) <==>
      exists bit :: Has(o.fpOpts, bit) && Excuses(bit, c)
  {
    hide PpcRules, Has, Applies, Excuses;
    if k :| 0 <= k < |PpcRules()| && Has(o.fpOpts, PpcRules()[k].bit) && Applies(PpcRules()[k], c) {
      PpcListed(PpcRules()[k].bit, c);
      assert Listed(PpcRules(), PpcRules()[k].bit, c);
    }
    if bit :| Has(o.fpOpts, bit) && Excuses(bit, c) {
      PpcListed(bit, c);
    }
  }
}
