/** What the tolerance rules can excuse. */
module Tolerance {
  import opened Ieee
  import opened Reginfo
  import opened FpRules
  import opened Comparer

  /** A difference between `x` of the apprentice and the master's register `i` that says nothing
      about an untouched register: the last instruction wrote it, the last load before it did, or
      both values are quiet NaNs or both are zeros. */
  ghost predicate Confined(m: RegInfo, i: nat, x: Double)
    requires Sized(m) && i < 32
  {
    || i == RT(m.prev) || i == RT(m.secondPrev)
    || (AnyQNan(x) && AnyQNan(m.fpregs[i]))
    || (Zero(x) && Zero(m.fpregs[i]))
  }

  /** A rule that excuses confined differences only. */
  ghost predicate RuleConfined(rule: FpRule) {
    forall m, af: seq<Double>, i: nat ::
      Sized(m) && i < 32 && |af| == 32 && Applies(rule, Case(m, af, i)) ==> Confined(m, i, af[i])
  }

  lemma TargetConfined(rule: FpRule)
    requires !rule.where.Anywhere?
    ensures RuleConfined(rule)
  {
    hide RT, Zero, AnyQNan;
  }

  lemma ValueConfined(k: nat)
    requires k < |ValueRules()|
    ensures RuleConfined(ValueRules()[k])
  {
    if k == 4 {
      TargetConfined(ValueRules()[k]);
    } else {
      hide RT, RA, RB, RC, ExponentOf, Is, Bit51;
    }
  }

  /** Every rule of the code is confined. */
  lemma PpcConfined(k: nat)
    requires k < |PpcRules()|
    ensures RuleConfined(PpcRules()[k])
  {
    hide RuleConfined, ValueRules, TargetRules;
    if k < |ValueRules()| {
      ValueConfined(k);
    } else {
      TargetConfined(TargetRules()[k - |ValueRules()|]);
    }
  }

  /** The rules of the code are all confined. */
  lemma PpcRulesConfined()
    ensures forall j :: 0 <= j < |PpcRules()| ==> RuleConfined(PpcRules()[j])
  {
    hide PpcRules, RuleConfined;
    forall j | 0 <= j < |PpcRules()| ensures RuleConfined(PpcRules()[j]) {
      PpcConfined(j);
    }
  }

  /** The length of the string that an indexed string load moves. */
  function StringLength(xer: bv32): nat { ((xer & 0x7F) as bv7) as nat }

  predicate StringLoad(insn: Word) { Is(insn, 0xFC00_07FE, 0x7C00_022A) }

  /** The part of a register that holds the last `n % 4` bytes of a string, its upper end. */
  function Loaded(x: Word, n: nat): bv32 {
    TopBytes(x.bits, if n % 4 == 1 then 1 else if n % 4 == 2 then 2 else 3)
  }

  /** The string load before the last instruction left the lower end of register `i` undefined: the
      string fills registers from the target on, four bytes each and around from 31 to 0, and ends
      inside this one; what it does hold of the string agrees. */
  ghost predicate StringTail(m: RegInfo, i: nat, x: Word)
    requires Sized(m) && i < 32
  {
    var n := StringLength(m.xer.bits);
    && StringLoad(m.secondPrev) && n % 4 != 0
    && i == (RT(m.secondPrev) + (n - 1) / 4) % 32
    && Loaded(m.gregs[i], n) == Loaded(x, n)
  }

  /** A general register is excused only as the target of the last instruction, or for the unfilled
      end of a string load before it. */
  lemma GregConfined(m: RegInfo, i: nat, x: Word, nip: Word)
    requires Sized(m) && i < 32 && GregExcused(m, i, x, nip)
    ensures i == RT(m.prev) || StringTail(m, i, x)
  {
    hide DivUndefined, DivsUndefined, Minus, Is, RT, SameTop, LastRegister, Rest, StringTail;
    StringMeans(m, i, x);
  }

  /** The test of the code finds exactly that register. */
  lemma StringMeans(m: RegInfo, i: nat, x: Word)
    requires Sized(m) && i < 32
    ensures StringTail(m, i, x) <==>
      && Is(m.secondPrev, 0xFC00_07FE, 0x7C00_022A) && Rest(m.xer.bits) != 0
      && i == LastRegister(m.secondPrev.bits, m.xer.bits)
      && SameTop(m.gregs[i].bits, x.bits, Rest(m.xer.bits))
  {
    hide RT, SameTop, Is, TopBytes, Rest, LastRegister, StringLength;
    RestMeans(m.xer.bits);
    if Rest(m.xer.bits) != 0 {
      LastMeans(m.secondPrev, m.xer.bits);
      TopMeans(m.gregs[i].bits, x.bits, Rest(m.xer.bits));
    }
  }

  lemma RestMeans(xer: bv32)
    ensures Rest(xer) == 0 <==> StringLength(xer) % 4 == 0
    ensures Rest(xer) != 0 ==>
      Rest(xer) == if StringLength(xer) % 4 == 1 then 1 else if StringLength(xer) % 4 == 2 then 2 else 3
  {
    var n := (xer & 0x7F) as bv7;
    LowTwo(n);
    SameRest(xer);
  }

  lemma LowTwo(n: bv7)
    ensures n as nat % 4 == if n & 3 == 0 then 0 else if n & 3 == 1 then 1 else if n & 3 == 2 then 2 else 3
  {
  }

  lemma SameRest(xer: bv32)
    ensures xer & 3 == (((xer & 0x7F) as bv7) & 3) as bv32
  {
  }

  lemma TopMeans(a: bv32, x: bv32, k: bv32)
    ensures SameTop(a, x, k) <==> TopBytes(a, k) == TopBytes(x, k)
  {
    TopSpreads(a, x, k);
    hide TopBytes;
    XorZero(TopBytes(a, k), TopBytes(x, k));
  }

  lemma TopSpreads(a: bv32, x: bv32, k: bv32)
    ensures TopBytes(a ^ x, k) == TopBytes(a, k) ^ TopBytes(x, k)
  {
    if k == 1 {
      Shift24(a, x);
    } else if k == 2 {
      Shift16(a, x);
    } else {
      Shift8(a, x);
    }
  }

  lemma Shift24(a: bv32, x: bv32)
    ensures (a ^ x) >> 24 == (a >> 24) ^ (x >> 24)
  {
  }

  lemma Shift16(a: bv32, x: bv32)
    ensures (a ^ x) >> 16 == (a >> 16) ^ (x >> 16)
  {
  }

  lemma Shift8(a: bv32, x: bv32)
    ensures (a ^ x) >> 8 == (a >> 8) ^ (x >> 8)
  {
  }

  lemma XorZero(y: bv32, z: bv32)
    ensures y ^ z == 0 <==> y == z
  {
  }

  lemma LastMeans(insn: Word, xer: bv32)
    requires Rest(xer) != 0
    ensures LastRegister(insn.bits, xer) == (RT(insn) + (StringLength(xer) - 1) / 4) % 32
  {
    var n, r := (xer & 0x7F) as bv7, ((insn.bits >> 21) & 31) as bv5;
    var q := ((n - 1) / 4) as bv5;
    hide RT;
    TargetField(insn);
    SumOfFields(insn.bits >> 21, xer);
    Quarter(n);
    RegisterSum(r, q);
  }

  lemma TargetField(insn: Word)
    ensures RT(insn) == (((insn.bits >> 21) & 31) as bv5) as nat
  {
  }

  lemma SumOfFields(a: bv32, xer: bv32)
    requires xer & 3 != 0
    ensures ((xer & 0x7F) as bv7) & 3 != 0
    ensures var n := (xer & 0x7F) as bv7;
      ((a + ((xer & 0x7F) - 1) / 4) & 31) as bv5 == ((a & 31) as bv5) + (((n - 1) / 4) as bv5)
  {
    var n := (xer & 0x7F) as bv7;
    assert ((xer & 0x7F) - 1) / 4 == ((n - 1) / 4) as bv32;
  }

  lemma Quarter(n: bv7)
    requires n & 3 != 0
    ensures (((n - 1) / 4) as bv5) as nat == (n as nat - 1) / 4
  {
  }

  lemma RegisterSum(r: bv5, q: bv5)
    ensures (r + q) as nat == (r as nat + q as nat) % 32
  {
    Carry(r, q);
    assert r as nat < 32 && q as nat < 32;
  }

  lemma {:induction false} Carry(r: bv5, q: bv5)
    ensures (r + q) as nat == r as nat + q as nat || (r + q) as nat == r as nat + q as nat - 32
    decreases q as nat
  {
    if q != 0 {
      Successor(q - 1);
      Successor(r + (q - 1));
      Carry(r, q - 1);
      assert r + q == (r + (q - 1)) + 1;
    }
  }

  lemma Successor(x: bv5)
    ensures (x + 1) as nat == if x == 31 then 0 else x as nat + 1
    ensures x as nat == 31 <==> x == 31
  {
  }

  /** With any list of confined rules, acceptance confines the differences: a selected register
      that the last instructions did not write differs only between quiet NaNs or between zeros. */
  lemma AcceptanceConfines(o: Opts, rules: seq<FpRule>, m: RegInfo, a: RegInfo, signals: nat, i: nat)
    requires Sized(m) && Sized(a) && i < 32 && IsEq(o, rules, m, a, signals).Same?
    requires forall k :: 0 <= k < |rules| ==> RuleConfined(rules[k])
    requires Selected(o.fpregsMask, i) && m.fpregs[i] != a.fpregs[i]
    ensures Confined(m, i, a.fpregs[i])
  {
    hide IsEq, Selected, Confined, GregAccepted, SpecialAccepted, LocalMask, Has, Applies;
    IsEqAccepts(o, rules, m, a, signals);
    assert FloatAccepted(o, rules, m, a, i);
    var af := SeenFloats(m, a, i);
    var k :| 0 <= k < |rules| && Has(o.fpOpts, rules[k].bit) && Applies(rules[k], Case(m, af, i));
    assert RuleConfined(rules[k]);
    assert af[i] == a.fpregs[i];
  }

  /** The same for the rules of the code. */
  lemma PpcAcceptanceConfines(o: Opts, m: RegInfo, a: RegInfo, signals: nat, i: nat)
    requires Sized(m) && Sized(a) && i < 32 && IsEq(o, PpcRules(), m, a, signals).Same?
    requires Selected(o.fpregsMask, i) && m.fpregs[i] != a.fpregs[i]
    ensures Confined(m, i, a.fpregs[i])
  {
    hide IsEq, PpcRules, Selected, Confined, RuleConfined;
    PpcRulesConfined();
    AcceptanceConfines(o, PpcRules(), m, a, signals, i);
  }

  /** One of the five clauses of the two rounding options holds. */
  predicate Rounding(c: Case) {
    RoundDouble(c) || RoundEstimate(c) || RoundSingle(c) || RoundTinySingle(c) || RoundTinyOperands(c)
  }

  /** A single-precision sum of two tiny operands with a tiny result. */
  predicate TinySum(c: Case) {
    && SumSingle(c.P()) && c.NotA() && c.NotB()
    && c.ExpY() < -126 && ExponentOf(c.A(c.Ra())) < -126 && c.Exp(c.Rb()) < -126
  }

  /** A defect of the distance tests: the rounding tolerances also excuse a result with the wrong
      sign and nothing else wrong, exactly after these instructions.  The signed comparisons let it
      pass, the unsigned ones of the single-precision clauses do not, and the clause for tiny
      operands makes no comparison. */
  lemma SignFlipIsRounding(c: Case)
    requires NeitherQuiet(c) && c.X() != c.Y() && Magnitude(c.X()) == Magnitude(c.Y())
    ensures Rounding(c) <==> Double64(c.P()) || Fres(c.P()) || Frsqrte(c.P()) || TinySum(c)
  {
    hide Is, Near, NearUnsigned, Double64, Fres, Frsqrte, Rounded, SumSingle, AnyQNan, ExponentOf;
    NearMeans(c.X(), c.Y(), 1);
    NearMeans(c.X(), c.Y(), 0x8_0000_0000);
    NearMeans(c.X(), c.Y(), 0x8000_0000_0000);
    FlipIsFar(c.X(), c.Y());
    SameExponent(c.X(), c.Y());
  }

  lemma SameExponent(a: Double, b: Double)
    requires Magnitude(a) == Magnitude(b)
    ensures ExponentOf(a) == ExponentOf(b)
  {
    FieldsOf(a);
    FieldsOf(b);
  }

  /** `fres f1,f2`: 1.0 on the master and -1.0 on the apprentice pass as rounding. */
  lemma FlippedReciprocal(m: RegInfo, af: seq<Double>)
    requires Sized(m) && |af| == 32
    requires m.prev == Word(0xEC20_1030) && m.fpregs[1] == 0x3FF0_0000_0000_0000 && af[1] == 0xBFF0_0000_0000_0000
    ensures var c := Case(m, af, 1); RT(m.prev) == 1 && Rounding(c)
  {
    var c := Case(m, af, 1);
    assert Fres(c.P()) && RT(m.prev) == 1 by {
      hide Near, Double64, Rounded, SumSingle, ExponentOf;
    }
    hide Fres, RT, Rounding;
    SignFlipIsRounding(c);
  }

  lemma FlipIsFar(a: Double, b: Double)
    requires a != b && Magnitude(a) == Magnitude(b)
    ensures SignedDiff(a, b) == -P63
  {
  }
}
