/** `reginfo_is_eq`: a comparison that also overwrites tolerated differences, proved against a
    plain acceptance test on the original registers.
 */
module Comparer {
  import opened Ieee
  import opened Reginfo
  import opened FpRules

  /** Outcome of a stage: go on with the (partly rewritten) image, or report a mismatch. */
  datatype Stage = Same(a: RegInfo) | Differs(a: RegInfo)

  // ---------------------------------------------------------------- the code, stage by stage

  function Gregs(mask: Word, m: RegInfo, a: RegInfo, i: nat): (r: Stage)
    requires Sized(m) && Sized(a) && i <= 32
    ensures Sized(r.a)
    decreases 32 - i
  {
    if i == 32 then Same(a)
    else if m.gregs[i] == a.gregs[i] || !Selected(mask, i) then Gregs(mask, m, a, i + 1)
    else if GregExcused(m, i, a.gregs[i], a.nip)
    then Gregs(mask, m, a.(gregs := a.gregs[i := m.gregs[i]]), i + 1)
    else Differs(a)
  }

  predicate LinkDiffers(m: RegInfo, a: RegInfo) { Minus(m.lnk, m.nip) != Minus(a.lnk, a.nip) }

  /** The special registers, in the order of the code. */
  function Special(o: Opts, m: RegInfo, a: RegInfo, signals: nat): (r: Stage)
    requires Sized(m)
  {
    if m.xer != a.xer && And(m.xer, o.xerMask) != And(a.xer, o.xerMask) then Differs(a)
    else
      var a1 := a.(xer := m.xer);
      if LinkDiffers(m, a1) || m.ctr != a1.ctr then Differs(a1)
      else if m.ccr != a1.ccr && And(m.ccr, CcrBits(o, m)) != And(a1.ccr, CcrBits(o, m)) then Differs(a1)
      else
        var a2 := a1.(ccr := m.ccr);
        if m.mq != a2.mq && And(m.mq, o.mqMask) != And(a2.mq, o.mqMask) && !MqExcused(o, m, signals) then Differs(a2)
        else
          var a3 := a2.(mq := m.mq);
          if m.fpscr != a3.fpscr && And(m.fpscr, o.fpscrMask) != And(a3.fpscr, o.fpscrMask) then Differs(a3)
          else Same(a3.(fpscr := m.fpscr))
  }

  function Floats(o: Opts, rules: seq<FpRule>, m: RegInfo, a: RegInfo, i: nat): (r: Stage)
    requires Sized(m) && Sized(a) && i <= 32
    ensures Sized(r.a)
    decreases 32 - i
  {
    if i == 32 then Same(a)
    else if m.fpregs[i] == a.fpregs[i] then Floats(o, rules, m, a, i + 1)
    else if FpExcused(o, rules, m, a.fpregs, i)
    then Floats(o, rules, m, a.(fpregs := a.fpregs[i := m.fpregs[i]]), i + 1)
    else Differs(a)
  }

  /** `reginfo_is_eq`, returning the apprentice's image as it leaves it. */
  function IsEq(o: Opts, rules: seq<FpRule>, m: RegInfo, a: RegInfo, signals: nat): (r: Stage)
    requires Sized(m) && Sized(a)
    ensures Sized(r.a)
  {
    var s1 := Gregs(LocalMask(o, a), m, a, 0);
    if s1.Differs? then s1
    else
      var s2 := Special(o, m, s1.a, signals);
      if s2.Differs? then s2 else Floats(o, rules, m, s2.a, 0)
  }

  // ---------------------------------------------------------------- the reference

  ghost predicate GregAccepted(mask: Word, m: RegInfo, a: RegInfo, i: nat)
    requires Sized(m) && Sized(a) && i < 32
  {
    m.gregs[i] == a.gregs[i] || !Selected(mask, i) || GregExcused(m, i, a.gregs[i], a.nip)
  }

  /** The registers a rule for `i` sees: those below `i` are already the master's. */
  function SeenFloats(m: RegInfo, a: RegInfo, i: nat): seq<Double>
    requires Sized(m) && Sized(a) && i <= 32
  {
    m.fpregs[..i] + a.fpregs[i..]
  }

  ghost predicate FloatAccepted(o: Opts, rules: seq<FpRule>, m: RegInfo, a: RegInfo, i: nat)
    requires Sized(m) && Sized(a) && i < 32
  {
    m.fpregs[i] == a.fpregs[i] || FpExcused(o, rules, m, SeenFloats(m, a, i), i)
  }

  ghost predicate SpecialAccepted(o: Opts, m: RegInfo, a: RegInfo, signals: nat)
    requires Sized(m)
  {
    && And(m.xer, o.xerMask) == And(a.xer, o.xerMask)
    && !LinkDiffers(m, a)
    && m.ctr == a.ctr
    && And(m.ccr, CcrBits(o, m)) == And(a.ccr, CcrBits(o, m))
    && (And(m.mq, o.mqMask) == And(a.mq, o.mqMask) || MqExcused(o, m, signals))
    && And(m.fpscr, o.fpscrMask) == And(a.fpscr, o.fpscrMask)
  }

  /** Acceptance, stated on the registers as they came. */
  ghost predicate Accepts(o: Opts, rules: seq<FpRule>, m: RegInfo, a: RegInfo, signals: nat)
    requires Sized(m) && Sized(a)
  {
    && (forall i :: 0 <= i < 32 ==> GregAccepted(LocalMask(o, a), m, a, i))
    && SpecialAccepted(o, m, a, signals)
    && (forall i :: 0 <= i < 32 ==> FloatAccepted(o, rules, m, a, i))
  }

  /** The image `b` an accepted comparison leaves of `a`: the master's registers, except those
      general registers that were not compared and the address-dependent ones. */
  ghost predicate Settled(o: Opts, m: RegInfo, a: RegInfo, b: RegInfo)
    requires Sized(m) && Sized(a)
  {
    && Passed(LocalMask(o, a), m, a.gregs, b.gregs, 0)
    && b == a.(gregs := b.gregs, xer := m.xer, ctr := m.ctr, ccr := m.ccr, mq := m.mq,
               fpregs := m.fpregs, fpscr := m.fpscr)
  }

  // ---------------------------------------------------------------- loops against the reference

  /** The general registers `g` after the loop has passed `i` over `was`. */
  ghost predicate Passed(mask: Word, m: RegInfo, was: seq<Word>, g: seq<Word>, i: nat)
    requires Sized(m) && |was| == 32
  {
    && |g| == 32
    && (forall j :: 0 <= j < 32 ==> g[j] == if i <= j && Selected(mask, j) then m.gregs[j] else was[j])
  }

  /** One turn of the loop. */
  function GregTurn(mask: Word, m: RegInfo, a: RegInfo, i: nat): RegInfo
    requires Sized(m) && Sized(a) && i < 32
  {
    if m.gregs[i] == a.gregs[i] || !Selected(mask, i) then a else a.(gregs := a.gregs[i := m.gregs[i]])
  }

  lemma GregsUnfold(mask: Word, m: RegInfo, a: RegInfo, i: nat)
    requires Sized(m) && Sized(a) && i < 32
    ensures Sized(GregTurn(mask, m, a, i))
    ensures Gregs(mask, m, a, i) ==
      if GregAccepted(mask, m, a, i) then Gregs(mask, m, GregTurn(mask, m, a, i), i + 1) else Differs(a)
    ensures forall j :: i < j < 32 ==>
      (GregAccepted(mask, m, GregTurn(mask, m, a, i), j) <==> GregAccepted(mask, m, a, j))
  {
    hide Selected, GregExcused;
  }

  lemma {:induction false} GregsDecide(mask: Word, m: RegInfo, a: RegInfo, i: nat)
    requires Sized(m) && Sized(a) && i <= 32
    ensures Gregs(mask, m, a, i).Same? <==> forall j :: i <= j < 32 ==> GregAccepted(mask, m, a, j)
    decreases 32 - i
  {
    if i < 32 {
      hide Gregs, GregAccepted, GregTurn;
      GregsUnfold(mask, m, a, i);
      GregsDecide(mask, m, GregTurn(mask, m, a, i), i + 1);
    }
  }

  lemma {:induction false} GregsResult(mask: Word, m: RegInfo, a: RegInfo, i: nat)
    requires Sized(m) && Sized(a) && i <= 32
    ensures var r := Gregs(mask, m, a, i);
      && (r.Same? ==> r.a == a.(gregs := r.a.gregs) && Passed(mask, m, a.gregs, r.a.gregs, i))
      && (r.Differs? ==> exists j :: 0 <= j < 32 && Selected(mask, j) && m.gregs[j] != r.a.gregs[j])
    decreases 32 - i
  {
    hide Selected, GregExcused;
    if i < 32 {
      hide Gregs, GregTurn, Passed;
      GregsUnfold(mask, m, a, i);
      var b := GregTurn(mask, m, a, i);
      GregsResult(mask, m, b, i + 1);
      PassedStep(mask, m, a, Gregs(mask, m, b, i + 1).a.gregs, i);
    }
  }

  lemma PassedStep(mask: Word, m: RegInfo, a: RegInfo, g: seq<Word>, i: nat)
    requires Sized(m) && Sized(a) && i < 32
    ensures var b := GregTurn(mask, m, a, i);
      && Sized(b) && b == a.(gregs := b.gregs)
      && (Passed(mask, m, b.gregs, g, i + 1) ==> Passed(mask, m, a.gregs, g, i))
  {
    hide Selected;
    var b := GregTurn(mask, m, a, i);
    assert forall j :: 0 <= j < 32 && j != i ==> b.gregs[j] == a.gregs[j];
  }

  lemma {:induction false} FloatsLoop(o: Opts, rules: seq<FpRule>, m: RegInfo, a: RegInfo, i: nat)
    requires Sized(m) && Sized(a) && i <= 32
    requires m.fpregs[..i] == a.fpregs[..i]
    ensures var r := Floats(o, rules, m, a, i);
      && (r.Same? <==> forall j :: i <= j < 32 ==> FloatAccepted(o, rules, m, a, j))
      && (r.Same? ==> r.a == a.(fpregs := m.fpregs))
      && (r.Differs? ==> exists j :: i <= j < 32 && m.fpregs[j] != r.a.fpregs[j])
    decreases 32 - i
  {
    hide FpExcused;
    var r := Floats(o, rules, m, a, i);
    if i == 32 {
      assert a.fpregs == m.fpregs;
      return;
    }
    assert SeenFloats(m, a, i) == a.fpregs;
    if !FloatAccepted(o, rules, m, a, i) {
      assert r == Differs(a);
    } else {
      var b := a.(fpregs := a.fpregs[i := m.fpregs[i]]);
      assert m.fpregs[i] == a.fpregs[i] ==> b.fpregs == a.fpregs;
      assert m.fpregs[..i + 1] == b.fpregs[..i + 1];
      assert r == Floats(o, rules, m, b, i + 1);
      FloatsLoop(o, rules, m, b, i + 1);
      forall j | i < j < 32 ensures FloatAccepted(o, rules, m, b, j) <==> FloatAccepted(o, rules, m, a, j) {
        assert SeenFloats(m, b, j) == SeenFloats(m, a, j);
      }
    }
  }

  // ---------------------------------------------------------------- the theorems

  /** A mismatch among the special registers that a dump would show. */
  ghost predicate SpecialDiffers(m: RegInfo, a: RegInfo) {
    m.ctr != a.ctr || LinkDiffers(m, a) || m.xer != a.xer || m.ccr != a.ccr || m.mq != a.mq || m.fpscr != a.fpscr
  }

  lemma SpecialDecides(o: Opts, m: RegInfo, a: RegInfo, signals: nat)
    requires Sized(m)
    ensures var r := Special(o, m, a, signals);
      && (r.Same? <==> SpecialAccepted(o, m, a, signals))
      && (r.Same? ==> r.a == a.(xer := m.xer, ctr := m.ctr, ccr := m.ccr, mq := m.mq, fpscr := m.fpscr))
      && (r.Differs? ==> SpecialDiffers(m, r.a))
  {
    hide CcrBits, MqExcused, And, Minus;
  }

  /** The comparison accepts exactly what the plain test on the original registers accepts, and
      then leaves the settled image; the master's image is an input only. */
  lemma IsEqAccepts(o: Opts, rules: seq<FpRule>, m: RegInfo, a: RegInfo, signals: nat)
    requires Sized(m) && Sized(a)
    ensures var r := IsEq(o, rules, m, a, signals);
      && (r.Same? <==> Accepts(o, rules, m, a, signals))
      && (r.Same? ==> Settled(o, m, a, r.a))
  {
    hide Gregs, Floats, Special, LocalMask, SpecialAccepted, GregAccepted, FloatAccepted, Passed;
    var mask := LocalMask(o, a);
    GregsDecide(mask, m, a, 0);
    GregsResult(mask, m, a, 0);
    var s1 := Gregs(mask, m, a, 0);
    if s1.Same? {
      SpecialDecides(o, m, s1.a, signals);
      SpecialSame(o, m, a, s1.a, signals);
      var s2 := Special(o, m, s1.a, signals);
      if s2.Same? {
        FloatsLoop(o, rules, m, s2.a, 0);
        FloatsSame(o, rules, m, a, s2.a);
      }
    }
  }

  lemma SpecialSame(o: Opts, m: RegInfo, a: RegInfo, b: RegInfo, signals: nat)
    requires Sized(m) && b == a.(gregs := b.gregs)
    ensures SpecialAccepted(o, m, a, signals) <==> SpecialAccepted(o, m, b, signals)
  {
    hide CcrBits, MqExcused, And, Minus;
  }

  lemma FloatsSame(o: Opts, rules: seq<FpRule>, m: RegInfo, a: RegInfo, b: RegInfo)
    requires Sized(m) && Sized(a) && Sized(b) && a.fpregs == b.fpregs
    ensures forall i :: 0 <= i < 32 ==> (FloatAccepted(o, rules, m, a, i) <==> FloatAccepted(o, rules, m, b, i))
  {
    hide FpExcused;
  }

  /** Accepting again changes nothing. */
  lemma IsEqIdempotent(o: Opts, rules: seq<FpRule>, m: RegInfo, a: RegInfo, signals: nat)
    requires Sized(m) && Sized(a)
    requires IsEq(o, rules, m, a, signals).Same?
    ensures var b := IsEq(o, rules, m, a, signals).a; IsEq(o, rules, m, b, signals) == Same(b)
  {
    hide IsEq, CcrBits, MqExcused, GregExcused, FpExcused, Selected, And, Minus, Is, Less;
    IsEqAccepts(o, rules, m, a, signals);
    var b := IsEq(o, rules, m, a, signals).a;
    assert LocalMask(o, b) == LocalMask(o, a);
    assert Accepts(o, rules, m, b, signals);
    IsEqAccepts(o, rules, m, b, signals);
    SettledTwice(o, m, a, b, IsEq(o, rules, m, b, signals).a);
  }

  lemma SettledTwice(o: Opts, m: RegInfo, a: RegInfo, b: RegInfo, c: RegInfo)
    requires Sized(m) && Sized(a) && Settled(o, m, a, b) && Settled(o, m, b, c)
    ensures c == b
  {
    hide Selected, And, Less, Is;
    assert LocalMask(o, b) == LocalMask(o, a);
    assert c.gregs == b.gregs;
  }

  // ---------------------------------------------------------------- reporting

  datatype Line = Greg(i: nat) | Ctr | Lr | Xer | Ccr | Mq | Fpr(i: nat) | Fpscr

  function GregLines(o: Opts, m: RegInfo, a: RegInfo, i: nat): seq<Line>
    requires Sized(m) && Sized(a) && i <= 32
    decreases 32 - i
  {
    if i == 32 then []
    else (if Selected(o.gregsMask, i) && m.gregs[i] != a.gregs[i] then [Greg(i)] else []) + GregLines(o, m, a, i + 1)
  }

  function FprLines(m: RegInfo, a: RegInfo, i: nat): seq<Line>
    requires Sized(m) && Sized(a) && i <= 32
    decreases 32 - i
  {
    if i == 32 then [] else (if m.fpregs[i] != a.fpregs[i] then [Fpr(i)] else []) + FprLines(m, a, i + 1)
  }

  /** `reginfo_dump_mismatch`: the lines it prints. */
  function DumpMismatch(o: Opts, m: RegInfo, a: RegInfo): seq<Line>
    requires Sized(m) && Sized(a)
  {
    GregLines(o, m, a, 0)
    + (if m.ctr != a.ctr then [Ctr] else [])
    + (if LinkDiffers(m, a) then [Lr] else [])
    + (if m.xer != a.xer then [Xer] else [])
    + (if m.ccr != a.ccr then [Ccr] else [])
    + (if m.mq != a.mq then [Mq] else [])
    + FprLines(m, a, 0)
    + (if m.fpscr != a.fpscr then [Fpscr] else [])
  }

  lemma {:induction false} GregLinesHas(o: Opts, m: RegInfo, a: RegInfo, i: nat, j: nat)
    requires Sized(m) && Sized(a) && i <= j < 32 && Selected(o.gregsMask, j) && m.gregs[j] != a.gregs[j]
    ensures Greg(j) in GregLines(o, m, a, i)
    decreases j - i
  {
    hide Selected;
    if i < j {
      GregLinesHas(o, m, a, i + 1, j);
    }
  }

  lemma {:induction false} FprLinesHas(m: RegInfo, a: RegInfo, i: nat, j: nat)
    requires Sized(m) && Sized(a) && i <= j < 32 && m.fpregs[j] != a.fpregs[j]
    ensures Fpr(j) in FprLines(m, a, i)
    decreases j - i
  {
    if i < j {
      FprLinesHas(m, a, i + 1, j);
    }
  }

  lemma LocalWithin(o: Opts, a: RegInfo)
    ensures Within(LocalMask(o, a), o.gregsMask)
  {
    hide Within, Less, Is, RT, RegBit;
    LessShrinks(o.gregsMask, RegBit(RT(a.next)));
    WithinSelf(o.gregsMask);
  }

  /** A rejected comparison leaves a difference that the dump of the half-rewritten pair shows. */
  lemma RejectionIsReported(o: Opts, rules: seq<FpRule>, m: RegInfo, a: RegInfo, signals: nat)
    requires Sized(m) && Sized(a)
    requires IsEq(o, rules, m, a, signals).Differs?
    ensures DumpMismatch(o, m, IsEq(o, rules, m, a, signals).a) != []
  {
    hide Gregs, Floats, Special, LocalMask, Selected, LinkDiffers, GregLines, FprLines;
    var mask := LocalMask(o, a);
    var b := IsEq(o, rules, m, a, signals).a;
    GregsResult(mask, m, a, 0);
    var s1 := Gregs(mask, m, a, 0);
    if s1.Differs? {
      var j :| 0 <= j < 32 && Selected(mask, j) && m.gregs[j] != b.gregs[j];
      LocalWithin(o, a);
      WithinSelected(mask, o.gregsMask, j);
      GregLinesHas(o, m, b, 0, j);
    } else {
      SpecialDecides(o, m, s1.a, signals);
      var s2 := Special(o, m, s1.a, signals);
      if s2.Same? {
        FloatsLoop(o, rules, m, s2.a, 0);
        var j :| 0 <= j < 32 && m.fpregs[j] != b.fpregs[j];
        FprLinesHas(m, b, 0, j);
      }
    }
  }

  // ---------------------------------------------------------------- options

  /** `p` compares no more than `o`: masks lose bits, tolerances gain them. */
  ghost predicate Looser(o: Opts, p: Opts) {
    && Within(p.gregsMask, o.gregsMask) && Within(p.ccrMask, o.ccrMask) && Within(p.xerMask, o.xerMask)
    && Within(p.mqMask, o.mqMask) && Within(p.fpscrMask, o.fpscrMask) && Within(p.fpregsMask, o.fpregsMask)
    && Within(o.fpOpts, p.fpOpts) && Within(o.cpuOpts, p.cpuOpts)
  }

  lemma LocalMaskLooser(o: Opts, p: Opts, a: RegInfo)
    requires Within(p.gregsMask, o.gregsMask)
    ensures Within(LocalMask(p, a), LocalMask(o, a))
  {
    hide Within, Less, Is, RT, RegBit;
    LessWithin(p.gregsMask, o.gregsMask, RegBit(RT(a.next)));
  }

  lemma CcrBitsLooser(o: Opts, p: Opts, m: RegInfo)
    requires Sized(m) && Within(p.ccrMask, o.ccrMask) && Within(p.fpscrMask, o.fpscrMask)
    ensures Within(CcrBits(p, m), CcrBits(o, m))
  {
    hide DivUndefined, FcmpMask, McrfsMask, Within, And, Is, CrField;
    var bf, bfa := CrField(m.prev, 21), CrField(m.prev, 16);
    FcmpMaskMonotone(o.ccrMask, p.ccrMask, bf);
    McrfsMaskMonotone(o.ccrMask, p.ccrMask, o.fpscrMask, p.fpscrMask, bf, bfa);
    AndWithin(p.ccrMask, o.ccrMask, Word(0x1FFF_FFFF));
  }

  lemma SpecialLooser(o: Opts, p: Opts, m: RegInfo, a: RegInfo, signals: nat)
    requires Sized(m) && Looser(o, p) && SpecialAccepted(o, m, a, signals)
    ensures SpecialAccepted(p, m, a, signals)
  {
    hide CcrBits, Within, Has, And, Is, DivUndefined, Minus;
    CcrBitsLooser(o, p, m);
    WithinMasked(p.xerMask, o.xerMask, m.xer, a.xer);
    WithinMasked(CcrBits(p, m), CcrBits(o, m), m.ccr, a.ccr);
    WithinMasked(p.fpscrMask, o.fpscrMask, m.fpscr, a.fpscr);
    if And(m.mq, o.mqMask) == And(a.mq, o.mqMask) {
      WithinMasked(p.mqMask, o.mqMask, m.mq, a.mq);
    } else {
      WithinHas(o.cpuOpts, p.cpuOpts, USE_601);
    }
  }

  lemma FpLooser(o: Opts, p: Opts, rules: seq<FpRule>, m: RegInfo, af: seq<Double>, i: nat)
    requires i < 32 && Looser(o, p) && FpExcused(o, rules, m, af, i)
    ensures FpExcused(p, rules, m, af, i)
  {
    hide Within, Has, Selected, Applies;
    WithinSelected(p.fpregsMask, o.fpregsMask, i);
    if Selected(p.fpregsMask, i) {
      var k :| 0 <= k < |rules| && Has(o.fpOpts, rules[k].bit) && Applies(rules[k], Case(m, af, i));
      WithinHas(o.fpOpts, p.fpOpts, rules[k].bit);
    }
  }

  /** Loosening the options never turns acceptance into rejection, whatever the rules are. */
  lemma IsEqMonotone(o: Opts, p: Opts, rules: seq<FpRule>, m: RegInfo, a: RegInfo, signals: nat)
    requires Sized(m) && Sized(a) && Looser(o, p)
    requires IsEq(o, rules, m, a, signals).Same?
    ensures IsEq(p, rules, m, a, signals).Same?
  {
    hide IsEq, LocalMask, Selected, GregExcused, FpExcused, SpecialAccepted, Within;
    IsEqAccepts(o, rules, m, a, signals);
    IsEqAccepts(p, rules, m, a, signals);
    SpecialLooser(o, p, m, a, signals);
    LocalMaskLooser(o, p, a);
    forall i | 0 <= i < 32 ensures GregAccepted(LocalMask(p, a), m, a, i) {
      assert GregAccepted(LocalMask(o, a), m, a, i);
      WithinSelected(LocalMask(p, a), LocalMask(o, a), i);
    }
    forall i | 0 <= i < 32 ensures FloatAccepted(p, rules, m, a, i) {
      assert FloatAccepted(o, rules, m, a, i);
      if m.fpregs[i] != a.fpregs[i] {
        FpLooser(o, p, rules, m, SeenFloats(m, a, i), i);
      }
    }
  }
}
