/** The comparison and the context update as the program runs them: loops that rewrite register
    arrays in place, proved against the functions of `Comparer`.
 */
module RegisterFiles {
  import opened Ieee
  import opened Reginfo
  import opened FpRules
  import opened Comparer
  import opened RegisterBits
  import Protocol
  import LiveRun

  /** `struct reginfo` in memory. */
  class RegisterFile {
    const gregs: array<Word>
    const fpregs: array<Double>
    const fixed: RegInfo  // the instruction words and the registers that are never written
    var xer: Word
    var ccr: Word
    var mq: Word
    var fpscr: Word

    constructor (r: RegInfo)
      requires Sized(r)
      ensures Valid() && Value() == r && fresh(gregs) && fresh(fpregs)
    {
      gregs := new Word[32](i requires 0 <= i < 32 => r.gregs[i]);
      fpregs := new Double[32](i requires 0 <= i < 32 => r.fpregs[i]);
      fixed := r;
      xer, ccr, mq, fpscr := r.xer, r.ccr, r.mq, r.fpscr;
      new;
      assert gregs[..] == r.gregs;
      assert fpregs[..] == r.fpregs;
    }

    ghost predicate Valid() { gregs.Length == 32 && fpregs.Length == 32 }

    ghost function Value(): (r: RegInfo)
      reads this, gregs, fpregs
      requires Valid()
      ensures Sized(r)
    {
      fixed.(gregs := gregs[..], fpregs := fpregs[..], xer := xer, ccr := ccr, mq := mq, fpscr := fpscr)
    }

    /** The general registers to compare depend on the instruction words only. */
    function Mask(o: Opts): (r: Word)
      reads this, gregs, fpregs
      ensures Valid() ==> r == LocalMask(o, Value())
    {
      LocalMask(o, fixed)
    }
  }

  method CompareGregs(mask: Word, m: RegInfo, a: RegisterFile) returns (same: bool)
    requires Sized(m) && a.Valid()
    modifies a.gregs
    ensures (if same then Same(a.Value()) else Differs(a.Value())) == Gregs(mask, m, old(a.Value()), 0)
  {
    hide Selected, GregExcused;
    ghost var goal := Gregs(mask, m, a.Value(), 0);
    for i := 0 to 32
      invariant Gregs(mask, m, a.Value(), i) == goal
    {
      if m.gregs[i] != a.gregs[i] && Selected(mask, i) {
        if !GregExcused(m, i, a.gregs[i], a.fixed.nip) {
          return false;
        }
        ghost var before := a.Value();
        a.gregs[i] := m.gregs[i];
        assert a.Value() == before.(gregs := before.gregs[i := m.gregs[i]]);
      }
    }
    return true;
  }

  method CompareSpecial(o: Opts, m: RegInfo, a: RegisterFile, signals: nat) returns (same: bool)
    requires Sized(m) && a.Valid()
    modifies a
    ensures (if same then Same(a.Value()) else Differs(a.Value())) == Special(o, m, old(a.Value()), signals)
  {
    hide CcrBits, MqExcused, And, Minus;
    if m.xer != a.xer {
      if And(m.xer, o.xerMask) != And(a.xer, o.xerMask) {
        return false;
      }
      a.xer := m.xer;
    }
    if Minus(m.lnk, m.nip) != Minus(a.fixed.lnk, a.fixed.nip) || m.ctr != a.fixed.ctr {
      return false;
    }
    if m.ccr != a.ccr {
      var mask := CcrBits(o, m);
      if And(m.ccr, mask) != And(a.ccr, mask) {
        return false;
      }
      a.ccr := m.ccr;
    }
    if m.mq != a.mq {
      if And(m.mq, o.mqMask) != And(a.mq, o.mqMask) && !MqExcused(o, m, signals) {
        return false;
      }
      a.mq := m.mq;
    }
    if m.fpscr != a.fpscr {
      if And(m.fpscr, o.fpscrMask) != And(a.fpscr, o.fpscrMask) {
        return false;
      }
      a.fpscr := m.fpscr;
    }
    return true;
  }

  method CompareFloats(o: Opts, rules: seq<FpRule>, m: RegInfo, a: RegisterFile) returns (same: bool)
    requires Sized(m) && a.Valid()
    modifies a.fpregs
    ensures (if same then Same(a.Value()) else Differs(a.Value())) == Floats(o, rules, m, old(a.Value()), 0)
  {
    hide FpExcused;
    ghost var goal := Floats(o, rules, m, a.Value(), 0);
    for i := 0 to 32
      invariant Floats(o, rules, m, a.Value(), i) == goal
    {
      if m.fpregs[i] != a.fpregs[i] {
        if !FpExcused(o, rules, m, a.fpregs[..], i) {
          return false;
        }
        ghost var before := a.Value();
        a.fpregs[i] := m.fpregs[i];
        assert a.Value() == before.(fpregs := before.fpregs[i := m.fpregs[i]]);
      }
    }
    return true;
  }

  /** `reginfo_is_eq`. */
  method ReginfoIsEq(o: Opts, rules: seq<FpRule>, m: RegInfo, a: RegisterFile, signals: nat) returns (same: bool)
    requires Sized(m) && a.Valid()
    modifies a, a.gregs, a.fpregs
    ensures (if same then Same(a.Value()) else Differs(a.Value())) == IsEq(o, rules, m, old(a.Value()), signals)
    ensures same <==> Tolerable(o, rules, m, old(a.Value()), signals)
    ensures same ==> Overwritten(o, m, old(a.Value()), a.Value())
    ensures !same ==> DumpMismatch(o, m, a.Value()) != []
  {
    hide Gregs, Special, Floats, LocalMask, Accepts, Settled, DumpMismatch, Tolerable, Overwritten;
    ghost var was := a.Value();
    IsEqAccepts(o, rules, m, was, signals);
    IsEqMeans(o, rules, m, was, signals);
    SettledMeans(o, m, was, IsEq(o, rules, m, was, signals).a);
    if IsEq(o, rules, m, was, signals).Differs? {
      RejectionIsReported(o, rules, m, was, signals);
    }
    var mask := a.Mask(o);
    same := CompareGregs(mask, m, a);
    if same {
      same := CompareSpecial(o, m, a, signals);
      if same {
        same := CompareFloats(o, rules, m, a);
      }
    }
  }

  // ---------------------------------------------------------------- the interrupted context

  /** The interrupted CPU: what the update writes, and the rest of the context. */
  datatype Context<X> = Context(
    gpr: seq<Word>, cr: Word, xer: Word, mq: Word, fpr: seq<Double>, fpscr: Word, rest: X)

  const NO_WORDS := seq(32, _ => Word(0))
  const NO_FLOATS: seq<Double> := seq(32, _ => 0)

  type Image = r: RegInfo | |r.gregs| == 32 && |r.fpregs| == 32
    witness RegInfo(Word(0), Word(0), Word(0), Word(0), NO_WORDS, Word(0), Word(0), Word(0), Word(0),
                    Word(0), Word(0), Word(0), NO_FLOATS, Word(0))

  /** What an update must leave in the context: the reported registers, but only the selected
      general ones. */
  ghost predicate Restored<X>(mask: Word, c: Context<X>, r: Image, d: Context<X>) {
    && d == Context(d.gpr, r.ccr, r.xer, r.mq, r.fpregs, r.fpscr, c.rest)
    && |d.gpr| == |c.gpr|
    && (forall i :: 0 <= i < 32 && i < |c.gpr| ==> d.gpr[i] == if Selected(mask, i) then r.gregs[i] else c.gpr[i])
    && (forall i :: 32 <= i < |c.gpr| ==> d.gpr[i] == c.gpr[i])
  }

  /** The general registers after turns `i` to 31 of the update loop. */
  function Written(mask: Word, g: seq<Word>, r: Image, i: nat): seq<Word>
    requires i <= 32
    decreases 32 - i
  {
    if i == 32 then g
    else if Selected(mask, i) && i < |g| then Written(mask, g[i := r.gregs[i]], r, i + 1)
    else Written(mask, g, r, i + 1)
  }

  /** `reginfo_update`. */
  function Update<X>(mask: Word, c: Context<X>, r: Image): Context<X> {
    Context(Written(mask, c.gpr, r, 0), r.ccr, r.xer, r.mq, r.fpregs, r.fpscr, c.rest)
  }

  lemma {:induction false} WrittenSelects(mask: Word, g: seq<Word>, r: Image, i: nat)
    requires i <= 32
    ensures |Written(mask, g, r, i)| == |g|
    ensures forall j :: 0 <= j < |g| ==>
      (Written(mask, g, r, i)[j] == if i <= j < 32 && Selected(mask, j) then r.gregs[j] else g[j])
    decreases 32 - i
  {
    hide Selected;
    if i < 32 {
      WrittenSelects(mask, if Selected(mask, i) && i < |g| then g[i := r.gregs[i]] else g, r, i + 1);
    }
  }

  lemma UpdateRestores<X>(mask: Word, c: Context<X>, r: Image)
    ensures Restored(mask, c, r, Update(mask, c, r))
  {
    hide Selected, Written;
    WrittenSelects(mask, c.gpr, r, 0);
  }

  /** The context in memory. */
  class Cpu<X> {
    const gpr: array<Word>
    const fpr: array<Double>
    const rest: X
    var cr: Word
    var xer: Word
    var mq: Word
    var fpscr: Word

    constructor (rest: X)
      ensures Valid() && fresh(gpr) && fresh(fpr) && this.rest == rest
    {
      gpr := new Word[32](_ => Word(0));
      fpr := new Double[32](_ => 0);
      this.rest := rest;
      cr, xer, mq, fpscr := Word(0), Word(0), Word(0), Word(0);
    }

    ghost predicate Valid() { gpr.Length == 32 && fpr.Length == 32 }

    ghost function Value(): Context<X>
      reads this, gpr, fpr
      requires Valid()
    {
      Context(gpr[..], cr, xer, mq, fpr[..], fpscr, rest)
    }

    /** `reginfo_update` */
    method ReginfoUpdate(mask: Word, r: Image)
      requires Valid()
      modifies this, gpr, fpr
      ensures Value() == Update(mask, old(Value()), r)
    {
      hide Selected;
      cr, xer, mq := r.ccr, r.xer, r.mq;
      ghost var goal := Written(mask, gpr[..], r, 0);
      for i := 0 to 32
        invariant Written(mask, gpr[..], r, i) == goal
        invariant cr == r.ccr && xer == r.xer && mq == r.mq
      {
        if Selected(mask, i) {
          ghost var before := gpr[..];
          gpr[i] := r.gregs[i];
          assert gpr[..] == before[i := r.gregs[i]];
        }
      }
      for i := 0 to 32
        invariant gpr[..] == goal && cr == r.ccr && xer == r.xer && mq == r.mq
        invariant fpr[..i] == r.fpregs[..i]
      {
        fpr[i] := r.fpregs[i];
      }
      assert fpr[..] == r.fpregs;
      fpscr := r.fpscr;
    }
  }

  // ---------------------------------------------------------------- whole runs

  /** The architecture whose context update is the one above; its comparison may be any. */
  ghost predicate UpdatesAsPpc<X(!new)>(arch: Protocol.Arch<Context<X>, Image>, mask: Word) {
    forall c: Context<X>, r: Image :: arch.update(c, r) == Update(mask, c, r)
  }

  /** Tolerated differences do not accumulate: in every run, each accepted COMPARE leaves the
      apprentice's CPU with exactly the values the master reported, whatever was tolerated. */
  lemma ToleranceDoesNotAccumulate<X(!new)>(
    arch: Protocol.Arch<Context<X>, Image>, mask: Word,
    cm: Context<X>, ca: Context<X>, acts: seq<Protocol.Action>, k: nat)
    requires Protocol.WellFormed(arch) && UpdatesAsPpc(arch, mask)
    requires Protocol.Schedule(arch, Protocol.Start(cm, ca), acts)
    requires k < |Protocol.Live(arch, Protocol.Start(cm, ca), acts).a.log|
    requires var e := Protocol.Live(arch, Protocol.Start(cm, ca), acts).a.log[k];
      e.op == Protocol.Compare && e.res == Protocol.Ok
    ensures var w := Protocol.Live(arch, Protocol.Start(cm, ca), acts);
      k < |w.m.log| && Restored(mask, w.a.log[k].before, w.m.log[k].reg, w.a.log[k].after)
  {
    hide Protocol.WellFormed, Protocol.Schedule, Protocol.Live, Update, Restored;
    LiveRun.AcceptedCompareUpdates(arch, cm, ca, acts, k);
    var w := Protocol.Live(arch, Protocol.Start(cm, ca), acts);
    UpdateRestores(mask, w.a.log[k].before, w.m.log[k].reg);
  }
}
