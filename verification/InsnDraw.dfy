/** Drawing an instruction under test: random words are thrown away until one has no forbidden
    register and satisfies the constraint of the pattern. */
module InsnDraw {
  import opened Wrappers
  import opened Pattern
  import opened InsnFields

  /** The condition "always", 0xe. */
  const ALWAYS: Bits := {1, 2, 3}
  const MAXFAILURES := 10000

  /** What the caller asks for: the condition is forced for 32-bit Arm only, and so are the
      forbidden registers. */
  datatype Wanted = Wanted(a64: bool, forceCond: bool)

  predicate RegisterField(f: Field) { f.name != "" && f.name[0] == 'r' }

  /** sp and pc. */
  predicate Forbidden(v: Bits) { v == {0, 2, 3} || v == {0, 1, 2, 3} }

  predicate CondField(f: Field) { f.name == "cond" }

  /** The condition goes into the word whole, whatever the width of the field. */
  function Forced(w: Bits, f: Field): Bits
    requires f.pos >= 0
  {
    w - Shl(f.mask, f.pos) + Shl(ALWAYS, f.pos)
  }

  /** The word after the fields from `n` on were looked at, unless one holds a forbidden register. */
  function Vetted(c: Compiled, want: Wanted, w: Bits, n: nat): Option<Bits>
    requires Sound(c) && n <= |c.fields|
    decreases |c.fields| - n
  {
    if want.a64 || n == |c.fields| then Some(w)
    else
      var f := c.fields[n];
      if RegisterField(f) && Forbidden(Value(w, f)) then None
      else Vetted(c, want, if want.forceCond && CondField(f) then Forced(w, f) else w, n + 1)
  }

  /** The word made of a draw. */
  function Candidate(c: Compiled, want: Wanted, random: Bits): Option<Bits>
    requires Sound(c)
  {
    Vetted(c, want, Generated(c, random), 0)
  }

  // ---------------------------------------------------------------- what a candidate is

  /** Condition fields are wide enough for the condition. */
  ghost predicate CondsFit(c: Compiled) {
    forall n :: 0 <= n < |c.fields| && CondField(c.fields[n]) ==> ALWAYS <= c.fields[n].mask
  }

  /** The condition is not forced, or fits. */
  ghost predicate Fitting(c: Compiled, want: Wanted) { want.a64 || !want.forceCond || CondsFit(c) }

  /** The value of field `n` in the word made of `random`. */
  ghost function Promise(c: Compiled, want: Wanted, random: Bits, n: nat): Bits
    requires Sound(c) && n < |c.fields|
  {
    var f := c.fields[n];
    if !want.a64 && want.forceCond && CondField(f) then ALWAYS else Value(random, f)
  }

  lemma ForcedIsChange(w: Bits, f: Field)
    requires f.pos >= 0 && ALWAYS <= f.mask
    ensures Forced(w, f) == Changed(w, f, ALWAYS) && ALWAYS * f.mask == ALWAYS
  {
    hide Shl;
    assert ALWAYS * f.mask == ALWAYS;
  }

  /** The word between two turns of the field loop: fields before `n` are final, the others are
      still as drawn. */
  ghost predicate Halfway(c: Compiled, want: Wanted, random: Bits, w: Bits, n: nat)
    requires Sound(c) && n <= |c.fields|
  {
    && w * c.fixedMask == c.fixedBits
    && (forall m :: 0 <= m < |c.fields| ==>
          Value(w, c.fields[m]) == if m < n then Promise(c, want, random, m) else Value(random, c.fields[m]))
  }

  lemma HalfwayStep(c: Compiled, want: Wanted, random: Bits, w: Bits, n: nat)
    requires Sound(c) && Fitting(c, want) && !want.a64 && n < |c.fields| && Halfway(c, want, random, w, n)
    ensures var f := c.fields[n];
      Halfway(c, want, random, if want.forceCond && CondField(f) then Forced(w, f) else w, n + 1)
  {
    hide Value, Forced, Sound;
    var f := c.fields[n];
    if want.forceCond && CondField(f) {
      SoundField(c, n);
      ForcedIsChange(w, f);
      ChangeOne(c, w, n, ALWAYS);
    }
  }

  lemma SoundField(c: Compiled, n: nat)
    requires Sound(c) && n < |c.fields|
    ensures c.fields[n].pos >= 0
  {
  }

  /** No field of the draw names a forbidden register. */
  ghost predicate Allowed(c: Compiled, want: Wanted, random: Bits, from: nat)
    requires Sound(c)
  {
    want.a64 ||
    forall m :: from <= m < |c.fields| && RegisterField(c.fields[m]) ==> !Forbidden(Value(random, c.fields[m]))
  }

  lemma {:induction false} VettedMeans(c: Compiled, want: Wanted, random: Bits, w: Bits, n: nat)
    requires Sound(c) && Fitting(c, want) && n <= |c.fields|
    requires Halfway(c, want, random, w, if want.a64 then 0 else n)
    ensures Vetted(c, want, w, n).Some? <==> Allowed(c, want, random, n)
    ensures Vetted(c, want, w, n).Some? ==>
      Halfway(c, want, random, Vetted(c, want, w, n).value, |c.fields|)
    decreases |c.fields| - n
  {
    hide Value, Forced, Sound, Fitting, Forbidden, Generated;
    if !want.a64 && n < |c.fields| {
      var f := c.fields[n];
      SoundField(c, n);
      HalfwayStep(c, want, random, w, n);
      if !(RegisterField(f) && Forbidden(Value(w, f))) {
        VettedMeans(c, want, random, if want.forceCond && CondField(f) then Forced(w, f) else w, n + 1);
      }
    }
  }

  /** A word keeps what the pattern and the caller promise: it matches the fixed bits, its
      condition is "always" if that was asked for, and every other field is as drawn. */
  ghost predicate Keeps(c: Compiled, want: Wanted, random: Bits, w: Bits)
    requires Sound(c)
  {
    && w * c.fixedMask == c.fixedBits
    && (forall m :: 0 <= m < |c.fields| ==> Value(w, c.fields[m]) == Promise(c, want, random, m))
  }

  /** A draw that makes a candidate makes one that keeps the promises if and only if the condition
      is not forced or its fields are wide enough; and then a draw makes a candidate exactly if none
      of its register fields is sp or pc. */
  lemma CandidateMeans(c: Compiled, want: Wanted, random: Bits)
    requires Sound(c)
    ensures Candidate(c, want, random).Some? ==>
      (Keeps(c, want, random, Candidate(c, want, random).value) <==> Fitting(c, want))
    ensures Fitting(c, want) ==> (Candidate(c, want, random).Some? <==> Allowed(c, want, random, 0))
  {
    if Fitting(c, want) {
      GeneratedMatches(c, random);
      hide Value, Sound, Fitting, Vetted, Generated, Allowed;
      VettedMeans(c, want, random, Generated(c, random), 0);
    } else if Candidate(c, want, random).Some? {
      hide Value, Vetted, Generated;
      var n :| 0 <= n < |c.fields| && CondField(c.fields[n]) && !(ALWAYS <= c.fields[n].mask);
      CondNeedsWidth(Candidate(c, want, random).value, c.fields[n]);
    }
  }

  /** The forbidden registers by number. */
  lemma ForbiddenNumbers(v: Bits)
    ensures Forbidden(v) <==> v == BitsOf(13) || v == BitsOf(15)
  {
    assert BitsOf(1) == {0};
    assert BitsOf(3) == {0, 1};
    assert BitsOf(6) == {1, 2};
    assert BitsOf(7) == {0, 1, 2};
    assert BitsOf(13) == {0, 2, 3};
    assert BitsOf(15) == {0, 1, 2, 3};
  }

  /** For 32-bit Arm a draw makes a candidate exactly if no field whose name begins with r holds the
      number 13 or 15, and no such field of the candidate does; on A64 every draw makes one. */
  lemma NoStackOrPc(c: Compiled, want: Wanted, random: Bits)
    requires Sound(c) && Fitting(c, want)
    ensures want.a64 ==> Candidate(c, want, random).Some?
    ensures !want.a64 ==>
      (Candidate(c, want, random).Some? <==>
       forall n :: 0 <= n < |c.fields| && |c.fields[n].name| > 0 && c.fields[n].name[0] == 'r' ==>
         Value(random, c.fields[n]) != BitsOf(13) && Value(random, c.fields[n]) != BitsOf(15))
    ensures !want.a64 && Candidate(c, want, random).Some? ==>
      forall n :: 0 <= n < |c.fields| && |c.fields[n].name| > 0 && c.fields[n].name[0] == 'r' ==>
        var v := Value(Candidate(c, want, random).value, c.fields[n]);
        v != BitsOf(13) && v != BitsOf(15)
  {
    hide Value, Fitting, Vetted, Generated, Forbidden, BitsOf;
    CandidateMeans(c, want, random);
    forall n | 0 <= n < |c.fields| ensures
      var v := Value(random, c.fields[n]); Forbidden(v) <==> v == BitsOf(13) || v == BitsOf(15)
    {
      ForbiddenNumbers(Value(random, c.fields[n]));
    }
  }

  /** A forced condition is the number 14. */
  lemma ForcedIsAlways(c: Compiled, want: Wanted, random: Bits, n: nat)
    requires Sound(c) && Fitting(c, want) && !want.a64 && want.forceCond && Candidate(c, want, random).Some?
    requires n < |c.fields| && c.fields[n].name == "cond"
    ensures Value(Candidate(c, want, random).value, c.fields[n]) == BitsOf(14)
  {
    CandidateMeans(c, want, random);
    hide Value, Fitting, Vetted, Candidate, Sound;
    assert BitsOf(1) == {0};
    assert BitsOf(3) == {0, 1};
    assert BitsOf(7) == {0, 1, 2};
    assert BitsOf(14) == {1, 2, 3};
  }

  /** No word holds the condition in a narrower field. */
  lemma CondNeedsWidth(w: Bits, f: Field)
    requires f.pos >= 0
    ensures Value(w, f) == ALWAYS ==> ALWAYS <= f.mask
  {
    hide Shr;
  }

  /** An accepted pattern with a condition of three bits, and what it compiles to. */
  function NarrowPattern(): seq<Token> { [Fixed(1, {}), Var("cond", 3), Var("imm", 28)] }

  function NarrowWord(): Compiled {
    Compiled(32, {}, {31}, [Field("cond", 28, Mask(3)), Field("imm", 0, Mask(28))])
  }

  lemma NarrowCompiled()
    ensures var ts := NarrowPattern();
      && WordPattern(ts) && AllFit(ts)
      && Raised(AppendAll(ts)) == NarrowWord()
  {
    hide Mask;
    var ts := NarrowPattern();
    assert ts[..2] == [Fixed(1, {}), Var("cond", 3)] && ts[..2][..1] == [Fixed(1, {})] && ts[..2][..1][..0] == [];
    assert Mask(1) == {0};
    assert AppendAll(ts[..2][..1]) == Compiled(1, {}, {0}, []) by {
      assert Shl({}, 1) == {};
    }
    assert AppendAll(ts[..2]) == Compiled(4, {}, {3}, [Field("cond", 28, Mask(3))]) by {
      assert Shl({}, 3) == {} && Shl({0}, 3) == {3};
    }
    assert Shl({}, 28) == {} && Shl({3}, 28) == {31};
    assert Length(ts) == Length(ts[..2]) + 28 && Length(ts[..2]) == Length(ts[..2][..1]) + 3;
    assert Length(ts[..2][..1]) == Length(ts[..2][..1][..0]) + 1;
  }

  /** In it the condition reaches into the fixed bit above. */
  lemma NarrowCondSlips()
    ensures var c := NarrowWord();
      && Sound(c) && !CondsFit(c)
      && Candidate(c, Wanted(false, true), {}) == Some({29, 30, 31})
      && {29, 30, 31} * c.fixedMask != c.fixedBits
  {
    NarrowCompiled();
    PatternSound(NarrowPattern());
    hide AppendAll, Raised, Sound, Mask, Candidate;
    var c := NarrowWord();
    NarrowCandidate(c);
    assert CondField(c.fields[0]) && 3 in ALWAYS && 3 !in c.fields[0].mask;
    assert 31 in {29, 30, 31} * c.fixedMask;
  }

  lemma NarrowCandidate(c: Compiled)
    requires Sound(c) && c == NarrowWord()
    ensures Candidate(c, Wanted(false, true), {}) == Some({29, 30, 31})
  {
    hide Sound, Mask, Value, Shl;
    var want, slipped := Wanted(false, true), {29, 30, 31};
    assert Generated(c, {}) == {};
    ForcedOnEmpty(c.fields[0]);
    assert Vetted(c, want, slipped, 2) == Some(slipped);
    assert !RegisterField(c.fields[1]) && !CondField(c.fields[1]);
    assert Vetted(c, want, slipped, 1) == Some(slipped);
    assert !RegisterField(c.fields[0]) && CondField(c.fields[0]);
  }

  lemma ForcedOnEmpty(f: Field)
    requires f.pos == 28
    ensures Forced({}, f) == {29, 30, 31}
  {
    assert Shl(ALWAYS, 28) == {29, 30, 31};
  }

  // ---------------------------------------------------------------- the drawing loop

  /** A constraint block sees the candidate, may change it, and accepts or refuses. */
  type Constraint = Bits -> (Bits, bool)

  /** A word and the number of the draw it came from; 10001 constraint failures; or no decision
      within the draws at hand. */
  datatype Drawn = Good(word: Bits, at: nat) | GaveUp(at: nat) | Undecided

  predicate Accepts(c: Compiled, want: Wanted, block: Constraint, random: Bits)
    requires Sound(c)
  {
    var w := Candidate(c, want, random);
    w.Some? && block(w.value).1
  }

  /** Only draws that reach the constraint count as failures. */
  predicate Fails(c: Compiled, want: Wanted, block: Constraint, random: Bits)
    requires Sound(c)
  {
    var w := Candidate(c, want, random);
    w.Some? && !block(w.value).1
  }

  function Failures(c: Compiled, want: Wanted, block: Constraint, draws: seq<Bits>, n: nat): nat
    requires Sound(c) && n <= |draws|
  {
    if n == 0 then 0
    else Failures(c, want, block, draws, n - 1) + if Fails(c, want, block, draws[n - 1]) then 1 else 0
  }

  ghost predicate Outcome(c: Compiled, want: Wanted, block: Constraint, draws: seq<Bits>, r: Drawn)
    requires Sound(c)
  {
    match r
    case Good(w, i) =>
      && i < |draws| && Candidate(c, want, draws[i]).Some? && block(Candidate(c, want, draws[i]).value) == (w, true)
      && (forall j :: 0 <= j < i ==> !Accepts(c, want, block, draws[j]))
      && Failures(c, want, block, draws, i) <= MAXFAILURES
    case GaveUp(i) =>
      && i < |draws| && (forall j :: 0 <= j <= i ==> !Accepts(c, want, block, draws[j]))
      && Failures(c, want, block, draws, i) == MAXFAILURES && Fails(c, want, block, draws[i])
    case Undecided =>
      && (forall j :: 0 <= j < |draws| ==> !Accepts(c, want, block, draws[j]))
      && Failures(c, want, block, draws, |draws|) <= MAXFAILURES
  }

  lemma {:induction false} FailuresGrow(
    c: Compiled, want: Wanted, block: Constraint, draws: seq<Bits>, i: nat, j: nat)
    requires Sound(c) && i <= j <= |draws|
    ensures Failures(c, want, block, draws, i) <= Failures(c, want, block, draws, j)
    decreases j
  {
    hide Sound, Fails;
    if i < j {
      FailuresGrow(c, want, block, draws, i, j - 1);
    }
  }

  /** There is one outcome. */
  lemma OneOutcome(c: Compiled, want: Wanted, block: Constraint, draws: seq<Bits>, r: Drawn, q: Drawn)
    requires Sound(c) && Outcome(c, want, block, draws, r) && Outcome(c, want, block, draws, q)
    ensures r == q
  {
    hide Sound, Candidate;
    OutcomeOrder(c, want, block, draws, r, q);
    OutcomeOrder(c, want, block, draws, q, r);
  }

  function End(r: Drawn, n: nat): nat { if r.Undecided? then n else r.at }

  /** No outcome lies behind a word or behind giving up. */
  lemma OutcomeOrder(c: Compiled, want: Wanted, block: Constraint, draws: seq<Bits>, r: Drawn, q: Drawn)
    requires Sound(c) && Outcome(c, want, block, draws, r) && Outcome(c, want, block, draws, q)
    ensures !r.Undecided? ==> End(q, |draws|) <= r.at
    ensures r.Good? && End(q, |draws|) == r.at ==> q.Good?
  {
    hide Sound, Candidate;
    assert q.Good? ==> Accepts(c, want, block, draws[q.at]);
    assert r.Good? ==> Accepts(c, want, block, draws[r.at]);
    if r.GaveUp? && End(q, |draws|) > r.at {
      assert Failures(c, want, block, draws, r.at + 1) == MAXFAILURES + 1;
      FailuresGrow(c, want, block, draws, r.at + 1, End(q, |draws|));
    }
  }

  /** The field loop. */
  method Vet(c: Compiled, want: Wanted, insn: Bits) returns (w: Option<Bits>)
    requires Sound(c)
    ensures w == Vetted(c, want, insn, 0)
  {
    hide Value, Forced;
    var word := insn;
    for n := 0 to |c.fields|
      invariant Vetted(c, want, insn, 0) == Vetted(c, want, word, n)
    {
      var f := c.fields[n];
      if !want.a64 {
        if RegisterField(f) && Forbidden(Value(word, f)) {
          return None;
        }
        if want.forceCond && CondField(f) {
          word := Forced(word, f);
        }
      }
    }
    return Some(word);
  }

  /** The loop of `gen_one_insn` up to the first good word. */
  method Draw(c: Compiled, want: Wanted, block: Constraint, draws: seq<Bits>) returns (r: Drawn)
    requires Sound(c)
    ensures Outcome(c, want, block, draws, r)
    ensures r.GaveUp? ==> r.at < |draws| && Failures(c, want, block, draws, r.at + 1) == 10001
    ensures !r.GaveUp? ==> End(r, |draws|) <= |draws| && Failures(c, want, block, draws, End(r, |draws|)) <= 10000
  {
    hide Sound, Generated, Vetted;
    var failures := 0;
    for i := 0 to |draws|
      invariant failures == Failures(c, want, block, draws, i) <= MAXFAILURES
      invariant forall j :: 0 <= j < i ==> !Accepts(c, want, block, draws[j])
    {
      var insn := draws[i] - c.fixedMask;
      insn := insn + c.fixedBits;
      GeneratedIs(c, draws[i]);
      var w := Vet(c, want, insn);
      if w.Some? {
        var (changed, ok) := block(w.value);
        if ok {
          return Good(changed, i);
        }
        failures := failures + 1;
        if failures > MAXFAILURES {
          return GaveUp(i);
        }
      }
    }
    return Undecided;
  }

  lemma GeneratedIs(c: Compiled, random: Bits)
    ensures Generated(c, random) == random - c.fixedMask + c.fixedBits
  {
  }
}
