/** Words made from a compiled pattern, and reading and changing their fields. */
module InsnFields {
  import opened Pattern

  /** The bits of a word that a field occupies. */
  function FieldBits(f: Field): Bits
    requires f.pos >= 0
  {
    Shl(f.mask, f.pos)
  }

  /** A field of a word, as constraint and memory blocks see it. */
  function Value(w: Bits, f: Field): Bits
    requires f.pos >= 0
  {
    Shr(w, f.pos) * f.mask
  }

  /** Fields and fixed bits share no bit of the 32-bit word, and the fixed bits are masked. */
  ghost predicate Sound(c: Compiled) {
    && c.fixedBits <= c.fixedMask
    && (forall n :: 0 <= n < |c.fields| ==>
        c.fields[n].pos >= 0 && FieldBits(c.fields[n]) !! c.fixedMask && Inside(c.fields[n]))
    && (forall m, n :: 0 <= m < n < |c.fields| ==> FieldBits(c.fields[m]) !! FieldBits(c.fields[n]))
  }

  ghost predicate Inside(f: Field) { forall i :: i in f.mask ==> i + f.pos < 32 }

  lemma WindowBits(ts: seq<Token>, k: nat, b: nat)
    requires WordPattern(ts) && k < |ts|
    ensures Low(ts, k) >= 0
    ensures b in Shl(Mask(ts[k].len), Low(ts, k)) <==> InWindow(ts, k, b)
  {
    hide Mask, Shl, Low;
    LowFits(ts, k);
    InShl(Mask(ts[k].len), Low(ts, k), b);
    if b >= Low(ts, k) {
      assert b - Low(ts, k) in Mask(ts[k].len) <==> b - Low(ts, k) < ts[k].len;
    }
  }

  lemma FieldClear(ts: seq<Token>, k: nat)
    requires WordPattern(ts) && AllFit(ts) && k < |ts| && ts[k].Var?
    ensures Low(ts, k) >= 0
    ensures Shl(Mask(ts[k].len), Low(ts, k)) !! Raised(AppendAll(ts)).fixedMask
  {
    LowFits(ts, k);
    hide AppendAll, Raised, AllFit, Mask, Shl, Low, WordPattern;
    forall b: nat | b in Shl(Mask(ts[k].len), Low(ts, k)) ensures b !in Raised(AppendAll(ts)).fixedMask {
      WindowBits(ts, k, b);
      FixedCompiled(ts, b);
      NotFixed(ts, k, b);
    }
  }

  lemma NotFixed(ts: seq<Token>, k: nat, b: int)
    requires Plain(ts) && k < |ts| && ts[k].Var? && InWindow(ts, k, b)
    ensures !FixedAt(ts, b)
  {
    forall j | 0 <= j < |ts| && InWindow(ts, j, b) ensures j == k {
      if j < k {
        WindowsDisjoint(ts, j, k, b);
      } else if k < j {
        WindowsDisjoint(ts, k, j, b);
      }
    }
  }

  lemma FieldsApart(ts: seq<Token>, j: nat, k: nat)
    requires WordPattern(ts) && j < k < |ts|
    ensures Low(ts, j) >= 0 && Low(ts, k) >= 0
    ensures Shl(Mask(ts[j].len), Low(ts, j)) !! Shl(Mask(ts[k].len), Low(ts, k))
  {
    LowFits(ts, j);
    LowFits(ts, k);
    hide Mask, Shl, Low;
    forall b: nat | b in Shl(Mask(ts[j].len), Low(ts, j)) ensures b !in Shl(Mask(ts[k].len), Low(ts, k)) {
      WindowBits(ts, j, b);
      WindowBits(ts, k, b);
      WindowsDisjoint(ts, j, k, b);
    }
  }

  /** Every accepted word pattern whose values fit compiles to disjoint windows. */
  lemma PatternSound(ts: seq<Token>)
    requires WordPattern(ts) && AllFit(ts)
    ensures Sound(Raised(AppendAll(ts)))
  {
    var c := Raised(AppendAll(ts));
    FieldsCompiled(ts);
    VarsSorted(ts);
    assert c.fields == AppendAll(ts).fields;
    hide AppendAll, Raised, AllFit, Mask, Shl, Low, WordPattern, Vars;
    forall b: nat | b in c.fixedBits ensures b in c.fixedMask {
      FixedCompiled(ts, b);
      OneIsFixed(ts, b);
    }
    forall n | 0 <= n < |c.fields|
      ensures c.fields[n].pos >= 0 && FieldBits(c.fields[n]) !! c.fixedMask && Inside(c.fields[n])
    {
      var k := Vars(ts)[n];
      assert IsField(c.fields[n], ts, k);
      FieldClear(ts, k);
      LowFits(ts, k);
      assert Inside(Field(ts[k].name, Low(ts, k), Mask(ts[k].len)));
    }
    forall m, n | 0 <= m < n < |c.fields| ensures FieldBits(c.fields[m]) !! FieldBits(c.fields[n]) {
      assert IsField(c.fields[m], ts, Vars(ts)[m]) && IsField(c.fields[n], ts, Vars(ts)[n]);
      FieldsApart(ts, Vars(ts)[m], Vars(ts)[n]);
    }
  }

  lemma OneIsFixed(ts: seq<Token>, b: int)
    requires Plain(ts) && OneAt(ts, b)
    ensures FixedAt(ts, b)
  {
  }

  /** The windows cover the top bits of the word and nothing else. */
  lemma PatternCovers(ts: seq<Token>, b: nat)
    requires WordPattern(ts) && AllFit(ts)
    ensures var c := Raised(AppendAll(ts));
      32 - Length(ts) <= b < 32 <==>
      b in c.fixedMask || exists n :: 0 <= n < |c.fields| && c.fields[n].pos >= 0 && b in FieldBits(c.fields[n])
  {
    var c := Raised(AppendAll(ts));
    FieldsCompiled(ts);
    FixedCompiled(ts, b);
    WindowsCover(ts, |ts|, b);
    assert ts[..|ts|] == ts;
    hide AppendAll, Raised, AllFit, Mask, Shl, Low, WordPattern, Vars, InWindow, Length;
    forall n | 0 <= n < |c.fields| ensures c.fields[n].pos >= 0 &&
      (b in FieldBits(c.fields[n]) <==> InWindow(ts, Vars(ts)[n], b))
    {
      assert IsField(c.fields[n], ts, Vars(ts)[n]);
      WindowBits(ts, Vars(ts)[n], b);
    }
    if Covered(ts, |ts|, b) {
      var k :| 0 <= k < |ts| && InWindow(ts, k, b);
      if ts[k].Var? {
        VarsComplete(ts, k);
        var n :| 0 <= n < |Vars(ts)| && Vars(ts)[n] == k;
        assert b in FieldBits(c.fields[n]);
      } else {
        assert FixedAt(ts, b);
      }
    }
  }

  // ---------------------------------------------------------------- generated words

  /** A random word with the fixed bits put in. */
  function Generated(c: Compiled, random: Bits): Bits { random - c.fixedMask + c.fixedBits }

  /** Every generated word matches the pattern, and its fields are still random. */
  lemma GeneratedMatches(c: Compiled, random: Bits)
    requires Sound(c)
    ensures Generated(c, random) * c.fixedMask == c.fixedBits
    ensures forall n :: 0 <= n < |c.fields| ==> Value(Generated(c, random), c.fields[n]) == Value(random, c.fields[n])
  {
    var w := Generated(c, random);
    forall n | 0 <= n < |c.fields| ensures Value(w, c.fields[n]) == Value(random, c.fields[n]) {
      var f := c.fields[n];
      assert forall b :: b in FieldBits(f) ==> (b in w <==> b in random);
      SameBits(w, random, f);
    }
  }

  /** A field depends on its own bits only. */
  lemma SameBits(w: Bits, v: Bits, f: Field)
    requires f.pos >= 0 && Inside(f)
    requires forall b :: b in FieldBits(f) ==> (b in w <==> b in v)
    ensures Value(w, f) == Value(v, f)
  {
    hide Shr, Shl;
    forall i: nat ensures i in Value(w, f) <==> i in Value(v, f) {
      InShr(w, f.pos, i);
      InShr(v, f.pos, i);
      InShl(f.mask, f.pos, i + f.pos);
    }
  }

  // ---------------------------------------------------------------- changing a field

  function Changed(w: Bits, f: Field, v: Bits): Bits
    requires f.pos >= 0
  {
    w - Shl(f.mask, f.pos) + Shl(v * f.mask, f.pos)
  }

  lemma ChangedBits(w: Bits, f: Field, v: Bits, b: nat)
    requires f.pos >= 0
    ensures b !in FieldBits(f) ==> (b in Changed(w, f, v) <==> b in w)
    ensures b in FieldBits(f) ==> b >= f.pos && (b in Changed(w, f, v) <==> b - f.pos in v)
  {
    hide Shl;
    InShl(f.mask, f.pos, b);
    InShl(v * f.mask, f.pos, b);
  }

  /** The change reads back. */
  lemma ChangedReadsBack(w: Bits, f: Field, v: Bits)
    requires f.pos >= 0 && Inside(f)
    ensures Value(Changed(w, f, v), f) == v * f.mask
  {
    hide Shr, Shl, Changed;
    forall i: nat ensures i in Value(Changed(w, f, v), f) <==> i in v * f.mask {
      InShr(Changed(w, f, v), f.pos, i);
      ChangedBits(w, f, v, i + f.pos);
      InShl(f.mask, f.pos, i + f.pos);
    }
  }

  /** The first field of a name, if any. */
  ghost predicate First(c: Compiled, name: string, n: nat) {
    n < |c.fields| && c.fields[n].name == name && forall m :: 0 <= m < n ==> c.fields[m].name != name
  }

  /** `update_insn`: one field changes and reads back; the other fields and the fixed bits do
      not change, and neither does the word if there is no such field. */
  method UpdateInsn(c: Compiled, insn: Bits, name: string, v: Bits) returns (w: Bits)
    requires Sound(c)
    ensures (forall n :: 0 <= n < |c.fields| ==> c.fields[n].name != name) ==> w == insn
    ensures forall n: nat :: First(c, name, n) ==>
      && Value(w, c.fields[n]) == v * c.fields[n].mask
      && (forall m :: 0 <= m < |c.fields| && m != n ==> Value(w, c.fields[m]) == Value(insn, c.fields[m]))
    ensures w * c.fixedMask == insn * c.fixedMask
  {
    w := insn;
    for i := 0 to |c.fields|
      invariant w == insn && forall m :: 0 <= m < i ==> c.fields[m].name != name
    {
      var f := c.fields[i];
      if f.name == name {
        w := w - Shl(f.mask, f.pos) + Shl(v * f.mask, f.pos);
        ChangeOne(c, insn, i, v);
        return;
      }
    }
  }

  lemma ChangeOne(c: Compiled, insn: Bits, n: nat, v: Bits)
    requires Sound(c) && n < |c.fields|
    ensures var w := Changed(insn, c.fields[n], v);
      && Value(w, c.fields[n]) == v * c.fields[n].mask
      && (forall m :: 0 <= m < |c.fields| && m != n ==> Value(w, c.fields[m]) == Value(insn, c.fields[m]))
      && w * c.fixedMask == insn * c.fixedMask
  {
    hide Shr, Shl, Changed;
    var f := c.fields[n];
    var w := Changed(insn, f, v);
    ChangedReadsBack(insn, f, v);
    forall b: nat ensures b !in FieldBits(f) ==> (b in w <==> b in insn) {
      ChangedBits(insn, f, v, b);
    }
    forall m | 0 <= m < |c.fields| && m != n ensures Value(w, c.fields[m]) == Value(insn, c.fields[m]) {
      assert FieldBits(c.fields[m]) !! FieldBits(f);
      SameBits(w, insn, c.fields[m]);
    }
  }
}
