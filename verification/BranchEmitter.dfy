/** `branch_pre` and `branch_post` as they run, appending instructions to the output. */
module BranchEmitter {
  import opened Powers
  import opened BranchHarness

  /** The displacement as the code reads it: a field of `size` bits is sign extended; the shift
      treats a negative number as one of 64 bits. */
  function Extended(kind: Kind, bd: int): int {
    if !kind.Direct? || kind.size == 0 then bd
    else
      var sign := bd % M64 / Pow2(kind.size - 1);
      bd % Pow2(kind.size) - if sign != 0 then Pow2(kind.size) else 0
  }

  lemma HalfOf(n: nat)
    requires n > 0
    ensures Pow2(n) == 2 * Pow2(n - 1)
  {
  }

  /** The displacement as it stands in the instruction word, where the code after the branch
      finds it: an unsigned field, or the number drawn for a register branch. */
  function FieldOf(kind: Kind, bd: int): int { if kind.Direct? then bd % Pow2(kind.size) else bd }

  predicate FitsField(kind: Kind, bd: int) {
    kind.Direct? ==> 0 < kind.size <= 32 && 0 - Pow2(kind.size - 1) <= bd < Pow2(kind.size - 1)
  }

  /** Before and after the branch the code reads the same displacement, negative or not, although
      it is given a signed number first and an unsigned field then. */
  lemma ExtendedKeeps(kind: Kind, bd: int)
    requires FitsField(kind, bd)
    ensures Extended(kind, bd) == bd
    ensures Extended(kind, FieldOf(kind, bd)) == bd
  {
    if kind.Direct? {
      var n, k := kind.size, Pow2(kind.size - 1);
      HalfOf(n);
      Pow2Grows(n, 32);
      Pow2At32();
      hide Pow2;
      if bd >= 0 {
        SmallMod(bd, M64);
        SmallMod(bd, 2 * k);
        SmallQuotient(bd, k);
      } else {
        NegativeMod(bd, M64);
        NegativeMod(bd, 2 * k);
        LargeQuotient(bd + M64, k);
        var field := bd + 2 * k;
        SmallMod(field, M64);
        SmallMod(field, 2 * k);
        LargeQuotient(field, k);
      }
    }
  }

  lemma SmallMod(x: nat, m: nat)
    requires x < m
    ensures x % m == x
  {
  }

  lemma SmallQuotient(x: nat, m: nat)
    requires x < m
    ensures x / m == 0
  {
  }

  lemma NegativeMod(x: int, m: nat)
    requires 0 <= x + m < m
    ensures x % m == x + m
  {
  }

  lemma LargeQuotient(x: nat, m: nat)
    requires 0 < m <= x
    ensures x / m != 0
  {
  }

  lemma {:induction false} FillEnd(r: nat, n: nat)
    ensures Fill(r, n + 1) == Fill(r, n) + [Addi(r, r, 1)]
  {
    if n == 0 {
      assert Fill(r, 1) == [Addi(r, r, 1)] + [];
    } else {
      FillEnd(r, n - 1);
      assert Fill(r, n + 1) == [Addi(r, r, 1)] + (Fill(r, n - 1) + [Addi(r, r, 1)]);
    }
  }

  class Output {
    var code: seq<Insn>

    constructor ()
      ensures code == []
    {
      code := [];
    }

    method Write(insns: seq<Insn>)
      modifies this
      ensures code == old(code) + insns
    {
      code := code + insns;
    }

    /** `n` times `addi r, r, 1`, counting `i` towards the bound as the loops of the generator do. */
    method WriteFillers(r: nat, n: nat)
      modifies this
      ensures code == old(code) + Fill(r, n)
    {
      var i := n;
      while i != 0
        invariant 0 <= i <= n && code == old(code) + Fill(r, n - i)
      {
        FillEnd(r, n - i);
        Write([Addi(r, r, 1)]);
        i := i - 1;
      }
    }

    method WriteConditions(kind: Kind, draw: Draw)
      modifies this
      ensures code == old(code) + Conditions(kind, draw)
    {
      hide MovRi;
      if !kind.ToCtr? {
        Write(MovRi(5, draw.ctr - 1));
        Write([Mt(Ctr, 5)]);
      }
      Write(MovRi(5, draw.cr));
      Write([Mtcrf(5)]);
    }

    method WriteTarget(kind: Kind, bd: int)
      modifies this
      ensures code == old(code) + Target(kind, bd)
    {
      Write([CallNext]);
      Write([Mf(5, Lr)]);
      if bd < 0 {
        Write([Addi(5, 5, 16)]);
      } else {
        Write([Addi(5, 5, 12 + 4 * bd)]);
      }
      Write([Mt(TargetSpr(kind), 5)]);
    }

    method WriteSetup(kind: Kind, bd: int, draw: Draw)
      modifies this
      ensures code == old(code) + Setup(kind, bd, draw)
    {
      hide Conditions, Target;
      if !kind.Direct? || kind.size < 24 {
        WriteConditions(kind, draw);
        if !kind.Direct? {
          WriteTarget(kind, bd);
        }
      }
    }

    method WriteSettle(kind: Kind, draw: Draw)
      modifies this
      ensures code == old(code) + Settle(kind, draw)
    {
      hide MovRi;
      if !kind.Direct? {
        Write([Mf(8, TargetSpr(kind))]);
        Write([Subf(8, 5, 8)]);
        if kind.ToCtr? {
          Write([Mt(Ctr, 8)]);
        }
        Write(MovRi(5, draw.last));
      }
    }

    method BranchPre(kind: Kind, field: int, draw: Draw)
      modifies this
      ensures code == old(code) + Pre(kind, Extended(kind, field), draw)
    {
      hide Setup, Extended, Fill;
      var bd := Extended(kind, field);
      WriteSetup(kind, bd, draw);
      if bd < 0 {
        var filler2 := draw.filler;
        Write([Jump(1 - bd - filler2)]);
        ghost var before := code;
        var i, n := bd + 1 + filler2, 0;
        FillNone(3);
        while i < 0
          invariant code == before + Fill(3, n)
          invariant if i < 0 then n == i - (bd + 1 + filler2) else n == Filler1(bd, filler2)
        {
          FillEnd(3, n);
          Write([Addi(3, 3, 1)]);
          i, n := i + 1, n + 1;
        }
        Write([Jump(2 + filler2)]);
        WriteFillers(6, filler2);
      }
    }

    method BranchPost(kind: Kind, field: int, draw: Draw)
      modifies this
      ensures code == old(code) + Post(kind, Extended(kind, field), draw)
    {
      hide Extended, Fill, Settle;
      var bd := Extended(kind, field);
      if bd <= 0 {
        bd := 1;
      }
      WriteFillers(7, bd - 1);
      WriteFillers(4, draw.extra);
      WriteSettle(kind, draw);
    }

    /** The harness with the branch under test in it: the code before the branch is given the
        displacement, the code after it what it reads back from the instruction. */
    method WriteHarness(kind: Kind, bd: int, draw: Draw)
      requires FitsField(kind, bd)
      modifies this
      ensures code == old(code) + Harness(kind, bd, draw)
    {
      hide Pre, Post, Extended, FitsField;
      ExtendedKeeps(kind, bd);
      BranchPre(kind, bd, draw);
      Write([Under]);
      BranchPost(kind, FieldOf(kind, bd), draw);
    }
  }

  lemma FillNone(r: nat)
    ensures Fill(r, 0) == []
  {
  }
}
