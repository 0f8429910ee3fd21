/** Instruction patterns: compiling a list of bit fields, generating a word from the result, and
    changing one field of it.
 */
module Pattern {
  import opened Powers

  // ---------------------------------------------------------------- words

  /** A machine word is the set of its one bits; bit 0 is the lowest. */
  type Bits = set<nat>

  /** The lowest `len` bits. */
  function Mask(len: nat): (m: Bits)
    ensures forall i :: i in m <==> 0 <= i < len
  {
    if len == 0 then {} else Mask(len - 1) + {len - 1}
  }

  /** `<<` on 64 bits. */
  function Shl(w: Bits, n: nat): Bits { set i | i in w && i + n < 64 :: i + n }

  /** `>>` */
  function Shr(w: Bits, n: nat): Bits { set i | i in w && n <= i :: i - n }

  lemma InShl(w: Bits, n: nat, j: nat)
    ensures j in Shl(w, n) <==> n <= j < 64 && j - n in w
  {
    if n <= j < 64 && j - n in w {
      assert (j - n) + n == j;
    }
  }

  lemma InShr(w: Bits, n: nat, j: nat)
    ensures j in Shr(w, n) <==> j + n in w
  {
    if j + n in w {
      assert (j + n) - n == j;
    }
  }

  // ---------------------------------------------------------------- numbers

  predicate Digit(c: char) { '0' <= c <= '9' }

  /** How many digits a text begins with, and their value. */
  function DigitsOf(text: string): (n: nat)
    ensures n <= |text|
    ensures forall i :: 0 <= i < n ==> Digit(text[i])
    ensures n < |text| ==> !Digit(text[n])
  {
    if text == "" || !Digit(text[0]) then 0 else 1 + DigitsOf(text[1..])
  }

  function Decimal(text: string): nat
    requires forall i :: 0 <= i < |text| ==> Digit(text[i])
  {
    if text == "" then 0
    else
      var last := text[|text| - 1];
      assert Digit(last);
      10 * Decimal(text[..|text| - 1]) + (last as int - '0' as int)
  }

  function Pow10(n: nat): nat { if n == 0 then 1 else 10 * Pow10(n - 1) }

  /** The number Perl sees in the text of `value:length`: leading decimal digits and perhaps an
      exponent.  Nothing else counts, so a hexadecimal value is 0. */
  function PerlNumber(text: string): nat {
    var n := DigitsOf(text);
    var mantissa, rest := Decimal(text[..n]), text[n..];
    if n > 0 && |rest| >= 2 && (rest[0] == 'e' || rest[0] == 'E') && DigitsOf(rest[1..]) > 0
    then mantissa * Pow10(Decimal(rest[1..][..DigitsOf(rest[1..])]))
    else mantissa
  }

  lemma HexReadsAsZero(text: string)
    requires |text| >= 2 && text[0] == '0' && text[1] == 'x'
    ensures PerlNumber(text) == 0 && BitsOf(PerlNumber(text)) == {}
  {
    assert DigitsOf(text[1..]) == 0;
    assert text[..1] == "0" && text[..1][..0] == "";
    assert Decimal(text[..1]) == 0;
  }

  /** The one bits of a number. */
  function BitsOf(v: nat): Bits {
    if v == 0 then {} else (if v % 2 == 1 then {0} else {}) + set i | i in BitsOf(v / 2) :: i + 1
  }

  lemma {:induction false} BitsFit(v: nat, len: nat)
    ensures BitsOf(v) <= Mask(len) <==> v < Pow2(len)
  {
    if v > 0 && len > 0 {
      BitsFit(v / 2, len - 1);
      BitsHalf(v, len);
    } else if v > 0 {
      BitsSome(v);
    }
  }

  lemma BitsHalf(v: nat, len: nat)
    requires v > 0 && len > 0
    ensures BitsOf(v) <= Mask(len) <==> BitsOf(v / 2) <= Mask(len - 1)
  {
    if BitsOf(v) <= Mask(len) {
      forall i | i in BitsOf(v / 2) ensures i in Mask(len - 1) {
        assert i + 1 in BitsOf(v);
      }
    }
  }

  lemma {:induction false} BitsSome(v: nat)
    requires v > 0
    ensures BitsOf(v) != {}
  {
    if v % 2 == 0 {
      BitsSome(v / 2);
      var i :| i in BitsOf(v / 2);
      assert i + 1 in BitsOf(v);
    } else {
      assert 0 in BitsOf(v);
    }
  }

  // ---------------------------------------------------------------- compiling

  /** An element of a pattern: fixed bits, a named field, or a block of code. */
  datatype Token = Fixed(len: nat, value: Bits) | Var(name: string, len: nat) | Block(known: bool)

  /** A fixed field written as `value:length`. */
  function Numeral(text: string, len: nat): Token { Fixed(len, BitsOf(PerlNumber(text))) }

  datatype Field = Field(name: string, pos: int, mask: Bits)

  datatype Compiled = Compiled(width: nat, fixedBits: Bits, fixedMask: Bits, fields: seq<Field>)

  datatype Error = UnknownBlock | BlockInside | TooManyBits | NotEnoughBits | RaggedWidth | NotLinedUp

  datatype Result = Pattern(value: Compiled) | Failed(error: Error)

  const EMPTY := Compiled(0, {}, {}, [])

  /** One bit field appended. */
  function Append(c: Compiled, t: Token): Compiled
    requires !t.Block?
  {
    var width := c.width + t.len;
    Compiled(
      width,
      Shl(c.fixedBits, t.len) + (if t.Fixed? then t.value else {}),
      Shl(c.fixedMask, t.len) + (if t.Fixed? then Mask(t.len) else {}),
      c.fields + if t.Var? then [Field(t.name, 32 - width, Mask(t.len))] else [])
  }

  function AppendAll(ts: seq<Token>): Compiled
    requires Plain(ts)
  {
    if ts == [] then EMPTY else Append(AppendAll(ts[..|ts| - 1]), ts[|ts| - 1])
  }

  ghost predicate Plain(ts: seq<Token>) { forall k :: 0 <= k < |ts| ==> !ts[k].Block? }

  /** A half-width instruction is kept in the high half of the word. */
  function Raised(c: Compiled): Compiled {
    if c.width == 16 then c.(fixedBits := Shl(c.fixedBits, 16), fixedMask := Shl(c.fixedMask, 16)) else c
  }

  predicate LinedUp(c: Compiled) { c.fixedBits * c.fixedMask == c.fixedBits }

  /** Bit fields `ts[..n]` and then blocks only. */
  ghost predicate Shape(ts: seq<Token>, n: nat) {
    && n <= |ts|
    && (forall k :: 0 <= k < n ==> !ts[k].Block?)
    && (forall k :: n <= k < |ts| ==> ts[k].Block? && ts[k].known)
  }

  ghost predicate GoodWidth(w: nat) { w == 16 || (32 <= w <= 64 && w % 8 == 0) }

  /** What the parser accepts. */
  ghost predicate Accepts(ts: seq<Token>, n: nat) {
    Shape(ts, n) && var c := AppendAll(ts[..n]); GoodWidth(c.width) && LinedUp(Raised(c))
  }

  lemma {:induction false} WidthGrows(ts: seq<Token>, k: nat)
    requires Plain(ts) && k <= |ts|
    ensures Plain(ts[..k]) && AppendAll(ts[..k]).width <= AppendAll(ts).width
  {
    if k == |ts| {
      assert ts[..k] == ts;
    } else {
      var init := ts[..|ts| - 1];
      assert init[..k] == ts[..k];
      WidthGrows(init, k);
    }
  }

  /** The bitfield loop of `parse_config_file`. */
  method Parse(ts: seq<Token>) returns (r: Result, ghost n: nat)
    ensures r.Pattern? ==> Accepts(ts, n) && r.value == Raised(AppendAll(ts[..n]))
    ensures r.Failed? ==> forall m: nat :: !Accepts(ts, m)
  {
    hide Raised, LinedUp, Append;
    var c, seenBlock, i := EMPTY, false, 0;
    n := 0;
    while i < |ts|
      invariant 0 <= i <= |ts| && n <= i && (seenBlock <==> n < i)
      invariant Plain(ts[..n]) && c == AppendAll(ts[..n]) && c.width <= 64
      invariant forall k :: n <= k < i ==> ts[k].Block? && ts[k].known
    {
      var t := ts[i];
      if t.Block? {
        if !t.known {
          forall m: nat ensures !Accepts(ts, m) {
            NoShape(ts, i, m);
          }
          return Failed(UnknownBlock), n;
        }
        seenBlock := true;
      } else {
        if seenBlock {
          forall m: nat ensures !Accepts(ts, m) {
            NoOrder(ts, n, i, m);
          }
          return Failed(BlockInside), n;
        }
        assert ts[..i + 1][..i] == ts[..i];
        if c.width + t.len > 64 {
          AppendWidth(AppendAll(ts[..i]), t);
          forall m: nat ensures !Accepts(ts, m) {
            TooWide(ts, i + 1, m);
          }
          return Failed(TooManyBits), n;
        }
        c := Append(c, t);
        n := i + 1;
        AppendWidth(AppendAll(ts[..i]), t);
      }
      i := i + 1;
    }
    forall m: nat | Shape(ts, m) ensures m == n {
      SameShape(ts, n, m);
    }
    if c.width == 16 {
      c := Raised(c);
    } else if c.width < 32 {
      return Failed(NotEnoughBits), n;
    } else if c.width % 8 != 0 {
      return Failed(RaggedWidth), n;
    }
    assert c == Raised(AppendAll(ts[..n])) by { RaisedOnce(AppendAll(ts[..n])); }
    if c.fixedBits * c.fixedMask != c.fixedBits || c.fixedBits - c.fixedMask != {} {
      NotLined(c);
      return Failed(NotLinedUp), n;
    }
    assert LinedUp(c) by { Lined(c); }
    return Pattern(c), n;
  }

  lemma AppendWidth(c: Compiled, t: Token)
    requires !t.Block?
    ensures Append(c, t).width == c.width + t.len
  {
  }

  lemma RaisedOnce(c: Compiled)
    ensures c.width != 16 ==> Raised(c) == c
    ensures Raised(c).width == c.width
  {
  }

  lemma Lined(c: Compiled)
    requires c.fixedBits * c.fixedMask == c.fixedBits
    ensures LinedUp(c)
  {
  }

  lemma NotLined(c: Compiled)
    requires c.fixedBits * c.fixedMask != c.fixedBits || c.fixedBits - c.fixedMask != {}
    ensures !LinedUp(c)
  {
  }

  lemma SameShape(ts: seq<Token>, n: nat, m: nat)
    requires Shape(ts, n) && Shape(ts, m)
    ensures n == m
  {
    assert n < |ts| ==> ts[n].Block?;
    assert m < |ts| ==> ts[m].Block?;
  }

  lemma NoShape(ts: seq<Token>, i: nat, m: nat)
    requires i < |ts| && ts[i].Block? && !ts[i].known
    ensures !Shape(ts, m)
  {
  }

  lemma NoOrder(ts: seq<Token>, n: nat, i: nat, m: nat)
    requires n < i < |ts| && ts[n].Block? && !ts[i].Block?
    ensures !Shape(ts, m)
  {
  }

  lemma TooWide(ts: seq<Token>, i: nat, m: nat)
    requires i <= |ts| && (forall k :: 0 <= k < i ==> !ts[k].Block?) && AppendAll(ts[..i]).width > 64
    ensures !Accepts(ts, m)
  {
    hide Raised, LinedUp, Append;
    if Shape(ts, m) && i <= m {
      assert ts[..m][..i] == ts[..i];
      WidthGrows(ts[..m], i);
    }
  }

  // ---------------------------------------------------------------- windows

  function Length(ts: seq<Token>): nat
    requires Plain(ts)
  {
    if ts == [] then 0 else Length(ts[..|ts| - 1]) + ts[|ts| - 1].len
  }

  /** The lowest bit of element `k`, counted in a word of 32 bits that the pattern fills from
      the top. */
  function Low(ts: seq<Token>, k: nat): int
    requires Plain(ts) && k < |ts|
  {
    32 - Length(ts[..k + 1])
  }

  ghost predicate InWindow(ts: seq<Token>, k: nat, b: int)
    requires Plain(ts) && k < |ts|
  {
    Low(ts, k) <= b < Low(ts, k) + ts[k].len
  }

  lemma {:induction false} LengthSplit(ts: seq<Token>, k: nat)
    requires Plain(ts) && k < |ts|
    ensures Length(ts[..k + 1]) == Length(ts[..k]) + ts[k].len
  {
    assert ts[..k + 1][..k] == ts[..k];
  }

  lemma {:induction false} LengthGrows(ts: seq<Token>, j: nat, k: nat)
    requires Plain(ts) && j <= k <= |ts|
    ensures Length(ts[..j]) <= Length(ts[..k])
  {
    if j < k {
      LengthGrows(ts, j, k - 1);
      LengthSplit(ts, k - 1);
    }
  }

  /** Windows of different elements do not overlap. */
  lemma WindowsDisjoint(ts: seq<Token>, j: nat, k: nat, b: int)
    requires Plain(ts) && j < k < |ts| && InWindow(ts, j, b)
    ensures !InWindow(ts, k, b)
  {
    LengthGrows(ts, j + 1, k);
    LengthSplit(ts, k);
    LengthSplit(ts, j);
  }

  /** Bit `b` lies in the window of one of the first `n` elements. */
  ghost predicate Covered(ts: seq<Token>, n: nat, b: int)
    requires Plain(ts) && n <= |ts|
  {
    exists k :: 0 <= k < n && InWindow(ts, k, b)
  }

  lemma CoveredStep(ts: seq<Token>, n: nat, b: int)
    requires Plain(ts) && 0 < n <= |ts|
    ensures Covered(ts, n, b) <==> Covered(ts, n - 1, b) || InWindow(ts, n - 1, b)
  {
    hide InWindow;
    if Covered(ts, n, b) {
      var k :| 0 <= k < n && InWindow(ts, k, b);
      assert k == n - 1 || Covered(ts, n - 1, b);
    }
  }

  lemma WindowOf(ts: seq<Token>, n: nat, b: int)
    requires Plain(ts) && 0 < n <= |ts|
    ensures InWindow(ts, n - 1, b) <==> 32 - Length(ts[..n]) <= b < 32 - Length(ts[..n - 1])
    ensures Length(ts[..n - 1]) <= Length(ts[..n])
  {
    LengthSplit(ts, n - 1);
  }

  /** Every bit of the top `Length(ts)` lies in some window, and no other bit does. */
  lemma {:induction false} WindowsCover(ts: seq<Token>, n: nat, b: int)
    requires Plain(ts) && n <= |ts|
    ensures 32 - Length(ts[..n]) <= b < 32 <==> Covered(ts, n, b)
  {
    if n > 0 {
      hide Covered, InWindow, Length;
      WindowsCover(ts, n - 1, b);
      CoveredStep(ts, n, b);
      WindowOf(ts, n, b);
      LengthGrows(ts, 0, n - 1);
      NoLength(ts);
    }
  }

  lemma NoLength(ts: seq<Token>)
    ensures Plain(ts[..0]) && Length(ts[..0]) == 0
  {
  }

  lemma {:induction false} WidthIsLength(ts: seq<Token>)
    requires Plain(ts)
    ensures AppendAll(ts).width == Length(ts)
  {
    if ts != [] {
      WidthIsLength(ts[..|ts| - 1]);
    }
  }

  /** The windows of a prefix are those of the whole. */
  lemma PrefixWindows(ts: seq<Token>, k: nat)
    requires Plain(ts) && k + 1 < |ts|
    ensures Low(ts[..|ts| - 1], k) == Low(ts, k) && ts[..|ts| - 1][k] == ts[k]
  {
    assert ts[..|ts| - 1][..k + 1] == ts[..k + 1];
  }

  // ---------------------------------------------------------------- what is compiled

  ghost predicate FixedAt(ts: seq<Token>, b: int)
    requires Plain(ts)
  {
    exists k :: 0 <= k < |ts| && ts[k].Fixed? && InWindow(ts, k, b)
  }

  /** Bit `b` is one in the element that covers it. */
  ghost predicate OneAt(ts: seq<Token>, b: int)
    requires Plain(ts)
  {
    exists k :: 0 <= k < |ts| && ts[k].Fixed? && InWindow(ts, k, b) && b - Low(ts, k) in ts[k].value
  }

  /** The values fit their lengths. */
  ghost predicate AllFit(ts: seq<Token>)
    requires Plain(ts)
  {
    forall k :: 0 <= k < |ts| && ts[k].Fixed? ==> ts[k].value <= Mask(ts[k].len)
  }

  lemma FixedAtStep(ts: seq<Token>, b: int)
    requires Plain(ts) && ts != []
    ensures var init, t := ts[..|ts| - 1], ts[|ts| - 1];
      FixedAt(ts, b) <==> FixedAt(init, b) || (t.Fixed? && InWindow(ts, |ts| - 1, b))
    ensures var init, t := ts[..|ts| - 1], ts[|ts| - 1];
      OneAt(ts, b) <==>
      OneAt(init, b) || (t.Fixed? && InWindow(ts, |ts| - 1, b) && b - Low(ts, |ts| - 1) in t.value)
  {
    hide Low;
    var init := ts[..|ts| - 1];
    forall k | 0 <= k < |init| ensures Low(init, k) == Low(ts, k) && init[k] == ts[k] {
      PrefixWindows(ts, k);
    }
    if FixedAt(init, b) {
      var k :| 0 <= k < |init| && init[k].Fixed? && InWindow(init, k, b);
      assert ts[k].Fixed? && InWindow(ts, k, b);
    }
    if OneAt(init, b) {
      var k :| 0 <= k < |init| && init[k].Fixed? && InWindow(init, k, b) && b - Low(init, k) in init[k].value;
      assert ts[k].Fixed? && InWindow(ts, k, b);
    }
    if FixedAt(ts, b) {
      var k :| 0 <= k < |ts| && ts[k].Fixed? && InWindow(ts, k, b);
      assert k < |init| ==> init[k].Fixed? && InWindow(init, k, b);
    }
    if OneAt(ts, b) {
      var k :| 0 <= k < |ts| && ts[k].Fixed? && InWindow(ts, k, b) && b - Low(ts, k) in ts[k].value;
      assert k < |init| ==> init[k].Fixed? && InWindow(init, k, b);
    }
  }

  /** Bits below those of the pattern so far are in no window. */
  lemma BelowAll(ts: seq<Token>, b: int)
    requires Plain(ts) && (b < 32 - Length(ts) || b >= 32)
    ensures !FixedAt(ts, b) && !OneAt(ts, b)
  {
    hide InWindow;
    WindowsCover(ts, |ts|, b);
    assert ts[..|ts|] == ts;
    assert !Covered(ts, |ts|, b);
  }

  lemma {:induction false} BitsCompiled(ts: seq<Token>, b: nat)
    requires Plain(ts) && Length(ts) <= 64 && AllFit(ts)
    ensures CompiledAt(ts, b)
  {
    if ts != [] {
      var init, t := ts[..|ts| - 1], ts[|ts| - 1];
      assert AllFit(init) && (t.Fixed? ==> t.value <= Mask(t.len));
      assert Length(ts) == Length(init) + t.len;
      hide CompiledAt, AllFit, Mask, AppendAll, Length;
      if t.len <= b < 64 {
        BitsCompiled(init, b - t.len);
      }
      CompiledStep(ts, b);
    }
  }

  /** Relative to the lowest bit, the mask has a one exactly in the windows of fixed bits, and
      the fixed bits are the values. */
  ghost predicate CompiledAt(ts: seq<Token>, b: nat)
    requires Plain(ts)
  {
    var c, x := AppendAll(ts), b + 32 - Length(ts);
    (b in c.fixedMask <==> FixedAt(ts, x)) && (b in c.fixedBits <==> OneAt(ts, x))
  }

  lemma CompiledStep(ts: seq<Token>, b: nat)
    requires Plain(ts) && ts != [] && Length(ts) <= 64
    requires var t := ts[|ts| - 1]; t.Fixed? ==> t.value <= Mask(t.len)
    requires var init, t := ts[..|ts| - 1], ts[|ts| - 1]; t.len <= b < 64 ==> CompiledAt(init, b - t.len)
    ensures CompiledAt(ts, b)
  {
    hide FixedAt, OneAt, InWindow, Append, AppendAll, Low, Mask, Length;
    var init, t := ts[..|ts| - 1], ts[|ts| - 1];
    var x := b + 32 - Length(ts);
    Unfolded(ts);
    AppendBits(AppendAll(init), t, b);
    LastWindow(ts, b);
    FixedAtStep(ts, x);
    if t.len <= b < 64 {
      assert b - t.len + 32 - Length(init) == x;
      assert t.Fixed? ==> b !in t.value by { TooBig(t, b); }
    } else {
      BelowAll(init, x);
      assert t.Fixed? && b in t.value ==> b < t.len by { TooBig(t, b); }
    }
  }

  lemma TooBig(t: Token, b: nat)
    requires t.Fixed? ==> t.value <= Mask(t.len)
    ensures t.Fixed? && b in t.value ==> b < t.len
  {
  }

  lemma Unfolded(ts: seq<Token>)
    requires Plain(ts) && ts != []
    ensures var init, t := ts[..|ts| - 1], ts[|ts| - 1];
      Length(ts) == Length(init) + t.len && AppendAll(ts) == Append(AppendAll(init), t)
  {
    hide Append;
  }

  lemma AppendBits(c: Compiled, t: Token, b: nat)
    requires !t.Block?
    ensures b in Append(c, t).fixedMask <==> (t.len <= b < 64 && b - t.len in c.fixedMask) || (t.Fixed? && b < t.len)
    ensures b in Append(c, t).fixedBits <==> (t.len <= b < 64 && b - t.len in c.fixedBits) || (t.Fixed? && b in t.value)
  {
    InShl(c.fixedMask, t.len, b);
    InShl(c.fixedBits, t.len, b);
  }

  lemma LastWindow(ts: seq<Token>, b: nat)
    requires Plain(ts) && ts != []
    ensures var k, x := |ts| - 1, b + 32 - Length(ts);
      x - Low(ts, k) == b && (InWindow(ts, k, x) <==> b < ts[k].len)
  {
    assert ts[..|ts|] == ts;
  }

  /** A pattern for a whole or a half word. */
  ghost predicate WordPattern(ts: seq<Token>) { Plain(ts) && (Length(ts) == 16 || Length(ts) == 32) }

  lemma FittingLinesUp(ts: seq<Token>)
    requires Plain(ts) && Length(ts) <= 64 && AllFit(ts)
    ensures LinedUp(Raised(AppendAll(ts)))
  {
    hide AppendAll, AllFit, Shl;
    var c := AppendAll(ts);
    forall b | b in c.fixedBits ensures b in c.fixedMask {
      BitsCompiled(ts, b);
    }
    assert c.fixedBits <= c.fixedMask;
    RaisedInside(c);
  }

  lemma RaisedInside(c: Compiled)
    requires c.fixedBits <= c.fixedMask
    ensures LinedUp(Raised(c))
  {
    assert Shl(c.fixedBits, 16) <= Shl(c.fixedMask, 16);
    assert Raised(c).fixedBits * Raised(c).fixedMask == Raised(c).fixedBits;
  }

  /** A pattern whose values fit is accepted exactly if it is 16, 32, 40, 48, 56 or 64 bits wide. */
  lemma WidthsAccepted(ts: seq<Token>, n: nat)
    requires Shape(ts, n) && AllFit(ts[..n])
    ensures Accepts(ts, n) <==> Length(ts[..n]) in {16, 32, 40, 48, 56, 64}
  {
    hide AppendAll, AllFit, LinedUp, Raised;
    WidthIsLength(ts[..n]);
    if GoodWidth(Length(ts[..n])) {
      FittingLinesUp(ts[..n]);
    }
  }

  /** Compiled, the mask is exactly the union of the windows of fixed bits, and the fixed bits are
      exactly the values in their windows. */
  lemma FixedCompiled(ts: seq<Token>, b: nat)
    requires WordPattern(ts) && AllFit(ts)
    ensures var c := Raised(AppendAll(ts));
      && (b in c.fixedMask <==> FixedAt(ts, b))
      && (b in c.fixedBits <==> OneAt(ts, b))
  {
    hide AllFit, AppendAll, FixedAt, OneAt;
    WidthIsLength(ts);
    var c := AppendAll(ts);
    if Length(ts) == 32 {
      BitsCompiled(ts, b);
    } else {
      InShl(c.fixedMask, 16, b);
      InShl(c.fixedBits, 16, b);
      if 16 <= b < 64 {
        BitsCompiled(ts, b - 16);
      } else {
        BelowAll(ts, b);
      }
    }
  }

  /** The value of the `len` bits at `pos`. */
  function Read(w: Bits, pos: nat, len: nat): Bits { Shr(w, pos) * Mask(len) }

  lemma InRead(w: Bits, pos: nat, len: nat, i: nat)
    ensures i in Read(w, pos, len) <==> i < len && i + pos in w
  {
    InShr(w, pos, i);
  }

  lemma LowFits(ts: seq<Token>, k: nat)
    requires WordPattern(ts) && k < |ts|
    ensures 0 <= Low(ts, k) && Low(ts, k) + ts[k].len <= 32
  {
    LengthGrows(ts, k + 1, |ts|);
    LengthGrows(ts, 0, k);
    LengthSplit(ts, k);
    assert ts[..|ts|] == ts;
  }

  ghost predicate ReadsBack(ts: seq<Token>, k: nat)
    requires WordPattern(ts) && k < |ts| && ts[k].Fixed?
  {
    LowFits(ts, k);
    Read(Raised(AppendAll(ts)).fixedBits, Low(ts, k), ts[k].len) == ts[k].value
  }

  lemma FitReadsBack(ts: seq<Token>, k: nat)
    requires WordPattern(ts) && AllFit(ts) && k < |ts| && ts[k].Fixed?
    ensures ReadsBack(ts, k)
  {
    hide AppendAll, Raised, Read, Low, OneAt, FixedAt;
    LowFits(ts, k);
    var w, low, len := Raised(AppendAll(ts)).fixedBits, Low(ts, k), ts[k].len;
    assert ts[k].value <= Mask(len);
    hide AllFit;
    forall i: nat ensures i in Read(w, low, len) <==> i in ts[k].value {
      InRead(w, low, len, i);
      FixedCompiled(ts, i + low);
      if i < len {
        assert InWindow(ts, k, i + low);
        OnlyWindow(ts, k, i + low);
      }
    }
  }

  lemma OnlyWindow(ts: seq<Token>, k: nat, b: int)
    requires Plain(ts) && k < |ts| && ts[k].Fixed? && InWindow(ts, k, b)
    ensures OneAt(ts, b) <==> b - Low(ts, k) in ts[k].value
  {
    forall j | 0 <= j < |ts| && InWindow(ts, j, b) ensures j == k {
      if j < k {
        WindowsDisjoint(ts, j, k, b);
      } else if k < j {
        WindowsDisjoint(ts, k, j, b);
      }
    }
  }

  /** Every value can be read back from the fixed bits exactly when every value fits its length:
      the check for fixed bits outside the mask is weaker than that. */
  lemma ReadBackIffFit(ts: seq<Token>)
    requires WordPattern(ts)
    ensures (forall k :: 0 <= k < |ts| && ts[k].Fixed? ==> ReadsBack(ts, k)) <==> AllFit(ts)
  {
    hide AppendAll, Raised;
    if AllFit(ts) {
      forall k | 0 <= k < |ts| && ts[k].Fixed? ensures ReadsBack(ts, k) {
        FitReadsBack(ts, k);
      }
    }
  }

  /** A numeral fits exactly when Perl's number is below the power of two of its length. */
  lemma NumeralFits(text: string, len: nat)
    ensures AllFit([Numeral(text, len)]) <==> PerlNumber(text) < Pow2(len)
  {
    BitsFit(PerlNumber(text), len);
    hide PerlNumber, BitsOf, Mask;
    assert [Numeral(text, len)][0] == Numeral(text, len);
  }

  /** A value too wide for its element changes its neighbour and passes the check. */
  lemma OverwideSlips()
    ensures var ts := [Fixed(8, {}), Fixed(8, {8})];
      Accepts(ts, 2) && WordPattern(ts) && !AllFit(ts) && !ReadsBack(ts, 0)
  {
    hide Shl, Mask, Shr;
    var t0, t1 := Fixed(8, {}), Fixed(8, {8});
    var ts := [t0, t1];
    OverwideLengths();
    var c := AppendAll(ts);
    OverwideBits(c);
    forall b: nat ensures b in Raised(c).fixedBits <==> b == 24 {
      InShl(c.fixedBits, 16, b);
    }
    InShl(c.fixedMask, 16, 24);
    InRead(Raised(c).fixedBits, 24, 8, 0);
    assert 8 !in Mask(8);
    assert ts[..2] == ts;
  }

  lemma OverwideLengths()
    ensures var ts := [Fixed(8, {}), Fixed(8, {8})];
      Plain(ts) && Length(ts) == 16 && Low(ts, 0) == 24 && AppendAll(ts).width == 16
      && AppendAll(ts) == Append(Append(EMPTY, ts[0]), ts[1])
  {
    hide Append;
    var ts := [Fixed(8, {}), Fixed(8, {8})];
    assert ts[..1] == [ts[0]] && [ts[0]][..0] == [];
    WidthIsLength(ts);
  }

  lemma OverwideBits(c: Compiled)
    requires c == Append(Append(EMPTY, Fixed(8, {})), Fixed(8, {8}))
    ensures forall b: nat :: b in c.fixedBits <==> b == 8
    ensures 8 in c.fixedMask
  {
    hide Append;
    var c1 := Append(EMPTY, Fixed(8, {}));
    forall b: nat ensures b in c.fixedBits <==> b == 8 {
      AppendBits(c1, Fixed(8, {8}), b);
      if b >= 8 {
        AppendBits(EMPTY, Fixed(8, {}), b - 8);
      }
    }
    AppendBits(c1, Fixed(8, {8}), 8);
    AppendBits(EMPTY, Fixed(8, {}), 0);
  }

  // ---------------------------------------------------------------- fields

  /** The named fields of a pattern, by element. */
  function Vars(ts: seq<Token>): seq<nat> {
    if ts == [] then []
    else Vars(ts[..|ts| - 1]) + if ts[|ts| - 1].Var? then [|ts| - 1] else []
  }

  lemma {:induction false} VarsSorted(ts: seq<Token>)
    ensures forall n :: 0 <= n < |Vars(ts)| ==> Vars(ts)[n] < |ts|
    ensures forall m, n :: 0 <= m < n < |Vars(ts)| ==> Vars(ts)[m] < Vars(ts)[n]
  {
    if ts != [] {
      VarsSorted(ts[..|ts| - 1]);
    }
  }

  lemma {:induction false} VarsComplete(ts: seq<Token>, k: nat)
    requires k < |ts| && ts[k].Var?
    ensures k in Vars(ts)
  {
    if k < |ts| - 1 {
      VarsComplete(ts[..|ts| - 1], k);
    }
  }

  /** Field `n` is element `k` of the pattern. */
  ghost predicate IsField(f: Field, ts: seq<Token>, k: nat)
    requires Plain(ts)
  {
    k < |ts| && ts[k].Var? && f == Field(ts[k].name, Low(ts, k), Mask(ts[k].len))
  }

  lemma FieldOfPrefix(f: Field, ts: seq<Token>, k: nat)
    requires Plain(ts) && ts != [] && IsField(f, ts[..|ts| - 1], k)
    ensures IsField(f, ts, k)
  {
    PrefixWindows(ts, k);
  }

  lemma FieldAppended(ts: seq<Token>)
    requires Plain(ts) && ts != []
    ensures var c, t := AppendAll(ts[..|ts| - 1]), ts[|ts| - 1];
      if t.Var? then |AppendAll(ts).fields| == |c.fields| + 1
        && AppendAll(ts).fields[..|c.fields|] == c.fields
        && IsField(AppendAll(ts).fields[|c.fields|], ts, |ts| - 1)
      else AppendAll(ts).fields == c.fields
  {
    hide Shl, Mask;
    WidthIsLength(ts[..|ts| - 1]);
    assert ts[..|ts|] == ts;
  }

  /** The compiled fields are the named elements in order, each with its window. */
  lemma {:induction false} FieldsCompiled(ts: seq<Token>)
    requires Plain(ts)
    ensures |AppendAll(ts).fields| == |Vars(ts)|
    ensures forall n :: 0 <= n < |Vars(ts)| ==> IsField(AppendAll(ts).fields[n], ts, Vars(ts)[n])
  {
    if ts != [] {
      var init := ts[..|ts| - 1];
      FieldsCompiled(init);
      FieldAppended(ts);
      hide IsField, AppendAll;
      var c := AppendAll(init);
      forall n | 0 <= n < |Vars(init)| ensures IsField(AppendAll(ts).fields[n], ts, Vars(ts)[n]) {
        FieldOfPrefix(c.fields[n], ts, Vars(init)[n]);
        assert ts[|ts| - 1].Var? ==> AppendAll(ts).fields[..|c.fields|][n] == c.fields[n];
      }
    }
  }
}
