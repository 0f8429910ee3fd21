/** What the apprentice makes of any header, byte by byte: the reader's own byte order does not
    matter. */
module HeaderChecks {
  import opened Wrappers
  import opened WireHeader
  import opened Protocol

  /** Four bytes as a number, in either order. */
  function Word32(s: seq<Byte>, i: nat, big: bool): nat
    requires i + 4 <= |s|
  {
    var a: int, b: int, c: int, d: int := s[i], s[i + 1], s[i + 2], s[i + 3];
    if big then 0x100_0000 * a + 0x1_0000 * b + 0x100 * c + d else a + 0x100 * b + 0x1_0000 * c + 0x100_0000 * d
  }

  lemma FourBytes(s: seq<Byte>)
    requires |s| == 4
    ensures var a: int, b: int, c: int, d: int := s[0], s[1], s[2], s[3];
      FromBytes(s) == a + 0x100 * b + 0x1_0000 * c + 0x100_0000 * d
  {
    var c: int, d: int := s[2], s[3];
    assert s[1..][1..][1..] == [s[3]] && [s[3]][1..] == [];
    assert FromBytes([s[3]]) == s[3];
    assert s[1..][1..] == [s[2], s[3]];
    assert FromBytes(s[1..][1..]) == c + 256 * d;
    assert FromBytes(s[1..]) == s[1] + 256 * FromBytes(s[1..][1..]);
  }

  lemma LoadWord(s: seq<Byte>, i: nat, big: bool)
    requires i + 4 <= |s|
    ensures Load(s[i..i + 4], big) == Word32(s, i, big)
  {
    hide FromBytes;
    FourBytes(s[i..i + 4]);
    FourBytes(Reversed(s[i..i + 4]));
  }

  /** A byte swap of a load is a load in the other order. */
  lemma SwapLoad(s: seq<Byte>, big: bool)
    ensures Swap(|s|, Load(s, big)) == Load(s, !big)
  {
    hide ToBytes, FromBytes, Reversed;
    ToFromBytes(s);
    ToFromBytes(Reversed(s));
    ReversedTwice(s);
  }

  lemma SwapRaw(s: seq<Byte>, big: bool, p: PtrSize)
    requires |s| == HeaderLen(p)
    ensures SwapHeader(Raw(s, big, p), p) == Raw(s, !big, p)
  {
    hide Swap, Load;
    SwapLoad(s[0..4], big);
    SwapLoad(s[4..8], big);
    SwapLoad(s[8..12], big);
    SwapLoad(s[12 + p.Gap()..], big);
  }

  /** The bytes R, I, S, U in order `big`. */
  predicate MagicIn(s: seq<Byte>, big: bool)
    requires |s| >= 4
  {
    s[..4] == if big then [0x52, 0x49, 0x53, 0x55] else [0x55, 0x53, 0x49, 0x52]
  }

  lemma MagicLoad(s: seq<Byte>, big: bool)
    requires |s| >= 4
    ensures Load(s[0..4], big) == RISU_MAGIC <==> MagicIn(s, big)
    ensures Load(s[0..4], big) == 0x55534952 <==> MagicIn(s, !big)
  {
    hide Load;
    LoadWord(s, 0, big);
    assert s[..4] == [s[0], s[1], s[2], s[3]];
  }

  /** A header that begins with the magic number in some order is read in that order; any other is
      read with a wrong magic number. */
  lemma DecodeMeans(s: seq<Byte>, big: bool, p: PtrSize)
    requires |s| == HeaderLen(p)
    ensures forall order :: MagicIn(s, order) ==> Decode(s, big, p) == Raw(s, order, p)
    ensures Decode(s, big, p).magic == RISU_MAGIC <==> MagicIn(s, false) || MagicIn(s, true)
  {
    hide Load, Swap, MagicIn;
    MagicLoad(s, big);
    MagicLoad(s, !big);
    MagicNotPalindrome();
    SwapRaw(s, big, p);
    OneOrder(s);
  }

  lemma OneOrder(s: seq<Byte>)
    requires |s| >= 4
    ensures !(MagicIn(s, false) && MagicIn(s, true))
  {
  }

  /** How the apprentice leaves a header: stopped with a result, or waiting for the payload; in any
      other case it compares. */
  ghost predicate Stops<C, R>(arch: Arch<C, R>, a: Apprentice<C, R>, s: seq<Byte>, res: Result)
    requires |s| == HeaderLen(arch.ptr)
  {
    var (b, replies) := ApprenticeHeader(arch, a, Some(s));
    b.phase == Halted(res) && replies == [End] && b.cpu == a.cpu
  }

  ghost predicate Waits<C, R>(arch: Arch<C, R>, a: Apprentice<C, R>, s: seq<Byte>, size: nat)
    requires |s| == HeaderLen(arch.ptr)
  {
    var (b, replies) := ApprenticeHeader(arch, a, Some(s));
    b.phase.AwaitPayload? && b.phase.h.size == size && replies == [Ok] && b == a.(phase := b.phase)
  }

  ghost predicate Compares<C, R>(arch: Arch<C, R>, a: Apprentice<C, R>, s: seq<Byte>, mop: Op)
    requires |s| == HeaderLen(arch.ptr) && !RegOp(mop) && mop != CompareMem
  {
    ApprenticeHeader(arch, a, Some(s)) == Decide(arch, a, mop, Nothing)
  }

  /** Bytes without the magic number, and only those, are bad magic. */
  lemma BadMagicIff<C, R>(arch: Arch<C, R>, a: Apprentice<C, R>, s: seq<Byte>)
    requires |s| == HeaderLen(arch.ptr)
    ensures Stops(arch, a, s, BadMagic) <==> !MagicIn(s, false) && !MagicIn(s, true)
  {
    hide Raw, MagicIn, Decode, Effect, OwnMemory;
    DecodeMeans(s, arch.apprenticeBig, arch.ptr);
  }

  /** All other headers, by the numbers at bytes 4 and 8 in the order of the magic number. */
  lemma HeaderVerdict<C, R>(arch: Arch<C, R>, a: Apprentice<C, R>, s: seq<Byte>, big: bool)
    requires |s| == HeaderLen(arch.ptr) && MagicIn(s, big)
    ensures var size, op := Word32(s, 4, big), Word32(s, 8, big);
      if op == 0 || op == 1 || op == 0xFFFF_FFFF then
        if size > arch.maxSize then Stops(arch, a, s, BadSizeHeader) else Waits(arch, a, s, size)
      else if op == 4 then
        if size != 8192 then Stops(arch, a, s, BadSizeMemblock) else Waits(arch, a, s, 8192)
      else if op == 2 || op == 3 || op == 5 || op == 6 then
        if size != 0 then Stops(arch, a, s, BadSizeZero)
        else Compares(arch, a, s,
          if op == 2 then SetMemblock else if op == 3 then GetMemblock else if op == 5 then SetupBegin else SetupEnd)
      else Stops(arch, a, s, BadOp)
  {
    hide Decode, Load, MagicIn, Effect, OwnMemory, Judge, Decide;
    DecodeMeans(s, arch.apprenticeBig, arch.ptr);
    LoadWord(s, 4, big);
    LoadWord(s, 8, big);
  }

  /** The header the master sends: the magic number, the size and the number of the op, in its own
      order. */
  lemma SentHeader<C(!new), R(!new)>(arch: Arch<C, R>, e: Sent<C, R>)
    requires WellFormed(arch)
    ensures var s, big := HeaderBytes(arch, e), arch.masterBig;
      && MagicIn(s, big)
      && Word32(s, 4, big) ==
         (if e.op == CompareMem then 8192
          else if e.op == Compare || e.op == TestEnd || e.op == Sigill then arch.size(e.reg)
          else 0)
      && Word32(s, 8, big) ==
         (if e.op == Compare then 0
          else if e.op == TestEnd then 1
          else if e.op == SetMemblock then 2
          else if e.op == GetMemblock then 3
          else if e.op == CompareMem then 4
          else if e.op == SetupBegin then 5
          else if e.op == SetupEnd then 6
          else 0xFFFF_FFFF)
      && Load(s[12 + arch.ptr.Gap()..], big) == arch.pc(e.reg)
  {
    hide Load, MagicIn, Encode;
    PowersOf256();
    var s, big := HeaderBytes(arch, e), arch.masterBig;
    RawEncode(HeaderOf(arch, e), big, big, arch.ptr);
    MagicLoad(s, big);
    LoadWord(s, 4, big);
    LoadWord(s, 8, big);
  }
}
