/** The trace header that precedes every payload, as bytes on the wire.

    A header is written in the byte order of the emulated target and read by a
    peer of either byte order, which recognises a foreign order by the magic number.
 */
module WireHeader {

  type Byte = x: int | 0 <= x < 256

  /** 'R' 'I' 'S' 'U', most significant byte first. */
  const RISU_MAGIC := 0x52495355

  /** The fields of `trace_header_t`; `op` holds the 32-bit pattern of the signed op number. */
  datatype Header = Header(magic: nat, size: nat, op: nat, pc: nat)

  function Pow256(n: nat): (r: nat)
    ensures r > 0
  {
    if n == 0 then 1 else 256 * Pow256(n - 1)
  }

  /** The `n` low bytes of `v`, least significant first. */
  function ToBytes(n: nat, v: nat): (s: seq<Byte>)
    ensures |s| == n
  {
    if n == 0 then [] else [v % 256] + ToBytes(n - 1, v / 256)
  }

  function FromBytes(s: seq<Byte>): nat {
    if s == [] then 0 else s[0] + 256 * FromBytes(s[1..])
  }

  function Reversed(s: seq<Byte>): (r: seq<Byte>)
    ensures |r| == |s|
    ensures forall i :: 0 <= i < |s| ==> r[i] == s[|s| - 1 - i]
  {
    if s == [] then [] else Reversed(s[1..]) + [s[0]]
  }

  lemma {:induction false} FromToBytes(n: nat, v: nat)
    requires v < Pow256(n)
    ensures FromBytes(ToBytes(n, v)) == v
  {
    if n > 0 {
      FromToBytes(n - 1, v / 256);
      assert ToBytes(n, v)[1..] == ToBytes(n - 1, v / 256);
    }
  }

  lemma {:induction false} ToFromBytes(s: seq<Byte>)
    ensures FromBytes(s) < Pow256(|s|)
    ensures ToBytes(|s|, FromBytes(s)) == s
  {
    if s != [] {
      ToFromBytes(s[1..]);
      var v := FromBytes(s);
      assert v % 256 == s[0] && v / 256 == FromBytes(s[1..]);
    }
  }

  lemma ReversedTwice(s: seq<Byte>)
    ensures Reversed(Reversed(s)) == s
  {
    assert forall i :: 0 <= i < |s| ==> Reversed(Reversed(s))[i] == s[i];
  }

  /** `BYTESWAP_32` and `BYTESWAP_64`: the value whose bytes are those of `v` in reverse. */
  function Swap(n: nat, v: nat): nat {
    FromBytes(Reversed(ToBytes(n, v)))
  }

  lemma SwapTwice(n: nat, v: nat)
    requires v < Pow256(n)
    ensures Swap(n, v) < Pow256(n)
    ensures Swap(n, Swap(n, v)) == v
  {
    var s := ToBytes(n, v);
    ToFromBytes(Reversed(s));
    ReversedTwice(s);
    FromToBytes(n, v);
  }

  /** How a host of the given byte order stores an `n`-byte field, and how it loads one. */
  function Store(n: nat, v: nat, big: bool): (s: seq<Byte>)
    ensures |s| == n
  {
    if big then Reversed(ToBytes(n, v)) else ToBytes(n, v)
  }

  function Load(s: seq<Byte>, big: bool): nat {
    FromBytes(if big then Reversed(s) else s)
  }

  lemma LoadStore(n: nat, v: nat, big: bool, big': bool)
    requires v < Pow256(n)
    ensures Load(Store(n, v, big), big') == if big == big' then v else Swap(n, v)
  {
    FromToBytes(n, v);
    ReversedTwice(ToBytes(n, v));
  }

  /** `arch_ptr_t` has four or eight bytes; eight-byte pointers are aligned, which leaves a gap. */
  datatype PtrSize = Ptr32 | Ptr64 {
    function Bytes(): nat { if Ptr32? then 4 else 8 }
    function Gap(): nat { if Ptr32? then 0 else 4 }
  }

  function HeaderLen(p: PtrSize): nat { 12 + p.Gap() + p.Bytes() }

  ghost predicate Fits(h: Header, p: PtrSize) {
    h.magic < Pow256(4) && h.size < Pow256(4) && h.op < Pow256(4) && h.pc < Pow256(p.Bytes())
  }

  /** The bytes of a header in byte order `big`. */
  function Encode(h: Header, big: bool, p: PtrSize): (s: seq<Byte>)
    ensures |s| == HeaderLen(p)
  {
    Store(4, h.magic, big) + Store(4, h.size, big) + Store(4, h.op, big)
    + Store(p.Gap(), 0, big) + Store(p.Bytes(), h.pc, big)
  }

  /** The struct as a host of byte order `big` sees it after the raw read. */
  function Raw(s: seq<Byte>, big: bool, p: PtrSize): Header
    requires |s| == HeaderLen(p)
  {
    Header(Load(s[0..4], big), Load(s[4..8], big), Load(s[8..12], big), Load(s[12 + p.Gap()..], big))
  }

  /** `byte_swap_header`. */
  function SwapHeader(h: Header, p: PtrSize): Header {
    Header(Swap(4, h.magic), Swap(4, h.size), Swap(4, h.op), Swap(p.Bytes(), h.pc))
  }

  /** Read a header and undo a foreign byte order (`header_arch_to_host`). */
  function Decode(s: seq<Byte>, big: bool, p: PtrSize): Header
    requires |s| == HeaderLen(p)
  {
    var raw := Raw(s, big, p);
    if raw.magic == Swap(4, RISU_MAGIC) then SwapHeader(raw, p) else raw
  }

  lemma PowersOf256()
    ensures Pow256(4) == 0x1_0000_0000
    ensures Pow256(8) == 0x1_0000_0000_0000_0000
  {
    assert Pow256(1) == 256 && Pow256(2) == 0x1_0000;
    assert Pow256(3) == 0x100_0000 && Pow256(4) == 0x1_0000_0000;
    assert Pow256(5) == 0x100_0000_0000 && Pow256(6) == 0x1_0000_0000_0000;
    assert Pow256(7) == 0x100_0000_0000_0000;
  }

  /** The magic number is not its own byte swap, so the order test is unambiguous. */
  lemma MagicNotPalindrome()
    ensures RISU_MAGIC < Pow256(4)
    ensures Swap(4, RISU_MAGIC) == 0x55534952
  {
    PowersOf256();
    assert ToBytes(1, 0x52) == [0x52] + ToBytes(0, 0);
    assert ToBytes(2, 0x5249) == [0x49] + ToBytes(1, 0x52);
    assert ToBytes(3, 0x524953) == [0x53] + ToBytes(2, 0x5249);
    assert ToBytes(4, RISU_MAGIC) == [0x55] + ToBytes(3, 0x524953);
    var s := Reversed(ToBytes(4, RISU_MAGIC));
    assert s == [0x52, 0x49, 0x53, 0x55];
    assert s[1..] == [0x49, 0x53, 0x55] && s[1..][1..] == [0x53, 0x55] && s[1..][1..][1..] == [0x55];
    assert FromBytes([0x55]) == 0x55;
    assert FromBytes([0x53, 0x55]) == 0x5553;
    assert FromBytes([0x49, 0x53, 0x55]) == 0x555349;
  }

  lemma Fields(a: seq<Byte>, b: seq<Byte>, c: seq<Byte>, d: seq<Byte>, e: seq<Byte>)
    requires |a| == |b| == |c| == 4
    ensures var s := a + b + c + d + e;
      s[0..4] == a && s[4..8] == b && s[8..12] == c && s[12 + |d|..] == e
  {
  }

  lemma RawEncode(h: Header, big: bool, big': bool, p: PtrSize)
    requires Fits(h, p)
    ensures Raw(Encode(h, big, p), big', p) == if big == big' then h else SwapHeader(h, p)
  {
    hide Store, Load;
    Fields(Store(4, h.magic, big), Store(4, h.size, big), Store(4, h.op, big),
           Store(p.Gap(), 0, big), Store(p.Bytes(), h.pc, big));
    LoadStore(4, h.magic, big, big');
    LoadStore(4, h.size, big, big');
    LoadStore(4, h.op, big, big');
    LoadStore(p.Bytes(), h.pc, big, big');
  }

  /** A header survives the wire whatever the byte orders of writer and reader. */
  lemma HeaderRoundTrip(h: Header, big: bool, big': bool, p: PtrSize)
    requires h.magic == RISU_MAGIC && Fits(h, p)
    ensures Decode(Encode(h, big, p), big', p) == h
  {
    RawEncode(h, big, big', p);
    MagicNotPalindrome();
    SwapTwice(4, h.magic);
    SwapTwice(4, h.size);
    SwapTwice(4, h.op);
    SwapTwice(p.Bytes(), h.pc);
  }

  // ---------------------------------------------------------------- the length of the payload

  /** `header_host_to_arch`: a host of the other byte order swaps the header in place. */
  function ToArch(h: Header, hostBig: bool, targetBig: bool, p: PtrSize): Header {
    if hostBig != targetBig && h.magic != Swap(4, RISU_MAGIC) then SwapHeader(h, p) else h
  }

  /** The length passed to the payload write, which reads `header.size` after the swap. */
  function PayloadLength(h: Header, hostBig: bool, targetBig: bool, p: PtrSize): nat {
    ToArch(h, hostBig, targetBig, p).size
  }

  const MEMBLOCKLEN := 8192

  /** A value is its own byte swap exactly when its bytes read the same backwards. */
  lemma SwapFixes(v: nat)
    requires v < Pow256(4)
    ensures Swap(4, v) == v <==> Reversed(ToBytes(4, v)) == ToBytes(4, v)
  {
    hide FromBytes, ToBytes, Reversed, Pow256;
    FromToBytes(4, v);
    ToFromBytes(Reversed(ToBytes(4, v)));
  }

  /** The payload is sent at its announced length exactly when the sender's own byte order is the
      target's, or the bytes of the length read the same backwards. */
  lemma PayloadLengthRight(h: Header, hostBig: bool, targetBig: bool, p: PtrSize)
    requires h.magic == RISU_MAGIC && Fits(h, p)
    ensures PayloadLength(h, hostBig, targetBig, p) == h.size <==>
      hostBig == targetBig || Reversed(ToBytes(4, h.size)) == ToBytes(4, h.size)
  {
    hide Swap, ToBytes, Reversed, Pow256;
    MagicNotPalindrome();
    SwapFixes(h.size);
  }

  /** A short length has zeros above it, and does not read the same backwards. */
  lemma ShortLength(v: nat)
    requires 0 < v < 0x1_0000
    ensures Reversed(ToBytes(4, v)) != ToBytes(4, v)
  {
    var s := ToBytes(4, v);
    var v1, v2 := v / 256, v / 256 / 256;
    assert v1 < 256 && v2 == 0;
    assert s == [v % 256] + ToBytes(3, v1);
    assert ToBytes(3, v1) == [v1] + ToBytes(2, 0);
    assert ToBytes(2, 0) == [0] + ToBytes(1, 0);
    assert ToBytes(1, 0) == [0] + ToBytes(0, 0);
    assert s[0] == v % 256 && s[1] == v1 && s[2] == 0 && s[3] == 0;
  }

  /** For every register image below 64 KiB, and for the memory block, only the order decides. */
  lemma LengthNeedsNativeOrder(h: Header, hostBig: bool, targetBig: bool, p: PtrSize)
    requires h.magic == RISU_MAGIC && Fits(h, p) && 0 < h.size < 0x1_0000
    ensures PayloadLength(h, hostBig, targetBig, p) == h.size <==> hostBig == targetBig
  {
    hide PayloadLength, ToBytes, Reversed;
    PayloadLengthRight(h, hostBig, targetBig, p);
    ShortLength(h.size);
  }
}
