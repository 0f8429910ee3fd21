/** Packets over a byte stream: length-prefixed frames that survive any split of the stream
    into reads, and the gathering write that survives only some splits into writes.
 */
module Framing {
  import opened WireHeader

  // ---------------------------------------------------------------- receiving

  /** A packet on the wire: its length in network byte order, then its bytes. */
  function Frame(p: seq<Byte>): seq<Byte> { Store(4, |p|, true) + p }

  function Frames(ps: seq<seq<Byte>>): seq<Byte> {
    if ps == [] then [] else Frame(ps[0]) + Frames(ps[1..])
  }

  /** A packet goes out behind its length, most significant byte first. */
  lemma FrameBytes(p: seq<Byte>)
    requires |p| < 0x1_0000_0000
    ensures var n := |p|; var f := Frame(p);
      && |f| == 4 + n && f[4..] == p
      && f[0] == n / 0x100_0000 && f[1] == n / 0x1_0000 % 256 && f[2] == n / 256 % 256 && f[3] == n % 256
  {
    var n := |p|;
    var s := ToBytes(4, n);
    assert s == [n % 256] + ToBytes(3, n / 256);
    assert ToBytes(3, n / 256) == [n / 256 % 256] + ToBytes(2, n / 256 / 256);
    assert ToBytes(2, n / 256 / 256) == [n / 256 / 256 % 256] + ToBytes(1, n / 256 / 256 / 256);
    assert ToBytes(1, n / 256 / 256 / 256) == [n / 256 / 256 / 256 % 256] + ToBytes(0, n / 256 / 256 / 256 / 256);
    assert n / 256 / 256 == n / 0x1_0000 && n / 0x1_0000 / 256 == n / 0x100_0000;
    var r := Reversed(s);
    assert r[0] == s[3] && r[1] == s[2] && r[2] == s[1] && r[3] == s[0];
  }

  /** `Exit` is the end of the process on a closed connection. */
  datatype Recv = Exit | BadLength | Packet(data: seq<Byte>)

  /** What `recv_data_pkt` makes of the bytes that are going to arrive. */
  function TakePacket(stream: seq<Byte>, n: nat): (Recv, seq<Byte>) {
    if |stream| < 4 then (Exit, [])
    else
      var len := Load(stream[..4], true);
      if |stream| < 4 + len then (Exit, [])
      else (if len == n then Packet(stream[4..4 + len]) else BadLength, stream[4 + len..])
  }

  class Socket {
    /** Everything the peer will still send before it closes the connection. */
    var stream: seq<Byte>

    constructor (stream: seq<Byte>)
      ensures this.stream == stream
    {
      this.stream := stream;
    }

    /** `read`: some bytes, as few as one, and none only at the end of the stream. */
    method Read(max: nat) returns (chunk: seq<Byte>)
      requires max > 0
      modifies this
      ensures |chunk| <= max && old(stream) == chunk + stream
      ensures old(stream) != [] ==> chunk != []
    {
      chunk := [];
      if stream != [] {
        var k: nat :| 1 <= k <= max && k <= |stream|;
        chunk, stream := stream[..k], stream[k..];
      }
    }

    method RecvBytes(n: nat) returns (ok: bool, data: seq<Byte>)
      modifies this
      ensures ok <==> n <= |old(stream)|
      ensures ok ==> data == old(stream)[..n] && stream == old(stream)[n..]
      ensures !ok ==> stream == []
    {
      data := [];
      var left := n;
      while left > 0
        invariant 0 <= left <= n && |data| == n - left
        invariant old(stream) == data + stream
      {
        var chunk := Read(left);
        if chunk == [] {
          return false, data;
        }
        left := left - |chunk|;
        data := data + chunk;
      }
      ok := true;
    }

    method RecvAndDiscardBytes(n: nat) returns (ok: bool)
      modifies this
      ensures ok <==> n <= |old(stream)|
      ensures stream == if ok then old(stream)[n..] else []
    {
      var left := n;
      while left > 0
        invariant 0 <= left <= n && n - left <= |old(stream)|
        invariant stream == old(stream)[n - left..]
      {
        var len := if 64 > left then left else 64;
        var chunk := Read(len);
        if chunk == [] {
          return false;
        }
        left := left - |chunk|;
      }
      ok := true;
    }

    /** Receive a packet of the expected length, or drop the one that came. */
    method RecvDataPkt(n: nat) returns (r: Recv)
      modifies this
      ensures (r, stream) == TakePacket(old(stream), n)
    {
      hide Load;
      ghost var all := stream;
      var ok, word := RecvBytes(4);
      if !ok {
        return Exit;
      }
      var len := Load(word, true);
      assert 4 + len <= |all| ==> all[4..][..len] == all[4..4 + len] && all[4..][len..] == all[4 + len..];
      if len != n {
        ok := RecvAndDiscardBytes(len);
        r := if ok then BadLength else Exit;
      } else {
        var data;
        ok, data := RecvBytes(n);
        r := if ok then Packet(data) else Exit;
      }
    }
  }

  /** The packet at the head of the stream is returned whole or dropped whole. */
  lemma TakeFramed(p: seq<Byte>, rest: seq<Byte>, n: nat)
    requires |p| < Pow256(4)
    ensures TakePacket(Frame(p) + rest, n) == (Answer(p, n), rest)
  {
    var s := Frame(p) + rest;
    assert s[..4] == Store(4, |p|, true);
    LoadStore(4, |p|, true, true);
    assert s[4..4 + |p|] == p && s[4 + |p|..] == rest;
  }

  /** Receive one packet per expected length. */
  function TakeAll(stream: seq<Byte>, ns: seq<nat>): (seq<Recv>, seq<Byte>)
    decreases |ns|
  {
    if ns == [] then ([], stream)
    else
      var (r, rest) := TakePacket(stream, ns[0]);
      var (rs, end) := TakeAll(rest, ns[1..]);
      ([r] + rs, end)
  }

  /** Framing keeps step over any conversation: each expected length meets its own packet,
      and a wrong length costs that packet only. */
  lemma {:induction false} FramingKeepsStep(ps: seq<seq<Byte>>, ns: seq<nat>, rest: seq<Byte>)
    requires |ps| == |ns|
    requires forall i :: 0 <= i < |ps| ==> |ps[i]| < Pow256(4)
    ensures var (rs, end) := TakeAll(Frames(ps) + rest, ns); end == rest && InStep(rs, ps, ns)
  {
    if ps != [] {
      hide Frame, TakePacket, InStep;
      var more := Frames(ps[1..]) + rest;
      assert Frames(ps) + rest == Frame(ps[0]) + more;
      TakeFramed(ps[0], more, ns[0]);
      FramingKeepsStep(ps[1..], ns[1..], rest);
      InStepCons(Answer(ps[0], ns[0]), TakeAll(more, ns[1..]).0, ps, ns);
    }
  }

  function Answer(p: seq<Byte>, n: nat): Recv { if |p| == n then Packet(p) else BadLength }

  /** Each answer is about the packet of the same position. */
  ghost predicate InStep(rs: seq<Recv>, ps: seq<seq<Byte>>, ns: seq<nat>) {
    |rs| == |ps| == |ns| && forall i :: 0 <= i < |ps| ==> rs[i] == Answer(ps[i], ns[i])
  }

  lemma InStepCons(r: Recv, rs: seq<Recv>, ps: seq<seq<Byte>>, ns: seq<nat>)
    requires |ps| == |ns| > 0 && r == Answer(ps[0], ns[0]) && InStep(rs, ps[1..], ns[1..])
    ensures InStep([r] + rs, ps, ns)
  {
    hide Answer;
    assert forall i :: 0 < i < |ps| ==> ps[i] == ps[1..][i - 1] && ns[i] == ns[1..][i - 1];
  }

  // ---------------------------------------------------------------- sending

  /** An I/O vector entry: `iov_base` and `iov_len`. */
  datatype Block = Block(base: seq<Byte>, len: nat)

  ghost predicate Sound(blocks: seq<Block>) {
    forall i :: 0 <= i < |blocks| ==> blocks[i].len <= |blocks[i].base|
  }

  /** What the vector still holds, as the kernel sees it. */
  function Pending(blocks: seq<Block>): seq<Byte>
    requires Sound(blocks)
  {
    if blocks == [] then [] else blocks[0].base[..blocks[0].len] + Pending(blocks[1..])
  }

  /** The bookkeeping after a write of `k` bytes: a block that was cut short loses length
      at its end, because `iov_base` stays where it was. */
  function Advance(blocks: seq<Block>, k: nat): (r: seq<Block>)
    ensures Sound(blocks) ==> Sound(r)
  {
    if blocks == [] then []
    else if k >= blocks[0].len then Advance(blocks[1..], k - blocks[0].len)
    else [blocks[0].(len := blocks[0].len - k)] + blocks[1..]
  }

  /** `ks` are possible return values of the successive calls of `writev`. */
  ghost predicate Writes(blocks: seq<Block>, ks: seq<nat>)
    requires Sound(blocks)
    decreases |ks|
  {
    if blocks == [] then ks == []
    else
      && ks != []
      && ks[0] <= |Pending(blocks)|
      && (Pending(blocks) != [] ==> ks[0] > 0)
      && Writes(Advance(blocks, ks[0]), ks[1..])
  }

  /** The bytes that reach the peer. */
  ghost function OnTheWire(blocks: seq<Block>, ks: seq<nat>): seq<Byte>
    requires Sound(blocks) && Writes(blocks, ks)
    decreases |ks|
  {
    if blocks == [] then []
    else Pending(blocks)[..ks[0]] + OnTheWire(Advance(blocks, ks[0]), ks[1..])
  }

  function Sum(ks: seq<nat>): nat {
    if ks == [] then 0 else ks[0] + Sum(ks[1..])
  }

  lemma {:induction false} AdvanceLength(blocks: seq<Block>, k: nat)
    requires Sound(blocks) && k <= |Pending(blocks)|
    ensures |Pending(Advance(blocks, k))| == |Pending(blocks)| - k
  {
    if blocks != [] {
      var b := blocks[0];
      if k >= b.len {
        AdvanceLength(blocks[1..], k - b.len);
      } else {
        assert Advance(blocks, k)[1..] == blocks[1..];
      }
    }
  }

  /** The number of bytes sent is right whatever the splits were. */
  lemma {:induction false} WritevCount(blocks: seq<Block>, ks: seq<nat>)
    requires Sound(blocks) && Writes(blocks, ks)
    ensures |OnTheWire(blocks, ks)| == |Pending(blocks)| == Sum(ks)
    decreases |ks|
  {
    if blocks != [] {
      AdvanceLength(blocks, ks[0]);
      WritevCount(Advance(blocks, ks[0]), ks[1..]);
    }
  }

  // When the content is right too.

  /** A write of `k` bytes ends between two blocks. */
  predicate OnBoundary(blocks: seq<Block>, k: nat) {
    blocks == [] || if k >= blocks[0].len then OnBoundary(blocks[1..], k - blocks[0].len) else k == 0
  }

  ghost predicate Clean(blocks: seq<Block>, ks: seq<nat>)
    requires Sound(blocks) && Writes(blocks, ks)
    decreases |ks|
  {
    blocks == [] || (OnBoundary(blocks, ks[0]) && Clean(Advance(blocks, ks[0]), ks[1..]))
  }

  lemma {:induction false} CleanAdvance(blocks: seq<Block>, k: nat)
    requires Sound(blocks) && k <= |Pending(blocks)| && OnBoundary(blocks, k)
    ensures Pending(blocks) == Pending(blocks)[..k] + Pending(Advance(blocks, k))
  {
    if blocks != [] {
      var b := blocks[0];
      var head, rest := b.base[..b.len], Pending(blocks[1..]);
      if k >= b.len {
        CleanAdvance(blocks[1..], k - b.len);
        assert Advance(blocks, k) == Advance(blocks[1..], k - b.len);
        hide Pending, Advance, OnBoundary;
        FrontJoins(head, rest, k, Pending(Advance(blocks, k)));
      } else {
        assert Advance(blocks, k) == blocks;
      }
    }
  }

  lemma FrontJoins(head: seq<Byte>, rest: seq<Byte>, k: nat, left: seq<Byte>)
    requires |head| <= k <= |head| + |rest| && rest == rest[..k - |head|] + left
    ensures head + rest == (head + rest)[..k] + left
  {
    assert (head + rest)[..k] == head + rest[..k - |head|];
  }

  lemma {:induction false} CleanIsExact(blocks: seq<Block>, ks: seq<nat>)
    requires Sound(blocks) && Writes(blocks, ks) && Clean(blocks, ks)
    ensures OnTheWire(blocks, ks) == Pending(blocks)
    decreases |ks|
  {
    if blocks != [] {
      CleanAdvance(blocks, ks[0]);
      CleanIsExact(Advance(blocks, ks[0]), ks[1..]);
    }
  }

  /** Two vectors of the same shape: only the bytes differ. */
  ghost predicate SameShape(a: seq<Block>, b: seq<Block>) {
    |a| == |b| && forall i :: 0 <= i < |a| ==> a[i].len == b[i].len && |a[i].base| == |b[i].base|
  }

  lemma {:induction false} ShapeLength(a: seq<Block>, b: seq<Block>)
    requires Sound(a) && Sound(b) && SameShape(a, b)
    ensures |Pending(a)| == |Pending(b)|
  {
    if a != [] {
      ShapeLength(a[1..], b[1..]);
    }
  }

  lemma {:induction false} ShapeAdvance(a: seq<Block>, b: seq<Block>, k: nat)
    requires SameShape(a, b)
    ensures SameShape(Advance(a, k), Advance(b, k))
    ensures OnBoundary(a, k) <==> OnBoundary(b, k)
  {
    if a != [] {
      ShapeParts(a, b, k);
      hide SameShape;
      if k >= a[0].len {
        ShapeAdvance(a[1..], b[1..], k - a[0].len);
      }
    }
  }

  lemma ShapeParts(a: seq<Block>, b: seq<Block>, k: nat)
    requires SameShape(a, b) && a != []
    ensures b != [] && a[0].len == b[0].len && SameShape(a[1..], b[1..])
    ensures k < a[0].len ==>
      SameShape([a[0].(len := a[0].len - k)] + a[1..], [b[0].(len := b[0].len - k)] + b[1..])
  {
  }

  /** Which splits are possible, and which are clean, depends on the lengths alone. */
  lemma {:induction false} ShapeWrites(a: seq<Block>, b: seq<Block>, ks: seq<nat>)
    requires Sound(a) && Sound(b) && SameShape(a, b) && Writes(a, ks)
    ensures Writes(b, ks)
    ensures Clean(a, ks) <==> Clean(b, ks)
    decreases |ks|
  {
    if a != [] {
      ShapeLength(a, b);
      ShapeAdvance(a, b, ks[0]);
      ShapeWrites(Advance(a, ks[0]), Advance(b, ks[0]), ks[1..]);
    }
  }

  function Zeros(blocks: seq<Block>): (r: seq<Block>)
    ensures |r| == |blocks|
    ensures forall i :: 0 <= i < |r| ==> r[i].len == blocks[i].len && |r[i].base| == |blocks[i].base|
    ensures forall i, j :: 0 <= i < |r| && 0 <= j < |r[i].base| ==> r[i].base[j] == 0
  {
    seq(|blocks|, i requires 0 <= i < |blocks| => Block(seq(|blocks[i].base|, _ => 0), blocks[i].len))
  }

  /** Content that shows a cut inside the first block: its first byte is sent again. */
  lemma CutFirst(blocks: seq<Block>, k: nat) returns (w: seq<Block>)
    requires Sound(blocks) && blocks != [] && 0 < k < blocks[0].len
    ensures Sound(w) && SameShape(blocks, w)
    ensures k < |Pending(w)| && Pending(w)[k] == 0
    ensures Pending(Advance(w, k)) != [] && Pending(Advance(w, k))[0] == 1
  {
    var b := blocks[0];
    var first := Block([1] + seq(|b.base| - 1, _ => 0), b.len);
    w := [first] + Zeros(blocks)[1..];
    assert Pending(w)[k] == first.base[k];
    assert Pending(Advance(w, k))[0] == first.base[0];
  }

  lemma {:induction false} CutWitness(blocks: seq<Block>, k: nat) returns (w: seq<Block>)
    requires Sound(blocks) && k < |Pending(blocks)| && !OnBoundary(blocks, k)
    ensures Sound(w) && SameShape(blocks, w)
    ensures k < |Pending(w)| && Pending(w)[k] == 0
    ensures Pending(Advance(w, k)) != [] && Pending(Advance(w, k))[0] == 1
  {
    if k >= blocks[0].len {
      var rest := CutWitness(blocks[1..], k - blocks[0].len);
      w := [Zeros(blocks)[0]] + rest;
      assert w[1..] == rest;
      hide OnBoundary, Zeros;
      InFront(w, k);
    } else {
      w := CutFirst(blocks, k);
    }
  }

  /** A block in front of the cut moves it. */
  lemma InFront(w: seq<Block>, k: nat)
    requires Sound(w) && w != [] && k >= w[0].len && k < w[0].len + |Pending(w[1..])|
    ensures k < |Pending(w)| && Pending(w)[k] == Pending(w[1..])[k - w[0].len]
    ensures Advance(w, k) == Advance(w[1..], k - w[0].len)
  {
  }

  lemma {:induction false} ExtendWitness(blocks: seq<Block>, k: nat, w': seq<Block>) returns (w: seq<Block>)
    requires Sound(blocks) && k <= |Pending(blocks)| && OnBoundary(blocks, k)
    requires Sound(w') && SameShape(Advance(blocks, k), w')
    ensures Sound(w) && SameShape(blocks, w)
    ensures Advance(w, k) == w'
  {
    if blocks == [] {
      w := [];
    } else if k >= blocks[0].len {
      var rest := ExtendWitness(blocks[1..], k - blocks[0].len, w');
      w := [Zeros(blocks)[0]] + rest;
      assert w[1..] == rest;
    } else {
      assert Advance(blocks, k) == blocks;
      w := w';
      assert Advance(w, k) == w;
    }
  }

  /** If some short write ended inside a block, there is content that arrives corrupted. */
  lemma {:induction false} DirtyCorrupts(blocks: seq<Block>, ks: seq<nat>) returns (w: seq<Block>)
    requires Sound(blocks) && Writes(blocks, ks) && !Clean(blocks, ks)
    ensures Sound(w) && SameShape(blocks, w) && Writes(w, ks)
    ensures OnTheWire(w, ks) != Pending(w)
    decreases |ks|
  {
    var k := ks[0];
    if OnBoundary(blocks, k) {
      var w' := DirtyCorrupts(Advance(blocks, k), ks[1..]);
      w := ExtendWitness(blocks, k, w');
      ShapeWrites(blocks, w, ks);
      ShapeAdvance(blocks, w, k);
      CleanAdvance(w, k);
      assert OnTheWire(w, ks)[k..] == OnTheWire(w', ks[1..]);
    } else {
      BoundaryAtEnd(blocks, k);
      w := CutWitness(blocks, k);
      ShapeWrites(blocks, w, ks);
      var rest := OnTheWire(Advance(w, k), ks[1..]);
      WritevCount(Advance(w, k), ks[1..]);
      assert rest[0] == 1;
      assert OnTheWire(w, ks)[k] == rest[0];
    }
  }

  lemma {:induction false} BoundaryAtEnd(blocks: seq<Block>, k: nat)
    requires Sound(blocks) && k <= |Pending(blocks)| && !OnBoundary(blocks, k)
    ensures k < |Pending(blocks)|
  {
    if k >= blocks[0].len {
      BoundaryAtEnd(blocks[1..], k - blocks[0].len);
    }
  }

  /** `safe_writev` delivers every content of a given shape intact exactly when each short
      write ends between two blocks. */
  lemma WritevExactness(blocks: seq<Block>, ks: seq<nat>)
    requires Sound(blocks) && Writes(blocks, ks)
    ensures Clean(blocks, ks) <==>
      forall w :: Sound(w) && SameShape(blocks, w) && Writes(w, ks) ==> OnTheWire(w, ks) == Pending(w)
  {
    if Clean(blocks, ks) {
      forall w | Sound(w) && SameShape(blocks, w) && Writes(w, ks)
        ensures OnTheWire(w, ks) == Pending(w)
      {
        ShapeWrites(blocks, w, ks);
        CleanIsExact(w, ks);
      }
    } else {
      var w := DirtyCorrupts(blocks, ks);
    }
  }

  /** The inner loop: step over the blocks that `k` bytes used up. */
  method SkipWritten(bases: seq<seq<Byte>>, lens: array<nat>, start: nat, k: nat) returns (iov: nat, left: nat)
    requires |bases| == lens.Length && start < lens.Length
    requires forall i :: start <= i < lens.Length ==> lens[i] <= |bases[i]|
    ensures start <= iov <= lens.Length
    ensures iov < lens.Length ==> left < lens[iov]
    ensures Advance(Vector(bases, lens[..], start), k) == Advance(Vector(bases, lens[..], iov), left)
  {
    iov, left := start, k;
    while iov < lens.Length && left >= lens[iov]
      invariant start <= iov <= lens.Length
      invariant Advance(Vector(bases, lens[..], start), k) == Advance(Vector(bases, lens[..], iov), left)
    {
      VectorTail(bases, lens[..], iov);
      left := left - lens[iov];
      iov := iov + 1;
    }
  }

  /** The loop of `safe_writev`; `ks` are the results `writev` is going to return. */
  method SafeWritev(bases: seq<seq<Byte>>, lens: array<nat>, ks: seq<nat>) returns (r: nat, wire: seq<Byte>)
    requires |bases| == lens.Length > 0
    requires forall i :: 0 <= i < lens.Length ==> lens[i] <= |bases[i]|
    requires Writes(Vector(bases, lens[..], 0), ks)
    modifies lens
    ensures wire == old(OnTheWire(Vector(bases, lens[..], 0), ks))
    ensures r == |wire| == old(|Pending(Vector(bases, lens[..], 0))|)
  {
    hide Advance, Vector, Pending, Writes, OnTheWire;
    ghost var start := Vector(bases, lens[..], 0);
    WritevCount(start, ks);
    assert ks[0..] == ks && [] + OnTheWire(start, ks) == OnTheWire(start, ks);
    r, wire := 0, [];
    var iov, call := 0, 0;
    while iov < lens.Length
      invariant iov <= lens.Length && call <= |ks|
      invariant forall i :: iov <= i < lens.Length ==> lens[i] <= |bases[i]|
      invariant Writes(Vector(bases, lens[..], iov), ks[call..])
      invariant OnTheWire(start, ks) == wire + OnTheWire(Vector(bases, lens[..], iov), ks[call..])
      invariant r == |wire|
      decreases |ks| - call
    {
      ghost var blocks := Vector(bases, lens[..], iov);
      WriteStep(blocks, ks[call..]);
      var k := ks[call];
      var offered := Gather(bases, lens[..], iov);
      ghost var later := OnTheWire(Advance(blocks, k), ks[call..][1..]);
      assert (wire + offered[..k]) + later == wire + (offered[..k] + later);
      wire := wire + offered[..k];
      r := r + k;
      assert ks[call..][1..] == ks[call + 1..];
      call := call + 1;
      var left;
      iov, left := SkipWritten(bases, lens, iov, k);
      if iov < lens.Length {
        VectorCut(bases, lens[..], iov, left);
        ghost var cut := lens[..][iov := lens[iov] - left];
        lens[iov] := lens[iov] - left;
        assert lens[..] == cut;
      } else {
        VectorEmpty(bases, lens[..], left);
      }
    }
    VectorEmpty(bases, lens[..], 0);
    NothingLeft(ks[call..]);
  }

  /** The first of the remaining writes. */
  lemma WriteStep(blocks: seq<Block>, ks: seq<nat>)
    requires Sound(blocks) && blocks != [] && Writes(blocks, ks)
    ensures ks != [] && ks[0] <= |Pending(blocks)| && Writes(Advance(blocks, ks[0]), ks[1..])
    ensures OnTheWire(blocks, ks) == Pending(blocks)[..ks[0]] + OnTheWire(Advance(blocks, ks[0]), ks[1..])
  {
    hide Pending, Advance;
  }

  lemma NothingLeft(ks: seq<nat>)
    requires Writes([], ks)
    ensures OnTheWire([], ks) == []
  {
  }

  lemma VectorEmpty(bases: seq<seq<Byte>>, lens: seq<nat>, k: nat)
    requires |bases| == |lens|
    ensures Vector(bases, lens, |lens|) == [] && Advance(Vector(bases, lens, |lens|), k) == []
  {
  }

  ghost function Vector(bases: seq<seq<Byte>>, lens: seq<nat>, from: nat): (r: seq<Block>)
    requires |bases| == |lens| && from <= |lens|
    requires forall i :: from <= i < |lens| ==> lens[i] <= |bases[i]|
    ensures Sound(r) && |r| == |lens| - from
  {
    seq(|lens| - from, i requires 0 <= i < |lens| - from => Block(bases[from + i], lens[from + i]))
  }

  lemma VectorTail(bases: seq<seq<Byte>>, lens: seq<nat>, from: nat)
    requires |bases| == |lens| && from < |lens|
    requires forall i :: from <= i < |lens| ==> lens[i] <= |bases[i]|
    ensures Vector(bases, lens, from)[1..] == Vector(bases, lens, from + 1)
    ensures Vector(bases, lens, from)[0] == Block(bases[from], lens[from])
  {
  }

  lemma VectorCut(bases: seq<seq<Byte>>, lens: seq<nat>, from: nat, k: nat)
    requires |bases| == |lens| && from < |lens| && k < lens[from]
    requires forall i :: from <= i < |lens| ==> lens[i] <= |bases[i]|
    ensures Advance(Vector(bases, lens, from), k) == Vector(bases, lens[from := lens[from] - k], from)
  {
  }

  /** The bytes `writev` is offered. */
  method Gather(bases: seq<seq<Byte>>, lens: seq<nat>, from: nat) returns (s: seq<Byte>)
    requires |bases| == |lens| && from <= |lens|
    requires forall i :: from <= i < |lens| ==> lens[i] <= |bases[i]|
    ensures s == Pending(Vector(bases, lens, from))
  {
    s := [];
    var i := |lens|;
    while i > from
      invariant from <= i <= |lens|
      invariant s == Pending(Vector(bases, lens, i))
    {
      i := i - 1;
      VectorTail(bases, lens, i);
      s := bases[i][..lens[i]] + s;
    }
  }

  /** `send_data_pkt` puts a proper frame on the wire whenever no write ends inside the
      length word or inside the packet. */
  lemma SendIsFramed(p: seq<Byte>, ks: seq<nat>)
    requires var v := [Block(Store(4, |p|, true), 4), Block(p, |p|)]; Sound(v) && Writes(v, ks) && Clean(v, ks)
    ensures OnTheWire([Block(Store(4, |p|, true), 4), Block(p, |p|)], ks) == Frame(p)
  {
    var v := [Block(Store(4, |p|, true), 4), Block(p, |p|)];
    CleanIsExact(v, ks);
    assert v[1..][1..] == [];
    assert v[1..][0].base[..|p|] == p;
    assert Pending(v[1..]) == p + Pending([]);
  }
}
