/** util/util.c: the display's pool of unlocked video buffers, `check_args`,
    and the `fill` test pattern with its CPU-access fencing. */
module Util {
  import opened Common
  import opened Fourcc

  // ---------------------------------------------------------------------
  // The unlocked-buffer pool

  /** Where `list_add` links a new entry.  The list helpers are defined
      outside the modelled files.  With the Linux kernel's convention a new
      entry goes right after the head (`AddAtFront`) and, since a buffer is
      taken with `list_last_entry`, the pool is first-in first-out; a
      helper that appends at the tail (`AddAtBack`) makes it last-in
      first-out.  The model keeps both. */
  datatype ListOrder = AddAtFront | AddAtBack

  /** The list after `list_add` of b; index 0 is the first entry after the
      head and the last index is `list_last_entry`. */
  function Added(order: ListOrder, l: seq<Buffer>, b: Buffer): (r: seq<Buffer>)
    ensures |r| == |l| + 1
    ensures order == AddAtFront ==> r[0] == b && r[1..] == l
    ensures order == AddAtBack ==> r[..|l|] == l && r[|l|] == b
  {
    match order
    case AddAtFront => [b] + l
    case AddAtBack => l + [b]
  }

  /** The list after `list_init` and `list_add` of every buffer in turn. */
  function Seeded(order: ListOrder, bs: seq<Buffer>): seq<Buffer>
  {
    if bs == [] then [] else Added(order, Seeded(order, bs[..|bs| - 1]), bs[|bs| - 1])
  }

  /** The buffers that successive takes return, until the list is empty. */
  function Drain(l: seq<Buffer>): seq<Buffer>
  {
    if l == [] then [] else [l[|l| - 1]] + Drain(l[..|l| - 1])
  }

  /** Adding puts exactly that buffer in the list. */
  lemma AddedHolds(order: ListOrder, l: seq<Buffer>, b: Buffer)
    ensures multiset(Added(order, l, b)) == multiset(l) + multiset{b}
  {
    if order == AddAtFront {
      assert Added(order, l, b) == [b] + l;
    } else {
      assert Added(order, l, b) == l + [b];
    }
  }

  /** Adding a buffer the list does not hold keeps its entries distinct. */
  lemma AddedDistinct(order: ListOrder, l: seq<Buffer>, b: Buffer)
    requires Distinct(l) && b !in l
    ensures Distinct(Added(order, l, b))
  {
    var r := Added(order, l, b);
    forall i, j | 0 <= i < j < |r| ensures r[i] != r[j] {
      if order == AddAtFront {
        if i == 0 { assert r[j] == l[j - 1]; } else { assert r[i] == l[i - 1] && r[j] == l[j - 1]; }
      } else {
        if j == |l| { assert r[i] == l[i]; }
      }
    }
  }

  /** Seeding one more buffer adds it to the list seeded so far. */
  lemma SeededStep(order: ListOrder, bs: seq<Buffer>, i: nat)
    requires i < |bs|
    ensures Seeded(order, bs[..i + 1]) == Added(order, Seeded(order, bs[..i]), bs[i])
  {
    assert bs[..i + 1][..i] == bs[..i];
  }

  /** Seeding puts exactly the allocated buffers in the pool. */
  lemma {:induction false} SeededHoldsAll(order: ListOrder, bs: seq<Buffer>)
    ensures |Seeded(order, bs)| == |bs|
    ensures multiset(Seeded(order, bs)) == multiset(bs)
  {
    if bs != [] {
      SeededHoldsAll(order, bs[..|bs| - 1]);
      AddedHolds(order, Seeded(order, bs[..|bs| - 1]), bs[|bs| - 1]);
      assert bs == bs[..|bs| - 1] + [bs[|bs| - 1]];
    }
  }

  /** Seeding keeps distinct buffers pairwise distinct in the pool. */
  lemma {:induction false} SeededDistinct(order: ListOrder, bs: seq<Buffer>)
    requires Distinct(bs)
    ensures Distinct(Seeded(order, bs))
  {
    if bs != [] {
      var init := bs[..|bs| - 1];
      var b := bs[|bs| - 1];
      SeededDistinct(order, init);
      SeededHoldsAll(order, init);
      assert b !in init;
      assert b !in multiset(Seeded(order, init));
      AddedDistinct(order, Seeded(order, init), b);
    }
  }

  /** Seeding under each convention: with `AddAtFront` the list is the
      allocation order reversed, with `AddAtBack` it is that order. */
  lemma {:induction false} SeededOrder(order: ListOrder, bs: seq<Buffer>)
    ensures |Seeded(order, bs)| == |bs|
    ensures order == AddAtFront ==>
      forall k :: 0 <= k < |bs| ==> Seeded(order, bs)[k] == bs[|bs| - 1 - k]
    ensures order == AddAtBack ==> Seeded(order, bs) == bs
  {
    if bs != [] {
      var init := bs[..|bs| - 1];
      var b := bs[|bs| - 1];
      SeededOrder(order, init);
      assert bs == init + [b];
    }
  }

  /** The first take after seeding: `buffers[0]` under the kernel
      convention, the last allocated buffer otherwise. */
  lemma FirstTakeAfterSeeding(order: ListOrder, bs: seq<Buffer>)
    requires |bs| > 0
    ensures Seeded(order, bs) != []
    ensures order == AddAtFront ==> Drain(Seeded(order, bs))[0] == bs[0]
    ensures order == AddAtBack ==> Drain(Seeded(order, bs))[0] == bs[|bs| - 1]
  {
    SeededOrder(order, bs);
  }

  /** A buffer put back is taken again only after everything already in
      the pool (first-in first-out) under `AddAtFront`, and immediately
      (last-in first-out) under `AddAtBack`. */
  lemma {:induction false} PutThenDrain(order: ListOrder, l: seq<Buffer>, b: Buffer)
    ensures order == AddAtFront ==> Drain(Added(order, l, b)) == Drain(l) + [b]
    ensures order == AddAtBack ==> Drain(Added(order, l, b)) == [b] + Drain(l)
  {
    if order == AddAtFront && l != [] {
      var r := Added(order, l, b);
      assert r[..|r| - 1] == Added(order, l[..|l| - 1], b);
      PutThenDrain(order, l[..|l| - 1], b);
    } else if order == AddAtBack {
      assert Added(order, l, b)[..|l|] == l;
    }
  }

  /** The video-buffer bookkeeping of `struct display`: the intrusive
      `unlocked` list, as the sequence of its entries from the first to
      the last. */
  class Display {
    const order: ListOrder
    var unlocked: seq<Buffer>

    /** A buffer is linked at most once. */
    ghost predicate Valid()
      reads this
    {
      Distinct(unlocked)
    }

    constructor (order: ListOrder)
      ensures this.order == order && unlocked == [] && Valid()
    {
      this.order := order;
      unlocked := [];
    }

    /** `disp_get_vid_buffers`: `fromBackend` is what the backend's
        `get_vid_buffers` returned (None for NULL).  On success the list is
        re-initialised and every buffer is added in turn; on failure it is
        left alone. */
    method GetVidBuffers(n: u32, fromBackend: Option<seq<Buffer>>) returns (buffers: Option<seq<Buffer>>)
      requires fromBackend.Some? ==> |fromBackend.value| == n && Distinct(fromBackend.value)
      requires Valid()
      modifies this
      ensures Valid()
      ensures buffers == fromBackend
      ensures fromBackend.None? ==> unlocked == old(unlocked)
      ensures fromBackend.Some? ==> unlocked == Seeded(order, fromBackend.value)
      ensures fromBackend.Some? ==> multiset(unlocked) == multiset(fromBackend.value)
    {
      buffers := fromBackend;
      if fromBackend.Some? {
        var bs := fromBackend.value;
        var l: seq<Buffer> := [];
        var i: nat := 0;
        while i < n
          invariant i <= n
          invariant l == Seeded(order, bs[..i])
        {
          SeededStep(order, bs, i);
          l := Added(order, l, bs[i]);
          i := i + 1;
        }
        assert bs[..n] == bs;
        SeededHoldsAll(order, bs);
        SeededDistinct(order, bs);
        unlocked := l;
      }
    }

    /** `disp_get_vid_buffer`: NULL from an empty pool; otherwise the last
        entry, unlinked, after a CPU prep/fini pair on its first BO. */
    method GetVidBuffer() returns (buf: Buffer?, fences: seq<CpuFence>)
      requires Valid()
      requires unlocked != [] ==> unlocked[|unlocked| - 1].Nbo() >= 1
      modifies this
      ensures Valid()
      ensures old(unlocked) == [] ==> buf == null && fences == [] && unlocked == old(unlocked)
      ensures old(unlocked) != [] ==>
        buf != null && [buf] + Drain(unlocked) == Drain(old(unlocked))
      ensures old(unlocked) != [] ==> buf == old(unlocked)[|old(unlocked)| - 1]
      ensures old(unlocked) != [] ==> unlocked == old(unlocked)[..|old(unlocked)| - 1]
      ensures old(unlocked) != [] ==> buf in old(unlocked) && buf !in unlocked
      ensures old(unlocked) != [] ==> multiset(unlocked) + multiset{buf} == multiset(old(unlocked))
      ensures buf != null ==> buf.Nbo() >= 1 && fences == [CpuPrep(buf.bo[0]), CpuFini(buf.bo[0])]
    {
      buf := null;
      fences := [];
      if unlocked != [] {
        var l := unlocked;
        buf := l[|l| - 1];
        unlocked := l[..|l| - 1];
        assert l == unlocked + [buf];
        fences := [CpuPrep(buf.bo[0]), CpuFini(buf.bo[0])];
      }
    }

    /** `disp_put_vid_buffer`: `list_add` without a membership test, so the
        buffer must not already be linked. */
    method PutVidBuffer(buf: Buffer)
      requires Valid() && buf !in unlocked
      modifies this
      ensures Valid()
      ensures unlocked == Added(order, old(unlocked), buf)
      ensures |unlocked| == |old(unlocked)| + 1 && buf in unlocked
    {
      AddedDistinct(order, unlocked, buf);
      AddedHolds(order, unlocked, buf);
      unlocked := Added(order, unlocked, buf);
      assert buf in multiset(unlocked);
    }
  }

  // ---------------------------------------------------------------------
  // check_args

  /** `check_args`: 0 when every argument after the program name has been
      consumed (set to NULL) by some parser, -1 otherwise. */
  method CheckArgs(argv: seq<Arg>) returns (ret: int)
    ensures ret == 0 || ret == -1
    ensures ret == 0 <==> forall i :: 1 <= i < |argv| ==> argv[i].None?
  {
    var i := 1;
    while i < |argv|
      invariant 1 <= i || |argv| <= i
      invariant forall k :: 1 <= k < i && k < |argv| ==> argv[k].None?
    {
      if argv[i].Some? {
        return -1;
      }
      i := i + 1;
    }
    return 0;
  }

  // ---------------------------------------------------------------------
  // fill

  /** C's `div()`: the quotient truncated toward zero. */
  function TruncDiv(a: int, b: int): (q: int)
    requires b != 0
    ensures a >= 0 && b > 0 ==> q == a / b
  {
    if (a >= 0) == (b > 0) then (if a >= 0 then a / b else -a / -b)
    else -((if a >= 0 then a else -a) / (if b > 0 then b else -b))
  }

  /** C's `div()`: the remainder, with the sign of the dividend. */
  function TruncMod(a: int, b: int): (r: int)
    requires b != 0
    ensures a == TruncDiv(a, b) * b + r
    ensures a >= 0 ==> 0 <= r < (if b > 0 then b else -b)
    ensures a < 0 ==> -(if b > 0 then b else -b) < r <= 0
  {
    a - TruncDiv(a, b) * b
  }

  /** An arithmetic right shift by 6 of a signed `int`, as gcc does it. */
  function Shr6(x: int): int
  {
    x / 64
  }

  /** The colour `fillRGB4` stores at column i of row j: with (q, r) the
      quotient and remainder of n+i+j by the width, the `uint32_t`
      0x00130502*(q>>6) + 0x000a1120*(r>>6). */
  function TileColour(n: int, width: int, i: int, j: int): u32
    requires width != 0
  {
    Wrap32(0x00130502 * Shr6(TruncDiv(n + i + j, width)) + 0x000a1120 * Shr6(TruncMod(n + i + j, width)))
  }

  /** The pattern depends on n, i and j only through n+i+j: moving the seed
      by one shifts the picture by one column, and each row is the previous
      one shifted by one column. */
  lemma TileDiagonal(n: int, width: int, i: int, j: int)
    requires width != 0
    ensures TileColour(n + 1, width, i, j) == TileColour(n, width, i + 1, j)
    ensures TileColour(n, width, i, j + 1) == TileColour(n, width, i + 1, j)
  {
  }

  /** The top-left 64-column block of a frame at least 64 pixels wide, with
      a seed of 0, is black: there q and r are both below 64. */
  lemma TileOriginBlack(width: int, i: int)
    requires width >= 64 && 0 <= i < 64
    ensures TileColour(0, width, i, 0) == 0
  {
    assert TruncDiv(i, width) == 0;
    assert TruncMod(i, width) == i;
  }

  /** `fillRGB4` on the mapped BO.  The mapping is seen as rows of 32-bit
      words, `fb[j, i]` being the word at byte j*stride + 4*i, so the
      stride must be a multiple of 4; the frame must fit the mapping. */
  method FillRgb4(fb: array2<u32>, n: int, width: int, height: int, stride: int)
    requires stride >= 0 && stride % 4 == 0 && fb.Length1 == stride / 4
    requires height <= fb.Length0 && width <= fb.Length1
    modifies fb
    ensures forall j, i :: 0 <= j < height && 0 <= i < width ==> fb[j, i] == TileColour(n, width, i, j)
    ensures forall j, i :: 0 <= j < fb.Length0 && 0 <= i < fb.Length1 && !(j < height && i < width) ==>
      fb[j, i] == old(fb[j, i])
  {
    var j := 0;
    while j < height
      invariant 0 <= j <= Max(height, 0)
      invariant forall jj, i :: 0 <= jj < j && 0 <= i < width ==> fb[jj, i] == TileColour(n, width, i, jj)
      invariant forall jj, i :: 0 <= jj < fb.Length0 && 0 <= i < fb.Length1 && !(jj < j && i < width) ==>
        fb[jj, i] == old(fb[jj, i])
    {
      var i := 0;
      while i < width
        invariant 0 <= i <= Max(width, 0) && j < height
        invariant forall jj, ii :: 0 <= jj < j && 0 <= ii < width ==> fb[jj, ii] == TileColour(n, width, ii, jj)
        invariant forall ii :: 0 <= ii < i ==> fb[j, ii] == TileColour(n, width, ii, j)
        invariant forall jj, ii ::
          (0 <= jj < fb.Length0 && 0 <= ii < fb.Length1 && !(jj < j && ii < width) && !(jj == j && ii < i)) ==>
          fb[jj, ii] == old(fb[jj, ii])
      {
        fb[j, i] := TileColour(n, width, i, j);
        i := i + 1;
      }
      j := j + 1;
    }
  }

  /** What `fill` draws, chosen by the buffer's fourcc. */
  datatype Pattern = Rgb4 | Yuv422 | Yuv420(chromaStep: nat) | InvalidFormat(fourcc: u32)

  /** The `switch` of `fill`: fourcc 0 is RGB, YUYV is 4:2:2, NV12 and I420
      are 4:2:0 with interleaved (step 2) and planar (step 1) chroma; any
      other value is only reported. */
  function PatternFor(fourcc: u32): (p: Pattern)
    ensures p.InvalidFormat? <==> !(fourcc == 0 || fourcc == YUYV || fourcc == NV12 || fourcc == I420)
    ensures p == Rgb4 <==> fourcc == 0
    ensures p == Yuv420(2) <==> fourcc == NV12
    ensures p == Yuv420(1) <==> fourcc == I420
  {
    if fourcc == 0 then Rgb4
    else if fourcc == YUYV then Yuv422
    else if fourcc == NV12 then Yuv420(2)
    else if fourcc == I420 then Yuv420(1)
    else InvalidFormat(fourcc)
  }

  /** The plane count each case of `fill` asserts (-1: no assertion). */
  function PlanesFor(p: Pattern): int
  {
    match p
    case Rgb4 => 1
    case Yuv422 => 1
    case Yuv420(step) => if step == 2 then 2 else 3
    case InvalidFormat(_) => -1
  }

  /** One step of `fill` as the BOs see it. */
  datatype FillEvent = Fence(fence: CpuFence) | Paint(pattern: Pattern)

  /** `fill(buf, n)`: prep every plane, draw, finish every plane.  The RGB
      case paints `mem`, the mapping of the first BO; the YUV fills are
      recorded by pattern only.  The `assert(nbo == …)` of each case is the
      caller's obligation. */
  method Fill(buf: Buffer, n: int, mem: array2<u32>) returns (events: seq<FillEvent>)
    requires PlanesFor(PatternFor(buf.fourcc)) == -1 || buf.Nbo() == PlanesFor(PatternFor(buf.fourcc))
    requires buf.fourcc == 0 ==>
      (|buf.pitches| >= 1 && buf.pitches[0] % 4 == 0 &&
       mem.Length1 == buf.pitches[0] / 4 && buf.height <= mem.Length0 && buf.width <= mem.Length1)
    modifies mem
    ensures |events| == 2 * buf.Nbo() + 1
    ensures forall k :: 0 <= k < buf.Nbo() ==>
      events[k] == Fence(CpuPrep(buf.bo[k])) && events[buf.Nbo() + 1 + k] == Fence(CpuFini(buf.bo[k]))
    ensures events[buf.Nbo()] == Paint(PatternFor(buf.fourcc))
    ensures buf.fourcc == 0 ==> forall j, i :: 0 <= j < buf.height && 0 <= i < buf.width ==>
      mem[j, i] == TileColour(n, buf.width, i, j)
    ensures forall j, i ::
      (0 <= j < mem.Length0 && 0 <= i < mem.Length1 && !(buf.fourcc == 0 && j < buf.height && i < buf.width)) ==>
      mem[j, i] == old(mem[j, i])
  {
    var preps := Fences(buf.bo, true);
    var pattern := PatternFor(buf.fourcc);
    if pattern == Rgb4 {
      FillRgb4(mem, n, buf.width, buf.height, buf.pitches[0]);
    }
    var finis := Fences(buf.bo, false);
    events := preps + [Paint(pattern)] + finis;
  }

  /** One of the two plane loops of `fill`: a prep (or fini) on every BO,
      in plane order. */
  method Fences(bo: seq<Bo>, prep: bool) returns (events: seq<FillEvent>)
    ensures |events| == |bo|
    ensures forall k :: 0 <= k < |bo| ==> events[k] == Fence(if prep then CpuPrep(bo[k]) else CpuFini(bo[k]))
  {
    events := [];
    var i := 0;
    while i < |bo|
      invariant 0 <= i <= |bo| && |events| == i
      invariant forall k :: 0 <= k < i ==> events[k] == Fence(if prep then CpuPrep(bo[k]) else CpuFini(bo[k]))
    {
      events := events + [Fence(if prep then CpuPrep(bo[i]) else CpuFini(bo[i]))];
      i := i + 1;
    }
  }
}
