/** The buffer allocation shared by the two KMS backends (the `alloc_bo`,
    `alloc_buffer` and `alloc_buffers` of util/display-kms.c and
    util/display-kmscube.c, which differ only in the cache flag and in the
    plane layouts): BO flags, pitch and size, the BO requests made to the
    driver, and the `struct buffer` built from the driver's answers. */
module Omap {
  import opened Common

  // The `OMAP_BO_*` flags of the kernel's omap_drm.h (not part of this
  // model); flags are kept as bit-vectors so that `&`, `|` and `~` read as
  // in C.
  const SCANOUT: bv32 := 0x1
  const CACHED: bv32 := 0x0
  const WC: bv32 := 0x2
  const TILED_8: bv32 := 0x100
  const TILED_16: bv32 := 0x200
  const TILED_32: bv32 := 0x300
  /** `OMAP_BO_TILED`, the union of the three tiling modes. */
  const TILED: bv32 := 0x300

  /** `PAGE_SHIFT`: 4 KiB pages. */
  const PAGE_SHIFT: nat := 12

  predicate Tiled(flags: bv32)
  {
    flags & TILED != 0
  }

  /** The tiling mode `alloc_bo` picks when all tiling bits are set ("auto"):
      the mode that matches the bits per pixel, none for other depths. */
  function AutoTileMode(bpp: u32): bv32
  {
    if bpp == 8 then TILED_8 else if bpp == 16 then TILED_16 else if bpp == 32 then TILED_32 else 0
  }

  /** The flags `alloc_bo` passes to the driver: "auto" tiling is replaced
      by the mode for this depth, any other tiling choice is kept, and the
      backend's cache flag is added. */
  function AllocFlags(flags: bv32, bpp: u32, cache: bv32): (r: bv32)
    requires cache & TILED == 0
    ensures r & cache == cache
    ensures r & !TILED == (flags | cache) & !TILED
    ensures flags & TILED == TILED ==> r & TILED == AutoTileMode(bpp)
    ensures flags & TILED != TILED ==> r & TILED == flags & TILED
  {
    var f := if flags & TILED == TILED then (flags & !TILED) | AutoTileMode(bpp) else flags;
    f | cache
  }

  /** `TILED_32` has every tiling bit, so a request for 32-bit tiling is
      read as "auto": 8-bit planes of such a buffer get 8-bit tiling. */
  lemma Tiled32IsAuto(flags: bv32, cache: bv32)
    requires cache & TILED == 0
    ensures AllocFlags(flags | TILED_32, 8, cache) & TILED == TILED_8
    ensures AllocFlags(flags | TILED_32, 16, cache) & TILED == TILED_16
  {
  }

  /** The pitch `alloc_bo` reports: width*bpp/8 bytes in `uint32_t`,
      rounded up to a whole page when the BO is tiled. */
  function Pitch(width: u32, bpp: u32, tiled: bool): (p: u32)
    requires bpp == 8 || bpp == 16 || bpp == 32
    ensures width * bpp < U32_LIMIT && !tiled ==> p * 8 == width * bpp
    ensures width * bpp < U32_LIMIT && tiled ==>
      p % 4096 == 0 && width * bpp / 8 <= p < width * bpp / 8 + 4096
  {
    var row := Wrap32(width * bpp) / 8;
    RowBytes(width, bpp);
    if tiled then Align2(row, PAGE_SHIFT) else row
  }

  /** Without wrap-around, width*bpp/8 is exact for the three depths. */
  lemma RowBytes(width: u32, bpp: u32)
    requires bpp == 8 || bpp == 16 || bpp == 32
    ensures width * bpp < U32_LIMIT ==> Wrap32(width * bpp) / 8 * 8 == width * bpp
    ensures width * bpp < U32_LIMIT ==> Wrap32(width * bpp) / 8 == width * bpp / 8 < U32_LIMIT - 4095
  {
    if bpp == 8 {
      assert width * bpp == width * 8;
    } else if bpp == 16 {
      assert width * bpp == width * 16;
    } else {
      assert width * bpp == width * 32;
    }
  }

  /** Without wrap-around, the linear size is the plane's exact byte count. */
  lemma LinearBytes(width: u32, height: u32, bpp: u32)
    requires bpp == 8 || bpp == 16 || bpp == 32
    ensures width * height * bpp < U32_LIMIT ==> Wrap32(Wrap32(width * height) * bpp) / 8 * 8 == width * height * bpp
  {
    var a := width * height;
    if a * bpp < U32_LIMIT {
      WholeBytes(a, bpp);
    }
  }

  /** a pixels of bpp bits fill whole bytes, and a fits 32 bits when they do. */
  lemma WholeBytes(a: nat, bpp: u32)
    requires bpp == 8 || bpp == 16 || bpp == 32
    requires a * bpp < U32_LIMIT
    ensures Wrap32(a) == a && Wrap32(a * bpp) / 8 * 8 == a * bpp
  {
    var m := bpp / 8;
    assert a * bpp == 8 * (a * m);
    assert a <= a * m;
  }

  /** What `alloc_bo` asks of the driver: a tiled BO of width x height
      pixels, or a linear one of width*height*bpp/8 bytes (`uint32_t`). */
  datatype BoRequest = NewTiled(width: u32, height: u32, flags: bv32) | NewLinear(size: u32, flags: bv32)

  /** One plane of a layout: depth and size in pixels. */
  datatype Plane = Plane(bpp: u32, width: u32, height: u32)

  predicate ValidPlane(p: Plane)
  {
    p.bpp == 8 || p.bpp == 16 || p.bpp == 32
  }

  /** The request `alloc_bo` makes for a plane, and the pitch it records
      when the driver answers with a BO. */
  function PlanBo(boFlags: bv32, cache: bv32, p: Plane): (r: (BoRequest, u32))
    requires cache & TILED == 0 && ValidPlane(p)
    ensures r.0.flags & cache == cache
    ensures r.0.NewTiled? <==> Tiled(AllocFlags(boFlags, p.bpp, cache))
    ensures r.0.NewTiled? ==> r.0.width == p.width && r.0.height == p.height
    ensures r.0.NewLinear? && p.width * p.height * p.bpp < U32_LIMIT ==> r.0.size * 8 == p.width * p.height * p.bpp
    ensures r.1 == Pitch(p.width, p.bpp, r.0.NewTiled?)
  {
    var f := AllocFlags(boFlags, p.bpp, cache);
    LinearBytes(p.width, p.height, p.bpp);
    var req := if Tiled(f) then NewTiled(p.width, p.height, f)
      else NewLinear(Wrap32(Wrap32(p.width * p.height) * p.bpp) / 8, f);
    (req, Pitch(p.width, p.bpp, Tiled(f)))
  }

  /** `alloc_buffer` after the layout is chosen: one `alloc_bo` per plane,
      answered by `bos`, then the backend's registration of the buffer
      (`drmModeAddFB2` for KMS, `eglCreateImageKHR` for the GL backend),
      answered by `handle`.  Neither backend checks a BO for NULL: the KMS
      backend passes handle 0 on to `drmModeAddFB2`, which the kernel
      refuses, and the GL backend dereferences it; so a failed BO is
      allowed only with a failed registration. */
  method AllocBuffer(fourcc: u32, w: u32, h: u32, layout: Option<seq<Plane>>, boFlags: bv32, cache: bv32,
                     bos: seq<Option<Bo>>, handle: Option<u32>)
    returns (buf: Buffer?, requests: seq<BoRequest>)
    requires cache & TILED == 0
    requires layout.Some? ==> |bos| == |layout.value| && forall k :: 0 <= k < |bos| ==> ValidPlane(layout.value[k])
    requires (exists k :: 0 <= k < |bos| && bos[k].None?) ==> handle.None?
    ensures layout.None? ==> buf == null && requests == []
    ensures layout.Some? ==> |requests| == |bos| && forall k :: 0 <= k < |bos| ==>
      requests[k] == PlanBo(boFlags, cache, layout.value[k]).0
    ensures buf != null <==> layout.Some? && handle.Some?
    ensures buf != null ==> fresh(buf) && buf.fourcc == fourcc && buf.width == w && buf.height == h
    ensures buf != null ==> buf.handle == handle.value && |buf.bo| == |buf.pitches| == |bos|
    ensures buf != null ==> forall k :: 0 <= k < |bos| ==>
      Some(buf.bo[k]) == bos[k] && buf.pitches[k] == PlanBo(boFlags, cache, layout.value[k]).1
  {
    buf := null;
    requests := [];
    if layout.None? {
      return;
    }
    var planes := layout.value;
    var bo: seq<Bo> := [];
    var pitches: seq<u32> := [];
    var k := 0;
    while k < |planes|
      invariant 0 <= k <= |planes|
      invariant |requests| == |bo| == |pitches| == k
      invariant forall i :: 0 <= i < k ==> requests[i] == PlanBo(boFlags, cache, planes[i]).0
      invariant forall i :: 0 <= i < k && bos[i].Some? ==>
        bo[i] == bos[i].value && pitches[i] == PlanBo(boFlags, cache, planes[i]).1
    {
      var plan := PlanBo(boFlags, cache, planes[k]);
      requests := requests + [plan.0];
      if bos[k].Some? {
        bo := bo + [bos[k].value];
        pitches := pitches + [plan.1];
      } else {
        // No BO: the buffer keeps a zero handle and pitch.
        bo := bo + [Bo(0, 0, -1, 0)];
        pitches := pitches + [0];
      }
      k := k + 1;
    }
    if handle.Some? {
      buf := new Buffer(fourcc, w, h, bo, pitches, handle.value);
    }
  }

  /** `alloc_buffers`: n buffers of one format, stopping at the first that
      fails (the buffers already made are not released).  `answers[i]` is
      the driver's answers for buffer i. */
  method AllocBuffers(n: u32, fourcc: u32, w: u32, h: u32, layout: Option<seq<Plane>>, boFlags: bv32, cache: bv32,
                      answers: seq<(seq<Option<Bo>>, Option<u32>)>)
    returns (bufs: Option<seq<Buffer>>)
    requires cache & TILED == 0 && |answers| == n
    requires layout.Some? ==> forall k :: 0 <= k < |layout.value| ==> ValidPlane(layout.value[k])
    requires forall i :: 0 <= i < n ==> layout.Some? ==> |answers[i].0| == |layout.value|
    requires forall i :: 0 <= i < n ==> (exists k :: 0 <= k < |answers[i].0| && answers[i].0[k].None?) ==> answers[i].1.None?
    ensures bufs.Some? <==> n == 0 || (layout.Some? && forall i :: 0 <= i < n ==> answers[i].1.Some?)
    ensures bufs.Some? ==> |bufs.value| == n && Distinct(bufs.value)
    ensures bufs.Some? ==> forall i :: 0 <= i < n ==>
      var b := bufs.value[i];
      fresh(b) && b.fourcc == fourcc && b.width == w && b.height == h && b.handle == answers[i].1.value &&
      |b.bo| == |answers[i].0| && forall k :: 0 <= k < |b.bo| ==> Some(b.bo[k]) == answers[i].0[k]
  {
    var made: seq<Buffer> := [];
    var i: nat := 0;
    while i < n
      invariant i <= n && |made| == i && Distinct(made)
      invariant i > 0 ==> layout.Some?
      invariant forall j :: 0 <= j < i ==> answers[j].1.Some?
      invariant forall j :: 0 <= j < i ==>
        var b := made[j];
        fresh(b) && b.fourcc == fourcc && b.width == w && b.height == h && b.handle == answers[j].1.value &&
        |b.bo| == |answers[j].0| && forall k :: 0 <= k < |b.bo| ==> Some(b.bo[k]) == answers[j].0[k]
    {
      var b, _ := AllocBuffer(fourcc, w, h, layout, boFlags, cache, answers[i].0, answers[i].1);
      if b == null {
        return None;
      }
      made := made + [b];
      i := i + 1;
    }
    return Some(made);
  }
}
