/** viddec3test.c: decoding an H.264 file with the VIDDEC3 codec into the
    display's video buffers.  Modelled here: how the input file is picked
    from the arguments, the output-buffer geometry, and the decode loop's
    protocol with the buffer pool.  The codec is an oracle: what each
    `VIDDEC3_process` call answers is an input. */
module Viddec3Test {
  import opened Common
  import opened Fourcc
  import opened Util
  import DisplayKmscube

  // ---------------------------------------------------------------------
  // The input file

  /** The first argument from i on that no parser consumed. */
  function FirstArg(a: seq<Arg>, i: nat): (r: Option<nat>)
    ensures r.Some? ==> i <= r.value < |a| && a[r.value].Some?
    ensures r.Some? ==> forall k :: i <= k < r.value ==> a[k].None?
    ensures r.None? <==> forall k :: i <= k < |a| ==> a[k].None?
    decreases |a| - i
  {
    if i >= |a| then None
    else if a[i].Some? then Some(i)
    else FirstArg(a, i + 1)
  }

  /** The file-finding loop of `main`: only the first argument left over
      is tried; it is the input file when it opens (`opens`, `open` giving
      a positive fd), and its slot is then cleared. */
  method FindInputFile(argv: array<Arg>, opens: string -> bool) returns (infile: Option<string>)
    modifies argv
    ensures var k := FirstArg(old(argv[..]), 1);
      if k.Some? && opens(old(argv[k.value]).value)
      then infile == old(argv[k.value]) && argv[..] == old(argv[..])[k.value := None]
      else infile.None? && argv[..] == old(argv[..])
  {
    var i := 1;
    while i < argv.Length
      invariant 1 <= i
      invariant FirstArg(argv[..], i) == FirstArg(argv[..], 1)
      invariant argv[..] == old(argv[..])
      decreases argv.Length - i
    {
      if argv[i].Some? {
        if opens(argv[i].value) {
          infile := argv[i];
          argv[i] := None;
          return;
        }
        return None;
      }
      i := i + 1;
    }
    return None;
  }

  // ---------------------------------------------------------------------
  // Output geometry

  /** `PADX` and `PADY`: the H.264 codec's padding on each side. */
  const PADX: nat := 32
  const PADY: nat := 24

  /** The output buffers: size rounded up to whole macroblocks, the padded
      size the codec writes, how many buffers to ask for, and the size of
      the input buffer. */
  datatype Geometry = Geometry(width: u32, height: u32, paddedWidth: u32, paddedHeight: int,
                               numBuffers: int, inputSize: int)

  /** Macroblocks (16 x 16 pixels) in a frame of the aligned size. */
  function Macroblocks(width: u32, height: u32): nat
  {
    (width / 16) * (height / 16)
  }

  /** The source's `int` arithmetic on a size the demuxer reports does
      not overflow: the aligned sizes, the padded sizes and the input size
      all fit an `int`. */
  predicate FitsInt(w: u32, h: u32)
  {
    w < 0x8000_0000 && h < 0x8000_0000 &&
    Align2(w, 4) + 2 * PADX + 127 < 0x8000_0000 && Align2(h, 4) + 4 * PADY < 0x8000_0000 &&
    Align2(w, 4) * Align2(h, 4) < 0x8000_0000
  }

  /** The arithmetic of `main` after the demuxer reports the size.  None
      when there is no whole macroblock: a zero width or height makes the
      buffer count divide by zero, which ends the process. */
  function OutputGeometry(w: u32, h: u32): (g: Option<Geometry>)
    requires FitsInt(w, h)
    ensures g.None? <==> w == 0 || h == 0
    ensures g.Some? ==> g.value.width % 16 == 0 && w <= g.value.width < w + 16
    ensures g.Some? ==> g.value.height % 16 == 0 && h <= g.value.height < h + 16
    ensures g.Some? ==> g.value.paddedWidth % 128 == 0
    ensures g.Some? ==> g.value.width + 2 * PADX <= g.value.paddedWidth < g.value.width + 2 * PADX + 128
    ensures g.Some? ==> g.value.paddedHeight == g.value.height + 4 * PADY
    ensures g.Some? ==> 3 <= g.value.numBuffers <= 19
    ensures g.Some? ==> (g.value.numBuffers - 3) * Macroblocks(g.value.width, g.value.height) <= 32768
    ensures g.Some? ==> g.value.numBuffers == 19 || (g.value.numBuffers - 2) * Macroblocks(g.value.width, g.value.height) > 32768
    ensures g.Some? ==> g.value.inputSize == g.value.width * g.value.height
  {
    var width := Align2(w, 4);
    var height := Align2(h, 4);
    if width / 16 == 0 || height / 16 == 0 then None
    else
      var mb := Macroblocks(width, height);
      FewerMacroblocks(width, height);
      var frames := Min(16, 32768 / mb);
      FramesFit(mb, frames);
      Some(Geometry(width, height, Align2(width + 2 * PADX, 7), height + 4 * PADY, frames + 3, width * height))
  }

  /** An aligned frame has at least one macroblock, and no more of them
      than it has pixels. */
  lemma FewerMacroblocks(width: u32, height: u32)
    requires width % 16 == 0 && height % 16 == 0 && 0 < width && 0 < height
    ensures 0 < Macroblocks(width, height) <= width * height
  {
    var a, b := width / 16, height / 16;
    assert 1 <= a <= width && 1 <= b <= height;
    assert a * b <= width * b <= width * height;
  }

  /** `MIN(16, 32768 / mb)` is the most frames, up to 16, whose macroblocks
      fit in 32768. */
  lemma FramesFit(mb: nat, frames: int)
    requires mb > 0 && frames == Min(16, 32768 / mb)
    ensures 0 <= frames <= 16 && frames * mb <= 32768
    ensures frames == 16 || (frames + 1) * mb > 32768
  {
    var q := 32768 / mb;
    assert q * mb <= 32768 < (q + 1) * mb;
    if frames < q {
      assert frames * mb <= q * mb;
    }
  }

  // ---------------------------------------------------------------------
  // The decode loop

  /** `activeFrameRegion` of the codec's display buffer. */
  datatype Rect = Rect(left: int, top: int, right: int, bottom: int)

  /** What one `VIDDEC3_process` call answers: whether it failed and
      whether the failure is fatal, the buffers to show (`outputID`), those
      the codec no longer needs (`freeBufID`), and the region to show. */
  datatype ProcessResult = ProcessResult(err: bool, fatal: bool, outputs: seq<Buffer>, freed: seq<Buffer>, region: Rect)

  /** One `disp_post_vid_buffer` call. */
  datatype Post = Post(buf: Buffer, x: int, y: int, w: int, h: int)

  /** The post of one output: at the region's corner, with its size. */
  function PostOf(b: Buffer, r: Rect): Post
  {
    Post(b, r.left, r.top, r.right - r.left, r.bottom - r.top)
  }

  /** The posts for a list of outputs, in order. */
  function PostsOf(outputs: seq<Buffer>, r: Rect): (ps: seq<Post>)
    ensures |ps| == |outputs|
  {
    if outputs == [] then [] else PostsOf(outputs[..|outputs| - 1], r) + [PostOf(outputs[|outputs| - 1], r)]
  }

  /** Each output is posted once, in order, with the region's corner and
      size. */
  lemma {:induction false} PostsOfEach(outputs: seq<Buffer>, r: Rect)
    ensures forall k :: 0 <= k < |outputs| ==>
      PostsOf(outputs, r)[k] == Post(outputs[k], r.left, r.top, r.right - r.left, r.bottom - r.top)
  {
    if outputs != [] {
      PostsOfEach(outputs[..|outputs| - 1], r);
    }
  }

  /** The pool after `disp_put_vid_buffer` of each freed buffer in turn. */
  function ReturnAll(order: ListOrder, pool: seq<Buffer>, freed: seq<Buffer>): (r: seq<Buffer>)
    ensures |r| == |pool| + |freed|
  {
    if freed == [] then pool else Added(order, ReturnAll(order, pool, freed[..|freed| - 1]), freed[|freed| - 1])
  }

  /** After the returns the pool holds exactly the buffers it held and
      those returned. */
  lemma {:induction false} ReturnAllMembers(order: ListOrder, pool: seq<Buffer>, freed: seq<Buffer>)
    ensures multiset(ReturnAll(order, pool, freed)) == multiset(pool) + multiset(freed)
  {
    if freed != [] {
      var init := freed[..|freed| - 1];
      var b := freed[|freed| - 1];
      var r0 := ReturnAll(order, pool, init);
      assert ReturnAll(order, pool, freed) == Added(order, r0, b);
      ReturnAllMembers(order, pool, init);
      AddedHolds(order, r0, b);
      assert freed == init + [b];
      calc {
        multiset(ReturnAll(order, pool, freed));
        multiset(r0) + multiset{b};
        multiset(pool) + multiset(init) + multiset{b};
        multiset(pool) + multiset(freed);
      }
    }
  }

  /** What the codec may give back at a step: buffers out of the pool,
      each once, and with the BO the loop handed it. */
  ghost predicate ReturnsHeld(pool: seq<Buffer>, freed: seq<Buffer>)
  {
    Distinct(freed) && (forall k :: 0 <= k < |freed| ==> freed[k] !in pool && freed[k].Nbo() >= 1)
  }

  /** Every buffer of the pool has a BO, on which `disp_get_vid_buffer`
      fences CPU access. */
  ghost predicate HasBos(pool: seq<Buffer>)
  {
    forall k :: 0 <= k < |pool| ==> pool[k].Nbo() >= 1
  }

  /** Taking the last buffer and returning held ones keeps a BO in every
      buffer of the pool. */
  lemma ReturnAllHasBos(order: ListOrder, pool: seq<Buffer>, freed: seq<Buffer>)
    requires pool != [] && HasBos(pool)
    requires ReturnsHeld(pool[..|pool| - 1], freed)
    ensures HasBos(ReturnAll(order, pool[..|pool| - 1], freed))
  {
    var kept := pool[..|pool| - 1];
    var back := ReturnAll(order, kept, freed);
    ReturnAllMembers(order, kept, freed);
    forall k | 0 <= k < |back| ensures back[k].Nbo() >= 1 {
      assert back[k] in multiset(kept) + multiset(freed);
      if back[k] in kept {
        var m :| 0 <= m < |kept| && kept[m] == back[k];
        assert pool[m] == back[k];
      }
    }
  }

  // ---------------------------------------------------------------------
  // The planes handed to the codec

  /** A plane in device memory: a BO and the byte offset in it. */
  datatype PlaneRef = PlaneRef(bo: Bo, offset: nat)

  /** The luma and chroma planes of `outBufs->descs[0]` and `[1]`; None
      stands for a NULL BO. */
  datatype CodecPlanes = CodecPlanes(luma: Option<PlaneRef>, chroma: Option<PlaneRef>)

  /** The planes as written: `bo[0]` and `bo[1]`, each NULL when the buffer
      has no such BO. */
  function OutBufsAsWritten(b: Buffer): (p: CodecPlanes)
    ensures p.luma.None? <==> b.Nbo() == 0
    ensures p.chroma.None? <==> b.Nbo() < 2
    ensures p.chroma.Some? ==> p.chroma.value.bo == b.bo[1] && p.chroma.value.offset == 0
  {
    CodecPlanes(if b.Nbo() >= 1 then Some(PlaneRef(b.bo[0], 0)) else None,
                if b.Nbo() >= 2 then Some(PlaneRef(b.bo[1], 0)) else None)
  }

  /** The cube display makes every NV12 buffer as the one plane of its
      layout, so the chroma plane the source hands the codec is NULL, and
      `omap_bo_handle` dereferences it. */
  lemma CubeChromaNullAsWritten(b: Buffer, w: u32, h: u32)
    requires b.Nbo() == |DisplayKmscube.CubeLayout(NV12, w, h).value|
    ensures OutBufsAsWritten(b).chroma.None?
  {
  }

  /** The bytes of the luma plane of a single-BO NV12 buffer: its rows at
      the first pitch. */
  function LumaBytes(b: Buffer): nat
  {
    (if |b.pitches| > 0 then b.pitches[0] as nat else 0) * b.height
  }

  /** The planes handed to the codec: the second BO holds the chroma plane
      when there is one; in a single-BO NV12 buffer it follows the luma
      plane in the same BO. */
  function OutBufs(b: Buffer): (p: CodecPlanes)
    ensures b.Nbo() >= 2 ==> p == OutBufsAsWritten(b)
    ensures b.Nbo() == 1 ==> p.luma == Some(PlaneRef(b.bo[0], 0)) && p.chroma == Some(PlaneRef(b.bo[0], LumaBytes(b)))
    ensures b.Nbo() == 0 ==> p == CodecPlanes(None, None)
  {
    if b.Nbo() == 1 then CodecPlanes(Some(PlaneRef(b.bo[0], 0)), Some(PlaneRef(b.bo[0], LumaBytes(b))))
    else OutBufsAsWritten(b)
  }

  /** Every buffer with a BO gets both planes, and in a single BO that
      holds the rows of an NV12 frame (`pitch` x 3/2 height) the chroma
      plane lies after the luma plane and inside the BO. */
  lemma ChromaInsideBo(b: Buffer)
    requires b.Nbo() == 1 && |b.pitches| > 0
    requires b.pitches[0] * (b.height + b.height / 2) <= b.bo[0].size
    ensures OutBufs(b).luma.Some? && OutBufs(b).chroma.Some?
    ensures var c := OutBufs(b).chroma.value;
      c.bo == b.bo[0] && c.offset == b.pitches[0] * b.height &&
      c.offset + b.pitches[0] * (b.height / 2) <= b.bo[0].size
  {
    var p: nat := b.pitches[0];
    assert p * (b.height + b.height / 2) == p * b.height + p * (b.height / 2);
  }

  /** The result of the loop: `main`'s return value, the pool at the end,
      the posts made and the planes handed to the codec, one per
      iteration. */
  datatype Outcome = Outcome(ret: int, pool: seq<Buffer>, posts: seq<Post>, given: seq<CodecPlanes>)

  /** An outcome after posts already made and iterations already run. */
  function After(posts: seq<Post>, given: seq<CodecPlanes>, r: Outcome): Outcome
  {
    Outcome(r.ret, r.pool, posts + r.posts, given + r.given)
  }

  /** The `demux_read` result of iteration t: the file ends after `lens`. */
  function ReadAt(lens: seq<int>, t: nat): int
  {
    if t < |lens| then lens[t] else 0
  }

  /** The decode loop from iteration t on, with `pool` the unlocked list:
      an empty pool stops it with 1; otherwise one buffer is taken and the
      codec called with its planes; a fatal error stops it with 1;
      otherwise the outputs are posted and the freed buffers returned, and
      the loop ends with 0 after the iteration whose read found the end of
      the file. */
  function Run(order: ListOrder, pool: seq<Buffer>, lens: seq<int>, procs: seq<ProcessResult>, t: nat): Outcome
    requires t <= |lens| < |procs|
    decreases |lens| - t
  {
    if pool == [] then Outcome(1, pool, [], [])
    else
      var kept := pool[..|pool| - 1];
      var handed := [OutBufs(pool[|pool| - 1])];
      var pr := procs[t];
      if pr.err && pr.fatal then Outcome(1, kept, [], handed)
      else
        var back := ReturnAll(order, kept, pr.freed);
        var posts := PostsOf(pr.outputs, pr.region);
        if ReadAt(lens, t) == 0 then Outcome(0, back, posts, handed)
        else
          After(posts, handed, Run(order, back, lens, procs, t + 1))
  }

  /** The codec gives back only buffers it holds, at every iteration the
      loop reaches. */
  ghost predicate Honest(order: ListOrder, pool: seq<Buffer>, lens: seq<int>, procs: seq<ProcessResult>, t: nat)
    requires t <= |lens| < |procs|
    decreases |lens| - t
  {
    pool == [] ||
    var kept := pool[..|pool| - 1];
    var pr := procs[t];
    (pr.err && pr.fatal) ||
    (ReturnsHeld(kept, pr.freed) &&
     (ReadAt(lens, t) == 0 || Honest(order, ReturnAll(order, kept, pr.freed), lens, procs, t + 1)))
  }

  /** The index of the read that finds the end of the file. */
  function EndOfInput(lens: seq<int>, t: nat): (e: nat)
    requires t <= |lens|
    ensures t <= e <= |lens| && ReadAt(lens, e) == 0
    ensures forall k :: t <= k < e ==> lens[k] != 0
    decreases |lens| - t
  {
    if t == |lens| || lens[t] == 0 then t else EndOfInput(lens, t + 1)
  }

  /** A run that ends normally takes one buffer per read, up to and
      including the one that finds the end of the file; one that stops
      early returns 1 within that many iterations. */
  lemma {:induction false} RunLength(order: ListOrder, pool: seq<Buffer>, lens: seq<int>, procs: seq<ProcessResult>, t: nat)
    requires t <= |lens| < |procs|
    ensures Run(order, pool, lens, procs, t).ret == 0 || Run(order, pool, lens, procs, t).ret == 1
    ensures Run(order, pool, lens, procs, t).ret == 0 ==> |Run(order, pool, lens, procs, t).given| == EndOfInput(lens, t) - t + 1
    ensures |Run(order, pool, lens, procs, t).given| <= EndOfInput(lens, t) - t + 1
    decreases |lens| - t
  {
    if pool != [] {
      var kept := pool[..|pool| - 1];
      var pr := procs[t];
      if !(pr.err && pr.fatal) && ReadAt(lens, t) != 0 {
        RunLength(order, ReturnAll(order, kept, pr.freed), lens, procs, t + 1);
      }
    }
  }

  /** With an honest codec no buffer is ever linked twice. */
  lemma {:induction false} RunKeepsPoolDistinct(order: ListOrder, pool: seq<Buffer>, lens: seq<int>, procs: seq<ProcessResult>, t: nat)
    requires t <= |lens| < |procs|
    requires Distinct(pool)
    requires Honest(order, pool, lens, procs, t)
    ensures Distinct(Run(order, pool, lens, procs, t).pool)
    decreases |lens| - t
  {
    if pool != [] {
      var kept := pool[..|pool| - 1];
      var pr := procs[t];
      if !(pr.err && pr.fatal) {
        ReturnAllDistinct(order, kept, pr.freed);
        if ReadAt(lens, t) != 0 {
          RunKeepsPoolDistinct(order, ReturnAll(order, kept, pr.freed), lens, procs, t + 1);
        }
      }
    }
  }

  /** Returning buffers that are held, each once, keeps the pool free of
      duplicates. */
  lemma {:induction false} ReturnAllDistinct(order: ListOrder, pool: seq<Buffer>, freed: seq<Buffer>)
    requires Distinct(pool) && ReturnsHeld(pool, freed)
    ensures Distinct(ReturnAll(order, pool, freed))
  {
    if freed != [] {
      var init := freed[..|freed| - 1];
      var b := freed[|freed| - 1];
      ReturnAllDistinct(order, pool, init);
      ReturnAllMembers(order, pool, init);
      assert b !in multiset(init);
      assert b !in multiset(ReturnAll(order, pool, init));
      AddedDistinct(order, ReturnAll(order, pool, init), b);
    }
  }

  /** One iteration that gets past the codec: its posts and returns, then
      either the end or the rest of the loop. */
  lemma RunStep(order: ListOrder, pool: seq<Buffer>, lens: seq<int>, procs: seq<ProcessResult>, t: nat)
    requires t <= |lens| < |procs| && pool != [] && !(procs[t].err && procs[t].fatal)
    requires Honest(order, pool, lens, procs, t)
    ensures ReturnsHeld(pool[..|pool| - 1], procs[t].freed)
    ensures HasBos(pool) ==> HasBos(ReturnAll(order, pool[..|pool| - 1], procs[t].freed))
    ensures ReadAt(lens, t) == 0 ==>
      Run(order, pool, lens, procs, t) ==
      Outcome(0, ReturnAll(order, pool[..|pool| - 1], procs[t].freed), PostsOf(procs[t].outputs, procs[t].region), [OutBufs(pool[|pool| - 1])])
    ensures ReadAt(lens, t) != 0 ==>
      Honest(order, ReturnAll(order, pool[..|pool| - 1], procs[t].freed), lens, procs, t + 1)
    ensures ReadAt(lens, t) != 0 ==>
      Run(order, pool, lens, procs, t) ==
      After(PostsOf(procs[t].outputs, procs[t].region), [OutBufs(pool[|pool| - 1])], Run(order, ReturnAll(order, pool[..|pool| - 1], procs[t].freed), lens, procs, t + 1))
  {
    if HasBos(pool) {
      ReturnAllHasBos(order, pool, procs[t].freed);
    }
  }

  /** An iteration whose codec call fails fatally ends the run with 1. */
  lemma RunFatal(order: ListOrder, pool: seq<Buffer>, lens: seq<int>, procs: seq<ProcessResult>, t: nat)
    requires t <= |lens| < |procs| && pool != [] && procs[t].err && procs[t].fatal
    ensures Run(order, pool, lens, procs, t) == Outcome(1, pool[..|pool| - 1], [], [OutBufs(pool[|pool| - 1])])
  {
  }

  /** Outcomes compose: posts made in two rounds are made in order. */
  lemma AfterAfter(posts: seq<Post>, given: seq<CodecPlanes>, more: seq<Post>, handed: seq<CodecPlanes>, r: Outcome)
    ensures After(posts, given, After(more, handed, r)) == After(posts + more, given + handed, r)
  {
    assert posts + (more + r.posts) == (posts + more) + r.posts;
    assert given + (handed + r.given) == (given + handed) + r.given;
  }

  /** One pass of the loop after the buffer is taken: post the outputs,
      then return the freed buffers. */
  method Finish(disp: Display, pr: ProcessResult) returns (posts: seq<Post>)
    requires disp.Valid() && ReturnsHeld(disp.unlocked, pr.freed)
    modifies disp
    ensures disp.Valid()
    ensures posts == PostsOf(pr.outputs, pr.region)
    ensures disp.unlocked == ReturnAll(disp.order, old(disp.unlocked), pr.freed)
  {
    posts := [];
    var i := 0;
    while i < |pr.outputs|
      invariant i <= |pr.outputs|
      invariant posts == PostsOf(pr.outputs[..i], pr.region)
    {
      assert pr.outputs[..i + 1][..i] == pr.outputs[..i];
      posts := posts + [PostOf(pr.outputs[i], pr.region)];
      i := i + 1;
    }
    assert pr.outputs[..i] == pr.outputs;
    ghost var kept := disp.unlocked;
    var j := 0;
    while j < |pr.freed|
      invariant j <= |pr.freed|
      invariant disp.Valid()
      invariant disp.unlocked == ReturnAll(disp.order, kept, pr.freed[..j])
    {
      var b := pr.freed[j];
      assert pr.freed[..j + 1][..j] == pr.freed[..j];
      ReturnAllMembers(disp.order, kept, pr.freed[..j]);
      assert b !in pr.freed[..j];
      assert b !in multiset(disp.unlocked);
      disp.PutVidBuffer(b);
      j := j + 1;
    }
    assert pr.freed[..j] == pr.freed;
  }

  /** One iteration of the decode loop, from iteration t: take a buffer,
      hand it to the codec, post the outputs and return the freed buffers.
      `stop` when the loop ends here, with what `Run` gives; otherwise the
      rest of the loop goes on from the new pool. */
  method Iteration(disp: Display, lens: seq<int>, procs: seq<ProcessResult>, t: nat)
    returns (stop: bool, ret: int, out: seq<Post>, handed: seq<CodecPlanes>)
    requires disp.Valid() && t <= |lens| < |procs|
    requires HasBos(disp.unlocked) && Honest(disp.order, disp.unlocked, lens, procs, t)
    modifies disp
    ensures disp.Valid()
    ensures stop ==> Run(disp.order, old(disp.unlocked), lens, procs, t) == Outcome(ret, disp.unlocked, out, handed)
    ensures !stop ==> t < |lens| && HasBos(disp.unlocked) && Honest(disp.order, disp.unlocked, lens, procs, t + 1)
    ensures !stop ==> Run(disp.order, old(disp.unlocked), lens, procs, t) == After(out, handed, Run(disp.order, disp.unlocked, lens, procs, t + 1))
  {
    ghost var pool := disp.unlocked;
    var buf, _ := disp.GetVidBuffer();
    if buf == null {
      return true, 1, [], [];
    }
    var n := ReadAt(lens, t);
    handed := [OutBufs(buf)];
    var pr := procs[t];
    if pr.err && pr.fatal {
      RunFatal(disp.order, pool, lens, procs, t);
      return true, 1, [], handed;
    }
    RunStep(disp.order, pool, lens, procs, t);
    out := Finish(disp, pr);
    return n == 0, 0, out, handed;
  }

  /** The decode loop of `main` on the display's pool: `lens` answers
      `demux_read` and `procs` answers `VIDDEC3_process`, one per
      iteration.  The loop does what `Run` describes. */
  method DecodeLoop(disp: Display, lens: seq<int>, procs: seq<ProcessResult>)
    returns (ret: int, posts: seq<Post>, given: seq<CodecPlanes>)
    requires disp.Valid() && |lens| < |procs|
    requires HasBos(disp.unlocked)
    requires Honest(disp.order, disp.unlocked, lens, procs, 0)
    modifies disp
    ensures disp.Valid()
    ensures Outcome(ret, disp.unlocked, posts, given) == Run(disp.order, old(disp.unlocked), lens, procs, 0)
  {
    posts := [];
    given := [];
    var t := 0;
    while true
      invariant t <= |lens|
      invariant disp.Valid() && HasBos(disp.unlocked) && Honest(disp.order, disp.unlocked, lens, procs, t)
      invariant Run(disp.order, old(disp.unlocked), lens, procs, 0) == After(posts, given, Run(disp.order, disp.unlocked, lens, procs, t))
      decreases |lens| - t
    {
      var stop, r, out, handed := Iteration(disp, lens, procs, t);
      if stop {
        return r, posts + out, given + handed;
      }
      AfterAfter(posts, given, out, handed, Run(disp.order, disp.unlocked, lens, procs, t + 1));
      posts := posts + out;
      given := given + handed;
      t := t + 1;
    }
  }
}
