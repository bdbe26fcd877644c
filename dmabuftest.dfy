/** dmabuftest.c: camera frames shown without copying.  The display's
    video buffers are handed to the V4L2 capture device as dma-bufs; each
    frame the camera fills is dequeued and posted to the display.  The
    display and the kernel are oracles: whether the display opens, the
    buffers it hands out, the index each `VIDIOC_DQBUF` reports and the
    result of each post are inputs. */
module DmabufTest {
  import opened Common
  import opened Util
  import opened V4l2

  /** `NBUF` and `CNT`: buffers shared and frames captured. */
  const NBUF: u32 := 3
  const CNT: nat := 500

  /** What the test asks of the camera and the display. */
  datatype CamEvent =
    | Queued(buf: Buffer)
    | StreamOn
    | Dequeued(buf: Buffer)
    | Shown(buf: Buffer, x: u32, y: u32, w: u32, h: u32)
    | StreamOff

  /** The indexes `v4l2_dqbuf` reads are those of the buffers requested. */
  predicate IndexesInRange(dq: seq<DqAnswer>)
  {
    |dq| >= CNT && forall i :: 0 <= i < |dq| ==> dq[i].Slot() < NBUF
  }

  /** Iteration i of the loop (1 <= i < CNT): queue buffer i mod NBUF,
      dequeue the one the driver reports (`dq[i - 1]`) and show it whole. */
  function Round(bs: seq<Buffer>, dq: seq<DqAnswer>, i: nat, w: u32, h: u32): (r: seq<CamEvent>)
    requires |bs| == NBUF && IndexesInRange(dq) && 1 <= i < CNT
    ensures |r| == 3
  {
    var shown := bs[dq[i - 1].Slot()];
    [Queued(bs[i % NBUF]), Dequeued(shown), Shown(shown, 0, 0, w, h)]
  }

  /** The events of iterations 1 to n - 1. */
  function Rounds(bs: seq<Buffer>, dq: seq<DqAnswer>, n: nat, w: u32, h: u32): (r: seq<CamEvent>)
    requires |bs| == NBUF && IndexesInRange(dq) && n <= CNT
  {
    if n <= 1 then [] else Rounds(bs, dq, n - 1, w, h) + Round(bs, dq, n - 1, w, h)
  }

  /** The number of buffers queued to the driver. */
  function Queues(tr: seq<CamEvent>): nat
  {
    if tr == [] then 0 else Queues(tr[..|tr| - 1]) + (if tr[|tr| - 1].Queued? then 1 else 0)
  }

  /** The number of buffers dequeued from the driver. */
  function Dequeues(tr: seq<CamEvent>): nat
  {
    if tr == [] then 0 else Dequeues(tr[..|tr| - 1]) + (if tr[|tr| - 1].Dequeued? then 1 else 0)
  }

  /** Both counts add up over a concatenation. */
  lemma {:induction false} CountsOfConcat(a: seq<CamEvent>, b: seq<CamEvent>)
    ensures Queues(a + b) == Queues(a) + Queues(b)
    ensures Dequeues(a + b) == Dequeues(a) + Dequeues(b)
    decreases |b|
  {
    if b != [] {
      var b' := b[..|b| - 1];
      assert (a + b)[..|a + b| - 1] == a + b';
      var e := b[|b| - 1];
      assert (a + b)[|a + b| - 1] == e;
      CountsOfConcat(a, b');
      assert Queues(a + b) == Queues(a + b') + (if e.Queued? then 1 else 0);
      assert Dequeues(a + b) == Dequeues(a + b') + (if e.Dequeued? then 1 else 0);
    } else {
      assert a + b == a;
    }
  }

  /** The counts of a single event. */
  lemma CountsOfOne(e: CamEvent)
    ensures Queues([e]) == (if e.Queued? then 1 else 0)
    ensures Dequeues([e]) == (if e.Dequeued? then 1 else 0)
  {
    assert [e][..0] == [];
  }

  /** One iteration queues one buffer and dequeues one. */
  lemma RoundBalance(bs: seq<Buffer>, dq: seq<DqAnswer>, i: nat, w: u32, h: u32)
    requires |bs| == NBUF && IndexesInRange(dq) && 1 <= i < CNT
    ensures Queues(Round(bs, dq, i, w, h)) == 1 && Dequeues(Round(bs, dq, i, w, h)) == 1
  {
    var r := Round(bs, dq, i, w, h);
    CountsOfOne(r[0]);
    CountsOfOne(r[1]);
    CountsOfOne(r[2]);
    CountsOfConcat([r[0]], [r[1]]);
    CountsOfConcat([r[0], r[1]], [r[2]]);
    assert r == [r[0], r[1]] + [r[2]] && [r[0], r[1]] == [r[0]] + [r[1]];
  }

  /** Every iteration queues one buffer and dequeues one. */
  lemma {:induction false} RoundsBalance(bs: seq<Buffer>, dq: seq<DqAnswer>, n: nat, w: u32, h: u32)
    requires |bs| == NBUF && IndexesInRange(dq) && 1 <= n <= CNT
    ensures Queues(Rounds(bs, dq, n, w, h)) == n - 1
    ensures Dequeues(Rounds(bs, dq, n, w, h)) == n - 1
  {
    if n > 1 {
      RoundsBalance(bs, dq, n - 1, w, h);
      RoundBalance(bs, dq, n - 1, w, h);
      CountsOfConcat(Rounds(bs, dq, n - 1, w, h), Round(bs, dq, n - 1, w, h));
    }
  }

  /** The whole run when no post fails: buffer 0 queued before streaming
      starts, CNT - 1 iterations, then one more dequeue after streaming
      stops. */
  function FullRun(bs: seq<Buffer>, dq: seq<DqAnswer>, w: u32, h: u32): seq<CamEvent>
    requires |bs| == NBUF && IndexesInRange(dq)
  {
    [Queued(bs[0]), StreamOn] + Rounds(bs, dq, CNT, w, h) + [StreamOff, Dequeued(bs[dq[CNT - 1].Slot()])]
  }

  /** Queues and dequeues balance: CNT of each. */
  lemma FullRunBalances(bs: seq<Buffer>, dq: seq<DqAnswer>, w: u32, h: u32)
    requires |bs| == NBUF && IndexesInRange(dq)
    ensures Queues(FullRun(bs, dq, w, h)) == CNT && Dequeues(FullRun(bs, dq, w, h)) == CNT
  {
    var start: seq<CamEvent> := [Queued(bs[0]), StreamOn];
    var stop: seq<CamEvent> := [StreamOff, Dequeued(bs[dq[CNT - 1].Slot()])];
    var mid := Rounds(bs, dq, CNT, w, h);
    RoundsBalance(bs, dq, CNT, w, h);
    CountsOfConcat(start, mid);
    CountsOfConcat(start + mid, stop);
    CountsOfOne(start[0]);
    CountsOfOne(start[1]);
    CountsOfOne(stop[0]);
    CountsOfOne(stop[1]);
    CountsOfConcat([start[0]], [start[1]]);
    CountsOfConcat([stop[0]], [stop[1]]);
    assert start == [start[0]] + [start[1]] && stop == [stop[0]] + [stop[1]];
  }

  /** One iteration of the capture loop: queue, dequeue, post. */
  method Frame(dev: V4l2Dev, bs: seq<Buffer>, i: nat, w: u32, h: u32, qRets: seq<int>, dq: seq<DqAnswer>, postRets: seq<int>)
    returns (round: seq<CamEvent>, r: int)
    requires dev.Valid() && dev.nbufs == NBUF && dev.bufs == bs && |bs| == NBUF
    requires |qRets| >= CNT && IndexesInRange(dq) && |postRets| >= CNT - 1 && 1 <= i < CNT
    ensures round == Round(bs, dq, i, w, h) && r == postRets[i - 1]
  {
    var _, _ := dev.QBuf(bs[i % NBUF], qRets[i]);
    var buf := dev.DQBuf(dq[i - 1]);
    r := postRets[i - 1];
    round := [Queued(bs[i % NBUF]), Dequeued(buf), Shown(buf, 0, 0, w, h)];
  }

  /** The capture loop on a device whose buffers are requested: the first
      post that fails ends it with its result, and the rest is not done;
      `qRets` (the `VIDIOC_QBUF` results) are ignored. */
  method Stream(dev: V4l2Dev, bs: seq<Buffer>, w: u32, h: u32, qRets: seq<int>, dq: seq<DqAnswer>, postRets: seq<int>)
    returns (ret: int, trace: seq<CamEvent>)
    requires dev.Valid() && dev.requested && dev.nbufs == NBUF && dev.bufs == bs && |bs| == NBUF
    requires |qRets| >= CNT && IndexesInRange(dq) && |postRets| >= CNT - 1
    ensures var k := FirstFailure(postRets[..CNT - 1]);
      k < CNT - 1 ==> ret == postRets[k] && ret != 0 && trace == [Queued(bs[0]), StreamOn] + Rounds(bs, dq, k + 2, w, h)
    ensures FirstFailure(postRets[..CNT - 1]) == CNT - 1 ==> ret == 0 && trace == FullRun(bs, dq, w, h)
  {
    var _, _ := dev.QBuf(bs[0], qRets[0]);
    trace := [Queued(bs[0]), StreamOn];
    ghost var rets := postRets[..CNT - 1];
    ret := 0;
    var i := 1;
    while i < CNT
      invariant 1 <= i <= CNT && trace == [Queued(bs[0]), StreamOn] + Rounds(bs, dq, i, w, h)
      invariant forall j :: 0 <= j < i - 1 ==> rets[j] == 0
    {
      var round, r := Frame(dev, bs, i, w, h, qRets, dq, postRets);
      assert Rounds(bs, dq, i + 1, w, h) == Rounds(bs, dq, i, w, h) + round;
      trace := trace + round;
      if r != 0 {
        FirstFailureAt(rets, i - 1);
        assert trace == [Queued(bs[0]), StreamOn] + Rounds(bs, dq, (i - 1) + 2, w, h);
        return r, trace;
      }
      i := i + 1;
    }
    FirstFailureAt(rets, CNT - 1);
    var last := dev.DQBuf(dq[CNT - 1]);
    trace := trace + [StreamOff, Dequeued(last)];
    assert trace == FullRun(bs, dq, w, h);
  }

  /** `main`, from the point the display (`dispOk`) and the camera (`dev`,
      with the format `fmt` it reported) are opened; `argv` is what their
      parsers left.  Leftover arguments print the usage and end with 0; a
      display or camera that did not open, no video buffers, or a failed
      `v4l2_reqbufs` (answered by `reqRet`, `granted`, `sameKind` and
      `queryRets`) end with 1; a buffer with other than one BO reached by
      `v4l2_reqbufs` aborts the process (`aborted`); otherwise the result is
      that of the capture loop. */
  method Program(dispOk: bool, dev: V4l2Dev?, fmt: CaptureFormat, argv: seq<Arg>, buffers: Option<seq<Buffer>>,
                 reqRet: int, granted: nat, sameKind: bool, queryRets: seq<int>,
                 qRets: seq<int>, dq: seq<DqAnswer>, postRets: seq<int>)
    returns (ret: int, trace: seq<CamEvent>, aborted: bool)
    requires dev != null ==> dev.Valid() && !dev.requested
    requires buffers.Some? ==> |buffers.value| == NBUF
    requires |queryRets| >= NBUF && |qRets| >= CNT && IndexesInRange(dq) && |postRets| >= CNT - 1
    modifies dev
    ensures aborted ==> trace == []
    ensures !dispOk || dev == null ==> ret == 1 && trace == [] && !aborted
    ensures dispOk && dev != null && (exists i :: 1 <= i < |argv| && argv[i].Some?) ==> ret == 0 && trace == [] && !aborted
    ensures dispOk && dev != null && (forall i :: 1 <= i < |argv| ==> argv[i].None?) ==>
      var k := FirstFailure(queryRets[..NBUF]);
      (buffers.None? || reqRet < 0 || granted != NBUF || !sameKind ==> ret == 1 && trace == [] && !aborted) &&
      (buffers.Some? && reqRet >= 0 && granted == NBUF && sameKind ==>
        var bs := buffers.value;
        var a := FirstMultiPlane(bs[..NBUF]);
        (aborted <==> a < NBUF && a <= k) &&
        (!aborted && k < NBUF ==> ret == 1 && trace == []) &&
        (!aborted && k == NBUF ==>
          var f := FirstFailure(postRets[..CNT - 1]);
          (f < CNT - 1 ==> ret == postRets[f] && ret != 0 && trace == [Queued(bs[0]), StreamOn] + Rounds(bs, dq, f + 2, fmt.width, fmt.height)) &&
          (f == CNT - 1 ==> ret == 0 && trace == FullRun(bs, dq, fmt.width, fmt.height))))
  {
    trace := [];
    aborted := false;
    if !dispOk || dev == null {
      return 1, trace, false;
    }
    var leftover := CheckArgs(argv);
    if leftover != 0 {
      return 0, trace, false;
    }
    if buffers.None? {
      return 1, trace, false;
    }
    var bs := buffers.value;
    var r;
    r, aborted := dev.ReqBufs(bs, NBUF, reqRet, granted, sameKind, queryRets);
    if aborted {
      return r, trace, true;
    }
    if r != 0 {
      return 1, trace, false;
    }
    ret, trace := Stream(dev, bs, fmt.width, fmt.height, qRets, dq, postRets);
  }
}
