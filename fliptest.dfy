/** fliptest.c: a page-flip test that fills the display's buffers round
    robin and posts each in turn.  The display is an oracle: whether it
    opens, the buffers it hands out and the result of each post are
    inputs. */
module FlipTest {
  import opened Common
  import opened Util

  /** `NBUF` and `CNT`: buffers in the ring and frames posted. */
  const NBUF: nat := 3
  const CNT: nat := 500

  /** What the loop does to the display: `fill` with a seed, then
      `disp_post_buffer`. */
  datatype FlipEvent = Filled(buf: Buffer, seed: int) | Posted(buf: Buffer)

  /** The events of the first n iterations. */
  function Flips(bs: seq<Buffer>, n: nat): (tr: seq<FlipEvent>)
    requires |bs| == NBUF
    ensures |tr| == 2 * n
  {
    if n == 0 then []
    else Flips(bs, n - 1) + [Filled(bs[(n - 1) % NBUF], 2 * (n - 1)), Posted(bs[(n - 1) % NBUF])]
  }

  /** Iteration i fills buffer i mod NBUF with seed 2i, then posts that
      same buffer. */
  lemma {:induction false} FlipsEach(bs: seq<Buffer>, n: nat)
    requires |bs| == NBUF
    ensures forall i :: 0 <= i < n ==>
      Flips(bs, n)[2 * i] == Filled(bs[i % NBUF], 2 * i) && Flips(bs, n)[2 * i + 1] == Posted(bs[i % NBUF])
  {
    if n > 0 {
      FlipsEach(bs, n - 1);
      forall i | 0 <= i < n
        ensures Flips(bs, n)[2 * i] == Filled(bs[i % NBUF], 2 * i) && Flips(bs, n)[2 * i + 1] == Posted(bs[i % NBUF])
      {
        if i < n - 1 {
          assert Flips(bs, n)[2 * i] == Flips(bs, n - 1)[2 * i];
          assert Flips(bs, n)[2 * i + 1] == Flips(bs, n - 1)[2 * i + 1];
        }
      }
    }
  }

  /** The ring: a buffer posted at iteration i is filled again NBUF
      iterations later, with a seed 2 NBUF higher. */
  lemma FlipsRoundRobin(bs: seq<Buffer>, n: nat, i: nat)
    requires |bs| == NBUF && i + NBUF < n
    ensures Flips(bs, n)[2 * (i + NBUF)] == Filled(Flips(bs, n)[2 * i + 1].buf, 2 * i + 2 * NBUF)
  {
    FlipsEach(bs, n);
    assert (i + NBUF) % NBUF == i % NBUF;
  }

  /** `main` after the display is opened (`dispOk`), with `argv` what the
      display's parser left: leftover arguments print the usage and end
      with 0; no buffers (`buffers` None) end with 1; otherwise CNT frames
      are filled and posted until a post fails (`postRets`), and its
      result is returned. */
  method Program(dispOk: bool, argv: seq<Arg>, buffers: Option<seq<Buffer>>, postRets: seq<int>)
    returns (ret: int, trace: seq<FlipEvent>)
    requires buffers.Some? ==> |buffers.value| == NBUF
    requires |postRets| >= CNT
    ensures !dispOk ==> ret == 1 && trace == []
    ensures dispOk && (exists i :: 1 <= i < |argv| && argv[i].Some?) ==> ret == 0 && trace == []
    ensures dispOk && (forall i :: 1 <= i < |argv| ==> argv[i].None?) ==>
      (buffers.None? ==> ret == 1 && trace == []) &&
      (buffers.Some? ==>
        var k := FirstFailure(postRets[..CNT]);
        (k < CNT ==> ret == postRets[k] && ret != 0 && trace == Flips(buffers.value, k + 1)) &&
        (k == CNT ==> ret == 0 && trace == Flips(buffers.value, CNT)))
  {
    trace := [];
    if !dispOk {
      return 1, trace;
    }
    var leftover := CheckArgs(argv);
    if leftover != 0 {
      return 0, trace;
    }
    if buffers.None? {
      return 1, trace;
    }
    var bs := buffers.value;
    ghost var rets := postRets[..CNT];
    var i := 0;
    while i < CNT
      invariant i <= CNT && trace == Flips(bs, i)
      invariant forall j :: 0 <= j < i ==> rets[j] == 0
    {
      var buf := bs[i % NBUF];
      var r := postRets[i];
      trace := trace + [Filled(buf, i * 2), Posted(buf)];
      if r != 0 {
        assert FirstFailure(rets) == i;
        return r, trace;
      }
      i := i + 1;
    }
    assert FirstFailure(rets) == CNT;
    return 0, trace;
  }
}
