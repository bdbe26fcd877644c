/** Types shared by every part of the model: unsigned 32-bit values, Option,
    argv slots, buffer objects (BOs) and the `struct buffer` that the display
    backends hand out. */
module Common {

  /** 2^32: C's `uint32_t` arithmetic is taken modulo this. */
  const U32_LIMIT: int := 0x1_0000_0000

  type u32 = x: int | 0 <= x < 0x1_0000_0000

  /** Conversion of a mathematical integer to `uint32_t` (wrap-around). */
  function Wrap32(x: int): (r: u32)
    ensures (r - x) % U32_LIMIT == 0
    ensures 0 <= x < U32_LIMIT ==> r == x
  {
    x % U32_LIMIT
  }

  /** `uint16_t`, the type of a mode's sizes. */
  type u16 = x: int | 0 <= x < 0x1_0000

  datatype Option<T> = None | Some(value: T)

  /** One slot of C's `argv`: a NULL pointer or a string.  The parsers set
      the slots they consume to NULL so that other modules skip them. */
  type Arg = Option<string>

  function Min(a: int, b: int): (r: int)
    ensures r <= a && r <= b && (r == a || r == b)
  {
    if a <= b then a else b
  }

  function Max(a: int, b: int): (r: int)
    ensures r >= a && r >= b && (r == a || r == b)
  {
    if a >= b then a else b
  }

  /** 2^n for the three shifts the modelled code passes to `ALIGN2`:
      4 (macroblocks), 7 (128-byte padding) and 12 (`PAGE_SHIFT`). */
  function AlignUnit(n: nat): (p: nat)
    requires n == 4 || n == 7 || n == 12
  {
    if n == 4 then 16 else if n == 7 then 128 else 4096
  }

  /** `ALIGN2(x, n)`: x rounded up to a multiple of 2^n, computed in
      `uint32_t`.  The macro is defined outside the modelled files; this is
      the model's assumption about it. */
  function Align2(x: u32, n: nat): (r: u32)
    requires n == 4 || n == 7 || n == 12
    ensures x + AlignUnit(n) - 1 < U32_LIMIT ==> r % AlignUnit(n) == 0 && x <= r < x + AlignUnit(n)
  {
    if n == 4 then Wrap32((x + 15) / 16 * 16)
    else if n == 7 then Wrap32((x + 127) / 128 * 128)
    else Wrap32((x + 4095) / 4096 * 4096)
  }

  /** A BO (`struct omap_bo *`): device memory.  The driver's answers about
      it (GEM handle, exported dma-buf fd, size) are fixed when it is made. */
  datatype Bo = Bo(id: nat, handle: u32, dmabufFd: int, size: nat)

  /** CPU access fences on a BO (`omap_bo_cpu_prep` / `omap_bo_cpu_fini`). */
  datatype CpuFence = CpuPrep(bo: Bo) | CpuFini(bo: Bo)

  /** `struct buffer` as the backends allocate it: format and geometry,
      one BO and one pitch per plane (`nbo` is |bo|), and the display-side
      handle bound at allocation (the KMS framebuffer id, the DRI2
      attachment).  Nothing in the modelled code changes a buffer after it
      is made, so its fields are constants and its identity is the object. */
  class Buffer {
    const fourcc: u32
    const width: u32
    const height: u32
    const bo: seq<Bo>
    const pitches: seq<u32>
    const handle: u32

    constructor (fourcc: u32, width: u32, height: u32, bo: seq<Bo>, pitches: seq<u32>, handle: u32)
      ensures this.fourcc == fourcc && this.width == width && this.height == height
      ensures this.bo == bo && this.pitches == pitches && this.handle == handle
    {
      this.fourcc := fourcc;
      this.width := width;
      this.height := height;
      this.bo := bo;
      this.pitches := pitches;
      this.handle := handle;
    }

    function Nbo(): nat { |bo| }
  }

  /** No object occurs twice in s. */
  predicate Distinct<T(==)>(s: seq<T>)
  {
    forall i, j :: 0 <= i < j < |s| ==> s[i] != s[j]
  }

  /** Argument vector b is a with some slots cleared (set to NULL, as the
      option parsers do with what they consume), none of them before i. */
  predicate OnlyCleared(a: seq<Arg>, b: seq<Arg>, i: nat)
  {
    |b| == |a| &&
    (forall k :: 0 <= k < |a| ==> b[k] == a[k] || b[k].None?) &&
    (forall k :: 0 <= k < i && k < |a| ==> b[k] == a[k])
  }

  /** The first nonzero result of a run of calls, or |rets| when all are 0. */
  function FirstFailure(rets: seq<int>): (k: nat)
    ensures k <= |rets|
    ensures forall j :: 0 <= j < k ==> rets[j] == 0
    ensures k < |rets| ==> rets[k] != 0
  {
    if rets == [] || rets[0] != 0 then 0 else 1 + FirstFailure(rets[1..])
  }

  /** The first failure is at k exactly when the results before k are 0
      and the one at k, if any, is not. */
  lemma {:induction false} FirstFailureAt(rets: seq<int>, k: nat)
    requires k <= |rets| && (forall j :: 0 <= j < k ==> rets[j] == 0)
    requires k < |rets| ==> rets[k] != 0
    ensures FirstFailure(rets) == k
  {
    if k > 0 {
      FirstFailureAt(rets[1..], k - 1);
    }
  }
}
