/** util/display-x11.c: video buffers shared with the X server through
    DRI2.  Modelled here: the attachment list `get_vid_buffers` sends, the
    buffers it builds from the server's reply, the swap box of
    `post_vid_buffer`, and `is_fourcc`.  The connection to the server and
    the protocol itself are not part of this model: the reply is an input. */
module DisplayX11 {
  import opened Common
  import opened Fourcc

  const MAX_BUFFERS: nat := 32
  /** `DRI2BufferFrontLeft` of the DRI2 protocol. */
  const FRONT_LEFT: u32 := 0

  /** `get_buffers`: scan-out buffers are not offered by this backend. */
  method GetBuffers(n: u32) returns (bufs: Option<seq<Buffer>>)
    ensures bufs.None?
  {
    return None;
  }

  /** `post_buffer`: not offered either; it always fails. */
  method PostBuffer(buf: Buffer) returns (ret: int)
    ensures ret == -1
  {
    return -1;
  }

  // ---------------------------------------------------------------------
  // The attachment list

  /** The attachment list asks for the front buffer (at 32 bits per pixel)
      then for buffers 1 to n, each with the video format: one pair of
      entries per buffer. */
  predicate IsAttachmentList(a: seq<u32>, n: nat, fourcc: u32)
  {
    |a| >= 2 * (n + 1) && a[0] == FRONT_LEFT && a[1] == 32 &&
    forall i :: 0 <= i < n ==> a[2 * i + 2] == i + 1 && a[2 * i + 3] == fourcc
  }

  /** The loop of `get_vid_buffers` that fills the list; the array must
      hold the n + 1 pairs it writes. */
  method FillAttachments(a: array<u32>, n: u32, fourcc: u32)
    requires a.Length >= 2 * (n + 1)
    modifies a
    ensures IsAttachmentList(a[..], n, fourcc)
  {
    a[0] := FRONT_LEFT;
    a[1] := 32;
    var i: nat := 0;
    while i < n
      invariant i <= n
      invariant a[0] == FRONT_LEFT && a[1] == 32
      invariant forall k :: 0 <= k < i ==> a[2 * k + 2] == k + 1 && a[2 * k + 3] == fourcc
    {
      a[2 * i + 2] := i + 1;
      a[2 * i + 3] := fourcc;
      i := i + 1;
    }
  }

  /** The loop as written, on the list of `MAX_BUFFERS + 1` entries the
      source declares (zero past the front buffer's pair).  The write that
      would fall past the end is not made: `overflow` is its index.  The n
      pairs fit only up to n = 15; from 16 buffers on the loop writes entry
      33 of the 33-entry array. */
  method FillAttachmentsAsWritten(n: u32, fourcc: u32) returns (a: array<u32>, overflow: Option<nat>)
    ensures fresh(a) && a.Length == MAX_BUFFERS + 1
    ensures overflow.None? <==> n <= 15
    ensures overflow.Some? ==> overflow.value == MAX_BUFFERS + 1
    ensures overflow.None? ==> IsAttachmentList(a[..], n, fourcc)
  {
    a := new u32[MAX_BUFFERS + 1](_ => 0);
    a[0] := FRONT_LEFT;
    a[1] := 32;
    var i: nat := 0;
    while i < n
      invariant i <= n && i <= 15
      invariant a[0] == FRONT_LEFT && a[1] == 32
      invariant forall k :: 0 <= k < i ==> a[2 * k + 2] == k + 1 && a[2 * k + 3] == fourcc
    {
      a[2 * i + 2] := i + 1;
      if 2 * i + 3 >= a.Length {
        return a, Some(2 * i + 3);
      }
      a[2 * i + 3] := fourcc;
      i := i + 1;
    }
    return a, None;
  }

  // ---------------------------------------------------------------------
  // Buffers from the reply

  /** One `DRI2Buffer` of the reply: its attachment and, per plane, the
      global name of the BO and its pitch; the names end with a 0. */
  datatype Dri2Buffer = Dri2Buffer(attachment: u32, names: seq<u32>, pitch: seq<u32>)

  /** The number of names before the first 0. */
  function LeadingNames(names: seq<u32>): (k: nat)
    ensures k <= |names|
    ensures forall j :: 0 <= j < k ==> names[j] != 0
    ensures k < |names| ==> names[k] == 0
  {
    if names == [] || names[0] == 0 then 0 else 1 + LeadingNames(names[1..])
  }

  /** What the source's name loop needs: a 0 ends the names, and there is
      a pitch and an imported BO for each name before it. */
  predicate Terminated(d: Dri2Buffer, bos: seq<Bo>)
  {
    0 in d.names && LeadingNames(d.names) <= |d.pitch| && LeadingNames(d.names) <= |bos|
  }

  /** One buffer of `get_vid_buffers`: the video geometry, the reply's
      attachment as its handle, and a BO (`omap_bo_from_name`, answered by
      `bos`) and a pitch per name up to the first 0. */
  method MakeBuffer(fourcc: u32, w: u32, h: u32, d: Dri2Buffer, bos: seq<Bo>) returns (b: Buffer)
    requires Terminated(d, bos)
    ensures fresh(b) && b.fourcc == fourcc && b.width == w && b.height == h && b.handle == d.attachment
    ensures b.Nbo() == LeadingNames(d.names) && b.Nbo() < |d.names|
    ensures b.bo == bos[..b.Nbo()] && b.pitches == d.pitch[..b.Nbo()]
  {
    var bo: seq<Bo> := [];
    var pitches: seq<u32> := [];
    var j := 0;
    while d.names[j] != 0
      invariant j <= LeadingNames(d.names)
      invariant bo == bos[..j] && pitches == d.pitch[..j]
      decreases LeadingNames(d.names) - j
    {
      bo := bo + [bos[j]];
      pitches := pitches + [d.pitch[j]];
      j := j + 1;
    }
    b := new Buffer(fourcc, w, h, bo, pitches, d.attachment);
  }

  /** `get_vid_buffers`: the attachment list it sends (sized here for the
      n + 1 pairs), and the buffers built from the reply: none when the
      request fails (`reply` None) or the server returns other than n
      buffers.  `bos[i]` answers the BO imports for buffer i. */
  method GetVidBuffers(n: u32, fourcc: u32, w: u32, h: u32, reply: Option<seq<Dri2Buffer>>, bos: seq<seq<Bo>>)
    returns (request: seq<u32>, bufs: Option<seq<Buffer>>)
    requires reply.Some? && |reply.value| == n ==>
      |bos| == n && forall i :: 0 <= i < n ==> Terminated(reply.value[i], bos[i])
    ensures |request| == 2 * (n + 1) && IsAttachmentList(request, n, fourcc)
    ensures bufs.Some? <==> reply.Some? && |reply.value| == n
    ensures bufs.Some? ==> |bufs.value| == n && Distinct(bufs.value)
    ensures bufs.Some? ==> forall i :: 0 <= i < n ==>
      var b := bufs.value[i];
      Terminated(reply.value[i], bos[i]) && fresh(b) && b.fourcc == fourcc && b.width == w && b.height == h && b.handle == reply.value[i].attachment &&
      b.Nbo() == LeadingNames(reply.value[i].names) &&
      b.bo == bos[i][..b.Nbo()] && b.pitches == reply.value[i].pitch[..b.Nbo()]
  {
    var a := new u32[2 * (n + 1)];
    FillAttachments(a, n, fourcc);
    request := a[..];
    if reply.None? || |reply.value| != n {
      return request, None;
    }
    var ds := reply.value;
    var made: seq<Buffer> := [];
    var i: nat := 0;
    while i < n
      invariant i <= n && |made| == i && Distinct(made)
      invariant forall j :: 0 <= j < i ==>
        var b := made[j];
        fresh(b) && b.fourcc == fourcc && b.width == w && b.height == h && b.handle == ds[j].attachment &&
        b.Nbo() == LeadingNames(ds[j].names) &&
        b.bo == bos[j][..b.Nbo()] && b.pitches == ds[j].pitch[..b.Nbo()]
    {
      var b := MakeBuffer(fourcc, w, h, ds[i], bos[i]);
      made := made + [b];
      i := i + 1;
    }
    bufs := Some(made);
  }

  // ---------------------------------------------------------------------
  // Posting

  /** A C `short`: two's complement truncation to 16 bits. */
  function ToInt16(v: int): (r: int)
    ensures -0x8000 <= r < 0x8000
    ensures (r - v) % 0x1_0000 == 0
    ensures -0x8000 <= v < 0x8000 ==> r == v
  {
    (v + 0x8000) % 0x1_0000 - 0x8000
  }

  /** `BoxRec`, whose coordinates are `short`. */
  datatype Box = Box(x1: int, y1: int, x2: int, y2: int)

  /** The box `post_vid_buffer` passes: from (x, y) to (x + w, y + h), the
      sums in `uint32_t`, each coordinate truncated to a `short`. */
  function SwapBox(x: u32, y: u32, w: u32, h: u32): (b: Box)
    ensures x + w < 0x8000 && y + h < 0x8000 ==> b == Box(x, y, x + w, y + h)
    ensures (b.x2 - b.x1 - w) % 0x1_0000 == 0 && (b.y2 - b.y1 - h) % 0x1_0000 == 0
  {
    var b := Box(ToInt16(x), ToInt16(y), ToInt16(Wrap32(x + w)), ToInt16(Wrap32(y + h)));
    Mod16OfWrap(x, w);
    Mod16OfWrap(y, h);
    b
  }

  /** Truncating to 32 bits then to 16 keeps the difference a multiple of
      2^16. */
  lemma Mod16OfWrap(x: u32, w: u32)
    ensures (ToInt16(Wrap32(x + w)) - ToInt16(x) - w) % 0x1_0000 == 0
  {
    var s := x + w;
    var q := s / 0x1_0000_0000;
    assert Wrap32(s) == s - q * 0x1_0000_0000;
    var d := ToInt16(Wrap32(s)) - ToInt16(x) - w;
    var e1 := ToInt16(Wrap32(s)) - Wrap32(s);
    var e2 := ToInt16(x) - x;
    assert d == e1 - e2 - q * 0x1_0000_0000;
    assert e1 % 0x1_0000 == 0 && e2 % 0x1_0000 == 0;
    assert (q * 0x1_0000_0000) % 0x1_0000 == 0 by {
      assert q * 0x1_0000_0000 == (q * 0x1_0000) * 0x1_0000;
    }
  }

  /** `DRI2SwapBuffersVid`: the attachment to show and the source box. */
  datatype SwapCall = SwapBuffersVid(attachment: u32, box: Box)

  /** `post_vid_buffer`: one swap request showing the buffer's attachment;
      it always reports success. */
  method PostVidBuffer(buf: Buffer, x: u32, y: u32, w: u32, h: u32) returns (ret: int, swap: SwapCall)
    ensures ret == 0 && swap.attachment == buf.handle
    ensures x + w < 0x8000 && y + h < 0x8000 ==> swap.box == Box(x, y, x + w, y + h)
  {
    return 0, SwapBuffersVid(buf.handle, SwapBox(x, y, w, h));
  }

  // ---------------------------------------------------------------------
  // is_fourcc

  /** `isalnum` in the C locale. */
  predicate IsAlnum(c: nat)
  {
    '0' as nat <= c <= '9' as nat || 'A' as nat <= c <= 'Z' as nat || 'a' as nat <= c <= 'z' as nat
  }

  /** `is_fourcc`: the four bytes of the value, in memory order on a
      little-endian machine, are all letters or digits. */
  predicate IsFourcc(v: u32)
  {
    IsAlnum(ByteOf(v, 0)) && IsAlnum(ByteOf(v, 1)) && IsAlnum(ByteOf(v, 2)) && IsAlnum(ByteOf(v, 3))
  }

  /** A tag is a fourcc exactly when the four characters it packs are
      letters or digits. */
  lemma IsFourccOfTag(a: int, b: int, c: int, d: int)
    ensures IsFourcc(FourccOf(a, b, c, d)) <==>
      IsAlnum(a % 256) && IsAlnum(b % 256) && IsAlnum(c % 256) && IsAlnum(d % 256)
  {
  }

  /** The formats the displays allocate are fourccs; 0, which they read as
      AR24, is not. */
  lemma KnownFormatsAreFourccs()
    ensures IsFourcc(AR24) && IsFourcc(UYVY) && IsFourcc(YUYV) && IsFourcc(NV12) && IsFourcc(I420)
    ensures !IsFourcc(0)
  {
    KnownFormatsPacked();
    IsFourccOfTag('A' as int, 'R' as int, '2' as int, '4' as int);
    IsFourccOfTag('U' as int, 'Y' as int, 'V' as int, 'Y' as int);
    IsFourccOfTag('Y' as int, 'U' as int, 'Y' as int, 'V' as int);
    IsFourccOfTag('N' as int, 'V' as int, '1' as int, '2' as int);
    IsFourccOfTag('I' as int, '4' as int, '2' as int, '0' as int);
  }
}
