/** util/v4l2.c: the camera side of the DMABUF bridge.  Modelled here: the
    `-c`/`-m` options and the format checks of `v4l2_open`, and the table
    that `v4l2_reqbufs` builds from the display's buffers, which
    `v4l2_qbuf` searches by dma-buf fd and `v4l2_dqbuf` indexes.  The
    ioctls are inputs: the driver's current format, its answer to each
    request, and the index it dequeues. */
module V4l2 {
  import opened Common
  import opened Fourcc
  import opened Scan

  // ---------------------------------------------------------------------
  // Options

  /** `format.fmt.pix`: the capture size and pixel format. */
  datatype CaptureFormat = CaptureFormat(width: u32, height: u32, pixelformat: u32)

  /** The `%ux%u` part: width, the character x, height. */
  function ScanSize(v: string): (r: Scanned<(u32, u32)>)
    ensures r.Got? ==> |r.rest| < |v|
  {
    match ScanUint(v)
    case Fail => Fail
    case Got(w, r1) =>
      match ScanChar(r1, 'x')
      case Fail => Fail
      case Got(_, r2) =>
        match ScanUint(r2)
        case Fail => Fail
        case Got(h, r3) => Got((w, h), r3)
  }

  /** `%ux%u@%4s`: the size, the character @, and a format name of 1 to 4
      characters; all three conversions are needed. */
  function CaptureArg(v: string): (r: Option<(u32, u32, string)>)
    ensures r.Some? ==> 1 <= |r.value.2| <= 4
    ensures r.Some? ==> forall k :: 0 <= k < |r.value.2| ==> !IsSpace(r.value.2[k])
  {
    match ScanSize(v)
    case Fail => None
    case Got(size, r3) =>
      match ScanChar(r3, '@')
      case Fail => None
      case Got(_, r4) =>
        match ScanWord(r4, 4)
        case Fail => None
        case Got(f, _) => Some((size.0, size.1, f))
  }

  /** `FOURCC_STR(fourccstr)` on the buffer `%4s` filled: the name, then its
      NUL.  Bytes after the NUL of a name shorter than three characters are
      uninitialised in the source; the model reads them as 0 as well. */
  function NameTag(f: string): (r: u32)
    requires |f| <= 4
    ensures |f| == 4 ==> r == FourccStr(f)
    ensures forall k :: 0 <= k < |f| ==> ByteOf(r, k) == (f[k] as int) % 256
    ensures forall k :: |f| <= k < 4 ==> ByteOf(r, k) == 0
  {
    var p := f + seq(4 - |f|, _ => '\0');
    assert p[..|f|] == f;
    FourccStr(p)
  }

  /** The format a `-c` value sets. */
  function FormatOf(v: string): Option<CaptureFormat>
  {
    match CaptureArg(v)
    case None => None
    case Some((w, h, f)) => Some(CaptureFormat(w, h, NameTag(f)))
  }

  /** How the option loop ends.  `MissingValue` is a `-c` in the last
      argument (or before a consumed one), which `sscanf` then reads
      through a NULL pointer: undefined behaviour in the source.  Each
      carries the arguments as the loop leaves them, the `-c` slot cleared
      before its value is read. */
  datatype CaptureParse = Parsed(fmt: CaptureFormat, mcf: bool, argv: seq<Arg>) | Invalid(arg: string, argv: seq<Arg>) | MissingValue(argv: seq<Arg>)

  /** `-c`, which sets the capture format. */
  predicate IsFormatOption(x: Arg)
  {
    x == Some("-c")
  }

  /** `-m`, which asks for the media controller set-up. */
  predicate IsMcfOption(x: Arg)
  {
    x == Some("-m")
  }

  /** The two options this module reads. */
  predicate IsCaptureOption(x: Arg)
  {
    IsFormatOption(x) || IsMcfOption(x)
  }

  /** The option loop of `v4l2_open` from argument i on: `-c` takes the
      next argument and both slots are cleared; `-m` asks for the media
      controller set-up and is cleared; everything else is left alone.
      `read` is how a `-c` value is read: `FormatOf` in `v4l2_open`; the
      lemmas about the loop hold for any reader. */
  function CaptureParseFrom(a: seq<Arg>, i: nat, fmt: CaptureFormat, mcf: bool,
                            read: string -> Option<CaptureFormat>): CaptureParse
    decreases |a| - i
  {
    if i >= |a| then Parsed(fmt, mcf, a)
    else if !IsCaptureOption(a[i]) then CaptureParseFrom(a, i + 1, fmt, mcf, read)
    else if IsMcfOption(a[i]) then CaptureParseFrom(a[i := None], i + 1, fmt, true, read)
    else if i + 1 >= |a| || a[i + 1].None? then MissingValue(a[i := None])
    else
      match read(a[i + 1].value)
      case None => Invalid(a[i + 1].value, a[i := None])
      case Some(f) => CaptureParseFrom(a[i := None][i + 1 := None], i + 2, f, mcf, read)
  }

  /** The `%ux%u` part reads back what it is given. */
  lemma ScanSizeRoundTrip(w: u32, h: u32, rest: string, v: string)
    requires rest == [] || !IsDigit(rest[0])
    requires v == NatToString(w) + ("x" + (NatToString(h) + rest))
    ensures ScanSize(v) == Got((w, h), rest)
  {
    var tail := NatToString(h) + rest;
    ScanUintOfNumeral(w, "x" + tail);
    ScanUintOfNumeral(h, rest);
    ScanSizeOfParts(v, w, h, tail, rest);
  }

  /** `%ux%u` succeeds when both numbers do and an x separates them. */
  lemma ScanSizeOfParts(v: string, w: u32, h: u32, tail: string, rest: string)
    requires ScanUint(v) == Got(w, "x" + tail)
    requires ScanUint(tail) == Got(h, rest)
    ensures ScanSize(v) == Got((w, h), rest)
  {
    assert ScanChar("x" + tail, 'x') == Got((), tail);
  }

  /** `-c WxH@name` is read back: v is the text `-c` would be given. */
  lemma CaptureArgRoundTrip(w: u32, h: u32, f: string, v: string)
    requires 1 <= |f| <= 4
    requires forall k :: 0 <= k < |f| ==> !IsSpace(f[k])
    requires v == NatToString(w) + ("x" + (NatToString(h) + ("@" + f)))
    ensures CaptureArg(v) == Some((w, h, f))
  {
    ScanSizeRoundTrip(w, h, "@" + f, v);
    ScanWordWhole(f, 4);
    CaptureArgOfParts(v, w, h, f);
  }

  /** `-c WxH@cccc` with a four-character name sets exactly that size and
      the tag `FOURCC_STR(cccc)`. */
  lemma FormatRoundTrip(w: u32, h: u32, f: string, v: string)
    requires |f| == 4
    requires forall k :: 0 <= k < |f| ==> !IsSpace(f[k])
    requires v == NatToString(w) + ("x" + (NatToString(h) + ("@" + f)))
    ensures FormatOf(v) == Some(CaptureFormat(w, h, FourccStr(f)))
  {
    CaptureArgRoundTrip(w, h, f, v);
  }

  /** `%ux%u@%4s` succeeds when the size does, an @ follows, and the name
      is read whole. */
  lemma CaptureArgOfParts(v: string, w: u32, h: u32, f: string)
    requires ScanSize(v) == Got((w, h), "@" + f)
    requires ScanWord(f, 4) == Got(f, [])
    ensures CaptureArg(v) == Some((w, h, f))
  {
    assert ScanChar("@" + f, '@') == Got((), f);
  }

  /** An option word is never a valid `-c` value: it has no leading digit. */
  lemma OptionIsNoFormat(v: string)
    requires v == "-c" || v == "-m"
    ensures FormatOf(v).None?
  {
    assert v[0] == '-' && !IsSpace(v[0]);
    assert SkipSpace(v) == v;
    assert !IsDigit(v[1..][0]);
    assert ScanDigits(v[1..]).Fail?;
    assert ScanSigned(v).Fail?;
    assert ScanUint(v).Fail?;
    assert ScanSize(v).Fail?;
  }

  /** No `-c` or `-m` is left in a from i on. */
  predicate NoCaptureOption(a: seq<Arg>, i: nat)
  {
    forall k :: i <= k < |a| ==> !IsCaptureOption(a[k])
  }

  /** Parsing only clears argument slots, never one before i, and a
      successful parse leaves no `-c` or `-m` behind. */
  lemma {:induction false} CaptureParseClearsOnly(a: seq<Arg>, i: nat, fmt: CaptureFormat, mcf: bool,
                                                  read: string -> Option<CaptureFormat>)
    ensures CaptureParseFrom(a, i, fmt, mcf, read).Parsed? ==>
      OnlyCleared(a, CaptureParseFrom(a, i, fmt, mcf, read).argv, i) &&
      NoCaptureOption(CaptureParseFrom(a, i, fmt, mcf, read).argv, i)
    decreases |a| - i
  {
    var p := CaptureParseFrom(a, i, fmt, mcf, read);
    if i < |a| && p.Parsed? {
      if !IsCaptureOption(a[i]) {
        CaptureParseClearsOnly(a, i + 1, fmt, mcf, read);
        assert p == CaptureParseFrom(a, i + 1, fmt, mcf, read);
      } else if IsMcfOption(a[i]) {
        var a' := a[i := None];
        CaptureParseClearsOnly(a', i + 1, fmt, true, read);
        assert p == CaptureParseFrom(a', i + 1, fmt, true, read);
        assert p.argv[i] == None;
        forall k | 0 <= k < |a| ensures p.argv[k] == a[k] || p.argv[k].None? {
          if k != i {
            assert a'[k] == a[k];
          }
        }
      } else {
        var f := read(a[i + 1].value).value;
        var a' := a[i := None][i + 1 := None];
        CaptureParseClearsOnly(a', i + 2, f, mcf, read);
        assert p == CaptureParseFrom(a', i + 2, f, mcf, read);
        assert p.argv[i] == None && p.argv[i + 1] == None;
        forall k | 0 <= k < |a| ensures p.argv[k] == a[k] || p.argv[k].None? {
          if k != i && k != i + 1 {
            assert a'[k] == a[k];
          }
        }
      }
    }
  }

  /** A successful parse asks for the media set-up exactly when some `-m`
      is present, provided `-m` is not a value the reader accepts (which
      `OptionIsNoFormat` shows for `FormatOf`). */
  lemma {:induction false} CaptureParseMcf(a: seq<Arg>, i: nat, fmt: CaptureFormat, mcf: bool,
                                           read: string -> Option<CaptureFormat>)
    requires read("-m").None?
    ensures CaptureParseFrom(a, i, fmt, mcf, read).Parsed? ==>
      (CaptureParseFrom(a, i, fmt, mcf, read).mcf <==> mcf || exists k :: i <= k < |a| && IsMcfOption(a[k]))
    decreases |a| - i
  {
    var p := CaptureParseFrom(a, i, fmt, mcf, read);
    if i < |a| && p.Parsed? {
      if !IsCaptureOption(a[i]) {
        assert p == CaptureParseFrom(a, i + 1, fmt, mcf, read);
        CaptureParseMcf(a, i + 1, fmt, mcf, read);
        assert !IsMcfOption(a[i]);
      } else if IsMcfOption(a[i]) {
        var a' := a[i := None];
        assert p == CaptureParseFrom(a', i + 1, fmt, true, read);
        CaptureParseMcf(a', i + 1, fmt, true, read);
      } else {
        var f := read(a[i + 1].value).value;
        var a' := a[i := None][i + 1 := None];
        assert p == CaptureParseFrom(a', i + 2, f, mcf, read);
        CaptureParseMcf(a', i + 2, f, mcf, read);
        assert !IsMcfOption(a[i]) && !IsMcfOption(a[i + 1]);
        if p.mcf && !mcf {
          var k :| i + 2 <= k < |a'| && IsMcfOption(a'[k]);
          assert a[k] == a'[k];
        }
        if exists k :: i <= k < |a| && IsMcfOption(a[k]) {
          var k :| i <= k < |a| && IsMcfOption(a[k]);
          assert k >= i + 2 && a'[k] == a[k];
        }
      }
    }
  }

  /** A successful parse ends with the format the driver reported or with
      one read from the value of some `-c`; without a `-c` the format is
      the driver's. */
  lemma {:induction false} CaptureParseFormat(a: seq<Arg>, i: nat, fmt: CaptureFormat, mcf: bool,
                                              read: string -> Option<CaptureFormat>)
    ensures CaptureParseFrom(a, i, fmt, mcf, read).Parsed? ==>
      (CaptureParseFrom(a, i, fmt, mcf, read).fmt == fmt ||
       exists k :: i <= k && k + 1 < |a| && IsFormatOption(a[k]) && a[k + 1].Some? &&
         read(a[k + 1].value) == Some(CaptureParseFrom(a, i, fmt, mcf, read).fmt))
    decreases |a| - i
  {
    var p := CaptureParseFrom(a, i, fmt, mcf, read);
    if i < |a| && p.Parsed? {
      if !IsCaptureOption(a[i]) {
        assert p == CaptureParseFrom(a, i + 1, fmt, mcf, read);
        CaptureParseFormat(a, i + 1, fmt, mcf, read);
      } else if IsMcfOption(a[i]) {
        var a' := a[i := None];
        assert p == CaptureParseFrom(a', i + 1, fmt, true, read);
        CaptureParseFormat(a', i + 1, fmt, true, read);
        if p.fmt != fmt {
          var k :| i + 1 <= k && k + 1 < |a'| && IsFormatOption(a'[k]) && a'[k + 1].Some? && read(a'[k + 1].value) == Some(p.fmt);
          assert a[k] == a'[k] && a[k + 1] == a'[k + 1];
        }
      } else {
        var f := read(a[i + 1].value).value;
        var a' := a[i := None][i + 1 := None];
        assert p == CaptureParseFrom(a', i + 2, f, mcf, read);
        CaptureParseFormat(a', i + 2, f, mcf, read);
        if p.fmt != f {
          var k :| i + 2 <= k && k + 1 < |a'| && IsFormatOption(a'[k]) && a'[k + 1].Some? && read(a'[k + 1].value) == Some(p.fmt);
          assert a[k] == a'[k] && a[k + 1] == a'[k + 1];
        }
      }
    }
  }

  /** The option loop of `v4l2_open` on the argument vector itself. */
  method ParseCaptureArgs(argv: array<Arg>, current: CaptureFormat) returns (p: CaptureParse)
    modifies argv
    ensures p == CaptureParseFrom(old(argv[..]), 1, current, false, FormatOf)
    ensures argv[..] == p.argv
  {
    var i := 1;
    var fmt := current;
    var mcf := false;
    while i < argv.Length
      invariant 1 <= i
      invariant CaptureParseFrom(argv[..], i, fmt, mcf, FormatOf) == CaptureParseFrom(old(argv[..]), 1, current, false, FormatOf)
      decreases argv.Length - i
    {
      if !IsCaptureOption(argv[i]) {
        i := i + 1;
      } else if IsMcfOption(argv[i]) {
        ghost var a := argv[..];
        argv[i] := None;
        assert argv[..] == a[i := None];
        mcf := true;
        i := i + 1;
      } else if i + 1 >= argv.Length || argv[i + 1].None? {
        argv[i] := None;
        return MissingValue(argv[..]);
      } else {
        var f := FormatOf(argv[i + 1].value);
        if f.None? {
          argv[i] := None;
          return Invalid(argv[i + 1].value, argv[..]);
        }
        ghost var a := argv[..];
        argv[i] := None;
        argv[i + 1] := None;
        assert argv[..] == a[i := None][i + 1 := None];
        fmt := f.value;
        i := i + 2;
      }
    }
    return Parsed(fmt, mcf, argv[..]);
  }

  /** The check after parsing: size and format must all be set. */
  predicate Complete(f: CaptureFormat)
  {
    f.width != 0 && f.height != 0 && f.pixelformat != 0
  }

  // ---------------------------------------------------------------------
  // The buffer table

  /** One `struct v4l2_buffer` of the table: the driver's buffer index and
      the dma-buf fd queued with it. */
  datatype Entry = Entry(index: nat, fd: int)

  /** The dma-buf fd of a single-plane buffer (`omap_bo_dmabuf(bo[0])`). */
  function FdOf(b: Buffer): int
    requires b.Nbo() == 1
  {
    b.bo[0].dmabufFd
  }

  /** The first buffer without exactly one BO, where the single-plane
      `assert` of `v4l2_reqbufs` aborts the process; |bs| when every buffer
      has one BO. */
  function FirstMultiPlane(bs: seq<Buffer>): (k: nat)
    ensures k <= |bs|
    ensures forall j :: 0 <= j < k ==> bs[j].Nbo() == 1
    ensures k < |bs| ==> bs[k].Nbo() != 1
  {
    if bs == [] || bs[0].Nbo() != 1 then 0 else 1 + FirstMultiPlane(bs[1..])
  }

  /** How many entries `v4l2_reqbufs` fills when `VIDIOC_QUERYBUF` answers
      `rets`: up to and including the first that fails. */
  function Filled(rets: seq<int>): (k: nat)
    ensures k <= |rets|
  {
    var f := FirstFailure(rets);
    if f < |rets| then f + 1 else |rets|
  }

  /** What `VIDIOC_DQBUF` answers: the ioctl's result and the index it
      reports. */
  datatype DqAnswer = DqAnswer(ret: int, index: nat)
  {
    /** The index `v4l2_dqbuf` reads: the one reported, or the 0 its
        request was initialised with when the ioctl fails. */
    function Slot(): nat
    {
      if ret == 0 then index else 0
    }
  }

  /** The last entry whose fd is `fd`, if any. */
  function LastMatch(t: seq<Entry>, fd: int): (r: Option<nat>)
    ensures r.Some? ==> r.value < |t| && t[r.value].fd == fd
    ensures r.Some? ==> forall j :: r.value < j < |t| ==> t[j].fd != fd
    ensures r.None? <==> forall j :: 0 <= j < |t| ==> t[j].fd != fd
  {
    if t == [] then None
    else if t[|t| - 1].fd == fd then Some(|t| - 1)
    else LastMatch(t[..|t| - 1], fd)
  }

  /** Entry i after `v4l2_reqbufs` filled the first `filled` entries: its
      own index and its buffer's fd, or the zeroes of `calloc` for entries
      never reached. */
  predicate TableEntry(t: seq<Entry>, bufs: seq<Buffer>, i: nat, filled: nat)
    requires i < |t| && i < |bufs| && (i < filled ==> bufs[i].Nbo() == 1)
  {
    t[i] == if i < filled then Entry(i, FdOf(bufs[i])) else Entry(0, 0)
  }

  /** With distinct fds, a complete table maps each buffer's fd back to its
      own entry, and that entry's index back to the buffer: what `qbuf`
      queues for `bufs[j]` is what a `dqbuf` of that index returns. */
  lemma QueueDequeueRoundTrip(t: seq<Entry>, bufs: seq<Buffer>, j: nat)
    requires |t| <= |bufs| && j < |t|
    requires forall i :: 0 <= i < |t| ==> bufs[i].Nbo() == 1 && TableEntry(t, bufs, i, |t|)
    requires forall i, i' :: 0 <= i < i' < |t| ==> FdOf(bufs[i]) != FdOf(bufs[i'])
    ensures LastMatch(t, FdOf(bufs[j])) == Some(j)
    ensures t[j].index == j && bufs[t[j].index] == bufs[j]
  {
    assert TableEntry(t, bufs, j, |t|);
    forall m | j < m < |t|
      ensures t[m].fd != FdOf(bufs[j])
    {
      assert TableEntry(t, bufs, m, |t|);
    }
  }

  /** When two buffers share an fd, `qbuf` of either one queues the later
      entry: the last match wins. */
  lemma SharedFdQueuesLater(t: seq<Entry>, bufs: seq<Buffer>, i: nat, i': nat)
    requires |t| <= |bufs| && i < i' < |t|
    requires forall j :: 0 <= j < |t| ==> bufs[j].Nbo() == 1 && TableEntry(t, bufs, j, |t|)
    requires FdOf(bufs[i]) == FdOf(bufs[i'])
    requires forall j :: i' < j < |t| ==> FdOf(bufs[j]) != FdOf(bufs[i])
    ensures LastMatch(t, FdOf(bufs[i])) == Some(i')
  {
    assert TableEntry(t, bufs, i', |t|);
    forall m | i' < m < |t|
      ensures t[m].fd != FdOf(bufs[i])
    {
      assert TableEntry(t, bufs, m, |t|);
    }
  }

  /** `struct v4l2`: the table of queued-buffer descriptors and the
      display's buffers it was built from. */
  class V4l2Dev {
    /** `nbufs`. */
    var nbufs: nat
    /** `bufs`: the caller's array of buffers. */
    var bufs: seq<Buffer>
    /** `v4l2bufs`, one entry per buffer once requested. */
    var entries: seq<Entry>
    /** `v4l2bufs != NULL`. */
    var requested: bool

    ghost predicate Valid()
      reads this
    {
      |entries| == nbufs <= |bufs| &&
      (!requested ==> nbufs == 0 && bufs == []) &&
      (forall i :: 0 <= i < nbufs ==> bufs[i].Nbo() == 1)
    }

    /** A device just opened: nothing requested yet. */
    constructor ()
      ensures Valid() && !requested && nbufs == 0 && entries == [] && bufs == []
    {
      nbufs := 0;
      bufs := [];
      entries := [];
      requested := false;
    }

    /** `v4l2_reqbufs`: a second call fails with -1; a failed or altered
        `VIDIOC_REQBUFS` (ioctl result `reqRet`, granted count `granted`,
        `sameKind` false when the driver changed the type or memory) leaves
        the device as it was; otherwise the table gets n entries, filled in
        order until a `VIDIOC_QUERYBUF` (results `queryRets`) fails.  A
        buffer reached with other than one BO fails the `assert` and
        `aborted` is set: the process ends there, with the entries before
        it filled. */
    method ReqBufs(bs: seq<Buffer>, n: u32, reqRet: int, granted: nat, sameKind: bool, queryRets: seq<int>)
      returns (ret: int, aborted: bool)
      requires Valid()
      requires |bs| >= n && |queryRets| >= n
      modifies this
      ensures old(requested) || reqRet < 0 || granted != n || !sameKind ==>
        unchanged(this) && !aborted && ret == (if old(requested) then -1 else if reqRet < 0 then reqRet else -1)
      ensures !old(requested) && reqRet >= 0 && granted == n && sameKind ==>
        var k := FirstFailure(queryRets[..n]);
        var a := FirstMultiPlane(bs[..n]);
        requested && nbufs == n && bufs == bs && |entries| == n &&
        (aborted <==> a < n && a <= k) &&
        (aborted ==> forall i :: 0 <= i < n ==> TableEntry(entries, bufs, i, a)) &&
        (!aborted ==>
          ret == (if k < n then queryRets[k] else 0) &&
          forall i :: 0 <= i < n ==> TableEntry(entries, bufs, i, Filled(queryRets[..n])))
      ensures !aborted && ret == 0 ==> Valid()
    {
      aborted := false;
      if requested {
        return -1, false;
      }
      if reqRet < 0 {
        return reqRet, false;
      }
      if granted != n || !sameKind {
        return -1, false;
      }
      nbufs := n;
      bufs := bs;
      requested := true;
      var t := seq(n, _ => Entry(0, 0));
      ghost var rets := queryRets[..n];
      var i: nat := 0;
      while i < n
        invariant i <= n && |t| == n
        invariant forall j :: 0 <= j < i ==> rets[j] == 0 && bs[j].Nbo() == 1
        invariant forall j :: 0 <= j < n ==> TableEntry(t, bs, j, i)
      {
        if bs[i].Nbo() != 1 {
          entries := t;
          assert FirstMultiPlane(bs[..n]) == i;
          return 0, true;
        }
        ghost var t0 := t;
        t := t[i := Entry(i, FdOf(bs[i]))];
        ghost var filled := i + 1;
        forall j | 0 <= j < n
          ensures TableEntry(t, bs, j, filled)
        {
          assert TableEntry(t0, bs, j, i);
        }
        if queryRets[i] != 0 {
          entries := t;
          assert FirstFailure(rets) == i;
          return queryRets[i], false;
        }
        i := i + 1;
      }
      entries := t;
      assert FirstFailure(rets) == n;
      assert FirstMultiPlane(bs[..n]) == n;
      return 0, false;
    }

    /** `v4l2_qbuf`: the entry of the last matching fd is queued (ioctl
        result `qRet`); with no match the result is -1 and nothing is
        queued.  The fd the driver may rewrite is put back, so the table is
        unchanged. */
    method QBuf(buf: Buffer, qRet: int) returns (ret: int, queued: Option<nat>)
      requires Valid() && buf.Nbo() == 1
      ensures queued == LastMatch(entries, FdOf(buf))
      ensures ret == if queued.None? then -1 else qRet
    {
      var fd := FdOf(buf);
      var t := entries;
      queued := None;
      var i: nat := 0;
      while i < nbufs
        invariant i <= nbufs
        invariant queued == LastMatch(t[..i], fd)
      {
        assert t[..i + 1][..i] == t[..i];
        if t[i].fd == fd {
          queued := Some(i);
        }
        i := i + 1;
      }
      assert t[..nbufs] == t;
      if queued.None? {
        return -1, None;
      }
      return qRet, queued;
    }

    /** `v4l2_dqbuf`: the buffer at the index the driver reports, or the
        first buffer when the ioctl fails and the index keeps its initial
        0; the result is only logged. */
    method DQBuf(ans: DqAnswer) returns (buf: Buffer)
      requires Valid() && ans.Slot() < nbufs
      ensures ans.ret == 0 ==> buf == bufs[ans.index]
      ensures ans.ret != 0 ==> buf == bufs[0]
      ensures buf.Nbo() == 1
    {
      buf := bufs[ans.Slot()];
    }
  }

  /** `v4l2_open` after the device is opened: `current` is the format
      `VIDIOC_G_FMT` reports (None when it fails), `mediaRet` the result of
      the media controller set-up and `setRet` that of `VIDIOC_S_FMT`.
      The format is returned with the device. */
  method Open(argv: array<Arg>, current: Option<CaptureFormat>, mediaRet: int, setRet: int)
    returns (dev: V4l2Dev?, fmt: CaptureFormat)
    modifies argv
    ensures current.None? ==> dev == null && argv[..] == old(argv[..])
    ensures current.Some? ==>
      var p := CaptureParseFrom(old(argv[..]), 1, current.value, false, FormatOf);
      (dev != null <==> p.Parsed? && Complete(p.fmt) && (p.mcf ==> mediaRet >= 0) && setRet >= 0) &&
      (p.Parsed? ==> argv[..] == p.argv) &&
      (dev != null ==> fresh(dev) && dev.Valid() && !dev.requested && fmt == p.fmt)
  {
    fmt := CaptureFormat(0, 0, 0);
    if current.None? {
      return null, fmt;
    }
    var p := ParseCaptureArgs(argv, current.value);
    if !p.Parsed? || !Complete(p.fmt) {
      return null, fmt;
    }
    fmt := p.fmt;
    if p.mcf && mediaRet < 0 {
      return null, fmt;
    }
    if setRet < 0 {
      return null, fmt;
    }
    dev := new V4l2Dev();
  }
}
