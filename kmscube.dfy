/** util/display-kmscube.c: the display that draws the video as a texture
    on a spinning cube through GBM and EGL, then page-flips the GBM front
    buffer.  Modelled here: the `--kmscube` gate, the connector, mode and
    encoder search of `init_drm`, the single-plane buffer sizes, the
    framebuffer cache kept on each GBM BO, and the flip wait of
    `post_vid_buffer`.  The drawing itself and every GBM, EGL and GL call
    are inputs. */
module DisplayKmscube {
  import opened Common
  import opened Fourcc
  import opened Scan
  import opened Omap
  import DisplayKms

  // ---------------------------------------------------------------------
  // Options

  /** The arguments `disp_kmscube_open` consumes. */
  predicate IsCubeOption(x: Arg)
  {
    x.Some? && (x.value == "--distance" || x.value == "--fov" || x.value == "--kmscube")
  }

  /** The two options that take a value. */
  predicate TakesValue(x: Arg)
  {
    x.Some? && (x.value == "--distance" || x.value == "--fov")
  }

  /** Outcome of the option loop: the display is enabled or not, with the
      arguments left for the other parsers; or a value `%f` refuses; or an
      option with no value after it, where the source hands NULL to
      `sscanf`.  Each carries the arguments as the loop leaves them; an
      option that takes a value has its own slot cleared before the value
      is read. */
  datatype CubeParse = CubeArgs(enabled: bool, argv: seq<Arg>) | BadValue(arg: string, argv: seq<Arg>) | NoValue(option: string, argv: seq<Arg>)

  /** The option loop of `disp_kmscube_open` from argument i on.
      `scansFloat` says which strings `%f` accepts; floating-point values
      are otherwise not part of this model. */
  function CubeParseFrom(a: seq<Arg>, i: nat, enabled: bool, scansFloat: string -> bool): CubeParse
    decreases |a| - i
  {
    if i >= |a| then CubeArgs(enabled, a)
    else if !IsCubeOption(a[i]) then CubeParseFrom(a, i + 1, enabled, scansFloat)
    else if !TakesValue(a[i]) then CubeParseFrom(a[i := None], i + 1, true, scansFloat)
    else if i + 1 >= |a| || a[i + 1].None? then NoValue(a[i].value, a[i := None])
    else if !scansFloat(a[i + 1].value) then BadValue(a[i + 1].value, a[i := None])
    else CubeParseFrom(a[i := None][i + 1 := None], i + 2, enabled, scansFloat)
  }

  /** The display is enabled only by a `--kmscube` argument. */
  lemma {:induction false} EnabledNeedsFlag(a: seq<Arg>, i: nat, scansFloat: string -> bool)
    ensures CubeParseFrom(a, i, false, scansFloat).CubeArgs? && CubeParseFrom(a, i, false, scansFloat).enabled ==>
      exists k :: i <= k < |a| && a[k] == Some("--kmscube")
    decreases |a| - i
  {
    if i < |a| {
      var p := CubeParseFrom(a, i, false, scansFloat);
      if !IsCubeOption(a[i]) {
        assert p == CubeParseFrom(a, i + 1, false, scansFloat);
        EnabledNeedsFlag(a, i + 1, scansFloat);
      } else if !TakesValue(a[i]) {
        assert a[i] == Some("--kmscube");
      } else if i + 1 < |a| && a[i + 1].Some? && scansFloat(a[i + 1].value) {
        var a' := a[i := None][i + 1 := None];
        assert p == CubeParseFrom(a', i + 2, false, scansFloat);
        EnabledNeedsFlag(a', i + 2, scansFloat);
        if p.CubeArgs? && p.enabled {
          var k :| i + 2 <= k < |a'| && a'[k] == Some("--kmscube");
          assert a[k] == a'[k];
        }
      }
    }
  }

  /** Without `--distance` or `--fov`, parsing cannot fail, and it enables
      the display exactly when `--kmscube` is present. */
  lemma {:induction false} EnabledByFlag(a: seq<Arg>, i: nat, enabled: bool, scansFloat: string -> bool)
    requires forall k :: i <= k < |a| ==> !TakesValue(a[k])
    ensures CubeParseFrom(a, i, enabled, scansFloat).CubeArgs?
    ensures CubeParseFrom(a, i, enabled, scansFloat).enabled <==>
      enabled || exists k :: i <= k < |a| && a[k] == Some("--kmscube")
    decreases |a| - i
  {
    if i < |a| {
      if !IsCubeOption(a[i]) {
        assert CubeParseFrom(a, i, enabled, scansFloat) == CubeParseFrom(a, i + 1, enabled, scansFloat);
        EnabledByFlag(a, i + 1, enabled, scansFloat);
        assert a[i] != Some("--kmscube");
      } else {
        var a' := a[i := None];
        assert a[i] == Some("--kmscube");
        assert CubeParseFrom(a, i, enabled, scansFloat) == CubeParseFrom(a', i + 1, true, scansFloat);
        forall k | i + 1 <= k < |a'| ensures !TakesValue(a'[k]) {
          assert a'[k] == a[k];
        }
        EnabledByFlag(a', i + 1, true, scansFloat);
      }
    }
  }

  /** The option loop over the argument vector, clearing what it consumes. */
  method ParseCubeArgs(argv: array<Arg>, scansFloat: string -> bool) returns (p: CubeParse)
    modifies argv
    ensures p == CubeParseFrom(old(argv[..]), 1, false, scansFloat)
    ensures argv[..] == p.argv
  {
    var i := 1;
    var enabled := false;
    while i < argv.Length
      invariant 1 <= i
      invariant CubeParseFrom(argv[..], i, enabled, scansFloat) == CubeParseFrom(old(argv[..]), 1, false, scansFloat)
      decreases argv.Length - i
    {
      if !IsCubeOption(argv[i]) {
        i := i + 1;
      } else if !TakesValue(argv[i]) {
        ghost var a := argv[..];
        argv[i] := None;
        assert argv[..] == a[i := None];
        enabled := true;
        i := i + 1;
      } else if i + 1 >= argv.Length || argv[i + 1].None? {
        var option := argv[i].value;
        argv[i] := None;
        return NoValue(option, argv[..]);
      } else if !scansFloat(argv[i + 1].value) {
        argv[i] := None;
        return BadValue(argv[i + 1].value, argv[..]);
      } else {
        ghost var a := argv[..];
        argv[i] := None;
        argv[i + 1] := None;
        assert argv[..] == a[i := None][i + 1 := None];
        i := i + 2;
      }
    }
    return CubeArgs(enabled, argv[..]);
  }

  // ---------------------------------------------------------------------
  // init_drm

  /** `drmModeConnector` with its connection state. */
  datatype CubeConnector = CubeConnector(connectorId: u32, connected: bool, encoderId: u32, modes: seq<DisplayKms.Mode>)

  /** The device's connectors and encoders, each already fetched. */
  datatype CubeResources = CubeResources(connectors: seq<CubeConnector>, encoders: seq<DisplayKms.DrmEncoder>)

  /** What `init_drm` records: the mode, the CRTC and the connector. */
  datatype DrmSetup = DrmSetup(mode: DisplayKms.Mode, crtcId: u32, connectorId: u32)

  /** `hdisplay * vdisplay`, computed in a 32-bit `int`; the model takes
      the two's complement wrap-around where the product does not fit. */
  function Area(m: DisplayKms.Mode): (a: int)
    ensures -0x8000_0000 <= a < 0x8000_0000
    ensures 0 <= m.hdisplay * m.vdisplay < 0x8000_0000 ==> a == m.hdisplay * m.vdisplay
  {
    ToInt32(m.hdisplay * m.vdisplay)
  }

  /** Connector k is the first connected one. */
  predicate FirstConnected(cs: seq<CubeConnector>, k: nat)
  {
    k < |cs| && cs[k].connected && forall j :: 0 <= j < k ==> !cs[j].connected
  }

  /** Mode k has a positive area, strictly larger than every earlier mode's
      and at least as large as every later one's. */
  predicate IsBest(modes: seq<DisplayKms.Mode>, k: nat)
  {
    k < |modes| && Area(modes[k]) > 0 &&
    (forall j :: 0 <= j < k ==> Area(modes[j]) < Area(modes[k])) &&
    (forall j :: k < j < |modes| ==> Area(modes[j]) <= Area(modes[k]))
  }

  /** Encoder k is the first whose id is the given one. */
  predicate FirstEncoder(es: seq<DisplayKms.DrmEncoder>, id: u32, k: nat)
  {
    k < |es| && es[k].encoderId == id && forall j :: 0 <= j < k ==> es[j].encoderId != id
  }

  /** There is at most one first connected connector. */
  lemma FirstConnectedUnique(cs: seq<CubeConnector>, k: nat)
    requires FirstConnected(cs, k)
    ensures forall l :: FirstConnected(cs, l) ==> l == k
  {
  }

  /** At most one mode is the best: the choice is a function of the list. */
  lemma BestUnique(modes: seq<DisplayKms.Mode>, k: nat, l: nat)
    requires IsBest(modes, k) && IsBest(modes, l)
    ensures k == l
  {
  }

  /** The connector loop of `init_drm`. */
  method FindConnected(cs: seq<CubeConnector>) returns (r: Option<nat>)
    ensures r.Some? ==> FirstConnected(cs, r.value)
    ensures r.None? ==> forall j :: 0 <= j < |cs| ==> !cs[j].connected
  {
    var i := 0;
    while i < |cs|
      invariant i <= |cs|
      invariant forall j :: 0 <= j < i ==> !cs[j].connected
    {
      if cs[i].connected {
        return Some(i);
      }
      i := i + 1;
    }
    return None;
  }

  /** The mode loop of `init_drm`: keep a mode whose area is larger than
      the largest so far, which starts at 0. */
  method FindBestMode(modes: seq<DisplayKms.Mode>) returns (best: Option<nat>)
    ensures best.Some? ==> IsBest(modes, best.value)
    ensures best.None? ==> forall j :: 0 <= j < |modes| ==> Area(modes[j]) <= 0
  {
    var area := 0;
    best := None;
    var i := 0;
    while i < |modes|
      invariant i <= |modes| && area >= 0
      invariant forall j :: 0 <= j < i ==> Area(modes[j]) <= area
      invariant best.None? ==> area == 0
      invariant best.Some? ==> best.value < i && area == Area(modes[best.value]) > 0
      invariant best.Some? ==> forall j :: 0 <= j < best.value ==> Area(modes[j]) < area
    {
      var a := Area(modes[i]);
      if a > area {
        best := Some(i);
        area := a;
      }
      i := i + 1;
    }
  }

  /** The encoder loop of `init_drm`. */
  method FindEncoderById(es: seq<DisplayKms.DrmEncoder>, id: u32) returns (r: Option<nat>)
    ensures r.Some? ==> FirstEncoder(es, id, r.value)
    ensures r.None? ==> forall j :: 0 <= j < |es| ==> es[j].encoderId != id
  {
    var i := 0;
    while i < |es|
      invariant i <= |es|
      invariant forall j :: 0 <= j < i ==> es[j].encoderId != id
    {
      if es[i].encoderId == id {
        return Some(i);
      }
      i := i + 1;
    }
    return None;
  }

  /** s is what `init_drm` records for these resources: the first
      connected connector, its best mode, and the CRTC of the first encoder
      with the connector's encoder id. */
  ghost predicate Chosen(r: CubeResources, s: DrmSetup)
  {
    exists c: nat, m: nat, e: nat ::
      FirstConnected(r.connectors, c) && IsBest(r.connectors[c].modes, m) &&
      FirstEncoder(r.encoders, r.connectors[c].encoderId, e) &&
      s == DrmSetup(r.connectors[c].modes[m], r.encoders[e].crtcId, r.connectors[c].connectorId)
  }

  /** The resources offer a connected connector with a usable mode and its
      encoder. */
  ghost predicate Usable(r: CubeResources)
  {
    exists s :: Chosen(r, s)
  }

  /** The set-up is determined by the resources. */
  lemma ChosenUnique(r: CubeResources, s: DrmSetup, s': DrmSetup)
    requires Chosen(r, s) && Chosen(r, s')
    ensures s == s'
  {
    var c: nat, m: nat, e: nat :| FirstConnected(r.connectors, c) && IsBest(r.connectors[c].modes, m) &&
      FirstEncoder(r.encoders, r.connectors[c].encoderId, e) &&
      s == DrmSetup(r.connectors[c].modes[m], r.encoders[e].crtcId, r.connectors[c].connectorId);
    var c': nat, m': nat, e': nat :| FirstConnected(r.connectors, c') && IsBest(r.connectors[c'].modes, m') &&
      FirstEncoder(r.encoders, r.connectors[c'].encoderId, e') &&
      s' == DrmSetup(r.connectors[c'].modes[m'], r.encoders[e'].crtcId, r.connectors[c'].connectorId);
    FirstConnectedUnique(r.connectors, c);
    BestUnique(r.connectors[c].modes, m, m');
    FirstEncoderUnique(r.encoders, r.connectors[c].encoderId, e);
  }

  /** There is at most one first encoder with a given id. */
  lemma FirstEncoderUnique(es: seq<DisplayKms.DrmEncoder>, id: u32, k: nat)
    requires FirstEncoder(es, id, k)
    ensures forall l :: FirstEncoder(es, id, l) ==> l == k
  {
  }

  /** `init_drm`: the first connected connector, its mode of largest area
      and the CRTC of its current encoder; None (-1) when the resources
      cannot be read or any of the three is missing. */
  method InitDrm(res: Option<CubeResources>) returns (r: Option<DrmSetup>)
    ensures res.None? ==> r.None?
    ensures res.Some? ==> (r.Some? <==> Usable(res.value))
    ensures r.Some? ==> Chosen(res.value, r.value)
  {
    if res.None? {
      return None;
    }
    var cs := res.value.connectors;
    var es := res.value.encoders;
    var c := FindConnected(cs);
    if c.None? {
      assert forall c' :: !FirstConnected(cs, c');
      return None;
    }
    var con := cs[c.value];
    var m := FindBestMode(con.modes);
    FirstConnectedUnique(cs, c.value);
    if m.None? {
      assert forall m' :: !IsBest(con.modes, m');
      return None;
    }
    var e := FindEncoderById(es, con.encoderId);
    if e.None? {
      assert forall e' :: !FirstEncoder(es, con.encoderId, e');
      return None;
    }
    r := Some(DrmSetup(con.modes[m.value], es[e.value].crtcId, con.connectorId));
    assert FirstConnected(cs, c.value) && IsBest(cs[c.value].modes, m.value) && FirstEncoder(es, cs[c.value].encoderId, e.value);
    assert Chosen(res.value, r.value);
  }

  // ---------------------------------------------------------------------
  // Buffers

  /** The single plane `alloc_buffer` allocates for a format (fourcc 0 is
      allocated as AR24); NV12 and I420 become one 8-bit plane of
      w x (h + h/2), the height computed in `uint32_t`.  None for a format
      it refuses. */
  function CubeLayout(fourcc: u32, w: u32, h: u32): (r: Option<seq<Plane>>)
    ensures r.None? <==> !(fourcc in {0, AR24, UYVY, YUYV, NV12, I420})
    ensures r.Some? ==> |r.value| == 1 && ValidPlane(r.value[0]) && r.value[0].width == w
    ensures fourcc in {0, AR24, UYVY, YUYV} ==> r == DisplayKms.KmsLayout(fourcc, w, h)
    ensures fourcc in {NV12, I420} ==>
      r.Some? && r.value[0].bpp == 8 && (h + h / 2 < U32_LIMIT ==> r.value[0].height == h + h / 2)
  {
    if fourcc == 0 || fourcc == AR24 then Some([Plane(32, w, h)])
    else if fourcc == UYVY || fourcc == YUYV then Some([Plane(16, w, h)])
    else if fourcc == NV12 || fourcc == I420 then Some([Plane(8, w, Wrap32(h + h / 2))])
    else None
  }

  /** The bits a layout covers. */
  function LayoutBits(ps: seq<Plane>): nat
  {
    if ps == [] then 0 else ps[0].bpp * ps[0].width * ps[0].height + LayoutBits(ps[1..])
  }

  /** For even sizes the single NV12 or I420 plane is exactly as large as
      the planes the KMS display allocates for the same format. */
  lemma CubeLayoutSameSize(fourcc: u32, w: u32, h: u32)
    requires fourcc == NV12 || fourcc == I420
    requires w % 2 == 0 && h % 2 == 0 && h + h / 2 < U32_LIMIT
    ensures LayoutBits(CubeLayout(fourcc, w, h).value) == LayoutBits(DisplayKms.KmsLayout(fourcc, w, h).value)
  {
    var a := w / 2;
    var b := h / 2;
    var cube := CubeLayout(fourcc, w, h).value;
    var kms := DisplayKms.KmsLayout(fourcc, w, h).value;
    assert cube == [Plane(8, w, h + b)];
    SplitBits(cube);
    SplitBits(kms);
    HalfBits(a, b);
    if fourcc == NV12 {
      assert kms == [Plane(8, w, h), Plane(16, a, b)];
      SplitBits(kms[1..]);
    } else {
      assert kms == [Plane(8, w, h), Plane(8, a, b), Plane(8, a, b)];
      SplitBits(kms[1..]);
      SplitBits(kms[2..]);
    }
  }

  /** The first plane's bits and the rest's. */
  lemma SplitBits(ps: seq<Plane>)
    requires ps != []
    ensures LayoutBits(ps) == ps[0].bpp * ps[0].width * ps[0].height + LayoutBits(ps[1..])
    ensures |ps| == 1 ==> LayoutBits(ps[1..]) == 0
  {
  }

  /** One 8-bit plane of 2a x 3b holds as many bits as an 8-bit plane of
      2a x 2b and a 16-bit one, or two 8-bit ones, of a x b. */
  lemma HalfBits(a: nat, b: nat)
    ensures 8 * (2 * a) * (2 * b + b) == 8 * (2 * a) * (2 * b) + 16 * a * b
    ensures 16 * a * b == 8 * a * b + 8 * a * b
  {
    var ab := a * b;
    assert (2 * a) * (2 * b + b) == 6 * ab;
    assert (2 * a) * (2 * b) == 4 * ab;
    assert 8 * (2 * a) * (2 * b + b) == 8 * ((2 * a) * (2 * b + b));
    assert 8 * (2 * a) * (2 * b) == 8 * ((2 * a) * (2 * b));
    assert 16 * a * b == 16 * ab;
    assert 8 * a * b == 8 * ab;
  }

  /** `bo_flags` of this display is never set, so its BOs are never tiled:
      every plane is a linear BO of write-combined memory. */
  lemma CubeBosLinear(p: Plane)
    requires ValidPlane(p)
    ensures PlanBo(0, WC, p).0.NewLinear? && PlanBo(0, WC, p).0.flags == WC
  {
  }

  /** A buffer object of the GBM surface: its identity and what
      `gbm_bo_get_width`, `_height`, `_stride` and `_handle` return. */
  datatype GbmBo = GbmBo(id: nat, width: u32, height: u32, stride: u32, handle: u32)

  /** `drmModeAddFB`: size, depth, bits per pixel, pitch and GEM handle. */
  datatype AddFbCall = AddFb(width: u32, height: u32, depth: nat, bpp: nat, pitch: u32, handle: u32)

  /** `drm_fb_get_from_bo` on a cache of framebuffer ids by BO: the cached
      framebuffer, else the one `drmModeAddFB` makes (`added`), which is
      then cached; None when `drmModeAddFB` fails.  The result is the
      framebuffer and the new cache. */
  function FbFor(cache: map<nat, u32>, bo: GbmBo, added: Option<u32>): (r: (Option<u32>, map<nat, u32>))
    ensures r.0.Some? <==> bo.id in cache || added.Some?
    ensures r.1.Keys == if r.0.Some? then cache.Keys + {bo.id} else cache.Keys
    ensures forall id :: id in cache ==> r.1[id] == cache[id]
    ensures r.0.Some? ==> r.1[bo.id] == r.0.value
    ensures bo.id !in cache && added.Some? ==> r.0 == added
  {
    if bo.id in cache then (Some(cache[bo.id]), cache)
    else if added.None? then (None, cache)
    else (added, cache[bo.id := added.value])
  }

  /** Once a BO has a framebuffer, asking again returns it whatever
      `drmModeAddFB` would answer, and changes nothing. */
  lemma FbForMemo(cache: map<nat, u32>, bo: GbmBo, added: Option<u32>, again: Option<u32>)
    requires FbFor(cache, bo, added).0.Some?
    ensures FbFor(FbFor(cache, bo, added).1, bo, again) == FbFor(cache, bo, added)
  {
  }

  /** One return of `select` in the flip wait: its result, whether stdin
      is in the set it returns, and whether the `drmHandleEvent` that
      follows delivers the flip event. */
  datatype CubeSelect = CubeSelect(ret: int, stdin: bool, flipped: bool)

  /** The flip wait of `post_vid_buffer`: a failed `select` returns its
      result, a timeout -1, a readable stdin ends the wait (user
      interrupt), and otherwise the events are handled until the flip
      handler clears `waiting_for_flip`.  `select` overwrites the fd set it
      is given with the ready ones and the loop never refills it, so after
      a return without stdin, stdin is no longer watched.  None when the
      steps run out. */
  function FlipWait(steps: seq<CubeSelect>, watchStdin: bool): Option<int>
    decreases |steps|
  {
    if steps == [] then None
    else if steps[0].ret < 0 then Some(steps[0].ret)
    else if steps[0].ret == 0 then Some(-1)
    else if watchStdin && steps[0].stdin then Some(0)
    else if steps[0].flipped then Some(0)
    else FlipWait(steps[1..], false)
  }

  /** The wait succeeds only on the flip event, or on an interrupt at the
      first `select`; it fails only on a failed or timed-out `select`. */
  lemma {:induction false} FlipWaitMeaning(steps: seq<CubeSelect>, watchStdin: bool)
    requires FlipWait(steps, watchStdin).Some?
    ensures FlipWait(steps, watchStdin).value == 0 ==>
      exists k :: 0 <= k < |steps| && steps[k].ret > 0 && (steps[k].flipped || (k == 0 && watchStdin && steps[0].stdin))
    ensures FlipWait(steps, watchStdin).value != 0 ==>
      exists k :: 0 <= k < |steps| && steps[k].ret <= 0 && FlipWait(steps, watchStdin).value == (if steps[k].ret < 0 then steps[k].ret else -1)
    decreases |steps|
  {
    if steps[0].ret > 0 && !(watchStdin && steps[0].stdin) && !steps[0].flipped {
      FlipWaitMeaning(steps[1..], false);
      var v := FlipWait(steps, watchStdin).value;
      if v == 0 {
        var k :| 0 <= k < |steps[1..]| && steps[1..][k].ret > 0 && steps[1..][k].flipped;
        assert steps[k + 1] == steps[1..][k];
      } else {
        var k :| 0 <= k < |steps[1..]| && steps[1..][k].ret <= 0 && v == (if steps[1..][k].ret < 0 then steps[1..][k].ret else -1);
        assert steps[k + 1] == steps[1..][k];
      }
    }
  }

  /** A key pressed while the first `select` waits ends the wait; pressed
      after a `select` that returned for the DRM device alone, it is not
      seen. */
  lemma LateInterruptIgnored()
    ensures FlipWait([CubeSelect(1, true, false)], true) == Some(0)
    ensures FlipWait([CubeSelect(1, false, false), CubeSelect(1, true, false)], true) == None
  {
  }

  /** The display state `post_vid_buffer` uses and changes. */
  class KmsCube {
    /** `bo_flags`: nothing sets it, so it keeps the 0 of `calloc`. */
    const boFlags: bv32
    /** What `init_drm` recorded. */
    const setup: DrmSetup
    /** `i`, the animation counter, a `uint32_t`. */
    var frame: u32
    /** The framebuffer kept as user data on each GBM BO, by BO. */
    var fbOf: map<nat, u32>

    constructor (setup: DrmSetup, fbOf: map<nat, u32>)
      ensures this.setup == setup && this.fbOf == fbOf && boFlags == 0 && frame == 0
    {
      this.boFlags := 0;
      this.setup := setup;
      this.frame := 0;
      this.fbOf := fbOf;
    }

    /** `get_buffers`: this display has no full-screen buffers. */
    method GetBuffers(n: u32) returns (bufs: Option<seq<Buffer>>)
      ensures bufs.None?
    {
      return None;
    }

    /** `get_vid_buffers`: n single-plane buffers of the given format, each
      with an EGL image (`answers[i].1`); none for a format the display
      does not know. */
    method GetVidBuffers(n: u32, fourcc: u32, w: u32, h: u32, answers: seq<(seq<Option<Bo>>, Option<u32>)>)
      returns (bufs: Option<seq<Buffer>>)
      requires |answers| == n
      requires CubeLayout(fourcc, w, h).Some? ==> forall i :: 0 <= i < n ==> |answers[i].0| == 1
      requires forall i :: 0 <= i < n ==> (exists k :: 0 <= k < |answers[i].0| && answers[i].0[k].None?) ==> answers[i].1.None?
      ensures n > 0 && CubeLayout(fourcc, w, h).None? ==> bufs.None?
      ensures CubeLayout(fourcc, w, h).Some? ==> (bufs.Some? <==> forall i :: 0 <= i < n ==> answers[i].1.Some?)
      ensures bufs.Some? ==> |bufs.value| == n && Distinct(bufs.value)
      ensures bufs.Some? ==> forall i :: 0 <= i < n ==>
        var b := bufs.value[i];
        b.fourcc == fourcc && b.width == w && b.height == h && b.Nbo() == 1 && b.handle == answers[i].1.value
    {
      bufs := AllocBuffers(n, fourcc, w, h, CubeLayout(fourcc, w, h), boFlags, WC, answers);
    }

    /** `post_buffer`: not supported. */
    method PostBuffer(buf: Buffer) returns (ret: int)
      ensures ret == -1
    {
      return -1;
    }

    /** `drm_fb_get_from_bo`: `added` answers the `drmModeAddFB` it makes
      when the BO has no framebuffer yet. */
    method FbFromBo(bo: GbmBo, added: Option<u32>) returns (fb: Option<u32>, calls: seq<AddFbCall>)
      modifies this
      ensures (fb, fbOf) == FbFor(old(fbOf), bo, added)
      ensures calls == if bo.id in old(fbOf) then [] else [AddFb(bo.width, bo.height, 24, 32, bo.stride, bo.handle)]
      ensures frame == old(frame)
    {
      if bo.id in fbOf {
        return Some(fbOf[bo.id]), [];
      }
      calls := [AddFb(bo.width, bo.height, 24, 32, bo.stride, bo.handle)];
      if added.None? {
        return None, calls;
      }
      fbOf := fbOf[bo.id := added.value];
      fb := added;
    }

    /** `post_vid_buffer`: `texOk` says the texture update succeeded, `next`
      is the front buffer after the swap, `added` answers a
      `drmModeAddFB` for it, `flipRet` the page flip and `steps` the
      `select` calls.  The source uses the framebuffer without a NULL
      check, so it must exist. */
    method PostVidBuffer(texOk: bool, next: GbmBo, added: Option<u32>, flipRet: int, steps: seq<CubeSelect>)
      returns (ret: int, calls: seq<AddFbCall>, flip: Option<(u32, u32)>)
      requires texOk ==> FbFor(fbOf, next, added).0.Some?
      requires texOk && flipRet == 0 ==> FlipWait(steps, true).Some?
      modifies this
      ensures !texOk ==> ret == -1 && calls == [] && flip.None? && frame == old(frame) && fbOf == old(fbOf)
      ensures texOk ==> frame == Wrap32(old(frame) + 1) && fbOf == FbFor(old(fbOf), next, added).1
      ensures texOk ==> flip == Some((setup.crtcId, FbFor(old(fbOf), next, added).0.value))
      ensures texOk ==> ret == if flipRet != 0 then -1 else FlipWait(steps, true).value
    {
      if !texOk {
        return -1, [], None;
      }
      frame := Wrap32(frame + 1);
      var fb;
      fb, calls := FbFromBo(next, added);
      flip := Some((setup.crtcId, fb.value));
      if flipRet != 0 {
        return -1, calls, flip;
      }
      ret := WaitForFlip(steps);
    }

    /** The flip wait loop of `post_vid_buffer`. */
    method WaitForFlip(steps: seq<CubeSelect>) returns (ret: int)
      requires FlipWait(steps, true).Some?
      ensures ret == FlipWait(steps, true).value
    {
      var watchStdin := true;
      var k := 0;
      while k < |steps|
        invariant k <= |steps|
        invariant FlipWait(steps[k..], watchStdin) == FlipWait(steps, true)
        decreases |steps| - k
      {
        var s := steps[k];
        if s.ret < 0 {
          return s.ret;
        } else if s.ret == 0 {
          return -1;
        } else if watchStdin && s.stdin {
          return 0;
        } else if s.flipped {
          return 0;
        }
        assert steps[k..][1..] == steps[k + 1..];
        watchStdin := false;
        k := k + 1;
      }
      assert false;
    }
  }

  // ---------------------------------------------------------------------
  // Opening

  /** What `disp_kmscube_open` finds once `drmOpen` and `omap_device_new`
      succeed: the resources (None when `drmModeGetResources` fails),
      whether the plane resources, GBM and GL come up, the first front
      buffer with the answer to its `drmModeAddFB`, and the result of the
      mode-set. */
  datatype CubeDevice = CubeDevice(resources: Option<CubeResources>, planeResources: bool, gbmAndGl: bool,
                                   front: GbmBo, frontFb: Option<u32>, setCrtc: int)

  /** Every step before the mode-set succeeds. */
  ghost predicate ReachesModeSet(dev: CubeDevice)
  {
    dev.resources.Some? && Usable(dev.resources.value) && dev.planeResources && dev.gbmAndGl
  }

  /** The value of a `struct display *`. */
  datatype Pointer = Null | ToDisplay | IntAsPointer(value: int)

  /** The result of `disp_kmscube_open` as written: a failed
      `drmModeSetCrtc` makes it `return ret`, the error code converted to
      the `struct display *` it returns. */
  ghost function OpenPointerAsWritten(enabled: bool, device: Option<CubeDevice>): (p: Pointer)
    ensures p == ToDisplay ==> enabled && device.Some? && device.value.setCrtc == 0
  {
    if !enabled || device.None? || !ReachesModeSet(device.value) then Null
    else if device.value.setCrtc != 0 then IntAsPointer(device.value.setCrtc)
    else ToDisplay
  }

  /** As written, a failed mode-set yields a pointer that is neither NULL
      nor a display, so a caller testing for NULL uses it as a display. */
  lemma ModeSetFailureNotNull(device: CubeDevice)
    requires ReachesModeSet(device) && device.setCrtc != 0
    ensures OpenPointerAsWritten(true, Some(device)) != Null
    ensures OpenPointerAsWritten(true, Some(device)) != ToDisplay
  {
  }

  /** `disp_kmscube_open`, with a failed mode-set reported as NULL like
      every other failure.  `device` is None when `drmOpen` or
      `omap_device_new` fails.  Also returns the mode-set it makes. */
  method CubeOpen(argv: array<Arg>, scansFloat: string -> bool, device: Option<CubeDevice>)
    returns (d: KmsCube?, modeSet: Option<DisplayKms.CrtcCall>)
    requires device.Some? && ReachesModeSet(device.value) ==> device.value.frontFb.Some?
    modifies argv
    ensures var p := CubeParseFrom(old(argv[..]), 1, false, scansFloat);
      p.CubeArgs? ==> argv[..] == p.argv
    ensures var p := CubeParseFrom(old(argv[..]), 1, false, scansFloat);
      modeSet.Some? <==> p.CubeArgs? && p.enabled && device.Some? && ReachesModeSet(device.value)
    ensures d != null <==> modeSet.Some? && device.value.setCrtc == 0
    ensures modeSet.Some? ==> (exists s :: (Chosen(device.value.resources.value, s) &&
      modeSet.value == DisplayKms.SetCrtc(s.crtcId, device.value.frontFb.value, 0, s.connectorId, s.mode)))
    ensures d != null ==> (fresh(d) && d.boFlags == 0 && d.frame == 0 &&
      Chosen(device.value.resources.value, d.setup) && d.fbOf == map[device.value.front.id := device.value.frontFb.value])
  {
    d := null;
    modeSet := None;
    var p := ParseCubeArgs(argv, scansFloat);
    if !(p.CubeArgs? && p.enabled) || device.None? {
      return;
    }
    var dev := device.value;
    var setup := InitDrm(dev.resources);
    if setup.None? || !dev.planeResources || !dev.gbmAndGl {
      return;
    }
    var fb := dev.frontFb.value;
    modeSet := Some(DisplayKms.SetCrtc(setup.value.crtcId, fb, 0, setup.value.connectorId, setup.value.mode));
    if dev.setCrtc != 0 {
      return;
    }
    d := new KmsCube(setup.value, map[dev.front.id := fb]);
  }
}
