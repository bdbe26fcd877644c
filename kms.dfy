/** util/display-kms.c: the bare-KMS display.  Options `-t` and `-s`, the
    connector/mode/CRTC lookup, the side-by-side virtual display, buffer
    layouts, full-screen posting with mode-set then page flips, and video
    posting on overlay planes.  Every libdrm call is an input: the device's
    resources are values, and the result of each mode-set, flip, plane
    update and `select` is given to the method that makes the call. */
module DisplayKms {
  import opened Common
  import opened Fourcc
  import opened Scan
  import opened Omap
  import opened Util

  const MAX_CONNECTORS: nat := 10
  /** `sizeof(connector->mode_str)`. */
  const MODE_STR_SIZE: nat := 64
  /** `ETIMEDOUT` on Linux. */
  const ETIMEDOUT: int := 110

  // ---------------------------------------------------------------------
  // What the kernel reports

  /** `drmModeModeInfo`: the name and the visible size. */
  datatype Mode = Mode(name: string, hdisplay: u16, vdisplay: u16)

  /** `drmModeConnector` as `drmModeGetConnector` returns it. */
  datatype DrmConnector = DrmConnector(connectorId: u32, encoderId: u32, modes: seq<Mode>)

  /** `drmModeEncoder`. */
  datatype DrmEncoder = DrmEncoder(encoderId: u32, crtcId: u32)

  /** `drmModeRes` with each object already fetched; None where the get
      call failed. */
  datatype Resources = Resources(connectors: seq<Option<DrmConnector>>, encoders: seq<Option<DrmEncoder>>, crtcs: seq<u32>)

  /** `drmModePlane`: its id and the bitmask of CRTC indices it can feed. */
  datatype OverlayPlane = OverlayPlane(planeId: u32, possibleCrtcs: bv32)

  /** `struct connector`: what `-s` asked for and what the lookup found
      (the encoder is kept only through the CRTC it supplies). */
  datatype Connector = Connector(id: u32, modeStr: string, mode: Option<Mode>, crtc: int, pipe: int)

  // ---------------------------------------------------------------------
  // Options

  /** The value of `-t`: "auto" is 0, anything else goes through `%d`. */
  function TileMode(v: string): (n: Option<int>)
    ensures v == "auto" ==> n == Some(0)
    ensures v != "auto" ==> (n.Some? <==> ScanInt(v).Got?)
  {
    if v == "auto" then Some(0)
    else match ScanInt(v)
      case Fail => None
      case Got(n, _) => Some(n)
  }

  /** The display flags after `-t n`: the tiling bits are replaced by the
      mode for 8, 16 or 32, or by all of them ("auto") for 0; any other
      value is refused. */
  function TileFlags(flags: bv32, n: int): (r: Option<bv32>)
    ensures r.Some? <==> n == 0 || n == 8 || n == 16 || n == 32
    ensures r.Some? ==> r.value & !TILED == flags & !TILED
    ensures r.Some? ==> (r.value & TILED ==
      (if n == 8 then TILED_8 else if n == 16 then TILED_16 else if n == 32 then TILED_32 else TILED))
  {
    var cleared := flags & !TILED;
    if n == 8 then Some(cleared | TILED_8)
    else if n == 16 then Some(cleared | TILED_16)
    else if n == 32 then Some(cleared | TILED_32)
    else if n == 0 then Some(cleared | TILED)
    else None
  }

  /** The value of `-s`: `%d:%Ns`, or else `%d@%d:%Ns`, where N is the
      field width given for the mode name.  The CRTC is -1 unless given. */
  function ConnectorArg(v: string, width: nat): (c: Option<Connector>)
    requires width > 0
    ensures c.Some? ==> c.value.mode.None? && c.value.pipe == 0 && 1 <= |c.value.modeStr| <= width
  {
    match ScanInt(v)
    case Fail => None
    case Got(id, r1) =>
      match ScanChar(r1, ':')
      case Got(_, r2) =>
        (match ScanWord(r2, width)
         case Got(m, _) => Some(Connector(Wrap32(id), m, None, -1, 0))
         case Fail => None)
      case Fail =>
        match ScanChar(r1, '@')
        case Fail => None
        case Got(_, r3) =>
          match ScanInt(r3)
          case Fail => None
          case Got(crtc, r4) =>
            match ScanChar(r4, ':')
            case Fail => None
            case Got(_, r5) =>
              match ScanWord(r5, width)
              case Fail => None
              case Got(m, _) => Some(Connector(Wrap32(id), m, None, crtc, 0))
  }

  /** `%64s` as the source writes it: up to 64 characters and a NUL. */
  function ConnectorArgAsWritten(v: string): (c: Option<Connector>)
    ensures c.Some? ==> |c.value.modeStr| <= MODE_STR_SIZE
  {
    ConnectorArg(v, MODE_STR_SIZE)
  }

  /** `%63s`, which keeps the name and its NUL inside `mode_str[64]`. */
  function ConnectorArgBounded(v: string): (c: Option<Connector>)
    ensures c.Some? ==> |c.value.modeStr| + 1 <= MODE_STR_SIZE
  {
    ConnectorArg(v, MODE_STR_SIZE - 1)
  }

  /** `-s id:mode` with a non-blank name: the name is kept up to the
      field width and cut there, the CRTC is -1. */
  lemma ConnectorArgCut(id: nat, m: string, width: nat)
    requires id < 0x8000_0000 && width > 0 && 1 <= |m|
    requires forall k :: 0 <= k < |m| ==> !IsSpace(m[k])
    ensures ConnectorArg(NatToString(id) + ":" + m, width) == Some(Connector(id, m[..Min(width, |m|)], None, -1, 0))
  {
    var d := NatToString(id);
    assert (d + ":" + m) == d + (":" + m);
    ScanIntOfNumeral(id, ":" + m);
    assert (":" + m)[1..] == m;
    ScanWordCut(m, width);
  }

  /** `-s id:mode` is read back: the connector id and the mode name. */
  lemma ConnectorArgRoundTrip(id: nat, m: string, width: nat)
    requires id < 0x8000_0000 && 1 <= |m| <= width
    requires forall k :: 0 <= k < |m| ==> !IsSpace(m[k])
    ensures ConnectorArg(NatToString(id) + ":" + m, width) == Some(Connector(id, m, None, -1, 0))
  {
    ConnectorArgCut(id, m, width);
    assert m[..|m|] == m;
  }

  /** A mode name of 64 characters or more: `%64s` keeps 64 of them, which
      with the NUL overruns `mode_str`, while `%63s` accepts the option with
      the name cut to its first 63 characters. */
  lemma LongModeNameCut(id: nat, m: string)
    requires id < 0x8000_0000 && |m| >= MODE_STR_SIZE
    requires forall k :: 0 <= k < |m| ==> !IsSpace(m[k])
    ensures ConnectorArgAsWritten(NatToString(id) + ":" + m) == Some(Connector(id, m[..MODE_STR_SIZE], None, -1, 0))
    ensures ConnectorArgBounded(NatToString(id) + ":" + m) == Some(Connector(id, m[..MODE_STR_SIZE - 1], None, -1, 0))
  {
    ConnectorArgCut(id, m, MODE_STR_SIZE);
    ConnectorArgCut(id, m, MODE_STR_SIZE - 1);
  }

  /** With the width the source gives, a 64-character mode name is
      accepted, and `mode_str[64]` then receives 65 bytes. */
  lemma ModeStrOverflow()
    ensures exists v: string :: (ConnectorArgAsWritten(v).Some? &&
      |ConnectorArgAsWritten(v).value.modeStr| + 1 > MODE_STR_SIZE)
  {
    var m := seq(64, _ => 'a');
    ConnectorArgRoundTrip(1, m, MODE_STR_SIZE);
    assert ConnectorArgAsWritten(NatToString(1) + ":" + m).Some?;
  }

  /** What `-t` and `-s` leave in the display. */
  datatype KmsArgs = KmsArgs(flags: bv32, connectors: seq<Connector>)

  /** How option parsing ends.  `MissingValue` is an option in the last
      argument (or before a consumed one), which `strcmp`/`sscanf` then
      read through a NULL pointer; `TooManyConnectors` is an eleventh `-s`,
      which the source writes past `connector[10]`.  Both are undefined
      behaviour in the source. */
  datatype KmsParse = Parsed(args: KmsArgs, argv: seq<Arg>) | Invalid(arg: string) | MissingValue(option: string) | TooManyConnectors

  /** One `-t v` or `-s v`: the new state, or how parsing stops. */
  datatype Step = Next(st: KmsArgs) | Stop(outcome: KmsParse)

  function OptionStep(opt: string, v: string, st: KmsArgs): (r: Step)
    ensures r.Stop? ==> !r.outcome.Parsed?
    ensures r.Next? && opt == "-t" ==>
      r.st.connectors == st.connectors && r.st.flags & !TILED == st.flags & !TILED
    ensures r.Next? && opt != "-t" ==>
      |st.connectors| < MAX_CONNECTORS && r.st.flags == st.flags | SCANOUT &&
      |r.st.connectors| == |st.connectors| + 1 && r.st.connectors[..|st.connectors|] == st.connectors
  {
    if opt == "-t" then
      match TileMode(v)
      case None => Stop(Invalid(v))
      case Some(n) =>
        match TileFlags(st.flags, n)
        case None => Stop(Invalid(v))
        case Some(f) => Next(st.(flags := f))
    else if |st.connectors| >= MAX_CONNECTORS then Stop(TooManyConnectors)
    else
      match ConnectorArgBounded(v)
      case None => Stop(Invalid(v))
      case Some(c) => Next(KmsArgs(st.flags | SCANOUT, st.connectors + [c]))
  }

  /** The two options this backend reads. */
  predicate IsKmsOption(x: Arg)
  {
    x.Some? && (x.value == "-t" || x.value == "-s")
  }

  /** The option loop of `disp_kms_open` from argument i on: `-t` and `-s`
      take the next argument, and both slots are set to NULL; anything else
      is left for other parsers. */
  function ParseFrom(a: seq<Arg>, i: nat, st: KmsArgs): KmsParse
    decreases |a| - i
  {
    if i >= |a| then Parsed(st, a)
    else if !IsKmsOption(a[i]) then ParseFrom(a, i + 1, st)
    else if i + 1 >= |a| || a[i + 1].None? then MissingValue(a[i].value)
    else
      match OptionStep(a[i].value, a[i + 1].value, st)
      case Stop(o) => o
      case Next(st') => ParseFrom(a[i := None][i + 1 := None], i + 2, st')
  }

  /** No `-t` or `-s` is left in a from i on. */
  predicate NoKmsOption(a: seq<Arg>, i: nat)
  {
    forall k :: i <= k < |a| ==> !IsKmsOption(a[k])
  }

  /** Clearing the two slots of a consumed option keeps b a clearing of a. */
  lemma ClearedPair(a: seq<Arg>, b: seq<Arg>, i: nat)
    requires i + 1 < |a|
    requires OnlyCleared(a[i := None][i + 1 := None], b, i + 2) && NoKmsOption(b, i + 2)
    ensures OnlyCleared(a, b, i) && NoKmsOption(b, i)
  {
    var a' := a[i := None][i + 1 := None];
    assert b[i] == None && b[i + 1] == None;
    forall k | 0 <= k < |a|
      ensures b[k] == a[k] || b[k].None?
    {
      if k != i && k != i + 1 {
        assert a'[k] == a[k];
      }
    }
  }

  /** Parsing only ever clears argument slots, and never one before i; a
      successful parse leaves no `-t` or `-s` at or after i. */
  lemma {:induction false} ParseFromClearsOnly(a: seq<Arg>, i: nat, st: KmsArgs)
    ensures ParseFrom(a, i, st).Parsed? ==>
      OnlyCleared(a, ParseFrom(a, i, st).argv, i) && NoKmsOption(ParseFrom(a, i, st).argv, i)
    decreases |a| - i
  {
    if i < |a| {
      if !IsKmsOption(a[i]) {
        ParseFromClearsOnly(a, i + 1, st);
        assert ParseFrom(a, i, st) == ParseFrom(a, i + 1, st);
      } else if i + 1 < |a| && a[i + 1].Some? {
        var r := OptionStep(a[i].value, a[i + 1].value, st);
        if r.Next? {
          var a' := a[i := None][i + 1 := None];
          ParseFromClearsOnly(a', i + 2, r.st);
          assert ParseFrom(a, i, st) == ParseFrom(a', i + 2, r.st);
          if ParseFrom(a, i, st).Parsed? {
            ClearedPair(a, ParseFrom(a', i + 2, r.st).argv, i);
          }
        }
      }
    }
  }

  /** At most `MAX_CONNECTORS` connectors are read, and once one is, the
      buffers are requested scan-out capable. */
  lemma {:induction false} ParseFromConnectors(a: seq<Arg>, i: nat, st: KmsArgs)
    requires |st.connectors| <= MAX_CONNECTORS
    requires st.connectors != [] ==> st.flags & SCANOUT == SCANOUT
    ensures ParseFrom(a, i, st).Parsed? ==> |ParseFrom(a, i, st).args.connectors| <= MAX_CONNECTORS
    ensures ParseFrom(a, i, st).Parsed? && ParseFrom(a, i, st).args.connectors != [] ==>
      ParseFrom(a, i, st).args.flags & SCANOUT == SCANOUT
    decreases |a| - i
  {
    if i < |a| {
      if !IsKmsOption(a[i]) {
        ParseFromConnectors(a, i + 1, st);
      } else if i + 1 < |a| && a[i + 1].Some? {
        var r := OptionStep(a[i].value, a[i + 1].value, st);
        if r.Next? {
          if a[i].value == "-t" {
            assert r.st.flags & SCANOUT == st.flags & SCANOUT;
          }
          ParseFromConnectors(a[i := None][i + 1 := None], i + 2, r.st);
        }
      }
    }
  }

  // ---------------------------------------------------------------------
  // Mode lookup

  /** The resource connector `connector_find_mode` settles on: the first
      one fetched whose id matches and that has at least one mode. */
  function FindConnector(cs: seq<Option<DrmConnector>>, id: u32): (r: Option<DrmConnector>)
    ensures r.Some? ==> r.value.connectorId == id && r.value.modes != [] && Some(r.value) in cs
    ensures r.None? ==> forall k :: 0 <= k < |cs| && cs[k].Some? ==> cs[k].value.connectorId != id || cs[k].value.modes == []
  {
    if cs == [] then None
    else if cs[0].Some? && cs[0].value.modes != [] && cs[0].value.connectorId == id then cs[0]
    else FindConnector(cs[1..], id)
  }

  /** The mode the name loop leaves in `c->mode`: the first whose name is
      the requested one, or else the last mode. */
  function PickMode(modes: seq<Mode>, name: string): (m: Mode)
    requires modes != []
    ensures m in modes
    ensures (exists k :: 0 <= k < |modes| && modes[k].name == name) ==> m.name == name
    ensures (forall k :: 0 <= k < |modes| ==> modes[k].name != name) ==> m == modes[|modes| - 1]
  {
    if |modes| == 1 || modes[0].name == name then modes[0] else PickMode(modes[1..], name)
  }

  /** The first encoder fetched whose id is the connector's. */
  function FindEncoder(es: seq<Option<DrmEncoder>>, id: u32): (r: Option<DrmEncoder>)
    ensures r.Some? ==> r.value.encoderId == id && Some(r.value) in es
    ensures r.None? ==> forall k :: 0 <= k < |es| && es[k].Some? ==> es[k].value.encoderId != id
  {
    if es == [] then None
    else if es[0].Some? && es[0].value.encoderId == id then es[0]
    else FindEncoder(es[1..], id)
  }

  /** The index of the CRTC among the resources' CRTCs (each compared
      after its conversion to `int`), searching from index i, or `pipe` when
      it is not there (the field is then left as it was). */
  function PipeFrom(crtcs: seq<u32>, crtc: int, i: nat, pipe: int): (r: int)
    ensures (i <= r < |crtcs| && ToInt32(crtcs[r]) == crtc && forall k :: i <= k < r ==> ToInt32(crtcs[k]) != crtc) ||
      (r == pipe && forall k :: i <= k < |crtcs| ==> ToInt32(crtcs[k]) != crtc)
    decreases |crtcs| - i
  {
    if i >= |crtcs| then pipe
    else if ToInt32(crtcs[i]) == crtc then i
    else PipeFrom(crtcs, crtc, i + 1, pipe)
  }

  /** The lookup can settle on a CRTC: one was given with `-s`, or the
      connector's encoder is among those fetched. */
  predicate CrtcKnown(c: Connector, res: Resources)
  {
    var dc := FindConnector(res.connectors, c.id);
    c.crtc != -1 || (dc.Some? && FindEncoder(res.encoders, dc.value.encoderId).Some?)
  }

  /** What `c->encoder` points to after the encoder loop. */
  datatype EncoderPtr = NullEncoder | FreedEncoder(freed: DrmEncoder) | LiveEncoder(live: DrmEncoder)

  /** The encoder loop of `connector_find_mode` as written, from the
      pointer `cur`: a failed get leaves NULL, a match stops the loop, and
      any other encoder is freed but stays in `c->encoder`. */
  function EncoderAfterLoop(es: seq<Option<DrmEncoder>>, id: u32, cur: EncoderPtr): (p: EncoderPtr)
    requires !cur.LiveEncoder?
    ensures p.LiveEncoder? <==> FindEncoder(es, id).Some?
    ensures p.LiveEncoder? ==> FindEncoder(es, id) == Some(p.live)
    ensures FindEncoder(es, id).None? ==>
      p == if es == [] then cur else if es[|es| - 1].None? then NullEncoder else FreedEncoder(es[|es| - 1].value)
  {
    if es == [] then cur
    else if es[0].None? then EncoderAfterLoop(es[1..], id, NullEncoder)
    else if es[0].value.encoderId == id then LiveEncoder(es[0].value)
    else EncoderAfterLoop(es[1..], id, FreedEncoder(es[0].value))
  }

  /** With no CRTC given, the source reads the CRTC of a live encoder
      exactly when the lookup can settle on a CRTC; otherwise it reads a
      freed encoder or NULL. */
  lemma EncoderReadAsWritten(c: Connector, res: Resources)
    requires FindConnector(res.connectors, c.id).Some? && c.crtc == -1
    ensures var p := EncoderAfterLoop(res.encoders, FindConnector(res.connectors, c.id).value.encoderId, NullEncoder);
      (p.LiveEncoder? <==> CrtcKnown(c, res)) && (!CrtcKnown(c, res) ==> p.NullEncoder? || p.FreedEncoder?)
  {
  }

  /** The input of the finding: `-s 5:mode` with no CRTC, connector 5
      naming encoder 7, and encoder 8 the only one fetched.  The loop frees
      encoder 8 and leaves `c->encoder` pointing at it, so the source reads
      the CRTC of a freed encoder; the model gives the connector no mode. */
  lemma FreedEncoderReadAsWritten()
    ensures var m := Mode("mode", 1920, 1080);
      var c := Connector(5, "mode", None, -1, 0);
      var res := Resources([Some(DrmConnector(5, 7, [m]))], [Some(DrmEncoder(8, 40))], [40]);
      EncoderAfterLoop(res.encoders, 7, NullEncoder) == FreedEncoder(DrmEncoder(8, 40)) &&
      !CrtcKnown(c, res) && FoundMode(c, res).mode.None?
  {
    var m := Mode("mode", 1920, 1080);
    var res := Resources([Some(DrmConnector(5, 7, [m]))], [Some(DrmEncoder(8, 40))], [40]);
    assert FindConnector(res.connectors, 5) == Some(DrmConnector(5, 7, [m]));
    assert FindEncoder(res.encoders, 7).None?;
  }

  /** A fetched connector with this id and at least one mode. */
  predicate Offers(rc: Option<DrmConnector>, id: u32)
  {
    rc.Some? && rc.value.connectorId == id && rc.value.modes != []
  }

  /** What `connector_find_mode` makes of a connector.  With no CRTC
      given and no fetched encoder matching, the connector is left without
      a mode, as when no mode is found. */
  function FoundMode(c: Connector, res: Resources): (r: Connector)
    ensures r.id == c.id && r.modeStr == c.modeStr
  {
    match FindConnector(res.connectors, c.id)
    case None => c.(mode := None)
    case Some(dc) =>
      if c.crtc == -1 && FindEncoder(res.encoders, dc.encoderId).None? then c.(mode := None)
      else
      var crtc := if c.crtc == -1 then ToInt32(FindEncoder(res.encoders, dc.encoderId).value.crtcId) else c.crtc;
      c.(mode := Some(PickMode(dc.modes, c.modeStr)), crtc := crtc, pipe := PipeFrom(res.crtcs, crtc, 0, c.pipe))
  }

  /** The lookup finds a mode exactly when some connector with that id has
      modes and a CRTC is known for it; the mode is one of that connector's, named as asked when it
      can be; the CRTC is the one given, if any; and the pipe is that
      CRTC's index, or unchanged when the CRTC is not listed. */
  lemma FoundModeMeaning(c: Connector, res: Resources)
    ensures FoundMode(c, res).mode.Some? <==>
      (exists k :: 0 <= k < |res.connectors| && Offers(res.connectors[k], c.id)) && CrtcKnown(c, res)
    ensures FoundMode(c, res).mode.None? ==> FoundMode(c, res) == c.(mode := None)
    ensures FoundMode(c, res).mode.Some? ==> exists k :: (0 <= k < |res.connectors| && Offers(res.connectors[k], c.id) &&
      FoundMode(c, res).mode.value in res.connectors[k].value.modes &&
      ((exists m :: m in res.connectors[k].value.modes && m.name == c.modeStr) ==> FoundMode(c, res).mode.value.name == c.modeStr))
    ensures FoundMode(c, res).mode.Some? && c.crtc != -1 ==> FoundMode(c, res).crtc == c.crtc
    ensures var r := FoundMode(c, res);
      r.mode.Some? ==> r.pipe == c.pipe || (0 <= r.pipe < |res.crtcs| && ToInt32(res.crtcs[r.pipe]) == r.crtc)
  {
    var dc := FindConnector(res.connectors, c.id);
    if dc.Some? {
      var m := PickMode(dc.value.modes, c.modeStr);
      assert m in dc.value.modes;
    }
  }

  /** `connector_find_mode`: the connector with its mode, CRTC and pipe. */
  method ConnectorFindMode(c: Connector, res: Resources) returns (c': Connector)
    ensures c' == FoundMode(c, res)
  {
    c' := c.(mode := None);
    var found: Option<DrmConnector> := None;
    var i := 0;
    while i < |res.connectors|
      invariant 0 <= i <= |res.connectors|
      invariant found.None? ==> FindConnector(res.connectors, c.id) == FindConnector(res.connectors[i..], c.id)
      invariant found.Some? ==> found == FindConnector(res.connectors, c.id)
    {
      if found.None? {
        var rc := res.connectors[i];
        if rc.Some? && rc.value.modes != [] && rc.value.connectorId == c.id {
          found := rc;
        }
      }
      i := i + 1;
    }
    if found.None? {
      return;
    }
    var dc := found.value;
    var mode := PickModeLoop(dc.modes, c.modeStr);
    c' := c'.(mode := Some(mode));
    if c.crtc == -1 {
      var e := FindEncoderLoop(res.encoders, dc.encoderId);
      if e.None? {
        return c.(mode := None);
      }
      c' := c'.(crtc := ToInt32(e.value.crtcId));
    }
    var pipe := c.pipe;
    i := 0;
    while i < |res.crtcs|
      invariant 0 <= i <= |res.crtcs|
      invariant PipeFrom(res.crtcs, c'.crtc, 0, c.pipe) == PipeFrom(res.crtcs, c'.crtc, i, c.pipe)
    {
      if ToInt32(res.crtcs[i]) == c'.crtc {
        pipe := i;
        break;
      }
      i := i + 1;
    }
    c' := c'.(pipe := pipe);
  }

  /** The mode loop of `connector_find_mode`. */
  method PickModeLoop(modes: seq<Mode>, name: string) returns (m: Mode)
    requires modes != []
    ensures m == PickMode(modes, name)
  {
    var j := 0;
    m := modes[0];
    while j < |modes|
      invariant 0 <= j <= |modes|
      invariant j < |modes| ==> PickMode(modes, name) == PickMode(modes[j..], name)
      invariant j == |modes| ==> m == PickMode(modes, name)
    {
      m := modes[j];
      if m.name == name {
        return;
      }
      j := j + 1;
    }
  }

  /** The encoder loop of `connector_find_mode`. */
  method FindEncoderLoop(es: seq<Option<DrmEncoder>>, id: u32) returns (e: Option<DrmEncoder>)
    ensures e == FindEncoder(es, id)
  {
    var i := 0;
    while i < |es|
      invariant 0 <= i <= |es|
      invariant FindEncoder(es, id) == FindEncoder(es[i..], id)
    {
      if es[i].Some? && es[i].value.encoderId == id {
        return es[i];
      }
      i := i + 1;
    }
    return None;
  }

  // ---------------------------------------------------------------------
  // The side-by-side virtual display

  /** Number of connectors that have a mode. */
  function CountModes(cs: seq<Connector>): (n: nat)
    ensures n <= |cs|
  {
    if cs == [] then 0
    else CountModes(cs[..|cs| - 1]) + (if cs[|cs| - 1].mode.Some? then 1 else 0)
  }

  /** Total width of the connectors that have a mode. */
  function SumWidth(cs: seq<Connector>): (w: nat)
    ensures w <= 0xFFFF * |cs|
  {
    if cs == [] then 0
    else
      var c := cs[|cs| - 1];
      SumWidth(cs[..|cs| - 1]) + (if c.mode.Some? then c.mode.value.hdisplay else 0)
  }

  /** Greatest height among the connectors that have a mode, 0 without one. */
  function MaxHeight(cs: seq<Connector>): (h: nat)
    ensures h <= 0xFFFF
  {
    if cs == [] then 0
    else
      var c := cs[|cs| - 1];
      var h0 := MaxHeight(cs[..|cs| - 1]);
      if c.mode.Some? && h0 < c.mode.value.vdisplay then c.mode.value.vdisplay else h0
  }

  /** The display is as tall as its tallest mode: no mode is taller, and
      the height is 0 or the height of some mode. */
  lemma {:induction false} MaxHeightIsMax(cs: seq<Connector>)
    ensures forall k :: 0 <= k < |cs| && cs[k].mode.Some? ==> cs[k].mode.value.vdisplay <= MaxHeight(cs)
    ensures MaxHeight(cs) == 0 || exists k :: 0 <= k < |cs| && cs[k].mode.Some? && cs[k].mode.value.vdisplay == MaxHeight(cs)
  {
    if cs != [] {
      var n := |cs| - 1;
      MaxHeightIsMax(cs[..n]);
      assert forall k :: 0 <= k < n ==> cs[..n][k] == cs[k];
    }
  }

  /** The connector loop at the end of `disp_kms_open`: look up every
      connector, and lay those with a mode side by side. */
  method SetupConnectors(cs: seq<Connector>, res: Resources) returns (found: seq<Connector>, width: nat, height: nat)
    ensures |found| == |cs| && forall k :: 0 <= k < |cs| ==> found[k] == FoundMode(cs[k], res)
    ensures width == SumWidth(found) && height == MaxHeight(found)
  {
    found := [];
    width := 0;
    height := 0;
    var i := 0;
    while i < |cs|
      invariant 0 <= i <= |cs| && |found| == i
      invariant forall k :: 0 <= k < i ==> found[k] == FoundMode(cs[k], res)
      invariant width == SumWidth(found) && height == MaxHeight(found)
    {
      var c := ConnectorFindMode(cs[i], res);
      ghost var prev := found;
      found := found + [c];
      assert found[..|found| - 1] == prev;
      assert SumWidth(found) == SumWidth(prev) + (if c.mode.Some? then c.mode.value.hdisplay else 0);
      assert MaxHeight(found) == if c.mode.Some? && MaxHeight(prev) < c.mode.value.vdisplay then c.mode.value.vdisplay else MaxHeight(prev);
      if c.mode.Some? {
        width := width + c.mode.value.hdisplay;
        if height < c.mode.value.vdisplay {
          height := c.mode.value.vdisplay;
        }
      }
      i := i + 1;
    }
  }

  // ---------------------------------------------------------------------
  // Buffer layouts

  /** The planes `alloc_buffer` allocates for a format (fourcc 0 is
      allocated as AR24); None for a format it refuses. */
  function KmsLayout(fourcc: u32, w: u32, h: u32): (r: Option<seq<Plane>>)
    ensures r.None? <==> !(fourcc in {0, AR24, UYVY, YUYV, NV12, I420})
    ensures r.Some? ==> 1 <= |r.value| <= 3 && r.value[0].width == w && r.value[0].height == h
    ensures r.Some? ==> forall k :: 0 <= k < |r.value| ==> ValidPlane(r.value[k])
    ensures r.Some? ==> forall k :: 1 <= k < |r.value| ==> r.value[k].width == w / 2 && r.value[k].height == h / 2
  {
    if fourcc == 0 || fourcc == AR24 then Some([Plane(32, w, h)])
    else if fourcc == UYVY || fourcc == YUYV then Some([Plane(16, w, h)])
    else if fourcc == NV12 then Some([Plane(8, w, h), Plane(16, w / 2, h / 2)])
    else if fourcc == I420 then Some([Plane(8, w, h), Plane(8, w / 2, h / 2), Plane(8, w / 2, h / 2)])
    else None
  }

  /** Every format both `alloc_buffer` and `fill` know gets the number of
      planes `fill` asserts. */
  lemma KmsLayoutFitsFill(fourcc: u32, w: u32, h: u32)
    requires fourcc in {0, YUYV, NV12, I420}
    ensures KmsLayout(fourcc, w, h).Some?
    ensures |KmsLayout(fourcc, w, h).value| == PlanesFor(PatternFor(fourcc))
  {
  }

  // ---------------------------------------------------------------------
  // Posting

  /** The CRTC calls of `post_buffer`, with the CRTC id as the `int` the
      connector holds. */
  datatype CrtcCall = SetCrtc(crtc: int, fb: u32, x: int, connectorId: u32, mode: Mode) | PageFlip(crtc: int, fb: u32)

  /** `drmModeSetPlane`: plane, CRTC, framebuffer, the destination (the
      whole mode) and the source rectangle in 16.16 fixed point. */
  datatype PlaneCall = SetPlane(planeId: u32, crtc: int, fb: u32, crtcW: u16, crtcH: u16, srcX: u32, srcY: u32, srcW: u32, srcH: u32)

  /** What `select` on the DRM fd returns: readable with this many flip
      events pending, a timeout (0) or an error (-1), each with whether
      `errno` then reads `EAGAIN`. */
  datatype SelectResult = Ready(events: nat) | TimedOut(eagain: bool) | Failed(eagain: bool)

  /** The calls `post_buffer` makes for frame buffer fb: on the first post
      a mode-set per connector with a mode, each placed right of the
      previous one; afterwards a page flip per such connector. */
  function PostCalls(cs: seq<Connector>, first: bool, fb: u32): (calls: seq<CrtcCall>)
    ensures |calls| == CountModes(cs)
  {
    if cs == [] then []
    else
      var init := cs[..|cs| - 1];
      PostCalls(init, first, fb) + ConnectorCall(cs[|cs| - 1], first, fb, SumWidth(init))
  }

  /** The call `post_buffer` makes for one connector, x being where its
      mode-set places it. */
  function ConnectorCall(c: Connector, first: bool, fb: u32, x: int): (calls: seq<CrtcCall>)
    ensures |calls| == if c.mode.Some? then 1 else 0
  {
    if c.mode.None? then []
    else if first then [SetCrtc(c.crtc, fb, x, c.id, c.mode.value)]
    else [PageFlip(c.crtc, fb)]
  }

  /** The first post only sets modes and later posts only flip, one call
      per connector with a mode, all to the posted frame buffer. */
  lemma {:induction false} PostCallsKinds(cs: seq<Connector>, first: bool, fb: u32)
    ensures forall k :: 0 <= k < |PostCalls(cs, first, fb)| ==>
      PostCalls(cs, first, fb)[k].SetCrtc? == first && PostCalls(cs, first, fb)[k].fb == fb
  {
    if cs != [] {
      PostCallsKinds(cs[..|cs| - 1], first, fb);
    }
  }

  /** The first post tiles the virtual display: the mode-sets start at
      x = 0, each starts where the previous mode ends, and the last ends at
      the display's width. */
  lemma {:induction false} SideBySide(cs: seq<Connector>, fb: u32)
    ensures forall k :: 0 <= k < |PostCalls(cs, true, fb)| ==> PostCalls(cs, true, fb)[k].SetCrtc?
    ensures var calls := PostCalls(cs, true, fb);
      calls == [] ==> SumWidth(cs) == 0
    ensures var calls := PostCalls(cs, true, fb);
      calls != [] ==> calls[0].x == 0 && calls[|calls| - 1].x + calls[|calls| - 1].mode.hdisplay == SumWidth(cs)
    ensures var calls := PostCalls(cs, true, fb);
      forall k :: 0 <= k < |calls| - 1 ==> calls[k + 1].x == calls[k].x + calls[k].mode.hdisplay
  {
    PostCallsKinds(cs, true, fb);
    if cs != [] {
      var init := cs[..|cs| - 1];
      SideBySide(init, fb);
      var c0 := PostCalls(init, true, fb);
      var calls := PostCalls(cs, true, fb);
      if cs[|cs| - 1].mode.Some? {
        assert calls == c0 + [calls[|calls| - 1]];
        assert calls[|calls| - 1].x == SumWidth(init);
      } else {
        assert ConnectorCall(cs[|cs| - 1], true, fb, SumWidth(init)) == [];
        assert calls == c0;
      }
    }
  }

  /** `last_err` after the connector loop: the last non-zero result among
      the connectors with a mode (the results of the others are unused). */
  function LastErr(cs: seq<Connector>, rs: seq<int>): (e: int)
    requires |rs| == |cs|
  {
    if cs == [] then 0
    else
      var n := |cs| - 1;
      if cs[n].mode.Some? && rs[n] != 0 then rs[n] else LastErr(cs[..n], rs[..n])
  }

  /** `last_err` stays 0 exactly when every mode-set or flip succeeded. */
  lemma {:induction false} LastErrZeroIff(cs: seq<Connector>, rs: seq<int>)
    requires |rs| == |cs|
    ensures LastErr(cs, rs) == 0 <==> forall k :: 0 <= k < |cs| && cs[k].mode.Some? ==> rs[k] == 0
  {
    if cs != [] {
      var n := |cs| - 1;
      LastErrZeroIff(cs[..n], rs[..n]);
      if !(cs[n].mode.Some? && rs[n] != 0) {
        assert forall k :: 0 <= k < n ==> cs[..n][k] == cs[k] && rs[..n][k] == rs[k];
      }
    }
  }

  /** Flips that were scheduled: the page flips the driver accepted. */
  function FlipCount(cs: seq<Connector>, rs: seq<int>): (n: nat)
    requires |rs| == |cs|
    ensures n <= CountModes(cs)
  {
    if cs == [] then 0
    else
      var n := |cs| - 1;
      FlipCount(cs[..n], rs[..n]) + (if cs[n].mode.Some? && rs[n] == 0 then 1 else 0)
  }

  /** The flip wait of `post_buffer` as the source writes it: a timeout or
      an error that is not `EAGAIN` ends the wait and stores `select`'s
      result (0 or -1) in `last_err`.  Result: the completed count and the
      error, or None when the outcomes run out first. */
  function WaitAsWritten(scheduled: int, completed: int, err: int, steps: seq<SelectResult>): (r: Option<(int, int)>)
    decreases |steps|
    ensures r.Some? ==> r.value.1 == err || r.value.1 == 0 || r.value.1 == -1
  {
    if scheduled <= completed then Some((completed, err))
    else if steps == [] then None
    else
      match steps[0]
      case Ready(e) => WaitAsWritten(scheduled, completed + e, err, steps[1..])
      case TimedOut(again) => if again then WaitAsWritten(scheduled, completed, err, steps[1..]) else Some((completed, 0))
      case Failed(again) => if again then WaitAsWritten(scheduled, completed, err, steps[1..]) else Some((completed, -1))
  }

  /** The flip wait with a timeout reported as an error: it stops once
      every scheduled flip has completed; a failed `select` records -1 and
      a timeout `-ETIMEDOUT`. */
  function Wait(scheduled: int, completed: int, err: int, steps: seq<SelectResult>): (r: Option<(int, int)>)
    decreases |steps|
    ensures r.Some? ==> r.value.0 >= completed && (r.value.1 == err || r.value.1 == -1 || r.value.1 == -ETIMEDOUT)
    ensures r.Some? && r.value.0 < scheduled ==> r.value.1 == -1 || r.value.1 == -ETIMEDOUT
  {
    if scheduled <= completed then Some((completed, err))
    else if steps == [] then None
    else
      match steps[0]
      case Ready(e) => Wait(scheduled, completed + e, err, steps[1..])
      case TimedOut(again) => if again then Wait(scheduled, completed, err, steps[1..]) else Some((completed, -ETIMEDOUT))
      case Failed(again) => if again then Wait(scheduled, completed, err, steps[1..]) else Some((completed, -1))
  }

  /** `post_buffer` as written: a refused page flip still counts as
      scheduled, no event ever completes it, the wait times out, and the
      timeout overwrites the error: the post reports success. */
  function PostResultAsWritten(cs: seq<Connector>, rs: seq<int>, first: bool, scheduled: int, completed: int,
                               steps: seq<SelectResult>): Option<int>
    requires |rs| == |cs|
  {
    match WaitAsWritten(scheduled + (if first then 0 else CountModes(cs)), completed, LastErr(cs, rs), steps)
    case None => None
    case Some(r) => Some(r.1)
  }

  lemma FailedFlipReportedAsSuccess()
    ensures var cs := [Connector(1, "1024x768", Some(Mode("1024x768", 1024, 768)), 3, 0)];
      PostResultAsWritten(cs, [-22], false, 0, 0, [TimedOut(false)]) == Some(0)
  {
    var cs := [Connector(1, "1024x768", Some(Mode("1024x768", 1024, 768)), 3, 0)];
    assert cs[..0] == [];
    assert LastErr(cs, [-22]) == -22;
    assert CountModes(cs) == 1;
  }

  /** With failed flips left uncounted and a timeout reported, a post
      that returns 0 had every mode-set or flip accepted and every
      scheduled flip completed. */
  lemma {:induction false} WaitKeepsFailure(scheduled: int, completed: int, err: int, steps: seq<SelectResult>)
    requires Wait(scheduled, completed, err, steps).Some?
    ensures Wait(scheduled, completed, err, steps).value.1 == 0 ==>
      err == 0 && Wait(scheduled, completed, err, steps).value.0 >= scheduled
  {
  }

  /** The Q16 source coordinates: `v << 16` on an `uint32_t`. */
  function Q16(v: u32): (r: u32)
    ensures r % 0x1_0000 == 0
    ensures v < 0x1_0000 ==> r == v * 0x1_0000
  {
    v * 0x1_0000 % 0x1_0000_0000
  }

  /** Bit `pipe` of a plane's `possible_crtcs` mask. */
  predicate HasBit(mask: bv32, pipe: int)
    requires 0 <= pipe < 32
  {
    mask & ((1 as bv32) << pipe) != 0
  }

  /** Ids of the planes held by some connector. */
  function HeldIds(o: seq<Option<OverlayPlane>>): set<u32>
  {
    set k | 0 <= k < |o| && o[k].Some? :: o[k].value.planeId
  }

  /** No plane is held by two connectors. */
  predicate PlanesApart(o: seq<Option<OverlayPlane>>)
  {
    forall i, j :: 0 <= i < j < |o| && o[i].Some? && o[j].Some? ==> o[i].value.planeId != o[j].value.planeId
  }

  /** Giving a free plane to a connector without one keeps planes apart and
      adds exactly that plane to the held ones. */
  lemma Hold(o: seq<Option<OverlayPlane>>, i: nat, p: OverlayPlane)
    requires i < |o| && o[i].None? && PlanesApart(o) && p.planeId !in HeldIds(o)
    ensures PlanesApart(o[i := Some(p)])
    ensures HeldIds(o[i := Some(p)]) == HeldIds(o) + {p.planeId}
  {
    var o' := o[i := Some(p)];
    forall a, b | 0 <= a < b < |o'| && o'[a].Some? && o'[b].Some?
      ensures o'[a].value.planeId != o'[b].value.planeId
    {
      if a == i {
        assert o[b].value.planeId in HeldIds(o);
      } else if b == i {
        assert o[a].value.planeId in HeldIds(o);
      }
    }
    forall id | id in HeldIds(o)
      ensures id in HeldIds(o')
    {
      var k :| 0 <= k < |o| && o[k].Some? && o[k].value.planeId == id;
      assert o'[k] == o[k];
    }
    assert o'[i].value.planeId in HeldIds(o');
  }

  /** The first plane that can feed this pipe and that no connector holds.
      As written, the source's `used_planes` is emptied for every
      connector, so its search is this one with nothing held. */
  function FindPlane(planes: seq<OverlayPlane>, pipe: int, held: set<u32>): (r: Option<OverlayPlane>)
    requires 0 <= pipe < 32
    ensures r.Some? ==> r.value in planes && HasBit(r.value.possibleCrtcs, pipe) && r.value.planeId !in held
    ensures r.None? ==> forall p :: p in planes && HasBit(p.possibleCrtcs, pipe) ==> p.planeId in held
  {
    if planes == [] then None
    else if HasBit(planes[0].possibleCrtcs, pipe) && planes[0].planeId !in held then Some(planes[0])
    else FindPlane(planes[1..], pipe, held)
  }

  /** The plane search of `post_vid_buffer` as written: a fresh empty
      `used_planes` per connector. */
  function PlaneForAsWritten(planes: seq<OverlayPlane>, pipe: int): Option<OverlayPlane>
    requires 0 <= pipe < 32
  {
    FindPlane(planes, pipe, {})
  }

  /** Two connectors on pipes 0 and 1, and two planes that can feed either:
      as written both connectors take the first plane, so the second
      `drmModeSetPlane` moves it away from the first CRTC. */
  lemma PlaneSharedAsWritten()
    ensures var planes := [OverlayPlane(31, 3), OverlayPlane(32, 3)];
      PlaneForAsWritten(planes, 0) == PlaneForAsWritten(planes, 1) == Some(planes[0])
  {
    var planes := [OverlayPlane(31, 3), OverlayPlane(32, 3)];
    assert HasBit(3, 0) && HasBit(3, 1);
  }

  /** The value `post_vid_buffer` returns: set by every connector with a
      mode, to -1 when it has no plane and to its `drmModeSetPlane` result
      otherwise. */
  function VidRet(cs: seq<Connector>, o: seq<Option<OverlayPlane>>, rs: seq<int>): (r: int)
    requires |o| == |cs| == |rs|
  {
    if cs == [] then 0
    else
      var n := |cs| - 1;
      if cs[n].mode.None? then VidRet(cs[..n], o[..n], rs[..n])
      else if o[n].None? then -1
      else rs[n]
  }

  /** Only the last connector with a mode decides what `post_vid_buffer`
      returns; without one it returns 0. */
  lemma {:induction false} VidRetLastDecides(cs: seq<Connector>, o: seq<Option<OverlayPlane>>, rs: seq<int>, k: nat)
    requires |o| == |cs| == |rs| && k <= |cs|
    requires forall j :: k <= j < |cs| ==> cs[j].mode.None?
    ensures k == 0 ==> VidRet(cs, o, rs) == 0
    ensures 0 < k && cs[k - 1].mode.Some? ==> VidRet(cs, o, rs) == (if o[k - 1].None? then -1 else rs[k - 1])
    decreases |cs|
  {
    if cs != [] && |cs| > k {
      var n := |cs| - 1;
      VidRetLastDecides(cs[..n], o[..n], rs[..n], k);
    }
  }

  /** The planes `post_vid_buffer` sets: every connector with a mode and a
      plane shows the source rectangle over its whole mode. */
  function VidCalls(cs: seq<Connector>, o: seq<Option<OverlayPlane>>, fb: u32, x: u32, y: u32, w: u32, h: u32): (calls: seq<PlaneCall>)
    requires |o| == |cs|
    ensures |calls| <= |cs|
  {
    if cs == [] then []
    else
      var n := |cs| - 1;
      var c := cs[n];
      VidCalls(cs[..n], o[..n], fb, x, y, w, h) +
        (if c.mode.None? || o[n].None? then []
         else [SetPlane(o[n].value.planeId, c.crtc, fb, c.mode.value.hdisplay, c.mode.value.vdisplay, Q16(x), Q16(y), Q16(w), Q16(h))])
  }

  /** What `post_vid_buffer` does to the slot of connector i: with a mode
      and no plane yet, it takes the first plane its pipe can use that no
      slot holds. */
  function Attach(o: seq<Option<OverlayPlane>>, c: Connector, planes: seq<OverlayPlane>, i: nat): (r: seq<Option<OverlayPlane>>)
    requires i < |o| && 0 <= c.pipe < 32
    ensures |r| == |o|
  {
    if c.mode.Some? && o[i].None? then o[i := FindPlane(planes, c.pipe, HeldIds(o))] else o
  }

  /** One slot's set-up keeps planes apart and held, touches only that
      slot, gives it a plane its pipe can use, and leaves it empty only
      when every such plane is held. */
  lemma AttachOne(o: seq<Option<OverlayPlane>>, c: Connector, planes: seq<OverlayPlane>, i: nat)
    requires i < |o| && 0 <= c.pipe < 32 && PlanesApart(o)
    ensures var r := Attach(o, c, planes, i);
      PlanesApart(r) && HeldIds(o) <= HeldIds(r) &&
      (forall k :: 0 <= k < |o| && k != i ==> r[k] == o[k]) &&
      ((c.mode.None? || o[i].Some?) ==> r[i] == o[i]) &&
      (o[i].None? && r[i].Some? ==> r[i].value in planes && HasBit(r[i].value.possibleCrtcs, c.pipe)) &&
      (c.mode.Some? && r[i].None? ==> forall p :: p in planes && HasBit(p.possibleCrtcs, c.pipe) ==> p.planeId in HeldIds(r))
  {
    if c.mode.Some? && o[i].None? {
      var f := FindPlane(planes, c.pipe, HeldIds(o));
      if f.Some? {
        Hold(o, i, f.value);
      } else {
        assert o[i := f] == o;
      }
    }
  }

  /** The overlay slots after `post_vid_buffer` has looked at the first n
      connectors. */
  function AttachAll(cs: seq<Connector>, o: seq<Option<OverlayPlane>>, planes: seq<OverlayPlane>, n: nat): (r: seq<Option<OverlayPlane>>)
    requires n <= |cs| <= |o|
    requires forall k :: 0 <= k < |cs| ==> 0 <= cs[k].pipe < 32
    ensures |r| == |o|
  {
    if n == 0 then o else Attach(AttachAll(cs, o, planes, n - 1), cs[n - 1], planes, n - 1)
  }

  /** The overlay set-up keeps every plane held by one connector at most,
      keeps the planes already held, and changes only the slots of
      connectors with a mode and without a plane. */
  lemma {:induction false} AttachAllApart(cs: seq<Connector>, o: seq<Option<OverlayPlane>>, planes: seq<OverlayPlane>, n: nat)
    requires n <= |cs| <= |o|
    requires forall k :: 0 <= k < |cs| ==> 0 <= cs[k].pipe < 32
    requires PlanesApart(o)
    ensures PlanesApart(AttachAll(cs, o, planes, n))
    ensures HeldIds(o) <= HeldIds(AttachAll(cs, o, planes, n))
    ensures forall k :: 0 <= k < |o| && (k >= n || cs[k].mode.None? || o[k].Some?) ==> AttachAll(cs, o, planes, n)[k] == o[k]
  {
    if n > 0 {
      AttachAllApart(cs, o, planes, n - 1);
      AttachOne(AttachAll(cs, o, planes, n - 1), cs[n - 1], planes, n - 1);
    }
  }

  /** A plane the set-up gives a connector can feed its pipe. */
  lemma {:induction false} AttachAllFits(cs: seq<Connector>, o: seq<Option<OverlayPlane>>, planes: seq<OverlayPlane>, n: nat)
    requires n <= |cs| <= |o|
    requires forall k :: 0 <= k < |cs| ==> 0 <= cs[k].pipe < 32
    requires PlanesApart(o)
    ensures forall k :: 0 <= k < n && o[k].None? && AttachAll(cs, o, planes, n)[k].Some? ==>
      AttachAll(cs, o, planes, n)[k].value in planes && HasBit(AttachAll(cs, o, planes, n)[k].value.possibleCrtcs, cs[k].pipe)
  {
    if n > 0 {
      AttachAllFits(cs, o, planes, n - 1);
      AttachAllApart(cs, o, planes, n - 1);
      AttachOne(AttachAll(cs, o, planes, n - 1), cs[n - 1], planes, n - 1);
    }
  }

  /** A connector with a mode that the set-up leaves without a plane finds
      every plane for its pipe held by another connector. */
  lemma {:induction false} AttachAllExhausted(cs: seq<Connector>, o: seq<Option<OverlayPlane>>, planes: seq<OverlayPlane>, n: nat)
    requires n <= |cs| <= |o|
    requires forall k :: 0 <= k < |cs| ==> 0 <= cs[k].pipe < 32
    requires PlanesApart(o)
    ensures forall k :: 0 <= k < n && cs[k].mode.Some? && AttachAll(cs, o, planes, n)[k].None? ==>
      forall p :: p in planes && HasBit(p.possibleCrtcs, cs[k].pipe) ==> p.planeId in HeldIds(AttachAll(cs, o, planes, n))
  {
    if n > 0 {
      AttachAllExhausted(cs, o, planes, n - 1);
      AttachAllApart(cs, o, planes, n - 1);
      AttachOne(AttachAll(cs, o, planes, n - 1), cs[n - 1], planes, n - 1);
    }
  }

  /** Connector i added to the first i, for `post_buffer`'s spec
      functions. */
  lemma PostStep(cs: seq<Connector>, rs: seq<int>, i: nat, first: bool, fb: u32)
    requires |cs| == |rs| && i < |cs|
    ensures PostCalls(cs[..i + 1], first, fb) == PostCalls(cs[..i], first, fb) + ConnectorCall(cs[i], first, fb, SumWidth(cs[..i]))
    ensures var c := cs[i];
      SumWidth(cs[..i + 1]) == SumWidth(cs[..i]) + (if c.mode.Some? then c.mode.value.hdisplay else 0)
    ensures var c := cs[i];
      LastErr(cs[..i + 1], rs[..i + 1]) == (if c.mode.Some? && rs[i] != 0 then rs[i] else LastErr(cs[..i], rs[..i]))
    ensures var c := cs[i];
      FlipCount(cs[..i + 1], rs[..i + 1]) == FlipCount(cs[..i], rs[..i]) + (if c.mode.Some? && rs[i] == 0 then 1 else 0)
  {
    assert cs[..i + 1][..i] == cs[..i];
    assert rs[..i + 1][..i] == rs[..i];
  }

  /** Connector i added to the first i, for `post_vid_buffer`'s spec
      functions. */
  lemma VidStep(cs: seq<Connector>, o: seq<Option<OverlayPlane>>, rs: seq<int>, i: nat, fb: u32, x: u32, y: u32, w: u32, h: u32)
    requires |cs| == |rs| && |cs| <= |o| && i < |cs|
    ensures var c := cs[i];
      VidRet(cs[..i + 1], o[..i + 1], rs[..i + 1]) ==
        (if c.mode.None? then VidRet(cs[..i], o[..i], rs[..i]) else if o[i].None? then -1 else rs[i])
    ensures var c := cs[i];
      VidCalls(cs[..i + 1], o[..i + 1], fb, x, y, w, h) == VidCalls(cs[..i], o[..i], fb, x, y, w, h) +
        (if c.mode.None? || o[i].None? then []
         else [SetPlane(o[i].value.planeId, c.crtc, fb, c.mode.value.hdisplay, c.mode.value.vdisplay, Q16(x), Q16(y), Q16(w), Q16(h))])
  {
    assert cs[..i + 1][..i] == cs[..i];
    assert o[..i + 1][..i] == o[..i];
    assert rs[..i + 1][..i] == rs[..i];
  }

  // ---------------------------------------------------------------------
  // The display

  /** `struct display_kms`: the connectors as looked up at open, one
      overlay slot per connector, the flip counters, the BO flags, the
      buffer on screen, the virtual display's size, and the planes the
      device offers (as `drmModeGetPlane` reports them). */
  class KmsDisplay {
    const connectors: seq<Connector>
    const ovr: array<Option<OverlayPlane>>
    var scheduledFlips: int
    var completedFlips: int
    const boFlags: bv32
    var current: Buffer?
    const width: u32
    const height: u32
    const planes: seq<OverlayPlane>

    ghost predicate Valid()
      reads this, ovr
    {
      ovr.Length == MAX_CONNECTORS && |connectors| <= MAX_CONNECTORS && PlanesApart(ovr[..])
    }

    constructor (connectors: seq<Connector>, boFlags: bv32, width: u32, height: u32, planes: seq<OverlayPlane>)
      requires |connectors| <= MAX_CONNECTORS
      ensures Valid() && fresh(ovr)
      ensures forall k :: 0 <= k < MAX_CONNECTORS ==> ovr[k].None?
      ensures this.connectors == connectors && this.boFlags == boFlags && this.planes == planes
      ensures this.width == width && this.height == height
      ensures scheduledFlips == 0 && completedFlips == 0 && current == null
    {
      this.connectors := connectors;
      this.boFlags := boFlags;
      this.width := width;
      this.height := height;
      this.planes := planes;
      ovr := new Option<OverlayPlane>[MAX_CONNECTORS](_ => None);
      scheduledFlips := 0;
      completedFlips := 0;
      current := null;
    }

    /** `get_buffers`: n full-screen buffers of format 0 (AR24). */
    method GetBuffers(n: u32, answers: seq<(seq<Option<Bo>>, Option<u32>)>) returns (bufs: Option<seq<Buffer>>)
      requires |answers| == n
      requires forall i :: 0 <= i < n ==> |answers[i].0| == 1
      requires forall i :: 0 <= i < n ==> answers[i].0[0].None? ==> answers[i].1.None?
      ensures bufs.Some? <==> forall i :: 0 <= i < n ==> answers[i].1.Some?
      ensures bufs.Some? ==> |bufs.value| == n && Distinct(bufs.value)
      ensures bufs.Some? ==> forall i :: 0 <= i < n ==>
        var b := bufs.value[i];
        b.fourcc == 0 && b.width == width && b.height == height && b.Nbo() == 1 && b.handle == answers[i].1.value
    {
      bufs := AllocBuffers(n, 0, width, height, KmsLayout(0, width, height), boFlags, CACHED, answers);
    }

    /** `get_vid_buffers`: n buffers of the given format and size; a format
      the backend does not know yields none. */
    method GetVidBuffers(n: u32, fourcc: u32, w: u32, h: u32, answers: seq<(seq<Option<Bo>>, Option<u32>)>)
      returns (bufs: Option<seq<Buffer>>)
      requires |answers| == n
      requires KmsLayout(fourcc, w, h).Some? ==> forall i :: 0 <= i < n ==> |answers[i].0| == |KmsLayout(fourcc, w, h).value|
      requires forall i :: 0 <= i < n ==> (exists k :: 0 <= k < |answers[i].0| && answers[i].0[k].None?) ==> answers[i].1.None?
      ensures n > 0 && KmsLayout(fourcc, w, h).None? ==> bufs.None?
      ensures KmsLayout(fourcc, w, h).Some? ==> (bufs.Some? <==> forall i :: 0 <= i < n ==> answers[i].1.Some?)
      ensures bufs.Some? ==> |bufs.value| == n && Distinct(bufs.value)
      ensures bufs.Some? ==> forall i :: 0 <= i < n ==>
        var b := bufs.value[i];
        b.fourcc == fourcc && b.width == w && b.height == h && b.Nbo() == |KmsLayout(fourcc, w, h).value| &&
        b.handle == answers[i].1.value
    {
      bufs := AllocBuffers(n, fourcc, w, h, KmsLayout(fourcc, w, h), boFlags, CACHED, answers);
    }

    /** `post_buffer`: on the first post a mode-set on every connector with
        a mode, side by side; afterwards a page flip on each; then wait
        until every accepted flip has completed.  `results[i]` answers the
        call for connector i, `steps` the successive `select` calls.  The
        result is the last failure of a call, -1 when `select` fails, or
        `-ETIMEDOUT` when it times out. */
    method PostBuffer(buf: Buffer, results: seq<int>, steps: seq<SelectResult>) returns (ret: int, calls: seq<CrtcCall>)
      requires |results| == |connectors|
      requires Wait(scheduledFlips + (if current == null then 0 else FlipCount(connectors, results)), completedFlips,
                    LastErr(connectors, results), steps).Some?
      modifies this
      ensures calls == PostCalls(connectors, old(current) == null, buf.handle)
      ensures scheduledFlips == old(scheduledFlips) + (if old(current) == null then 0 else FlipCount(connectors, results))
      ensures (completedFlips, ret) == Wait(scheduledFlips, old(completedFlips), LastErr(connectors, results), steps).value
      ensures current == buf
    {
      var first := current == null;
      var lastErr;
      calls, lastErr := PostToConnectors(buf, first, results);
      ret := WaitForFlips(lastErr, steps);
      current := buf;
    }

    /** The connector loop of `post_buffer`: a mode-set (first post) or a
        page flip (later posts) per connector with a mode; an accepted
        flip is scheduled, and a non-zero result is kept as the error. */
    method PostToConnectors(buf: Buffer, first: bool, results: seq<int>) returns (calls: seq<CrtcCall>, lastErr: int)
      requires |results| == |connectors|
      modifies this
      ensures calls == PostCalls(connectors, first, buf.handle)
      ensures lastErr == LastErr(connectors, results)
      ensures scheduledFlips == old(scheduledFlips) + (if first then 0 else FlipCount(connectors, results))
      ensures completedFlips == old(completedFlips) && current == old(current)
    {
      var cs := connectors;
      var fb := buf.handle;
      lastErr := 0;
      var x := 0;
      calls := [];
      var i := 0;
      while i < |cs|
        invariant 0 <= i <= |cs|
        invariant calls == PostCalls(cs[..i], first, fb)
        invariant first ==> x == SumWidth(cs[..i])
        invariant lastErr == LastErr(cs[..i], results[..i])
        invariant scheduledFlips == old(scheduledFlips) + (if first then 0 else FlipCount(cs[..i], results[..i]))
        invariant completedFlips == old(completedFlips) && current == old(current)
      {
        var c := cs[i];
        PostStep(cs, results, i, first, fb);
        if c.mode.Some? {
          var r := results[i];
          calls := calls + ConnectorCall(c, first, fb, x);
          if first {
            x := x + c.mode.value.hdisplay;
          } else if r == 0 {
            scheduledFlips := scheduledFlips + 1;
          }
          if r != 0 {
            lastErr := r;
          }
        }
        i := i + 1;
      }
      assert cs[..i] == cs && results[..i] == results;
    }

    /** The flip wait of `post_buffer`, given the error so far. */
    method WaitForFlips(err: int, steps: seq<SelectResult>) returns (ret: int)
      requires Wait(scheduledFlips, completedFlips, err, steps).Some?
      modifies this
      ensures scheduledFlips == old(scheduledFlips) && current == old(current)
      ensures (completedFlips, ret) == Wait(old(scheduledFlips), old(completedFlips), err, steps).value
    {
      ret := err;
      var k := 0;
      while scheduledFlips > completedFlips
        invariant 0 <= k <= |steps|
        invariant Wait(scheduledFlips, completedFlips, ret, steps[k..]) == Wait(scheduledFlips, old(completedFlips), err, steps)
        invariant scheduledFlips == old(scheduledFlips) && current == old(current)
        decreases |steps| - k
      {
        var s := steps[k];
        assert steps[k..][1..] == steps[k + 1..];
        k := k + 1;
        if s.Ready? {
          HandleEvents(s.events);
        } else if !s.eagain {
          ret := if s.Failed? then -1 else -ETIMEDOUT;
          break;
        }
      }
    }

    /** `drmHandleEvent` with n flip events pending: the handler runs once
        per event. */
    method HandleEvents(n: nat)
      modifies this
      ensures completedFlips == old(completedFlips) + n
      ensures scheduledFlips == old(scheduledFlips) && current == old(current)
    {
      var e := 0;
      while e < n
        invariant 0 <= e <= n
        invariant completedFlips == old(completedFlips) + e
        invariant scheduledFlips == old(scheduledFlips) && current == old(current)
      {
        PageFlipHandler();
        e := e + 1;
      }
    }

    /** `post_vid_buffer`: give every connector with a mode an overlay
        plane if it has none yet, and show the source rectangle
        (x, y, w, h) over the whole mode.  A plane already held by another
        connector is not taken again.  `results[i]` answers connector i's
        `drmModeSetPlane`. */
    method PostVidBuffer(buf: Buffer, x: u32, y: u32, w: u32, h: u32, results: seq<int>)
      returns (ret: int, calls: seq<PlaneCall>)
      requires Valid() && |results| == |connectors|
      requires forall i :: 0 <= i < |connectors| ==> 0 <= connectors[i].pipe < 32
      modifies ovr
      ensures Valid()
      ensures ovr[..] == AttachAll(connectors, old(ovr[..]), planes, |connectors|)
      ensures ret == VidRet(connectors, ovr[..|connectors|], results)
      ensures calls == VidCalls(connectors, ovr[..|connectors|], buf.handle, x, y, w, h)
    {
      ghost var o0 := ovr[..];
      var cs := connectors;
      var fb := buf.handle;
      ret := 0;
      calls := [];
      var i := 0;
      while i < |cs|
        invariant 0 <= i <= |cs|
        invariant ovr[..] == AttachAll(cs, o0, planes, i)
        invariant ret == VidRet(cs[..i], ovr[..i], results[..i])
        invariant calls == VidCalls(cs[..i], ovr[..i], fb, x, y, w, h)
      {
        var c := cs[i];
        ghost var before := ovr[..];
        AttachPlane(i);
        assert ovr[..] == AttachAll(cs, o0, planes, i + 1);
        assert ovr[..i] == before[..i];
        VidStep(cs, ovr[..], results, i, fb, x, y, w, h);
        assert ovr[..][..i + 1] == ovr[..i + 1] && ovr[..][..i] == ovr[..i];
        if c.mode.Some? {
          if ovr[i].None? {
            ret := -1;
          } else {
            calls := calls + [SetPlane(ovr[i].value.planeId, c.crtc, fb, c.mode.value.hdisplay, c.mode.value.vdisplay,
                                       Q16(x), Q16(y), Q16(w), Q16(h))];
            ret := results[i];
          }
        }
        i := i + 1;
      }
      assert cs[..i] == cs && results[..i] == results;
      AttachAllApart(connectors, o0, planes, |connectors|);
    }

    /** The overlay set-up of `post_vid_buffer` for connector i. */
    method AttachPlane(i: nat)
      requires i < ovr.Length && i < |connectors| && 0 <= connectors[i].pipe < 32
      modifies ovr
      ensures ovr[..] == Attach(old(ovr[..]), connectors[i], planes, i)
    {
      if connectors[i].mode.Some? && ovr[i].None? {
        var p := SearchPlane(planes, connectors[i].pipe, HeldIds(ovr[..]));
        ovr[i] := p;
      }
    }

    /** `page_flip_handler`: one more flip completed. */
    method PageFlipHandler()
      modifies this
      ensures completedFlips == old(completedFlips) + 1
      ensures scheduledFlips == old(scheduledFlips) && current == old(current)
    {
      completedFlips := completedFlips + 1;
    }
  }

  /** The plane loop of `post_vid_buffer`. */
  method SearchPlane(planes: seq<OverlayPlane>, pipe: int, held: set<u32>) returns (r: Option<OverlayPlane>)
    requires 0 <= pipe < 32
    ensures r == FindPlane(planes, pipe, held)
  {
    var j := 0;
    while j < |planes|
      invariant 0 <= j <= |planes|
      invariant FindPlane(planes, pipe, held) == FindPlane(planes[j..], pipe, held)
    {
      if HasBit(planes[j].possibleCrtcs, pipe) && planes[j].planeId !in held {
        return Some(planes[j]);
      }
      j := j + 1;
    }
    return None;
  }

  /** The option loop of `disp_kms_open` on the argument vector itself. */
  method ParseArgs(argv: array<Arg>) returns (p: KmsParse)
    modifies argv
    ensures p == ParseFrom(old(argv[..]), 1, KmsArgs(0, []))
    ensures p.Parsed? ==> argv[..] == p.argv
  {
    var i := 1;
    var st := KmsArgs(0, []);
    while i < argv.Length
      invariant 1 <= i
      invariant ParseFrom(argv[..], i, st) == ParseFrom(old(argv[..]), 1, KmsArgs(0, []))
      decreases argv.Length - i
    {
      if !IsKmsOption(argv[i]) {
        i := i + 1;
      } else if i + 1 >= argv.Length || argv[i + 1].None? {
        return MissingValue(argv[i].value);
      } else {
        var step := OptionStep(argv[i].value, argv[i + 1].value, st);
        if step.Stop? {
          return step.outcome;
        }
        ghost var a := argv[..];
        argv[i] := None;
        argv[i + 1] := None;
        assert argv[..] == a[i := None][i + 1 := None];
        st := step.st;
        i := i + 2;
      }
    }
    return Parsed(st, argv[..]);
  }

  /** `disp_kms_open`.  `device` is what the driver offers (its resources
      and planes), None when opening the device or reading them fails. */
  method Open(argv: array<Arg>, device: Option<(Resources, seq<OverlayPlane>)>) returns (d: KmsDisplay?)
    modifies argv
    ensures device.None? ==> d == null && argv[..] == old(argv[..])
    ensures device.Some? ==> (d != null <==> ParseFrom(old(argv[..]), 1, KmsArgs(0, [])).Parsed?)
    ensures d != null ==>
      var p := ParseFrom(old(argv[..]), 1, KmsArgs(0, []));
      fresh(d) && fresh(d.ovr) && d.Valid() && d.current == null && d.scheduledFlips == 0 && d.completedFlips == 0 &&
      argv[..] == p.argv && d.boFlags == p.args.flags && d.planes == device.value.1 &&
      |d.connectors| == |p.args.connectors| &&
      (forall k :: 0 <= k < |d.connectors| ==> d.connectors[k] == FoundMode(p.args.connectors[k], device.value.0)) &&
      d.width == SumWidth(d.connectors) && d.height == MaxHeight(d.connectors)
  {
    if device.None? {
      return null;
    }
    var (res, planes) := device.value;
    var p := ParseArgs(argv);
    if !p.Parsed? {
      return null;
    }
    ParseFromConnectors(old(argv[..]), 1, KmsArgs(0, []));
    var found, width, height := SetupConnectors(p.args.connectors, res);
    d := new KmsDisplay(found, p.args.flags, width, height, planes);
  }
}
