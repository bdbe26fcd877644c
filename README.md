# omapdrmtest, modelled in Dafny

omapdrmtest is a set of test programs for the OMAP DRM driver. The shared
code in `util/` does four things:

- It opens a display back end. The back ends are bare KMS (`display-kms.c`),
  a GBM/EGL cube (`display-kmscube.c`) and X11 with DRI2 (`display-x11.c`).
- It allocates scan-out and video buffers as OMAP buffer objects (BOs).
- It keeps a pool of video buffers that are not locked by a consumer.
- It fills buffers with a test pattern.

`v4l2.c` drives a camera that captures straight into display buffers
through dma-buf file descriptors. `demux.c` reads H.264 packets from a
container file. Three programs use all this:

- `fliptest` page-flips a ring of buffers.
- `dmabuftest` shows camera frames without copying them.
- `viddec3test` decodes a file with the VIDDEC3 codec into the pool.

The model keeps the source's structure, one Dafny module per C file:

- **Pure computations** are functions: format tags, flags, pitches, the
  `sscanf` conversions, layouts and the lookup rules.
- **Loops** are methods. Each is proved equal to a reference function or
  predicate, or is given a closed-form specification.
- **Objects updated in place** are classes. These are the display's pool
  (`Util.Display`), the KMS display (`DisplayKms.KmsDisplay`), the cube
  display (`DisplayKmscube.KmsCube`), the V4L2 device (`V4l2.V4l2Dev`) and
  the demuxer (`Demux.Demuxer`).
- **Answers from the kernel, the codec, X, GBM and libav** are parameters.
  This covers every ioctl result, `select` outcome, reply and process
  result.

Files:

- `common.dfy`: shared types (`uint32_t`, BOs, `struct buffer`, argv slots).
- `scan.dfy`: the `sscanf` directives the option parsers use.
- `fourcc.dfy`: `FOURCC` / `FOURCC_STR`.
- `omap.dfy`: `alloc_bo` / `alloc_buffer` / `alloc_buffers`, which the two
  KMS back ends share.
- `util.dfy`: the buffer pool, `check_args` and `fill`.
- `kms.dfy`, `kmscube.dfy`, `x11.dfy`: the three display back ends.
- `v4l2.dfy`, `demux.dfy`: the camera and the demuxer.
- `fliptest.dfy`, `dmabuftest.dfy`, `viddec3test.dfy`: the three programs.

## Model

| member | source | states |
|---|---|---|
| Common.FirstFailure | fliptest.c:58-65 | index of the first nonzero result of a run of calls: every earlier one is 0 and the one there is not |
| Common.FirstFailureAt | dmabuftest.c:78-85 | the first failure is at k exactly when the results before k are 0 and the one at k (if any) is not |
| Common.Align2 | util/display-kms.c:97 | without overflow, `ALIGN2(x, n)` is the least multiple of 2^n that is at least x |
| Scan.ScanInt | util/display-kms.c:500 | `%d` succeeds exactly when a signed numeral follows optional blanks; the value fits a 32-bit `int` |
| Scan.ScanUint | util/v4l2.c:253-256 | `%u` succeeds like `%d`; the value is the numeral's value modulo 2^32 |
| Scan.ScanWord | util/display-kms.c:524-530 | `%Ns` fails exactly on blank input; otherwise it reads 1..N non-blank characters |
| Scan.ScanChar | util/display-kms.c:524-530 | a literal format character matches exactly when it is the next input character |
| Scan.ToInt32 | util/display-kmscube.c:191 | conversion to a 32-bit `int`: in range, congruent modulo 2^32, identity on values that fit |
| Scan.DecimalOfNatToString | util/v4l2.c:253-256 | the decimal value of a numeral inverts writing the numeral |
| Scan.ScanSignedOfNumeral | util/v4l2.c:253-256 | the number front end reads back any written natural and stops at the next non-digit |
| Scan.ScanUintOfNumeral | util/v4l2.c:253-256 | `%u` reads back any written 32-bit value |
| Scan.ScanIntOfNumeral | util/display-kms.c:524-530 | `%d` reads back any written value below 2^31 |
| Scan.ScanWordCut | util/display-kms.c:524-530 | `%Ns` on a non-blank word keeps its first N characters and leaves the rest of the input |
| Scan.ScanWordWhole | util/display-kms.c:524-530 | `%Ns` reads a non-blank word of at most N characters whole |
| Fourcc.Pack | util/util.h:117 | the four bytes placed side by side are the four bytes of the result |
| Fourcc.FourccOf | util/util.h:117 | byte k of `FOURCC(a,b,c,d)` is the k-th argument modulo 256 |
| Fourcc.PackOfBytes | util/util.h:117 | every 32-bit value is the tag of its own four bytes (byte extraction inverts packing) |
| Fourcc.FourccInjective | util/util.h:117 | two tags are equal if and only if their arguments agree modulo 256 |
| Fourcc.FourccStr | util/util.h:118 | byte k of `FOURCC_STR(s)` is character k of s modulo 256 |
| Fourcc.KnownFormatsPacked | util/util.h:117 | the AR24, UYVY, YUYV, NV12 and I420 constants are the tags of their names |
| Fourcc.Nv12FromString | viddec3test.c:121 | `FOURCC_STR("NV12")` is the NV12 tag |
| Omap.AllocFlags | util/display-kms.c:74-85 | auto tiling becomes the depth's mode, other tiling is kept, non-tiling bits are kept and the cache flag is added |
| Omap.Tiled32IsAuto | util/display-kms.c:74-83 | a 32-bit tiling request is read as auto: 8- and 16-bit planes get 8- and 16-bit tiling |
| Omap.Pitch | util/display-kms.c:93-98 | linear pitch is exactly width·bpp/8 bytes; tiled pitch is page aligned and within a page above it |
| Omap.LinearBytes | util/display-kms.c:90 | without overflow, the linear BO size is the plane's exact byte count |
| Omap.PlanBo | util/display-kms.c:66-101 | tiled request if and only if the final flags tile; the size and pitch of each kind; the cache flag always present |
| Omap.AllocBuffer | util/display-kms.c:103-172 | one request per plane as `PlanBo` plans it; a buffer exists if and only if the layout is known and registration succeeded; its BOs, pitches and handle are the driver's answers |
| Omap.AllocBuffers | util/display-kms.c:174-200 | buffers are returned if and only if every buffer could be made; they are n distinct fresh buffers carrying the answers |
| Util.Added | util/util.c:103 | `list_add` puts the buffer at the head (kernel convention) or at the tail, keeping the rest in order |
| Util.SeededHoldsAll | util/util.c:75-77 | seeding the pool puts exactly the allocated buffers in it |
| Util.SeededDistinct | util/util.c:75-77 | seeding distinct buffers gives a pool without duplicates |
| Util.SeededOrder | util/util.c:75-77 | the seeded list is the allocation order reversed (head insertion) or that order (tail insertion) |
| Util.FirstTakeAfterSeeding | util/util.c:86-89 | the first buffer taken is the first allocated (head insertion) or the last (tail insertion) |
| Util.PutThenDrain | util/util.c:100-104 | a returned buffer comes out after all others (FIFO, head insertion) or next (LIFO, tail insertion) |
| Util.Display.GetVidBuffers | util/util.c:63-81 | returns the back end's buffers; on success the pool holds exactly them as seeded; on failure the pool is unchanged |
| Util.Display.GetVidBuffer | util/util.c:83-98 | empty pool gives NULL; otherwise the last entry is unlinked and returned after a prep/fini on its first BO |
| Util.Display.PutVidBuffer | util/util.c:100-104 | the pool becomes the old pool with the buffer linked in, and stays free of duplicates |
| Util.CheckArgs | util/util.c:118-129 | returns 0 if and only if every argument after the program name was consumed, and -1 otherwise |
| Util.TruncMod | util/util.c:140-143 | C `div()` remainder: quotient·divisor + remainder is the dividend, with the dividend's sign and below the divisor in size |
| Util.TileDiagonal | util/util.c:132-146 | the test pattern depends only on seed + column + row |
| Util.TileOriginBlack | util/util.c:132-146 | with seed 0 the top-left 64-pixel run of a frame at least 64 pixels wide is black |
| Util.FillRgb4 | util/util.c:132-146 | every pixel of the frame gets the pattern colour and nothing outside the frame changes |
| Util.PatternFor | util/util.c:215-249 | the format switch of `fill`: RGB exactly for 0, 4:2:2 for YUYV, 4:2:0 interleaved exactly for NV12 and planar exactly for I420, invalid exactly for every other value |
| Util.Fill | util/util.c:207-253 | preps every BO in plane order, paints, then finishes every BO; an RGB buffer's frame holds the pattern; nothing else of the mapping changes |
| Util.Fences | util/util.c:212-213 | one prep (or fini) per BO, in plane order |
| DisplayKms.TileMode | util/display-kms.c:495-503 | "auto" means 0; any other value is accepted exactly when `%d` reads it |
| DisplayKms.TileFlags | util/display-kms.c:505-518 | only 0, 8, 16 and 32 are accepted; the tiling bits become that mode (all bits for 0); the other bits are kept |
| DisplayKms.ConnectorArg | util/display-kms.c:524-530 | a parsed `-s` value has no mode yet and a 1..N-character mode name |
| DisplayKms.ConnectorArgAsWritten | util/display-kms.c:524-530 | `%64s` as written: the name can be 64 characters long |
| DisplayKms.ConnectorArgBounded | util/display-kms.c:524-530 | with `%63s` the name and its NUL fit `mode_str[64]` |
| DisplayKms.ConnectorArgCut | util/display-kms.c:524-530 | `-s id:mode` gives that connector id with the CRTC unset (-1) and the mode name cut to the field width |
| DisplayKms.LongModeNameCut | util/display-kms.c:524-530 | a mode name of 64 or more characters: `%64s` keeps 64, `%63s` keeps the first 63, and both accept the option |
| DisplayKms.ConnectorArgRoundTrip | util/display-kms.c:524-530 | `-s id:mode` is read back as that connector id and mode name, with the CRTC unset (-1) |
| DisplayKms.ModeStrOverflow | util/display-kms.c:38 | as written, some accepted `-s` value needs 65 bytes in the 64-byte `mode_str` |
| DisplayKms.OptionStep | util/display-kms.c:495-535 | `-t` changes only the tiling bits; `-s` appends one connector, sets SCANOUT and is refused after ten connectors; the mode name is read with the corrected `%63s` |
| DisplayKms.ParseFromClearsOnly | util/display-kms.c:491-541 | parsing only clears argv slots, never one before the start, and leaves no `-t`/`-s` behind |
| DisplayKms.ParseFromConnectors | util/display-kms.c:519-535 | at most ten connectors are read, and any connector makes the buffers scan-out capable |
| DisplayKms.FindConnector | util/display-kms.c:366-399 | the first fetched connector with the requested id and at least one mode; none only if no fetched connector qualifies |
| DisplayKms.PickMode | util/display-kms.c:388-392 | a mode of the connector, named as requested when one is, otherwise the last mode |
| DisplayKms.FindEncoder | util/display-kms.c:407-422 | the first fetched encoder with the connector's encoder id; none only if there is no such encoder |
| DisplayKms.EncoderAfterLoop | util/display-kms.c:406-422 | as written, `c->encoder` ends live exactly when a matching encoder was fetched; otherwise it is NULL or the last encoder fetched, already freed |
| DisplayKms.EncoderReadAsWritten | util/display-kms.c:406-425 | with no CRTC given, line 425 reads a live encoder if and only if a CRTC is known; otherwise it reads a freed encoder or NULL |
| DisplayKms.FreedEncoderReadAsWritten | util/display-kms.c:406-425 | connector 5 naming encoder 7 with only encoder 8 fetched: the source reads the freed encoder 8; the model gives the connector no mode |
| DisplayKms.PipeFrom | util/display-kms.c:428-433 | the first index of the CRTC among the resources' CRTCs, or the old pipe when the CRTC is absent |
| DisplayKms.FoundModeMeaning | util/display-kms.c:359-434 | a mode is found if and only if some connector with the id has modes and a CRTC is known for it (given, or from an encoder that was fetched); the mode is one of its own, named as asked when possible; a given CRTC is kept; the pipe indexes that CRTC or is unchanged |
| DisplayKms.ConnectorFindMode | util/display-kms.c:359-434 | the connector loop, mode loop, encoder loop and pipe loop compute `FoundMode`, with no mode when no CRTC can be known |
| DisplayKms.PickModeLoop | util/display-kms.c:388-392 | the mode loop computes `PickMode` |
| DisplayKms.FindEncoderLoop | util/display-kms.c:407-422 | the encoder loop computes `FindEncoder` |
| DisplayKms.MaxHeightIsMax | util/display-kms.c:543-555 | the virtual display's height is at least every found mode's height and equals one of them (or 0) |
| DisplayKms.SetupConnectors | util/display-kms.c:543-555 | every connector is looked up, whatever the resources; the width is the sum of the mode widths and the height their maximum |
| DisplayKms.KmsLayout | util/display-kms.c:124-158 | which formats are refused; 1 to 3 valid planes, the first full size and the others half size |
| DisplayKms.KmsLayoutFitsFill | util/display-kms.c:124-158 | every format both allocation and `fill` know gets the plane count `fill` asserts |
| DisplayKms.PostCallsKinds | util/display-kms.c:236-258 | the first post only sets modes and later posts only flip, all to the posted framebuffer |
| DisplayKms.SideBySide | util/display-kms.c:243-253 | the mode-sets tile the display: x starts at 0, each starts where the previous one ends, and the last ends at the total width |
| DisplayKms.LastErrZeroIff | util/display-kms.c:260-265 | the kept error is 0 if and only if every call for a connector with a mode succeeded |
| DisplayKms.FlipCount | util/display-kms.c:254-258 | flips counted as scheduled are at most one per connector with a mode (the accepted ones) |
| DisplayKms.WaitAsWritten | util/display-kms.c:269-296 | as written, the wait's error is the prior error, or 0 on a timeout, or -1 on a `select` failure |
| DisplayKms.Wait | util/display-kms.c:269-296 | the wait never loses completions; stopping short of the scheduled flips always reports -1 or `-ETIMEDOUT` |
| DisplayKms.FailedFlipReportedAsSuccess | util/display-kms.c:254-296 | as written, one refused flip followed by a timeout is reported as success |
| DisplayKms.WaitKeepsFailure | util/display-kms.c:269-300 | with the correction, a post returning 0 had no failed call and every scheduled flip completed |
| DisplayKms.Q16 | util/display-kms.c:343-348 | `v << 16` in `uint32_t`: a multiple of 2^16, equal to v·2^16 for 16-bit v |
| DisplayKms.FindPlane | util/display-kms.c:322-333 | the plane found can feed the pipe and is not held; none only if every plane for the pipe is held |
| DisplayKms.PlaneSharedAsWritten | util/display-kms.c:315-333 | as written, connectors on pipes 0 and 1 are both given the same plane |
| DisplayKms.VidRetLastDecides | util/display-kms.c:335-355 | only the last connector with a mode decides the result (-1 without a plane, else its `SetPlane` result); 0 without such a connector |
| DisplayKms.AttachAllApart | util/display-kms.c:311-340 | the overlay set-up never gives one plane to two connectors, keeps held planes, and touches only mode-bearing slots without a plane |
| DisplayKms.AttachAllFits | util/display-kms.c:319-333 | a plane given to a connector can feed that connector's pipe |
| DisplayKms.AttachAllExhausted | util/display-kms.c:319-340 | a connector with a mode is left without a plane only when every plane for its pipe is held |
| DisplayKms.KmsDisplay.GetBuffers | util/display-kms.c:202-206 | n distinct full-screen single-plane AR24 buffers, if and only if every registration succeeded |
| DisplayKms.KmsDisplay.GetVidBuffers | util/display-kms.c:208-213 | an unknown format gives none; otherwise n distinct buffers of that format and size, one BO per layout plane |
| DisplayKms.KmsDisplay.PostBuffer | util/display-kms.c:228-301 | the calls are the first-post mode-sets or the later flips; only accepted flips are scheduled; the result and completed count are those of the corrected wait |
| DisplayKms.KmsDisplay.PostToConnectors | util/display-kms.c:236-266 | the connector loop makes `PostCalls`, keeps `LastErr` and schedules `FlipCount` flips on later posts |
| DisplayKms.KmsDisplay.WaitForFlips | util/display-kms.c:269-296 | the select loop computes `Wait` |
| DisplayKms.KmsDisplay.HandleEvents | util/display-kms.c:295 | handling n events completes n flips and changes nothing else |
| DisplayKms.KmsDisplay.PostVidBuffer | util/display-kms.c:303-356 | the overlay slots become `AttachAll`, with planes kept apart; the result is `VidRet`; one `SetPlane` per connector with a mode and a plane |
| DisplayKms.KmsDisplay.AttachPlane | util/display-kms.c:319-333 | one connector's slot is set up as `Attach` says |
| DisplayKms.KmsDisplay.PageFlipHandler | util/display-kms.c:215-226 | one more completed flip |
| DisplayKms.SearchPlane | util/display-kms.c:322-333 | the plane loop computes `FindPlane` |
| DisplayKms.ParseArgs | util/display-kms.c:491-541 | the option loop over argv computes `ParseFrom` and leaves argv as parsed |
| DisplayKms.Open | util/display-kms.c:445-565 | a display exists if and only if the device opens and the options parse (with `%63s`); it has the parsed flags, each connector looked up and the side-by-side size |
| DisplayKmscube.EnabledNeedsFlag | util/display-kmscube.c:1027-1054 | the display is enabled only if `--kmscube` is among the arguments |
| DisplayKmscube.EnabledByFlag | util/display-kmscube.c:1027-1054 | without valued options, parsing succeeds and enables the display if and only if `--kmscube` is present |
| DisplayKmscube.ParseCubeArgs | util/display-kmscube.c:1027-1050 | the option loop over argv computes `CubeParseFrom`; on every outcome, failures included, argv is what the loop leaves, with a valued option's slot cleared before its value is read |
| DisplayKmscube.Area | util/display-kmscube.c:191 | the area is a 32-bit `int`, equal to the product whenever the product fits |
| DisplayKmscube.FindConnected | util/display-kmscube.c:169-186 | the first connected connector, or none if no connector is connected |
| DisplayKmscube.FindBestMode | util/display-kmscube.c:188-201 | the first mode of greatest positive area, or none if no area is positive |
| DisplayKmscube.FindEncoderById | util/display-kmscube.c:203-215 | the first encoder with the connector's encoder id, or none if there is none |
| DisplayKmscube.BestUnique | util/display-kmscube.c:188-196 | at most one mode satisfies the best-mode rule |
| DisplayKmscube.ChosenUnique | util/display-kmscube.c:156-221 | the mode, CRTC and connector recorded are determined by the resources |
| DisplayKmscube.InitDrm | util/display-kmscube.c:156-221 | succeeds if and only if there is a connected connector with a positive-area mode and its encoder; records exactly that choice |
| DisplayKmscube.CubeLayout | util/display-kmscube.c:766-796 | which formats are refused; one valid plane of full width; RGB/YUV 4:2:2 as the KMS display; NV12/I420 one 8-bit plane of 1.5× height |
| DisplayKmscube.CubeLayoutSameSize | util/display-kmscube.c:783-792 | for even sizes the single NV12/I420 plane holds as many bits as the KMS display's planes |
| DisplayKmscube.CubeBosLinear | util/display-kmscube.c:712-730 | with the never-set BO flags every plane is a linear write-combined BO |
| DisplayKmscube.FbFor | util/display-kmscube.c:669-697 | a framebuffer exists if and only if cached or added; only that BO's entry is added to the cache; cached entries are kept |
| DisplayKmscube.FbForMemo | util/display-kmscube.c:671-676 | asking again for a BO's framebuffer returns the cached one and changes nothing |
| DisplayKmscube.FlipWaitMeaning | util/display-kmscube.c:978-991 | the wait returns 0 only after a flip event or an interrupt at the first `select`; otherwise it returns a failed or timed-out `select`'s code |
| DisplayKmscube.LateInterruptIgnored | util/display-kmscube.c:946-991 | a key at the first `select` ends the wait; after a DRM-only return, stdin is no longer watched |
| DisplayKmscube.KmsCube.GetBuffers | util/display-kmscube.c:856-861 | no full-screen buffers |
| DisplayKmscube.KmsCube.GetVidBuffers | util/display-kmscube.c:863-868 | an unknown format gives none; otherwise n distinct single-plane buffers, if and only if every EGL image was made |
| DisplayKmscube.KmsCube.PostBuffer | util/display-kmscube.c:870-875 | always -1 |
| DisplayKmscube.KmsCube.FbFromBo | util/display-kmscube.c:669-697 | the cache update of `FbFor`; `drmModeAddFB` (depth 24, 32 bpp, the BO's geometry) only for an uncached BO |
| DisplayKmscube.KmsCube.PostVidBuffer | util/display-kmscube.c:877-998 | a failed texture update gives -1 and changes nothing; otherwise the frame counter advances, the front BO's framebuffer is flipped to, and the result is -1 or the wait's |
| DisplayKmscube.KmsCube.WaitForFlip | util/display-kmscube.c:978-991 | the select loop computes `FlipWait` |
| DisplayKmscube.OpenPointerAsWritten | util/display-kmscube.c:1112-1117 | as written, the result is a display only if the mode-set returned 0 |
| DisplayKmscube.ModeSetFailureNotNull | util/display-kmscube.c:1112-1117 | as written, a failed mode-set returns a pointer that is neither NULL nor a display |
| DisplayKmscube.CubeOpen | util/display-kmscube.c:1014-1142 | a mode-set is made if and only if enabled and every set-up step succeeds; it uses the `init_drm` choice and the front framebuffer; a display exists if and only if the mode-set returned 0 |
| DisplayX11.GetBuffers | util/display-x11.c:52-57 | no scan-out buffers |
| DisplayX11.PostBuffer | util/display-x11.c:125-130 | always -1 |
| DisplayX11.FillAttachments | util/display-x11.c:65-75 | the list asks for the front buffer at 32 bpp, then buffers 1..n in the video format |
| DisplayX11.FillAttachmentsAsWritten | util/display-x11.c:65-75 | as written, on the 33-entry array, the list is complete if and only if n ≤ 15; from 16 buffers the loop writes at index 33, past the end |
| DisplayX11.LeadingNames | util/display-x11.c:112-117 | the count of names before the first 0 |
| DisplayX11.MakeBuffer | util/display-x11.c:93-120 | a fresh buffer with the video geometry and the reply's attachment, one BO and pitch per name before the first 0 |
| DisplayX11.GetVidBuffers | util/display-x11.c:59-123 | the request is the attachment list; buffers exist if and only if the reply has n buffers; each is built from its reply entry |
| DisplayX11.ToInt16 | util/display-x11.c:139-144 | conversion to `short`: in range, congruent modulo 2^16, identity on values that fit |
| DisplayX11.SwapBox | util/display-x11.c:139-144 | the box spans the source rectangle, exactly when it fits `short`, and modulo 2^16 in general |
| DisplayX11.PostVidBuffer | util/display-x11.c:132-152 | one swap of the buffer's attachment over the source rectangle; always 0 |
| DisplayX11.IsFourccOfTag | util/display-x11.c:170-174 | a tag passes `is_fourcc` if and only if its four characters are letters or digits |
| DisplayX11.KnownFormatsAreFourccs | util/display-x11.c:170-174 | the five known formats pass and 0 does not |
| V4l2.ScanSize | util/v4l2.c:253-256 | the `%ux%u` part consumes input when it succeeds |
| V4l2.CaptureArg | util/v4l2.c:253-256 | a parsed `-c` value has a 1..4-character non-blank format name |
| V4l2.NameTag | util/v4l2.c:260 | the tag's bytes are the name's characters, then zeroes; a 4-character name gives `FOURCC_STR` |
| V4l2.ScanSizeRoundTrip | util/v4l2.c:253-256 | `WxH` is read back as (W, H) |
| V4l2.ScanSizeOfParts | util/v4l2.c:253-256 | `%ux%u` succeeds when both numbers do and an x separates them |
| V4l2.CaptureArgRoundTrip | util/v4l2.c:253-256 | `WxH@name` is read back as (W, H, name) |
| V4l2.FormatRoundTrip | util/v4l2.c:250-260 | `-c WxH@cccc` sets exactly that size and the tag of cccc |
| V4l2.CaptureArgOfParts | util/v4l2.c:253-256 | `%ux%u@%4s` succeeds when the size does, an @ follows and the name is read whole |
| V4l2.OptionIsNoFormat | util/v4l2.c:250-262 | the option words `-c` and `-m` are never valid formats |
| V4l2.CaptureParseClearsOnly | util/v4l2.c:246-267 | parsing only clears argv slots, never one before the start, and leaves no `-c`/`-m` behind |
| V4l2.CaptureParseMcf | util/v4l2.c:261-262 | the media set-up is requested if and only if some `-m` is present |
| V4l2.CaptureParseFormat | util/v4l2.c:250-260 | the final format is the driver's or is read from the value of some `-c` |
| V4l2.ParseCaptureArgs | util/v4l2.c:246-267 | the option loop over argv computes `CaptureParseFrom` with `FormatOf`; on every outcome, failures included, argv is what the loop leaves, with the `-c` slot cleared before its value is read |
| V4l2.LastMatch | util/v4l2.c:399-408 | the last table entry with that fd, or none if none has it |
| V4l2.FirstMultiPlane | util/v4l2.c:340-341 | the first buffer without exactly one BO: every earlier one has one BO |
| V4l2.QueueDequeueRoundTrip | util/v4l2.c:332-354 | with distinct fds, queuing a buffer picks its own entry, and dequeuing that index returns the same buffer |
| V4l2.SharedFdQueuesLater | util/v4l2.c:399-408 | with a shared fd, the later entry is queued |
| V4l2.V4l2Dev.ReqBufs | util/v4l2.c:302-357 | a repeated, failed or altered request changes nothing and fails; otherwise n entries, filled up to the first failed query, whose result is returned; the process aborts if and only if a buffer without exactly one BO is reached before a query fails |
| V4l2.V4l2Dev.QBuf | util/v4l2.c:389-419 | the last entry with the buffer's fd is queued; -1 when there is none |
| V4l2.V4l2Dev.DQBuf | util/v4l2.c:421-443 | the buffer at the reported index after a successful ioctl, and the first buffer after a failed one, whose index stays 0 |
| V4l2.Open | util/v4l2.c:223-300 | a device exists if and only if the format can be read, the options parse to a complete format, and the media and format set-ups succeed |
| Demux.FirstVideo | util/demux.c:69-82 | the first video stream, or none if and only if there is no video stream |
| Demux.FindStream | util/demux.c:69-82 | chooses the first video stream; every other stream is marked discarded |
| Demux.Demuxer.NextPacket | util/demux.c:126-164 | the first packet of the chosen stream from a position, or none if and only if there is none |
| Demux.Demuxer.Read | util/demux.c:126-164 | skips other streams; at the end or on a filter error gives 0 and leaves the input alone; otherwise copies min(size, packet) bytes of the (filtered) packet |
| Demux.CopyBytes | util/demux.c:151 | the first n bytes become the packet's and the rest are unchanged |
| Demux.OpenStreamAsWritten | util/demux.c:84-106 | as written, `open_stream` reads through NULL if and only if the file has no video stream; otherwise no result is `NoVideo` |
| Demux.AudioOnlyReadsNullAsWritten | util/demux.c:84-95 | as written, a file with only audio makes `open_stream` read the NULL stream |
| Demux.OpenStream | util/demux.c:84-117 | no video stream gives `NoVideo`; with one, the result is what the code as written gives: a non-H.264 stream is unsupported and the filter is used if and only if the extradata is MP4-framed; the other streams are discarded |
| Viddec3Test.FirstArg | viddec3test.c:77-90 | the first unconsumed argument, or none if and only if all are consumed |
| Viddec3Test.FindInputFile | viddec3test.c:77-90 | only the first unconsumed argument is tried; it becomes the input file, and is cleared, if and only if it opens |
| Viddec3Test.OutputGeometry | viddec3test.c:106-115 | no geometry, the division by zero, if and only if the width or height is 0; otherwise sizes rounded up to macroblocks, padded width 128-aligned, buffer count 3..19 (the most frames up to 16 that fit 32768 macroblocks, plus 3) and input size the aligned area |
| Viddec3Test.FewerMacroblocks | viddec3test.c:110 | an aligned non-empty frame has between 1 and width·height macroblocks |
| Viddec3Test.FramesFit | viddec3test.c:110 | `MIN(16, 32768/mb)` is the largest frame count, up to 16, whose macroblocks fit 32768 |
| Viddec3Test.PostsOfEach | viddec3test.c:242-255 | each output is posted once, in order, at the region's corner with its size |
| Viddec3Test.ReturnAllMembers | viddec3test.c:257-260 | after the returns the pool holds exactly what it held plus the returned buffers |
| Viddec3Test.ReturnAllDistinct | viddec3test.c:257-260 | returning buffers the codec held, each once, keeps the pool free of duplicates |
| Viddec3Test.ReturnAllHasBos | viddec3test.c:257-260 | taking a buffer and returning held ones keeps a BO in every pooled buffer |
| Viddec3Test.OutBufsAsWritten | viddec3test.c:229-230 | as written, the chroma plane handed to the codec is NULL if and only if the buffer has fewer than two BOs |
| Viddec3Test.CubeChromaNullAsWritten | viddec3test.c:229-230 | a buffer of the cube display's one-plane NV12 layout gets a NULL chroma plane |
| Viddec3Test.OutBufs | viddec3test.c:229-230 | two-BO buffers are handed as written; a single BO carries both planes, the chroma after the luma rows |
| Viddec3Test.ChromaInsideBo | viddec3test.c:229-230 | in a single BO holding an NV12 frame, the chroma plane starts after pitch·height bytes and ends inside the BO |
| Viddec3Test.EndOfInput | viddec3test.c:216-226 | the first read that finds the end of the file |
| Viddec3Test.RunLength | viddec3test.c:205-265 | the loop returns 0 or 1; a normal end hands the codec one buffer per read up to the end of input |
| Viddec3Test.RunKeepsPoolDistinct | viddec3test.c:205-265 | with a codec that returns only held buffers, no buffer is ever linked twice |
| Viddec3Test.Finish | viddec3test.c:242-260 | posts the outputs in order, then links the freed buffers back |
| Viddec3Test.Iteration | viddec3test.c:205-265 | one pass of the loop: where it stops, its result, posts and handed planes are those `Run` gives from that iteration; otherwise the new pool keeps its BOs and the rest of the run follows from it |
| Viddec3Test.DecodeLoop | viddec3test.c:205-265 | the loop's result, final pool, posts and the planes handed to the codec are those of `Run`, for buffers of one BO or more |
| FlipTest.FlipsEach | fliptest.c:58-65 | iteration i fills buffer i mod 3 with seed 2i and posts that same buffer |
| FlipTest.FlipsRoundRobin | fliptest.c:58-65 | a posted buffer is filled again three iterations later |
| FlipTest.Program | fliptest.c:33-70 | no display gives 1; leftover arguments give 0; no buffers give 1; otherwise frames until the first failed post, whose result is returned, or 0 after 500 |
| DmabufTest.RoundBalance | dmabuftest.c:78-85 | one iteration queues one buffer and dequeues one |
| DmabufTest.RoundsBalance | dmabuftest.c:78-85 | n-1 iterations queue n-1 buffers and dequeue n-1 |
| DmabufTest.FullRunBalances | dmabuftest.c:76-87 | a complete run queues and dequeues exactly 500 buffers each |
| DmabufTest.Frame | dmabuftest.c:78-85 | one iteration queues, dequeues the buffer `v4l2_dqbuf` reads and shows it whole |
| DmabufTest.Stream | dmabuftest.c:76-87 | the capture loop stops at the first failed post with its result, or runs the full 500 frames and returns 0 |
| DmabufTest.Program | dmabuftest.c:34-93 | a display or camera that did not open gives 1; leftover arguments give 0; no buffers or a failed request gives 1; a buffer without exactly one BO aborts in `v4l2_reqbufs` if reached before a failed query; otherwise the capture loop's result |

## Left out

- **Drawing and GL:** the GBM, EGL and GL work of the cube display (`init_gbm`, `init_gl`, `draw`, the texture upload) is not modelled. Their success is an input.
- **Floating point:**
  - `fill420` and `fill422` use floating point. `Util.Fill` records only which pattern is drawn for YUV formats.
  - The `--distance`/`--fov` values of the cube display are floats. Only whether `%f` accepts them is modelled (the `scansFloat` parameter).
- **X11 and DRI2:** the connection to the X server, the `-w` option, window creation and the DRI2 protocol are inputs or not modelled. `DisplayX11.GetVidBuffers` takes the server's reply as a value.
- **Media controller and streaming:** `media_setup` and `VIDIOC_STREAMON`/`STREAMOFF` are reduced to their results or to events in the trace.
- **Results the programs ignore:** `dmabuftest.c` ignores the `v4l2_qbuf` results. `DmabufTest.Stream` ignores them too.
- **viddec3test set-up:** the Engine/VIDDEC3 set-up and the buffer descriptors of `viddec3test.c` (lines 125-204) are not modelled. Neither is the `outBufsInUseFlag` message. Of the `outBufs` descriptors, only the BOs and offsets of the two planes are modelled (`Viddec3Test.OutBufs`). The decode loop takes the codec's answers as `ProcessResult` values.
- **demux start-up:** `demux_init`'s file opening and the libav calls are not modelled. Streams and packets are inputs, and the bitstream filter is a function parameter.
- **Other calls not modelled:** `disp_get_fb` (dmabuftest.c:64, viddec3test.c:119), the `disp_close` paths, and the release of GBM front buffers (see `DisplayKmscube.KmsCube.PostVidBuffer` below).
- **Allocation failures:** `calloc`/`malloc` failures are not modelled. Every allocation is taken to succeed.
- **Failed get calls in init_drm:** in the cube display's `init_drm`, a failed `drmModeGetConnector`/`drmModeGetEncoder` (a NULL the source dereferences) is not modelled. Those objects are taken as fetched.
- **Undefined behaviour on malformed options:**
  - An option in the last argument makes the source read `argv[argc]`. The model reports this as `MissingValue`/`NoValue`.
  - An eleventh `-s` writes past `connector[10]`. The model reports `TooManyConnectors`.
  - The model does not say what the source would do next in either case.
- **Pool order:** the order in which `list_add` links entries depends on list helpers outside the modelled files. `Util.ListOrder` keeps both conventions. With the Linux kernel's `list_add`, which the code uses, the pool is FIFO (`Util.PutThenDrain`); with insertion at the tail it would be LIFO. The model proves both.
- **Macros defined elsewhere:** `ALIGN2` and `MIN` come from outside the modelled files. `Common.Align2` and `Common.Min` state the model's reading of them.
- **Unused declarations:** the `struct buffer`/`struct display` declarations in util/util.h:41-55 that no modelled file uses are not modelled.
- V4l2.NameTag: the bytes after the NUL of a format name shorter than three characters are uninitialised in the source. The model reads them as 0.
- DisplayKms.KmsDisplay.PostBuffer: computes the corrected post of Findings row 1, not the source's. Only accepted flips are scheduled, and a `select` timeout gives `-ETIMEDOUT`. The source counts every flip call and returns 0 after a timeout; `DisplayKms.PostResultAsWritten` and `DisplayKms.WaitAsWritten` stand for it. It also requires that the `select` outcomes given are enough to end the wait. A wait that never ends is not modelled.
- DisplayKms.KmsDisplay.PostToConnectors: schedules the `FlipCount` accepted flips (Findings row 1), where display-kms.c:257 schedules one per flip call. `DisplayKms.PostResultAsWritten` stands for the source.
- DisplayKms.FlipCount: counts only accepted flips (Findings row 1). The source's count, one per connector with a mode, is `DisplayKms.PostResultAsWritten`'s.
- DisplayKms.KmsDisplay.WaitForFlips: computes the corrected `DisplayKms.Wait` (Findings row 1). The source's loop, which leaves the error at 0 on a timeout, is `DisplayKms.WaitAsWritten`.
- DisplayKms.KmsDisplay.PostVidBuffer: keeps the planes of different connectors apart (Findings row 2). The source resets `used_planes` for each connector; `DisplayKms.FindPlane` with an empty held set stands for its search. A NULL from `drmModeGetPlane`, which display-kms.c:326 dereferences, is not modelled: every plane is taken as fetched.
- DisplayKms.KmsDisplay.AttachPlane: searches with the planes other connectors hold excluded (Findings row 2). The source searches with `DisplayKms.FindPlane(…, {})`.
- DisplayKms.OptionStep: reads `-s` with the corrected `%63s` (`DisplayKms.ConnectorArgBounded`, Findings row 3). A mode name of 64 or more characters is accepted with the name cut to its first 63 characters (`DisplayKms.LongModeNameCut`). The source's `%64s` stores 64 characters and the NUL, one byte past the end of `mode_str`. `DisplayKms.ConnectorArgAsWritten` stands for the source.
- DisplayKms.ParseArgs: parses with `DisplayKms.OptionStep`, so it has the same `%63s` correction.
- DisplayKms.Open: parses with the `%63s` correction. A connector with no CRTC given whose encoder is not among those fetched gets no mode (Findings row 7). There the source reads the CRTC of a freed or NULL encoder; `DisplayKms.EncoderAfterLoop` stands for it.
- V4l2.V4l2Dev.QBuf: requires a buffer with one BO. The source's `assert` aborts for any other; only the abort in `v4l2_reqbufs` is modelled.
- Viddec3Test.OutputGeometry: sizes for which the source's `int` arithmetic overflows (an aligned size within 2^7 of 2^31, or an aligned area of 2^31 or more) are excluded. Signed overflow is undefined in C.
- Viddec3Test.DecodeLoop: hands the codec the corrected planes of Findings row 8, where the source passes `bo[1]` even when it is NULL. It requires every pooled buffer to have a BO, as every display makes them, because `disp_get_vid_buffer` fences `bo[0]`.
- DisplayKmscube.KmsCube.PostVidBuffer: requires a framebuffer for the new front BO, because the source dereferences it without a NULL check. GBM surface buffers are not modelled, so the release at display-kmscube.c:994 is not either. It hands `gbm_surface_release_buffer` the local `bo` declared at line 940, which is never assigned, and the `bo = next_bo` after it (line 995) is dead. The front buffer locked at line 963 is therefore not the one released.
- Omap.AllocBuffer: a NULL BO is allowed only together with a failed registration. The KMS display passes handle 0 on, and the cube display dereferences the NULL.

## Findings

| source | as written | input that shows it | evidently intended | confidence | as-written member | corrected member |
|---|---|---|---|---|---|---|
| util/display-kms.c:254-296 | a refused page flip still counts as scheduled, and a `select` timeout stores 0 in `last_err`, so `post_buffer` returns success | one connector, flip result -22, `select` times out: result 0 | only accepted flips are waited for; a timeout is an error | not executed | DisplayKms.FailedFlipReportedAsSuccess | DisplayKms.WaitKeepsFailure |
| util/display-kms.c:315-333 | `used_planes` is reset for every connector, so two connectors can be given the same overlay plane | planes 31 and 32, both able to feed pipes 0 and 1; connectors on pipes 0 and 1 both get plane 31 | a plane held by one connector is not given to another | not executed | DisplayKms.PlaneSharedAsWritten | DisplayKms.AttachAllApart |
| util/display-kms.c:524-530 | `%64s` into `char mode_str[64]` writes 65 bytes for a 64-character mode name | `-s 1:` followed by 64 letters | `%63s` | not executed | DisplayKms.ModeStrOverflow | DisplayKms.ConnectorArgBounded |
| util/display-kmscube.c:1112-1117 | a failed `drmModeSetCrtc` returns the error code as the `struct display *` | every set-up step succeeds, the mode-set returns -22: the pointer is (void *)-22 | return NULL like every other failure | not executed | DisplayKmscube.ModeSetFailureNotNull | DisplayKmscube.CubeOpen |
| util/display-x11.c:65-75 | the attachment list has `MAX_BUFFERS + 1` = 33 entries, but the loop writes 2(n + 1) | n = 16 writes entry 33 | room for 2(n + 1) entries | not executed | DisplayX11.FillAttachmentsAsWritten | DisplayX11.GetVidBuffers |
| util/demux.c:84-95 | `open_stream` uses the stream `find_stream` chose without checking that one was found | a file whose only stream is audio | fail when there is no video stream | not executed | Demux.AudioOnlyReadsNullAsWritten | Demux.OpenStream |
| util/display-kms.c:406-425 | with no CRTC given and no fetched encoder matching the connector's, the encoder loop ends on an encoder it has freed, or on NULL, and line 425 reads its `crtc_id` | `-s 5:mode`; connector 5 names encoder 7; the only encoder fetched is 8 | treat the connector like one without a mode | not executed | DisplayKms.FreedEncoderReadAsWritten | DisplayKms.FoundModeMeaning |
| viddec3test.c:229-230 | every buffer's `bo[1]` is handed to `omap_bo_handle`, but the cube display makes each NV12 buffer as one BO, so `bo[1]` is NULL | `--kmscube` with any input file: the first buffer taken has one BO | hand the codec the chroma plane that follows the luma rows in the one BO | not executed | Viddec3Test.CubeChromaNullAsWritten | Viddec3Test.ChromaInsideBo |
