/** util/demux.c: the H.264 elementary-stream reader the decoder test
    feeds from.  libav itself is not part of this model: the container's
    streams and its packets in file order are inputs, and the
    `h264_mp4toannexb` bitstream filter is a function parameter. */
module Demux {
  import opened Common

  datatype MediaType = Video | Audio | OtherMedia

  datatype Codec = H264 | OtherCodec(id: nat)

  /** What the modelled code reads of an `AVStream` and its codec context:
      the codec's extradata is absent (NULL) or its bytes. */
  datatype Stream = Stream(kind: MediaType, codec: Codec, extradata: Option<seq<bv8>>, width: int, height: int)

  /** One packet of the file: the index of its stream and its bytes. */
  datatype Packet = Packet(streamIndex: nat, data: seq<bv8>)

  // ---------------------------------------------------------------------
  // find_stream

  /** The first video stream, if any. */
  function FirstVideo(ss: seq<Stream>): (r: Option<nat>)
    ensures r.Some? ==> r.value < |ss| && ss[r.value].kind == Video
    ensures r.Some? ==> forall j :: 0 <= j < r.value ==> ss[j].kind != Video
    ensures r.None? <==> forall j :: 0 <= j < |ss| ==> ss[j].kind != Video
  {
    if ss == [] then None
    else if ss[0].kind == Video then Some(0)
    else match FirstVideo(ss[1..])
      case None => None
      case Some(k) => Some(k + 1)
  }

  /** `find_stream`: the first video stream is chosen and every other
      stream, later video streams included, is set to be discarded
      (`discard[i]`, `AVDISCARD_ALL`); the chosen one is left as it was. */
  method FindStream(ss: seq<Stream>, discard: array<bool>) returns (st: Option<nat>)
    requires discard.Length == |ss|
    modifies discard
    ensures st == FirstVideo(ss)
    ensures forall i :: 0 <= i < |ss| ==> discard[i] == (if st == Some(i) then old(discard[i]) else true)
  {
    st := None;
    var i := 0;
    while i < |ss|
      invariant i <= |ss|
      invariant st.None? <==> forall j :: 0 <= j < i ==> ss[j].kind != Video
      invariant st.Some? ==> st == FirstVideo(ss) && st.value < i
      invariant forall j :: 0 <= j < i ==> discard[j] == (if st == Some(j) then old(discard[j]) else true)
      invariant forall j :: i <= j < |ss| ==> discard[j] == old(discard[j])
    {
      if ss[i].kind == Video && st.None? {
        st := Some(i);
      } else {
        discard[i] := true;
      }
      i := i + 1;
    }
  }

  // ---------------------------------------------------------------------
  // open_stream

  /** Extradata that starts with 1 is an `avcC` record (MP4 framing), which
      the filter turns into Annex B start codes. */
  predicate NeedsFilter(s: Stream)
  {
    s.extradata.Some? && |s.extradata.value| > 0 && s.extradata.value[0] == 1
  }

  /** `struct demux` for reading: the packets of the file, the chosen
      stream, whether a bitstream filter is in use, and how far reading
      has got. */
  class Demuxer {
    const packets: seq<Packet>
    const stream: nat
    const filtered: bool
    var pos: nat

    ghost predicate Valid()
      reads this
    {
      pos <= |packets|
    }

    constructor (packets: seq<Packet>, stream: nat, filtered: bool)
      ensures Valid() && this.packets == packets && this.stream == stream && this.filtered == filtered && pos == 0
    {
      this.packets := packets;
      this.stream := stream;
      this.filtered := filtered;
      pos := 0;
    }

    /** The first packet of the chosen stream at or after `from`. */
    function NextPacket(from: nat): (r: Option<nat>)
      requires from <= |packets|
      ensures r.Some? ==> from <= r.value < |packets| && packets[r.value].streamIndex == stream
      ensures r.Some? ==> forall j :: from <= j < r.value ==> packets[j].streamIndex != stream
      ensures r.None? <==> forall j :: from <= j < |packets| ==> packets[j].streamIndex != stream
      decreases |packets| - from
    {
      if from == |packets| then None
      else if packets[from].streamIndex == stream then Some(from)
      else NextPacket(from + 1)
    }

    /** `demux_read`: the next packet of the chosen stream, passed through
        the filter when one is in use (`bsf`, None for a filter error),
        copied into `input` up to `size` bytes.  The result is the number
        of bytes copied, or 0 at the end of the file or on a filter error. */
    method Read(input: array<bv8>, size: int, bsf: seq<bv8> -> Option<seq<bv8>>) returns (n: int)
      requires Valid() && 0 <= size <= input.Length
      modifies this, input
      ensures Valid()
      ensures var k := old(NextPacket(pos));
        (k.None? ==> n == 0 && pos == |packets| && input[..] == old(input[..])) &&
        (k.Some? ==> pos == k.value + 1)
      ensures var k := old(NextPacket(pos));
        k.Some? ==>
          var d := packets[k.value].data;
          if filtered && bsf(d).None? then n == 0 && input[..] == old(input[..])
          else
            var out := if filtered then bsf(d).value else d;
            n == Min(|out|, size) && input[..n] == out[..n] && input[n..] == old(input[n..])
    {
      ghost var k := NextPacket(pos);
      while pos < |packets|
        invariant Valid() && old(pos) <= pos
        invariant NextPacket(pos) == k
        invariant input[..] == old(input[..])
        decreases |packets| - pos
      {
        var p := packets[pos];
        pos := pos + 1;
        if p.streamIndex == stream {
          var out := p.data;
          if filtered {
            var r := bsf(p.data);
            if r.None? {
              return 0;
            }
            out := r.value;
          }
          n := Min(|out|, size);
          CopyBytes(input, out, n);
          return n;
        }
      }
      return 0;
    }
  }

  /** `memcpy(input, out, n)`. */
  method CopyBytes(input: array<bv8>, out: seq<bv8>, n: int)
    requires 0 <= n <= |out| && n <= input.Length
    modifies input
    ensures input[..n] == out[..n] && input[n..] == old(input[n..])
  {
    var j := 0;
    while j < n
      invariant 0 <= j <= n
      invariant input[..j] == out[..j] && input[n..] == old(input[n..])
    {
      input[j] := out[j];
      j := j + 1;
    }
  }

  /** How `open_stream` ends. */
  datatype OpenResult = Opened(stream: nat, filtered: bool, width: int, height: int) | NoVideo | Unsupported | FilterFailed

  /** `open_stream` as written after the file is opened: it reads the
      codec of the stream `find_stream` chose without checking that one
      was found; None stands for that read through NULL.  Otherwise the
      stream must be H.264, and a filter is set up, and must be set up
      (`filterOk`), exactly when the extradata is MP4-framed. */
  function OpenStreamAsWritten(ss: seq<Stream>, filterOk: bool): (r: Option<OpenResult>)
    ensures r.None? <==> FirstVideo(ss).None?
    ensures r.Some? ==> r.value != NoVideo
  {
    match FirstVideo(ss)
    case None => None
    case Some(i) =>
      var s := ss[i];
      if s.codec != H264 then Some(Unsupported)
      else if NeedsFilter(s) && !filterOk then Some(FilterFailed)
      else Some(Opened(i, NeedsFilter(s), s.width, s.height))
  }

  /** A file with only an audio stream makes it read through NULL. */
  lemma AudioOnlyReadsNullAsWritten()
    ensures OpenStreamAsWritten([Stream(Audio, OtherCodec(0), None, 0, 0)], true).None?
  {
    var ss := [Stream(Audio, OtherCodec(0), None, 0, 0)];
    assert ss[0].kind != Video;
  }

  /** `open_stream` after the file is opened, with the missing check
      added: no video stream gives `NoVideo`.  The first video stream must
      be H.264; a filter is set up
      exactly when the extradata is MP4-framed, and its set-up
      (`filterOk`) must succeed. */
  method OpenStream(ss: seq<Stream>, discard: array<bool>, filterOk: bool) returns (r: OpenResult)
    requires discard.Length == |ss|
    modifies discard
    ensures FirstVideo(ss).None? <==> r.NoVideo?
    ensures FirstVideo(ss).Some? ==>
      var s := ss[FirstVideo(ss).value];
      (s.codec != H264 ==> r.Unsupported?) &&
      (s.codec == H264 && NeedsFilter(s) && !filterOk ==> r.FilterFailed?) &&
      (s.codec == H264 && (NeedsFilter(s) ==> filterOk) ==>
        r == Opened(FirstVideo(ss).value, NeedsFilter(s), s.width, s.height))
    ensures FirstVideo(ss).Some? ==> OpenStreamAsWritten(ss, filterOk) == Some(r)
    ensures forall i :: 0 <= i < |ss| && Some(i) != FirstVideo(ss) ==> discard[i]
  {
    var st := FindStream(ss, discard);
    if st.None? {
      return NoVideo;
    }
    var s := ss[st.value];
    if s.codec != H264 {
      return Unsupported;
    }
    var filtered := false;
    if s.extradata.Some? && |s.extradata.value| > 0 && s.extradata.value[0] == 1 {
      if !filterOk {
        return FilterFailed;
      }
      filtered := true;
    }
    return Opened(st.value, filtered, s.width, s.height);
  }
}
