/** The audio handle: device configuration, channel map and the byte counts scaled by it. */
module Audio {
  import opened Bytes
  import opened Frames
  import opened Protocol
  import opened ChannelMap

  datatype Direction = AudioIn | AudioOut

  /** The device behind the backend: the configuration of its last successful open. */
  datatype Device = Closed | Opened(cfg: StreamConfig)

  /** A backend read: a negative error code, or the bytes it delivered. */
  datatype DeviceRead = ReadError(code: int) | ReadBytes(bytes: seq<byte>)

  /** The fields of the handle that an operation can depend on, the device behind it, and every configuration that the
      backend's open was called with, in order. */
  datatype AudioState = AudioState(direction: Direction, stream: StreamConfig, channels: seq<byte>, buffer: seq<byte>,
                                   device: Device, opens: seq<StreamConfig>)

  /** `audio_init` */
  function InitialAudio(direction: Direction): AudioState {
    AudioState(direction, NO_STREAM, [], Zeros(DATA_MAX_SIZE), Closed, [])
  }

  /** `get_device_config` */
  function DeviceConfig(a: AudioState): StreamConfig {
    if a.direction == AudioOut && a.channels != [] then a.stream.(nbChannels := |a.channels|) else a.stream
  }

  /** `audio_get_stream_config` */
  function StreamOf(a: AudioState): StreamConfig {
    if a.direction == AudioIn && a.channels != [] then a.stream.(nbChannels := |a.channels|) else a.stream
  }

  /** `audio_set_stream_config`, given what the backend's close and open return. */
  function SetStream(a: AudioState, cfg: StreamConfig, closeRet: int, openRet: int): (AudioState, int) {
    if a.stream == cfg then (a, 0)
    else if closeRet < 0 then (a, closeRet)
    else
      var deviceConfig := DeviceConfig(a.(stream := cfg));
      var b := a.(opens := a.opens + [deviceConfig]);
      if openRet < 0 then (b.(stream := NO_STREAM, device := Closed), openRet)
      else (b.(stream := cfg, device := Opened(deviceConfig)), openRet)
  }

  // ----- the byte-count macros

  /** `AUDIO_MAP_OUTPUT_SIZE` */
  function OutputSize(a: AudioState, size: nat): nat
    requires a.channels != [] ==> a.stream.nbChannels > 0
  {
    if a.channels != [] then (size * |a.channels|) / a.stream.nbChannels else size
  }

  /** `AUDIO_MAP_REVERSE_INPUT_SIZE` of an unsigned size. */
  function ReverseInputSize(a: AudioState, size: nat): nat {
    if a.channels != [] then (size * a.stream.nbChannels) / |a.channels| else size
  }

  /** `AUDIO_MAP_REVERSE_INPUT_SIZE` of the `int` that a backend write returns: the product is a 32-bit unsigned one. */
  function ReverseInputResult(a: AudioState, ret: int): int {
    if a.channels != [] then ToInt32(((ret * a.stream.nbChannels) % TWO_32) / |a.channels|) else ret
  }

  // ----- reading and writing

  function Width(a: AudioState): nat {
    SampleSize(a.stream.bitFmt)
  }

  /** The remap of `size` source bytes stays inside the handle's buffer and the other buffer. */
  predicate CanMap(a: AudioState, dstLen: nat, srcLen: nat, size: nat) {
    a.channels != [] ==>
      && MapFits(dstLen, srcLen, size, a.channels, a.stream.nbChannels, Width(a))
      && OutputSize(a, size) <= dstLen
  }

  /** `audio_write`: the handle afterwards and the bytes passed to the backend. */
  function Write(a: AudioState, data: seq<byte>): (AudioState, seq<byte>)
    requires |a.buffer| == DATA_MAX_SIZE && CanMap(a, DATA_MAX_SIZE, |data|, |data|)
  {
    if a.channels == [] then (a, data)
    else
      var buffer := MapInto(a.buffer, data, |data|, a.channels, a.stream.nbChannels, Width(a));
      (a.(buffer := buffer), buffer[..OutputSize(a, |data|)])
  }

  /** `audio_read`: the handle and the caller's buffer afterwards, and the returned size. */
  function Read(a: AudioState, dst: seq<byte>, bytes: seq<byte>): (AudioState, seq<byte>, nat)
    requires |a.buffer| == DATA_MAX_SIZE && |bytes| <= |dst| && |bytes| <= DATA_MAX_SIZE
    requires CanMap(a, |dst|, DATA_MAX_SIZE, |bytes|)
  {
    if a.channels == [] then (a, bytes + dst[|bytes|..], |bytes|)
    else
      var buffer := bytes + a.buffer[|bytes|..];
      (a.(buffer := buffer), MapInto(dst, buffer, |bytes|, a.channels, a.stream.nbChannels, Width(a)),
       OutputSize(a, |bytes|))
  }

  // ----- progress of the column-by-column copy

  /** Slot `j` has been visited when the loops stand at column `chan`, row `frame`. */
  predicate Visited(j: nat, m: nat, chan: nat, frame: nat)
    requires m > 0
  {
    j % m < chan || (j % m == chan && j / m < frame)
  }

  predicate SlotDone(cur: seq<byte>, base: seq<byte>, vals: seq<Sample>, m: nat, w: nat, chan: nat, frame: nat, j: nat)
    requires m > 0 && j < |vals| && |cur| == |base|
  {
    && j * w + w <= |base|
    && (if Visited(j, m, chan, frame) then Slot(cur, j, w) == vals[j] else Slot(cur, j, w) == Slot(base, j, w))
  }

  ghost predicate Progress(cur: seq<byte>, base: seq<byte>, vals: seq<Sample>, m: nat, w: nat, chan: nat, frame: nat)
    requires m > 0
  {
    && |cur| == |base| && |vals| * w <= |base|
    && (forall j: nat :: j < |vals| ==> SlotDone(cur, base, vals, m, w, chan, frame, j))
    && cur[|vals| * w..] == base[|vals| * w..]
  }

  /** `s` with its `j`-th slot replaced by `v`. */
  function WriteSlot(s: seq<byte>, j: nat, v: seq<byte>): (r: seq<byte>)
    requires j * |v| + |v| <= |s|
    ensures |r| == |s|
  {
    s[..j * |v|] + v + s[j * |v| + |v|..]
  }

  lemma WriteSlotAt(s: seq<byte>, j: nat, v: seq<byte>, i: nat)
    requires j * |v| + |v| <= |s| && i * |v| + |v| <= |s|
    ensures Slot(WriteSlot(s, j, v), i, |v|) == if i == j then v else Slot(s, i, |v|)
  {
    if i < j {
      SlotFits(i, j, |v|);
      SliceBefore(s, j * |v|, v, i * |v|);
    } else if j < i {
      SlotFits(j, i, |v|);
      SliceAfter(s, j * |v|, v, i * |v|);
    }
  }

  lemma SliceBefore(s: seq<byte>, at: nat, v: seq<byte>, i: nat)
    requires i + |v| <= at && at + |v| <= |s|
    ensures (s[..at] + v + s[at + |v|..])[i..i + |v|] == s[i..i + |v|]
  {
  }

  lemma SliceAfter(s: seq<byte>, at: nat, v: seq<byte>, i: nat)
    requires at + |v| <= i && i + |v| <= |s|
    ensures (s[..at] + v + s[at + |v|..])[i..i + |v|] == s[i..i + |v|]
  {
  }

  lemma ProgressStart(base: seq<byte>, vals: seq<Sample>, m: nat, w: nat)
    requires m > 0 && |vals| * w <= |base|
    ensures Progress(base, base, vals, m, w, 0, 0)
  {
    hide Visited, Slot;
    forall j: nat | j < |vals|
      ensures SlotDone(base, base, vals, m, w, 0, 0, j)
    {
      SlotFits(j, |vals|, w);
      NothingVisited(j, m);
    }
  }

  lemma NothingVisited(j: nat, m: nat)
    requires m > 0
    ensures !Visited(j, m, 0, 0)
  {
    var q, r := j / m, j % m;
    assert q >= 0 && r >= 0;
  }

  lemma VisitedStep(j: nat, m: nat, chan: nat, frame: nat)
    requires chan < m
    ensures Visited(j, m, chan, frame + 1) <==> Visited(j, m, chan, frame) || j == frame * m + chan
    ensures !Visited(frame * m + chan, m, chan, frame)
  {
    RowCol(frame, chan, m);
  }

  lemma VisitedColumn(j: nat, m: nat, chan: nat, frame: nat, frames: nat)
    requires m > 0 && j < frames * m
    ensures frame == frames || j % m != chan ==> (Visited(j, m, chan, frame) <==> Visited(j, m, chan + 1, 0))
  {
    RowBelow(j, m, frames);
  }

  /** Copying one sample moves the copy one row down; no other slot is touched. */
  lemma {:induction false} ProgressStep(cur: seq<byte>, base: seq<byte>, vals: seq<Sample>, m: nat, w: nat, chan: nat,
                                        frame: nat, at: nat)
    requires m > 0 && chan < m && at == frame * m + chan && at < |vals| && |vals[at]| == w
    requires Progress(cur, base, vals, m, w, chan, frame)
    ensures at * w + w <= |cur|
    ensures Progress(WriteSlot(cur, at, vals[at]), base, vals, m, w, chan, frame + 1)
  {
    SlotFits(at, |vals|, w);
    var next, below := WriteSlot(cur, at, vals[at]), frame + 1;
    forall j: nat | j < |vals|
      ensures SlotDone(next, base, vals, m, w, chan, below, j)
    {
      assert SlotDone(cur, base, vals, m, w, chan, frame, j);
      VisitedStep(j, m, chan, frame);
      WriteSlotAt(cur, at, vals[at], j);
    }
    WriteSlotTail(cur, base, at, vals[at], |vals| * w);
  }

  lemma WriteSlotTail(cur: seq<byte>, base: seq<byte>, at: nat, v: seq<byte>, end: nat)
    requires at * |v| + |v| <= end <= |cur| == |base| && cur[end..] == base[end..]
    ensures WriteSlot(cur, at, v)[end..] == base[end..]
  {
    assert WriteSlot(cur, at, v)[end..] == cur[end..];
  }

  /** Slot `j` keeps what clearing left in the buffer. */
  predicate Kept(base: seq<byte>, vals: seq<Sample>, w: nat, j: nat)
    requires j < |vals|
  {
    j * w + w <= |base| && vals[j] == Slot(base, j, w)
  }

  /** A finished column, or one that no source channel feeds, hands over to the next column. */
  lemma {:induction false} ProgressColumn(cur: seq<byte>, base: seq<byte>, vals: seq<Sample>, m: nat, w: nat,
                                          chan: nat, frame: nat, frames: nat)
    requires m > 0 && |vals| == frames * m
    requires Progress(cur, base, vals, m, w, chan, frame)
    requires frame == frames || forall j: nat :: j < |vals| && j % m == chan ==> Kept(base, vals, w, j)
    ensures Progress(cur, base, vals, m, w, chan + 1, 0)
  {
    var right := chan + 1;
    forall j: nat | j < |vals|
      ensures SlotDone(cur, base, vals, m, w, right, 0, j)
    {
      assert SlotDone(cur, base, vals, m, w, chan, frame, j);
      assert frame != frames && j % m == chan ==> Kept(base, vals, w, j);
      VisitedColumn(j, m, chan, frame, frames);
    }
  }

  lemma ProgressEnd(cur: seq<byte>, base: seq<byte>, vals: seq<Sample>, m: nat, w: nat)
    requires m > 0 && Progress(cur, base, vals, m, w, m, 0)
    ensures forall j: nat :: j < |vals| ==> j * w + w <= |cur| && Slot(cur, j, w) == vals[j]
  {
    forall j: nat | j < |vals| ensures j * w + w <= |cur| && Slot(cur, j, w) == vals[j] {
      assert SlotDone(cur, base, vals, m, w, m, 0, j);
    }
  }

  /** Where the C loops read: `frame * stream_frame_size + channel * sample_size`. */
  lemma CopyOffset(frame: nat, n: nat, chan: nat, w: nat)
    ensures frame * (w * n) + chan * w == (frame * n + chan) * w
  {
    Assoc(frame, n, w);
    assert (frame * n + chan) * w == (frame * n) * w + chan * w;
  }

  /** Column `chan`: the values of its slots, for both kinds of map entry. */
  lemma ColumnValue(dst: seq<byte>, src: seq<byte>, size: nat, channels: seq<byte>, n: nat, w: nat, frame: nat,
                    chan: nat, at: nat, from: nat)
    requires MapFits(|dst|, |src|, size, channels, n, w)
    requires chan < |channels| && frame < FrameCount(size, n, w) && channels[chan] as nat < n
    requires at == frame * |channels| + chan && from == frame * n + channels[chan] as nat
    ensures from * w + w <= size
    ensures at < |MappedSlots(dst, src, size, channels, n, w)|
    ensures MappedSlots(dst, src, size, channels, n, w)[at] == Slot(src, from, w)
  {
    MappedLive(dst, src, size, channels, n, w, frame, chan, at, from);
  }

  /** The copy for row `frame` of a column goes to slot `frame * m + chan` and reads its value. */
  predicate RowReady(dstLen: nat, src: seq<byte>, vals: seq<Sample>, w: nat, m: nat,
                     streamFrame: nat, mapFrame: nat, channel: nat, chan: nat, frame: nat) {
    var j, target, origin := frame * m + chan, frame * mapFrame + chan * w, frame * streamFrame + channel * w;
    && j < |vals| && |vals[j]| == w
    && target == j * w && target + w <= dstLen
    && origin + w <= |src| && vals[j] == src[origin..origin + w]
  }

  ghost predicate RowsReady(dstLen: nat, src: seq<byte>, vals: seq<Sample>, w: nat, m: nat,
                            streamFrame: nat, mapFrame: nat, channel: nat, chan: nat, rows: nat) {
    forall frame: nat :: frame < rows ==> RowReady(dstLen, src, vals, w, m, streamFrame, mapFrame, channel, chan, frame)
  }

  lemma RowIsReady(dst: seq<byte>, src: seq<byte>, size: nat, channels: seq<byte>, n: nat, w: nat, chan: nat,
                   frame: nat, vals: seq<Sample>, streamFrame: nat, mapFrame: nat, m: nat, channel: nat, len: nat)
    requires MapFits(|dst|, |src|, size, channels, n, w)
    requires chan < |channels| && frame < FrameCount(size, n, w) && channels[chan] as nat < n
    requires vals == MappedSlots(dst, src, size, channels, n, w)
    requires streamFrame == w * n && mapFrame == w * |channels|
    requires m == |channels| && channel == channels[chan] as nat && len == |dst|
    ensures RowReady(len, src, vals, w, m, streamFrame, mapFrame, channel, chan, frame)
  {
    hide MappedSlots, MappedSize, FrameCount;
    var at, from := frame * m + chan, frame * n + channel;
    ColumnValue(dst, src, size, channels, n, w, frame, chan, at, from);
    MappedSlotsFit(dst, src, size, channels, n, w);
    CopyOffset(frame, m, chan, w);
    CopyOffset(frame, n, channel, w);
    SlotFits(at, |vals|, w);
  }

  lemma MappedSlotsFit(dst: seq<byte>, src: seq<byte>, size: nat, channels: seq<byte>, n: nat, w: nat)
    requires MapFits(|dst|, |src|, size, channels, n, w)
    ensures size <= |src| && |MappedSlots(dst, src, size, channels, n, w)| * w <= |dst|
  {
  }

  lemma ColumnReady(dst: seq<byte>, src: seq<byte>, size: nat, channels: seq<byte>, n: nat, w: nat, chan: nat,
                    vals: seq<Sample>, streamFrame: nat, mapFrame: nat)
    requires MapFits(|dst|, |src|, size, channels, n, w)
    requires chan < |channels| && channels[chan] as nat < n
    requires vals == MappedSlots(dst, src, size, channels, n, w)
    requires streamFrame == w * n && mapFrame == w * |channels|
    ensures RowsReady(|dst|, src, vals, w, |channels|, streamFrame, mapFrame, channels[chan] as nat, chan,
                      FrameCount(size, n, w))
  {
    var len, m, channel := |dst|, |channels|, channels[chan] as nat;
    forall frame: nat | frame < FrameCount(size, n, w)
      ensures RowReady(len, src, vals, w, m, streamFrame, mapFrame, channel, chan, frame)
    {
      RowIsReady(dst, src, size, channels, n, w, chan, frame, vals, streamFrame, mapFrame, m, channel, len);
    }
  }

  lemma SilentColumn(dst: seq<byte>, src: seq<byte>, size: nat, channels: seq<byte>, n: nat, w: nat, chan: nat)
    requires MapFits(|dst|, |src|, size, channels, n, w)
    requires chan < |channels| && channels[chan] as nat >= n
    ensures var vals := MappedSlots(dst, src, size, channels, n, w);
            forall j: nat :: j < |vals| && j % |channels| == chan ==> Kept(Cleared(dst, size), vals, w, j)
  {
    var vals := MappedSlots(dst, src, size, channels, n, w);
    forall j: nat | j < |vals| && j % |channels| == chan
      ensures Kept(Cleared(dst, size), vals, w, j)
    {
      MappedSilent(dst, src, size, channels, n, w, j);
    }
  }

  // ----- memory

  method MemSet0(dst: array<byte>, at: nat, size: nat)
    requires at + size <= dst.Length
    modifies dst
    ensures dst[..] == old(dst[..at]) + Cleared(old(dst[at..]), size)
  {
    var i := 0;
    while i < size
      invariant i <= size
      invariant forall k :: 0 <= k < dst.Length ==> dst[k] == if at <= k < at + i then 0 else old(dst[k])
    {
      dst[at + i] := 0;
      i := i + 1;
    }
  }

  method MemCopy(dst: array<byte>, at: nat, src: array<byte>, from: nat, size: nat)
    requires dst != src && at + size <= dst.Length && from + size <= src.Length
    modifies dst
    ensures dst[..] == old(dst[..at]) + src[from..from + size] + old(dst[at + size..])
  {
    var i := 0;
    while i < size
      invariant i <= size
      invariant forall k :: 0 <= k < dst.Length ==>
        dst[k] == if at <= k < at + i then src[from + (k - at)] else old(dst[k])
    {
      dst[at + i] := src[from + i];
      i := i + 1;
    }
  }

  /** The inner loop of `audio_map_channels`: one channel of the map, over all frames. */
  method CopyColumn(dst: array<byte>, to: nat, src: array<byte>, from: nat, size: nat, sampleSize: nat,
                    streamFrameSize: nat, mapFrameSize: nat, channel: nat, chan: nat,
                    ghost m: nat, ghost rows: nat, ghost start: seq<byte>, ghost base: seq<byte>,
                      ghost vals: seq<Sample>)
    returns (ghost cur: seq<byte>)
    requires dst != src && to <= dst.Length && from <= src.Length && chan < m
    requires streamFrameSize > 0 && rows == size / streamFrameSize
    requires dst[to..] == start && Progress(start, base, vals, m, sampleSize, chan, 0)
    requires RowsReady(dst.Length - to, src[from..], vals, sampleSize, m, streamFrameSize, mapFrameSize, channel,
                       chan, rows)
    modifies dst
    ensures dst[..to] == old(dst[..to]) && dst[to..] == cur
    ensures Progress(cur, base, vals, m, sampleSize, chan, rows)
  {
    ghost var head, srcs := dst[..to], src[from..];
    cur := start;
    var frame := 0;
    while frame != size / streamFrameSize
      invariant frame <= rows && src[from..] == srcs
      invariant dst[..to] == head && dst[to..] == cur
      invariant Progress(cur, base, vals, m, sampleSize, chan, frame)
      decreases rows - frame
    {
      assert RowReady(dst.Length - to, srcs, vals, sampleSize, m, streamFrameSize, mapFrameSize, channel, chan, frame);
      cur := CopySample(dst, to, frame * mapFrameSize + chan * sampleSize,
                        src, from, frame * streamFrameSize + channel * sampleSize, sampleSize,
                        cur, base, vals, m, chan, frame);
      frame := frame + 1;
    }
  }

  /** One `memcpy` of the inner loop. */
  method CopySample(dst: array<byte>, to: nat, target: nat, src: array<byte>, from: nat, origin: nat, size: nat,
                    ghost cur: seq<byte>, ghost base: seq<byte>, ghost vals: seq<Sample>,
                    ghost m: nat, ghost chan: nat, ghost frame: nat)
    returns (ghost next: seq<byte>)
    requires dst != src && to <= dst.Length && from <= src.Length
    requires target + size <= dst.Length - to && origin + size <= src.Length - from
    requires chan < m && frame * m + chan < |vals| && |vals[frame * m + chan]| == size
    requires target == (frame * m + chan) * size
    requires dst[to..] == cur && vals[frame * m + chan] == src[from..][origin..origin + size]
    requires Progress(cur, base, vals, m, size, chan, frame)
    modifies dst
    ensures dst[..to] == old(dst[..to]) && next == dst[to..]
    ensures Progress(next, base, vals, m, size, chan, frame + 1)
  {
    ghost var j, was := frame * m + chan, dst[..];
    assert src[from..][origin..origin + size] == src[from + origin..from + origin + size];
    MemCopy(dst, to + target, src, from + origin, size);
    CopiedSlot(dst[..], was, to, j, vals[j]);
    assert was[to..] == cur;
    ProgressStep(cur, base, vals, m, size, chan, frame, j);
    next := dst[to..];
  }

  lemma CopiedSlot(dst: seq<byte>, was: seq<byte>, at: nat, j: nat, v: seq<byte>)
    requires at <= |was| && j * |v| + |v| <= |was[at..]|
    requires dst == was[..at + j * |v|] + v + was[at + j * |v| + |v|..]
    ensures dst[..at] == was[..at] && dst[at..] == WriteSlot(was[at..], j, v)
  {
    assert was[at..][..j * |v|] == was[at..at + j * |v|];
    assert was[at..][j * |v| + |v|..] == was[at + j * |v| + |v|..];
  }

  // ----- the handle

  class AudioHandle {
    const direction: Direction
    var stream: StreamConfig
    var channels: seq<byte>
    const buffer: array<byte>
    var device: Device
    var opens: seq<StreamConfig>

    ghost predicate Valid()
      reads this
    {
      buffer.Length == DATA_MAX_SIZE && |channels| <= CHANNELS_MAX_NB
    }

    ghost function View(): AudioState
      reads this, buffer
    {
      AudioState(direction, stream, channels, buffer[..], device, opens)
    }

    constructor (direction: Direction)
      ensures Valid() && fresh(buffer) && View() == InitialAudio(direction)
    {
      this.direction, stream, channels, device, opens := direction, NO_STREAM, [], Closed, [];
      buffer := new byte[DATA_MAX_SIZE](_ => 0);
    }

    /** `audio_set_map_config` */
    method SetMapConfig(config: seq<byte>)
      requires Valid() && |config| <= CHANNELS_MAX_NB
      modifies this
      ensures Valid() && View() == old(View()).(channels := config)
    {
      channels := config;
    }

    /** `audio_set_stream_config` */
    method SetStreamConfig(config: StreamConfig, closeRet: int, openRet: int) returns (ret: int)
      requires Valid()
      modifies this
      ensures Valid() && (View(), ret) == SetStream(old(View()), config, closeRet, openRet)
    {
      ret := 0;
      if stream.nbChannels == config.nbChannels && stream.sampleRate == config.sampleRate
         && stream.bitFmt == config.bitFmt {
        return;
      }
      ret := closeRet;
      if ret < 0 {
        return;
      }
      stream, device := config, Closed;
      var deviceConfig := stream;
      if direction == AudioOut && |channels| != 0 {
        deviceConfig := deviceConfig.(nbChannels := |channels|);
      }
      opens := opens + [deviceConfig];
      ret := openRet;
      if ret < 0 {
        stream := NO_STREAM;
      } else {
        device := Opened(deviceConfig);
      }
    }

    /** `audio_get_stream_config` */
    method GetStreamConfig() returns (config: StreamConfig)
      ensures config == StreamOf(View())
    {
      config := stream;
      if direction == AudioIn && |channels| != 0 {
        config := config.(nbChannels := |channels|);
      }
    }

    /** `audio_map_channels`: `data[at..]` is the buffer of the packet side. */
    method MapChannels(data: array<byte>, at: nat, size: nat, reverse: bool)
      requires Valid() && data != buffer && at <= data.Length
      requires channels != [] ==>
        if reverse then MapFits(data.Length - at, DATA_MAX_SIZE, size, channels, stream.nbChannels,
                                SampleSize(stream.bitFmt))
        else MapFits(DATA_MAX_SIZE, data.Length - at, size, channels, stream.nbChannels, SampleSize(stream.bitFmt))
      modifies if reverse then data else buffer
      ensures data[..at] == old(data[..at])
      ensures channels == [] ==> data[..] == old(data[..]) && buffer[..] == old(buffer[..])
      ensures channels != [] && reverse ==>
        && buffer[..] == old(buffer[..])
        && data[at..] == MapInto(old(data[at..]), old(buffer[..]), size, channels, stream.nbChannels,
                                 SampleSize(stream.bitFmt))
      ensures channels != [] && !reverse ==>
        && data[..] == old(data[..])
        && buffer[..] == MapInto(old(buffer[..]), old(data[at..]), size, channels, stream.nbChannels,
                                 SampleSize(stream.bitFmt))
    {
      if |channels| == 0 {
        return;
      }
      if reverse {
        assert buffer[0..] == buffer[..];
        MapLoop(data, at, buffer, 0, size);
      } else {
        assert buffer[0..] == buffer[..];
        MapLoop(buffer, 0, data, at, size);
        assert buffer[0..] == buffer[..];
      }
    }

    /** The outer loop of `audio_map_channels`, once source and destination are chosen. */
    method MapLoop(dst: array<byte>, to: nat, src: array<byte>, from: nat, size: nat)
      requires dst != src && to <= dst.Length && from <= src.Length
      requires MapFits(dst.Length - to, src.Length - from, size, channels, stream.nbChannels, SampleSize(stream.bitFmt))
      modifies dst
      ensures dst[..to] == old(dst[..to])
      ensures dst[to..] == MapInto(old(dst[to..]), old(src[from..]), size, channels, stream.nbChannels,
                                   SampleSize(stream.bitFmt))
    {
      ghost var n, m, w := stream.nbChannels, |channels|, SampleSize(stream.bitFmt);
      ghost var was, srcs, head := dst[to..], src[from..], dst[..to];
      ghost var base, vals := Cleared(was, size), MappedSlots(was, srcs, size, channels, n, w);

      MemSet0(dst, to, size);
      ghost var cur := dst[to..];
      assert cur == base;
      ProgressStart(base, vals, m, w);

      var chan := 0;
      while chan != |channels|
        invariant chan <= m && src[from..] == srcs
        invariant dst[..to] == head && dst[to..] == cur
        invariant Progress(cur, base, vals, m, w, chan, 0)
        decreases m - chan
      {
        cur := MapColumn(dst, to, src, from, size, chan, was, srcs, cur, base, vals);
        chan := chan + 1;
      }
      ProgressEnd(cur, base, vals, m, w);
      MapIntoUnique(was, srcs, size, channels, n, w, cur);
    }

    /** One turn of the outer loop. */
    method MapColumn(dst: array<byte>, to: nat, src: array<byte>, from: nat, size: nat, chan: nat,
                     ghost was: seq<byte>, ghost srcs: seq<byte>, ghost start: seq<byte>, ghost base: seq<byte>,
                     ghost vals: seq<Sample>)
      returns (ghost cur: seq<byte>)
      requires dst != src && to <= dst.Length && from <= src.Length && chan < |channels|
      requires |was| == |start| && MapFits(|was|, |srcs|, size, channels, stream.nbChannels, SampleSize(stream.bitFmt))
      requires src[from..] == srcs && dst[to..] == start && base == Cleared(was, size)
      requires vals == MappedSlots(was, srcs, size, channels, stream.nbChannels, SampleSize(stream.bitFmt))
      requires Progress(start, base, vals, |channels|, SampleSize(stream.bitFmt), chan, 0)
      modifies dst
      ensures dst[..to] == old(dst[..to]) && dst[to..] == cur
      ensures Progress(cur, base, vals, |channels|, SampleSize(stream.bitFmt), chan + 1, 0)
    {
      hide Progress, RowsReady, MappedSlots, MappedSize, Cleared, SampleSize;
      ghost var n, m, w := stream.nbChannels, |channels|, SampleSize(stream.bitFmt);
      ghost var rows := FrameCount(size, n, w);
      if channels[chan] as nat < stream.nbChannels {
        var sampleSize := SampleSize(stream.bitFmt);
        var streamFrameSize, mapFrameSize := sampleSize * stream.nbChannels, sampleSize * |channels|;
        FrameCountIsQuotient(size, n, w);
        ColumnReady(was, srcs, size, channels, n, w, chan, vals, streamFrameSize, mapFrameSize);
        cur := CopyColumn(dst, to, src, from, size, sampleSize, streamFrameSize, mapFrameSize, channels[chan] as nat,
                          chan, m, rows, start, base, vals);
        ProgressColumn(cur, base, vals, m, w, chan, rows, rows);
      } else {
        cur := start;
        SilentColumn(was, srcs, size, channels, n, w, chan);
        ProgressColumn(cur, base, vals, m, w, chan, 0, rows);
      }
    }

    /** `audio_write`: what the backend is given, and the scaled result of its write. */
    method WriteAudio(data: array<byte>, at: nat, size: nat, writeRet: int) returns (ret: int, toDevice: seq<byte>)
      requires Valid() && data != buffer && at + size <= data.Length
      requires CanMap(View(), DATA_MAX_SIZE, size, size)
      modifies buffer
      ensures Valid() && data[..] == old(data[..])
      ensures (View(), toDevice) == Write(old(View()), old(data[at..at + size]))
      ensures ret == ReverseInputResult(View(), writeRet)
    {
      ghost var bytes := data[at..at + size];
      MapChannels(data, at, size, false);
      if |channels| != 0 {
        toDevice := buffer[..(size * |channels|) / stream.nbChannels];
        ret := ToInt32(((writeRet * stream.nbChannels) % TWO_32) / |channels|);
        MapIntoLocal(old(buffer[..]), old(data[at..]), size, channels, stream.nbChannels, SampleSize(stream.bitFmt));
        assert old(data[at..])[..size] == bytes;
      } else {
        toDevice := data[at..at + size];
        ret := writeRet;
      }
    }

    method ScaleBack(size: nat) returns (scaled: nat)
      ensures scaled == ReverseInputSize(View(), size)
    {
      scaled := if |channels| != 0 then (size * stream.nbChannels) / |channels| else size;
    }

    /** `audio_read` of up to `size` mapped bytes into `data[at..]`; `request` is what the backend is asked for,
        `read` what it returns. */
    method ReadAudio(data: array<byte>, at: nat, size: nat, read: DeviceRead) returns (ret: int, request: nat)
      requires Valid() && data != buffer && at <= data.Length
      requires read.ReadError? ==> read.code < 0
      requires read.ReadBytes? ==>
        && |read.bytes| <= ReverseInputSize(View(), size)
        && |read.bytes| <= data.Length - at && |read.bytes| <= DATA_MAX_SIZE
        && CanMap(View(), data.Length - at, DATA_MAX_SIZE, |read.bytes|)
      modifies buffer, data
      ensures Valid() && data[..at] == old(data[..at])
      ensures request == ReverseInputSize(old(View()), size)
      ensures read.ReadError? ==> ret == read.code && View() == old(View()) && data[..] == old(data[..])
      ensures read.ReadBytes? ==> (View(), data[at..], ret as int) == Read(old(View()), old(data[at..]), read.bytes)
    {
      hide SampleSize, MapInto, MappedSize, ReverseInputSize;
      request := ScaleBack(size);
      if read.ReadError? {
        ret := read.code;
        return;
      }
      if |channels| != 0 {
        FillFrom(buffer, 0, read.bytes);
        assert buffer[..] == read.bytes + old(buffer[..])[|read.bytes|..];
        MapChannels(data, at, |read.bytes|, true);
        ret := (|read.bytes| * |channels|) / stream.nbChannels;
      } else {
        FillFrom(data, at, read.bytes);
        MapChannels(data, at, |read.bytes|, true);
        assert data[at..] == read.bytes + old(data[at..])[|read.bytes|..];
        ret := |read.bytes|;
      }
    }
  }

  /** The backend filling a buffer. */
  method FillFrom(dst: array<byte>, at: nat, bytes: seq<byte>)
    requires at + |bytes| <= dst.Length
    modifies dst
    ensures dst[..] == old(dst[..at]) + bytes + old(dst[at + |bytes|..])
  {
    forall k | 0 <= k < |bytes| {
      dst[at + k] := bytes[k];
    }
  }
}
