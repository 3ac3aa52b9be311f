/** What the scaled byte counts and the two directions of the channel map mean on frames. */
module AudioProofs {
  import opened Bytes
  import opened Frames
  import opened Protocol
  import opened ChannelMap
  import opened Audio

  /** Channels on the far side of the map: the device's for a writer, the packet's for a reader. */
  function OutChannels(a: AudioState): nat {
    MappedChannels(a.channels, a.stream.nbChannels)
  }

  /** The bytes of a sequence of frames. */
  function BytesOf(frs: seq<Frame>): seq<byte> {
    JoinSlots(JoinFrames(frs))
  }

  // ----- byte counts

  lemma ScaleExact(k: nat, m: nat, n: nat, w: nat)
    requires n > 0
    ensures (((k * n) * w) * m) / n == (k * m) * w
  {
    ScaleProduct(k, m, n, w);
    DivModUnique(((k * n) * w) * m, n, (k * m) * w, 0);
  }

  lemma ScaleProduct(k: nat, m: nat, n: nat, w: nat)
    ensures ((k * n) * w) * m == ((k * m) * w) * n
  {
  }

  /** On whole frames `OUTPUT_SIZE` and `REVERSE_INPUT_SIZE` are inverses of each other. */
  lemma ScalingCancels(a: AudioState, k: nat)
    requires a.stream.nbChannels > 0
    ensures OutputSize(a, (k * a.stream.nbChannels) * Width(a)) == (k * OutChannels(a)) * Width(a)
    ensures ReverseInputSize(a, (k * OutChannels(a)) * Width(a)) == (k * a.stream.nbChannels) * Width(a)
  {
    if a.channels != [] {
      ScaleExact(k, |a.channels|, a.stream.nbChannels, Width(a));
      ScaleExact(k, a.stream.nbChannels, |a.channels|, Width(a));
    }
  }

  /** The two configurations of a handle fit its byte counts. A reader gets `k` frames of its device and hands over `k`
      frames of its stream; a writer is given `k` frames of its stream and passes on `k` frames of its device. */
  lemma ConfigsMatchScaling(a: AudioState, k: nat)
    requires a.stream.nbChannels > 0
    ensures a.direction == AudioIn ==> OutputSize(a, k * FrameBytes(DeviceConfig(a))) == k * FrameBytes(StreamOf(a))
    ensures a.direction == AudioIn ==>
      ReverseInputSize(a, k * FrameBytes(StreamOf(a))) == k * FrameBytes(DeviceConfig(a))
    ensures a.direction == AudioOut ==> OutputSize(a, k * FrameBytes(StreamOf(a))) == k * FrameBytes(DeviceConfig(a))
  {
    ScalingCancels(a, k);
    Assoc(k, a.stream.nbChannels, Width(a));
    Assoc(k, OutChannels(a), Width(a));
  }

  /** For sizes that are not whole frames the two macros round down. */
  lemma ScalingFloors(a: AudioState, size: nat)
    requires a.stream.nbChannels > 0
    ensures OutputSize(a, size) * a.stream.nbChannels <= size * OutChannels(a)
            < (OutputSize(a, size) + 1) * a.stream.nbChannels
    ensures ReverseInputSize(a, size) * OutChannels(a) <= size * a.stream.nbChannels
            < (ReverseInputSize(a, size) + 1) * OutChannels(a)
  {
    var n, m := a.stream.nbChannels, |a.channels|;
    if m > 0 {
      FloorOf(size * m, n, (size * m) / n, (size * m) % n);
      FloorOf(size * n, m, (size * n) / m, (size * n) % m);
    } else {
      MulStep(size, n);
    }
  }

  lemma FloorOf(x: nat, d: nat, q: nat, r: nat)
    requires d > 0 && x == q * d + r && r < d
    ensures q * d <= x < (q + 1) * d
  {
    MulStep(q, d);
  }

  /** A backend write of `j` whole device frames is reported as `j` whole stream frames, without 32-bit wrap-around. */
  lemma WriteResultScales(a: AudioState, j: nat)
    requires 0 < a.stream.nbChannels <= CHANNELS_MAX_NB
    requires (j * OutChannels(a)) * Width(a) <= DATA_MAX_SIZE
    ensures ReverseInputResult(a, (j * OutChannels(a)) * Width(a)) == (j * a.stream.nbChannels) * Width(a)
  {
    var n, ret := a.stream.nbChannels, (j * OutChannels(a)) * Width(a);
    if a.channels != [] {
      SmallProduct(ret, n);
      ScaleExact(j, n, |a.channels|, Width(a));
      NoWrap(ret * n, |a.channels|);
    }
  }

  /** An error code of the backend comes back unchanged without a map; with a map it stays negative just when the map
      has one entry, because the unsigned product is divided by the number of entries. */
  lemma ErrorResultIff(a: AudioState, code: int)
    requires 0 < a.stream.nbChannels <= CHANNELS_MAX_NB && -0x80_0000 <= code < 0
    ensures a.channels == [] ==> ReverseInputResult(a, code) == code
    ensures ReverseInputResult(a, code) < 0 <==> |a.channels| <= 1
  {
    var n, m := a.stream.nbChannels, |a.channels|;
    if m > 0 {
      NegativeProduct(code, n);
      var u := (code * n) % TWO_32;
      assert u == code * n + TWO_32;
      if m == 1 {
        assert u / m == u;
      } else {
        HalfAtMost(u, m);
      }
    }
  }

  lemma NegativeProduct(code: int, n: nat)
    requires 0 < n <= CHANNELS_MAX_NB && -0x80_0000 <= code < 0
    ensures -0x8000_0000 <= code * n < 0
  {
    MulMono(code, -1, n);
    MulMono(0 - 0x80_0000, code, n);
  }

  lemma HalfAtMost(u: nat, m: nat)
    requires m >= 2 && u < TWO_32
    ensures u / m < 0x8000_0000
  {
    var q, r := u / m, u % m;
    MulMono(2, m, q);
    assert q * m + r == u;
  }

  lemma NoWrap(product: nat, m: nat)
    requires m > 0 && product < 0x8000_0000
    ensures ToInt32((product % TWO_32) / m) == product / m
  {
    QuotientAtMost(product, m);
  }

  lemma SmallProduct(x: nat, y: nat)
    requires x <= DATA_MAX_SIZE && y <= CHANNELS_MAX_NB
    ensures x * y < 0x8000_0000 && (x * y) % TWO_32 == x * y
  {
    MulMono(x, DATA_MAX_SIZE, y);
  }

  /** A mapped size that is whole frames counts exactly the complete frames that were read. */
  lemma WholeOutputCountsFrames(a: AudioState, size: nat, j: nat)
    requires a.stream.nbChannels > 0 && Width(a) > 0
    requires OutputSize(a, size) == (j * OutChannels(a)) * Width(a)
    ensures j == FrameCount(size, a.stream.nbChannels, Width(a))
  {
    var n, w := a.stream.nbChannels, Width(a);
    if a.channels != [] {
      FloorSqueeze(size, |a.channels|, n, w, j);
    }
    Squeezed(size, n, w, j);
  }

  lemma Squeezed(size: nat, n: nat, w: nat, j: nat)
    requires n > 0 && w > 0 && (j * n) * w <= size < ((j + 1) * n) * w
    ensures j == FrameCount(size, n, w)
  {
    Assoc(j, n, w);
    Assoc(j + 1, n, w);
    MulStep(j, n * w);
    DivModUnique(size, n * w, j, size - j * (n * w));
    FrameCountIsQuotient(size, n, w);
  }

  lemma FloorSqueeze(size: nat, m: nat, n: nat, w: nat, j: nat)
    requires m > 0 && n > 0 && w > 0 && (size * m) / n == (j * m) * w
    ensures (j * n) * w <= size < ((j + 1) * n) * w
  {
    var low, high := (j * n) * w, ((j + 1) * n) * w;
    ScaleProduct(j, m, n, w);
    ScaleProduct(j + 1, m, n, w);
    NextFrame(j, m, n, w);
    assert low * m <= size * m < low * m + n;
    BetweenMultiples(size, m, low, high);
  }

  lemma BetweenMultiples(size: nat, m: nat, low: nat, high: nat)
    requires low * m <= size * m < high * m
    ensures low <= size < high
  {
    if size < low {
      MulMono(size + 1, low, m);
    }
    if high <= size {
      MulMono(high, size, m);
    }
  }

  lemma NextFrame(j: nat, m: nat, n: nat, w: nat)
    requires m > 0 && w > 0
    ensures (((j + 1) * n) * w) * m >= ((j * n) * w) * m + n
  {
    var x := (j * n) * w;
    assert ((j + 1) * n) * w == x + n * w by {
      MulStep(j, n);
      assert (j * n + n) * w == (j * n) * w + n * w;
    }
    assert (x + n * w) * m == x * m + (n * w) * m;
    assert n * w >= n by { MulMono(1, w, n); }
    MulMono(1, m, n * w);
  }

  /** The mapped frames end within the mapped size. */
  lemma MappedSizeBelowOutput(a: AudioState, size: nat)
    requires a.channels != [] && a.stream.nbChannels > 0 && Width(a) > 0
    ensures MappedSize(size, a.channels, a.stream.nbChannels, Width(a)) <= OutputSize(a, size)
  {
    var n, w := a.stream.nbChannels, Width(a);
    var k := FrameCount(size, n, w);
    SourceRoom(size, n, w);
    MulMono((k * n) * w, size, |a.channels|);
    ScaleExact(k, |a.channels|, n, w);
    DivMono(((k * n) * w) * |a.channels|, size * |a.channels|, n);
  }

  lemma DivMono(x: nat, y: nat, d: nat)
    requires x <= y && d > 0
    ensures x / d <= y / d
  {
    if y / d < x / d {
      MulMono(y / d + 1, x / d, d);
    }
  }

  // ----- silence and frames

  /** Slots that no channel feeds are zero, if there is a map. */
  ghost predicate Silenced(a: AudioState, dst: seq<byte>) {
    a.channels != [] ==> Silent(dst, a.channels, a.stream.nbChannels, Width(a))
  }

  predicate Playable(a: AudioState) {
    |a.buffer| == DATA_MAX_SIZE && a.stream.nbChannels > 0 && Width(a) > 0
  }

  lemma NoMapFrames(frs: seq<Frame>, w: nat)
    ensures MapFrames(frs, [], w) == frs
  {
  }

  /** The bytes given to the device are the mapped frames of the payload just when the map was exact. */
  lemma WriteMeaning(a: AudioState, data: seq<byte>, k: nat)
    requires Playable(a) && CanMap(a, DATA_MAX_SIZE, |data|, |data|)
    requires WholeFrames(data, k, a.stream.nbChannels, Width(a))
    ensures var out := Write(a, data).1;
            && WholeFrames(out, k, OutChannels(a), Width(a))
            && (FramesOf(out, OutChannels(a), Width(a))
                == MapFrames(FramesOf(data, a.stream.nbChannels, Width(a)), a.channels, Width(a))
                <==> (a.channels != [] ==>
                        MapsExactly(a.buffer, data, |data|, a.channels, a.stream.nbChannels, Width(a))))
  {
    var n, w := a.stream.nbChannels, Width(a);
    ScalingCancels(a, k);
    WholeFramesCount(data, k, n, w);
    NoMapFrames(FramesOf(data, n, w), w);
    assert data[..|data|] == data;
  }

  /** Writing from a silent buffer: the device gets exactly the mapped frames, and the buffer stays silent. */
  lemma SilentWrite(a: AudioState, data: seq<byte>, k: nat)
    requires Playable(a) && CanMap(a, DATA_MAX_SIZE, |data|, |data|)
    requires WholeFrames(data, k, a.stream.nbChannels, Width(a)) && Silenced(a, a.buffer)
    ensures var (b, out) := Write(a, data);
            && Silenced(a, b.buffer) && b == a.(buffer := b.buffer) && |b.buffer| == DATA_MAX_SIZE
            && WholeFrames(out, k, OutChannels(a), Width(a))
            && FramesOf(out, OutChannels(a), Width(a))
               == MapFrames(FramesOf(data, a.stream.nbChannels, Width(a)), a.channels, Width(a))
  {
    if a.channels != [] {
      MapFromSilence(a.buffer, data, |data|, a.channels, a.stream.nbChannels, Width(a));
      MapKeepsSilence(a.buffer, data, |data|, a.channels, a.stream.nbChannels, Width(a));
    }
    WriteMeaning(a, data, k);
  }

  /** Writing is exact from any buffer if the clearing covers the silent slots. */
  lemma CoveredWrite(a: AudioState, data: seq<byte>, k: nat)
    requires Playable(a) && CanMap(a, DATA_MAX_SIZE, |data|, |data|)
    requires WholeFrames(data, k, a.stream.nbChannels, Width(a))
    requires a.channels != [] ==> ClearCovers(|data|, a.channels, a.stream.nbChannels, Width(a))
    ensures var out := Write(a, data).1;
            && WholeFrames(out, k, OutChannels(a), Width(a))
            && FramesOf(out, OutChannels(a), Width(a))
               == MapFrames(FramesOf(data, a.stream.nbChannels, Width(a)), a.channels, Width(a))
  {
    if a.channels != [] {
      var n, w := a.stream.nbChannels, Width(a);
      ExactFromAnyBuffer(data, |data|, DATA_MAX_SIZE, a.channels, n, w);
      assert MapsExactly(a.buffer, data, |data|, a.channels, n, w);
    }
    WriteMeaning(a, data, k);
  }

  /** Reading into a silent buffer: if the result is whole frames, it is exactly the mapped complete frames read. */
  lemma SilentRead(a: AudioState, dst: seq<byte>, bytes: seq<byte>)
    requires Playable(a) && |bytes| <= |dst| && |bytes| <= DATA_MAX_SIZE
    requires CanMap(a, |dst|, DATA_MAX_SIZE, |bytes|) && Silenced(a, dst)
    ensures var (b, out, size) := Read(a, dst, bytes);
            var k := FrameCount(|bytes|, a.stream.nbChannels, Width(a));
            && Silenced(a, out) && |out| == |dst| && b == a.(buffer := b.buffer) && |b.buffer| == DATA_MAX_SIZE
            && size == OutputSize(a, |bytes|) <= |dst|
            && (size == (k * OutChannels(a)) * Width(a) ==>
                  FramesOf(out[..size], OutChannels(a), Width(a))
                  == MapFrames(FramesOf(bytes, a.stream.nbChannels, Width(a)), a.channels, Width(a)))
  {
    var n, w := a.stream.nbChannels, Width(a);
    var buffer := bytes + a.buffer[|bytes|..];
    NoMapFrames(FramesOf(bytes, n, w), w);
    if a.channels != [] {
      MapFromSilence(dst, buffer, |bytes|, a.channels, n, w);
      MapKeepsSilence(dst, buffer, |bytes|, a.channels, n, w);
      assert buffer[..|bytes|] == bytes;
    } else {
      assert (bytes + dst[|bytes|..])[..|bytes|] == bytes;
    }
  }

  // ----- the device

  /** After `audio_set_stream_config` reports success the device is open with the configuration in force; the backend's
      open was called only if that configuration is new. */
  lemma SetStreamAgrees(a: AudioState, cfg: StreamConfig, closeRet: int, openRet: int)
    requires a.stream != NO_STREAM ==> a.device == Opened(DeviceConfig(a))
    requires cfg.nbChannels > 0
    ensures var (b, ret) := SetStream(a, cfg, closeRet, openRet);
            && b == a.(stream := b.stream, device := b.device, opens := b.opens)
            && b.opens == a.opens + (if a.stream == cfg || closeRet < 0 then [] else [DeviceConfig(a.(stream := cfg))])
            && (ret >= 0 ==> b.stream == cfg && b.device == Opened(DeviceConfig(b)))
            && (ret >= 0 ==> DeviceConfig(b).sampleRate == cfg.sampleRate && DeviceConfig(b).bitFmt == cfg.bitFmt)
  {
  }

  /** A call whose close fails leaves no trace in the handle, and neither does a call for the configuration in force,
      which succeeds at once. */
  lemma CallLeavesNoTrace(a: AudioState, cfg: StreamConfig, closeRet: int, openRet: int,
                          next: StreamConfig, closeRet': int, openRet': int)
    requires closeRet < 0 || a.stream == cfg
    ensures var (b, ret) := SetStream(a, cfg, closeRet, openRet);
            && SetStream(b, next, closeRet', openRet') == SetStream(a, next, closeRet', openRet')
            && ret == (if a.stream == cfg then 0 else closeRet)
            && b.device == a.device && b.buffer == a.buffer && b.opens == a.opens
  {
  }

  /** A failed open is not remembered as done: the same configuration is opened again. */
  lemma FailedOpenIsRetried(a: AudioState, cfg: StreamConfig, closeRet: int, openRet: int, closeRet': int,
                            openRet': int)
    requires a.stream != cfg && cfg.nbChannels > 0 && closeRet >= 0 && openRet < 0
    ensures var b := SetStream(a, cfg, closeRet, openRet).0;
            && b.device == Closed && b.stream == NO_STREAM
            && SetStream(b, cfg, closeRet', openRet').1 == (if closeRet' < 0 then closeRet' else openRet')
            && (closeRet' >= 0 && openRet' >= 0 ==> SetStream(b, cfg, closeRet', openRet').0.device.Opened?)
  {
  }
}
