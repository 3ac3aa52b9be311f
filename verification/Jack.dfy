/** The JACK playback backend: preroll, all-or-nothing writes and the de-interleaving process callback. */
module Jack {
  import opened Bytes
  import opened Frames
  import opened Protocol
  import opened JackRing

  const ENODEV := 19
  const NB_BUFFERS := 2

  // ----- samples

  /** A port sample: an exact level, or the bits of a format whose scaling is left uninterpreted. */
  datatype PortSample = Level(value: real) | Int32Bits(bits: seq<byte>) | FloatBits(bits: seq<byte>)

  function SignedByte(b: byte): int {
    if b < 128 then b as int else b as int - 256
  }

  /** `jack_convert_sample` */
  function Convert(b: seq<byte>, fmt: nat): PortSample
    requires |b| == SampleSize(fmt)
  {
    if fmt == 0 then Level(SignedByte(b[0]) as real / 128.0)
    else if fmt == 1 then Level((SignedByte(b[1]) * 0x100 + b[0] as int) as real / 32768.0)
    else if fmt == 2 then Level((SignedByte(b[2]) * 0x1_0000 + b[1] as int * 0x100 + b[0] as int) as real / 8388608.0)
    else if fmt == 3 then Int32Bits(b)
    else if fmt == 4 then FloatBits(b)
    else Level(0.0)
  }

  // ----- the state

  datatype JackState = JackState(isOpen: bool, active: bool, nbChannels: nat, fmt: nat, capacity: nat,
                                 contents: seq<byte>)

  /** The size that `jack_open` asks for, one of two buffers: the channel count is the one of the previous open. */
  function BufferSize(previousChannels: nat, requested: nat, period: nat, fmt: nat): (size: nat)
    ensures size >= requested
  {
    var jackSize := (period * previousChannels * SampleSize(fmt)) % TWO_32;
    if requested > jackSize then requested else jackSize
  }

  /** The state after a successful `jack_open`. */
  function OpenState(s: JackState, requested: nat, period: nat, cfg: StreamConfig): JackState {
    var size := BufferSize(s.nbChannels, requested, period, cfg.bitFmt);
    JackState(true, s.active, cfg.nbChannels, cfg.bitFmt, RingSize(size * NB_BUFFERS) - 1, Zeros(size))
  }

  /** The state after `jack_close`. */
  function AfterClose(s: JackState): JackState {
    s.(isOpen := false, active := s.active && !s.isOpen)
  }

  /** Whether a write is stored. */
  predicate Accepts(s: JackState, size: nat) {
    s.isOpen && s.active && |s.contents| + size <= s.capacity
  }

  function AfterWrite(s: JackState, data: seq<byte>): JackState {
    if Accepts(s, |data|) then s.(contents := s.contents + data) else s
  }

  function WriteResult(s: JackState, size: nat): int {
    if !s.isOpen then -ENODEV
    else if !s.active || Accepts(s, size) then size
    else 0
  }

  /** The bytes a callback takes. */
  function Need(s: JackState, nframes: nat): nat {
    nframes * s.nbChannels * SampleSize(s.fmt)
  }

  predicate Delivers(s: JackState, nframes: nat) {
    Need(s, nframes) <= |s.contents|
  }

  function AfterCallback(s: JackState, nframes: nat): JackState {
    if Delivers(s, nframes) then s.(active := true, contents := s.contents[Need(s, nframes)..])
    else s.(active := true)
  }

  /** The bytes of sample `c` of frame `f` in what a delivering callback reads. */
  function SampleBytes(data: seq<byte>, nb: nat, w: nat, f: nat, c: nat): (b: seq<byte>)
    requires (f * nb + c) * w + w <= |data|
    ensures |b| == w
  {
    Slot(data, f * nb + c, w)
  }

  /** Where sample `c` of frame `f` starts. */
  function Offset(f: nat, c: nat, nb: nat, w: nat): nat {
    (f * nb + c) * w
  }

  lemma SampleInRange(f: nat, c: nat, nframes: nat, nb: nat, w: nat)
    requires f < nframes && c < nb
    ensures Offset(f, c, nb, w) + w <= nframes * nb * w
    ensures Offset(f, c + 1, nb, w) == Offset(f, c, nb, w) + w
  {
    CellFits(f, c, nb, nframes);
    SlotFits(f * nb + c, nframes * nb, w);
    MulStep(f * nb + c, w);
  }

  lemma FrameOffsets(f: nat, nframes: nat, nb: nat, w: nat)
    ensures Offset(0, 0, nb, w) == 0
    ensures Offset(f, nb, nb, w) == Offset(f + 1, 0, nb, w)
    ensures Offset(nframes, 0, nb, w) == nframes * nb * w
  {
    MulStep(f, nb);
  }

  // ----- the backend

  class JackBackend {
    var isOpen: bool
    var active: bool
    var nbChannels: nat
    var fmt: nat
    var ring: RingBuffer

    ghost predicate Valid()
      reads this, ring
    {
      ring.Valid()
    }

    ghost function View(): JackState
      reads this, ring, ring.buf
      requires Valid()
    {
      JackState(isOpen, active, nbChannels, fmt, ring.buf.Length - 1, ring.Contents())
    }

    /** `jack_backend_init`: a zeroed backend; there is no ring before the first open, and the model's empty one is
        never used. */
    constructor ()
      ensures Valid() && fresh(ring) && fresh(ring.buf)
      ensures !isOpen && !active && nbChannels == 0
    {
      isOpen, active, nbChannels, fmt := false, false, 0, 0;
      ring := new RingBuffer(0);
    }

    /** `jack_open`, when the client, its ports and the activation succeed; `period` is the JACK buffer size. */
    method Open(requested: nat, period: nat, cfg: StreamConfig)
      requires Valid()
      modifies this
      ensures Valid() && fresh(ring) && fresh(ring.buf)
      ensures View() == OpenState(old(View()), requested, period, cfg)
    {
      var jackSize := (period * nbChannels * SampleSize(cfg.bitFmt)) % TWO_32;
      var size := (if requested > jackSize then requested else jackSize) * NB_BUFFERS;
      nbChannels, fmt, isOpen := cfg.nbChannels, cfg.bitFmt, true;
      ring := new RingBuffer(size);
      var written := ring.Write(Zeros(size / NB_BUFFERS));
      assert Zeros(size / NB_BUFFERS)[..written] == Zeros(size / NB_BUFFERS);
    }

    /** `jack_close`: only what a later open, write or callback can see. */
    method Close()
      requires Valid()
      modifies this
      ensures Valid() && !isOpen
      ensures old(isOpen) ==> !active
      ensures View() == AfterClose(old(View()))
    {
      if isOpen {
        active, isOpen := false, false;
      }
    }

    /** `jack_write` */
    method Write(data: seq<byte>) returns (ret: int)
      requires Valid()
      modifies ring`writePtr, ring.buf
      ensures Valid() && View() == AfterWrite(old(View()), data) && ret == WriteResult(old(View()), |data|)
    {
      if !isOpen {
        return -ENODEV;
      }
      if !active {
        return |data|;
      }
      var space := ring.WriteSpace();
      if space < |data| {
        return 0;
      }
      var n := ring.Write(data);
      assert data[..n] == data;
      ret := |data|;
    }

    /** `jack_process_cb`; `buffers[c, f]` is sample `f` of port `c`. */
    method Process(nframes: nat, buffers: array2<PortSample>)
      requires Valid() && fmt < BIT_RESOLUTION_MAX
      requires buffers.Length0 == nbChannels && buffers.Length1 == nframes
      requires nframes * nbChannels < TWO_32
      modifies this`active, ring`readPtr, buffers
      ensures Valid() && View() == AfterCallback(old(View()), nframes)
      ensures !Delivers(old(View()), nframes) ==>
        forall c, f :: 0 <= c < nbChannels && 0 <= f < nframes ==> buffers[c, f] == old(buffers[c, f])
      ensures Delivers(old(View()), nframes) ==>
        forall c: nat, f: nat :: c < nbChannels && f < nframes ==>
          SampleIs(buffers[c, f], old(ring.Contents()), nbChannels, fmt, f, c)
    {
      hide SampleIs, SampleSize;
      var sampleSize := SampleSize(fmt);
      active := true;
      var len0, len1 := ring.GetReadVector();
      ghost var data := ring.Contents();
      NeedFits(nframes, nbChannels);
      if len0 + len1 < ((nframes * nbChannels) % TWO_32) * sampleSize {
        return;
      }
      var len := Deinterleave(nframes, buffers, len0, len1);
      ring.ReadAdvance(len);
    }

    /** The loops of the callback over frames and channels. */
    method Deinterleave(nframes: nat, buffers: array2<PortSample>, len0: nat, len1: nat) returns (len: nat)
      requires Valid() && fmt < BIT_RESOLUTION_MAX
      requires buffers.Length0 == nbChannels && buffers.Length1 == nframes
      requires ring.readPtr + len0 <= ring.buf.Length && len1 <= ring.buf.Length
      requires ring.Contents() == ring.buf[ring.readPtr..ring.readPtr + len0] + ring.buf[..len1]
      requires nframes * nbChannels * SampleSize(fmt) <= len0 + len1
      modifies buffers
      ensures len == nframes * nbChannels * SampleSize(fmt)
      ensures forall c: nat, f: nat :: c < nbChannels && f < nframes ==>
        SampleIs(buffers[c, f], ring.Contents(), nbChannels, fmt, f, c)
    {
      hide SampleIs, Convert, SampleSize, At, Offset;
      var sampleParts := new byte[8](_ => 0);
      ghost var data, w, r := ring.Contents(), SampleSize(fmt), ring.readPtr;
      var ptr, index := ring.readPtr, 0;
      len := 0;
      var sample := 0;
      StartsAt(r, len0);
      FrameOffsets(0, nframes, nbChannels, w);
      while sample != nframes
        invariant sample <= nframes && len == Offset(sample, 0, nbChannels, w)
        invariant At(ptr, len, index, r, len0)
        invariant forall c: nat, f: nat :: c < nbChannels && f < sample ==>
          SampleIs(buffers[c, f], data, nbChannels, fmt, f, c)
        decreases nframes - sample
      {
        var channel := 0;
        while channel != nbChannels
          invariant channel <= nbChannels && len == Offset(sample, channel, nbChannels, w)
          invariant At(ptr, len, index, r, len0)
          invariant forall c: nat, f: nat :: c < nbChannels && f < sample ==>
            SampleIs(buffers[c, f], data, nbChannels, fmt, f, c)
          invariant forall c: nat :: c < channel ==> SampleIs(buffers[c, sample], data, nbChannels, fmt, sample, c)
          decreases nbChannels - channel
        {
          SampleInRange(sample, channel, nframes, nbChannels, w);
          var value;
          value, ptr, index := NextSample(ring.buf, fmt, ptr, len, index, ring.readPtr, len0, len1, sampleParts);
          SampleRead(value, data, nbChannels, fmt, sample, channel, len);
          buffers[channel, sample] := value;
          len := len + SampleSize(fmt);
          channel := channel + 1;
        }
        FrameOffsets(sample, nframes, nbChannels, w);
        sample := sample + 1;
      }
    }
  }

  lemma NeedFits(nframes: nat, nb: nat)
    requires nframes * nb < TWO_32
    ensures (nframes * nb) % TWO_32 == nframes * nb
  {
  }

  lemma SampleRead(value: PortSample, data: seq<byte>, nb: nat, fmt: nat, f: nat, c: nat, len: nat)
    requires len == Offset(f, c, nb, SampleSize(fmt)) && len + SampleSize(fmt) <= |data|
    requires value == Convert(data[len..len + SampleSize(fmt)], fmt)
    ensures SampleIs(value, data, nb, fmt, f, c)
  {
  }

  /** One turn of the inner loop: the sample at read offset `len`, wherever the segments split it. */
  method NextSample(buf: array<byte>, fmt: nat, ptr: nat, len: nat, index: nat, readPtr: nat, len0: nat, len1: nat,
                    sampleParts: array<byte>)
    returns (value: PortSample, ptr': nat, index': nat)
    requires sampleParts.Length == 8 && sampleParts != buf
    requires readPtr + len0 <= buf.Length && len1 <= buf.Length
    requires len + SampleSize(fmt) <= len0 + len1
    requires At(ptr, len, index, readPtr, len0)
    modifies sampleParts
    ensures value == Convert((buf[readPtr..readPtr + len0] + buf[..len1])[len..len + SampleSize(fmt)], fmt)
    ensures At(ptr', len + SampleSize(fmt), index', readPtr, len0)
  {
    hide Convert, SampleSize;
    var sampleSize := SampleSize(fmt);
    ghost var all := buf[..];
    assert all[readPtr..readPtr + len0] == buf[readPtr..readPtr + len0] && all[..len1] == buf[..len1];
    ptr', index' := ptr, index;
    if index' == 0 {
      if len + sampleSize > len0 {
        ptr' := Stitch(buf, ptr, readPtr + len0, sampleSize, sampleParts);
        Straddle(all, readPtr, len0, len1, len, sampleSize);
        value := Convert(sampleParts[..sampleSize], fmt);
        index' := 1;
        return;
      }
      if len == len0 {
        ptr', index' := 0, 1;
      }
    }
    if len + sampleSize <= len0 {
      FirstSegment(all, readPtr, len0, len1, len, sampleSize);
    }
    if len >= len0 {
      SecondSegment(all, readPtr, len0, len1, len, sampleSize);
    }
    value := Convert(buf[ptr'..ptr' + sampleSize], fmt);
    ptr' := ptr' + sampleSize;
  }

  /** Gathers a sample that the end of the first segment splits, byte by byte. */
  method Stitch(buf: array<byte>, ptr: nat, end: nat, sampleSize: nat, sampleParts: array<byte>) returns (ptr': nat)
    requires sampleParts != buf && sampleSize <= sampleParts.Length
    requires ptr <= end <= buf.Length && end - ptr <= sampleSize && sampleSize - (end - ptr) <= buf.Length
    modifies sampleParts
    ensures ptr' == sampleSize - (end - ptr)
    ensures sampleParts[..sampleSize] == buf[ptr..end] + buf[..ptr']
  {
    var part := 0;
    ptr' := ptr;
    while ptr' != end
      invariant part == ptr' - ptr && ptr <= ptr' <= end
      invariant forall k :: 0 <= k < part ==> sampleParts[k] == buf[ptr + k]
      decreases end - ptr'
    {
      sampleParts[part] := buf[ptr'];
      part, ptr' := part + 1, ptr' + 1;
    }
    ghost var head := part;
    ptr' := 0;
    while part < sampleSize
      invariant head <= part <= sampleSize && ptr' == part - head
      invariant forall k :: 0 <= k < head ==> sampleParts[k] == buf[ptr + k]
      invariant forall k :: head <= k < part ==> sampleParts[k] == buf[k - head]
    {
      sampleParts[part] := buf[ptr'];
      part, ptr' := part + 1, ptr' + 1;
    }
  }

  /** Where the read pointer stands after `len` bytes: in the first segment, or in the second for good. */
  predicate At(ptr: nat, len: nat, index: nat, readPtr: nat, len0: nat) {
    || (index == 0 && len <= len0 && ptr == readPtr + len)
    || (index == 1 && len >= len0 && ptr == len - len0)
  }

  lemma StartsAt(readPtr: nat, len0: nat)
    ensures At(readPtr, 0, 0, readPtr, len0)
  {
  }

  ghost predicate SampleIs(value: PortSample, data: seq<byte>, nb: nat, fmt: nat, f: nat, c: nat) {
    && (f * nb + c) * SampleSize(fmt) + SampleSize(fmt) <= |data|
    && value == Convert(SampleBytes(data, nb, SampleSize(fmt), f, c), fmt)
  }

  /** A sample over the end of the first segment is the rest of it and the start of the second. */
  lemma Straddle(buf: seq<byte>, r: nat, len0: nat, len1: nat, len: nat, w: nat)
    requires r + len0 <= |buf| && len1 <= |buf| && len <= len0 <= len + w <= len0 + len1
    ensures (buf[r..r + len0] + buf[..len1])[len..len + w] == buf[r + len..r + len0] + buf[..len + w - len0]
  {
  }

  lemma FirstSegment(buf: seq<byte>, r: nat, len0: nat, len1: nat, len: nat, w: nat)
    requires r + len0 <= |buf| && len1 <= |buf| && len + w <= len0
    ensures (buf[r..r + len0] + buf[..len1])[len..len + w] == buf[r + len..r + len + w]
  {
    SlicePrefix(buf[r..r + len0], buf[..len1], len, len + w);
    SliceOfSlice(buf, r, r + len0, len, len + w);
  }

  lemma SliceOfSlice(s: seq<byte>, i: nat, j: nat, a: nat, b: nat)
    requires i <= j <= |s| && a <= b <= j - i
    ensures s[i..j][a..b] == s[i + a..i + b]
  {
    forall k | 0 <= k < b - a
      ensures s[i..j][a..b][k] == s[i + a..i + b][k]
    {
      assert s[i..j][a + k] == s[i + (a + k)];
    }
  }

  lemma SecondSegment(buf: seq<byte>, r: nat, len0: nat, len1: nat, len: nat, w: nat)
    requires r + len0 <= |buf| && len1 <= |buf| && len0 <= len && len + w <= len0 + len1
    ensures (buf[r..r + len0] + buf[..len1])[len..len + w] == buf[len - len0..len - len0 + w]
  {
    SliceSuffix(buf[r..r + len0], buf[..len1], len - len0, len - len0 + w);
  }
}
