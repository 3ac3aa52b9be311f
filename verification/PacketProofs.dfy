/** What the packet codec and the validator guarantee together. */
module PacketProofs {
  import opened Bytes
  import opened Frames
  import opened Protocol
  import opened Packet

  /** An audio packet as a value; `name` is the whole 16-byte name field. */
  datatype AudioPacket = AudioPacket(cfg: StreamConfig, frames: nat, name: seq<byte>, nu: nat, payload: seq<byte>)

  predicate WellFormed(p: AudioPacket) {
    && ValidConfig(p.cfg)
    && 1 <= p.frames <= SAMPLES_MAX_NB
    && |p.name| == STREAM_NAME_SIZE
    && p.nu < TWO_32
    && |p.payload| == p.frames * FrameBytes(p.cfg)
  }

  /** The header of a stream, with its frame-count byte and its counter. */
  function Header(cfg: StreamConfig, nbs: byte, name: seq<byte>, nu: nat): (h: seq<byte>)
    requires |name| == STREAM_NAME_SIZE && nu < TWO_32
    ensures |h| == HEADER_SIZE
  {
    HeaderBytes(ToByte(RateIndex(cfg.sampleRate)), nbs, ToByte(cfg.nbChannels - 1), ToByte(cfg.bitFmt), name, nu)
  }

  function Encode(p: AudioPacket): seq<byte>
    requires WellFormed(p)
  {
    Header(p.cfg, ToByte(p.frames - 1), p.name, p.nu) + p.payload
  }

  /** Reading a packet back, field by field. */
  function Decode(b: seq<byte>): AudioPacket
    requires |b| >= HEADER_SIZE
  {
    AudioPacket(
      StreamConfig(b[6] as nat + 1, RateAt(b[4] as nat), b[7] as nat),
      b[5] as nat + 1, b[8..24], FromLE32(b[24..28]), b[HEADER_SIZE..])
  }

  /** The fields of header bytes. */
  lemma HeaderFields(sr: byte, nbs: byte, nbc: byte, bit: byte, name: seq<byte>, nu: nat, rest: seq<byte>)
    requires |name| == STREAM_NAME_SIZE && nu < TWO_32
    ensures var b := HeaderBytes(sr, nbs, nbc, bit, name, nu) + rest;
            && FromLE32(b[..4]) == HEADER_FOURC && b[4] == sr && b[5] == nbs && b[6] == nbc && b[7] == bit
            && b[8..24] == name && FromLE32(b[24..28]) == nu && b[HEADER_SIZE..] == rest
  {
    var b := HeaderBytes(sr, nbs, nbc, bit, name, nu) + rest;
    assert b[..4] == LE32(HEADER_FOURC) && b[24..28] == LE32(nu);
    LE32RoundTrip(HEADER_FOURC);
    LE32RoundTrip(nu);
  }

  /** Bytes with the right magic are their own header fields. */
  lemma BytesFromFields(b: seq<byte>)
    requires |b| >= HEADER_SIZE && FromLE32(b[..4]) == HEADER_FOURC
    ensures b == HeaderBytes(b[4], b[5], b[6], b[7], b[8..24], FromLE32(b[24..28])) + b[HEADER_SIZE..]
  {
    FromLE32RoundTrip(b[..4]);
    FromLE32RoundTrip(b[24..28]);
    assert b == b[..4] + [b[4], b[5], b[6], b[7]] + b[8..24] + b[24..28] + b[HEADER_SIZE..];
  }

  /** The header bytes of a valid configuration hold its values without truncation. */
  lemma ConfigBytes(cfg: StreamConfig)
    requires Sendable(cfg)
    ensures ToByte(cfg.nbChannels - 1) as nat + 1 == cfg.nbChannels && ToByte(cfg.bitFmt) as nat == cfg.bitFmt
    ensures ToByte(RateIndex(cfg.sampleRate)) as nat == RateIndex(cfg.sampleRate)
  {
  }

  /** The payload equation of the validator, over the header bytes. */
  predicate PayloadMatches(b: seq<byte>)
    requires |b| > HEADER_SIZE && b[7] as nat < BIT_RESOLUTION_MAX
  {
    |b| - HEADER_SIZE == (b[5] as nat + 1) * FrameBytes(StreamConfig(b[6] as nat + 1, 0, b[7] as nat))
  }

  lemma PcmCheckMeaning(b: seq<byte>)
    requires |b| > HEADER_SIZE && b[7] as nat < BIT_RESOLUTION_MAX && b[4] < 32
    ensures PcmCheck(b) == 0 <==> b[4] as nat < SR_MAXNUMBER && b[7] as nat < 6 && PayloadMatches(b)
    ensures PcmCheck(b) == 0 || PcmCheck(b) == -EINVAL
  {
    hide BitAnd;
    FormatBits(b[7] as nat);
    RateBits(b[4] as nat);
    Reorder(b[5] as nat + 1, SampleSize(b[7] as nat), b[6] as nat + 1);
  }

  lemma Reorder(frames: nat, w: nat, n: nat)
    ensures frames * w * n == frames * (n * w)
    ensures w == 0 ==> frames * (n * w) == 0
  {
    Assoc(frames, w, n);
  }

  /** Every condition of `packet_check`, decoded: the zero-size formats fail on the payload equation. */
  lemma CheckMeaning(streamname: seq<byte>, b: seq<byte>)
    requires |streamname| == STREAM_NAME_SIZE
    ensures Check(streamname, b) == 0 <==>
      && |b| > HEADER_SIZE
      && FromLE32(b[..4]) == HEADER_FOURC
      && CStr(streamname) == CStr(b[8..24])
      && b[4] as nat < SR_MAXNUMBER
      && b[7] as nat < 6
      && PayloadMatches(b)
    ensures Check(streamname, b) == 0 || Check(streamname, b) == -EINVAL
  {
    if |b| > HEADER_SIZE {
      StrNEqualMeaning(streamname, b[8..24]);
      FormatBits(b[7] as nat);
      RateBits(b[4] as nat);
      if b[7] as nat < BIT_RESOLUTION_MAX && b[4] < 32 {
        PcmCheckMeaning(b);
      }
    }
  }

  /** When a header with its payload passes the check. */
  lemma HeaderCheck(streamname: seq<byte>, sr: byte, nbs: byte, frames: nat, cfg: StreamConfig, name: seq<byte>,
                    nu: nat, payload: seq<byte>)
    requires frames == nbs as nat + 1
    requires |streamname| == STREAM_NAME_SIZE && |name| == STREAM_NAME_SIZE && nu < TWO_32 && Sendable(cfg)
    ensures Check(streamname,
                  HeaderBytes(sr, nbs, ToByte(cfg.nbChannels - 1), ToByte(cfg.bitFmt), name, nu) + payload) == 0 <==>
      && payload != []
      && CStr(streamname) == CStr(name)
      && sr as nat < SR_MAXNUMBER
      && |payload| == frames * FrameBytes(cfg)
  {
    var b := HeaderBytes(sr, nbs, ToByte(cfg.nbChannels - 1), ToByte(cfg.bitFmt), name, nu) + payload;
    HeaderFields(sr, nbs, ToByte(cfg.nbChannels - 1), ToByte(cfg.bitFmt), name, nu, payload);
    ConfigBytes(cfg);
    CheckMeaning(streamname, b);
    if payload != [] {
      HeaderPayload(b, frames, cfg);
    }
  }

  lemma HeaderPayload(b: seq<byte>, frames: nat, cfg: StreamConfig)
    requires |b| > HEADER_SIZE && b[5] as nat + 1 == frames && Sendable(cfg)
    requires b[6] as nat + 1 == cfg.nbChannels && b[7] as nat == cfg.bitFmt
    ensures PayloadMatches(b) <==> |b| - HEADER_SIZE == frames * FrameBytes(cfg)
  {
  }

  /** Encoding loses nothing: decoding gives the packet back, so two packets never share an encoding. */
  lemma DecodeEncode(p: AudioPacket)
    requires WellFormed(p)
    ensures Decode(Encode(p)) == p
  {
    hide RateIndex, RateAt, LE32, FromLE32, HeaderBytes, SampleSize;
    HeaderFields(ToByte(RateIndex(p.cfg.sampleRate)), ToByte(p.frames - 1), ToByte(p.cfg.nbChannels - 1),
                 ToByte(p.cfg.bitFmt), p.name, p.nu, p.payload);
    ConfigBytes(p.cfg);
    RateAtIndex(p.cfg.sampleRate);
    assert ToByte(p.frames - 1) as nat + 1 == p.frames;
  }

  /** A checked packet's configuration is the decoded one. */
  lemma ConfigOfBytes(b: seq<byte>)
    requires |b| > HEADER_SIZE && b[4] as nat < SR_MAXNUMBER && b[7] as nat < 6
    ensures BitAnd(b[4] as nat, SR_MASK) < SR_MAXNUMBER && GetStreamConfig(b) == Decode(b).cfg
  {
    hide RateAt, BitAnd, SampleSize, IndexIn, FromLE32;
    RateBits(b[4] as nat);
    FormatBits(b[7] as nat);
  }

  lemma FrameOfBytes(b: seq<byte>)
    requires |b| > HEADER_SIZE && b[7] as nat < 6
    ensures FrameSize(b) == FrameBytes(Decode(b).cfg)
  {
    hide RateAt, BitAnd, FromLE32;
    FormatBits(b[7] as nat);
  }

  /** Every encoded packet is accepted under its own stream name, and reads back as its configuration. */
  lemma EncodedAccepted(streamname: seq<byte>, p: AudioPacket)
    requires |streamname| == STREAM_NAME_SIZE && WellFormed(p)
    ensures Check(streamname, Encode(p)) == 0 <==> CStr(streamname) == CStr(p.name)
    ensures |Encode(p)| > HEADER_SIZE && BitAnd(Encode(p)[4] as nat, SR_MASK) < SR_MAXNUMBER
    ensures GetStreamConfig(Encode(p)) == p.cfg
  {
    MulMono(1, p.frames, FrameBytes(p.cfg));
    EncodedCheck(streamname, p);
    EncodedFields(p);
    ConfigOfBytes(Encode(p));
    DecodeEncode(p);
  }

  lemma EncodedParts(p: AudioPacket)
    requires WellFormed(p)
    ensures |Encode(p)| == HEADER_SIZE + |p.payload| && Encode(p)[HEADER_SIZE..] == p.payload
  {
  }

  lemma EncodedCheck(streamname: seq<byte>, p: AudioPacket)
    requires |streamname| == STREAM_NAME_SIZE && WellFormed(p) && p.payload != []
    ensures Check(streamname, Encode(p)) == 0 <==> CStr(streamname) == CStr(p.name)
  {
    var sr, nbs := ToByte(RateIndex(p.cfg.sampleRate)), ToByte(p.frames - 1);
    EncodedWith(p, sr, nbs);
    EncodedWithCheck(streamname, p, sr, nbs, Encode(p));
  }

  predicate IsEncodingWith(p: AudioPacket, sr: byte, nbs: byte, b: seq<byte>)
    requires |p.name| == STREAM_NAME_SIZE && p.nu < TWO_32
  {
    b == HeaderBytes(sr, nbs, ToByte(p.cfg.nbChannels - 1), ToByte(p.cfg.bitFmt), p.name, p.nu) + p.payload
  }

  lemma EncodedWith(p: AudioPacket, sr: byte, nbs: byte)
    requires WellFormed(p) && sr == ToByte(RateIndex(p.cfg.sampleRate)) && nbs == ToByte(p.frames - 1)
    ensures sr as nat < SR_MAXNUMBER && nbs as nat + 1 == p.frames
    ensures IsEncodingWith(p, sr, nbs, Encode(p))
  {
    hide SampleSize, FrameBytes, HeaderBytes, IndexIn;
  }

  lemma EncodedWithCheck(streamname: seq<byte>, p: AudioPacket, sr: byte, nbs: byte, b: seq<byte>)
    requires |streamname| == STREAM_NAME_SIZE && WellFormed(p) && p.payload != []
    requires sr as nat < SR_MAXNUMBER && nbs as nat + 1 == p.frames && IsEncodingWith(p, sr, nbs, b)
    ensures Check(streamname, b) == 0 <==> CStr(streamname) == CStr(p.name)
  {
    HeaderCheck(streamname, sr, nbs, p.frames, p.cfg, p.name, p.nu, p.payload);
  }

  lemma EncodedFields(p: AudioPacket)
    requires WellFormed(p)
    ensures Encode(p)[4] as nat < SR_MAXNUMBER && Encode(p)[7] as nat < 6
  {
    HeaderFields(ToByte(RateIndex(p.cfg.sampleRate)), ToByte(p.frames - 1), ToByte(p.cfg.nbChannels - 1),
                 ToByte(p.cfg.bitFmt), p.name, p.nu, p.payload);
    ConfigBytes(p.cfg);
  }

  /** An accepted packet is the encoding of what it decodes to. */
  lemma AcceptedDecodes(streamname: seq<byte>, b: seq<byte>)
    requires |streamname| == STREAM_NAME_SIZE && Check(streamname, b) == 0
    ensures |b| > HEADER_SIZE
    ensures WellFormed(Decode(b)) && Encode(Decode(b)) == b
    ensures CStr(Decode(b).name) == CStr(streamname)
    ensures BitAnd(b[4] as nat, SR_MASK) < SR_MAXNUMBER && GetStreamConfig(b) == Decode(b).cfg
    ensures FrameSize(b) == FrameBytes(Decode(b).cfg)
  {
    CheckMeaning(streamname, b);
    RateIndexInverts(b[4] as nat);
    DecodedWellFormed(b);
    BytesFromFields(b);
    DecodedHeader(b);
    ConfigOfBytes(b);
    FrameOfBytes(b);
  }

  lemma DecodedHeader(b: seq<byte>)
    requires |b| > HEADER_SIZE && RateIndex(RateAt(b[4] as nat)) == b[4] as nat && WellFormed(Decode(b))
    ensures Encode(Decode(b)) == HeaderBytes(b[4], b[5], b[6], b[7], b[8..24], FromLE32(b[24..28])) + b[HEADER_SIZE..]
  {
    hide RateAt, RateIndex, SampleSize, FrameBytes, HeaderBytes, FromLE32;
  }

  lemma DecodedWellFormed(b: seq<byte>)
    requires |b| > HEADER_SIZE && b[4] as nat < SR_MAXNUMBER && b[7] as nat < 6 && PayloadMatches(b)
    requires KnownRate(RateAt(b[4] as nat))
    ensures WellFormed(Decode(b))
  {
  }

  /** `packet_check` accepts exactly the packets the codec can produce for the stream name. */
  lemma AcceptedIffEncodable(streamname: seq<byte>, b: seq<byte>)
    requires |streamname| == STREAM_NAME_SIZE
    ensures Check(streamname, b) == 0 <==>
      exists p :: WellFormed(p) && CStr(p.name) == CStr(streamname) && Encode(p) == b
  {
    if Check(streamname, b) == 0 {
      AcceptedDecodes(streamname, b);
    }
    if p :| WellFormed(p) && CStr(p.name) == CStr(streamname) && Encode(p) == b {
      EncodedAccepted(streamname, p);
    }
  }

  /** After a successful check every size the consumer divides by is positive and divides exactly. */
  lemma AcceptedIsSafe(streamname: seq<byte>, b: seq<byte>)
    requires |streamname| == STREAM_NAME_SIZE && Check(streamname, b) == 0
    ensures |b| > HEADER_SIZE && BitAnd(b[4] as nat, SR_MASK) < SR_MAXNUMBER
    ensures var cfg := GetStreamConfig(b);
            && ValidConfig(cfg)
            && FrameSize(b) == FrameBytes(cfg) > 0
            && 1 <= FrameCount(|b| - HEADER_SIZE, cfg.nbChannels, SampleSize(cfg.bitFmt)) <= SAMPLES_MAX_NB
            && WholeFrames(b[HEADER_SIZE..], FrameCount(|b| - HEADER_SIZE, cfg.nbChannels, SampleSize(cfg.bitFmt)),
                           cfg.nbChannels, SampleSize(cfg.bitFmt))
  {
    AcceptedDecodes(streamname, b);
    var p := Decode(b);
    Assoc(p.frames, p.cfg.nbChannels, SampleSize(p.cfg.bitFmt));
    WholeFramesCount(p.payload, p.frames, p.cfg.nbChannels, SampleSize(p.cfg.bitFmt));
  }

  /** The bytes of a sample in the six formats that have a size. */
  function FormatBytes(fmt: nat): nat
    requires fmt < 6
  {
    [1, 2, 3, 4, 4, 8][fmt]
  }

  /** The accepted byte strings, byte by byte: the magic, a rate code below 21, the payload that the counts and the
      format announce, and the stream name; and the configuration they stand for. */
  lemma AcceptedBytes(streamname: seq<byte>, b: seq<byte>)
    requires |streamname| == STREAM_NAME_SIZE
    ensures Check(streamname, b) == 0 <==>
      && |b| > 28 && b[..4] == [0x56, 0x42, 0x41, 0x4E] && CStr(streamname) == CStr(b[8..24])
      && b[4] < 21 && b[7] < 6
      && |b| - 28 == ((b[5] as nat + 1) * (b[6] as nat + 1)) * FormatBytes(b[7] as nat)
    ensures Check(streamname, b) != 0 ==> Check(streamname, b) == -22
    ensures Check(streamname, b) == 0 ==>
      && BitAnd(b[4] as nat, SR_MASK) < SR_MAXNUMBER
      && GetStreamConfig(b) == StreamConfig(b[6] as nat + 1, StandardRate(b[4] as nat), b[7] as nat)
  {
    hide Check, BitAnd, CStr, RateAt, StandardRate, SampleSize, PayloadMatches, FormatBytes, FromLE32, GetStreamConfig;
    CheckMeaning(streamname, b);
    if |b| > 28 {
      MagicBytes(b[..4]);
      if b[7] < 6 {
        PayloadBytes(b);
        if b[4] < 21 {
          ConfigAnnounced(b);
        }
      }
    }
  }

  lemma ConfigAnnounced(b: seq<byte>)
    requires |b| > 28 && b[4] < 21 && b[7] < 6
    ensures BitAnd(b[4] as nat, SR_MASK) < SR_MAXNUMBER
    ensures GetStreamConfig(b) == StreamConfig(b[6] as nat + 1, StandardRate(b[4] as nat), b[7] as nat)
  {
    hide BitAnd, RateAt, StandardRate;
    RateBits(b[4] as nat);
    FormatBits(b[7] as nat);
    RateCodes(b[4] as nat);
  }

  lemma MagicBytes(b: seq<byte>)
    requires |b| == 4
    ensures FromLE32(b) == HEADER_FOURC <==> b == [0x56, 0x42, 0x41, 0x4E]
  {
    FromLE32RoundTrip(b);
    LE32RoundTrip(HEADER_FOURC);
    assert LE32(HEADER_FOURC) == [0x56, 0x42, 0x41, 0x4E];
  }

  lemma PayloadBytes(b: seq<byte>)
    requires |b| > 28 && b[7] < 6
    ensures PayloadMatches(b) <==> |b| - 28 == ((b[5] as nat + 1) * (b[6] as nat + 1)) * FormatBytes(b[7] as nat)
  {
    Assoc(b[5] as nat + 1, b[6] as nat + 1, FormatBytes(b[7] as nat));
  }

  // ----- the emitter's packets

  /** The header of a stream stays its header: stamping changes the frame count and the counter only. */
  lemma StampedHeader(cfg: StreamConfig, nbs: byte, name: seq<byte>, nu: nat, rest: seq<byte>, size: nat)
    requires Sendable(cfg) && |name| == STREAM_NAME_SIZE && nu < TWO_32
    ensures var b := Header(cfg, nbs, name, nu) + rest;
            && FrameSize(b) == FrameBytes(cfg)
            && Stamp(b, size) == Header(cfg, ToByte(size / FrameBytes(cfg) - 1), name, (nu + 1) % TWO_32) + rest
  {
    hide RateIndex, LE32, FromLE32, BitAnd, SampleSize;
    var b := Header(cfg, nbs, name, nu) + rest;
    HeaderFields(ToByte(RateIndex(cfg.sampleRate)), nbs, ToByte(cfg.nbChannels - 1), ToByte(cfg.bitFmt), name, nu,
                 rest);
    ConfigBytes(cfg);
    FormatBits(b[7] as nat);
    assert b[6..24] == [b[6], b[7]] + name;
    assert b[..5] == LE32(HEADER_FOURC) + [b[4]];
  }

  /** `packet_init_header` writes the header of the configuration, whatever else the buffer held, as long as the last
      byte of the name field, which it leaves alone, was zero. */
  lemma InitializedHeader(pkt: seq<byte>, cfg: StreamConfig, streamname: seq<byte>)
    requires |pkt| >= HEADER_SIZE && pkt[23] == 0
    requires |streamname| == STREAM_NAME_SIZE && streamname[STREAM_NAME_SIZE - 1] == 0
    ensures var name := StrNCopy(streamname, STREAM_NAME_SIZE - 1) + [0];
            && CStr(name) == CStr(streamname)
            && InitHeader(pkt, cfg, streamname) == Header(cfg, pkt[5], name, 0) + pkt[HEADER_SIZE..]
  {
    CStrLength(streamname);
    StrNCopyMeaning(streamname, STREAM_NAME_SIZE - 1);
  }

  /** A stamped packet passes the check just when its rate is known and its payload is 1 to 256 whole frames. */
  lemma StampedAccepted(streamname: seq<byte>, cfg: StreamConfig, name: seq<byte>, nu: nat, payload: seq<byte>,
                        q: nat, nbs: byte)
    requires |streamname| == STREAM_NAME_SIZE && |name| == STREAM_NAME_SIZE && CStr(name) == CStr(streamname)
    requires Sendable(cfg) && nu < TWO_32
    requires q == |payload| / FrameBytes(cfg) && nbs == ToByte(q - 1)
    ensures Check(streamname, Header(cfg, nbs, name, nu) + payload) == 0 <==>
              && KnownRate(cfg.sampleRate)
              && 1 <= q <= SAMPLES_MAX_NB
              && |payload| == q * FrameBytes(cfg)
  {
    StampedCount(|payload|, FrameBytes(cfg), q, nbs as nat + 1);
    StampedHeaderCheck(streamname, cfg, name, nu, payload, nbs);
  }

  lemma StampedHeaderCheck(streamname: seq<byte>, cfg: StreamConfig, name: seq<byte>, nu: nat, payload: seq<byte>,
                           nbs: byte)
    requires |streamname| == STREAM_NAME_SIZE && |name| == STREAM_NAME_SIZE && CStr(name) == CStr(streamname)
    requires Sendable(cfg) && nu < TWO_32
    ensures Check(streamname, Header(cfg, nbs, name, nu) + payload) == 0 <==>
              && KnownRate(cfg.sampleRate)
              && |payload| > 0 && |payload| == (nbs as nat + 1) * FrameBytes(cfg)
  {
    hide Check, CStr, LE32, RateIndex, KnownRate, FrameBytes, HeaderBytes;
    var sr := RateByte(cfg.sampleRate);
    var b := Header(cfg, nbs, name, nu) + payload;
    assert b == HeaderBytes(sr, nbs, ToByte(cfg.nbChannels - 1), ToByte(cfg.bitFmt), name, nu) + payload;
    WithRateCheck(streamname, sr, nbs as nat + 1, nbs, cfg, name, nu, payload, b);
  }

  lemma RateByte(rate: nat) returns (sr: byte)
    ensures sr == ToByte(RateIndex(rate))
    ensures sr as nat < SR_MAXNUMBER <==> KnownRate(rate)
  {
    sr := ToByte(RateIndex(rate));
  }

  lemma WithRateCheck(streamname: seq<byte>, sr: byte, frames: nat, nbs: byte, cfg: StreamConfig, name: seq<byte>,
                      nu: nat, payload: seq<byte>, b: seq<byte>)
    requires |streamname| == STREAM_NAME_SIZE && |name| == STREAM_NAME_SIZE && CStr(name) == CStr(streamname)
    requires Sendable(cfg) && nu < TWO_32 && frames == nbs as nat + 1
    requires sr as nat < SR_MAXNUMBER <==> KnownRate(cfg.sampleRate)
    requires b == HeaderBytes(sr, nbs, ToByte(cfg.nbChannels - 1), ToByte(cfg.bitFmt), name, nu) + payload
    ensures Check(streamname, b) == 0 <==>
              KnownRate(cfg.sampleRate) && |payload| > 0 && |payload| == frames * FrameBytes(cfg)
  {
    HeaderCheck(streamname, sr, nbs, frames, cfg, name, nu, payload);
  }

  /** The frame-count byte matches the payload just when the count did not wrap and nothing is left over. */
  lemma StampedCount(size: nat, frame: nat, q: nat, stamped: nat)
    requires frame > 0 && q == size / frame && stamped == (q - 1) % 256 + 1
    ensures size > 0 && size == stamped * frame <==> 1 <= q <= 256 && size == q * frame
  {
    if size == stamped * frame {
      DivModUnique(size, frame, stamped, 0);
    }
  }

  /** The size limit of a packet: whole frames, as many as fit, and no more than 256. */
  lemma MaxPayloadIsMaximal(frame: nat)
    requires frame > 0
    ensures MaxFrames(frame) <= SAMPLES_MAX_NB && MaxFrames(frame) * frame <= DATA_MAX_SIZE
    ensures forall k: nat :: k <= SAMPLES_MAX_NB && Fits(k, frame) ==> k <= MaxFrames(frame)
  {
    var count := DATA_MAX_SIZE / frame;
    MulMono(MaxFrames(frame), count, frame);
    forall k: nat | k <= SAMPLES_MAX_NB && Fits(k, frame)
      ensures k <= MaxFrames(frame)
    {
      if k > count {
        MulMono(count + 1, k, frame);
      }
    }
  }

  predicate Fits(k: nat, frame: nat) {
    k * frame <= DATA_MAX_SIZE
  }
}
