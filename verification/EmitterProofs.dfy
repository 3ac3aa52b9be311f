/** What every run of the emitter sends. */
module EmitterProofs {
  import opened Bytes
  import opened Frames
  import opened Protocol
  import opened Packet
  import opened PacketProofs
  import opened ChannelMap
  import opened Audio
  import opened AudioProofs
  import opened Emitter

  function PacketChannels(o: Setup): nat {
    PacketConfig(o).nbChannels
  }

  function SampleWidth(o: Setup): nat {
    SampleSize(o.stream.bitFmt)
  }

  /** The complete frames of one device read. */
  function ReadFrames(o: Setup, bytes: seq<byte>): seq<Frame>
    requires Sendable(o.stream)
  {
    FramesOf(bytes, o.stream.nbChannels, SampleWidth(o))
  }

  /** The name field of every packet: at most 15 characters of the stream name, and zeros. */
  function NameField(o: Setup): (name: seq<byte>)
    ensures |name| == STREAM_NAME_SIZE
  {
    StrNCopy(o.name, STREAM_NAME_SIZE - 1) + [0]
  }

  /** The `i`-th packet of a run (from 0), for the device read behind it. */
  function PacketAt(o: Setup, i: nat, bytes: seq<byte>): AudioPacket
    requires Sendable(o.stream)
  {
    AudioPacket(PacketConfig(o), |ReadFrames(o, bytes)|, NameField(o), (i + 1) % TWO_32,
                BytesOf(MapFrames(ReadFrames(o, bytes), o.channels, SampleWidth(o))))
  }

  /** A read whose mapped size is one or more whole frames. */
  predicate WholeRead(o: Setup, bytes: seq<byte>)
    requires Sendable(o.stream)
  {
    var k := FrameCount(|bytes|, o.stream.nbChannels, SampleWidth(o));
    k >= 1 && OutputSize(AudioOf(o, []), |bytes|) == (k * PacketChannels(o)) * SampleWidth(o)
  }

  /** A turn after which the loop goes on. */
  predicate Good(o: Setup, t: Turn)
    requires Sendable(o.stream)
  {
    t.read.ReadBytes? && KnownRate(o.stream.sampleRate) && WholeRead(o, t.read.bytes) && t.socketRet >= 0
  }

  /** Between turns: the buffer holds the stream's header, numbered by the packets sent, and is silent where no channel
      feeds it. */
  ghost predicate Between(o: Setup, s: Loop)
    requires Usable(o)
  {
    && Shaped(o, s)
    && s.packet[..HEADER_SIZE] == Header(PacketConfig(o), s.packet[5], NameField(o), |s.sent| % TWO_32)
    && Silenced(AudioOf(o, []), s.packet[HEADER_SIZE..])
  }

  lemma StartsBetween(o: Setup)
    requires Usable(o)
    ensures Between(o, Start(o))
  {
    StartShaped(o);
    InitializedHeader(Zeros(PROTOCOL_MAX_SIZE), PacketConfig(o), o.name);
    assert Start(o).packet[HEADER_SIZE..] == Zeros(DATA_MAX_SIZE);
    if o.channels != [] {
      ZerosAreSilent(DATA_MAX_SIZE, o.channels, o.stream.nbChannels, SampleWidth(o));
    }
    SameName(o);
  }

  lemma SameName(o: Setup)
    requires Usable(o)
    ensures CStr(NameField(o)) == CStr(o.name)
  {
    CStrLength(o.name);
    StrNCopyMeaning(o.name, STREAM_NAME_SIZE - 1);
  }

  /** The payload region after a read. */
  function Payload(o: Setup, s: Loop, bytes: seq<byte>): (p: seq<byte>)
    requires Usable(o) && Shaped(o, s) && |bytes| <= Request(o)
    ensures |p| == DATA_MAX_SIZE
  {
    ReadFits(o, s.buffer, |bytes|);
    Read(AudioOf(o, s.buffer), s.packet[HEADER_SIZE..], bytes).1
  }

  lemma PreparedIsStamp(o: Setup, s: Loop, bytes: seq<byte>)
    requires Usable(o) && Shaped(o, s) && |bytes| <= Request(o)
    ensures var filled := s.packet[..HEADER_SIZE] + Payload(o, s, bytes);
            && FrameSize(filled) == FrameBytes(PacketConfig(o))
            && Prepared(o, s, bytes).1 == Stamp(filled, Prepared(o, s, bytes).2)
            && Prepared(o, s, bytes).2 == OutputSize(AudioOf(o, []), |bytes|)
  {
    hide Stamp, FrameSize, Request, SampleSize, FrameBytes;
    ReadFits(o, s.buffer, |bytes|);
    ReadSize(AudioOf(o, s.buffer), s.packet[HEADER_SIZE..], bytes);
    SameHeaderSameFrame(s.packet[..HEADER_SIZE] + Payload(o, s, bytes), s.packet);
    SameOutputSize(o, s.buffer, |bytes|);
  }

  /** The prepared packet: the header with its new count and number, then the mapped payload. */
  lemma PreparedMeaning(o: Setup, s: Loop, bytes: seq<byte>, q: nat)
    requires Usable(o) && Shaped(o, s) && Between(o, s) && |bytes| <= Request(o)
    requires q == OutputSize(AudioOf(o, []), |bytes|) / FrameBytes(PacketConfig(o))
    ensures Prepared(o, s, bytes).2 == OutputSize(AudioOf(o, []), |bytes|)
    ensures Prepared(o, s, bytes).1
         == Header(PacketConfig(o), ToByte(q - 1), NameField(o), (|s.sent| + 1) % TWO_32) + Payload(o, s, bytes)
  {
    hide Stamp, Header, NameField, FrameBytes, FrameSize, OutputSize, Prepared, Payload, Silenced, Request, SampleSize;
    var nu, size := |s.sent| % TWO_32, OutputSize(AudioOf(o, []), |bytes|);
    PreparedIsStamp(o, s, bytes);
    StampedHeader(PacketConfig(o), s.packet[5], NameField(o), nu, Payload(o, s, bytes), size);
    NextNumber(|s.sent|, nu);
  }

  lemma NextNumber(count: nat, nu: nat)
    requires nu == count % TWO_32
    ensures (nu + 1) % TWO_32 == (count + 1) % TWO_32
  {
  }

  lemma ReadSize(a: AudioState, dst: seq<byte>, bytes: seq<byte>)
    requires |a.buffer| == DATA_MAX_SIZE && |bytes| <= |dst| && |bytes| <= DATA_MAX_SIZE
    requires CanMap(a, |dst|, DATA_MAX_SIZE, |bytes|)
    ensures Read(a, dst, bytes).2 == OutputSize(a, |bytes|)
  {
  }

  lemma SameOutputSize(o: Setup, buffer: seq<byte>, size: nat)
    requires Sendable(o.stream)
    ensures OutputSize(AudioOf(o, buffer), size) == OutputSize(AudioOf(o, []), size)
  {
  }

  /** The payload region stays silent, and a whole read leaves exactly its mapped frames in it. */
  lemma PayloadMeaning(o: Setup, s: Loop, bytes: seq<byte>)
    requires Usable(o) && Between(o, s) && |bytes| <= Request(o)
    ensures Silenced(AudioOf(o, []), Payload(o, s, bytes))
    ensures var size := OutputSize(AudioOf(o, []), |bytes|);
            && size <= DATA_MAX_SIZE
            && (WholeRead(o, bytes) ==>
                  && Payload(o, s, bytes)[..size]
                     == BytesOf(MapFrames(ReadFrames(o, bytes), o.channels, SampleWidth(o)))
                  && FramesOf(Payload(o, s, bytes)[..size], PacketChannels(o), SampleWidth(o))
                     == MapFrames(ReadFrames(o, bytes), o.channels, SampleWidth(o)))
  {
    var a, dst := AudioOf(o, s.buffer), s.packet[HEADER_SIZE..];
    ReadFits(o, s.buffer, |bytes|);
    SilentRead(a, dst, bytes);
    if WholeRead(o, bytes) {
      var k := FrameCount(|bytes|, o.stream.nbChannels, SampleWidth(o));
      JoinFramesOf(Payload(o, s, bytes)[..OutputSize(a, |bytes|)], k, PacketChannels(o), SampleWidth(o));
    }
  }

  /** A stamped size is 1 to 256 whole packet frames just when the read was whole. */
  lemma WholeReadMeaning(o: Setup, bytes: seq<byte>)
    requires Usable(o) && |bytes| <= Request(o)
    ensures var size, frame := OutputSize(AudioOf(o, []), |bytes|), FrameBytes(PacketConfig(o));
            && (WholeRead(o, bytes) <==> 1 <= size / frame <= SAMPLES_MAX_NB && size == (size / frame) * frame)
            && (WholeRead(o, bytes) ==> |ReadFrames(o, bytes)| == size / frame)
  {
    hide OutputSize, FrameBytes, FrameCount, MaxFrames, Request;
    var size, frame := OutputSize(AudioOf(o, []), |bytes|), FrameBytes(PacketConfig(o));
    var q, k := size / frame, FrameCount(|bytes|, o.stream.nbChannels, SampleWidth(o));
    ReadFits(o, [], |bytes|);
    RequestIsFrames(o);
    FrameProduct(o, q);
    FrameProduct(o, k);
    if size == q * frame {
      WholeOutputCountsFrames(AudioOf(o, []), |bytes|, q);
    }
    CountAgrees(size, frame, k, q, MaxFrames(frame));
    assert |ReadFrames(o, bytes)| == k by { CompleteFrames(o, bytes); }
  }

  lemma CompleteFrames(o: Setup, bytes: seq<byte>)
    requires Sendable(o.stream)
    ensures |ReadFrames(o, bytes)| == FrameCount(|bytes|, o.stream.nbChannels, SampleWidth(o))
  {
  }

  lemma FrameProduct(o: Setup, k: nat)
    ensures (k * PacketChannels(o)) * SampleWidth(o) == k * FrameBytes(PacketConfig(o))
  {
    Assoc(k, PacketChannels(o), SampleWidth(o));
  }

  lemma CountAgrees(size: nat, frame: nat, k: nat, q: nat, max: nat)
    requires frame > 0 && q == size / frame && size <= max * frame && max <= SAMPLES_MAX_NB
    requires size == q * frame ==> q == k
    ensures k >= 1 && size == k * frame <==> 1 <= q <= SAMPLES_MAX_NB && size == q * frame
    ensures k >= 1 && size == k * frame ==> k == q
  {
    if size == k * frame {
      DivModUnique(size, frame, k, 0);
      AtMostMax(k, max, frame);
    }
  }

  lemma AtMostMax(k: nat, max: nat, frame: nat)
    requires frame > 0 && k * frame <= max * frame
    ensures k <= max
  {
    if k > max {
      MulMono(max + 1, k, frame);
    }
  }

  lemma PacketAtWellFormed(o: Setup, i: nat, bytes: seq<byte>)
    requires Usable(o) && |bytes| <= Request(o) && KnownRate(o.stream.sampleRate) && WholeRead(o, bytes)
    requires |BytesOf(MapFrames(ReadFrames(o, bytes), o.channels, SampleWidth(o)))|
      == OutputSize(AudioOf(o, []), |bytes|)
    ensures WellFormed(PacketAt(o, i, bytes))
  {
    WholeReadMeaning(o, bytes);
  }

  /** The result that a turn leaves, `before` being the one it found: a failed read leaves it alone, a packet that fails
      the check is an invalid argument, error 22, and otherwise it is what the socket returned. */
  function TurnResult(o: Setup, t: Turn, before: int): int
    requires Sendable(o.stream)
  {
    if t.read.ReadError? then before
    else if !KnownRate(o.stream.sampleRate) || !WholeRead(o, t.read.bytes) then -22
    else t.socketRet
  }

  lemma CheckResults(name: seq<byte>, pkt: seq<byte>)
    requires |name| == STREAM_NAME_SIZE
    ensures Check(name, pkt) == 0 || Check(name, pkt) == -22
  {
    hide BitAnd, StrNEqual, FromLE32, SampleSize;
  }

  /** One turn: a good turn sends exactly the packet of its read and goes on; any other turn sends nothing and stops. */
  lemma TurnMeaning(o: Setup, s: Loop, t: Turn)
    requires Usable(o) && Shaped(o, s) && Between(o, s) && s.running && TurnOk(o, t)
    ensures var r := Step(o, s, t);
            if Good(o, t) then
              && r.running && Between(o, r)
              && WellFormed(PacketAt(o, |s.sent|, t.read.bytes))
              && r.sent == s.sent + [Encode(PacketAt(o, |s.sent|, t.read.bytes))]
            else !r.running && r.sent == s.sent
    ensures Step(o, s, t).ret == TurnResult(o, t, s.ret) && Step(o, s, t).asked == s.asked + [Request(o)]
  {
    hide Prepared, Between, Request, WholeRead, PacketAt, Check, Encode;
    if t.read.ReadBytes? {
      var bytes := t.read.bytes;
      DatagramCheck(o, s, bytes);
      CheckResults(o.name, Datagram(o, s, bytes));
      if Good(o, t) {
        DatagramContent(o, s, bytes);
        NextBetween(o, s, t);
      }
    }
  }

  /** The bytes of a turn's datagram, as far as the payload size. */
  function Datagram(o: Setup, s: Loop, bytes: seq<byte>): seq<byte>
    requires Usable(o) && Shaped(o, s) && |bytes| <= Request(o)
  {
    Prepared(o, s, bytes).1[..HEADER_SIZE + Prepared(o, s, bytes).2]
  }

  /** The payload of a turn's datagram, and its size in packet frames. */
  lemma DatagramForm(o: Setup, s: Loop, bytes: seq<byte>, q: nat)
    requires Usable(o) && Shaped(o, s) && Between(o, s) && |bytes| <= Request(o)
    requires q == OutputSize(AudioOf(o, []), |bytes|) / FrameBytes(PacketConfig(o))
    ensures OutputSize(AudioOf(o, []), |bytes|) <= DATA_MAX_SIZE
    ensures Datagram(o, s, bytes) == Header(PacketConfig(o), ToByte(q - 1), NameField(o), (|s.sent| + 1) % TWO_32)
                                     + Payload(o, s, bytes)[..OutputSize(AudioOf(o, []), |bytes|)]
  {
    hide Prepared, Payload, Header, NameField, FrameBytes, Between, OutputSize, Request, Shaped;
    PreparedMeaning(o, s, bytes, q);
    HeadOfPacket(Prepared(o, s, bytes).1, Header(PacketConfig(o), ToByte(q - 1), NameField(o), (|s.sent| + 1) % TWO_32),
                 Payload(o, s, bytes), Prepared(o, s, bytes).2);
  }

  /** The datagram of a turn passes the check just when the rate is known and the read was whole. */
  lemma DatagramCheck(o: Setup, s: Loop, bytes: seq<byte>)
    requires Usable(o) && Shaped(o, s) && Between(o, s) && |bytes| <= Request(o)
    ensures Check(o.name, Datagram(o, s, bytes)) == 0 <==> KnownRate(o.stream.sampleRate) && WholeRead(o, bytes)
  {
    hide Check, WholeRead, Payload, Datagram, Header, NameField, Between, OutputSize, Request, FrameBytes;
    var size := OutputSize(AudioOf(o, []), |bytes|);
    var q := size / FrameBytes(PacketConfig(o));
    DatagramForm(o, s, bytes, q);
    WholeReadMeaning(o, bytes);
    SameName(o);
    StampedAccepted(o.name, PacketConfig(o), NameField(o), (|s.sent| + 1) % TWO_32, Payload(o, s, bytes)[..size], q,
                    ToByte(q - 1));
  }

  /** A datagram that is sent is exactly the packet of its read. */
  lemma DatagramContent(o: Setup, s: Loop, bytes: seq<byte>)
    requires Usable(o) && Shaped(o, s) && Between(o, s) && |bytes| <= Request(o)
    requires KnownRate(o.stream.sampleRate) && WholeRead(o, bytes)
    ensures WellFormed(PacketAt(o, |s.sent|, bytes)) && Datagram(o, s, bytes) == Encode(PacketAt(o, |s.sent|, bytes))
  {
    hide WholeRead, Payload, Datagram, ReadFrames, Header, NameField, Between, OutputSize, Request, FrameBytes, BytesOf;
    var size := OutputSize(AudioOf(o, []), |bytes|);
    DatagramForm(o, s, bytes, size / FrameBytes(PacketConfig(o)));
    PayloadMeaning(o, s, bytes);
    WholeReadMeaning(o, bytes);
    PacketAtWellFormed(o, |s.sent|, bytes);
  }

  lemma HeadOfPacket(packet: seq<byte>, header: seq<byte>, payload: seq<byte>, size: nat)
    requires packet == header + payload && |header| == HEADER_SIZE && size <= |payload|
    ensures packet[..HEADER_SIZE + size] == header + payload[..size]
  {
  }

  lemma HeaderPrefix(cfg: StreamConfig, nbs: byte, name: seq<byte>, nu: nat, rest: seq<byte>)
    requires |name| == STREAM_NAME_SIZE && nu < TWO_32
    ensures var b := Header(cfg, nbs, name, nu) + rest;
            b[5] == nbs && b[..HEADER_SIZE] == Header(cfg, nbs, name, nu) && b[HEADER_SIZE..] == rest
  {
    hide LE32, RateIndex;
    HeaderFields(ToByte(RateIndex(cfg.sampleRate)), nbs, ToByte(cfg.nbChannels - 1), ToByte(cfg.bitFmt), name, nu,
                 rest);
  }

  lemma NextBetween(o: Setup, s: Loop, t: Turn)
    requires Usable(o) && Shaped(o, s) && Between(o, s) && s.running && TurnOk(o, t) && t.read.ReadBytes?
    requires Check(o.name, Datagram(o, s, t.read.bytes)) == 0
    requires t.socketRet >= 0
    ensures Between(o, Step(o, s, t))
  {
    hide Check, Payload, Prepared, NameField, OutputSize, Request, FrameBytes, Header, Silenced, FrameSize;
    var bytes := t.read.bytes;
    var (buffer, packet, size) := Prepared(o, s, bytes);
    var q := OutputSize(AudioOf(o, []), |bytes|) / FrameBytes(PacketConfig(o));
    PreparedMeaning(o, s, bytes, q);
    PayloadMeaning(o, s, bytes);
    HeaderPrefix(PacketConfig(o), ToByte(q - 1), NameField(o), (|s.sent| + 1) % TWO_32, Payload(o, s, bytes));
    assert Step(o, s, t).packet == packet;
  }

  /** The packets of a run: one for each turn until the first turn that is not good, each exactly the packet of its
      read. */
  ghost predicate SentByTurns(o: Setup, s: Loop, turns: seq<Turn>)
    requires Usable(o) && forall t :: t in turns ==> TurnOk(o, t)
  {
    && |s.sent| <= |turns|
    && (forall i: nat :: i < |s.sent| ==> SentAt(o, s.sent, turns, i))
    && (s.running <==> |s.sent| == |turns|)
    && (|s.sent| < |turns| ==> !Good(o, turns[|s.sent|]))
    && |s.asked| == (if s.running then |s.sent| else |s.sent| + 1)
    && (forall i :: 0 <= i < |s.asked| ==> s.asked[i] == Request(o))
    && s.ret == RunResult(o, turns, |s.sent|)
  }

  /** The result of a run that sent `k` packets: the last socket result, or 0 before any, and then what the turn that
      stopped the loop made of it. */
  function RunResult(o: Setup, turns: seq<Turn>, k: nat): int
    requires Sendable(o.stream) && k <= |turns|
  {
    var last := if k == 0 then 0 else turns[k - 1].socketRet;
    if k < |turns| then TurnResult(o, turns[k], last) else last
  }

  predicate SentAt(o: Setup, sent: seq<seq<byte>>, turns: seq<Turn>, i: nat)
    requires Usable(o) && i < |sent| && i < |turns|
  {
    && Good(o, turns[i])
    && WellFormed(PacketAt(o, i, turns[i].read.bytes))
    && sent[i] == Encode(PacketAt(o, i, turns[i].read.bytes))
  }

  /** Every run of the emitter, whatever the device and the socket do. */
  lemma {:induction false} EmitterRun(o: Setup, turns: seq<Turn>)
    requires Usable(o) && forall t :: t in turns ==> TurnOk(o, t)
    ensures SentByTurns(o, After(o, turns), turns)
    ensures After(o, turns).running ==> Between(o, After(o, turns))
  {
    hide Between, Good, SentAt, After, Step;
    StartsBetween(o);
    if turns == [] {
      AfterNone(o);
    } else {
      var init, t := turns[..|turns| - 1], turns[|turns| - 1];
      EmitterRun(o, init);
      AfterOneMore(o, init, t);
      var s := After(o, init);
      if s.running {
        TurnMeaning(o, s, t);
      } else {
        StoppedStep(o, s, t);
      }
      ExtendRun(o, s, Step(o, s, t), init, t);
      assert init + [t] == turns;
    }
  }

  lemma StoppedStep(o: Setup, s: Loop, t: Turn)
    requires Usable(o) && Shaped(o, s) && TurnOk(o, t) && !s.running
    ensures Step(o, s, t) == s
  {
  }

  lemma AfterNone(o: Setup)
    requires Usable(o)
    ensures After(o, []) == Start(o)
  {
  }

  lemma AfterOneMore(o: Setup, init: seq<Turn>, t: Turn)
    requires Usable(o) && (forall u :: u in init ==> TurnOk(o, u)) && TurnOk(o, t)
    ensures After(o, init + [t]) == Step(o, After(o, init), t)
  {
    hide Step;
    assert (init + [t])[..|init + [t]| - 1] == init;
  }

  lemma ResultSnoc(o: Setup, s: Loop, r: Loop, init: seq<Turn>, t: Turn)
    requires Sendable(o.stream) && |s.sent| <= |init| && s.ret == RunResult(o, init, |s.sent|)
    requires s.running <==> |s.sent| == |init|
    requires !s.running ==> r == s
    requires s.running ==> r.ret == TurnResult(o, t, s.ret)
    requires s.running ==> |r.sent| == if Good(o, t) then |s.sent| + 1 else |s.sent|
    ensures |r.sent| <= |init| + 1 && r.ret == RunResult(o, init + [t], |r.sent|)
  {
    hide WholeRead, KnownRate;
  }

  lemma ExtendRun(o: Setup, s: Loop, r: Loop, init: seq<Turn>, t: Turn)
    requires Usable(o) && (forall u :: u in init ==> TurnOk(o, u)) && TurnOk(o, t)
    requires SentByTurns(o, s, init)
    requires !s.running ==> r == s
    requires s.running ==> r.ret == TurnResult(o, t, s.ret) && r.asked == s.asked + [Request(o)]
    requires s.running ==>
      if Good(o, t) then
        && r.running && WellFormed(PacketAt(o, |s.sent|, t.read.bytes))
        && r.sent == s.sent + [Encode(PacketAt(o, |s.sent|, t.read.bytes))]
      else !r.running && r.sent == s.sent
    ensures SentByTurns(o, r, init + [t])
  {
    hide PacketAt, TurnOk, Good, Request, TurnResult;
    var turns := init + [t];
    ResultSnoc(o, s, r, init, t);
    forall i: nat | i < |r.sent|
      ensures SentAt(o, r.sent, turns, i)
    {
      if i < |s.sent| {
        assert SentAt(o, s.sent, init, i);
      }
    }
  }

  // ----- which options keep every read inside the handle's buffer

  /** The request fits the handle's buffer just when the frames of a full packet do as frames of the device; without a
      map, and with a map of at least as many entries as the device has channels, they always do. */
  lemma RequestFitsIff(o: Setup)
    requires Sendable(o.stream) && |o.channels| <= CHANNELS_MAX_NB
    ensures Request(o) <= DATA_MAX_SIZE
       <==> MaxFrames(FrameBytes(PacketConfig(o))) <= DATA_MAX_SIZE / FrameBytes(o.stream)
    ensures o.channels == [] || |o.channels| >= o.stream.nbChannels ==> Request(o) <= DATA_MAX_SIZE
  {
    hide Request, MaxFrames;
    var n := MaxFrames(FrameBytes(PacketConfig(o)));
    RequestIsFrames(o);
    Assoc(n, o.stream.nbChannels, SampleWidth(o));
    AtMostQuotient(n, FrameBytes(o.stream), DATA_MAX_SIZE);
    if o.channels != [] && |o.channels| >= o.stream.nbChannels {
      NarrowRoom(n, o.stream.nbChannels, |o.channels|, SampleWidth(o));
    }
  }

  lemma AtMostQuotient(n: nat, d: nat, limit: nat)
    requires d > 0
    ensures n * d <= limit <==> n <= limit / d
  {
    var q, r := limit / d, limit % d;
    if n <= q {
      MulMono(n, q, d);
    } else {
      MulMono(q + 1, n, d);
    }
  }

  /** Four 16-bit channels of which the list keeps the first: the device is asked for 2048 bytes, 612 more than fit. */
  lemma WideRequestExample(name: seq<byte>)
    ensures var o := Setup(StreamConfig(4, 48000, 1), [0], name);
            Sendable(PacketConfig(o)) && Request(o) == 2048 > DATA_MAX_SIZE
  {
    RequestIsFrames(Setup(StreamConfig(4, 48000, 1), [0], name));
  }

  // ----- the bytes on the wire

  /** `name` cut at 15 characters, and zeros from its end on. */
  predicate PaddedName(name: seq<byte>, field: seq<byte>)
    requires |name| == 16 && |field| == 16
  {
    field[15] == 0 && forall k :: 0 <= k < 15 ==> field[k] == if 0 in name[..k + 1] then 0 else name[k]
  }

  predicate LowestFirst(n: nat, b: seq<byte>)
    requires |b| == 4
  {
    && b[0] as nat == n % 256 && b[1] as nat == n / 256 % 256
    && b[2] as nat == n / 256 / 256 % 256 && b[3] as nat == n / 256 / 256 / 256 % 256
  }

  /** A packet byte by byte: the magic, the code of a standard rate, the counts minus one, the format, the name cut at
      15 characters and padded with zeros, and the number of the packet (from 1) with its lowest byte first. */
  predicate OnTheWire(o: Setup, i: nat, frames: nat, b: seq<byte>)
    requires |o.name| == STREAM_NAME_SIZE
  {
    var n := (i + 1) % TWO_32;
    && |b| > 28 && b[0] == 0x56 && b[1] == 0x42 && b[2] == 0x41 && b[3] == 0x4E
    && b[4] < 21 && StandardRate(b[4] as nat) == o.stream.sampleRate
    && b[5] as nat + 1 == frames && b[6] as nat + 1 == PacketChannels(o) && b[7] as nat == o.stream.bitFmt
    && PaddedName(o.name, b[8..24]) && LowestFirst(n, b[24..28])
  }

  /** Every packet of every run, byte by byte. */
  lemma WireHeader(o: Setup, turns: seq<Turn>, i: nat)
    requires Usable(o) && (forall t :: t in turns ==> TurnOk(o, t)) && i < |After(o, turns).sent|
    ensures i < |turns| && turns[i].read.ReadBytes?
    ensures OnTheWire(o, i, |ReadFrames(o, turns[i].read.bytes)|, After(o, turns).sent[i])
  {
    hide After, TurnOk, SentAt, Encode, Good, OnTheWire, PacketAt, ReadFrames;
    EmitterRun(o, turns);
    assert SentAt(o, After(o, turns).sent, turns, i);
    SentIsEncoded(o, After(o, turns).sent, turns, i);
    SentRateKnown(o, After(o, turns).sent, turns, i);
    GoodReads(o, turns[i]);
    WirePacket(o, i, turns[i].read.bytes);
  }

  lemma WirePacket(o: Setup, i: nat, bytes: seq<byte>)
    requires Sendable(o.stream) && |o.name| == STREAM_NAME_SIZE
    requires WellFormed(PacketAt(o, i, bytes)) && KnownRate(o.stream.sampleRate)
    ensures OnTheWire(o, i, |ReadFrames(o, bytes)|, Encode(PacketAt(o, i, bytes)))
  {
    hide Encode, WellFormed, RateIndex, StandardRate, NameField, BytesOf, ReadFrames, PaddedName, LowestFirst;
    var p := PacketAt(o, i, bytes);
    EncodedBytes(p);
    CodeOf(o.stream.sampleRate);
    FieldIsPadded(o);
  }

  lemma FieldIsPadded(o: Setup)
    requires |o.name| == STREAM_NAME_SIZE
    ensures PaddedName(o.name, NameField(o))
  {
    hide StrNCopy;
    forall k | 0 <= k < 15
      ensures NameField(o)[k] == if 0 in o.name[..k + 1] then 0 else o.name[k]
    {
      StrNCopyAt(o.name, 15, k);
    }
  }

  lemma CodeOf(rate: nat)
    requires KnownRate(rate)
    ensures RateIndex(rate) < 21 && StandardRate(RateIndex(rate)) == rate
  {
    RateAtIndex(rate);
    RateCodes(RateIndex(rate));
  }

  lemma GoodReads(o: Setup, t: Turn)
    requires Sendable(o.stream) && Good(o, t)
    ensures t.read.ReadBytes?
  {
  }

  /** An encoded packet, byte by byte. */
  lemma EncodedBytes(p: AudioPacket)
    requires WellFormed(p)
    ensures var b := Encode(p);
            && |b| > 28 && b[0] == 0x56 && b[1] == 0x42 && b[2] == 0x41 && b[3] == 0x4E
            && b[4] as nat == RateIndex(p.cfg.sampleRate) && b[5] as nat + 1 == p.frames
            && b[6] as nat + 1 == p.cfg.nbChannels && b[7] as nat == p.cfg.bitFmt
            && b[8..24] == p.name && LowestFirst(p.nu, b[24..28])
  {
    hide RateIndex, SampleSize;
    MulMono(1, p.frames, FrameBytes(p.cfg));
    assert LE32(HEADER_FOURC) == [0x56, 0x42, 0x41, 0x4E];
    assert Encode(p)[24..28] == LE32(p.nu);
  }

  /** With the default options, two 16-bit channels at 44100 Hz, every packet starts with the same bytes but one. */
  lemma DefaultWireHeader(o: Setup, turns: seq<Turn>, i: nat)
    requires Usable(o) && (forall t :: t in turns ==> TurnOk(o, t)) && i < |After(o, turns).sent|
    requires o.stream == StreamConfig(2, 44100, 1) && o.channels == []
    ensures |After(o, turns).sent[i]| > 28 && i < |turns| && turns[i].read.ReadBytes?
    ensures |ReadFrames(o, turns[i].read.bytes)| == After(o, turns).sent[i][5] as nat + 1
    ensures After(o, turns).sent[i][..8]
         == [0x56, 0x42, 0x41, 0x4E, 0x10, After(o, turns).sent[i][5], 0x01, 0x01]
  {
    hide After, TurnOk, ReadFrames, Usable, StandardRate;
    WireHeader(o, turns, i);
    DefaultCode(After(o, turns).sent[i][4] as nat);
  }

  lemma DefaultCode(code: nat)
    requires code < 21 && StandardRate(code) == 44100
    ensures code == 16
  {
    hide RateAt, RateIndex, StandardRate;
    RateCodes(code);
    RateCodes(16);
    assert StandardRate(16) == 44100 by { DefaultRate(); }
  }

  lemma DefaultRate()
    ensures StandardRate(16) == 44100
  {
    SevenPowers();
  }

  // ----- which device reads are sent

  /** Every positive whole-frame read is sent. */
  lemma WholeFramesAreSent(o: Setup, bytes: seq<byte>, k: nat)
    requires Usable(o) && k >= 1 && WholeFrames(bytes, k, o.stream.nbChannels, SampleWidth(o))
    ensures WholeRead(o, bytes) && |ReadFrames(o, bytes)| == k
  {
    ScalingCancels(AudioOf(o, []), k);
    WholeFramesCount(bytes, k, o.stream.nbChannels, SampleWidth(o));
  }

  /** The bytes of a read after its last complete frame. */
  function Leftover(o: Setup, bytes: seq<byte>): nat
    requires Sendable(o.stream)
  {
    SourceRoom(|bytes|, o.stream.nbChannels, SampleWidth(o));
    |bytes| - (|ReadFrames(o, bytes)| * o.stream.nbChannels) * SampleWidth(o)
  }

  /** Exactly which reads are sent: one complete frame at least, and so few bytes left over that their scaled size is
      zero; without a map that means none. */
  lemma SentReadsExactly(o: Setup, bytes: seq<byte>)
    requires Usable(o)
    ensures WholeRead(o, bytes) <==>
      && |ReadFrames(o, bytes)| >= 1
      && (if o.channels == [] then Leftover(o, bytes) == 0
          else Leftover(o, bytes) * |o.channels| < o.stream.nbChannels)
  {
    var n, w, k := o.stream.nbChannels, SampleWidth(o), |ReadFrames(o, bytes)|;
    CompleteFrames(o, bytes);
    if o.channels != [] {
      SourceRoom(|bytes|, n, w);
      FloorIsExact(|bytes|, Leftover(o, bytes), |o.channels|, n, w, k);
    }
  }

  lemma FloorIsExact(size: nat, left: nat, m: nat, n: nat, w: nat, k: nat)
    requires n > 0 && size == (k * n) * w + left
    ensures (size * m) / n == (k * m) * w <==> left * m < n
  {
    var low := (k * n) * w;
    ScaleProduct(k, m, n, w);
    assert size * m == low * m + left * m;
    if left * m < n {
      DivModUnique(size * m, n, (k * m) * w, left * m);
    }
  }

  /** A rate that is not in the table is never sent: the first turn stops the loop. */
  lemma UnknownRateSendsNothing(o: Setup, turns: seq<Turn>)
    requires Usable(o) && (forall t :: t in turns ==> TurnOk(o, t)) && o.stream.sampleRate !in SR_LIST
    ensures After(o, turns).sent == [] && (turns != [] ==> !After(o, turns).running)
  {
    hide After, TurnOk, SentAt, Good;
    EmitterRun(o, turns);
    if After(o, turns).sent != [] {
      SentRateKnown(o, After(o, turns).sent, turns, 0);
    }
    RateNotKnown(o.stream.sampleRate);
  }

  lemma SentRateKnown(o: Setup, sent: seq<seq<byte>>, turns: seq<Turn>, i: nat)
    requires Usable(o) && i < |sent| && i < |turns| && SentAt(o, sent, turns, i)
    ensures KnownRate(o.stream.sampleRate)
  {
  }

  lemma RateNotKnown(rate: nat)
    requires rate !in SR_LIST
    ensures !KnownRate(rate)
  {
    KnownRateMeaning(rate);
  }

  /** Four 8-bit channels of which the list keeps the first, and a device read of one frame and one byte: the packet is
      sent with the first frame's sample, and the fifth byte is lost. Without the map the same read ends the run. */
  lemma PartialReadExample(name: seq<byte>, bytes: seq<byte>, socketRet: int)
    requires |name| == STREAM_NAME_SIZE && name[STREAM_NAME_SIZE - 1] == 0 && |bytes| == 5 && socketRet >= 0
    ensures var o, turns := Setup(StreamConfig(4, 48000, 0), [0], name), [Turn(ReadBytes(bytes), socketRet)];
            && Usable(o) && TurnOk(o, turns[0])
            && After(o, turns).running && |After(o, turns).sent| == 1
            && |After(o, turns).sent[0]| == HEADER_SIZE + 1 && After(o, turns).sent[0][HEADER_SIZE] == bytes[0]
    ensures var o, turns := Setup(StreamConfig(4, 48000, 0), [], name), [Turn(ReadBytes(bytes), socketRet)];
            && Usable(o) && TurnOk(o, turns[0])
            && !After(o, turns).running && After(o, turns).sent == []
  {
    var t := Turn(ReadBytes(bytes), socketRet);
    MappedPartialRead(Setup(StreamConfig(4, 48000, 0), [0], name), t);
    PlainPartialRead(Setup(StreamConfig(4, 48000, 0), [], name), t);
  }

  lemma MappedPartialRead(o: Setup, t: Turn)
    requires o.stream == StreamConfig(4, 48000, 0) && o.channels == [0]
    requires |o.name| == STREAM_NAME_SIZE && o.name[STREAM_NAME_SIZE - 1] == 0
    requires t.read.ReadBytes? && |t.read.bytes| == 5 && t.socketRet >= 0
    ensures Usable(o) && TurnOk(o, t)
    ensures After(o, [t]).running && |After(o, [t]).sent| == 1
    ensures |After(o, [t]).sent[0]| == HEADER_SIZE + 1 && After(o, [t]).sent[0][HEADER_SIZE] == t.read.bytes[0]
  {
    hide After, WholeRead, TurnOk, Encode, PacketAt, Usable, KnownRate, ReadFrames, Leftover, SentAt;
    PartialSetup(o, t);
    SentReadsExactly(o, t.read.bytes);
    EmitterRun(o, [t]);
    PartialGood(o, t);
    var sent := After(o, [t]).sent;
    SentIsEncoded(o, sent, [t], 0);
    EncodedParts(PacketAt(o, 0, t.read.bytes));
    PartialPayload(o, t.read.bytes);
    assert sent[0][HEADER_SIZE..][0] == sent[0][HEADER_SIZE];
  }

  lemma SentIsEncoded(o: Setup, sent: seq<seq<byte>>, turns: seq<Turn>, i: nat)
    requires Usable(o) && i < |sent| && i < |turns| && SentAt(o, sent, turns, i)
    ensures Good(o, turns[i]) && WellFormed(PacketAt(o, i, turns[i].read.bytes))
    ensures sent[i] == Encode(PacketAt(o, i, turns[i].read.bytes))
  {
  }

  lemma PlainPartialRead(o: Setup, t: Turn)
    requires o.stream == StreamConfig(4, 48000, 0) && o.channels == []
    requires |o.name| == STREAM_NAME_SIZE && o.name[STREAM_NAME_SIZE - 1] == 0
    requires t.read.ReadBytes? && |t.read.bytes| == 5 && t.socketRet >= 0
    ensures Usable(o) && TurnOk(o, t)
    ensures !After(o, [t]).running && After(o, [t]).sent == []
  {
    hide After, WholeRead, TurnOk, Encode, PacketAt, Good, Usable, KnownRate, ReadFrames, Leftover, SentAt;
    PartialSetup(o, t);
    EmitterRun(o, [t]);
    if After(o, [t]).sent != [] {
      SentIsEncoded(o, After(o, [t]).sent, [t], 0);
    }
    SentReadsExactly(o, t.read.bytes);
    PartialGood(o, t);
  }

  lemma PartialSetup(o: Setup, t: Turn)
    requires o.stream == StreamConfig(4, 48000, 0) && (o.channels == [0] || o.channels == [])
    requires |o.name| == STREAM_NAME_SIZE && o.name[STREAM_NAME_SIZE - 1] == 0
    requires t.read.ReadBytes? && |t.read.bytes| == 5 && t.socketRet >= 0
    ensures Usable(o) && TurnOk(o, t)
    ensures |ReadFrames(o, t.read.bytes)| == 1 && Leftover(o, t.read.bytes) == 1
  {
    RequestIsFrames(o);
    CompleteFrames(o, t.read.bytes);
  }

  lemma PartialGood(o: Setup, t: Turn)
    requires Sendable(o.stream) && o.stream.sampleRate == 48000 && t.read.ReadBytes? && t.socketRet >= 0
    ensures Good(o, t) <==> WholeRead(o, t.read.bytes)
  {
    CommonRatesKnown();
  }

  lemma PartialPayload(o: Setup, bytes: seq<byte>)
    requires o.stream == StreamConfig(4, 48000, 0) && o.channels == [0] && |bytes| == 5
    ensures PacketAt(o, 0, bytes).payload == [bytes[0]]
  {
    var frs := ReadFrames(o, bytes);
    assert FrameCount(5, 4, 1) == 1;
    FramesAt(bytes, 4, 1, 0, 0);
    assert frs[0][0] == [bytes[0]];
    var mapped := MapFrames(frs, [0], 1);
    assert |frs| == 1;
    assert mapped[0] == [[bytes[0]]];
    assert mapped == [[[bytes[0]]]];
    assert JoinFrames(mapped[..0]) == [] && JoinFrames(mapped) == [[bytes[0]]];
    assert JoinSlots([[bytes[0]]][..0]) == [] && JoinSlots([[bytes[0]]]) == [bytes[0]];
  }

  // ----- consequences for the receiving side

  /** The frames of a packet are the mapped frames of the read behind it. */
  lemma PayloadFrames(o: Setup, i: nat, bytes: seq<byte>)
    requires Usable(o) && |bytes| <= Request(o) && WholeRead(o, bytes)
    ensures |PacketAt(o, i, bytes).payload| <= DATA_MAX_SIZE
    ensures WholeFrames(PacketAt(o, i, bytes).payload, |ReadFrames(o, bytes)|, PacketChannels(o), SampleWidth(o))
    ensures FramesOf(PacketAt(o, i, bytes).payload, PacketChannels(o), SampleWidth(o))
         == MapFrames(ReadFrames(o, bytes), o.channels, SampleWidth(o))
  {
    StartsBetween(o);
    PayloadMeaning(o, Start(o), bytes);
    CompleteFrames(o, bytes);
  }

  /** The `i`-th packet of a run (from 0): it passes the check, fits a datagram, is numbered `i + 1` and keeps its
      stream. */
  lemma SentPacket(o: Setup, sent: seq<seq<byte>>, turns: seq<Turn>, i: nat)
    requires Usable(o) && i < |sent| && i < |turns| && TurnOk(o, turns[i]) && SentAt(o, sent, turns, i)
    ensures HEADER_SIZE < |sent[i]| <= PROTOCOL_MAX_SIZE
    ensures Check(o.name, sent[i]) == 0
    ensures Decode(sent[i]).nu == (i + 1) % TWO_32 && Decode(sent[i]).name == NameField(o)
    ensures BitAnd(sent[i][4] as nat, SR_MASK) < SR_MAXNUMBER && GetStreamConfig(sent[i]) == PacketConfig(o)
    ensures FramesOf(sent[i][HEADER_SIZE..], PacketChannels(o), SampleWidth(o))
         == MapFrames(ReadFrames(o, turns[i].read.bytes), o.channels, SampleWidth(o))
  {
    hide Check, Encode, Decode, Request;
    var p := PacketAt(o, i, turns[i].read.bytes);
    PayloadFrames(o, i, turns[i].read.bytes);
    SameName(o);
    EncodedAccepted(o.name, p);
    DecodeEncode(p);
    EncodedParts(p);
  }

  /** The complete frames of the reads behind the first `k` packets. */
  function FramesRead(o: Setup, turns: seq<Turn>, k: nat): seq<Frame>
    requires Sendable(o.stream) && k <= |turns| && forall i: nat :: i < k ==> turns[i].read.ReadBytes?
  {
    if k == 0 then [] else FramesRead(o, turns, k - 1) + ReadFrames(o, turns[k - 1].read.bytes)
  }

  /** The frames of the first `k` payloads. */
  function FramesSent(o: Setup, sent: seq<seq<byte>>, k: nat): seq<Frame>
    requires Sendable(PacketConfig(o)) && k <= |sent| && forall i: nat :: i < k ==> |sent[i]| >= HEADER_SIZE
  {
    if k == 0 then []
    else FramesSent(o, sent, k - 1) + FramesOf(sent[k - 1][HEADER_SIZE..], PacketChannels(o), SampleWidth(o))
  }

  lemma SentParts(o: Setup, sent: seq<seq<byte>>, turns: seq<Turn>, i: nat)
    requires Usable(o) && i < |sent| && i < |turns| && SentAt(o, sent, turns, i)
    ensures turns[i].read.ReadBytes? && |sent[i]| >= HEADER_SIZE
  {
  }

  /** Payload conservation: the payloads of a run, in order, are the mapped frames of the device, in order. */
  lemma {:induction false} PayloadConservation(o: Setup, sent: seq<seq<byte>>, turns: seq<Turn>, k: nat)
    requires Usable(o) && k <= |sent| && k <= |turns| && forall t :: t in turns ==> TurnOk(o, t)
    requires forall i: nat :: i < k ==> SentAt(o, sent, turns, i)
    ensures forall i: nat :: i < k ==> turns[i].read.ReadBytes? && |sent[i]| >= HEADER_SIZE
    ensures FramesSent(o, sent, k) == MapFrames(FramesRead(o, turns, k), o.channels, SampleWidth(o))
  {
    hide SentAt, ReadFrames, MapFrames, Decode, Check, TurnOk, GetStreamConfig, Request;
    forall i: nat | i < k
      ensures turns[i].read.ReadBytes? && |sent[i]| >= HEADER_SIZE
    {
      SentParts(o, sent, turns, i);
    }
    if k > 0 {
      PayloadConservation(o, sent, turns, k - 1);
      SentPacket(o, sent, turns, k - 1);
      MapFramesConcat(FramesRead(o, turns, k - 1), ReadFrames(o, turns[k - 1].read.bytes), o.channels, SampleWidth(o));
    }
  }
}
