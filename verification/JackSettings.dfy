/** The JACK backend at the receptor's buffer sizes: alignment of the preroll, and starvation. */
module JackSettings {
  import opened Bytes
  import opened Frames
  import opened Protocol
  import opened PacketProofs
  import opened Packet
  import opened EndToEnd
  import JackRing
  import JF = JackFlow

  // ----- the ring of each quality

  lemma {:induction false} PowerMono(j: nat, k: nat)
    requires j <= k
    ensures Pow2(j) <= Pow2(k)
  {
    if j < k {
      PowerMono(j, k - 1);
    }
  }

  /** The ring size for a request between two powers of two. */
  lemma RingIs(size: nat, k: nat)
    requires k > 0 && Pow2(k - 1) < size <= Pow2(k)
    ensures JackRing.RingSize(size) == Pow2(k)
  {
    var r := JackRing.RingSize(size);
    var j: nat :| r == Pow2(j);
    if j < k {
      PowerMono(j, k - 1);
    } else if k < j {
      PowerMono(k + 1, j);
    } else {
      assert j == k;
    }
  }

  lemma {:induction false} PowerAdd(j: nat, k: nat)
    ensures Pow2(j + k) == Pow2(j) * Pow2(k)
  {
    if j > 0 {
      PowerAdd(j - 1, k);
      Assoc(2, Pow2(j - 1), Pow2(k));
    }
  }

  lemma SmallPowers()
    ensures Pow2(0) == 1 && Pow2(1) == 2 && Pow2(11) == 2048 && Pow2(12) == 4096
  {
  }

  /** The ring that a first open at a quality creates. */
  function QualityRing(quality: byte): (size: nat)
    ensures size > R.DeviceBufferSize(quality)
  {
    if quality <= 4 then 4096 * Pow2(quality as nat) else 4096
  }

  lemma RingOfQuality(quality: byte)
    ensures JackRing.RingSize(2 * R.DeviceBufferSize(quality)) == QualityRing(quality)
  {
    hide JackRing.RingSize;
    SmallPowers();
    if quality <= 4 {
      var q := quality as nat;
      PowerAdd(11, q);
      PowerAdd(12, q);
      RingIs(2 * R.DeviceBufferSize(quality), 12 + q);
    } else {
      RingIs(2 * R.DeviceBufferSize(quality), 12);
    }
  }

  lemma QualityRingLarge(quality: byte)
    ensures QualityRing(quality) >= 4096
  {
    PowerMono(0, quality as nat);
  }

  // ----- alignment

  lemma DeviceBufferLarge(quality: byte)
    ensures R.DeviceBufferSize(quality) >= PROTOCOL_MAX_SIZE
  {
    PowerMono(0, quality as nat);
  }

  /** With the receptor's buffer size, the first open keeps every channel on its own port just when that size is whole
      frames. */
  lemma FirstOpenAlignment(s: J.JackState, quality: byte, period: nat, cfg: StreamConfig)
    requires s.nbChannels == 0 && Sendable(cfg)
    ensures var o := J.OpenState(s, R.DeviceBufferSize(quality), period, cfg);
            && JP.Plays(o)
            && ((forall es :: JP.WholeWrites(o, es) ==> JP.InPlace(o, es))
                <==> R.DeviceBufferSize(quality) % FrameBytes(cfg) == 0)
  {
    hide JP.WholeWrites, JP.InPlace;
    var o := J.OpenState(s, R.DeviceBufferSize(quality), period, cfg);
    FirstOpen(s, quality, period, cfg);
    FrameBound(cfg);
    QualityRingLarge(quality);
    JP.InPlaceIffAligned(o, R.DeviceBufferSize(quality));
  }

  lemma FirstOpen(s: J.JackState, quality: byte, period: nat, cfg: StreamConfig)
    requires s.nbChannels == 0 && Sendable(cfg)
    ensures var o := J.OpenState(s, R.DeviceBufferSize(quality), period, cfg);
            && JP.Plays(o) && o.isOpen && o.nbChannels == cfg.nbChannels && o.fmt == cfg.bitFmt
            && o.contents == Zeros(R.DeviceBufferSize(quality)) && o.capacity == QualityRing(quality) - 1
  {
    JP.FirstBufferSize(R.DeviceBufferSize(quality), period, cfg.bitFmt);
    DeviceBufferLarge(quality);
    RingOfQuality(quality);
    JP.OpenFits(s, R.DeviceBufferSize(quality), period, cfg);
  }

  lemma FrameBound(cfg: StreamConfig)
    requires Sendable(cfg)
    ensures 0 < cfg.nbChannels * SampleSize(cfg.bitFmt) <= 2048
  {
    MulMono(cfg.nbChannels, CHANNELS_MAX_NB, SampleSize(cfg.bitFmt));
  }

  /** A packet of 143 frames of five 16-bit channels, the size the emitter fills: ones on channel 0 of the first frame,
      twos on its other channels, and zeros. */
  function MarkedPacket(): (data: seq<byte>)
    ensures |data| == 1430
  {
    JP.Marked(5, 2) + Zeros(1420)
  }

  /** A callback of 256 frames, two such packets, and a callback of 256 frames. */
  function FiveChannelRun(): seq<JP.Event> {
    [JP.Callback(256)] + [JP.Write(MarkedPacket())] + [JP.Write(MarkedPacket())] + [JP.Callback(256)]
  }

  /** Five 16-bit channels at the default quality and a JACK period of 256 frames: the preroll is 307 frames and one
      sample, and the ones of channel 0 come out on port 1, whose own sample holds twos. */
  lemma FiveChannelsRotate(s: J.JackState)
    requires s.nbChannels == 0
    ensures var five := J.OpenState(s, R.DeviceBufferSize(1), 256, StreamConfig(5, 48000, 1));
            var es := FiveChannelRun();
            && JP.Plays(five) && JP.WholeWrites(five, es)
            && |JP.AcceptedFrames(five, es)| == 286 && |JP.AcceptedFrames(five, es)[0]| == 5
            && JP.AcceptedFrames(five, es)[0][0] == [1, 1] && JP.AcceptedFrames(five, es)[0][1] == [2, 2]
            && |JP.PortFrames(five, es)| == 512 && |JP.PortFrames(five, es)[307]| == 5
            && JP.PortFrames(five, es)[307][1] == [1, 1]
  {
    hide JP.WholeWrites, JP.PortFrames, JP.AcceptedFrames;
    FirstOpen(s, 1, 256, StreamConfig(5, 48000, 1));
    DefaultBuffer();
    RotatedRun(J.OpenState(s, R.DeviceBufferSize(1), 256, StreamConfig(5, 48000, 1)));
  }

  lemma RotatedRun(five: J.JackState)
    requires JP.Plays(five) && five.isOpen && five.nbChannels == 5 && five.fmt == 1
    requires five.contents == Zeros(3072) && five.capacity == 8191
    ensures var es := FiveChannelRun();
            && JP.WholeWrites(five, es)
            && |JP.AcceptedFrames(five, es)| == 286 && |JP.AcceptedFrames(five, es)[0]| == 5
            && JP.AcceptedFrames(five, es)[0][0] == [1, 1] && JP.AcceptedFrames(five, es)[0][1] == [2, 2]
            && |JP.PortFrames(five, es)| == 512 && |JP.PortFrames(five, es)[307]| == 5
            && JP.PortFrames(five, es)[307][1] == [1, 1]
  {
    hide JP.Accepted, JP.Consumed, FramesOf, JP.Marked, JP.Run, MarkedPacket, FiveChannelRun, JP.WholeWrites;
    var es := FiveChannelRun();
    FiveChannelEvents(five);
    JP.AllDeliveredIff(five, es);
    JP.ConsumedWhole(five, es);
    TwoPacketFrames();
    JP.ChannelRotation(five, es, 1536, 0, 0, 307, 1);
  }

  /** All is stored and delivered in that run. */
  lemma FiveChannelEvents(five: J.JackState)
    requires JP.Plays(five) && five.isOpen && five.nbChannels == 5 && five.fmt == 1
    requires five.contents == Zeros(3072) && five.capacity == 8191
    ensures var es := FiveChannelRun();
            && JP.WholeWrites(five, es) && JP.Roomy(five, es) && JP.Served(five, es) && JP.Asked(es) == 512
            && JP.Accepted(five, es) == MarkedPacket() + MarkedPacket()
  {
    hide JP.Marked, MarkedPacket, JP.Accepted, JP.Run;
    var x := MarkedPacket();
    var e0, e1 := [JP.Callback(256)], [JP.Callback(256)] + [JP.Write(x)];
    var e2 := e1 + [JP.Write(x)];
    FiveChannelLevels(five, x, e0, e1, e2, FiveChannelRun());
    JP.RoomyKeepsAll(five, FiveChannelRun());
    JP.AcceptedAreKept(five, FiveChannelRun());
    JoinTwo(x);
  }

  lemma FiveChannelLevels(five: J.JackState, x: seq<byte>, e0: seq<JP.Event>, e1: seq<JP.Event>, e2: seq<JP.Event>,
                          e3: seq<JP.Event>)
    requires JP.Plays(five) && five.nbChannels == 5 && five.fmt == 1 && |five.contents| == 3072 && five.capacity == 8191
    requires |x| == 1430 && e0 == [JP.Callback(256)] && e1 == e0 + [JP.Write(x)] && e2 == e1 + [JP.Write(x)]
    requires e3 == e2 + [JP.Callback(256)]
    ensures JP.WholeWrites(five, e3) && JP.Roomy(five, e3) && JP.Served(five, e3) && JP.Asked(e3) == 512
    ensures JP.WritesOf(e3) == [x, x]
  {
    assert J.Need(five, 256) == 2560;
    WholeFramesCount(x, 143, 5, 2);
    assert JP.HasCallback(e0) by { assert e0[0].Callback?; }
    assert JP.HasCallback(e1) by { assert e1[0].Callback?; }
    hide J.Need, JP.HasCallback;
    JP.SizesNone(five);
    assert [] + [JP.Callback(256)] == e0;
    JP.SizesSnoc(five, [], JP.Callback(256));
    JP.SizesSnoc(five, e0, JP.Write(x));
    JP.SizesSnoc(five, e1, JP.Write(x));
    JP.SizesSnoc(five, e2, JP.Callback(256));
  }

  lemma JoinTwo(x: seq<byte>)
    ensures JoinSlots(JP.Pick([x, x], JP.UpTo(2))) == x + x
  {
    var both := JP.Pick([x, x], JP.UpTo(2));
    assert both == [x, x] && both[..1] == [x] && [x][..0] == [];
    assert JoinSlots([]) == [] && JoinSlots([x]) == x;
  }

  lemma TwoPacketFrames()
    ensures var frs := FramesOf(MarkedPacket() + MarkedPacket(), 5, 2);
            |frs| == 286 && |frs[0]| == 5 && frs[0][0] == [1, 1] && frs[0][1] == [2, 2]
  {
    hide JP.Marked;
    var rest := Zeros(1420) + MarkedPacket();
    assert MarkedPacket() + MarkedPacket() == JP.Marked(5, 2) + rest;
    JP.MarkedFrame(5, 2);
    FramesConcat(JP.Marked(5, 2), rest, 1, 5, 2);
    WholeFramesCount(rest, 285, 5, 2);
    assert FramesOf(JP.Marked(5, 2), 5, 2)[0][0] == [1, 1];
    assert FramesOf(JP.Marked(5, 2), 5, 2)[0][1] == [2, 2];
  }

  /** Two channels of the same format stay in place in every run. */
  lemma TwoChannelsStay(s: J.JackState, period: nat, es: seq<JP.Event>)
    requires s.nbChannels == 0
    ensures var two := J.OpenState(s, R.DeviceBufferSize(1), period, StreamConfig(2, 48000, 1));
            JP.Plays(two) && (JP.WholeWrites(two, es) ==> JP.InPlace(two, es))
  {
    hide JP.WholeWrites, JP.InPlace;
    FirstOpenAlignment(s, 1, period, StreamConfig(2, 48000, 1));
    DefaultBuffer();
  }

  lemma DefaultBuffer()
    ensures R.DeviceBufferSize(1) == 3072 && QualityRing(1) == 8192
    ensures FrameBytes(StreamConfig(2, 48000, 1)) == 4
  {
    SmallPowers();
  }

  // ----- the preroll of a reopen

  /** Two 16-bit channels at the default quality and a period of 1024 frames, reopened after two channels: 4096 bytes of
      silence in a ring of 8192. */
  lemma StereoReopen(s: J.JackState)
    requires s.nbChannels == 2
    ensures var o := J.OpenState(s, R.DeviceBufferSize(1), 1024, StreamConfig(2, 48000, 1));
            o.contents == Zeros(4096) && o.capacity == 8191
  {
    hide JackRing.RingSize;
    DefaultBuffer();
    assert Pow2(12) == 4096 && Pow2(13) == 8192;
    RingIs(8192, 13);
  }

  // ----- starvation with full packets

  /** The frames of a full packet of the emitter. */
  function FullFrames(e: E.Setup): nat
    requires E.Usable(e)
  {
    MaxFrames(FrameBytes(E.PacketConfig(e)))
  }

  lemma FullFramesPositive(e: E.Setup, r: R.Setup)
    requires E.Usable(e)
    ensures FrameBytes(E.PacketConfig(e)) <= DATA_MAX_SIZE ==>
      (FullFrames(e) * OutWidth(e, r)) * EP.SampleWidth(e) > 0
  {
    hide MaxFrames, FrameBytes, OutWidth;
    if FrameBytes(E.PacketConfig(e)) <= DATA_MAX_SIZE {
      WidthPositive(e, r);
      MaxPayloadIsMaximal(FrameBytes(E.PacketConfig(e)));
      assert PacketProofs.Fits(1, FrameBytes(E.PacketConfig(e)));
      PositiveProduct(FullFrames(e), OutWidth(e, r), EP.SampleWidth(e));
    }
  }

  lemma PositiveProduct(k: nat, n: nat, w: nat)
    requires k > 0 && n > 0 && w > 0
    ensures (k * n) * w > 0
  {
    var kn := k * n;
    assert kn > 0;
    assert kn * w > 0;
  }

  /** The device write of a full packet of the emitter, in bytes; it is positive if a frame fits into a packet. */
  function FullPacket(e: E.Setup, r: R.Setup): (size: nat)
    requires E.Usable(e)
    ensures FrameBytes(E.PacketConfig(e)) <= DATA_MAX_SIZE ==> size > 0
  {
    FullFramesPositive(e, r);
    (FullFrames(e) * OutWidth(e, r)) * EP.SampleWidth(e)
  }

  /** The bytes of a JACK period. */
  function PeriodBytes(e: E.Setup, r: R.Setup, period: nat): nat {
    period * OutWidth(e, r) * EP.SampleWidth(e)
  }

  lemma FirstOpened(e: E.Setup, r: R.Setup, before: J.JackState, quality: byte, period: nat)
    requires E.Usable(e) && before.nbChannels == 0
    ensures var s := OpenedBy(e, r, before, quality, period);
            && JP.Plays(s) && JF.Ready(s) && s.nbChannels == OutWidth(e, r) && s.fmt == e.stream.bitFmt
            && s.contents == Zeros(R.DeviceBufferSize(quality)) && s.capacity == QualityRing(quality) - 1
            && R.DeviceBufferSize(quality) <= QualityRing(quality) - 1
            && J.Need(s, period) == PeriodBytes(e, r, period)
  {
    hide JackRing.RingSize, R.DeviceBufferSize, SampleSize;
    OpenedPlays(e, r, before, quality, period);
    JP.FirstBufferSize(R.DeviceBufferSize(quality), period, e.stream.bitFmt);
    RingOfQuality(quality);
  }

  /** A first open at a quality, with callbacks of one JACK period and full packets of the emitter: whether a callback
      ever delivers, and whether play can always go on. A frame must fit into a packet, or no packet is ever sent. */
  lemma FirstOpenPlaysIff(e: E.Setup, r: R.Setup, before: J.JackState, quality: byte, period: nat)
    requires E.Usable(e) && before.nbChannels == 0 && FrameBytes(E.PacketConfig(e)) <= DATA_MAX_SIZE
    ensures JF.Gcd(FullPacket(e, r), PeriodBytes(e, r, period)) > 0
    ensures var s, d, n := OpenedBy(e, r, before, quality, period), FullPacket(e, r), PeriodBytes(e, r, period);
            var preroll, capacity, g := R.DeviceBufferSize(quality), QualityRing(quality) - 1, JF.Gcd(d, n);
            && (JF.CanDeliver(s, d, period) <==> n <= JF.Top(preroll, capacity, d))
            && (JF.NeverStarves(s, d, period) <==> n + d - g + preroll % g <= capacity)
  {
    hide JF.CanDeliver, JF.NeverStarves, JF.Top, JF.Gcd, OpenedBy, J.Need, R.DeviceBufferSize, QualityRing;
    FirstOpened(e, r, before, quality, period);
    var s := OpenedBy(e, r, before, quality, period);
    JF.FirstDeliveryIff(s, FullPacket(e, r), period);
    JF.NeverStarvesIff(s, FullPacket(e, r), period);
  }

  /** Every read of the emitter's device fills the request. */
  predicate FullReads(e: E.Setup, eturns: seq<E.Turn>)
    requires E.Usable(e)
  {
    forall t :: t in eturns && t.read.ReadBytes? ==> |t.read.bytes| == E.Request(e)
  }

  predicate OnePeriod(es: seq<JP.Event>, period: nat) {
    forall ev :: ev in es && ev.Callback? ==> ev.nframes == period
  }

  lemma FullReadFrames(e: E.Setup, bytes: seq<byte>)
    requires E.Usable(e) && |bytes| == E.Request(e)
    ensures |EP.ReadFrames(e, bytes)| == FullFrames(e)
  {
    hide MaxFrames, E.Request;
    E.RequestIsFrames(e);
    WholeFramesCount(bytes, FullFrames(e), e.stream.nbChannels, EP.SampleWidth(e));
  }

  lemma FullWrite(e: E.Setup, r: R.Setup, eturns: seq<E.Turn>, i: nat, w: R.DeviceWrite)
    requires E.Usable(e) && FullReads(e, eturns) && Routed(e, r, eturns, i, w)
    ensures |w.bytes| == FullPacket(e, r)
  {
    hide FullFrames, E.Request, RouteFrames, FramesOf, OutWidth;
    assert eturns[i] in eturns;
    FullReadFrames(e, eturns[i].read.bytes);
  }

  /** Full reads and callbacks of one period are a rhythm: every device write is a full packet. */
  lemma FullReadsInRhythm(e: E.Setup, r: R.Setup, eturns: seq<E.Turn>, idx: seq<nat>, rturns: seq<R.Turn>,
                          before: J.JackState, quality: byte, period: nat, es: seq<JP.Event>)
    requires Linked(e, r) && Chain(e, r, eturns, idx, rturns, es) && FullReads(e, eturns) && OnePeriod(es, period)
    ensures JF.Rhythm(es, FullPacket(e, r), period)
  {
    hide R.Run, FullReads, FullPacket, Feeds, OpenedBy, OnePeriod, JF.Rhythm, Arrives, RP.Healthy, R.TurnOk;
    ChainFeeds(e, r, eturns, idx, rturns, before, quality, period, es);
    FedInRhythm(e, r, eturns, idx, R.Run(r, R.Start(r), rturns).outputs, OpenedBy(e, r, before, quality, period), es,
                period);
  }

  lemma FedInRhythm(e: E.Setup, r: R.Setup, eturns: seq<E.Turn>, idx: seq<nat>, ws: seq<R.DeviceWrite>,
                    s: J.JackState, es: seq<JP.Event>, period: nat)
    requires E.Usable(e) && Feeds(e, r, eturns, idx, ws, s, es) && FullReads(e, eturns) && OnePeriod(es, period)
    ensures JF.Rhythm(es, FullPacket(e, r), period)
  {
    hide FullReads, FullPacket, Routed, JP.Plays;
    forall ev | ev in es
      ensures JF.InRhythm(ev, FullPacket(e, r), period)
    {
      if ev.Write? {
        JP.WriteIsListed(es, ev);
        var j: nat :| j < |ws| && ws[j].bytes == ev.data;
        FullWrite(e, r, eturns, idx[j], ws[j]);
      }
    }
  }

  /** From the emitter's device to the JACK ports, with a first open, full reads and one JACK period: where the period
      is above the highest level that full packets reach, the ports never carry a frame, in any run over any link. */
  lemma FullStreamStarves(e: E.Setup, r: R.Setup, eturns: seq<E.Turn>, idx: seq<nat>, rturns: seq<R.Turn>,
                          before: J.JackState, quality: byte, period: nat, es: seq<JP.Event>)
    requires Linked(e, r) && Chain(e, r, eturns, idx, rturns, es) && FullReads(e, eturns) && OnePeriod(es, period)
    requires before.nbChannels == 0 && FrameBytes(E.PacketConfig(e)) <= DATA_MAX_SIZE
    requires PeriodBytes(e, r, period)
             > JF.Top(R.DeviceBufferSize(quality), QualityRing(quality) - 1, FullPacket(e, r))
    ensures var s := OpenedBy(e, r, before, quality, period); JP.Plays(s) && JP.PortFrames(s, es) == []
  {
    hide Chain, FullReads, OnePeriod, FullPacket, JF.Top, JF.CanDeliver, JF.NeverStarves, JF.Rhythm, JP.PortFrames;
    hide PeriodBytes, OpenedBy, JP.Plays;
    FullReadsInRhythm(e, r, eturns, idx, rturns, before, quality, period, es);
    FirstOpenPlaysIff(e, r, before, quality, period);
    OpenedPlays(e, r, before, quality, period);
    var s := OpenedBy(e, r, before, quality, period);
    JF.NothingDelivered(s, es, FullPacket(e, r), period);
    JP.ConsumedWhole(s, es);
  }

  // ----- starvation at real settings

  /** At the default quality with a JACK period of 1024 frames, four 16-bit channels never play after a first open,
      whatever is written: a period of them needs 8192 bytes and the ring holds at most 8191. */
  lemma FourChannelsStarve(s: J.JackState, es: seq<JP.Event>, n: nat)
    requires s.nbChannels == 0 && n >= 1024
    ensures !J.Delivers(JP.Run(J.OpenState(s, R.DeviceBufferSize(1), 1024, StreamConfig(4, 48000, 1)), es), n)
  {
    hide JP.Run, JackRing.RingSize;
    FirstOpen(s, 1, 1024, StreamConfig(4, 48000, 1));
    DefaultBuffer();
    JF.NeedAfter(J.OpenState(s, R.DeviceBufferSize(1), 1024, StreamConfig(4, 48000, 1)), es, n);
  }

  /** Two 16-bit channels in full packets never stop playing at those settings. */
  lemma TwoChannelsPlay(s: J.JackState)
    requires s.nbChannels == 0
    ensures JF.NeverStarves(J.OpenState(s, R.DeviceBufferSize(1), 1024, StreamConfig(2, 48000, 1)), 1024, 1024)
  {
    hide JackRing.RingSize;
    FirstOpen(s, 1, 1024, StreamConfig(2, 48000, 1));
    DefaultBuffer();
    JF.RoomForBoth(J.OpenState(s, R.DeviceBufferSize(1), 1024, StreamConfig(2, 48000, 1)), 1024, 1024);
  }

  /** Five 24-bit channels at the default quality and a period of 512 frames: the emitter's full packets of 1425 bytes
      fill the ring up to 7347 bytes, a period needs 7680, and no run delivers. Other writes of whole frames would play
      that period, but none would play 546 frames, although 8190 bytes fit into the ring. */
  lemma FiveChannelsStall(e: E.Setup, r: R.Setup, before: J.JackState)
    requires E.Usable(e) && e.stream == StreamConfig(5, 48000, 2) && e.channels == [] && r.channels == []
    requires before.nbChannels == 0
    ensures var s := OpenedBy(e, r, before, 1, 512);
            && JP.Plays(s) && FullPacket(e, r) == 1425 && !JF.CanDeliver(s, 1425, 512)
            && JF.CanDeliverWhole(s, s, 512)
            && J.Need(s, 546) <= s.capacity && !JF.CanDeliverWhole(s, s, 546)
  {
    hide JF.CanDeliver, JF.CanDeliverWhole, OpenedBy, JP.Plays;
    FirstOpened(e, r, before, 1, 512);
    DefaultBuffer();
    var s := OpenedBy(e, r, before, 1, 512);
    assert JF.FrameOf(s) == 15;
    JF.FirstDeliveryIff(s, 1425, 512);
    JF.WholeWritesPlayIff(s, 512);
    JF.WholeWritesPlayIff(s, 546);
  }

  /** Seven 16-bit channels at the default quality and a period of 512 frames play at first, and then some run stops for
      good: the level 7160 is too low for a period of 7168 bytes and leaves no room for another packet of 1428. */
  lemma SevenChannelsStop(e: E.Setup, r: R.Setup, before: J.JackState)
    requires E.Usable(e) && e.stream == StreamConfig(7, 48000, 1) && e.channels == [] && r.channels == []
    requires before.nbChannels == 0
    ensures var s := OpenedBy(e, r, before, 1, 512);
            && FullPacket(e, r) == 1428 && JF.CanDeliver(s, 1428, 512) && !JF.NeverStarves(s, 1428, 512)
  {
    hide JF.CanDeliver, JF.NeverStarves, OpenedBy, JP.Plays, JF.Gcd;
    FirstOpened(e, r, before, 1, 512);
    DefaultBuffer();
    var s := OpenedBy(e, r, before, 1, 512);
    JF.FirstDeliveryIff(s, 1428, 512);
    JF.NeverStarvesIff(s, 1428, 512);
    SevenGrain();
  }

  lemma SevenGrain()
    ensures JF.Gcd(1428, 7168) == 28
  {
    hide JF.Gcd;
    JF.GcdStep(1428, 7168);
    JF.GcdStep(7168, 1428);
    JF.GcdStep(1428, 28);
  }
}
