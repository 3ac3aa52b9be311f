/** From the emitter's device to the receptor's device, and on to the JACK ports. */
module EndToEnd {
  import opened Bytes
  import opened Frames
  import opened Protocol
  import opened Packet
  import opened PacketProofs
  import E = Emitter
  import EP = EmitterProofs
  import R = Receptor
  import RP = ReceptorProofs
  import J = Jack
  import JP = JackProofs

  // ----- the composition of the two channel maps

  datatype Source = Channel(index: nat) | Silence

  /** Where output channel `c` comes from: channel `m1[m2[c]]`, an absent map being the identity. */
  function Route(m1: seq<byte>, m2: seq<byte>, n: nat, c: nat): Source
    requires m2 != [] ==> c < |m2|
  {
    var j := if m2 == [] then c else m2[c] as nat;
    if j >= MappedChannels(m1, n) then Silence
    else
      var i := if m1 == [] then j else m1[j] as nat;
      if i < n then Channel(i) else Silence
  }

  function RouteFrame(fr: Frame, m1: seq<byte>, m2: seq<byte>, w: nat): (r: Frame)
    ensures |r| == MappedChannels(m2, MappedChannels(m1, |fr|))
  {
    var n := MappedChannels(m2, MappedChannels(m1, |fr|));
    seq(n, c requires 0 <= c < n =>
      match Route(m1, m2, |fr|, c)
      case Channel(i) => if i < |fr| then fr[i] else Zeros(w)
      case Silence => Zeros(w))
  }

  function RouteFrames(frs: seq<Frame>, m1: seq<byte>, m2: seq<byte>, w: nat): (r: seq<Frame>)
    ensures |r| == |frs|
  {
    seq(|frs|, f requires 0 <= f < |frs| => RouteFrame(frs[f], m1, m2, w))
  }

  lemma RouteOneFrame(fr: Frame, m1: seq<byte>, m2: seq<byte>, w: nat)
    ensures ApplyMap(ApplyMap(fr, m1, w), m2, w) == RouteFrame(fr, m1, m2, w)
  {
    var l, r := ApplyMap(ApplyMap(fr, m1, w), m2, w), RouteFrame(fr, m1, m2, w);
    assert |l| == |r|;
    forall c: nat | c < |r|
      ensures l[c] == r[c]
    {
    }
  }

  /** Mapping twice is routing once. */
  lemma RouteIsComposition(frs: seq<Frame>, m1: seq<byte>, m2: seq<byte>, w: nat)
    ensures MapFrames(MapFrames(frs, m1, w), m2, w) == RouteFrames(frs, m1, m2, w)
  {
    forall f: nat | f < |frs|
      ensures MapFrames(MapFrames(frs, m1, w), m2, w)[f] == RouteFrames(frs, m1, m2, w)[f]
    {
      RouteOneFrame(frs[f], m1, m2, w);
    }
  }

  // ----- delivery

  /** The two ends of a link: the same stream name, and the receptor's remaps fit. */
  predicate Linked(e: E.Setup, r: R.Setup) {
    E.Usable(e) && R.Usable(r) && CStr(e.name) == CStr(r.name)
  }

  /** The `j`-th datagram that the receptor accepts is packet `idx[j]` of the emitter: any loss, repetition and
      reordering, and any datagrams in between that the receptor does not accept. */
  predicate LinkDelivers(r: R.Setup, sent: seq<seq<byte>>, idx: seq<nat>, turns: seq<R.Turn>)
    requires R.Usable(r)
  {
    && (forall t :: t in turns ==> R.TurnOk(r, t) && RP.Healthy(t))
    && Arrives(sent, idx, RP.WithoutJunk(r, turns))
  }

  predicate Arrives(sent: seq<seq<byte>>, idx: seq<nat>, turns: seq<R.Turn>) {
    && |turns| == |idx|
    && forall j :: 0 <= j < |idx| ==> idx[j] < |sent| && turns[j].Datagram? && turns[j].bytes == sent[idx[j]]
  }

  /** The run of the accepted datagrams alone. */
  lemma WithoutJunkDelivers(r: R.Setup, sent: seq<seq<byte>>, idx: seq<nat>, turns: seq<R.Turn>)
    requires R.Usable(r) && LinkDelivers(r, sent, idx, turns)
    ensures var heard := RP.WithoutJunk(r, turns);
            && (forall t :: t in heard ==> R.TurnOk(r, t) && RP.Healthy(t) && RP.Heard(r, t.bytes))
            && R.Run(r, R.Start(r), turns) == R.Run(r, R.Start(r), heard)
  {
    hide RP.Heard, R.TurnOk, R.Run;
    RP.JunkChangesNothing(r, turns);
  }

  /** A sent packet is accepted by the receptor, with the emitter's configuration and frames. */
  lemma SentIsHeard(e: E.Setup, r: R.Setup, sent: seq<seq<byte>>, eturns: seq<E.Turn>, i: nat)
    requires Linked(e, r) && i < |sent| && i < |eturns| && E.TurnOk(e, eturns[i]) && EP.SentAt(e, sent, eturns, i)
    ensures RP.Heard(r, sent[i]) && RP.ConfigOf(r, sent[i]) == E.PacketConfig(e)
    ensures eturns[i].read.ReadBytes?
    ensures RP.PacketFrames(r, sent[i])
         == MapFrames(EP.ReadFrames(e, eturns[i].read.bytes), e.channels, EP.SampleWidth(e))
  {
    hide Check, E.Request;
    var p := EP.PacketAt(e, i, eturns[i].read.bytes);
    EP.SameName(e);
    EncodedAccepted(r.name, p);
    EP.SentPacket(e, sent, eturns, i);
  }

  /** The frames of a device write that plays a sent packet are the routed frames of the read behind it. */
  lemma WriteIsRouted(e: E.Setup, r: R.Setup, sent: seq<seq<byte>>, eturns: seq<E.Turn>, i: nat, w: R.DeviceWrite)
    requires Linked(e, r) && i < |sent| && i < |eturns| && E.TurnOk(e, eturns[i]) && EP.SentAt(e, sent, eturns, i)
    requires w.packet == sent[i] && RP.Heard(r, w.packet) && RP.PlaysExactly(r, w)
    ensures eturns[i].read.ReadBytes?
    ensures OutWidth(e, r) > 0
    ensures WholeFrames(w.bytes, |EP.ReadFrames(e, eturns[i].read.bytes)|, OutWidth(e, r), EP.SampleWidth(e))
    ensures FramesOf(w.bytes, OutWidth(e, r), EP.SampleWidth(e))
         == RouteFrames(EP.ReadFrames(e, eturns[i].read.bytes), e.channels, r.channels, EP.SampleWidth(e))
  {
    hide RP.Heard, RP.ConfigOf, RP.PacketFrames, EP.ReadFrames, EP.SentAt, E.TurnOk, RouteFrames;
    SentIsHeard(e, r, sent, eturns, i);
    RouteIsComposition(EP.ReadFrames(e, eturns[i].read.bytes), e.channels, r.channels, EP.SampleWidth(e));
  }

  /** Channels at the receptor's device. */
  function OutWidth(e: E.Setup, r: R.Setup): nat {
    MappedChannels(r.channels, EP.PacketChannels(e))
  }

  /** A run of the emitter, as `EmitterRun` describes it. */
  ghost predicate EmitterSent(e: E.Setup, sent: seq<seq<byte>>, eturns: seq<E.Turn>)
    requires E.Usable(e)
  {
    && |sent| <= |eturns| && (forall t :: t in eturns ==> E.TurnOk(e, t))
    && forall i: nat :: i < |sent| ==> EP.SentAt(e, sent, eturns, i)
  }

  /** Every datagram is accepted, has the emitter's configuration, and meets no failing open. */
  predicate AllFrom(e: E.Setup, r: R.Setup, heard: seq<R.Turn>)
    requires R.Usable(r)
  {
    forall t :: t in heard ==>
      R.TurnOk(r, t) && RP.Healthy(t) && RP.Heard(r, t.bytes) && RP.ConfigOf(r, t.bytes) == E.PacketConfig(e)
  }

  lemma DeliveredIsHeard(e: E.Setup, r: R.Setup, sent: seq<seq<byte>>, eturns: seq<E.Turn>, idx: seq<nat>,
                         rturns: seq<R.Turn>)
    requires Linked(e, r) && EmitterSent(e, sent, eturns) && Arrives(sent, idx, rturns)
    ensures forall t :: t in rturns ==> RP.Heard(r, t.bytes) && RP.ConfigOf(r, t.bytes) == E.PacketConfig(e)
  {
    hide RP.Heard, RP.ConfigOf, EP.SentAt, E.TurnOk, R.TurnOk;
    forall t | t in rturns
      ensures RP.Heard(r, t.bytes) && RP.ConfigOf(r, t.bytes) == E.PacketConfig(e)
    {
      var j :| 0 <= j < |rturns| && rturns[j] == t;
      SentIsHeard(e, r, sent, eturns, idx[j]);
    }
  }

  lemma {:induction false} HeardInOrder(r: R.Setup, turns: seq<R.Turn>)
    requires R.Usable(r) && forall t :: t in turns ==> t.Datagram? && RP.Heard(r, t.bytes)
    ensures |RP.HeardPackets(r, turns)| == |turns|
    ensures forall j :: 0 <= j < |turns| ==> RP.HeardPackets(r, turns)[j] == turns[j].bytes
  {
    hide RP.Heard, R.Usable;
    if turns != [] {
      HeardInOrder(r, turns[..|turns| - 1]);
    }
  }

  /** Per-packet end-to-end: whatever the link loses, repeats, reorders or mixes in, the `j`-th device write is the
      routed read behind the `j`-th packet delivered, and there is one write for each. */
  lemma DeliveredFrames(e: E.Setup, r: R.Setup, sent: seq<seq<byte>>, eturns: seq<E.Turn>, idx: seq<nat>,
                        rturns: seq<R.Turn>)
    requires Linked(e, r) && EmitterSent(e, sent, eturns) && LinkDelivers(r, sent, idx, rturns)
    ensures OutWidth(e, r) > 0
    ensures RoutedAll(e, r, eturns, idx, R.Run(r, R.Start(r), rturns).outputs)
    ensures R.Run(r, R.Start(r), rturns).audio.opens
         == if idx == [] then [] else [RP.DeviceFor(r, E.PacketConfig(e))]
  {
    hide RP.Heard, RP.ConfigOf, EP.SentAt, E.TurnOk, R.TurnOk, RP.PlaysExactly, R.Run, Routed;
    WidthPositive(e, r);
    WithoutJunkDelivers(r, sent, idx, rturns);
    var heard := RP.WithoutJunk(r, rturns);
    DeliveredIsHeard(e, r, sent, eturns, idx, heard);
    HeardFrames(e, r, sent, eturns, idx, heard);
    HeardOpens(e, r, heard);
  }

  lemma OneFrom(e: E.Setup, r: R.Setup, heard: seq<R.Turn>, j: nat)
    requires R.Usable(r) && AllFrom(e, r, heard) && j < |heard|
    ensures heard[j].Datagram? && RP.Heard(r, heard[j].bytes) && RP.ConfigOf(r, heard[j].bytes) == E.PacketConfig(e)
  {
    hide R.TurnOk, RP.Heard, RP.ConfigOf;
    assert heard[j] in heard;
  }

  /** What such a run plays: its packets, one write each, exactly. */
  lemma HeardPlays(e: E.Setup, r: R.Setup, heard: seq<R.Turn>)
    requires Linked(e, r) && AllFrom(e, r, heard)
    ensures var s := R.Run(r, R.Start(r), heard);
            && s.running && |s.outputs| == |heard|
            && RP.AllExact(r, s.outputs)
            && forall j: nat :: j < |heard| ==> heard[j].Datagram? && s.outputs[j].packet == heard[j].bytes
  {
    hide RP.Heard, RP.ConfigOf, R.TurnOk, RP.PlaysExactly, R.Run;
    RP.PlayedAreHeard(r, heard);
    RP.NeverStopsOnWrites(r, heard);
    HeardInOrder(r, heard);
    RP.OneFormatPlayback(r, heard, E.PacketConfig(e));
    var out := R.Run(r, R.Start(r), heard).outputs;
    forall j: nat | j < |heard|
      ensures heard[j].Datagram? && out[j].packet == heard[j].bytes
    {
      assert RP.PacketsOf(out)[j] == heard[j].bytes;
    }
  }

  /** The same for a run of accepted datagrams only. */
  lemma HeardFrames(e: E.Setup, r: R.Setup, sent: seq<seq<byte>>, eturns: seq<E.Turn>, idx: seq<nat>,
                    heard: seq<R.Turn>)
    requires Linked(e, r) && EmitterSent(e, sent, eturns) && Arrives(sent, idx, heard)
    requires AllFrom(e, r, heard)
    ensures RoutedAll(e, r, eturns, idx, R.Run(r, R.Start(r), heard).outputs)
  {
    hide RP.Heard, RP.ConfigOf, EP.SentAt, E.TurnOk, R.TurnOk, RP.PlaysExactly, R.Run, Routed;
    hide EmitterSent, Arrives, RP.AllExact;
    HeardPlays(e, r, heard);
    var out := R.Run(r, R.Start(r), heard).outputs;
    assert |heard| == |idx| by { ArrivesLength(sent, idx, heard); }
    forall j: nat | j < |idx|
      ensures Routed(e, r, eturns, idx[j], out[j])
    {
      assert out[j] in out;
      OneRouted(e, r, sent, eturns, idx, heard, j, out);
    }
  }

  lemma ArrivesLength(sent: seq<seq<byte>>, idx: seq<nat>, turns: seq<R.Turn>)
    requires Arrives(sent, idx, turns)
    ensures |turns| == |idx|
  {
  }

  lemma OneRouted(e: E.Setup, r: R.Setup, sent: seq<seq<byte>>, eturns: seq<E.Turn>, idx: seq<nat>,
                  heard: seq<R.Turn>, j: nat, out: seq<R.DeviceWrite>)
    requires Linked(e, r) && EmitterSent(e, sent, eturns) && Arrives(sent, idx, heard) && AllFrom(e, r, heard)
    requires j < |idx| && j < |out| && j < |heard| && heard[j].Datagram? && out[j].packet == heard[j].bytes
    requires RP.AllExact(r, out)
    ensures Routed(e, r, eturns, idx[j], out[j])
  {
    hide RP.Heard, RP.ConfigOf, EP.SentAt, E.TurnOk, R.TurnOk, RP.PlaysExactly;
    OneFrom(e, r, heard, j);
    assert out[j] in out;
    WriteIsRouted(e, r, sent, eturns, idx[j], out[j]);
  }

  /** The device is opened once, for the emitter's configuration. */
  lemma HeardOpens(e: E.Setup, r: R.Setup, heard: seq<R.Turn>)
    requires Linked(e, r)
    requires AllFrom(e, r, heard)
    ensures R.Run(r, R.Start(r), heard).audio.opens
         == if heard == [] then [] else [RP.DeviceFor(r, E.PacketConfig(e))]
  {
    hide RP.Heard, RP.ConfigOf, R.TurnOk, R.Run, RP.PlaysExactly;
    HeardPlays(e, r, heard);
    RP.DeviceAgreement(r, heard);
    var out := R.Run(r, R.Start(r), heard).outputs;
    forall w | w in out
      ensures RP.Heard(r, w.packet) && RP.ConfigOf(r, w.packet) == E.PacketConfig(e)
    {
      var j: nat :| j < |out| && out[j] == w;
      assert out[j].packet == heard[j].bytes;
      OneFrom(e, r, heard, j);
    }
    OneOpen(r, out, E.PacketConfig(e));
  }

  lemma {:induction false} OneOpen(r: R.Setup, ws: seq<R.DeviceWrite>, cfg: StreamConfig)
    requires R.Usable(r) && cfg != NO_STREAM
    requires forall w :: w in ws ==> RP.Heard(r, w.packet) && RP.ConfigOf(r, w.packet) == cfg
    ensures RP.OpensFor(r, ws) == if ws == [] then [] else [RP.DeviceFor(r, cfg)]
    ensures RP.LastConfig(r, ws) == if ws == [] then NO_STREAM else cfg
  {
    hide RP.Heard, RP.ConfigOf;
    if ws != [] {
      OneOpen(r, ws[..|ws| - 1], cfg);
    }
  }

  lemma WidthPositive(e: E.Setup, r: R.Setup)
    requires E.Usable(e)
    ensures OutWidth(e, r) > 0 && EP.SampleWidth(e) > 0
  {
  }

  predicate Routed(e: E.Setup, r: R.Setup, eturns: seq<E.Turn>, i: nat, w: R.DeviceWrite)
    requires E.Usable(e)
  {
    && i < |eturns| && eturns[i].read.ReadBytes? && OutWidth(e, r) > 0
    && WholeFrames(w.bytes, |EP.ReadFrames(e, eturns[i].read.bytes)|, OutWidth(e, r), EP.SampleWidth(e))
    && FramesOf(w.bytes, OutWidth(e, r), EP.SampleWidth(e))
       == RouteFrames(EP.ReadFrames(e, eturns[i].read.bytes), e.channels, r.channels, EP.SampleWidth(e))
  }

  /** Every write is the routed read behind its packet. */
  predicate RoutedAll(e: E.Setup, r: R.Setup, eturns: seq<E.Turn>, idx: seq<nat>, ws: seq<R.DeviceWrite>)
    requires E.Usable(e)
  {
    |ws| == |idx| && forall j: nat :: j < |idx| ==> Routed(e, r, eturns, idx[j], ws[j])
  }

  // ----- a link that loses nothing

  /** Everything written to the device, in order. */
  function Played(ws: seq<R.DeviceWrite>): seq<byte> {
    if ws == [] then [] else Played(ws[..|ws| - 1]) + ws[|ws| - 1].bytes
  }

  lemma RouteConcat(a: seq<Frame>, b: seq<Frame>, m1: seq<byte>, m2: seq<byte>, w: nat)
    ensures RouteFrames(a + b, m1, m2, w) == RouteFrames(a, m1, m2, w) + RouteFrames(b, m1, m2, w)
  {
  }

  lemma {:induction false} PlayedFrames(e: E.Setup, r: R.Setup, eturns: seq<E.Turn>, ws: seq<R.DeviceWrite>)
    requires E.Usable(e) && |ws| <= |eturns| && OutWidth(e, r) > 0
    requires forall j: nat :: j < |ws| ==> Routed(e, r, eturns, j, ws[j])
    ensures forall j: nat :: j < |ws| ==> eturns[j].read.ReadBytes?
    ensures WholeFrames(Played(ws), |EP.FramesRead(e, eturns, |ws|)|, OutWidth(e, r), EP.SampleWidth(e))
    ensures FramesOf(Played(ws), OutWidth(e, r), EP.SampleWidth(e))
         == RouteFrames(EP.FramesRead(e, eturns, |ws|), e.channels, r.channels, EP.SampleWidth(e))
  {
    hide EP.ReadFrames, RouteFrames, FramesOf, RouteFrame;
    forall j: nat | j < |ws|
      ensures eturns[j].read.ReadBytes?
    {
      assert Routed(e, r, eturns, j, ws[j]);
    }
    if ws == [] {
      EmptyPlayed(OutWidth(e, r), EP.SampleWidth(e), e.channels, r.channels);
    } else {
      var k := |ws| - 1;
      assert Routed(e, r, eturns, k, ws[k]);
      PlayedFrames(e, r, eturns, ws[..k]);
      var before, next := EP.FramesRead(e, eturns, k), EP.ReadFrames(e, eturns[k].read.bytes);
      FramesConcat(Played(ws[..k]), ws[k].bytes, |before|, OutWidth(e, r), EP.SampleWidth(e));
      RouteConcat(before, next, e.channels, r.channels, EP.SampleWidth(e));
      JP.AddFrames(|before|, |next|, OutWidth(e, r), EP.SampleWidth(e));
    }
  }

  lemma EmptyPlayed(n: nat, w: nat, m1: seq<byte>, m2: seq<byte>)
    requires n > 0 && w > 0
    ensures FramesOf([], n, w) == RouteFrames([], m1, m2, w)
    ensures WholeFrames([], 0, n, w)
  {
  }

  predicate InOrder(idx: seq<nat>) {
    forall j :: 0 <= j < |idx| ==> idx[j] == j
  }

  /** The device received exactly the routed frames of the first `k` reads. */
  predicate RoutedWhole(e: E.Setup, r: R.Setup, eturns: seq<E.Turn>, k: nat, out: seq<byte>)
    requires E.Usable(e)
  {
    && k <= |eturns| && (forall j: nat :: j < k ==> eturns[j].read.ReadBytes?)
    && OutWidth(e, r) > 0
    && WholeFrames(out, |EP.FramesRead(e, eturns, k)|, OutWidth(e, r), EP.SampleWidth(e))
    && FramesOf(out, OutWidth(e, r), EP.SampleWidth(e))
       == RouteFrames(EP.FramesRead(e, eturns, k), e.channels, r.channels, EP.SampleWidth(e))
  }

  lemma InOrderFrames(e: E.Setup, r: R.Setup, sent: seq<seq<byte>>, eturns: seq<E.Turn>, idx: seq<nat>,
                      rturns: seq<R.Turn>)
    requires Linked(e, r) && EmitterSent(e, sent, eturns) && LinkDelivers(r, sent, idx, rturns)
    requires |idx| == |sent| && InOrder(idx)
    ensures RoutedWhole(e, r, eturns, |idx|, Played(R.Run(r, R.Start(r), rturns).outputs))
  {
    hide Routed, E.TurnOk, EP.SentAt, R.Run, RouteFrames, FramesOf;
    DeliveredFrames(e, r, sent, eturns, idx, rturns);
    PlayedFrames(e, r, eturns, R.Run(r, R.Start(r), rturns).outputs);
  }

  /** End to end: the `k`-th frame written to the receptor's device is the `k`-th frame read from the emitter's device,
      routed through the two channel maps. */
  lemma LosslessLink(e: E.Setup, r: R.Setup, eturns: seq<E.Turn>, idx: seq<nat>, rturns: seq<R.Turn>)
    requires Linked(e, r) && forall t :: t in eturns ==> E.TurnOk(e, t)
    requires var sent := E.After(e, eturns).sent;
             |idx| == |sent| && InOrder(idx) && LinkDelivers(r, sent, idx, rturns)
    ensures RoutedWhole(e, r, eturns, |idx|, Played(R.Run(r, R.Start(r), rturns).outputs))
  {
    hide Routed, E.TurnOk, EP.SentAt, R.Run, E.After, RoutedWhole;
    EP.EmitterRun(e, eturns);
    InOrderFrames(e, r, E.After(e, eturns).sent, eturns, idx, rturns);
  }

  /** A link without loss, to a receptor whose device opens succeed. */
  function Relay(sent: seq<seq<byte>>): (turns: seq<R.Turn>)
    ensures |turns| == |sent|
  {
    seq(|sent|, i requires 0 <= i < |sent| => R.Datagram(sent[i], 0, 0, |sent[i]|))
  }

  /** Every packet of the emitter, remapped by the receptor, fits the handle's buffer. */
  predicate RemapFits(e: E.Setup, r: R.Setup)
    requires E.Usable(e)
  {
    (MaxFrames(FrameBytes(E.PacketConfig(e))) * |r.channels|) * EP.SampleWidth(e) <= DATA_MAX_SIZE
  }

  lemma FrameBoundOf(e: E.Setup, r: R.Setup, packet: seq<byte>)
    requires E.Usable(e) && R.Usable(r) && RP.Heard(r, packet) && RP.ConfigOf(r, packet) == E.PacketConfig(e)
    requires |packet| <= PROTOCOL_MAX_SIZE
    ensures |packet| > HEADER_SIZE
    ensures FrameCount(|packet| - HEADER_SIZE, EP.PacketChannels(e), EP.SampleWidth(e))
      <= MaxFrames(FrameBytes(E.PacketConfig(e)))
  {
    hide Check, MaxFrames;
    AcceptedIsSafe(r.name, packet);
    var frame := FrameBytes(E.PacketConfig(e));
    var k := FrameCount(|packet| - HEADER_SIZE, EP.PacketChannels(e), EP.SampleWidth(e));
    EP.FrameProduct(e, k);
    MaxPayloadIsMaximal(frame);
    assert PacketProofs.Fits(k, frame);
  }

  lemma RemapBound(k: nat, max: nat, m: nat, w: nat)
    requires k <= max
    ensures (k * m) * w <= (max * m) * w
  {
    MulMono(k, max, m);
    MulMono(k * m, max * m, w);
  }

  lemma RelayTurnOk(e: E.Setup, r: R.Setup, sent: seq<seq<byte>>, eturns: seq<E.Turn>, i: nat)
    requires Linked(e, r) && RemapFits(e, r) && EmitterSent(e, sent, eturns) && i < |sent|
    ensures R.TurnOk(r, Relay(sent)[i])
  {
    hide Check, E.TurnOk, EP.SentAt, MaxFrames, GetStreamConfig;
    EP.SentPacket(e, sent, eturns, i);
    SentIsHeard(e, r, sent, eturns, i);
    FrameBoundOf(e, r, sent[i]);
    RemapBound(FrameCount(|sent[i]| - HEADER_SIZE, EP.PacketChannels(e), EP.SampleWidth(e)),
               MaxFrames(FrameBytes(E.PacketConfig(e))), |r.channels|, EP.SampleWidth(e));
  }

  lemma RelayHeard(e: E.Setup, r: R.Setup, sent: seq<seq<byte>>, eturns: seq<E.Turn>)
    requires Linked(e, r) && EmitterSent(e, sent, eturns)
    ensures RP.WithoutJunk(r, Relay(sent)) == Relay(sent)
  {
    hide RP.Heard, RP.ConfigOf, EP.SentAt, E.TurnOk;
    DeliveredIsHeard(e, r, sent, eturns, JP.UpTo(|sent|), Relay(sent));
    RP.NoJunk(r, Relay(sent));
  }

  lemma RelayDelivers(e: E.Setup, r: R.Setup, sent: seq<seq<byte>>, eturns: seq<E.Turn>)
    requires Linked(e, r) && RemapFits(e, r) && EmitterSent(e, sent, eturns)
    ensures LinkDelivers(r, sent, JP.UpTo(|sent|), Relay(sent))
  {
    hide E.TurnOk, EP.SentAt, RemapFits, R.TurnOk, EmitterSent, RP.Heard, RP.WithoutJunk, E.Usable, R.Usable;
    forall t | t in Relay(sent)
      ensures R.TurnOk(r, t) && RP.Healthy(t)
    {
      var i: nat :| i < |sent| && Relay(sent)[i] == t;
      RelayTurnOk(e, r, sent, eturns, i);
    }
    RelayHeard(e, r, sent, eturns);
  }

  /** End to end, from the options alone: everything the emitter sends in any run, relayed to the receptor, is played as
      the routed frames of the reads, in order and complete. */
  lemma RelayedRun(e: E.Setup, r: R.Setup, eturns: seq<E.Turn>)
    requires Linked(e, r) && RemapFits(e, r) && forall t :: t in eturns ==> E.TurnOk(e, t)
    ensures var sent := E.After(e, eturns).sent;
            && LinkDelivers(r, sent, JP.UpTo(|sent|), Relay(sent))
            && RoutedWhole(e, r, eturns, |sent|, Played(R.Run(r, R.Start(r), Relay(sent)).outputs))
  {
    hide E.TurnOk, EP.SentAt, R.Run, E.After, RoutedWhole, RemapFits, LinkDelivers;
    EP.EmitterRun(e, eturns);
    var sent := E.After(e, eturns).sent;
    RelayDelivers(e, r, sent, eturns);
    InOrderFrames(e, r, sent, eturns, JP.UpTo(|sent|), Relay(sent));
  }

  // ----- on to the JACK ports

  function BytesOfWrites(ws: seq<R.DeviceWrite>): (r: seq<seq<byte>>)
    ensures |r| == |ws|
  {
    seq(|ws|, i requires 0 <= i < |ws| => ws[i].bytes)
  }

  predicate AreReads(eturns: seq<E.Turn>, behind: seq<nat>) {
    forall i :: 0 <= i < |behind| ==> behind[i] < |eturns| && eturns[behind[i]].read.ReadBytes?
  }

  /** The frames of some reads, one read after the other, routed. */
  function RoutedReads(e: E.Setup, r: R.Setup, eturns: seq<E.Turn>, behind: seq<nat>): seq<Frame>
    requires E.Usable(e) && AreReads(eturns, behind)
  {
    if behind == [] then []
    else
      var k := |behind| - 1;
      RoutedReads(e, r, eturns, behind[..k])
      + RouteFrames(EP.ReadFrames(e, eturns[behind[k]].read.bytes), e.channels, r.channels, EP.SampleWidth(e))
  }

  /** The JACK backend that the receptor's only open leaves: `before` is the backend of any earlier use. */
  function OpenedBy(e: E.Setup, r: R.Setup, before: J.JackState, quality: byte, period: nat): J.JackState {
    J.OpenState(before, R.DeviceBufferSize(quality), period, RP.DeviceFor(r, E.PacketConfig(e)))
  }

  lemma OpenedPlays(e: E.Setup, r: R.Setup, before: J.JackState, quality: byte, period: nat)
    requires E.Usable(e)
    ensures var o := OpenedBy(e, r, before, quality, period);
            && JP.Plays(o) && o.isOpen && o.nbChannels == OutWidth(e, r) && o.fmt == e.stream.bitFmt
            && o.contents == Zeros(|o.contents|)
  {
    JP.OpenFits(before, R.DeviceBufferSize(quality), period, RP.DeviceFor(r, E.PacketConfig(e)));
  }

  /** A JACK backend for the receptor's output, and events whose writes are device writes of the receptor, in order. */
  predicate Feeds(e: E.Setup, r: R.Setup, eturns: seq<E.Turn>, idx: seq<nat>, ws: seq<R.DeviceWrite>, s: J.JackState,
                  es: seq<JP.Event>)
    requires E.Usable(e)
  {
    && RoutedAll(e, r, eturns, idx, ws)
    && JP.Plays(s) && s.nbChannels == OutWidth(e, r) && s.fmt == e.stream.bitFmt
    && JP.WritesOf(es) <= BytesOfWrites(ws)
  }

  /** The reads behind the writes that the ring stores. */
  function KeptReads(idx: seq<nat>, s: J.JackState, es: seq<JP.Event>): seq<nat>
    requires |JP.WritesOf(es)| <= |idx|
  {
    JP.KeptInOrder(s, es);
    JP.Pick(idx, JP.KeptWrites(s, es))
  }

  lemma KeptAreReads(e: E.Setup, r: R.Setup, eturns: seq<E.Turn>, idx: seq<nat>, ws: seq<R.DeviceWrite>, s: J.JackState,
                     es: seq<JP.Event>)
    requires E.Usable(e) && Feeds(e, r, eturns, idx, ws, s, es)
    ensures AreReads(eturns, KeptReads(idx, s, es))
  {
    hide RouteFrames, FramesOf, JP.Plays;
    JP.KeptInOrder(s, es);
    forall i | 0 <= i < |KeptReads(idx, s, es)|
      ensures KeptReads(idx, s, es)[i] < |eturns| && eturns[KeptReads(idx, s, es)[i]].read.ReadBytes?
    {
      var j := JP.KeptWrites(s, es)[i];
      assert Routed(e, r, eturns, idx[j], ws[j]);
    }
  }

  lemma FeedsInit(e: E.Setup, r: R.Setup, eturns: seq<E.Turn>, idx: seq<nat>, ws: seq<R.DeviceWrite>, s: J.JackState,
                  es: seq<JP.Event>)
    requires E.Usable(e) && Feeds(e, r, eturns, idx, ws, s, es) && es != []
    ensures Feeds(e, r, eturns, idx, ws, s, es[..|es| - 1])
    ensures var init, ev := es[..|es| - 1], es[|es| - 1];
            ev.Write? ==> |JP.WritesOf(init)| < |ws| && ev.data == ws[|JP.WritesOf(init)|].bytes
  {
    hide RoutedAll, JP.Plays;
    var init, ev := es[..|es| - 1], es[|es| - 1];
    if ev.Write? {
      var all := JP.WritesOf(es);
      assert all == JP.WritesOf(init) + [ev.data];
      assert all[|all| - 1] == BytesOfWrites(ws)[|all| - 1];
    }
  }

  /** The accepted frames are the routed frames of the reads behind the stored writes, for every interleaving of writes
      and callbacks, whatever was dropped. */
  lemma {:induction false} KeptFrames(e: E.Setup, r: R.Setup, eturns: seq<E.Turn>, idx: seq<nat>,
                                      ws: seq<R.DeviceWrite>, s: J.JackState, es: seq<JP.Event>)
    requires E.Usable(e) && Feeds(e, r, eturns, idx, ws, s, es)
    ensures AreReads(eturns, KeptReads(idx, s, es))
    ensures WholeFrames(JP.Accepted(s, es), |RoutedReads(e, r, eturns, KeptReads(idx, s, es))|,
                        OutWidth(e, r), EP.SampleWidth(e))
    ensures JP.AcceptedFrames(s, es) == RoutedReads(e, r, eturns, KeptReads(idx, s, es))
  {
    hide RouteFrames, FramesOf, EP.ReadFrames, JP.Plays, Routed, J.Accepts, JP.Run;
    KeptAreReads(e, r, eturns, idx, ws, s, es);
    WidthPositive(e, r);
    if es == [] {
      EmptyPlayed(OutWidth(e, r), EP.SampleWidth(e), e.channels, r.channels);
    } else {
      var init, ev := es[..|es| - 1], es[|es| - 1];
      FeedsInit(e, r, eturns, idx, ws, s, es);
      KeptFrames(e, r, eturns, idx, ws, s, init);
      if ev.Write? && J.Accepts(JP.Run(s, init), |ev.data|) {
        var j := |JP.WritesOf(init)|;
        assert Routed(e, r, eturns, idx[j], ws[j]);
        KeptSnoc(idx, s, es, j);
        AppendRead(e, r, eturns, KeptReads(idx, s, init), idx[j], JP.Accepted(s, init), ws[j]);
      } else {
        assert KeptReads(idx, s, es) == KeptReads(idx, s, init);
        assert JP.Accepted(s, es) == JP.Accepted(s, init);
      }
    }
  }

  lemma KeptSnoc(idx: seq<nat>, s: J.JackState, es: seq<JP.Event>, j: nat)
    requires es != [] && es[|es| - 1].Write? && |JP.WritesOf(es)| <= |idx|
    requires J.Accepts(JP.Run(s, es[..|es| - 1]), |es[|es| - 1].data|)
    requires j == |JP.WritesOf(es[..|es| - 1])|
    ensures j < |idx| && KeptReads(idx, s, es) == KeptReads(idx, s, es[..|es| - 1]) + [idx[j]]
    ensures JP.Accepted(s, es) == JP.Accepted(s, es[..|es| - 1]) + es[|es| - 1].data
  {
    hide J.Accepts;
  }

  lemma AppendRead(e: E.Setup, r: R.Setup, eturns: seq<E.Turn>, behind: seq<nat>, i: nat, kept: seq<byte>,
                   w: R.DeviceWrite)
    requires E.Usable(e) && AreReads(eturns, behind) && Routed(e, r, eturns, i, w)
    requires WholeFrames(kept, |RoutedReads(e, r, eturns, behind)|, OutWidth(e, r), EP.SampleWidth(e))
    requires OutWidth(e, r) > 0 && EP.SampleWidth(e) > 0
    requires FramesOf(kept, OutWidth(e, r), EP.SampleWidth(e)) == RoutedReads(e, r, eturns, behind)
    ensures AreReads(eturns, behind + [i])
    ensures WholeFrames(kept + w.bytes, |RoutedReads(e, r, eturns, behind + [i])|, OutWidth(e, r), EP.SampleWidth(e))
    ensures FramesOf(kept + w.bytes, OutWidth(e, r), EP.SampleWidth(e)) == RoutedReads(e, r, eturns, behind + [i])
  {
    hide RouteFrames, FramesOf, EP.ReadFrames, OutWidth, EP.SampleWidth;
    var n, width, before := OutWidth(e, r), EP.SampleWidth(e), RoutedReads(e, r, eturns, behind);
    assert (behind + [i])[..|behind|] == behind;
    FramesConcat(kept, w.bytes, |before|, n, width);
    JP.AddFrames(|before|, |EP.ReadFrames(e, eturns[i].read.bytes)|, n, width);
  }

  /** Every write of such events is whole frames. */
  lemma FedWholeWrites(e: E.Setup, r: R.Setup, eturns: seq<E.Turn>, idx: seq<nat>, ws: seq<R.DeviceWrite>,
                       s: J.JackState, es: seq<JP.Event>)
    requires E.Usable(e) && Feeds(e, r, eturns, idx, ws, s, es)
    ensures JP.WholeWrites(s, es)
  {
    hide Routed, JP.Plays;
    forall ev | ev in es && ev.Write?
      ensures WholeFrames(ev.data, FrameCount(|ev.data|, s.nbChannels, JP.FrameWidth(s)), s.nbChannels,
                          JP.FrameWidth(s))
    {
      JP.WriteIsListed(es, ev);
      var j: nat :| j < |ws| && ws[j].bytes == ev.data;
      RoutedIsWhole(e, r, eturns, idx[j], ws[j]);
    }
  }

  lemma RoutedIsWhole(e: E.Setup, r: R.Setup, eturns: seq<E.Turn>, i: nat, w: R.DeviceWrite)
    requires E.Usable(e) && Routed(e, r, eturns, i, w)
    ensures WholeFrames(w.bytes, FrameCount(|w.bytes|, OutWidth(e, r), EP.SampleWidth(e)), OutWidth(e, r),
                        EP.SampleWidth(e))
  {
    WholeFramesCount(w.bytes, |EP.ReadFrames(e, eturns[i].read.bytes)|, OutWidth(e, r), EP.SampleWidth(e));
  }

  /** A run of the emitter, a link, a run of the receptor, and a JACK run behind its one open: the writes among `es` are
      the receptor's device writes so far. */
  ghost predicate Chain(e: E.Setup, r: R.Setup, eturns: seq<E.Turn>, idx: seq<nat>, rturns: seq<R.Turn>,
                        es: seq<JP.Event>)
    requires Linked(e, r)
  {
    && (forall t :: t in eturns ==> E.TurnOk(e, t))
    && LinkDelivers(r, E.After(e, eturns).sent, idx, rturns)
    && JP.WritesOf(es) <= BytesOfWrites(R.Run(r, R.Start(r), rturns).outputs)
  }

  lemma ChainFeeds(e: E.Setup, r: R.Setup, eturns: seq<E.Turn>, idx: seq<nat>, rturns: seq<R.Turn>,
                   before: J.JackState, quality: byte, period: nat, es: seq<JP.Event>)
    requires Linked(e, r) && Chain(e, r, eturns, idx, rturns, es)
    ensures Feeds(e, r, eturns, idx, R.Run(r, R.Start(r), rturns).outputs, OpenedBy(e, r, before, quality, period), es)
    ensures R.Run(r, R.Start(r), rturns).audio.opens
         == if idx == [] then [] else [RP.DeviceFor(r, E.PacketConfig(e))]
  {
    hide RoutedAll, E.TurnOk, EP.SentAt, R.Run, E.After, LinkDelivers, OpenedBy;
    EP.EmitterRun(e, eturns);
    DeliveredFrames(e, r, E.After(e, eturns).sent, eturns, idx, rturns);
    OpenedPlays(e, r, before, quality, period);
  }

  /** The ring accepts exactly the routed frames of the reads behind the writes it stores, in order; and if the preroll
      is `p` whole frames, the ports carry `p` silent frames and then these. */
  ghost predicate PortsCarryReads(e: E.Setup, r: R.Setup, eturns: seq<E.Turn>, idx: seq<nat>, s: J.JackState,
                                  es: seq<JP.Event>)
    requires E.Usable(e) && JP.Plays(s)
  {
    && |JP.WritesOf(es)| <= |idx| && AreReads(eturns, KeptReads(idx, s, es))
    && JP.AcceptedFrames(s, es) == RoutedReads(e, r, eturns, KeptReads(idx, s, es))
    && forall p: nat :: |s.contents| == (p * s.nbChannels) * JP.FrameWidth(s) ==>
         JP.PortFrames(s, es) <= JP.SilentFrames(p, s.nbChannels, JP.FrameWidth(s))
                                 + RoutedReads(e, r, eturns, KeptReads(idx, s, es))
  }

  /** From the emitter's device to the JACK ports, for every run of the emitter, every link, and every interleaving of
      the receptor's writes with process callbacks, whatever the ring drops. */
  lemma JackPlayback(e: E.Setup, r: R.Setup, eturns: seq<E.Turn>, idx: seq<nat>, rturns: seq<R.Turn>,
                     before: J.JackState, quality: byte, period: nat, es: seq<JP.Event>)
    requires Linked(e, r) && Chain(e, r, eturns, idx, rturns, es)
    ensures R.Run(r, R.Start(r), rturns).audio.opens
         == if idx == [] then [] else [RP.DeviceFor(r, E.PacketConfig(e))]
    ensures var s := OpenedBy(e, r, before, quality, period);
            JP.Plays(s) && JP.WholeWrites(s, es) && PortsCarryReads(e, r, eturns, idx, s, es)
  {
    hide R.Run, Feeds, OpenedBy, PortsCarryReads, JP.WholeWrites, R.TurnOk, Arrives, RP.Healthy;
    ChainFeeds(e, r, eturns, idx, rturns, before, quality, period, es);
    OpenedPlays(e, r, before, quality, period);
    FedPlayback(e, r, eturns, idx, R.Run(r, R.Start(r), rturns).outputs, OpenedBy(e, r, before, quality, period), es);
  }

  lemma FedPlayback(e: E.Setup, r: R.Setup, eturns: seq<E.Turn>, idx: seq<nat>, ws: seq<R.DeviceWrite>,
                    s: J.JackState, es: seq<JP.Event>)
    requires E.Usable(e) && Feeds(e, r, eturns, idx, ws, s, es) && s.contents == Zeros(|s.contents|)
    ensures JP.WholeWrites(s, es) && PortsCarryReads(e, r, eturns, idx, s, es)
  {
    hide Routed, RoutedReads, KeptReads, JP.WholeWrites, JP.AcceptedFrames, JP.PortFrames, AreReads;
    KeptFrames(e, r, eturns, idx, ws, s, es);
    FedWholeWrites(e, r, eturns, idx, ws, s, es);
    forall p: nat | |s.contents| == (p * s.nbChannels) * JP.FrameWidth(s)
      ensures JP.PortFrames(s, es) <= JP.SilentFrames(p, s.nbChannels, JP.FrameWidth(s))
                                      + RoutedReads(e, r, eturns, KeptReads(idx, s, es))
    {
      JP.PrerollThenFrames(s, es, p);
    }
  }

  /** If the link loses nothing and every device write comes after the first callback and finds room, the ports carry
      the preroll and then the routed frames of all the reads, in order; and they carry every frame that the callbacks
      ask for just when each callback finds its period in the ring. */
  lemma NothingDropped(e: E.Setup, r: R.Setup, eturns: seq<E.Turn>, rturns: seq<R.Turn>, before: J.JackState,
                       quality: byte, period: nat, es: seq<JP.Event>, k: nat, p: nat)
    requires Linked(e, r) && Chain(e, r, eturns, JP.UpTo(k), rturns, es) && k == |E.After(e, eturns).sent|
    requires var s := OpenedBy(e, r, before, quality, period);
             && JP.Roomy(s, es) && |JP.WritesOf(es)| == k
             && |s.contents| == (p * s.nbChannels) * SampleSize(s.fmt)
    ensures k <= |eturns| && forall j: nat :: j < k ==> eturns[j].read.ReadBytes?
    ensures var s := OpenedBy(e, r, before, quality, period);
            JP.Plays(s) &&
            var all := JP.SilentFrames(p, s.nbChannels, JP.FrameWidth(s))
                       + RouteFrames(EP.FramesRead(e, eturns, k), e.channels, r.channels, EP.SampleWidth(e));
            && JP.PortFrames(s, es) <= all
            && (JP.Served(s, es) <==> |JP.PortFrames(s, es)| == JP.Asked(es))
            && (JP.Served(s, es) ==> JP.Asked(es) <= |all| && JP.PortFrames(s, es) == all[..JP.Asked(es)])
  {
    hide R.Run, OpenedBy, JP.WholeWrites, LinkDelivers, Chain, JP.PortFrames, JP.AcceptedFrames, RouteFrames, KeptReads;
    hide JP.Served, JP.Roomy, JP.Asked;
    var s := OpenedBy(e, r, before, quality, period);
    JackPlayback(e, r, eturns, JP.UpTo(k), rturns, before, quality, period, es);
    OpenedPlays(e, r, before, quality, period);
    AllReadsKept(s, es, k);
    ReadsInOrder(e, r, eturns, k);
    JP.FullPlayback(s, es, p);
  }

  lemma AllReadsKept(s: J.JackState, es: seq<JP.Event>, k: nat)
    requires JP.Plays(s) && s.isOpen && JP.Roomy(s, es) && |JP.WritesOf(es)| == k
    ensures KeptReads(JP.UpTo(k), s, es) == JP.UpTo(k)
  {
    JP.NothingDroppedIff(s, es);
  }

  lemma {:induction false} ReadsInOrder(e: E.Setup, r: R.Setup, eturns: seq<E.Turn>, k: nat)
    requires E.Usable(e) && AreReads(eturns, JP.UpTo(k))
    ensures k <= |eturns| && forall j: nat :: j < k ==> eturns[j].read.ReadBytes?
    ensures RoutedReads(e, r, eturns, JP.UpTo(k))
         == RouteFrames(EP.FramesRead(e, eturns, k), e.channels, r.channels, EP.SampleWidth(e))
  {
    hide RouteFrames, EP.ReadFrames;
    SequentialReads(eturns, k);
    if k == 0 {
      NoFrames(e, r);
    } else {
      ReadsInOrder(e, r, eturns, k - 1);
      RouteConcat(EP.FramesRead(e, eturns, k - 1), EP.ReadFrames(e, eturns[k - 1].read.bytes), e.channels, r.channels,
                  EP.SampleWidth(e));
    }
  }

  lemma SequentialReads(eturns: seq<E.Turn>, k: nat)
    requires AreReads(eturns, JP.UpTo(k))
    ensures k <= |eturns| && forall j: nat :: j < k ==> eturns[j].read.ReadBytes?
    ensures k > 0 ==> JP.UpTo(k)[..k - 1] == JP.UpTo(k - 1) && AreReads(eturns, JP.UpTo(k - 1))
  {
    forall j: nat | j < k
      ensures j < |eturns| && eturns[j].read.ReadBytes?
    {
      assert JP.UpTo(k)[j] == j;
    }
    if k > 0 {
      assert JP.UpTo(k)[k - 1] == k - 1;
    }
  }

  lemma NoFrames(e: E.Setup, r: R.Setup)
    ensures RouteFrames([], e.channels, r.channels, EP.SampleWidth(e)) == []
  {
  }
}
