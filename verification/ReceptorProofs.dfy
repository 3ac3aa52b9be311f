/** What every run of the receptor gives to the device. */
module ReceptorProofs {
  import opened Bytes
  import opened Frames
  import opened Protocol
  import opened Packet
  import opened PacketProofs
  import opened ChannelMap
  import opened Audio
  import opened AudioProofs
  import opened Receptor

  predicate Heard(o: Setup, bytes: seq<byte>)
    requires Usable(o)
  {
    Check(o.name, bytes) == 0
  }

  /** The configuration of an accepted packet. */
  function ConfigOf(o: Setup, packet: seq<byte>): (cfg: StreamConfig)
    requires Usable(o) && Heard(o, packet)
    ensures ValidConfig(cfg)
  {
    AcceptedIsSafe(o.name, packet);
    GetStreamConfig(packet)
  }

  /** The device configuration that a stream asks for: its own, with the channel count of the map if there is one. */
  function DeviceFor(o: Setup, cfg: StreamConfig): StreamConfig {
    if o.channels != [] then cfg.(nbChannels := |o.channels|) else cfg
  }

  function PayloadOf(o: Setup, packet: seq<byte>): (payload: seq<byte>)
    requires Usable(o) && Heard(o, packet)
  {
    AcceptedIsSafe(o.name, packet);
    packet[HEADER_SIZE..]
  }

  /** A write went to a device opened for its packet's configuration. */
  predicate ToRightDevice(o: Setup, w: DeviceWrite)
    requires Usable(o)
  {
    Heard(o, w.packet) && w.device == Opened(DeviceFor(o, ConfigOf(o, w.packet)))
  }

  predicate AllHeard(o: Setup, ws: seq<DeviceWrite>)
    requires Usable(o)
  {
    forall w :: w in ws ==> Heard(o, w.packet)
  }

  /** The stream in force after a sequence of writes. */
  function LastConfig(o: Setup, ws: seq<DeviceWrite>): StreamConfig
    requires Usable(o) && AllHeard(o, ws)
  {
    if ws == [] then NO_STREAM else ConfigOf(o, ws[|ws| - 1].packet)
  }

  /** One open for each write whose configuration differs from the one before. */
  function OpensFor(o: Setup, ws: seq<DeviceWrite>): seq<StreamConfig>
    requires Usable(o) && AllHeard(o, ws)
  {
    if ws == [] then []
    else
      var init, cfg := ws[..|ws| - 1], ConfigOf(o, ws[|ws| - 1].packet);
      OpensFor(o, init) + if cfg == LastConfig(o, init) then [] else [DeviceFor(o, cfg)]
  }

  /** The invariant of the loop. */
  ghost predicate Consistent(o: Setup, s: Loop)
    requires Usable(o)
  {
    && Shaped(o, s) && s.audio.direction == AudioOut
    && (s.audio.stream != NO_STREAM ==> s.audio.device == Opened(DeviceConfig(s.audio)))
    && (forall w :: w in s.outputs ==> ToRightDevice(o, w))
    && OpensFor(o, s.outputs) <= s.audio.opens && |s.audio.opens| <= |OpensFor(o, s.outputs)| + 1
    && (s.running ==> s.audio.stream == LastConfig(o, s.outputs) && s.audio.opens == OpensFor(o, s.outputs))
  }

  /** What one turn adds, when it plays a packet. */
  lemma PlayStep(o: Setup, s: Loop, t: Turn)
    requires Usable(o) && Shaped(o, s) && TurnOk(o, t) && s.running && t.Datagram? && Heard(o, t.bytes)
    ensures var r, cfg := Step(o, s, t), ConfigOf(o, t.bytes);
            var (a, ret) := SetStream(s.audio, cfg, t.closeRet, t.openRet);
            if ret < 0 then r.audio == a && !r.running && r.outputs == s.outputs
            else
              && a.stream == cfg && a.channels == o.channels && |a.buffer| == DATA_MAX_SIZE
              && CanMap(a, DATA_MAX_SIZE, |PayloadOf(o, t.bytes)|, |PayloadOf(o, t.bytes)|)
              && r.running
              && r.audio == Write(a, PayloadOf(o, t.bytes)).0
              && r.outputs == s.outputs + [DeviceWrite(t.bytes, a.device, Write(a, PayloadOf(o, t.bytes)).1)]
  {
    hide Check, GetStreamConfig, MapInto, SampleSize;
    AcceptedIsSafe(o.name, t.bytes);
    var cfg := GetStreamConfig(t.bytes);
    var (a, ret) := SetStream(s.audio, cfg, t.closeRet, t.openRet);
    if ret >= 0 {
      PayloadFits(o, a, t);
      ResultIsNotSize(a, t.writeRet, |PayloadOf(o, t.bytes)|);
    }
  }

  /** The error branch after the size comparison is never taken: a negative result is not equal to any payload size. */
  lemma ResultIsNotSize(a: AudioState, writeRet: int, size: nat)
    requires -0x8000_0000 <= writeRet < 0x8000_0000 && size <= PROTOCOL_MAX_SIZE
    ensures AsSize(ReverseInputResult(a, writeRet)) == size ==> ReverseInputResult(a, writeRet) == size
    ensures -0x8000_0000 <= ReverseInputResult(a, writeRet) < 0x8000_0000
  {
  }

  lemma OpensForSnoc(o: Setup, ws: seq<DeviceWrite>, w: DeviceWrite, all: seq<DeviceWrite>, cfg: StreamConfig)
    requires Usable(o) && AllHeard(o, ws) && Heard(o, w.packet) && cfg == ConfigOf(o, w.packet)
    requires all == ws + [w] && AllHeard(o, all)
    ensures LastConfig(o, all) == cfg
    ensures OpensFor(o, all) == OpensFor(o, ws) + if cfg == LastConfig(o, ws) then [] else [DeviceFor(o, cfg)]
  {
    hide Check, ConfigOf, Usable, Heard;
    assert all[..|all| - 1] == ws;
  }

  lemma StepConsistent(o: Setup, s: Loop, t: Turn)
    requires Usable(o) && TurnOk(o, t) && Consistent(o, s)
    ensures Consistent(o, Step(o, s, t))
  {
    if s.running && t.Datagram? && Heard(o, t.bytes) {
      PlayedConsistent(o, s, t);
    } else {
      SilentTurn(o, s, t);
    }
  }

  lemma PlayedConsistent(o: Setup, s: Loop, t: Turn)
    requires Usable(o) && TurnOk(o, t) && Consistent(o, s) && s.running && t.Datagram? && Heard(o, t.bytes)
    ensures Consistent(o, Step(o, s, t))
  {
    hide Check, ConfigOf, PayloadOf, Write, CanMap, Step, OpensFor, LastConfig, TurnOk, Heard;
    PlayStep(o, s, t);
    var cfg := ConfigOf(o, t.bytes);
    var (a, ret) := SetStream(s.audio, cfg, t.closeRet, t.openRet);
    SetStreamAgrees(s.audio, cfg, t.closeRet, t.openRet);
    if ret >= 0 {
      WriteKeeps(a, PayloadOf(o, t.bytes));
      var w := DeviceWrite(t.bytes, a.device, Write(a, PayloadOf(o, t.bytes)).1);
      assert ToRightDevice(o, w);
      OpensForSnoc(o, s.outputs, w, s.outputs + [w], cfg);
    }
  }

  lemma SilentTurn(o: Setup, s: Loop, t: Turn)
    requires Usable(o) && Shaped(o, s) && TurnOk(o, t)
    requires !(s.running && t.Datagram? && Heard(o, t.bytes))
    ensures Step(o, s, t).outputs == s.outputs && Step(o, s, t).audio == s.audio
    ensures Step(o, s, t).running ==> s.running
  {
  }

  lemma WriteKeeps(a: AudioState, data: seq<byte>)
    requires |a.buffer| == DATA_MAX_SIZE && CanMap(a, DATA_MAX_SIZE, |data|, |data|)
    ensures Write(a, data).0 == a.(buffer := Write(a, data).0.buffer) && |Write(a, data).0.buffer| == DATA_MAX_SIZE
  {
  }

  /** Over every run, at every write the device was last opened for exactly the current packet's format;
      the backend's open is called exactly where the configuration changes, and at most once more, by a failing open. */
  lemma {:induction false} DeviceAgreement(o: Setup, turns: seq<Turn>)
    requires Usable(o) && forall t :: t in turns ==> TurnOk(o, t)
    ensures Consistent(o, Run(o, Start(o), turns))
  {
    if turns != [] {
      DeviceAgreement(o, turns[..|turns| - 1]);
      StepConsistent(o, Run(o, Start(o), turns[..|turns| - 1]), turns[|turns| - 1]);
    }
  }

  // ----- which packets are played

  /** The accepted datagrams of a run, in order. */
  function HeardPackets(o: Setup, turns: seq<Turn>): seq<seq<byte>>
    requires Usable(o)
  {
    if turns == [] then []
    else
      var t := turns[|turns| - 1];
      HeardPackets(o, turns[..|turns| - 1]) + if t.Datagram? && Heard(o, t.bytes) then [t.bytes] else []
  }

  function PacketsOf(ws: seq<DeviceWrite>): (ps: seq<seq<byte>>)
    ensures |ps| == |ws|
  {
    seq(|ws|, i requires 0 <= i < |ws| => ws[i].packet)
  }

  /** The played packets are the accepted ones, in order, up to the turn that stopped the loop. */
  lemma {:induction false} PlayedAreHeard(o: Setup, turns: seq<Turn>)
    requires Usable(o) && forall t :: t in turns ==> TurnOk(o, t)
    ensures PacketsOf(Run(o, Start(o), turns).outputs) <= HeardPackets(o, turns)
    ensures Run(o, Start(o), turns).running ==> PacketsOf(Run(o, Start(o), turns).outputs) == HeardPackets(o, turns)
  {
    if turns != [] {
      hide Step, Heard, TurnOk, PacketsOf;
      var init, t := turns[..|turns| - 1], turns[|turns| - 1];
      PlayedAreHeard(o, init);
      var s := Run(o, Start(o), init);
      StepPackets(o, s, t);
      PacketsSnoc(s.outputs, Step(o, s, t).outputs, t);
    }
  }

  /** One turn plays its datagram, or nothing; it goes on without playing only if there is nothing to play. */
  lemma StepPackets(o: Setup, s: Loop, t: Turn)
    requires Usable(o) && Shaped(o, s) && TurnOk(o, t)
    ensures var r := Step(o, s, t);
            || (r.outputs == s.outputs && (r.running ==> s.running && !(t.Datagram? && Heard(o, t.bytes))))
            || (&& s.running && t.Datagram? && Heard(o, t.bytes)
                && |r.outputs| == |s.outputs| + 1 && s.outputs <= r.outputs && r.outputs[|s.outputs|].packet == t.bytes)
  {
    hide Check, ConfigOf, PayloadOf, Write, CanMap, Step, Heard, TurnOk;
    if s.running && t.Datagram? && Heard(o, t.bytes) {
      PlayStep(o, s, t);
    } else {
      SilentTurn(o, s, t);
    }
  }

  lemma PacketsSnoc(before: seq<DeviceWrite>, after: seq<DeviceWrite>, t: Turn)
    requires after == before || (&& t.Datagram? && |after| == |before| + 1 && before <= after
                                 && after[|before|].packet == t.bytes)
    ensures PacketsOf(after) == PacketsOf(before) + if after == before then [] else [t.bytes]
  {
  }

  // ----- where a run stops

  /** The configuration of the last accepted datagram, or that of a zeroed handle. */
  function Current(o: Setup, turns: seq<Turn>): StreamConfig
    requires Usable(o)
  {
    if turns == [] then NO_STREAM
    else
      var t := turns[|turns| - 1];
      if t.Datagram? && Heard(o, t.bytes) then ConfigOf(o, t.bytes) else Current(o, turns[..|turns| - 1])
  }

  /** A turn that ends the loop after `turns`: a socket error, or an accepted datagram with a new configuration for
      which the device cannot be closed or opened. */
  predicate Stops(o: Setup, turns: seq<Turn>, t: Turn)
    requires Usable(o)
  {
    match t
    case SocketError => true
    case Datagram(bytes, closeRet, openRet, _) =>
      Heard(o, bytes) && ConfigOf(o, bytes) != Current(o, turns) && (closeRet < 0 || openRet < 0)
  }

  /** The number of turns before the first that ends the loop. */
  function StopIndex(o: Setup, turns: seq<Turn>): (k: nat)
    requires Usable(o)
    ensures k <= |turns|
  {
    if turns == [] then 0
    else
      var init := turns[..|turns| - 1];
      var k := StopIndex(o, init);
      if k < |init| || Stops(o, init, turns[|turns| - 1]) then k else |turns|
  }

  lemma {:induction false} StopIndexIsFirst(o: Setup, turns: seq<Turn>)
    requires Usable(o)
    ensures StopIndex(o, turns) < |turns| ==> Stops(o, turns[..StopIndex(o, turns)], turns[StopIndex(o, turns)])
    ensures forall i :: 0 <= i < StopIndex(o, turns) ==> !Stops(o, turns[..i], turns[i])
  {
    hide Stops, Heard;
    if turns != [] {
      var init := turns[..|turns| - 1];
      StopIndexIsFirst(o, init);
      assert forall i :: 0 <= i <= |init| ==> init[..i] == turns[..i];
      assert turns[..|init|] == init;
    }
  }

  /** The open that a stopping turn still asks for: the close succeeded and the open failed. */
  function LastOpen(o: Setup, turns: seq<Turn>, k: nat): seq<StreamConfig>
    requires Usable(o) && k <= |turns|
  {
    if k < |turns| && turns[k].Datagram? && Heard(o, turns[k].bytes) && turns[k].closeRet >= 0
    then [DeviceFor(o, ConfigOf(o, turns[k].bytes))]
    else []
  }

  /** A run is decided by its turns alone: it goes on until the first turn that stops it, plays exactly the datagrams
      accepted before that turn, and opens the device once for each change of configuration among them, and once more in
      vain if the stopping turn is an open that fails. Nothing after that turn is played or opened. */
  ghost predicate StopsThere(o: Setup, turns: seq<Turn>, s: Loop)
    requires Usable(o)
  {
    var k := StopIndex(o, turns);
    && (s.running <==> k == |turns|)
    && PacketsOf(s.outputs) == HeardPackets(o, turns[..k])
    && AllHeard(o, s.outputs)
    && s.audio.opens == OpensFor(o, s.outputs) + LastOpen(o, turns, k)
    && (s.running ==> s.audio.stream == Current(o, turns))
  }

  lemma {:induction false} RunStops(o: Setup, turns: seq<Turn>)
    requires Usable(o) && forall t :: t in turns ==> TurnOk(o, t)
    ensures StopsThere(o, turns, Run(o, Start(o), turns))
  {
    hide StopsThere, Step, TurnOk, Heard;
    if turns == [] {
      StartStops(o);
    } else {
      var init, t := turns[..|turns| - 1], turns[|turns| - 1];
      RunStops(o, init);
      DeviceAgreement(o, init);
      NextStops(o, init, t, Run(o, Start(o), init));
      assert init + [t] == turns;
    }
  }

  lemma StartStops(o: Setup)
    requires Usable(o)
    ensures StopsThere(o, [], Start(o))
  {
    hide Heard;
  }

  lemma NextStops(o: Setup, init: seq<Turn>, t: Turn, s: Loop)
    requires Usable(o) && Consistent(o, s) && TurnOk(o, t) && StopsThere(o, init, s)
    ensures StopsThere(o, init + [t], Step(o, s, t))
  {
    hide Heard, Step, TurnOk, ConfigOf, OpensFor;
    var turns := init + [t];
    assert turns[..|turns| - 1] == init;
    assert turns[..StopIndex(o, init)] == init[..StopIndex(o, init)];
    assert turns[..|turns|] == turns && init[..|init|] == init;
    if !s.running {
      StoppedTurn(o, s, t);
    } else if t.Datagram? && Heard(o, t.bytes) {
      PlayedStops(o, init, t, s);
    } else {
      QuietStops(o, init, t, s);
    }
  }

  lemma StoppedTurn(o: Setup, s: Loop, t: Turn)
    requires Usable(o) && Shaped(o, s) && TurnOk(o, t) && !s.running
    ensures Step(o, s, t) == s
  {
  }

  /** A socket error, or a datagram that is not accepted. */
  lemma QuietStops(o: Setup, init: seq<Turn>, t: Turn, s: Loop)
    requires Usable(o) && Shaped(o, s) && TurnOk(o, t) && StopsThere(o, init, s) && s.running
    requires !(t.Datagram? && Heard(o, t.bytes))
    ensures StopsThere(o, init + [t], Step(o, s, t))
  {
    hide OpensFor, Heard;
    var turns := init + [t];
    assert turns[..|turns| - 1] == init && turns[..|turns|] == turns && init[..|init|] == init;
    assert turns[..|init|] == init;
    SilentTurn(o, s, t);
    ErrorStops(o, s, t);
  }

  lemma ErrorStops(o: Setup, s: Loop, t: Turn)
    requires Usable(o) && Shaped(o, s) && TurnOk(o, t) && s.running && !(t.Datagram? && Heard(o, t.bytes))
    ensures Step(o, s, t).running <==> t.Datagram?
  {
  }

  /** An accepted datagram. */
  lemma PlayedStops(o: Setup, init: seq<Turn>, t: Turn, s: Loop)
    requires Usable(o) && Consistent(o, s) && TurnOk(o, t) && StopsThere(o, init, s) && s.running
    requires t.Datagram? && Heard(o, t.bytes)
    ensures StopsThere(o, init + [t], Step(o, s, t))
  {
    hide Heard, Step, TurnOk, ConfigOf, OpensFor, Write, CanMap, PayloadOf;
    var turns := init + [t];
    assert turns[..|turns| - 1] == init && turns[..|turns|] == turns && init[..|init|] == init;
    assert turns[..|init|] == init;
    var cfg := ConfigOf(o, t.bytes);
    var (a, ret) := SetStream(s.audio, cfg, t.closeRet, t.openRet);
    PlayStep(o, s, t);
    SetStreamAgrees(s.audio, cfg, t.closeRet, t.openRet);
    assert ret < 0 <==> Stops(o, init, t);
    if ret >= 0 {
      WriteKeeps(a, PayloadOf(o, t.bytes));
      var w := DeviceWrite(t.bytes, a.device, Write(a, PayloadOf(o, t.bytes)).1);
      OpensForSnoc(o, s.outputs, w, s.outputs + [w], cfg);
      PacketsSnoc(s.outputs, s.outputs + [w], t);
    }
  }

  lemma JunkIgnored(o: Setup, s: Loop, t: Turn)
    requires Usable(o) && Shaped(o, s) && TurnOk(o, t) && t.Datagram? && !Heard(o, t.bytes)
    ensures Step(o, s, t) == s
  {
  }

  /** The turns of a run without the datagrams that are not accepted. */
  function WithoutJunk(o: Setup, turns: seq<Turn>): (r: seq<Turn>)
    requires Usable(o)
    ensures forall t :: t in r ==> t in turns && (t.Datagram? ==> Heard(o, t.bytes))
  {
    if turns == [] then []
    else
      var t := turns[|turns| - 1];
      var kept := WithoutJunk(o, turns[..|turns| - 1]);
      assert forall u :: u in kept ==> u in turns[..|turns| - 1];
      if t.Datagram? && !Heard(o, t.bytes) then kept else kept + [t]
  }

  /** Datagrams that are not accepted change nothing at all, wherever they arrive. */
  lemma {:induction false} JunkChangesNothing(o: Setup, turns: seq<Turn>)
    requires Usable(o) && forall t :: t in turns ==> TurnOk(o, t)
    ensures Run(o, Start(o), turns) == Run(o, Start(o), WithoutJunk(o, turns))
  {
    hide Step, Heard, TurnOk;
    if turns != [] {
      var init, t := turns[..|turns| - 1], turns[|turns| - 1];
      JunkChangesNothing(o, init);
      if t.Datagram? && !Heard(o, t.bytes) {
        JunkIgnored(o, Run(o, Start(o), init), t);
      } else {
        var kept := WithoutJunk(o, init);
        assert WithoutJunk(o, turns) == kept + [t] && (kept + [t])[..|kept|] == kept;
      }
    }
  }

  lemma {:induction false} NoJunk(o: Setup, turns: seq<Turn>)
    requires Usable(o) && forall t :: t in turns ==> t.Datagram? && Heard(o, t.bytes)
    ensures WithoutJunk(o, turns) == turns
  {
    hide Heard;
    if turns != [] {
      NoJunk(o, turns[..|turns| - 1]);
    }
  }

  predicate Healthy(t: Turn) {
    t.Datagram? && t.closeRet >= 0 && t.openRet >= 0
  }

  /** While the socket and the device opens succeed the loop never stops, whatever the device writes return. */
  lemma {:induction false} NeverStopsOnWrites(o: Setup, turns: seq<Turn>)
    requires Usable(o) && forall t :: t in turns ==> TurnOk(o, t) && Healthy(t)
    ensures Run(o, Start(o), turns).running
  {
    if turns != [] {
      var init, t := turns[..|turns| - 1], turns[|turns| - 1];
      NeverStopsOnWrites(o, init);
      assert TurnOk(o, t) && Healthy(t);
      if Heard(o, t.bytes) {
        hide Check, ConfigOf, PayloadOf, Write, CanMap, Step;
        PlayStep(o, Run(o, Start(o), init), t);
      }
    }
  }

  // ----- what is played

  /** The frames of an accepted packet. */
  function PacketFrames(o: Setup, packet: seq<byte>): seq<Frame>
    requires Usable(o) && Heard(o, packet)
  {
    FramesOf(PayloadOf(o, packet), ConfigOf(o, packet).nbChannels, SampleSize(ConfigOf(o, packet).bitFmt))
  }

  /** The bytes of a write are exactly the mapped frames of its packet. */
  predicate PlaysExactly(o: Setup, w: DeviceWrite)
    requires Usable(o) && Heard(o, w.packet)
  {
    var cfg := ConfigOf(o, w.packet);
    var n, width := MappedChannels(o.channels, cfg.nbChannels), SampleSize(cfg.bitFmt);
    && n > 0
    && WholeFrames(w.bytes, |PacketFrames(o, w.packet)|, n, width)
    && FramesOf(w.bytes, n, width) == MapFrames(PacketFrames(o, w.packet), o.channels, width)
  }

  lemma PayloadIsWhole(o: Setup, packet: seq<byte>)
    requires Usable(o) && Heard(o, packet)
    ensures var cfg := ConfigOf(o, packet);
            && |PacketFrames(o, packet)| >= 1
            && WholeFrames(PayloadOf(o, packet), |PacketFrames(o, packet)|, cfg.nbChannels, SampleSize(cfg.bitFmt))
  {
    AcceptedIsSafe(o.name, packet);
  }

  /** The packet's map is exact whatever the buffer held: the bytes it clears cover the silent slots. */
  ghost predicate Covered(o: Setup, packet: seq<byte>)
    requires Usable(o) && Heard(o, packet)
  {
    var cfg := ConfigOf(o, packet);
    o.channels != [] ==> ClearCovers(|PayloadOf(o, packet)|, o.channels, cfg.nbChannels, SampleSize(cfg.bitFmt))
  }

  /** Narrow maps, and maps of channels that every stream of the packet's width has. */
  lemma NarrowIsCovered(o: Setup, packet: seq<byte>)
    requires Usable(o) && Heard(o, packet)
    requires || |o.channels| <= ConfigOf(o, packet).nbChannels
             || (forall c :: 0 <= c < |o.channels| ==> o.channels[c] as nat < ConfigOf(o, packet).nbChannels)
    ensures Covered(o, packet)
  {
    hide Heard;
    var cfg := ConfigOf(o, packet);
    if o.channels != [] {
      if |o.channels| <= cfg.nbChannels {
        NarrowMapCovers(|PayloadOf(o, packet)|, o.channels, cfg.nbChannels, SampleSize(cfg.bitFmt));
      } else {
        LiveMapCovers(|PayloadOf(o, packet)|, o.channels, cfg.nbChannels, SampleSize(cfg.bitFmt));
      }
    }
  }

  predicate OneFormat(o: Setup, turns: seq<Turn>, cfg: StreamConfig)
    requires Usable(o)
  {
    forall t :: t in turns && t.Datagram? && Heard(o, t.bytes) ==> ConfigOf(o, t.bytes) == cfg
  }

  ghost predicate AllCovered(o: Setup, turns: seq<Turn>)
    requires Usable(o)
  {
    forall t :: t in turns && t.Datagram? && Heard(o, t.bytes) ==> Covered(o, t.bytes)
  }

  ghost predicate Quiet(o: Setup, s: Loop, cfg: StreamConfig) {
    o.channels != [] ==> Silent(s.audio.buffer, o.channels, cfg.nbChannels, SampleSize(cfg.bitFmt))
  }

  predicate AllExact(o: Setup, ws: seq<DeviceWrite>)
    requires Usable(o)
  {
    forall w :: w in ws ==> Heard(o, w.packet) && PlaysExactly(o, w)
  }

  /** One turn adds nothing to the writes, or one that plays its packet exactly. */
  ghost predicate StepExact(o: Setup, s: Loop, r: Loop, t: Turn)
    requires Usable(o)
  {
    || r.outputs == s.outputs
    || exists w :: r.outputs == s.outputs + [w] && ExactWrite(o, w, t)
  }

  predicate ExactWrite(o: Setup, w: DeviceWrite, t: Turn)
    requires Usable(o)
  {
    t.Datagram? && w.packet == t.bytes && Heard(o, w.packet) && PlaysExactly(o, w)
  }

  /** One played packet: exact from a quiet buffer of the same configuration, or through a covered map. */
  lemma PlayExact(o: Setup, s: Loop, t: Turn, cfg: StreamConfig)
    requires Usable(o) && Shaped(o, s) && TurnOk(o, t) && s.running && t.Datagram? && Heard(o, t.bytes)
    requires (ConfigOf(o, t.bytes) == cfg && Quiet(o, s, cfg)) || Covered(o, t.bytes)
    ensures StepExact(o, s, Step(o, s, t), t)
    ensures ConfigOf(o, t.bytes) == cfg && Quiet(o, s, cfg) ==> Quiet(o, Step(o, s, t), cfg)
  {
    hide Check, ConfigOf, PayloadOf, Write, CanMap, Step, Silent, ClearCovers;
    PlayStep(o, s, t);
    var (a, ret) := SetStream(s.audio, ConfigOf(o, t.bytes), t.closeRet, t.openRet);
    if ret >= 0 {
      PayloadIsWhole(o, t.bytes);
      var payload, k := PayloadOf(o, t.bytes), |PacketFrames(o, t.bytes)|;
      if ConfigOf(o, t.bytes) == cfg && Quiet(o, s, cfg) {
        SilentWrite(a, payload, k);
      } else {
        CoveredWrite(a, payload, k);
      }
      assert ExactWrite(o, DeviceWrite(t.bytes, a.device, Write(a, payload).1), t);
    }
  }

  lemma ExactSnoc(o: Setup, s: Loop, r: Loop, t: Turn)
    requires Usable(o) && AllExact(o, s.outputs) && StepExact(o, s, r, t)
    ensures AllExact(o, r.outputs)
  {
    hide Heard, PlaysExactly, Usable;
  }

  /** Every write of a run with one format plays exactly its packet: existing channels in place, the others silent. */
  lemma {:induction false} OneFormatPlayback(o: Setup, turns: seq<Turn>, cfg: StreamConfig)
    requires Usable(o) && (forall t :: t in turns ==> TurnOk(o, t)) && OneFormat(o, turns, cfg)
    ensures AllExact(o, Run(o, Start(o), turns).outputs) && Quiet(o, Run(o, Start(o), turns), cfg)
  {
    hide Heard, ConfigOf, PlaysExactly, TurnOk, Usable, Silent, StepExact, Quiet, AllExact, Step;
    if turns == [] {
      StartsQuiet(o, cfg);
    } else {
      var init, t := turns[..|turns| - 1], turns[|turns| - 1];
      OneFormatPlayback(o, init, cfg);
      var s := Run(o, Start(o), init);
      if s.running && t.Datagram? && Heard(o, t.bytes) {
        PlayExact(o, s, t, cfg);
        ExactSnoc(o, s, Step(o, s, t), t);
      } else {
        SilentTurn(o, s, t);
        SameQuiet(o, s, Step(o, s, t), cfg);
      }
    }
  }

  lemma StartsQuiet(o: Setup, cfg: StreamConfig)
    requires Usable(o)
    ensures Quiet(o, Start(o), cfg) && AllExact(o, Start(o).outputs)
  {
    if o.channels != [] {
      ZerosAreSilent(DATA_MAX_SIZE, o.channels, cfg.nbChannels, SampleSize(cfg.bitFmt));
    }
  }

  lemma SameQuiet(o: Setup, s: Loop, r: Loop, cfg: StreamConfig)
    requires r.audio == s.audio && Quiet(o, s, cfg)
    ensures Quiet(o, r, cfg)
  {
  }

  /** So does every write of a run whose packets all clear enough of the buffer. */
  lemma {:induction false} CoveredPlayback(o: Setup, turns: seq<Turn>)
    requires Usable(o) && (forall t :: t in turns ==> TurnOk(o, t)) && AllCovered(o, turns)
    ensures AllExact(o, Run(o, Start(o), turns).outputs)
  {
    hide Heard, ConfigOf, PlaysExactly, TurnOk, Usable, Silent, StepExact, Quiet, AllExact, Step, Covered;
    if turns == [] {
      StartsQuiet(o, NO_STREAM);
    } else {
      var init, t := turns[..|turns| - 1], turns[|turns| - 1];
      CoveredPlayback(o, init);
      var s := Run(o, Start(o), init);
      if s.running && t.Datagram? && Heard(o, t.bytes) {
        PlayExact(o, s, t, ConfigOf(o, t.bytes));
        ExactSnoc(o, s, Step(o, s, t), t);
      } else {
        SilentTurn(o, s, t);
      }
    }
  }

  // ----- what holds of every write

  /** A write of whole frames, as many as its packet has, with the device's channels. */
  predicate WholeWrite(o: Setup, w: DeviceWrite)
    requires Usable(o)
  {
    && Heard(o, w.packet)
    && WholeFrames(w.bytes, |PacketFrames(o, w.packet)|, DeviceFor(o, ConfigOf(o, w.packet)).nbChannels,
                   SampleSize(ConfigOf(o, w.packet).bitFmt))
  }

  /** Every write of every run is whole frames, exact or not. */
  lemma {:induction false} WholeOutputs(o: Setup, turns: seq<Turn>)
    requires Usable(o) && forall t :: t in turns ==> TurnOk(o, t)
    ensures forall w :: w in Run(o, Start(o), turns).outputs ==> WholeWrite(o, w)
  {
    hide Step, Heard, TurnOk, WholeWrite;
    if turns != [] {
      var init, t := turns[..|turns| - 1], turns[|turns| - 1];
      WholeOutputs(o, init);
      var s := Run(o, Start(o), init);
      if s.running && t.Datagram? && Heard(o, t.bytes) {
        WholeStep(o, s, t);
      } else {
        SilentTurn(o, s, t);
      }
    }
  }

  lemma WholeStep(o: Setup, s: Loop, t: Turn)
    requires Usable(o) && Shaped(o, s) && TurnOk(o, t) && s.running && t.Datagram? && Heard(o, t.bytes)
    requires forall w :: w in s.outputs ==> WholeWrite(o, w)
    ensures forall w :: w in Step(o, s, t).outputs ==> WholeWrite(o, w)
  {
    hide Check, ConfigOf, PayloadOf, Write, CanMap, Step, Heard;
    PlayStep(o, s, t);
    var (a, ret) := SetStream(s.audio, ConfigOf(o, t.bytes), t.closeRet, t.openRet);
    if ret >= 0 {
      PayloadIsWhole(o, t.bytes);
      WriteMeaning(a, PayloadOf(o, t.bytes), |PacketFrames(o, t.bytes)|);
      assert WholeWrite(o, DeviceWrite(t.bytes, a.device, Write(a, PayloadOf(o, t.bytes)).1));
    }
  }

  // ----- exactly which channel lists keep missing channels silent

  /** At most one entry, or no entry but the first channel. */
  predicate NeverStale(o: Setup) {
    |o.channels| <= 1 || forall c :: 0 <= c < |o.channels| ==> o.channels[c] == 0
  }

  /** Whatever arrives, every write plays exactly its packet. */
  ghost predicate AlwaysExact(o: Setup)
    requires Usable(o)
  {
    forall turns: seq<Turn> :: (forall t :: t in turns ==> TurnOk(o, t)) ==>
      AllExact(o, Run(o, Start(o), turns).outputs)
  }

  lemma NeverStaleCovers(o: Setup, turns: seq<Turn>)
    requires Usable(o) && NeverStale(o)
    ensures AllCovered(o, turns)
  {
    hide Heard, Covered;
    forall t | t in turns && t.Datagram? && Heard(o, t.bytes)
      ensures Covered(o, t.bytes)
    {
      NarrowIsCovered(o, t.bytes);
    }
  }

  /** Two frames of 256 8-bit channels, all ones. */
  function WidePacket(o: Setup): AudioPacket {
    AudioPacket(StreamConfig(256, 6000, 0), 2, o.name, 0, seq(512, _ => 1))
  }

  /** Two frames of one 8-bit channel. */
  function MonoPacket(o: Setup): AudioPacket {
    AudioPacket(StreamConfig(1, 6000, 0), 2, o.name, 1, [5, 5])
  }

  /** A stream of 256 channels that changes to one channel. */
  function WideThenMono(o: Setup): seq<Turn>
    requires WellFormed(WidePacket(o)) && WellFormed(MonoPacket(o))
  {
    [Datagram(Encode(WidePacket(o)), 0, 0, 0)] + [Datagram(Encode(MonoPacket(o)), 0, 0, 0)]
  }

  lemma StalePackets(o: Setup)
    requires Usable(o)
    ensures WellFormed(WidePacket(o)) && WellFormed(MonoPacket(o))
  {
    CommonRatesKnown();
  }

  /** An encoded packet under the receptor's own name. */
  lemma OwnPacketHeard(o: Setup, p: AudioPacket)
    requires Usable(o) && WellFormed(p) && p.name == o.name
    ensures Heard(o, Encode(p)) && ConfigOf(o, Encode(p)) == p.cfg && PayloadOf(o, Encode(p)) == p.payload
    ensures |Encode(p)| == HEADER_SIZE + |p.payload|
  {
    hide Check, Encode;
    EncodedAccepted(o.name, p);
    EncodedParts(p);
  }

  lemma OwnPacketOk(o: Setup, p: AudioPacket)
    requires Usable(o) && WellFormed(p) && p.name == o.name
    requires |p.payload| <= DATA_MAX_SIZE
    requires o.channels != [] ==>
      MappedSize(|p.payload|, o.channels, p.cfg.nbChannels, SampleSize(p.cfg.bitFmt)) <= DATA_MAX_SIZE
    ensures TurnOk(o, Datagram(Encode(p), 0, 0, 0))
  {
    hide Check, Encode, MappedSize;
    OwnPacketHeard(o, p);
  }

  /** A packet played through a map, whatever the handle's buffer holds. */
  lemma MappedStep(o: Setup, s: Loop, p: AudioPacket)
    requires Usable(o) && Shaped(o, s) && s.running && o.channels != []
    requires WellFormed(p) && p.name == o.name && TurnOk(o, Datagram(Encode(p), 0, 0, 0))
    ensures var r, n, w := Step(o, s, Datagram(Encode(p), 0, 0, 0)), p.cfg.nbChannels, SampleSize(p.cfg.bitFmt);
            && MapFits(DATA_MAX_SIZE, |p.payload|, |p.payload|, o.channels, n, w)
            && r.running && |r.outputs| == |s.outputs| + 1 && r.outputs[|s.outputs|].packet == Encode(p)
            && r.audio.buffer == MapInto(s.audio.buffer, p.payload, |p.payload|, o.channels, n, w)
            && Heard(o, Encode(p))
            && (PlaysExactly(o, r.outputs[|s.outputs|])
                <==> MapsExactly(s.audio.buffer, p.payload, |p.payload|, o.channels, n, w))
  {
    hide Encode, Check, CanMap, ConfigOf, PayloadOf, Heard, Step, TurnOk, MapInto, MappedSize, FramesOf, MapsExactly,
      Write;
    var t := Datagram(Encode(p), 0, 0, 0);
    OwnPacketHeard(o, p);
    PlayStep(o, s, t);
    var a := SetStream(s.audio, p.cfg, 0, 0).0;
    var k := |PacketFrames(o, t.bytes)|;
    PayloadIsWhole(o, t.bytes);
    WriteMeaning(a, p.payload, k);
    WriteThroughMap(a, p.payload);
  }

  lemma WriteThroughMap(a: AudioState, data: seq<byte>)
    requires |a.buffer| == DATA_MAX_SIZE && CanMap(a, DATA_MAX_SIZE, |data|, |data|) && a.channels != []
    ensures MapFits(DATA_MAX_SIZE, |data|, |data|, a.channels, a.stream.nbChannels, Width(a))
    ensures Write(a, data).0.buffer == MapInto(a.buffer, data, |data|, a.channels, a.stream.nbChannels, Width(a))
  {
  }

  lemma RunTwo(o: Setup, t0: Turn, t1: Turn)
    requires Usable(o) && TurnOk(o, t0) && TurnOk(o, t1)
    ensures Run(o, Start(o), [t0] + [t1]) == Step(o, Step(o, Start(o), t0), t1)
  {
    hide Step, TurnOk;
    assert ([t0] + [t1])[..1] == [t0] && [t0][..0] == [];
    assert Run(o, Start(o), []) == Start(o);
    assert Run(o, Start(o), [t0]) == Step(o, Start(o), t0);
  }

  /** Ones on every channel of a 256-channel stream reach every slot of the map. */
  lemma OnesEverywhere(dst: seq<byte>, src: seq<byte>, m: seq<byte>, j: nat)
    requires MapFits(|dst|, |src|, 512, m, 256, 1) && j < 2 * |m|
    requires forall i :: 0 <= i < |src| ==> src[i] == 1
    ensures j < |dst| && MapInto(dst, src, 512, m, 256, 1)[j] == 1
  {
    hide MapFits, MapInto;
    var f, c := CellOf(j, |m|, 2);
    OneAt(dst, src, m, f, c, j);
  }

  lemma OneAt(dst: seq<byte>, src: seq<byte>, m: seq<byte>, f: nat, c: nat, j: nat)
    requires MapFits(|dst|, |src|, 512, m, 256, 1) && f < 2 && c < |m| && j == f * |m| + c
    requires forall i :: 0 <= i < |src| ==> src[i] == 1
    ensures j < |dst| && MapInto(dst, src, 512, m, 256, 1)[j] == 1
  {
    hide MapInto, MappedSlots, FrameCount;
    assert FrameCount(512, 256, 1) == 2 by { StaleSizes(m); }
    CellFits(f, c, |m|, 2);
    MappedLive(dst, src, 512, m, 256, 1, f, c, j, f * 256 + m[c] as nat);
    MapIntoSlot(dst, src, 512, m, 256, 1, j);
    assert Slot(MapInto(dst, src, 512, m, 256, 1), j, 1)[0] == MapInto(dst, src, 512, m, 256, 1)[j];
  }

  /** With two entries or more, one of them not the first channel, a stream that changes from 256 channels to one leaves
      old samples on that entry's channel: the second write does not play its packet. */
  lemma StaleRun(o: Setup, c: nat)
    requires Usable(o) && |o.channels| >= 2 && c < |o.channels| && o.channels[c] != 0
    ensures WellFormed(WidePacket(o)) && WellFormed(MonoPacket(o))
    ensures forall t :: t in WideThenMono(o) ==> TurnOk(o, t)
    ensures var ws := Run(o, Start(o), WideThenMono(o)).outputs;
            && |ws| == 2 && Heard(o, ws[1].packet) && !PlaysExactly(o, ws[1])
  {
    hide Encode, Heard, Step, TurnOk, PlaysExactly, MapInto, MapsExactly, Run;
    StalePackets(o);
    var m, wide, mono := o.channels, WidePacket(o), MonoPacket(o);
    StaleSizes(m);
    OwnPacketOk(o, wide);
    OwnPacketOk(o, mono);
    var t0, t1 := Datagram(Encode(wide), 0, 0, 0), Datagram(Encode(mono), 0, 0, 0);
    var s1 := Step(o, Start(o), t0);
    MappedStep(o, Start(o), wide);
    MappedStep(o, s1, mono);
    RunTwo(o, t0, t1);
    OnesEverywhere(Zeros(DATA_MAX_SIZE), wide.payload, m, |m| + c);
    CellSlot(m, 1, 2, 1, c);
    StaleSlot(s1.audio.buffer, mono.payload, 2, m, 1, 1, |m| + c);
  }

  lemma StaleSizes(m: seq<byte>)
    ensures FrameCount(512, 256, 1) == 2 && FrameCount(2, 1, 1) == 2
    ensures MappedSize(512, m, 256, 1) == 2 * |m| && MappedSize(2, m, 1, 1) == 2 * |m|
  {
  }

  /** Whatever arrives, channels that do not exist are silent and the others in place, just when the channel list has at
      most one entry or names only the first channel. */
  lemma AlwaysExactIff(o: Setup)
    requires Usable(o)
    ensures AlwaysExact(o) <==> NeverStale(o)
  {
    hide TurnOk, AllCovered, Run, PlaysExactly, Heard, WidePacket, MonoPacket, Encode;
    if NeverStale(o) {
      forall turns: seq<Turn> | forall t :: t in turns ==> TurnOk(o, t)
        ensures AllExact(o, Run(o, Start(o), turns).outputs)
      {
        NeverStaleCovers(o, turns);
        CoveredPlayback(o, turns);
      }
    } else {
      var c: nat :| c < |o.channels| && o.channels[c] != 0;
      StaleRun(o, c);
      var ws := Run(o, Start(o), WideThenMono(o)).outputs;
      assert ws[1] in ws;
    }
  }

  // ----- which channel lists keep every remap inside the handle's buffer

  /** Every datagram that can be accepted is remapped within the buffer. */
  ghost predicate RemapsFit(o: Setup)
    requires Usable(o)
  {
    forall bytes: seq<byte> :: |bytes| <= PROTOCOL_MAX_SIZE && Heard(o, bytes) ==> RemapSize(o, bytes) <= DATA_MAX_SIZE
  }

  /** 179 frames of one 64-bit channel. */
  function WideSamples(o: Setup): AudioPacket {
    AudioPacket(StreamConfig(1, 6000, 5), 179, o.name, 0, Zeros(1432))
  }

  /** Lists of at most one entry are safe for every packet; a list of two or more entries needs more than the buffer for
      179 frames of one 64-bit channel, 2864 bytes for two entries. */
  lemma RemapsFitIff(o: Setup)
    requires Usable(o)
    ensures RemapsFit(o) <==> |o.channels| <= 1
    ensures WellFormed(WideSamples(o)) && Heard(o, Encode(WideSamples(o)))
    ensures |Encode(WideSamples(o))| <= PROTOCOL_MAX_SIZE
    ensures o.channels != [] ==> RemapSize(o, Encode(WideSamples(o))) == 1432 * |o.channels|
  {
    hide Check, Encode, RemapSize;
    WideSamplesSize(o);
    if |o.channels| <= 1 {
      forall bytes: seq<byte> | |bytes| <= PROTOCOL_MAX_SIZE && Heard(o, bytes)
        ensures RemapSize(o, bytes) <= DATA_MAX_SIZE
      {
        OneEntryFits(o, bytes);
      }
    }
  }

  lemma WideSamplesSize(o: Setup)
    requires Usable(o)
    ensures WellFormed(WideSamples(o)) && Heard(o, Encode(WideSamples(o)))
    ensures |Encode(WideSamples(o))| == HEADER_SIZE + 1432
    ensures o.channels != [] ==> RemapSize(o, Encode(WideSamples(o))) == 1432 * |o.channels|
  {
    hide Encode, Check;
    CommonRatesKnown();
    OwnPacketHeard(o, WideSamples(o));
    assert FrameCount(1432, 1, 8) == 179;
  }

  lemma OneEntryFits(o: Setup, bytes: seq<byte>)
    requires Usable(o) && Heard(o, bytes) && |bytes| <= PROTOCOL_MAX_SIZE && |o.channels| <= 1
    ensures RemapSize(o, bytes) <= DATA_MAX_SIZE
  {
    hide Check, GetStreamConfig, FrameCount;
    AcceptedIsSafe(o.name, bytes);
    var cfg, size := GetStreamConfig(bytes), |bytes| - HEADER_SIZE;
    var k, w := FrameCount(size, cfg.nbChannels, SampleSize(cfg.bitFmt)), SampleSize(cfg.bitFmt);
    SourceRoom(size, cfg.nbChannels, w);
    if o.channels != [] {
      NarrowRoom(k, |o.channels|, cfg.nbChannels, w);
    }
  }

  // ----- the buffer sizes

  /** The device buffer size of each quality. */
  lemma QualityTable(quality: byte)
    ensures DeviceBufferSize(quality) == if quality < 5 then [1536, 3072, 6144, 12288, 24576][quality] else 1464
  {
    SevenPowers();
  }
}
