/** The emitter: device reads are mapped into the payload of one packet buffer, stamped, checked and sent. */
module Emitter {
  import opened Bytes
  import opened Frames
  import opened Protocol
  import opened Packet
  import opened PacketProofs
  import opened Audio
  import opened AudioProofs

  /** What the environment does in one turn of the loop: the backend read, and the result of the socket write. */
  datatype Turn = Turn(read: DeviceRead, socketRet: int)

  /** What the options fix for a whole run. */
  datatype Setup = Setup(stream: StreamConfig, channels: seq<byte>, name: seq<byte>)

  function PacketConfig(o: Setup): StreamConfig {
    if o.channels != [] then o.stream.(nbChannels := |o.channels|) else o.stream
  }

  function MaxSize(o: Setup): nat
    requires Sendable(PacketConfig(o))
  {
    MaxFrames(FrameBytes(PacketConfig(o))) * FrameBytes(PacketConfig(o))
  }

  function AudioOf(o: Setup, buffer: seq<byte>): AudioState {
    AudioState(AudioIn, o.stream, o.channels, buffer, Opened(o.stream), [o.stream])
  }

  /** The bytes asked of the device at each turn. */
  function Request(o: Setup): nat
    requires Sendable(PacketConfig(o))
  {
    ReverseInputSize(AudioOf(o, []), MaxSize(o))
  }

  /** Options under which every remap stays inside the buffers. */
  predicate Usable(o: Setup) {
    && Sendable(o.stream) && |o.channels| <= CHANNELS_MAX_NB
    && |o.name| == STREAM_NAME_SIZE && o.name[STREAM_NAME_SIZE - 1] == 0
    && Request(o) <= DATA_MAX_SIZE
  }

  /** The backend contract: an error is negative, and a read never delivers more than was asked. */
  predicate TurnOk(o: Setup, t: Turn)
    requires Usable(o)
  {
    match t.read
    case ReadError(code) => code < 0
    case ReadBytes(bytes) => |bytes| <= Request(o)
  }

  lemma RequestIsFrames(o: Setup)
    requires Sendable(o.stream) && |o.channels| <= CHANNELS_MAX_NB
    ensures var n := MaxFrames(FrameBytes(PacketConfig(o)));
            && MaxSize(o) == (n * PacketConfig(o).nbChannels) * SampleSize(o.stream.bitFmt)
            && Request(o) == (n * o.stream.nbChannels) * SampleSize(o.stream.bitFmt)
            && MaxSize(o) <= DATA_MAX_SIZE && n <= SAMPLES_MAX_NB
  {
    hide MaxFrames, ReverseInputSize;
    var frame := FrameBytes(PacketConfig(o));
    var n := MaxFrames(frame);
    Assoc(n, PacketConfig(o).nbChannels, SampleSize(o.stream.bitFmt));
    ScalingCancels(AudioOf(o, []), n);
    MaxPayloadIsMaximal(frame);
  }

  /** The remap of a turn's read fits, and its result is at most the payload limit. */
  lemma ReadFits(o: Setup, buffer: seq<byte>, size: nat)
    requires Usable(o) && size <= Request(o)
    ensures size <= DATA_MAX_SIZE && Playable(AudioOf(o, Zeros(DATA_MAX_SIZE)))
    ensures OutputSize(AudioOf(o, buffer), size) <= MaxSize(o) <= DATA_MAX_SIZE
    ensures CanMap(AudioOf(o, buffer), DATA_MAX_SIZE, DATA_MAX_SIZE, size)
  {
    var a, n := AudioOf(o, buffer), MaxFrames(FrameBytes(PacketConfig(o)));
    RequestIsFrames(o);
    if o.channels != [] {
      MulMono(size, Request(o), |o.channels|);
      ScaleExact(n, |o.channels|, o.stream.nbChannels, SampleSize(o.stream.bitFmt));
      DivMono(size * |o.channels|, Request(o) * |o.channels|, o.stream.nbChannels);
      MappedSizeBelowOutput(a, size);
    }
  }

  /** The state of the loop: the handle's buffer, the packet buffer, what was sent, the sizes that the device was asked
      for, whether it goes on, and the result. */
  datatype Loop = Loop(buffer: seq<byte>, packet: seq<byte>, sent: seq<seq<byte>>, asked: seq<nat>, running: bool,
                       ret: int)

  predicate Shaped(o: Setup, s: Loop) {
    && |s.buffer| == DATA_MAX_SIZE && |s.packet| == PROTOCOL_MAX_SIZE
    && FrameSize(s.packet) == FrameBytes(PacketConfig(o))
  }

  lemma StampKeepsFrameSize(pkt: seq<byte>, size: nat)
    requires |pkt| >= HEADER_SIZE && FrameSize(pkt) > 0
    ensures FrameSize(Stamp(pkt, size)) == FrameSize(pkt)
  {
    assert Stamp(pkt, size)[6] == pkt[6] && Stamp(pkt, size)[7] == pkt[7];
  }

  lemma SameHeaderSameFrame(p: seq<byte>, q: seq<byte>)
    requires |p| >= HEADER_SIZE && |q| >= HEADER_SIZE && p[..HEADER_SIZE] == q[..HEADER_SIZE]
    ensures FrameSize(p) == FrameSize(q)
  {
    assert p[6] == p[..HEADER_SIZE][6] && p[7] == p[..HEADER_SIZE][7];
    assert q[6] == q[..HEADER_SIZE][6] && q[7] == q[..HEADER_SIZE][7];
  }

  /** The packet buffer after reading `bytes` and stamping, and the payload size. */
  function Prepared(o: Setup, s: Loop, bytes: seq<byte>): (r: (seq<byte>, seq<byte>, nat))
    requires Usable(o) && Shaped(o, s) && |bytes| <= Request(o)
    ensures |r.0| == DATA_MAX_SIZE && |r.1| == PROTOCOL_MAX_SIZE && r.2 <= DATA_MAX_SIZE
    ensures FrameSize(r.1) == FrameBytes(PacketConfig(o))
  {
    ReadFits(o, s.buffer, |bytes|);
    var (a, payload, size) := Read(AudioOf(o, s.buffer), s.packet[HEADER_SIZE..], bytes);
    var filled := s.packet[..HEADER_SIZE] + payload;
    SameHeaderSameFrame(filled, s.packet);
    StampKeepsFrameSize(filled, size);
    (a.buffer, Stamp(filled, size), size)
  }

  /** One turn of the loop. */
  function Step(o: Setup, s: Loop, t: Turn): (r: Loop)
    requires Usable(o) && Shaped(o, s) && TurnOk(o, t)
    ensures Shaped(o, r)
  {
    if !s.running then s
    else
      var asked := s.asked + [Request(o)];
      match t.read
      case ReadError(_) => s.(asked := asked, running := false)
      case ReadBytes(bytes) =>
        var (buffer, packet, size) := Prepared(o, s, bytes);
        var datagram := packet[..HEADER_SIZE + size];
        var check := Check(o.name, datagram);
        var next := s.(asked := asked, buffer := buffer, packet := packet);
        if check != 0 then next.(running := false, ret := check)
        else if t.socketRet < 0 then next.(running := false, ret := t.socketRet)
        else next.(sent := s.sent + [datagram], ret := t.socketRet)
  }

  /** Any number of turns, from the start. */
  function Run(o: Setup, s: Loop, turns: seq<Turn>): (r: Loop)
    requires Usable(o) && Shaped(o, s) && forall t :: t in turns ==> TurnOk(o, t)
    ensures Shaped(o, r)
  {
    if turns == [] then s else Step(o, Run(o, s, turns[..|turns| - 1]), turns[|turns| - 1])
  }

  /** The packet buffer before the loop. */
  function FirstPacket(o: Setup): (p: seq<byte>)
    ensures |p| == PROTOCOL_MAX_SIZE
  {
    InitHeader(Zeros(PROTOCOL_MAX_SIZE), PacketConfig(o), o.name)
  }

  function Start(o: Setup): Loop {
    Loop(Zeros(DATA_MAX_SIZE), FirstPacket(o), [], [], true, 0)
  }

  lemma StartShaped(o: Setup)
    requires Usable(o)
    ensures Shaped(o, Start(o))
  {
    hide FirstPacket, BitAnd, SampleSize;
    var p := FirstPacket(o);
    FirstBytes(o);
    ResolutionBits(p[7] as nat);
  }

  lemma FirstBytes(o: Setup)
    requires Usable(o)
    ensures FirstPacket(o)[6] as nat + 1 == PacketConfig(o).nbChannels
    ensures FirstPacket(o)[7] as nat == o.stream.bitFmt
  {
    hide RateIndex, StrNCopy, LE32;
  }

  /** The state after any number of turns of a run. */
  function After(o: Setup, turns: seq<Turn>): (r: Loop)
    requires Usable(o) && forall t :: t in turns ==> TurnOk(o, t)
    ensures Shaped(o, r)
  {
    StartShaped(o);
    Run(o, Start(o), turns)
  }

  /** `main`, from the audio set-up to the end of the loop. */
  method EmitterMain(o: Setup, closeRet: int, openRet: int, turns: seq<Turn>)
    returns (ret: int, sent: seq<seq<byte>>, asked: seq<nat>)
    requires Usable(o) && forall t :: t in turns ==> TurnOk(o, t)
    ensures closeRet < 0 ==> ret == closeRet && sent == [] && asked == []
    ensures closeRet >= 0 && openRet != 0 ==> ret == openRet && sent == [] && asked == []
    ensures closeRet >= 0 && openRet == 0 ==>
      sent == After(o, turns).sent && ret == After(o, turns).ret && asked == After(o, turns).asked
  {
    hide Step, Check, RateIndex, TurnOk, Run;
    sent, asked := [], [];
    StartShaped(o);
    AfterFirst(o, turns);
    var audio := new AudioHandle(AudioIn);
    audio.SetMapConfig(o.channels);
    ret := audio.SetStreamConfig(o.stream, closeRet, openRet);
    if ret != 0 {
      return;
    }
    assert audio.View() == AudioOf(o, Zeros(DATA_MAX_SIZE));
    var buffer := new byte[PROTOCOL_MAX_SIZE](_ => 0);
    var config := audio.GetStreamConfig();
    assert buffer[..] == Zeros(PROTOCOL_MAX_SIZE);
    InitHeaderInPlace(buffer, config, o.name);
    var maxSize := MaxPayload(buffer[..]);
    assert maxSize == MaxSize(o);

    var running, i := true, 0;
    ghost var s := Start(o);
    while running && i < |turns|
      invariant 0 <= i <= |turns| && audio.Valid() && fresh(audio) && fresh(audio.buffer) && fresh(buffer)
      invariant audio.buffer != buffer && buffer.Length == PROTOCOL_MAX_SIZE
      invariant Shaped(o, s) && s == After(o, turns[..i])
      invariant audio.View() == AudioOf(o, s.buffer) && buffer[..] == s.packet
      invariant running == s.running && sent == s.sent && ret == s.ret && asked == s.asked
    {
      AfterNext(o, turns, i);
      ghost var next := Step(o, s, turns[i]);
      var request;
      running, ret, sent, request := LoopBody(o, audio, buffer, maxSize, turns[i], ret, sent, s);
      asked := asked + [request];
      s := next;
      i := i + 1;
    }
    StoppedStays(o, s, turns, i);
  }

  lemma AfterFirst(o: Setup, turns: seq<Turn>)
    requires Usable(o)
    ensures turns[..0] == [] && After(o, turns[..0]) == Start(o)
  {
    assert turns[..0] == [];
  }

  lemma AfterNext(o: Setup, turns: seq<Turn>, i: nat)
    requires Usable(o) && (forall t :: t in turns ==> TurnOk(o, t)) && i < |turns|
    ensures After(o, turns[..i + 1]) == Step(o, After(o, turns[..i]), turns[i])
  {
    hide Step, TurnOk;
    assert turns[..i + 1][..i] == turns[..i];
  }

  lemma RequestIgnoresBuffer(o: Setup, buffer: seq<byte>)
    requires Sendable(PacketConfig(o))
    ensures ReverseInputSize(AudioOf(o, buffer), MaxSize(o)) == Request(o)
  {
  }

  /** The body of the loop. */
  method LoopBody(o: Setup, audio: AudioHandle, buffer: array<byte>, maxSize: nat, t: Turn, ret0: int,
                  sent0: seq<seq<byte>>, ghost s: Loop)
    returns (running: bool, ret: int, sent: seq<seq<byte>>, request: nat)
    requires Usable(o) && TurnOk(o, t) && Shaped(o, s) && s.running && ret0 == s.ret && sent0 == s.sent
    requires audio.Valid() && audio.buffer != buffer && buffer.Length == PROTOCOL_MAX_SIZE && maxSize == MaxSize(o)
    requires audio.View() == AudioOf(o, s.buffer) && buffer[..] == s.packet
    modifies audio.buffer, buffer
    ensures var r := Step(o, s, t);
            && audio.View() == AudioOf(o, r.buffer) && buffer[..] == r.packet
            && running == r.running && ret == r.ret && sent == r.sent && s.asked + [request] == r.asked
  {
    hide Check, Read, FrameSize, FrameBytes, Stamp, SampleSize, Request, CanMap;
    running, ret, sent := true, ret0, sent0;
    if t.read.ReadBytes? {
      ReadFits(o, s.buffer, |t.read.bytes|);
    }
    assert ReverseInputSize(AudioOf(o, s.buffer), maxSize) == Request(o) by { RequestIgnoresBuffer(o, s.buffer); }
    var size;
    size, request := audio.ReadAudio(buffer, HEADER_SIZE, maxSize, t.read);
    assert request == Request(o);
    if size < 0 {
      running := false;
      return;
    }
    assert buffer[..] == s.packet[..HEADER_SIZE] + buffer[HEADER_SIZE..];
    ghost var prepared := Prepared(o, s, t.read.bytes);
    assert size == prepared.2;
    SameHeaderSameFrame(buffer[..], s.packet);
    SetNewContent(buffer, size);
    var datagram := buffer[..HEADER_SIZE + size];
    assert datagram == buffer[..][..HEADER_SIZE + size];
    ret := Check(o.name, datagram);
    if ret != 0 {
      running := false;
      return;
    }
    ret := t.socketRet;
    if ret < 0 {
      running := false;
      return;
    }
    sent := sent + [datagram];
  }

  /** Once stopped, the loop's state is final. */
  lemma {:induction false} StoppedStays(o: Setup, s: Loop, turns: seq<Turn>, i: nat)
    requires Usable(o) && forall t :: t in turns ==> TurnOk(o, t)
    requires i <= |turns| && s == After(o, turns[..i])
    requires i == |turns| || !s.running
    ensures After(o, turns) == s
    decreases |turns|
  {
    if i == |turns| {
      assert turns[..i] == turns;
    } else {
      var init := turns[..|turns| - 1];
      assert init[..i] == turns[..i];
      StoppedStays(o, s, init, i);
    }
  }
}
