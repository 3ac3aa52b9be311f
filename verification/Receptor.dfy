/** The receptor: datagrams are checked, the device follows their configuration, and their payload is mapped onto it. */
module Receptor {
  import opened Bytes
  import opened Frames
  import opened Protocol
  import opened Packet
  import opened PacketProofs
  import opened ChannelMap
  import opened Audio
  import opened AudioProofs

  /** The device buffer size for a quality: three times 512 frames, doubled by every step of quality up to 4. */
  function DeviceBufferSize(quality: byte): nat {
    if quality <= 4 then 3 * 512 * Pow2(quality as nat) else PROTOCOL_MAX_SIZE
  }

  /** `computeSize` */
  method ComputeSize(quality: byte) returns (nnn: nat)
    ensures nnn == DeviceBufferSize(quality)
  {
    nnn := 0;
    match quality {
      case 0 => nnn := 512;
      case 1 => nnn := 1024;
      case 2 => nnn := 2048;
      case 3 => nnn := 4096;
      case 4 => nnn := 8192;
      case _ =>
    }
    nnn := nnn * 3;
    if nnn < PROTOCOL_MAX_SIZE {
      nnn := PROTOCOL_MAX_SIZE;
    }
  }

  /** What the environment does in one turn: a socket error, or a datagram and the results of the backend calls it leads
      to. */
  datatype Turn = SocketError | Datagram(bytes: seq<byte>, closeRet: int, openRet: int, writeRet: int)

  /** One write to the device: the packet behind it, the device it went to, and the bytes. */
  datatype DeviceWrite = DeviceWrite(packet: seq<byte>, device: Device, bytes: seq<byte>)

  /** What the options fix for a whole run. */
  datatype Setup = Setup(channels: seq<byte>, name: seq<byte>)

  predicate Usable(o: Setup) {
    |o.channels| <= CHANNELS_MAX_NB && |o.name| == STREAM_NAME_SIZE
  }

  /** A datagram fits the receive buffer, a write result is an `int`, and an accepted packet's remap fits the handle's
      buffer. */
  predicate TurnOk(o: Setup, t: Turn)
    requires Usable(o)
  {
    t.Datagram? ==>
      && |t.bytes| <= PROTOCOL_MAX_SIZE && -0x8000_0000 <= t.writeRet < 0x8000_0000
      && (Check(o.name, t.bytes) == 0 ==> RemapSize(o, t.bytes) <= DATA_MAX_SIZE)
  }

  /** The bytes of an accepted packet's payload after the map. */
  function RemapSize(o: Setup, bytes: seq<byte>): nat
    requires Usable(o) && Check(o.name, bytes) == 0
  {
    AcceptedIsSafe(o.name, bytes);
    var cfg := GetStreamConfig(bytes);
    if o.channels == [] then 0
    else MappedSize(|bytes| - HEADER_SIZE, o.channels, cfg.nbChannels, SampleSize(cfg.bitFmt))
  }

  /** The loop: the audio handle, the writes so far, and whether it goes on. */
  datatype Loop = Loop(audio: AudioState, outputs: seq<DeviceWrite>, running: bool)

  predicate Shaped(o: Setup, s: Loop) {
    s.audio.channels == o.channels && |s.audio.buffer| == DATA_MAX_SIZE
  }

  /** The comparison of an `int` result with a `size_t`. */
  function AsSize(ret: int): int {
    if ret >= 0 then ret else ret + TWO_64
  }

  lemma PayloadFits(o: Setup, a: AudioState, t: Turn)
    requires Usable(o) && TurnOk(o, t) && t.Datagram? && Check(o.name, t.bytes) == 0
    requires a.channels == o.channels && |t.bytes| > HEADER_SIZE && BitAnd(t.bytes[4] as nat, SR_MASK) < SR_MAXNUMBER
    requires a.stream == GetStreamConfig(t.bytes)
    ensures CanMap(a, DATA_MAX_SIZE, |t.bytes| - HEADER_SIZE, |t.bytes| - HEADER_SIZE)
  {
    AcceptedIsSafe(o.name, t.bytes);
    var size, n, w := |t.bytes| - HEADER_SIZE, a.stream.nbChannels, Width(a);
    if o.channels != [] {
      ScalingCancels(a, FrameCount(size, n, w));
    }
  }

  /** One turn of the loop. */
  function Step(o: Setup, s: Loop, t: Turn): (r: Loop)
    requires Usable(o) && Shaped(o, s) && TurnOk(o, t)
    ensures Shaped(o, r)
  {
    if !s.running then s
    else if t.SocketError? then s.(running := false)
    else if Check(o.name, t.bytes) != 0 then s
    else
      AcceptedIsSafe(o.name, t.bytes);
      var cfg := GetStreamConfig(t.bytes);
      var (a, ret) := SetStream(s.audio, cfg, t.closeRet, t.openRet);
      if ret < 0 then s.(audio := a, running := false)
      else
        PayloadFits(o, a, t);
        var payload := t.bytes[HEADER_SIZE..];
        var (b, toDevice) := Write(a, payload);
        var result := ReverseInputResult(b, t.writeRet);
        var played := Loop(b, s.outputs + [DeviceWrite(t.bytes, b.device, toDevice)], true);
        if AsSize(result) != |payload| then played
        else if result < 0 then played.(running := false)
        else played
  }

  function Run(o: Setup, s: Loop, turns: seq<Turn>): (r: Loop)
    requires Usable(o) && Shaped(o, s) && forall t :: t in turns ==> TurnOk(o, t)
    ensures Shaped(o, r)
  {
    if turns == [] then s else Step(o, Run(o, s, turns[..|turns| - 1]), turns[|turns| - 1])
  }

  function Start(o: Setup): Loop {
    Loop(InitialAudio(AudioOut).(channels := o.channels), [], true)
  }

  /** `main`, from the audio set-up to the end of the loop. */
  method ReceptorMain(o: Setup, turns: seq<Turn>) returns (outputs: seq<DeviceWrite>, opens: seq<StreamConfig>)
    requires Usable(o) && forall t :: t in turns ==> TurnOk(o, t)
    ensures outputs == Run(o, Start(o), turns).outputs && opens == Run(o, Start(o), turns).audio.opens
  {
    outputs := [];
    var audio := new AudioHandle(AudioOut);
    audio.SetMapConfig(o.channels);
    var buffer := new byte[PROTOCOL_MAX_SIZE](_ => 0);
    var running, i := true, 0;
    ghost var s := Start(o);
    assert turns[..0] == [];
    while running && i < |turns|
      invariant 0 <= i <= |turns| && audio.Valid() && fresh(audio) && fresh(audio.buffer) && fresh(buffer)
      invariant audio.buffer != buffer && buffer.Length == PROTOCOL_MAX_SIZE
      invariant Shaped(o, s) && s == Run(o, Start(o), turns[..i])
      invariant audio.View() == s.audio && running == s.running && outputs == s.outputs
    {
      assert turns[..i + 1][..i] == turns[..i];
      ghost var next := Step(o, s, turns[i]);
      running, outputs := LoopBody(o, audio, buffer, turns[i], outputs, s);
      s := next;
      i := i + 1;
    }
    StoppedStays(o, s, turns, i);
    opens := audio.opens;
  }

  /** The body of the loop. */
  method LoopBody(o: Setup, audio: AudioHandle, buffer: array<byte>, t: Turn, outputs0: seq<DeviceWrite>, ghost s: Loop)
    returns (running: bool, outputs: seq<DeviceWrite>)
    requires Usable(o) && TurnOk(o, t) && Shaped(o, s) && s.running && outputs0 == s.outputs
    requires audio.Valid() && audio.buffer != buffer && buffer.Length == PROTOCOL_MAX_SIZE && audio.View() == s.audio
    modifies audio, audio.buffer, buffer
    ensures audio.Valid()
    ensures var r := Step(o, s, t); audio.View() == r.audio && running == r.running && outputs == r.outputs
  {
    hide Check, GetStreamConfig, Write, ReverseInputResult;
    running, outputs := true, outputs0;
    if t.SocketError? {
      running := false;
      return;
    }
    FillFrom(buffer, 0, t.bytes);
    var size := |t.bytes|;
    assert buffer[..size] == t.bytes;
    if Check(o.name, buffer[..size]) == 0 {
      AcceptedIsSafe(o.name, t.bytes);
      var config := GetStreamConfig(buffer[..size]);
      var ret := audio.SetStreamConfig(config, t.closeRet, t.openRet);
      if ret < 0 {
        running := false;
        return;
      }
      var payload := size - HEADER_SIZE;
      PayloadFits(o, audio.View(), t);
      assert buffer[HEADER_SIZE..HEADER_SIZE + payload] == t.bytes[HEADER_SIZE..];
      var toDevice;
      ret, toDevice := audio.WriteAudio(buffer, HEADER_SIZE, payload, t.writeRet);
      outputs := outputs + [DeviceWrite(t.bytes, audio.device, toDevice)];
      if AsSize(ret) != payload {
        // the short write is only logged
      } else if ret < 0 {
        running := false;
      }
    }
  }

  /** Once stopped, the loop's state is final. */
  lemma {:induction false} StoppedStays(o: Setup, s: Loop, turns: seq<Turn>, i: nat)
    requires Usable(o) && forall t :: t in turns ==> TurnOk(o, t)
    requires i <= |turns| && s == Run(o, Start(o), turns[..i])
    requires i == |turns| || !s.running
    ensures Run(o, Start(o), turns) == s
    decreases |turns|
  {
    if i == |turns| {
      assert turns[..i] == turns;
    } else {
      var init := turns[..|turns| - 1];
      assert init[..i] == turns[..i];
      StoppedStays(o, s, init, i);
    }
  }
}
