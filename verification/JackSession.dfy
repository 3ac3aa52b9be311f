/** The JACK backend over a whole run of the receptor: one ring for every open, as the formats change. */
module JackSession {
  import opened Bytes
  import opened Frames
  import opened Protocol
  import opened Receptor
  import opened ReceptorProofs
  import J = Jack
  import JP = JackProofs

  // ----- the writes of each open

  /** The device writes of a run, cut where the configuration changes. */
  function Stretches(o: Setup, ws: seq<DeviceWrite>): seq<seq<DeviceWrite>>
    requires Usable(o) && AllHeard(o, ws)
  {
    if ws == [] then []
    else
      var init, w := ws[..|ws| - 1], ws[|ws| - 1];
      var cut := Stretches(o, init);
      if cut != [] && ConfigOf(o, w.packet) == LastConfig(o, init) then
        cut[..|cut| - 1] + [cut[|cut| - 1] + [w]]
      else cut + [[w]]
  }

  function Flatten(parts: seq<seq<DeviceWrite>>): seq<DeviceWrite> {
    if parts == [] then [] else Flatten(parts[..|parts| - 1]) + parts[|parts| - 1]
  }

  lemma FlattenSnoc(parts: seq<seq<DeviceWrite>>, part: seq<DeviceWrite>)
    ensures Flatten(parts + [part]) == Flatten(parts) + part
  {
    assert (parts + [part])[..|parts|] == parts;
  }

  /** The writes of one stretch go to a device opened as `cfg`. */
  predicate OfOpen(o: Setup, part: seq<DeviceWrite>, cfg: StreamConfig)
    requires Usable(o)
  {
    part != [] && forall w :: w in part ==> Heard(o, w.packet) && DeviceFor(o, ConfigOf(o, w.packet)) == cfg
  }

  ghost predicate StretchesMatch(o: Setup, cut: seq<seq<DeviceWrite>>, opens: seq<StreamConfig>)
    requires Usable(o)
  {
    |cut| == |opens| && forall k :: 0 <= k < |cut| ==> OfOpen(o, cut[k], opens[k])
  }

  /** A write to the device that is open. */
  lemma ExtendLast(o: Setup, cut: seq<seq<DeviceWrite>>, opens: seq<StreamConfig>, w: DeviceWrite)
    requires Usable(o) && StretchesMatch(o, cut, opens) && cut != []
    requires Heard(o, w.packet) && DeviceFor(o, ConfigOf(o, w.packet)) == opens[|opens| - 1]
    ensures var now := cut[..|cut| - 1] + [cut[|cut| - 1] + [w]];
            StretchesMatch(o, now, opens) && Flatten(now) == Flatten(cut) + [w]
  {
    hide Heard, ConfigOf, Usable;
    var init, last := cut[..|cut| - 1], cut[|cut| - 1];
    FlattenSnoc(init, last);
    FlattenSnoc(init, last + [w]);
    assert init + [last] == cut;
    assert OfOpen(o, last, opens[|cut| - 1]);
    assert Flatten(init) + (last + [w]) == (Flatten(init) + last) + [w];
    forall k | 0 <= k < |init|
      ensures OfOpen(o, (init + [last + [w]])[k], opens[k])
    {
      assert OfOpen(o, cut[k], opens[k]);
    }
  }

  /** A write to a device that was opened for it. */
  lemma AddStretch(o: Setup, cut: seq<seq<DeviceWrite>>, opens: seq<StreamConfig>, w: DeviceWrite)
    requires Usable(o) && StretchesMatch(o, cut, opens) && Heard(o, w.packet)
    ensures var now := cut + [[w]];
            && StretchesMatch(o, now, opens + [DeviceFor(o, ConfigOf(o, w.packet))])
            && Flatten(now) == Flatten(cut) + [w]
  {
    hide Heard, ConfigOf, Usable;
    FlattenSnoc(cut, [w]);
    forall k | 0 <= k < |cut|
      ensures OfOpen(o, (cut + [[w]])[k], (opens + [DeviceFor(o, ConfigOf(o, w.packet))])[k])
    {
      assert OfOpen(o, cut[k], opens[k]);
    }
  }

  /** One stretch for each open, the last one the open that is in force. */
  ghost predicate CutByOpens(o: Setup, ws: seq<DeviceWrite>)
    requires Usable(o) && AllHeard(o, ws)
  {
    var cut, opens := Stretches(o, ws), OpensFor(o, ws);
    && Flatten(cut) == ws && StretchesMatch(o, cut, opens)
    && (ws != [] ==> cut != [] && opens[|opens| - 1] == DeviceFor(o, LastConfig(o, ws)))
  }

  /** There is one stretch for each open, with the writes that went to it, and nothing is left out. */
  lemma {:induction false} StretchesAreOpens(o: Setup, ws: seq<DeviceWrite>)
    requires Usable(o) && AllHeard(o, ws)
    ensures CutByOpens(o, ws)
  {
    hide Heard, ConfigOf, Usable, StretchesMatch;
    if ws == [] {
      NothingCut(o);
    } else {
      hide CutByOpens;
      var init, w := ws[..|ws| - 1], ws[|ws| - 1];
      StretchesAreOpens(o, init);
      StretchSnoc(o, init, w, ws);
    }
  }

  lemma NothingCut(o: Setup)
    requires Usable(o)
    ensures CutByOpens(o, [])
  {
    hide Heard, ConfigOf, Usable;
  }

  lemma StretchSnoc(o: Setup, init: seq<DeviceWrite>, w: DeviceWrite, ws: seq<DeviceWrite>)
    requires Usable(o) && AllHeard(o, init) && Heard(o, w.packet) && ws == init + [w] && AllHeard(o, ws)
    requires CutByOpens(o, init)
    ensures CutByOpens(o, ws)
  {
    hide Heard, Usable, StretchesMatch, OpensFor, LastConfig, Flatten, ConfigOf, Stretches;
    var cut, cfg := Stretches(o, init), ConfigOf(o, w.packet);
    CutSnoc(o, init, w, ws);
    OpensForSnoc(o, init, w, ws, cfg);
    MatchLengths(o, cut, OpensFor(o, init));
    NoConfigYet(o, cfg, init);
    if cut != [] && cfg == LastConfig(o, init) {
      assert OpensFor(o, init) + [] == OpensFor(o, init);
      ExtendLast(o, cut, OpensFor(o, init), w);
    } else {
      AddStretch(o, cut, OpensFor(o, init), w);
    }
  }

  lemma MatchLengths(o: Setup, cut: seq<seq<DeviceWrite>>, opens: seq<StreamConfig>)
    requires Usable(o) && StretchesMatch(o, cut, opens)
    ensures |cut| == |opens| && (cut == [] ==> Flatten(cut) == [])
  {
    hide Usable, OfOpen;
  }

  lemma CutSnoc(o: Setup, init: seq<DeviceWrite>, w: DeviceWrite, ws: seq<DeviceWrite>)
    requires Usable(o) && AllHeard(o, init) && Heard(o, w.packet) && ws == init + [w] && AllHeard(o, ws)
    ensures var cut := Stretches(o, init);
            Stretches(o, ws)
            == if cut != [] && ConfigOf(o, w.packet) == LastConfig(o, init)
               then cut[..|cut| - 1] + [cut[|cut| - 1] + [w]]
               else cut + [[w]]
  {
    hide Heard, Usable, ConfigOf, LastConfig;
    assert ws[..|ws| - 1] == init;
  }

  lemma NoConfigYet(o: Setup, cfg: StreamConfig, init: seq<DeviceWrite>)
    requires Usable(o) && AllHeard(o, init) && ValidConfig(cfg)
    ensures init == [] ==> cfg != LastConfig(o, init)
  {
    hide Heard, Usable;
  }

  // ----- the backend at each open

  /** The backend after open `k`, when `ess[i]` are its events between the opens `i` and `i + 1`: every open follows a
      close, and so the first one if the backend was open before. */
  function StateAt(before: J.JackState, quality: byte, period: nat, opens: seq<StreamConfig>, ess: seq<seq<JP.Event>>,
                   k: nat): J.JackState
    requires k < |opens| && k <= |ess|
  {
    var last := if k == 0 then before else JP.Run(StateAt(before, quality, period, opens, ess, k - 1), ess[k - 1]);
    J.OpenState(J.AfterClose(last), DeviceBufferSize(quality), period, opens[k])
  }

  /** The channel count that sizes the ring of open `k`. */
  function PreviousChannels(before: J.JackState, opens: seq<StreamConfig>, k: nat): nat
    requires k < |opens|
  {
    if k == 0 then before.nbChannels else opens[k - 1].nbChannels
  }

  /** Each open leaves its own format, a preroll sized by the channels of the open before, and an inactive backend. */
  lemma OpenedAt(before: J.JackState, quality: byte, period: nat, opens: seq<StreamConfig>, ess: seq<seq<JP.Event>>,
                 k: nat)
    requires k < |opens| && k <= |ess|
    ensures var s := StateAt(before, quality, period, opens, ess, k);
            var size := J.BufferSize(PreviousChannels(before, opens, k), DeviceBufferSize(quality), period,
                                     opens[k].bitFmt);
            && s.isOpen && s.nbChannels == opens[k].nbChannels && s.fmt == opens[k].bitFmt
            && s.contents == Zeros(size) && |s.contents| <= s.capacity
            && (k > 0 || before.isOpen || !before.active ==> !s.active)
  {
    hide DeviceBufferSize;
    var last := if k == 0 then before else JP.Run(StateAt(before, quality, period, opens, ess, k - 1), ess[k - 1]);
    if k > 0 {
      OpenedAt(before, quality, period, opens, ess, k - 1);
      JP.Conservation(StateAt(before, quality, period, opens, ess, k - 1), ess[k - 1]);
    }
    JP.OpenFits(J.AfterClose(last), DeviceBufferSize(quality), period, opens[k]);
  }

  // ----- what the ports carry

  function BytesOfAll(ws: seq<DeviceWrite>): (r: seq<seq<byte>>)
    ensures |r| == |ws|
  {
    seq(|ws|, i requires 0 <= i < |ws| => ws[i].bytes)
  }

  /** The frames of the packets behind some writes, mapped, one packet after the other. */
  function MappedPackets(o: Setup, ws: seq<DeviceWrite>): seq<Frame>
    requires Usable(o) && AllHeard(o, ws)
  {
    if ws == [] then []
    else
      var w := ws[|ws| - 1];
      MappedPackets(o, ws[..|ws| - 1])
      + MapFrames(PacketFrames(o, w.packet), o.channels, SampleSize(ConfigOf(o, w.packet).bitFmt))
  }

  /** Events behind open `k` whose writes are, in order, the first device writes of its stretch. */
  predicate Follows(es: seq<JP.Event>, part: seq<DeviceWrite>) {
    JP.WritesOf(es) <= BytesOfAll(part)
  }

  lemma StretchWhole(o: Setup, part: seq<DeviceWrite>, cfg: StreamConfig, es: seq<JP.Event>)
    requires Usable(o) && OfOpen(o, part, cfg) && (forall w :: w in part ==> WholeWrite(o, w)) && Follows(es, part)
    ensures cfg.nbChannels > 0 && SampleSize(cfg.bitFmt) > 0
    ensures JP.AllWhole(JP.WritesOf(es), cfg.nbChannels, SampleSize(cfg.bitFmt))
  {
    hide Heard, ConfigOf, PacketFrames, JP.WritesOf, SampleSize;
    assert part[0] in part;
    DeviceValid(o, part[0]);
    var n, w := cfg.nbChannels, SampleSize(cfg.bitFmt);
    forall d | d in JP.WritesOf(es)
      ensures WholeFrames(d, FrameCount(|d|, n, w), n, w)
    {
      var i: nat :| i < |JP.WritesOf(es)| && JP.WritesOf(es)[i] == d;
      assert d == BytesOfAll(part)[i] == part[i].bytes;
      assert part[i] in part;
      WholeFramesCount(d, |PacketFrames(o, part[i].packet)|, n, w);
    }
  }

  lemma DeviceValid(o: Setup, w: DeviceWrite)
    requires Usable(o) && Heard(o, w.packet)
    ensures var cfg := DeviceFor(o, ConfigOf(o, w.packet));
            cfg.nbChannels > 0 && SampleSize(cfg.bitFmt) > 0
  {
  }

  lemma AllWholeWrites(s: J.JackState, es: seq<JP.Event>)
    requires JP.Plays(s) && JP.AllWhole(JP.WritesOf(es), s.nbChannels, JP.FrameWidth(s))
    ensures JP.WholeWrites(s, es)
  {
    forall e | e in es && e.Write?
      ensures WholeFrames(e.data, FrameCount(|e.data|, s.nbChannels, JP.FrameWidth(s)), s.nbChannels, JP.FrameWidth(s))
    {
      JP.WriteIsListed(es, e);
    }
  }

  /** The stored writes of a stretch. */
  function KeptOf(part: seq<DeviceWrite>, s: J.JackState, es: seq<JP.Event>): seq<DeviceWrite>
    requires Follows(es, part)
  {
    JP.KeptInOrder(s, es);
    JP.Pick(part, JP.KeptWrites(s, es))
  }

  lemma KeptBytes(part: seq<DeviceWrite>, s: J.JackState, es: seq<JP.Event>)
    requires Follows(es, part)
    ensures forall i :: 0 <= i < |JP.KeptWrites(s, es)| ==> JP.KeptWrites(s, es)[i] < |JP.WritesOf(es)|
    ensures JP.Pick(JP.WritesOf(es), JP.KeptWrites(s, es)) == BytesOfAll(KeptOf(part, s, es))
    ensures forall w :: w in KeptOf(part, s, es) ==> w in part
  {
    hide JP.WritesOf, JP.KeptWrites;
    JP.KeptInOrder(s, es);
    var kept := JP.KeptWrites(s, es);
    forall i | 0 <= i < |kept|
      ensures JP.Pick(JP.WritesOf(es), kept)[i] == BytesOfAll(KeptOf(part, s, es))[i]
    {
      assert JP.WritesOf(es)[kept[i]] == BytesOfAll(part)[kept[i]];
    }
  }

  /** Exact writes to one device are the mapped frames of their packets. */
  lemma {:induction false} ExactFrames(o: Setup, ws: seq<DeviceWrite>, cfg: StreamConfig)
    requires Usable(o) && AllExact(o, ws) && cfg.nbChannels > 0 && SampleSize(cfg.bitFmt) > 0
    requires forall w :: w in ws ==> DeviceFor(o, ConfigOf(o, w.packet)) == cfg
    ensures AllHeard(o, ws)
    ensures JP.FramesOfAll(BytesOfAll(ws), cfg.nbChannels, SampleSize(cfg.bitFmt)) == MappedPackets(o, ws)
  {
    hide Heard, ConfigOf, PacketFrames, FramesOf, MapFrames, SampleSize;
    if ws != [] {
      var init, w := ws[..|ws| - 1], ws[|ws| - 1];
      ExactFrames(o, init, cfg);
      assert w in ws;
      assert BytesOfAll(ws)[..|ws| - 1] == BytesOfAll(init);
    }
  }

  /** What the ring of an open accepts and the ports carry, for the writes `part` of its stretch. */
  ghost predicate OpenPlays(o: Setup, s: J.JackState, part: seq<DeviceWrite>, es: seq<JP.Event>)
    requires Usable(o) && JP.Plays(s) && Follows(es, part)
  {
    && JP.WholeWrites(s, es)
    && JP.AcceptedFrames(s, es)
       == JP.FramesOfAll(BytesOfAll(KeptOf(part, s, es)), s.nbChannels, JP.FrameWidth(s))
    && (AllExact(o, part) ==>
          AllHeard(o, KeptOf(part, s, es)) && JP.AcceptedFrames(s, es) == MappedPackets(o, KeptOf(part, s, es)))
    && forall p: nat :: |s.contents| == (p * s.nbChannels) * JP.FrameWidth(s) ==>
         JP.PortFrames(s, es) <= JP.SilentFrames(p, s.nbChannels, JP.FrameWidth(s)) + JP.AcceptedFrames(s, es)
  }

  lemma StretchPlays(o: Setup, s: J.JackState, part: seq<DeviceWrite>, cfg: StreamConfig, es: seq<JP.Event>)
    requires Usable(o) && OfOpen(o, part, cfg) && (forall w :: w in part ==> WholeWrite(o, w)) && Follows(es, part)
    requires s.nbChannels == cfg.nbChannels && s.fmt == cfg.bitFmt && |s.contents| <= s.capacity
    requires s.contents == Zeros(|s.contents|)
    ensures JP.Plays(s) && OpenPlays(o, s, part, es)
  {
    hide Heard, ConfigOf, PacketFrames, Follows, WholeWrite, JP.AcceptedFrames, JP.PortFrames, JP.WholeWrites;
    hide JP.FramesOfAll, KeptOf, MappedPackets, PlaysExactly, SampleSize;
    StretchWhole(o, part, cfg, es);
    AllWholeWrites(s, es);
    KeptBytes(part, s, es);
    JP.AcceptedAreKeptFrames(s, es);
    if AllExact(o, part) {
      ExactFrames(o, KeptOf(part, s, es), cfg);
    }
    forall p: nat | |s.contents| == (p * s.nbChannels) * JP.FrameWidth(s)
      ensures JP.PortFrames(s, es) <= JP.SilentFrames(p, s.nbChannels, JP.FrameWidth(s)) + JP.AcceptedFrames(s, es)
    {
      JP.PrerollThenFrames(s, es, p);
    }
  }

  lemma OutputsHeard(o: Setup, ws: seq<DeviceWrite>)
    requires Usable(o) && forall w :: w in ws ==> WholeWrite(o, w)
    ensures AllHeard(o, ws)
  {
    hide Heard;
  }

  lemma {:induction false} InFlatten(parts: seq<seq<DeviceWrite>>, k: nat, w: DeviceWrite)
    requires k < |parts| && w in parts[k]
    ensures w in Flatten(parts)
  {
    if k < |parts| - 1 {
      InFlatten(parts[..|parts| - 1], k, w);
    }
  }

  /** The writes of a run of the receptor, one stretch for each open. */
  function RunStretches(o: Setup, turns: seq<Turn>): seq<seq<DeviceWrite>>
    requires Usable(o) && forall t :: t in turns ==> TurnOk(o, t)
  {
    WholeOutputs(o, turns);
    OutputsHeard(o, Run(o, Start(o), turns).outputs);
    Stretches(o, Run(o, Start(o), turns).outputs)
  }

  /** What holds of every write of a run holds in its stretches, which are its opens. */
  lemma StretchesOfRun(o: Setup, turns: seq<Turn>)
    requires Usable(o) && forall t :: t in turns ==> TurnOk(o, t)
    ensures var r, cut := Run(o, Start(o), turns), RunStretches(o, turns);
            && Flatten(cut) == r.outputs && |cut| <= |r.audio.opens| <= |cut| + 1
            && (forall k :: 0 <= k < |cut| ==> OfOpen(o, cut[k], r.audio.opens[k]))
            && (forall k: nat, w :: k < |cut| && w in cut[k] ==> WholeWrite(o, w))
  {
    hide Run, TurnOk, Heard, Stretches, Flatten, OpensFor, WholeWrite;
    var r, cut := Run(o, Start(o), turns), RunStretches(o, turns);
    WholeOutputs(o, turns);
    OutputsHeard(o, r.outputs);
    StretchesAreOpens(o, r.outputs);
    DeviceAgreement(o, turns);
    forall k: nat, w | k < |cut| && w in cut[k]
      ensures WholeWrite(o, w)
    {
      InFlatten(cut, k, w);
    }
  }

  /** JACK behind the receptor over a whole run with any formats: stretch `k` of the writes went to open `k` of the
      backend, whose ring is sized by the channels of the open before; the ring and the ports of that open carry the
      writes of its own stretch, whatever callbacks come between. */
  lemma SessionPlayback(o: Setup, turns: seq<Turn>, before: J.JackState, quality: byte, period: nat,
                        ess: seq<seq<JP.Event>>, k: nat)
    requires Usable(o) && forall t :: t in turns ==> TurnOk(o, t)
    requires k < |ess| <= |RunStretches(o, turns)| && Follows(ess[k], RunStretches(o, turns)[k])
    ensures var r, cut := Run(o, Start(o), turns), RunStretches(o, turns);
            && Flatten(cut) == r.outputs && |cut| <= |r.audio.opens| <= |cut| + 1
            && var s, cfg := StateAt(before, quality, period, r.audio.opens, ess, k), r.audio.opens[k];
               && OfOpen(o, cut[k], cfg) && s.nbChannels == cfg.nbChannels && s.fmt == cfg.bitFmt
               && |s.contents| == J.BufferSize(PreviousChannels(before, r.audio.opens, k), DeviceBufferSize(quality),
                                               period, cfg.bitFmt)
               && JP.Plays(s) && OpenPlays(o, s, cut[k], ess[k])
  {
    hide Run, TurnOk, RunStretches, Flatten, OpenPlays, StateAt, Follows, DeviceBufferSize, WholeWrite, OfOpen;
    var r, cut := Run(o, Start(o), turns), RunStretches(o, turns);
    StretchesOfRun(o, turns);
    OpenedAt(before, quality, period, r.audio.opens, ess, k);
    StretchPlays(o, StateAt(before, quality, period, r.audio.opens, ess, k), cut[k], r.audio.opens[k], ess[k]);
  }
}
