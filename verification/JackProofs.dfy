/** The JACK backend over whole runs: any interleaving of writes and process callbacks after an open. */
module JackProofs {
  import opened Bytes
  import opened Frames
  import opened Protocol
  import opened JackRing
  import opened Jack
  import opened JackSamples

  datatype Event = Write(data: seq<byte>) | Callback(nframes: nat)

  function Step(s: JackState, e: Event): JackState {
    match e
    case Write(data) => AfterWrite(s, data)
    case Callback(nframes) => AfterCallback(s, nframes)
  }

  function Run(s: JackState, es: seq<Event>): JackState {
    if es == [] then s else Step(Run(s, es[..|es| - 1]), es[|es| - 1])
  }

  /** The bytes that an event stores. */
  function Stored(s: JackState, e: Event): seq<byte> {
    if e.Write? && Accepts(s, |e.data|) then e.data else []
  }

  /** The bytes that an event hands to the ports. */
  function Taken(s: JackState, e: Event): seq<byte> {
    if e.Callback? && Delivers(s, e.nframes) then s.contents[..Need(s, e.nframes)] else []
  }

  /** All writes made while active and with enough room, in order. */
  function Accepted(s: JackState, es: seq<Event>): seq<byte> {
    if es == [] then []
    else Accepted(s, es[..|es| - 1]) + Stored(Run(s, es[..|es| - 1]), es[|es| - 1])
  }

  /** Everything handed to the ports, in order. */
  function Consumed(s: JackState, es: seq<Event>): seq<byte> {
    if es == [] then []
    else Consumed(s, es[..|es| - 1]) + Taken(Run(s, es[..|es| - 1]), es[|es| - 1])
  }

  /** The fields that no write or callback changes. */
  predicate SameDevice(s: JackState, t: JackState) {
    t.isOpen == s.isOpen && t.nbChannels == s.nbChannels && t.fmt == s.fmt && t.capacity == s.capacity
  }

  lemma StepConserves(s: JackState, e: Event)
    requires |s.contents| <= s.capacity
    ensures SameDevice(s, Step(s, e)) && |Step(s, e).contents| <= s.capacity
    ensures Taken(s, e) + Step(s, e).contents == s.contents + Stored(s, e)
  {
  }

  /** FIFO and conservation: what went out and what is left is what was there and what was accepted, in order. */
  lemma {:induction false} Conservation(s: JackState, es: seq<Event>)
    requires |s.contents| <= s.capacity
    ensures SameDevice(s, Run(s, es)) && |Run(s, es).contents| <= s.capacity
    ensures Consumed(s, es) + Run(s, es).contents == s.contents + Accepted(s, es)
  {
    if es != [] {
      var init, e := es[..|es| - 1], es[|es| - 1];
      Conservation(s, init);
      var t := Run(s, init);
      StepConserves(t, e);
      Reassociate(Consumed(s, init), Taken(t, e), Step(t, e).contents, t.contents, Stored(t, e), s.contents,
                  Accepted(s, init));
    }
  }

  lemma Reassociate(a: seq<byte>, b: seq<byte>, c: seq<byte>, d: seq<byte>, e: seq<byte>, f: seq<byte>, g: seq<byte>)
    requires b + c == d + e && a + d == f + g
    ensures (a + b) + c == f + (g + e)
  {
    assert (a + b) + c == a + (b + c);
    assert a + (d + e) == (a + d) + e;
    assert (f + g) + e == f + (g + e);
  }

  /** The bytes that the writes of a run report as written. */
  function Reported(s: JackState, es: seq<Event>): int {
    if es == [] then 0
    else
      var e := es[|es| - 1];
      Reported(s, es[..|es| - 1]) + if e.Write? then WriteResult(Run(s, es[..|es| - 1]), |e.data|) else 0
  }

  /** The bytes written before the first callback. */
  function Early(s: JackState, es: seq<Event>): nat {
    if es == [] then 0
    else
      var e := es[|es| - 1];
      Early(s, es[..|es| - 1]) + if e.Write? && !Run(s, es[..|es| - 1]).active then |e.data| else 0
  }

  /** What writes report is what was stored, plus what was dropped before the first callback. */
  lemma {:induction false} ReportedVersusStored(s: JackState, es: seq<Event>)
    requires s.isOpen
    ensures Run(s, es).isOpen && (s.active ==> Run(s, es).active && Early(s, es) == 0)
    ensures Reported(s, es) == |Accepted(s, es)| + Early(s, es)
  {
    if es != [] {
      ReportedVersusStored(s, es[..|es| - 1]);
    }
  }

  /** A backend that is not open stores nothing and hands out nothing that was not there, whatever happens, and every
      write returns the error 19, no such device. */
  lemma {:induction false} ClosedRefuses(s: JackState, es: seq<Event>, size: nat)
    requires !s.isOpen
    ensures !Run(s, es).isOpen && Accepted(s, es) == [] && WriteResult(Run(s, es), size) == -19
  {
    if es != [] {
      ClosedRefuses(s, es[..|es| - 1], size);
    }
  }

  // ----- which writes are stored

  /** The data of the writes among some events, in order. */
  function WritesOf(es: seq<Event>): seq<seq<byte>> {
    if es == [] then []
    else
      var e := es[|es| - 1];
      WritesOf(es[..|es| - 1]) + if e.Write? then [e.data] else []
  }

  lemma {:induction false} WriteIsListed(es: seq<Event>, e: Event)
    requires e in es && e.Write?
    ensures e.data in WritesOf(es)
  {
    if e != es[|es| - 1] {
      WriteIsListed(es[..|es| - 1], e);
    }
  }

  /** The positions, among the writes of a run, of those that are stored. */
  function KeptWrites(s: JackState, es: seq<Event>): seq<nat> {
    if es == [] then []
    else
      var init, e := es[..|es| - 1], es[|es| - 1];
      KeptWrites(s, init) + if e.Write? && Accepts(Run(s, init), |e.data|) then [|WritesOf(init)|] else []
  }

  /** The elements of `xs` at some positions, where these exist. */
  function Pick<T>(xs: seq<T>, idx: seq<nat>): (r: seq<T>)
    requires forall i :: 0 <= i < |idx| ==> idx[i] < |xs|
    ensures |r| == |idx|
  {
    seq(|idx|, i requires 0 <= i < |idx| => xs[idx[i]])
  }

  /** The stored writes are a subsequence of all writes. */
  lemma {:induction false} KeptInOrder(s: JackState, es: seq<Event>)
    ensures forall i :: 0 <= i < |KeptWrites(s, es)| ==> KeptWrites(s, es)[i] < |WritesOf(es)|
    ensures forall i, j :: 0 <= i < j < |KeptWrites(s, es)| ==> KeptWrites(s, es)[i] < KeptWrites(s, es)[j]
  {
    hide Accepts, Run;
    if es != [] {
      KeptInOrder(s, es[..|es| - 1]);
    }
  }

  /** Their bytes, one write after the other, are the accepted bytes. */
  lemma {:induction false} AcceptedAreKept(s: JackState, es: seq<Event>)
    ensures forall i :: 0 <= i < |KeptWrites(s, es)| ==> KeptWrites(s, es)[i] < |WritesOf(es)|
    ensures forall i, j :: 0 <= i < j < |KeptWrites(s, es)| ==> KeptWrites(s, es)[i] < KeptWrites(s, es)[j]
    ensures Accepted(s, es) == JoinSlots(Pick(WritesOf(es), KeptWrites(s, es)))
  {
    hide Run, JoinSlots, Pick, Accepts;
    KeptInOrder(s, es);
    if es == [] {
      NothingPicked<seq<byte>>();
      assert JoinSlots([]) == [] by { JoinNothing(); }
    } else {
      var init, e := es[..|es| - 1], es[|es| - 1];
      AcceptedAreKept(s, init);
      if e.Write? && Accepts(Run(s, init), |e.data|) {
        PickSnoc(WritesOf(init), e.data, KeptWrites(s, init));
      } else {
        assert Accepted(s, es) == Accepted(s, init) && KeptWrites(s, es) == KeptWrites(s, init);
        PickSame(WritesOf(init), WritesOf(es), KeptWrites(s, init));
      }
    }
  }

  lemma JoinNothing()
    ensures JoinSlots([]) == []
  {
  }

  lemma NothingPicked<T>()
    ensures Pick<T>([], []) == []
  {
  }

  lemma PickSame<T>(xs: seq<T>, ys: seq<T>, idx: seq<nat>)
    requires xs <= ys && forall i :: 0 <= i < |idx| ==> idx[i] < |xs|
    ensures Pick(ys, idx) == Pick(xs, idx)
  {
  }

  lemma PickSnoc(xs: seq<seq<byte>>, x: seq<byte>, idx: seq<nat>)
    requires forall i :: 0 <= i < |idx| ==> idx[i] < |xs|
    ensures JoinSlots(Pick(xs + [x], idx + [|xs|])) == JoinSlots(Pick(xs, idx)) + x
  {
    var now := Pick(xs + [x], idx + [|xs|]);
    assert now[..|now| - 1] == Pick(xs, idx);
  }

  function UpTo(k: nat): (idx: seq<nat>)
    ensures |idx| == k && forall i :: 0 <= i < k ==> idx[i] == i
  {
    seq(k, i requires 0 <= i < k => i)
  }

  predicate HasCallback(es: seq<Event>) {
    exists i :: 0 <= i < |es| && es[i].Callback?
  }

  /** The fill level of the ring if it stores every write: a count of sizes alone. */
  function FillLevel(s: JackState, es: seq<Event>): nat {
    if es == [] then |s.contents|
    else
      var level := FillLevel(s, es[..|es| - 1]);
      match es[|es| - 1]
      case Write(data) => level + |data|
      case Callback(nframes) => if Need(s, nframes) <= level then level - Need(s, nframes) else level
  }

  /** Every write comes after a callback, or to a ring that is active already, and finds room at that level. */
  predicate Roomy(s: JackState, es: seq<Event>) {
    es == [] ||
      var init, e := es[..|es| - 1], es[|es| - 1];
      && Roomy(s, init)
      && (e.Write? ==> (s.active || HasCallback(init)) && FillLevel(s, init) + |e.data| <= s.capacity)
  }

  lemma {:induction false} ActiveMeaning(s: JackState, es: seq<Event>)
    ensures Run(s, es).active <==> s.active || HasCallback(es)
  {
    if es != [] {
      var init, e := es[..|es| - 1], es[|es| - 1];
      ActiveMeaning(s, init);
      if e.Callback? {
        assert es[|es| - 1].Callback?;
      } else if i :| 0 <= i < |es| && es[i].Callback? {
        assert init[i].Callback?;
      }
      if i :| 0 <= i < |init| && init[i].Callback? {
        assert es[i].Callback?;
      }
    }
  }

  lemma {:induction false} KeptCount(s: JackState, es: seq<Event>)
    ensures |KeptWrites(s, es)| <= |WritesOf(es)|
  {
    if es != [] {
      KeptCount(s, es[..|es| - 1]);
    }
  }

  lemma {:induction false} RoomyKeepsAll(s: JackState, es: seq<Event>)
    requires s.isOpen && |s.contents| <= s.capacity
    ensures |KeptWrites(s, es)| == |WritesOf(es)| <==> Roomy(s, es)
    ensures Roomy(s, es) ==> KeptWrites(s, es) == UpTo(|WritesOf(es)|) && |Run(s, es).contents| == FillLevel(s, es)
  {
    hide HasCallback, Need;
    if es != [] {
      var init, e := es[..|es| - 1], es[|es| - 1];
      RoomyKeepsAll(s, init);
      KeptCount(s, init);
      Conservation(s, init);
      ActiveMeaning(s, init);
      if e.Callback? {
        SameNeed(s, Run(s, init), e);
      }
    }
  }

  lemma SameNeed(s: JackState, t: JackState, e: Event)
    requires SameDevice(s, t) && e.Callback?
    ensures Need(t, e.nframes) == Need(s, e.nframes)
  {
  }

  /** A run stores all its writes just when each of them comes after the first callback and finds room. */
  lemma NothingDroppedIff(s: JackState, es: seq<Event>)
    requires s.isOpen && |s.contents| <= s.capacity
    ensures KeptWrites(s, es) == UpTo(|WritesOf(es)|) <==> Roomy(s, es)
  {
    RoomyKeepsAll(s, es);
  }

  // ----- the frames at the ports

  function FrameWidth(s: JackState): nat {
    SampleSize(s.fmt)
  }

  predicate Plays(s: JackState) {
    s.nbChannels > 0 && FrameWidth(s) > 0 && |s.contents| <= s.capacity
  }

  /** The frames handed to the ports over a run. */
  function PortFrames(s: JackState, es: seq<Event>): seq<Frame>
    requires Plays(s)
  {
    FramesOf(Consumed(s, es), s.nbChannels, FrameWidth(s))
  }

  predicate WholeWrites(s: JackState, es: seq<Event>)
    requires Plays(s)
  {
    forall e :: e in es && e.Write? ==>
      WholeFrames(e.data, FrameCount(|e.data|, s.nbChannels, FrameWidth(s)), s.nbChannels, FrameWidth(s))
  }

  /** The accepted frames of a run. */
  function AcceptedFrames(s: JackState, es: seq<Event>): seq<Frame>
    requires Plays(s)
  {
    FramesOf(Accepted(s, es), s.nbChannels, FrameWidth(s))
  }

  /** The number of frames that the callbacks of a run have delivered. */
  function Delivered(s: JackState, es: seq<Event>): nat {
    if es == [] then 0
    else
      var e := es[|es| - 1];
      Delivered(s, es[..|es| - 1]) + if e.Callback? && Delivers(Run(s, es[..|es| - 1]), e.nframes) then e.nframes else 0
  }

  /** Callbacks take whole frames: the read position stays frame-aligned. */
  lemma {:induction false} ConsumedWhole(s: JackState, es: seq<Event>)
    requires Plays(s)
    ensures WholeFrames(Consumed(s, es), Delivered(s, es), s.nbChannels, FrameWidth(s))
    ensures |PortFrames(s, es)| == Delivered(s, es)
  {
    if es != [] {
      var init := es[..|es| - 1];
      ConsumedWhole(s, init);
      Conservation(s, init);
      var k, e := Delivered(s, init), es[|es| - 1];
      if e.Callback? {
        AddFrames(k, e.nframes, s.nbChannels, FrameWidth(s));
      }
    }
    WholeFramesCount(Consumed(s, es), Delivered(s, es), s.nbChannels, FrameWidth(s));
  }

  lemma AddFrames(k: nat, l: nat, n: nat, w: nat)
    ensures ((k + l) * n) * w == (k * n) * w + (l * n) * w
  {
    assert (k + l) * n == k * n + l * n;
  }

  /** One more event at the end of a run. */
  lemma RunSnoc(s: JackState, es: seq<Event>, e: Event)
    ensures Run(s, es + [e]) == Step(Run(s, es), e)
    ensures Consumed(s, es + [e]) == Consumed(s, es) + Taken(Run(s, es), e)
    ensures Accepted(s, es + [e]) == Accepted(s, es) + Stored(Run(s, es), e)
  {
    assert (es + [e])[..|es + [e]| - 1] == es;
  }

  /** The frames of a delivering callback are the next port frames. */
  lemma CallbackAppends(s: JackState, es: seq<Event>, nframes: nat)
    requires Plays(s) && Delivers(Run(s, es), nframes)
    ensures PortFrames(s, es + [Callback(nframes)])
         == PortFrames(s, es) + FramesOf(Taken(Run(s, es), Callback(nframes)), s.nbChannels, FrameWidth(s))
    ensures |PortFrames(s, es)| == Delivered(s, es)
    ensures WholeFrames(Taken(Run(s, es), Callback(nframes)), nframes, s.nbChannels, FrameWidth(s))
  {
    RunSnoc(s, es, Callback(nframes));
    Conservation(s, es);
    ConsumedWhole(s, es);
    FramesConcat(Consumed(s, es), Taken(Run(s, es), Callback(nframes)), Delivered(s, es), s.nbChannels, FrameWidth(s));
  }

  lemma TakenSample(taken: seq<byte>, rest: seq<byte>, nframes: nat, n: nat, w: nat, f: nat, c: nat)
    requires n > 0 && w > 0 && WholeFrames(taken, nframes, n, w) && f < nframes && c < n
    ensures |FramesOf(taken, n, w)| == nframes && |FramesOf(taken, n, w)[f]| == n
    ensures (f * n + c) * w + w <= |taken + rest|
    ensures FramesOf(taken, n, w)[f][c] == SampleBytes(taken + rest, n, w, f, c)
  {
    WholeFramesCount(taken, nframes, n, w);
    FramesAt(taken, n, w, f, c);
    PrefixSlot(taken, rest, f * n + c, w);
  }

  /** Sample `c` of frame `f` of a delivering callback is sample `c` of the next port frames: what it decodes. */
  lemma CallbackFrames(s: JackState, es: seq<Event>, nframes: nat, f: nat, c: nat)
    requires Plays(s) && Delivers(Run(s, es), nframes) && f < nframes && c < s.nbChannels
    ensures var out, data := PortFrames(s, es + [Callback(nframes)]), Run(s, es).contents;
            && |out| == Delivered(s, es) + nframes && |out[Delivered(s, es) + f]| == s.nbChannels
            && (f * s.nbChannels + c) * FrameWidth(s) + FrameWidth(s) <= |data|
            && out[Delivered(s, es) + f][c] == SampleBytes(data, s.nbChannels, FrameWidth(s), f, c)
  {
    hide PortFrames, Delivered, Run, SampleBytes, FramesOf, WholeFrames;
    var data, taken := Run(s, es).contents, Taken(Run(s, es), Callback(nframes));
    CallbackAppends(s, es, nframes);
    assert taken + data[|taken|..] == data;
    TakenSample(taken, data[|taken|..], nframes, s.nbChannels, FrameWidth(s), f, c);
  }

  lemma {:induction false} AcceptedWhole(s: JackState, es: seq<Event>) returns (k: nat)
    requires Plays(s) && WholeWrites(s, es)
    ensures WholeFrames(Accepted(s, es), k, s.nbChannels, FrameWidth(s))
  {
    k := 0;
    if es != [] {
      var init, e := es[..|es| - 1], es[|es| - 1];
      k := AcceptedWhole(s, init);
      if Stored(Run(s, init), e) != [] {
        assert e in es;
        var l := FrameCount(|e.data|, s.nbChannels, FrameWidth(s));
        AddFrames(k, l, s.nbChannels, FrameWidth(s));
        k := k + l;
      }
    }
  }

  /** The frames of several writes, one after the other. */
  function FramesOfAll(datas: seq<seq<byte>>, n: nat, w: nat): seq<Frame>
    requires n > 0 && w > 0
  {
    if datas == [] then []
    else FramesOfAll(datas[..|datas| - 1], n, w) + FramesOf(datas[|datas| - 1], n, w)
  }

  predicate AllWhole(datas: seq<seq<byte>>, n: nat, w: nat)
    requires n > 0 && w > 0
  {
    forall d :: d in datas ==> WholeFrames(d, FrameCount(|d|, n, w), n, w)
  }

  lemma {:induction false} FramesOfJoin(datas: seq<seq<byte>>, n: nat, w: nat) returns (k: nat)
    requires n > 0 && w > 0 && AllWhole(datas, n, w)
    ensures WholeFrames(JoinSlots(datas), k, n, w) && FramesOf(JoinSlots(datas), n, w) == FramesOfAll(datas, n, w)
  {
    hide FramesOf, FrameCount;
    if datas == [] {
      k := 0;
      NoFramesOf(n, w);
    } else {
      var init, last := datas[..|datas| - 1], datas[|datas| - 1];
      var j := FramesOfJoin(init, n, w);
      assert last in datas;
      k := j + FrameCount(|last|, n, w);
      AddFrames(j, FrameCount(|last|, n, w), n, w);
      FramesConcat(JoinSlots(init), last, j, n, w);
    }
  }

  lemma NoFramesOf(n: nat, w: nat)
    requires n > 0 && w > 0
    ensures FramesOf([], n, w) == []
  {
  }

  /** The accepted frames are the frames of the stored writes, in order. */
  lemma AcceptedAreKeptFrames(s: JackState, es: seq<Event>)
    requires Plays(s) && AllWhole(WritesOf(es), s.nbChannels, FrameWidth(s))
    ensures forall i :: 0 <= i < |KeptWrites(s, es)| ==> KeptWrites(s, es)[i] < |WritesOf(es)|
    ensures AcceptedFrames(s, es)
         == FramesOfAll(Pick(WritesOf(es), KeptWrites(s, es)), s.nbChannels, FrameWidth(s))
  {
    hide Accepted, KeptWrites, JoinSlots, FramesOf, WritesOf;
    AcceptedAreKept(s, es);
    var k := FramesOfJoin(Pick(WritesOf(es), KeptWrites(s, es)), s.nbChannels, FrameWidth(s));
  }

  /** `p` frames of zeros. */
  function SilentFrames(p: nat, n: nat, w: nat): seq<Frame> {
    seq(p, _ => seq(n, _ => Zeros(w)))
  }

  lemma ZerosAreFrames(p: nat, n: nat, w: nat)
    requires n > 0 && w > 0
    ensures FramesOf(Zeros((p * n) * w), n, w) == SilentFrames(p, n, w)
  {
    var z := Zeros((p * n) * w);
    WholeFramesCount(z, p, n, w);
    forall f: nat | f < p
      ensures FramesOf(z, n, w)[f] == SilentFrames(p, n, w)[f]
    {
      ZeroFrame(z, p, n, w, f);
    }
  }

  lemma ZeroFrame(z: seq<byte>, p: nat, n: nat, w: nat, f: nat)
    requires n > 0 && w > 0 && f < p == FrameCount(|z|, n, w)
    requires forall i :: 0 <= i < |z| ==> z[i] == 0
    ensures f < |FramesOf(z, n, w)|
    ensures FramesOf(z, n, w)[f] == seq(n, _ => Zeros(w))
  {
    FramesAt(z, n, w, f, 0);
    forall c: nat | c < n
      ensures FramesOf(z, n, w)[f][c] == Zeros(w)
    {
      FramesAt(z, n, w, f, c);
      ZeroSlot(z, f * n + c, w);
    }
  }

  lemma ZeroSlot(z: seq<byte>, j: nat, w: nat)
    requires j * w + w <= |z| && forall i :: 0 <= i < |z| ==> z[i] == 0
    ensures Slot(z, j, w) == Zeros(w)
  {
  }

  /** With a preroll of `p` whole frames, the ports carry `p` silent frames and then the accepted frames, in order. */
  lemma PrerollThenFrames(s: JackState, es: seq<Event>, p: nat)
    requires Plays(s) && WholeWrites(s, es)
    requires s.contents == Zeros((p * s.nbChannels) * FrameWidth(s))
    ensures PortFrames(s, es) <= SilentFrames(p, s.nbChannels, FrameWidth(s)) + AcceptedFrames(s, es)
  {
    var n, w := s.nbChannels, FrameWidth(s);
    Conservation(s, es);
    ConsumedWhole(s, es);
    FramesConcat(Consumed(s, es), Run(s, es).contents, Delivered(s, es), n, w);
    FramesConcat(s.contents, Accepted(s, es), p, n, w);
    ZerosAreFrames(p, n, w);
  }

  // ----- when every callback delivers

  /** The frames that the callbacks of a run ask for. */
  function Asked(es: seq<Event>): nat {
    if es == [] then 0
    else Asked(es[..|es| - 1]) + if es[|es| - 1].Callback? then es[|es| - 1].nframes else 0
  }

  /** Every callback finds its period in the ring, at the level of a ring that stores every write: sizes alone. */
  predicate Served(s: JackState, es: seq<Event>) {
    es == [] ||
      var init, e := es[..|es| - 1], es[|es| - 1];
      Served(s, init) && (e.Callback? ==> Need(s, e.nframes) <= FillLevel(s, init))
  }

  lemma SizesNone(s: JackState)
    ensures FillLevel(s, []) == |s.contents| && Asked([]) == 0 && WritesOf([]) == []
    ensures Roomy(s, []) && Served(s, [])
  {
  }

  /** One more event. */
  lemma SizesSnoc(s: JackState, es: seq<Event>, e: Event)
    ensures e.Write? ==> FillLevel(s, es + [e]) == FillLevel(s, es) + |e.data|
    ensures e.Callback? ==>
      FillLevel(s, es + [e])
      == FillLevel(s, es) - (if Need(s, e.nframes) <= FillLevel(s, es) then Need(s, e.nframes) else 0)
    ensures Asked(es + [e]) == Asked(es) + if e.Callback? then e.nframes else 0
    ensures WritesOf(es + [e]) == WritesOf(es) + if e.Write? then [e.data] else []
    ensures Roomy(s, es + [e]) ==
      (Roomy(s, es) && (e.Write? ==> (s.active || HasCallback(es)) && FillLevel(s, es) + |e.data| <= s.capacity))
    ensures Served(s, es + [e]) == (Served(s, es) && (e.Callback? ==> Need(s, e.nframes) <= FillLevel(s, es)))
  {
    hide Need, HasCallback;
    assert (es + [e])[..|es + [e]| - 1] == es;
  }

  /** When every write is stored, a callback delivers just when its period fits the fill level before it. */
  lemma RoomyDelivers(s: JackState, es: seq<Event>, nframes: nat)
    requires s.isOpen && |s.contents| <= s.capacity && Roomy(s, es)
    ensures Delivers(Run(s, es), nframes) <==> Need(s, nframes) <= FillLevel(s, es)
  {
    hide FillLevel, Roomy;
    RoomyKeepsAll(s, es);
    Conservation(s, es);
    SameNeed(s, Run(s, es), Callback(nframes));
  }

  /** When every write is stored, the callbacks deliver all the frames they ask for just when each finds its period. */
  lemma {:induction false} AllDeliveredIff(s: JackState, es: seq<Event>)
    requires s.isOpen && |s.contents| <= s.capacity && Roomy(s, es)
    ensures Delivered(s, es) <= Asked(es)
    ensures Delivered(s, es) == Asked(es) <==> Served(s, es)
  {
    hide FillLevel, Need, Delivers, Run;
    if es != [] {
      var init, e := es[..|es| - 1], es[|es| - 1];
      assert Roomy(s, init);
      AllDeliveredIff(s, init);
      if e.Callback? {
        RoomyDelivers(s, init, e.nframes);
        NothingNeeded(s, e.nframes);
      }
    }
  }

  lemma NothingNeeded(s: JackState, nframes: nat)
    ensures nframes == 0 ==> Need(s, nframes) == 0
  {
  }

  /** With a preroll of whole frames, room for every write and a period for every callback, the ports carry exactly the
      frames asked for: the preroll, and then the written frames. */
  lemma FullPlayback(s: JackState, es: seq<Event>, p: nat)
    requires Plays(s) && s.isOpen && WholeWrites(s, es) && Roomy(s, es)
    requires s.contents == Zeros((p * s.nbChannels) * FrameWidth(s))
    ensures var all := SilentFrames(p, s.nbChannels, FrameWidth(s)) + AcceptedFrames(s, es);
            && |PortFrames(s, es)| == Delivered(s, es) <= Asked(es)
            && PortFrames(s, es) <= all
            && (Served(s, es) <==> |PortFrames(s, es)| == Asked(es))
            && (Served(s, es) ==> Asked(es) <= |all| && PortFrames(s, es) == all[..Asked(es)])
  {
    hide PortFrames, AcceptedFrames, Served, Roomy, WholeWrites;
    PrerollThenFrames(s, es, p);
    ConsumedWhole(s, es);
    AllDeliveredIff(s, es);
  }

  /** The `k`-th accepted frame comes out as port frame `p + k`, channel by channel. */
  lemma FrameDelay(s: JackState, es: seq<Event>, p: nat, k: nat)
    requires Plays(s) && WholeWrites(s, es)
    requires s.contents == Zeros((p * s.nbChannels) * FrameWidth(s))
    requires p + k < |PortFrames(s, es)|
    ensures k < |AcceptedFrames(s, es)| && PortFrames(s, es)[p + k] == AcceptedFrames(s, es)[k]
  {
    PrerollThenFrames(s, es, p);
  }

  // ----- when channels stay in place

  /** Sample `c` of port frame `f` is silence, or a sample that was accepted on channel `c` too. */
  ghost predicate SampleInPlace(s: JackState, es: seq<Event>, f: nat, c: nat)
    requires Plays(s) && f < |PortFrames(s, es)| && c < s.nbChannels
  {
    && c < |PortFrames(s, es)[f]|
    && (|| PortFrames(s, es)[f][c] == Zeros(FrameWidth(s))
        || exists k: nat ::
             k < |AcceptedFrames(s, es)| && SameSample(PortFrames(s, es)[f], AcceptedFrames(s, es)[k], c))
  }

  predicate SameSample(a: Frame, b: Frame, c: nat) {
    c < |a| && c < |b| && a[c] == b[c]
  }

  /** No port ever carries a sample of another channel. */
  ghost predicate InPlace(s: JackState, es: seq<Event>)
    requires Plays(s)
  {
    forall f: nat, c: nat :: f < |PortFrames(s, es)| && c < s.nbChannels ==> SampleInPlace(s, es, f, c)
  }

  lemma FrameLength(b: seq<byte>, n: nat, w: nat, f: nat)
    requires n > 0 && w > 0 && f < |FramesOf(b, n, w)|
    ensures |FramesOf(b, n, w)[f]| == n
  {
    FramesAt(b, n, w, f, 0);
  }

  /** A preroll of whole frames keeps every channel in place. */
  lemma AlignedInPlace(s: JackState, es: seq<Event>, p: nat)
    requires Plays(s) && WholeWrites(s, es)
    requires s.contents == Zeros((p * s.nbChannels) * FrameWidth(s))
    ensures InPlace(s, es)
  {
    PrerollThenFrames(s, es, p);
    forall f: nat, c: nat | f < |PortFrames(s, es)| && c < s.nbChannels
      ensures SampleInPlace(s, es, f, c)
    {
      FrameLength(Consumed(s, es), s.nbChannels, FrameWidth(s), f);
      if f >= p {
        assert SameSample(PortFrames(s, es)[f], AcceptedFrames(s, es)[f - p], c);
      }
    }
  }

  /** One frame: ones on channel 0, twos on every other channel. */
  function Marked(n: nat, w: nat): (frame: seq<byte>)
    requires n > 0
    ensures |frame| == n * w
  {
    MulMono(1, n, w);
    seq(n * w, i => if i < w then 1 else 2)
  }

  /** Drain `q` frames, write a marked frame, play one frame. */
  function Witness(q: nat, n: nat, w: nat): seq<Event>
    requires n > 0
  {
    [Callback(q)] + [Write(Marked(n, w))] + [Callback(1)]
  }

  /** Over a preroll of `q` frames and `r` bytes, the witness plays the preroll and the start of its frame. */
  lemma WitnessRun(s: JackState, q: nat, r: nat, n: nat, w: nat, frame: nat)
    requires s.isOpen && n == s.nbChannels > 0 && w == FrameWidth(s) && frame == n * w
    requires s.contents == Zeros(q * n * w + r)
    requires 0 < r < frame && r + frame <= s.capacity
    ensures Consumed(s, Witness(q, n, w)) == s.contents + Marked(n, w)[..frame - r]
    ensures Accepted(s, Witness(q, n, w)) == Marked(n, w)
  {
    hide Run, Consumed, Accepted, Step, Taken, SampleSize, Marked;
    WitnessFilled(s, q, Marked(n, w), r);
    var es := [Callback(q)] + [Write(Marked(n, w))];
    var t := Run(s, es);
    RunSnoc(s, es, Callback(1));
    WitnessTaken(t, Marked(n, w), frame, r);
    WitnessBytes(s.contents, Consumed(s, es), r, Marked(n, w)[..frame - r]);
    assert Stored(t, Callback(1)) == [];
  }

  lemma WitnessBytes(all: seq<byte>, drained: seq<byte>, r: nat, next: seq<byte>)
    requires drained + Zeros(r) == all
    ensures drained + (Zeros(r) + next) == all + next
  {
  }

  lemma WitnessFilled(s: JackState, q: nat, data: seq<byte>, r: nat)
    requires s.isOpen && s.contents == Zeros(q * s.nbChannels * FrameWidth(s) + r) && r + |data| <= s.capacity
    ensures var es := [Callback(q)] + [Write(data)];
            && Run(s, es) == s.(active := true, contents := Zeros(r) + data)
            && Consumed(s, es) + Zeros(r) == s.contents
            && Accepted(s, es) == data
  {
    hide Run, Consumed, Accepted, FrameWidth, Need, Step, Taken, Stored;
    DrainRun(s, q, r);
    RunSnoc(s, [Callback(q)], Write(data));
    StoreStep(s.(active := true, contents := Zeros(r)), data);
  }

  lemma DrainRun(s: JackState, q: nat, r: nat)
    requires s.contents == Zeros(q * s.nbChannels * FrameWidth(s) + r)
    ensures Run(s, [Callback(q)]) == s.(active := true, contents := Zeros(r))
    ensures Consumed(s, [Callback(q)]) + Zeros(r) == s.contents && Accepted(s, [Callback(q)]) == []
  {
    hide Run, Consumed, Accepted, FrameWidth, Need, Step, Taken;
    EmptyRun(s);
    RunSnoc(s, [], Callback(q));
    assert [] + [Callback(q)] == [Callback(q)];
    DrainStep(s, q, r);
  }

  lemma StoreStep(t: JackState, data: seq<byte>)
    requires t.isOpen && t.active && |t.contents| + |data| <= t.capacity
    ensures Step(t, Write(data)) == t.(contents := t.contents + data)
    ensures Stored(t, Write(data)) == data && Taken(t, Write(data)) == []
  {
  }

  lemma EmptyRun(s: JackState)
    ensures Run(s, []) == s && Consumed(s, []) == [] && Accepted(s, []) == []
  {
  }

  lemma DrainStep(s: JackState, q: nat, r: nat)
    requires s.contents == Zeros(q * s.nbChannels * FrameWidth(s) + r)
    ensures Step(s, Callback(q)) == s.(active := true, contents := Zeros(r))
    ensures Taken(s, Callback(q)) + Zeros(r) == s.contents
    ensures Taken(s, Callback(q)) == Zeros(q * s.nbChannels * FrameWidth(s))
  {
    assert Need(s, q) == q * s.nbChannels * FrameWidth(s);
    DrainZeros(s.contents, Need(s, q), r);
  }

  lemma DrainZeros(z: seq<byte>, a: nat, r: nat)
    requires z == Zeros(a + r)
    ensures z[a..] == Zeros(r) && z[..a] == Zeros(a) && z[..a] + Zeros(r) == z
  {
  }

  lemma WitnessTaken(t: JackState, data: seq<byte>, frame: nat, r: nat)
    requires frame == t.nbChannels * FrameWidth(t) == |data| && 0 < r < frame
    requires t.contents == Zeros(r) + data
    ensures Taken(t, Callback(1)) == Zeros(r) + data[..frame - r]
  {
    assert Need(t, 1) == frame;
  }

  lemma MarkedFrame(n: nat, w: nat)
    requires n > 0 && w > 0
    ensures FrameCount(n * w, n, w) == 1 && WholeFrames(Marked(n, w), 1, n, w)
    ensures var frs := FramesOf(Marked(n, w), n, w);
            && |frs| == 1 && |frs[0]| == n
            && forall c: nat :: c < n ==> frs[0][c] == seq(w, _ => if c == 0 then 1 else 2)
  {
    WholeFramesCount(Marked(n, w), 1, n, w);
    forall c: nat | c < n
      ensures FramesOf(Marked(n, w), n, w)[0][c] == seq(w, _ => if c == 0 then 1 else 2)
    {
      FramesAt(Marked(n, w), n, w, 0, c);
      MarkedSlot(n, w, c);
    }
    FrameLength(Marked(n, w), n, w, 0);
  }

  lemma MarkedSlot(n: nat, w: nat, c: nat)
    requires c < n
    ensures c * w + w <= n * w
    ensures Slot(Marked(n, w), c, w) == seq(w, _ => if c == 0 then 1 else 2)
  {
    SlotFits(c, n, w);
    if c > 0 {
      MulMono(1, c, w);
    }
  }

  /** The port frame over the end of the preroll: its sample `c` ends in a one of channel 0, and starts in the preroll
      if it is sample 0 itself. */
  lemma SplitFrame(b: seq<byte>, q: nat, n: nat, w: nat, frame: nat, r: nat, c: nat)
    requires n > 0 && w > 0 && frame == n * w && 0 < r < frame && c == r / w
    requires b == Zeros(q * n * w + r) + Marked(n, w)[..frame - r]
    ensures c < n && |FramesOf(b, n, w)| == q + 1 && |FramesOf(b, n, w)[q]| == n
    ensures |FramesOf(b, n, w)[q][c]| == w && FramesOf(b, n, w)[q][c][w - 1] == 1
    ensures c == 0 ==> FramesOf(b, n, w)[q][c][0] == 0
  {
    hide FramesOf, Marked, FrameCount, Slot;
    CellBefore(r, w, n);
    SplitLength(b, q, n, w, frame, r);
    FramesAt(b, n, w, q, c);
    var row := q * n;
    SplitSlot(b, row, w, frame, r, c, n);
  }

  lemma SplitLength(b: seq<byte>, q: nat, n: nat, w: nat, frame: nat, r: nat)
    requires n > 0 && w > 0 && frame == n * w && 0 < r < frame
    requires |b| == q * n * w + r + (frame - r)
    ensures WholeFrames(b, q + 1, n, w) && FrameCount(|b|, n, w) == q + 1 && |FramesOf(b, n, w)| == q + 1
  {
    hide FramesOf, FrameCount;
    AddFrames(q, 1, n, w);
    WholeFramesCount(b, q + 1, n, w);
  }

  lemma CellBefore(r: nat, w: nat, n: nat)
    requires w > 0 && r < n * w
    ensures r / w < n && (r / w) * w <= r < (r / w) * w + w
  {
    if n <= r / w {
      MulMono(n, r / w, w);
    }
  }

  lemma SplitSlot(b: seq<byte>, row: nat, w: nat, frame: nat, r: nat, c: nat, n: nat)
    requires n > 0 && w > 0 && frame == n * w && 0 < r < frame && c * w <= r < c * w + w <= frame
    requires b == Zeros(row * w + r) + Marked(n, w)[..frame - r]
    requires (row + c) * w + w <= |b|
    ensures Slot(b, row + c, w)[w - 1] == 1
    ensures c == 0 ==> Slot(b, row + c, w)[0] == 0
  {
    assert (row + c) * w == row * w + c * w;
    var last := c * w + w - 1 - r;
    assert Slot(b, row + c, w)[w - 1] == b[row * w + r + last] == Marked(n, w)[last];
    assert Slot(b, row + c, w)[0] == b[row * w + c * w];
  }

  /** Over a preroll that is not whole frames, the witness shows a sample of channel 0 where it does not belong. */
  lemma WitnessMoves(s: JackState, q: nat, r: nat, n: nat, w: nat, frame: nat)
    requires Plays(s) && s.isOpen && n == s.nbChannels && w == FrameWidth(s) && frame == n * w
    requires s.contents == Zeros(q * n * w + r)
    requires 0 < r < frame && r + frame <= s.capacity
    ensures WholeWrites(s, Witness(q, n, w)) && !InPlace(s, Witness(q, n, w))
  {
    hide Consumed, Accepted, FrameWidth, FramesOf, Marked, SampleInPlace;
    var es, c := Witness(q, n, w), r / w;
    WitnessRun(s, q, r, n, w, frame);
    MarkedFrame(n, w);
    SplitFrame(Consumed(s, es), q, n, w, frame, r, c);
    NotInPlace(s, es, q, c);
  }

  lemma NotInPlace(s: JackState, es: seq<Event>, q: nat, c: nat)
    requires Plays(s) && c < s.nbChannels && q < |PortFrames(s, es)| && |PortFrames(s, es)[q]| == s.nbChannels
    requires |PortFrames(s, es)[q][c]| == FrameWidth(s) && PortFrames(s, es)[q][c][FrameWidth(s) - 1] == 1
    requires c == 0 ==> PortFrames(s, es)[q][c][0] == 0
    requires |AcceptedFrames(s, es)| == 1 && |AcceptedFrames(s, es)[0]| == s.nbChannels
    requires AcceptedFrames(s, es)[0][c] == seq(FrameWidth(s), _ => if c == 0 then 1 else 2)
    ensures !SampleInPlace(s, es, q, c)
  {
    hide PortFrames, AcceptedFrames;
    var got, w := PortFrames(s, es)[q][c], FrameWidth(s);
    assert got[w - 1] != Zeros(w)[w - 1];
    assert got != AcceptedFrames(s, es)[0][c] by {
      if c == 0 {
        assert AcceptedFrames(s, es)[0][c][0] == 1;
      } else {
        assert AcceptedFrames(s, es)[0][c][w - 1] == 2;
      }
    }
  }

  lemma FramePositive(n: nat, w: nat)
    requires n > 0 && w > 0
    ensures n * w > 0
  {
  }

  lemma Quotient(x: nat, n: nat, w: nat, frame: nat)
    requires frame == n * w > 0
    ensures x == (x / frame) * n * w + x % frame
  {
    Assoc(x / frame, n, w);
  }

  /** Over every run every channel stays on its own port, just when the preroll is a whole number of frames. */
  lemma InPlaceIffAligned(s: JackState, preroll: nat)
    requires Plays(s) && s.isOpen && s.contents == Zeros(preroll)
    requires 2 * (s.nbChannels * FrameWidth(s)) <= s.capacity + 1
    ensures s.nbChannels * FrameWidth(s) > 0
    ensures (forall es :: WholeWrites(s, es) ==> InPlace(s, es))
       <==> preroll % (s.nbChannels * FrameWidth(s)) == 0
  {
    hide InPlace, WholeWrites, FrameWidth;
    var n, w := s.nbChannels, FrameWidth(s);
    var frame := n * w;
    FramePositive(n, w);
    var q, r := preroll / frame, preroll % frame;
    Quotient(preroll, n, w, frame);
    if r == 0 {
      forall es | WholeWrites(s, es)
        ensures InPlace(s, es)
      {
        AlignedInPlace(s, es, q);
      }
    } else {
      WitnessMoves(s, q, r, n, w, frame);
    }
  }

  /** With a preroll of `p` samples, port sample `p + j` is accepted sample `j`, counting samples through the frames. */
  lemma SampleDelay(s: JackState, es: seq<Event>, p: nat, f: nat, c: nat, k: nat, d: nat)
    requires Plays(s) && WholeWrites(s, es) && s.contents == Zeros(p * FrameWidth(s))
    requires f < |PortFrames(s, es)| && c < s.nbChannels && d < s.nbChannels
    requires f * s.nbChannels + c == p + (k * s.nbChannels + d)
    ensures |PortFrames(s, es)[f]| == s.nbChannels
    ensures k < |AcceptedFrames(s, es)| && |AcceptedFrames(s, es)[k]| == s.nbChannels
    ensures PortFrames(s, es)[f][c] == AcceptedFrames(s, es)[k][d]
  {
    Conservation(s, es);
    ConsumedWhole(s, es);
    WholeFramesCount(Consumed(s, es), Delivered(s, es), s.nbChannels, FrameWidth(s));
    var frames := AcceptedWhole(s, es);
    StreamDelay(Consumed(s, es), Run(s, es).contents, s.contents, Accepted(s, es), p, f, c, k, d, s.nbChannels,
                FrameWidth(s), frames);
  }

  lemma StreamDelay(out: seq<byte>, rest: seq<byte>, zeros: seq<byte>, kept: seq<byte>, p: nat,
                    f: nat, c: nat, k: nat, d: nat, n: nat, w: nat, frames: nat)
    requires n > 0 && w > 0 && out + rest == zeros + kept
    requires |zeros| == p * w && WholeFrames(kept, frames, n, w)
    requires f < FrameCount(|out|, n, w) && c < n && d < n && f * n + c == p + (k * n + d)
    ensures f < |FramesOf(out, n, w)| && |FramesOf(out, n, w)[f]| == n
    ensures k < |FramesOf(kept, n, w)| && |FramesOf(kept, n, w)[k]| == n
    ensures FramesOf(out, n, w)[f][c] == FramesOf(kept, n, w)[k][d]
  {
    hide FramesOf, Slot, FrameCount;
    var j := k * n + d;
    FramesAt(out, n, w, f, c);
    PrefixSlot(out, rest, p + j, w);
    DelayedSlot(zeros, kept, p, j, w, frames * n);
    WholeFramesCount(kept, frames, n, w);
    CellRow(k, d, n, frames);
    FramesAt(kept, n, w, k, d);
  }

  lemma DelayedSlot(zeros: seq<byte>, kept: seq<byte>, p: nat, j: nat, w: nat, slots: nat)
    requires w > 0 && |zeros| == p * w && |kept| == slots * w && (p + j) * w + w <= |zeros + kept|
    ensures j < slots && j * w + w <= |kept|
    ensures Slot(zeros + kept, p + j, w) == Slot(kept, j, w)
  {
    assert (p + j) * w == p * w + j * w;
    if slots <= j {
      MulMono(slots, j, w);
    }
    SuffixSlot(zeros, kept, p, j, w);
  }

  lemma CellRow(k: nat, d: nat, n: nat, frames: nat)
    requires n > 0 && k * n + d < frames * n
    ensures k < frames
  {
    if frames <= k {
      MulMono(frames, k, n);
    }
  }

  /** A preroll of `p` samples that is not whole frames rotates the channels: channel `d` of accepted frame `k` is
      sample `p + k * n + d` of the ports, and so comes out on port `(d + p) % n`, which is port `d` only if `n` divides
      `p`. */
  lemma ChannelRotation(s: JackState, es: seq<Event>, p: nat, k: nat, d: nat, f: nat, c: nat)
    requires Plays(s) && WholeWrites(s, es) && s.contents == Zeros(p * FrameWidth(s))
    requires k < |AcceptedFrames(s, es)| && d < s.nbChannels
    requires f * s.nbChannels + c == p + (k * s.nbChannels + d) && c < s.nbChannels
    ensures c == (d + p) % s.nbChannels && (c == d <==> p % s.nbChannels == 0)
    ensures f < |PortFrames(s, es)| ==>
      && |PortFrames(s, es)[f]| == s.nbChannels && |AcceptedFrames(s, es)[k]| == s.nbChannels
      && PortFrames(s, es)[f][c] == AcceptedFrames(s, es)[k][d]
  {
    hide PortFrames, AcceptedFrames, WholeWrites, Plays, FrameWidth;
    var n := s.nbChannels;
    RotatedChannel(f, c, n, p, k, d);
    RotationMoves(d, p, n);
    if f < |PortFrames(s, es)| {
      SampleDelay(s, es, p, f, c, k, d);
    }
  }

  lemma RotatedChannel(f: nat, c: nat, n: nat, p: nat, k: nat, d: nat)
    requires c < n && f * n + c == p + (k * n + d)
    ensures c == (d + p) % n
  {
    var row := f - k;
    assert f * n - k * n == row * n;
    if row < 0 {
      MulMono(row, -1, n);
    }
    DivModUnique(d + p, n, row, c);
  }

  lemma RotationMoves(d: nat, p: nat, n: nat)
    requires d < n
    ensures (d + p) % n == d <==> p % n == 0
  {
    ShiftedRemainder(d, p, n, p / n, p % n);
  }

  lemma ShiftedRemainder(d: nat, p: nat, n: nat, q: int, r: nat)
    requires d < n && p == q * n + r && r < n
    ensures (d + p) % n == if d + r < n then d + r else d + r - n
  {
    if d + r < n {
      DivModUnique(d + p, n, q, d + r);
    } else {
      assert (q + 1) * n == q * n + n;
      DivModUnique(d + p, n, q + 1, d + r - n);
    }
  }

  /** The samples of the preroll are zeros, and for the integer formats up to 24 bits the ports play them as silence. */
  lemma PrerollIsSilent(s: JackState, es: seq<Event>, p: nat, f: nat, c: nat)
    requires Plays(s) && s.contents == Zeros(p * FrameWidth(s))
    requires f < |PortFrames(s, es)| && c < s.nbChannels && f * s.nbChannels + c < p
    ensures |PortFrames(s, es)[f]| == s.nbChannels && PortFrames(s, es)[f][c] == Zeros(FrameWidth(s))
    ensures s.fmt < 3 ==> Convert(PortFrames(s, es)[f][c], s.fmt) == Level(0.0)
  {
    hide Convert, Run, Consumed, Accepted, FramesOf, SampleSize;
    var n, w, j := s.nbChannels, FrameWidth(s), f * s.nbChannels + c;
    Conservation(s, es);
    PortFramesCount(s, es);
    FramesAt(Consumed(s, es), n, w, f, c);
    SlotFits(j, p, w);
    SilentStart(Consumed(s, es), Run(s, es).contents, s.contents, Accepted(s, es), j, w);
    if s.fmt < 3 {
      ZeroIsSilence(s.fmt);
    }
  }

  /** A stream of 64-bit floats is silent on every port, in every run. */
  lemma SilentDoubles(s: JackState, es: seq<Event>, f: nat, c: nat)
    requires Plays(s) && s.fmt == 5 && f < |PortFrames(s, es)| && c < s.nbChannels
    ensures |PortFrames(s, es)[f]| == s.nbChannels && |PortFrames(s, es)[f][c]| == 8
    ensures Convert(PortFrames(s, es)[f][c], 5) == Level(0.0)
  {
    hide Convert, FramesOf, Consumed;
    PortFramesCount(s, es);
    FramesAt(Consumed(s, es), s.nbChannels, FrameWidth(s), f, c);
    ConvertKeepsBits(PortFrames(s, es)[f][c], 5);
  }

  lemma PortFramesCount(s: JackState, es: seq<Event>)
    requires Plays(s)
    ensures |PortFrames(s, es)| == FrameCount(|Consumed(s, es)|, s.nbChannels, FrameWidth(s))
  {
  }

  lemma SilentStart(out: seq<byte>, rest: seq<byte>, zeros: seq<byte>, kept: seq<byte>, j: nat, w: nat)
    requires out + rest == zeros + kept && zeros == Zeros(|zeros|)
    requires j * w + w <= |out| && j * w + w <= |zeros|
    ensures Slot(out, j, w) == Zeros(w)
  {
    PrefixSlot(out, rest, j, w);
    PrefixSlot(zeros, kept, j, w);
    ZeroSlot(zeros, j, w);
  }

  // ----- what an open leaves

  lemma FirstBufferSize(requested: nat, period: nat, fmt: nat)
    ensures BufferSize(0, requested, period, fmt) == requested
  {
    assert period * 0 * SampleSize(fmt) == 0;
  }

  /** The preroll is the least size that holds both the requested bytes and a JACK period of the previous channel count,
      whose bytes are counted modulo 2^32. */
  lemma BufferSizeIsLeast(previous: nat, requested: nat, period: nat, fmt: nat, size: nat)
    ensures size >= BufferSize(previous, requested, period, fmt)
       <==> size >= requested && size >= (period * previous * SampleSize(fmt)) % 0x1_0000_0000
  {
  }

  /** After a reopen with the same channel count, for a period that is at least the requested size and does not wrap
      around 32 bits: the preroll is exactly one period, so the ports carry `period` silent frames and then the accepted
      ones. */
  lemma ReopenPreroll(s: JackState, requested: nat, period: nat, cfg: StreamConfig, es: seq<Event>)
    requires s.nbChannels == cfg.nbChannels && Sendable(cfg)
    requires requested <= period * cfg.nbChannels * SampleSize(cfg.bitFmt) < 0x1_0000_0000
    ensures var o := OpenState(s, requested, period, cfg);
            && Plays(o) && o.contents == Zeros(period * cfg.nbChannels * SampleSize(cfg.bitFmt))
            && (WholeWrites(o, es) ==>
                  && PortFrames(o, es) <= SilentFrames(period, o.nbChannels, FrameWidth(o)) + AcceptedFrames(o, es)
                  && forall k: nat :: period + k < |PortFrames(o, es)| ==>
                       k < |AcceptedFrames(o, es)| && PortFrames(o, es)[period + k] == AcceptedFrames(o, es)[k])
  {
    hide RingSize, SampleSize, PortFrames, AcceptedFrames, WholeWrites;
    var o, bytes := OpenState(s, requested, period, cfg), period * cfg.nbChannels * SampleSize(cfg.bitFmt);
    OpenFits(s, requested, period, cfg);
    assert bytes % 0x1_0000_0000 == bytes;
    if WholeWrites(o, es) {
      PrerollThenFrames(o, es, period);
    }
  }

  /** Every open leaves a ring that can hold twice the preroll, less one byte. */
  lemma OpenFits(s: JackState, requested: nat, period: nat, cfg: StreamConfig)
    ensures var o := OpenState(s, requested, period, cfg);
            && o.isOpen && |o.contents| >= requested
            && 2 * |o.contents| <= o.capacity + 1 && |o.contents| <= o.capacity
            && (o.capacity == 1 || o.capacity + 1 < 4 * |o.contents|)
            && IsPowerOfTwo(o.capacity + 1)
  {
  }
}
