/** Starvation of the JACK ring: when callbacks of one period are served by writes of one size, and when for ever. */
module JackFlow {
  import opened Bytes
  import opened Frames
  import opened Protocol
  import opened JackRing
  import opened Jack
  import opened JackProofs

  // ----- the greatest common divisor

  function Gcd(a: nat, b: nat): nat
    decreases b
  {
    if b == 0 then a else Gcd(b, a % b)
  }

  lemma GcdStep(a: nat, b: nat)
    requires b > 0
    ensures Gcd(a, b) == Gcd(b, a % b) && (a % b == 0 ==> Gcd(a, b) == b)
  {
  }

  lemma GcdZero(d: nat)
    ensures Gcd(d, 0) == d
  {
  }

  lemma {:induction false} GcdFactors(a: nat, b: nat) returns (x: nat, y: nat)
    requires a > 0 || b > 0
    ensures Gcd(a, b) > 0 && a == x * Gcd(a, b) && b == y * Gcd(a, b)
    decreases b
  {
    hide Gcd;
    if b == 0 {
      GcdZero(a);
      x, y := 1, 0;
    } else {
      var q, r, z := a / b, a % b, 0;
      GcdStep(a, b);
      y, z := GcdFactors(b, r);
      x := q * y + z;
      FactorStep(a, b, q, r, y, z, Gcd(a, b));
    }
  }

  lemma FactorStep(a: nat, b: nat, q: nat, r: nat, y: nat, z: nat, g: nat)
    requires a == q * b + r && b == y * g && r == z * g
    ensures a == (q * y + z) * g
  {
    Assoc(q, y, g);
    Distribute(q * y, z, g);
  }

  /** The divisor is a difference of multiples, in both directions. */
  lemma {:induction false} Bezout(a: nat, b: nat) returns (x: nat, y: nat, u: nat, v: nat)
    requires a > 0 && b > 0
    ensures x * a == y * b + Gcd(a, b) && v * b == u * a + Gcd(a, b)
    decreases b
  {
    hide Gcd;
    var q, r, g := a / b, a % b, Gcd(a, b);
    GcdStep(a, b);
    if r == 0 {
      QuotientPositive(a, b, q);
      x, y, u, v := 1, q - 1, 0, 1;
      MulStep(q - 1, b);
    } else {
      var p, s, t, w := Bezout(b, r);
      v, u := p + s * q, s;
      BezoutStep(a, b, q, r, p, s, g);
      x, y := w, t + w * q;
      BezoutBack(a, b, q, r, w, t, g);
    }
  }

  lemma QuotientPositive(a: nat, b: nat, q: nat)
    requires a > 0 && a == q * b
    ensures q > 0
  {
  }

  lemma BezoutStep(a: nat, b: nat, q: nat, r: nat, p: nat, s: nat, g: nat)
    requires a == q * b + r && p * b == s * r + g
    ensures (p + s * q) * b == s * a + g
  {
    assert s * a == s * (q * b) + s * r;
    Distribute(p, s * q, b);
    Assoc(s, q, b);
  }

  lemma BezoutBack(a: nat, b: nat, q: nat, r: nat, w: nat, t: nat, g: nat)
    requires a == q * b + r && w * r == t * b + g
    ensures w * a == (t + w * q) * b + g
  {
    assert w * a == w * (q * b) + w * r;
    Distribute(t, w * q, b);
    Assoc(w, q, b);
  }

  /** Two levels that differ by a multiple of the divisor are joined by some writes of `d` bytes and reads of `n`. */
  lemma Balanced(from: nat, target: nat, d: nat, n: nat) returns (a: nat, b: nat)
    requires d > 0 && n > 0 && Gcd(d, n) > 0 && from % Gcd(d, n) == target % Gcd(d, n)
    ensures from + a * d == target + b * n
  {
    var g := Gcd(d, n);
    var x, y, u, v := Bezout(d, n);
    var k := target / g - from / g;
    SameRemainder(from, target, g, k);
    if k >= 0 {
      a, b := k * x, k * y;
      Scaled(k, x, d, y, n, g);
    } else {
      var j := 0 - k;
      a, b := j * u, j * v;
      Scaled(j, v, n, u, d, g);
      assert j * g == 0 - k * g;
    }
  }

  lemma SameRemainder(x: nat, y: nat, g: nat, k: int)
    requires g > 0 && x % g == y % g && k == y / g - x / g
    ensures y == x + k * g
  {
    var p, q := x / g, y / g;
    assert k * g == q * g - p * g;
  }

  lemma Scaled(k: nat, x: nat, d: nat, y: nat, n: nat, g: nat)
    requires x * d == y * n + g
    ensures (k * x) * d == (k * y) * n + k * g
  {
    Assoc(k, x, d);
    Assoc(k, y, n);
    assert k * (y * n + g) == k * (y * n) + k * g;
  }

  // ----- levels and remainders

  lemma AddMultiple(x: nat, k: nat, g: nat)
    requires g > 0
    ensures (x + k * g) % g == x % g
  {
    var q, r := x / g, x % g;
    Distribute(q, k, g);
    DivModUnique(x + k * g, g, q + k, r);
  }

  /** The highest level that writes of `d` bytes reach from `level` without passing `capacity`. */
  function Top(level: nat, capacity: nat, d: nat): nat
    requires d > 0 && level <= capacity
  {
    level + ((capacity - level) / d) * d
  }

  lemma TopFits(level: nat, capacity: nat, d: nat)
    requires d > 0 && level <= capacity
    ensures level <= Top(level, capacity, d) <= capacity
  {
    QuotientTimes(capacity - level, d, (capacity - level) / d, (capacity - level) % d);
  }

  lemma QuotientTimes(x: nat, d: nat, q: nat, r: nat)
    requires x == q * d + r
    ensures 0 <= q * d <= x
  {
  }

  /** No level with the same remainder is higher. */
  lemma TopIsHighest(level: nat, capacity: nat, d: nat, x: nat)
    requires d > 0 && level <= capacity && x <= capacity && x % d == level % d
    ensures x <= Top(level, capacity, d)
  {
    var k := x / d - level / d;
    SameRemainder(level, x, d, k);
    var q, r := (capacity - level) / d, (capacity - level) % d;
    if q < k {
      MulMono(q + 1, k, d);
      MulStep(q, d);
    } else {
      MulMono(k, q, d);
    }
  }

  // ----- runs in pieces

  lemma {:induction false} RunConcat(s: JackState, xs: seq<Event>, ys: seq<Event>)
    ensures Run(s, xs + ys) == Run(Run(s, xs), ys)
  {
    if ys == [] {
      assert xs + ys == xs;
    } else {
      var init, e := ys[..|ys| - 1], ys[|ys| - 1];
      RunConcat(s, xs, init);
      assert xs + ys == (xs + init) + [e];
      RunSnoc(s, xs + init, e);
    }
  }

  lemma RunOne(s: JackState, e: Event)
    ensures Run(s, [e]) == Step(s, e)
  {
    assert [e][..0] == [];
    assert Run(s, []) == s;
  }

  lemma RunCons(s: JackState, e: Event, es: seq<Event>)
    ensures Run(s, [e] + es) == Run(Step(s, e), es)
  {
    RunOne(s, e);
    RunConcat(s, [e], es);
  }

  /** A backend that a run can start from. */
  predicate Ready(s: JackState) {
    s.isOpen && |s.contents| <= s.capacity
  }

  lemma NeedAfter(s: JackState, es: seq<Event>, m: nat)
    requires Ready(s)
    ensures Need(Run(s, es), m) == Need(s, m) && Ready(Run(s, es)) && Run(s, es).capacity == s.capacity
    ensures SameDevice(s, Run(s, es))
  {
    Conservation(s, es);
  }

  // ----- writers of whole frames

  function FrameOf(s: JackState): nat {
    s.nbChannels * FrameWidth(s)
  }

  lemma FrameMultiple(k: nat, s: JackState)
    ensures (k * s.nbChannels) * FrameWidth(s) == k * FrameOf(s)
  {
    Assoc(k, s.nbChannels, FrameWidth(s));
  }

  lemma FramePositiveOf(s: JackState)
    requires Plays(s)
    ensures FrameOf(s) > 0
  {
    FramePositive(s.nbChannels, FrameWidth(s));
  }

  /** Whole-frame writes and callbacks keep the fill level's remainder by the frame size. */
  lemma {:induction false} WholeLevel(s: JackState, es: seq<Event>)
    requires Plays(s) && Ready(s) && WholeWrites(s, es)
    ensures FrameOf(s) > 0 && |Run(s, es).contents| % FrameOf(s) == |s.contents| % FrameOf(s)
  {
    hide FrameOf;
    FramePositiveOf(s);
    if es != [] {
      var init, e := es[..|es| - 1], es[|es| - 1];
      assert forall x :: x in init ==> x in es;
      WholeLevel(s, init);
      assert e in es;
      NeedAfter(s, init, if e.Callback? then e.nframes else 0);
      WholeStep(s, Run(s, init), e);
    }
  }

  lemma WholeStep(s: JackState, t: JackState, e: Event)
    requires Plays(s) && SameDevice(s, t) && FrameOf(s) > 0
    requires e.Write? ==>
      WholeFrames(e.data, FrameCount(|e.data|, s.nbChannels, FrameWidth(s)), s.nbChannels, FrameWidth(s))
    ensures |Step(t, e).contents| % FrameOf(s) == |t.contents| % FrameOf(s)
  {
    hide FrameOf, FrameCount;
    var f := FrameOf(s);
    if e.Write? {
      var k := FrameCount(|e.data|, s.nbChannels, FrameWidth(s));
      FrameMultiple(k, s);
      AddMultiple(|t.contents|, k, f);
    } else if Delivers(t, e.nframes) {
      FrameMultiple(e.nframes, s);
      AddMultiple(|t.contents| - Need(t, e.nframes), e.nframes, f);
    }
  }

  /** From any state of such a run, one callback and one write raise the ring to its highest level. */
  lemma WholeRefill(s: JackState, t: JackState, m: nat) returns (more: seq<Event>)
    requires Plays(s) && Ready(t) && SameDevice(s, t) && FrameOf(s) > 0
    requires |t.contents| <= t.capacity && Need(t, m) <= Top(|t.contents|, t.capacity, FrameOf(s))
    ensures WholeWrites(s, more) && Delivers(Run(t, more), m)
  {
    hide FrameOf, FrameCount, Top;
    if Delivers(t, m) {
      more := [];
      assert Run(t, []) == t;
    } else {
      var k := (t.capacity - |t.contents|) / FrameOf(s);
      var data := Zeros((k * s.nbChannels) * FrameWidth(s));
      TopIs(|t.contents|, t.capacity, FrameOf(s), k);
      FrameMultiple(k, s);
      WholeFramesCount(data, k, s.nbChannels, FrameWidth(s));
      more := [Callback(m)] + [Write(data)];
      RunCons(t, Callback(m), [Write(data)]);
      RunOne(Step(t, Callback(m)), Write(data));
      TopFits(|t.contents|, t.capacity, FrameOf(s));
    }
  }

  lemma TopIs(level: nat, capacity: nat, d: nat, k: nat)
    requires d > 0 && level <= capacity && k == (capacity - level) / d
    ensures Top(level, capacity, d) == level + k * d
  {
  }

  lemma SameTop(x: nat, y: nat, capacity: nat, d: nat)
    requires d > 0 && x <= capacity && y <= capacity && x % d == y % d
    ensures Top(x, capacity, d) == Top(y, capacity, d)
  {
    TopFits(x, capacity, d);
    TopFits(y, capacity, d);
    AddMultiple(x, (capacity - x) / d, d);
    AddMultiple(y, (capacity - y) / d, d);
    TopIsHighest(x, capacity, d, Top(y, capacity, d));
    TopIsHighest(y, capacity, d, Top(x, capacity, d));
  }

  /** Some whole-frame writes and callbacks bring a state to where a callback delivers; `s` fixes the frames. */
  ghost predicate CanDeliverWhole(s: JackState, t: JackState, m: nat)
    requires Plays(s)
  {
    exists es :: WholeWrites(s, es) && Delivers(Run(t, es), m)
  }

  /** With writes of whole frames in any sizes, some run delivers a period just when the period is at most the highest
      level that whole frames reach from the preroll; and then every run can be continued until it delivers again. */
  lemma WholeWritesPlayIff(s: JackState, m: nat)
    requires Plays(s) && Ready(s)
    ensures FrameOf(s) > 0
    ensures CanDeliverWhole(s, s, m) <==> Need(s, m) <= Top(|s.contents|, s.capacity, FrameOf(s))
    ensures CanDeliverWhole(s, s, m) ==> forall es :: WholeWrites(s, es) ==> CanDeliverWhole(s, Run(s, es), m)
  {
    hide FrameOf, Top, WholeWrites, Delivers, Run, Plays, Need, CanDeliverWhole;
    FramePositiveOf(s);
    WholeFirst(s, m);
    if CanDeliverWhole(s, s, m) {
      forall es | WholeWrites(s, es)
        ensures CanDeliverWhole(s, Run(s, es), m)
      {
        WholeNext(s, es, m);
      }
    }
  }

  lemma WholeFirst(s: JackState, m: nat)
    requires Plays(s) && Ready(s) && FrameOf(s) > 0
    ensures CanDeliverWhole(s, s, m) <==> Need(s, m) <= Top(|s.contents|, s.capacity, FrameOf(s))
  {
    hide FrameOf, Top, WholeWrites, Delivers, Run, Plays, Need;
    if es :| WholeWrites(s, es) && Delivers(Run(s, es), m) {
      WholeBound(s, es, m);
    }
    if Need(s, m) <= Top(|s.contents|, s.capacity, FrameOf(s)) {
      var first := WholeRefill(s, s, m);
    }
  }

  lemma WholeNext(s: JackState, es: seq<Event>, m: nat)
    requires Plays(s) && Ready(s) && FrameOf(s) > 0 && WholeWrites(s, es)
    requires Need(s, m) <= Top(|s.contents|, s.capacity, FrameOf(s))
    ensures CanDeliverWhole(s, Run(s, es), m)
  {
    hide FrameOf, Top, WholeWrites, Delivers, Run, Plays, Need;
    var more := WholeRefillAfter(s, es, m);
  }

  lemma WholeBound(s: JackState, es: seq<Event>, m: nat)
    requires Plays(s) && Ready(s) && FrameOf(s) > 0 && WholeWrites(s, es) && Delivers(Run(s, es), m)
    ensures Need(s, m) <= Top(|s.contents|, s.capacity, FrameOf(s))
  {
    hide FrameOf, Top, WholeWrites, Delivers, Run;
    WholeLevel(s, es);
    NeedAfter(s, es, m);
    TopIsHighest(|s.contents|, s.capacity, FrameOf(s), |Run(s, es).contents|);
    DeliveredLevel(Run(s, es), m);
  }

  lemma WholeRefillAfter(s: JackState, es: seq<Event>, m: nat) returns (more: seq<Event>)
    requires Plays(s) && Ready(s) && FrameOf(s) > 0 && WholeWrites(s, es)
    requires Need(s, m) <= Top(|s.contents|, s.capacity, FrameOf(s))
    ensures WholeWrites(s, more) && Delivers(Run(Run(s, es), more), m)
  {
    hide FrameOf, Top, WholeWrites, Delivers, Run;
    WholeLevel(s, es);
    NeedAfter(s, es, m);
    SameTop(|Run(s, es).contents|, |s.contents|, s.capacity, FrameOf(s));
    more := WholeRefill(s, Run(s, es), m);
  }

  lemma DeliveredLevel(t: JackState, m: nat)
    ensures Delivers(t, m) <==> Need(t, m) <= |t.contents|
  {
  }

  // ----- writes of one size and callbacks of one period

  /** Every write has `d` bytes, and every callback asks for `m` frames. */
  predicate Rhythm(es: seq<Event>, d: nat, m: nat) {
    forall e :: e in es ==> InRhythm(e, d, m)
  }

  predicate InRhythm(e: Event, d: nat, m: nat) {
    match e
    case Write(data) => |data| == d
    case Callback(nframes) => nframes == m
  }

  /** Some run in this rhythm brings the ring to where a callback delivers. */
  ghost predicate CanDeliver(t: JackState, d: nat, m: nat) {
    exists more :: Rhythm(more, d, m) && Delivers(Run(t, more), m)
  }

  lemma RhythmConcat(xs: seq<Event>, ys: seq<Event>, d: nat, m: nat)
    requires Rhythm(xs, d, m) && Rhythm(ys, d, m)
    ensures Rhythm(xs + ys, d, m)
  {
  }

  lemma RhythmInit(es: seq<Event>, d: nat, m: nat)
    requires es != [] && Rhythm(es, d, m)
    ensures Rhythm(es[..|es| - 1], d, m) && InRhythm(es[|es| - 1], d, m)
  {
    assert es[|es| - 1] in es;
  }

  /** What one event of the rhythm does to the fill level. */
  lemma RhythmStep(t: JackState, e: Event, d: nat, m: nat)
    requires Ready(t) && InRhythm(e, d, m)
    ensures var r := Step(t, e);
            && SameDevice(t, r) && Ready(r) && (t.active ==> r.active) && (e.Callback? ==> r.active)
            && (e.Write? ==> |r.contents| == if t.active && |t.contents| + d <= t.capacity then |t.contents| + d
                                             else |t.contents|)
            && (e.Callback? ==> |r.contents| == if Need(t, m) <= |t.contents| then |t.contents| - Need(t, m)
                                                else |t.contents|)
  {
  }

  /** Without a delivery the level is the preroll and some whole writes. */
  lemma {:induction false} BeforeDelivery(s: JackState, es: seq<Event>, d: nat, m: nat) returns (j: nat)
    requires Ready(s) && d > 0 && Rhythm(es, d, m)
    requires Need(s, m) > Top(|s.contents|, s.capacity, d)
    ensures |Run(s, es).contents| == |s.contents| + j * d && !Delivers(Run(s, es), m)
  {
    hide Top, Run, Rhythm, InRhythm, Need, Delivers;
    j := 0;
    NeedAfter(s, es, m);
    NoWriteYet(|s.contents|, d);
    if es == [] {
      assert Run(s, []) == s by { EmptyRun(s); }
    } else {
      var init, e := es[..|es| - 1], es[|es| - 1];
      RhythmInit(es, d, m);
      j := BeforeDelivery(s, init, d, m);
      NeedAfter(s, init, m);
      RunSnoc(s, init, e);
      assert init + [e] == es;
      RhythmStep(Run(s, init), e, d, m);
      DeliveredLevel(Run(s, init), m);
      MulStep(j, d);
      if |Run(s, es).contents| != |Run(s, init).contents| {
        j := j + 1;
      }
    }
    NotYet(s, Run(s, es), d, m, j);
  }

  lemma NotYet(s: JackState, t: JackState, d: nat, m: nat, j: nat)
    requires Ready(s) && Ready(t) && SameDevice(s, t) && d > 0 && |t.contents| == |s.contents| + j * d
    requires Need(s, m) > Top(|s.contents|, s.capacity, d)
    ensures !Delivers(t, m)
  {
    hide Top;
    AddMultiple(|s.contents|, j, d);
    TopIsHighest(|s.contents|, s.capacity, d, |t.contents|);
    SameNeed(s, t, Callback(m));
  }

  lemma NoWriteYet(level: nat, d: nat)
    ensures level + 0 * d == level
  {
  }

  /** Writes of `d` bytes to an active ring with room for `k` of them. */
  lemma {:induction false} FillWith(t: JackState, d: nat, m: nat, k: nat) returns (more: seq<Event>)
    requires Ready(t) && t.active && |t.contents| + k * d <= t.capacity
    ensures Rhythm(more, d, m) && |Run(t, more).contents| == |t.contents| + k * d
    decreases k
  {
    hide Run, Rhythm;
    more := [];
    if k == 0 {
      EmptyRhythm(d, m);
      EmptyRun(t);
    } else {
      MulStep(k - 1, d);
      var e := Write(Zeros(d));
      RhythmStep(t, e, d, m);
      var rest := FillWith(Step(t, e), d, m, k - 1);
      more := [e] + rest;
      OneRhythm(e, d, m);
      RhythmConcat([e], rest, d, m);
      RunCons(t, e, rest);
    }
  }

  lemma EmptyRhythm(d: nat, m: nat)
    ensures Rhythm([], d, m)
  {
  }

  lemma OneRhythm(e: Event, d: nat, m: nat)
    requires InRhythm(e, d, m)
    ensures Rhythm([e], d, m)
  {
  }

  /** With writes of `d` bytes and callbacks of `m` frames, some callback delivers just when the period is at most the
      highest level that whole writes reach from the preroll. */
  lemma FirstDeliveryIff(s: JackState, d: nat, m: nat)
    requires Ready(s) && d > 0
    ensures CanDeliver(s, d, m) <==> Need(s, m) <= Top(|s.contents|, s.capacity, d)
  {
    hide Rhythm, Run, Top, Delivers;
    if Need(s, m) > Top(|s.contents|, s.capacity, d) {
      forall es | Rhythm(es, d, m)
        ensures !Delivers(Run(s, es), m)
      {
        var j := BeforeDelivery(s, es, d, m);
      }
    } else {
      var es := Deliver(s, d, m);
    }
  }

  lemma Deliver(s: JackState, d: nat, m: nat) returns (es: seq<Event>)
    requires Ready(s) && d > 0 && Need(s, m) <= Top(|s.contents|, s.capacity, d)
    ensures Rhythm(es, d, m) && Delivers(Run(s, es), m)
  {
    hide Run, Rhythm, Top;
    EmptyRhythm(d, m);
    EmptyRun(s);
    es := [];
    if !Delivers(s, m) {
      var t, k := Step(s, Callback(m)), (s.capacity - |s.contents|) / d;
      RhythmStep(s, Callback(m), d, m);
      TopIs(|s.contents|, s.capacity, d, k);
      TopFits(|s.contents|, s.capacity, d);
      var more := FillWith(t, d, m, k);
      es := [Callback(m)] + more;
      OneRhythm(Callback(m), d, m);
      RhythmConcat([Callback(m)], more, d, m);
      RunCons(s, Callback(m), more);
      NeedAfter(s, es, m);
    }
  }

  // ----- playing for ever

  /** However long the rhythm has gone on, it can go on until a callback delivers again. */
  ghost predicate NeverStarves(s: JackState, d: nat, m: nat) {
    forall es :: Rhythm(es, d, m) ==> CanDeliver(Run(s, es), d, m)
  }

  /** The common divisor of the write size and the period's bytes. */
  function Grain(s: JackState, d: nat, m: nat): nat {
    Gcd(d, Need(s, m))
  }

  /** Every level of such a run has the preroll's remainder by the grain. */
  lemma {:induction false} RhythmLevel(s: JackState, es: seq<Event>, d: nat, m: nat, g: nat, x: nat, y: nat)
    requires Ready(s) && Rhythm(es, d, m) && g > 0 && d == x * g && Need(s, m) == y * g
    ensures |Run(s, es).contents| % g == |s.contents| % g
  {
    hide Rhythm, InRhythm, Run;
    if es == [] {
      EmptyRun(s);
    } else {
      var init, e := es[..|es| - 1], es[|es| - 1];
      RhythmInit(es, d, m);
      RhythmLevel(s, init, d, m, g, x, y);
      NeedAfter(s, init, m);
      RunSnoc(s, init, e);
      assert init + [e] == es;
      var t := Run(s, init);
      RhythmStep(t, e, d, m);
      AddMultiple(|t.contents|, x, g);
      if Need(t, m) <= |t.contents| {
        AddMultiple(|t.contents| - Need(t, m), y, g);
      }
    }
  }

  /** The highest level below a period that has the remainder of `level` by a divisor `g` of the period. */
  lemma BelowPeriod(level: nat, n: nat, g: nat, y: nat)
    requires g > 0 && n == y * g && level < n
    ensures level <= n - g + level % g
  {
    var q, r := level / g, level % g;
    if y <= q {
      MulMono(y, q, g);
    } else {
      MulMono(q, y - 1, g);
      MulStep(y - 1, g);
    }
  }

  /** Writing on until a callback delivers, when no level below the period blocks a write. */
  lemma {:induction false} WriteOn(t: JackState, d: nat, m: nat, g: nat, x: nat, y: nat) returns (more: seq<Event>)
    requires Ready(t) && t.active && d > 0 && g > 0 && d == x * g && Need(t, m) == y * g
    requires Need(t, m) + d - g + |t.contents| % g <= t.capacity
    ensures Rhythm(more, d, m) && Delivers(Run(t, more), m)
    decreases if Need(t, m) <= |t.contents| then 0 else Need(t, m) - |t.contents|
  {
    hide Rhythm, Run, InRhythm, Need;
    more := [];
    if Need(t, m) <= |t.contents| {
      EmptyRhythm(d, m);
      EmptyRun(t);
    } else {
      var e := Write(Zeros(d));
      ZerosInRhythm(d, m);
      BelowPeriod(|t.contents|, Need(t, m), g, y);
      RhythmStep(t, e, d, m);
      SameNeed(t, Step(t, e), Callback(m));
      AddMultiple(|t.contents|, x, g);
      var rest := WriteOn(Step(t, e), d, m, g, x, y);
      more := [e] + rest;
      OneRhythm(e, d, m);
      RhythmConcat([e], rest, d, m);
      RunCons(t, e, rest);
    }
  }

  lemma ZerosInRhythm(d: nat, m: nat)
    ensures InRhythm(Write(Zeros(d)), d, m)
  {
  }

  lemma EnoughRoom(s: JackState, es: seq<Event>, d: nat, m: nat, g: nat, x: nat, y: nat)
    requires Ready(s) && d > 0 && g > 0 && d == x * g && Need(s, m) == y * g && Rhythm(es, d, m)
    requires Need(s, m) + d - g + |s.contents| % g <= s.capacity
    ensures CanDeliver(Run(s, es), d, m)
  {
    hide Rhythm, Run, InRhythm, Need;
    RhythmLevel(s, es, d, m, g, x, y);
    NeedAfter(s, es, m);
    var more := PlayOn(Run(s, es), d, m, g, x, y);
  }

  lemma PlayOn(t: JackState, d: nat, m: nat, g: nat, x: nat, y: nat) returns (more: seq<Event>)
    requires Ready(t) && d > 0 && g > 0 && d == x * g && Need(t, m) == y * g
    requires Need(t, m) + d - g + |t.contents| % g <= t.capacity
    ensures Rhythm(more, d, m) && Delivers(Run(t, more), m)
  {
    hide Rhythm, Run, InRhythm, Need;
    more := [];
    if Need(t, m) <= |t.contents| {
      EmptyRhythm(d, m);
      EmptyRun(t);
    } else {
      var e := Callback(m);
      CallbackInRhythm(d, m);
      RhythmStep(t, e, d, m);
      SameNeed(t, Step(t, e), e);
      var rest := WriteOn(Step(t, e), d, m, g, x, y);
      more := [e] + rest;
      OneRhythm(e, d, m);
      RhythmConcat([e], rest, d, m);
      RunCons(t, e, rest);
    }
  }

  lemma CallbackInRhythm(d: nat, m: nat)
    ensures InRhythm(Callback(m), d, m)
  {
  }

  /** Too little for a callback, and no room for a write. */
  predicate Stuck(t: JackState, d: nat, m: nat) {
    Ready(t) && |t.contents| < Need(t, m) && |t.contents| + d > t.capacity
  }

  lemma {:induction false} StuckForEver(t: JackState, es: seq<Event>, d: nat, m: nat)
    requires Stuck(t, d, m) && Rhythm(es, d, m)
    ensures Stuck(Run(t, es), d, m) && !Delivers(Run(t, es), m)
  {
    hide Rhythm, Run, InRhythm, Need;
    if es == [] {
      EmptyRun(t);
    } else {
      var init, e := es[..|es| - 1], es[|es| - 1];
      RhythmInit(es, d, m);
      StuckForEver(t, init, d, m);
      RunSnoc(t, init, e);
      assert init + [e] == es;
      RhythmStep(Run(t, init), e, d, m);
      SameNeed(Run(t, init), Run(t, es), Callback(m));
    }
  }

  /** Doing each write and each read of a balance as soon as it is possible ends in a stuck ring. */
  lemma {:induction false} WalkToStuck(t: JackState, d: nat, m: nat, target: nat, a: nat, b: nat)
    returns (es: seq<Event>)
    requires Ready(t) && t.active && target < Need(t, m) && target <= t.capacity < target + d
    requires |t.contents| + a * d == target + b * Need(t, m)
    ensures Rhythm(es, d, m) && Stuck(Run(t, es), d, m)
    decreases a + b
  {
    hide Rhythm, Run, InRhythm, Need;
    var n, level := Need(t, m), |t.contents|;
    es := [];
    EmptyRhythm(d, m);
    EmptyRun(t);
    if a > 0 && level + d <= t.capacity {
      var e := Write(Zeros(d));
      ZerosInRhythm(d, m);
      RhythmStep(t, e, d, m);
      SameNeed(t, Step(t, e), Callback(m));
      MulStep(a - 1, d);
      var rest := WalkToStuck(Step(t, e), d, m, target, a - 1, b);
      es := Prepend(t, e, rest, d, m);
    } else if b > 0 && n <= level {
      var e := Callback(m);
      CallbackInRhythm(d, m);
      RhythmStep(t, e, d, m);
      SameNeed(t, Step(t, e), e);
      MulStep(b - 1, n);
      var rest := WalkToStuck(Step(t, e), d, m, target, a, b - 1);
      es := Prepend(t, e, rest, d, m);
    } else {
      NothingPossible(level, a, d, target, b, n, t.capacity);
    }
  }

  lemma Prepend(t: JackState, e: Event, rest: seq<Event>, d: nat, m: nat) returns (es: seq<Event>)
    requires InRhythm(e, d, m) && Rhythm(rest, d, m) && Stuck(Run(Step(t, e), rest), d, m)
    ensures Rhythm(es, d, m) && Stuck(Run(t, es), d, m)
  {
    hide Stuck, InRhythm;
    es := [e] + rest;
    RunCons(t, e, rest);
  }

  /** If neither the next write nor the next read of a balance is possible, the level is stuck. */
  lemma NothingPossible(level: nat, a: nat, d: nat, target: nat, b: nat, n: nat, capacity: nat)
    requires level + a * d == target + b * n && target < n && target <= capacity < target + d
    requires a == 0 || level + d > capacity
    requires b == 0 || level < n
    ensures level < n && level + d > capacity
  {
    if b > 0 {
      if a == 0 {
        MulMono(1, b, n);
      }
    } else if a > 0 {
      MulMono(1, a, d);
    }
  }

  /** If some level with the preroll's remainder blocks, a run gets there. */
  lemma TooLittleRoom(s: JackState, d: nat, m: nat, g: nat, x: nat, y: nat)
    requires Ready(s) && d > 0 && g == Gcd(d, Need(s, m)) > 0 && d == x * g && Need(s, m) == y * g
    requires Need(s, m) + d - g + |s.contents| % g > s.capacity
    ensures !NeverStarves(s, d, m)
  {
    hide Rhythm, Run, InRhythm, Need, Gcd, CanDeliver;
    var n, e := Need(s, m), Callback(m);
    GcdZero(d);
    PeriodAtLeastGrain(n, g, y, d, |s.contents| % g, s.capacity, |s.contents|);
    var target := n - g + |s.contents| % g;
    if target > s.capacity {
      EmptyRhythm(d, m);
      NeverEnough(s, d, m, target);
      EmptyRun(s);
    } else {
      CallbackInRhythm(d, m);
      RhythmStep(s, e, d, m);
      var t := Step(s, e);
      SameNeed(s, t, e);
      OneRhythm(e, d, m);
      RhythmLevel(s, [e], d, m, g, x, y);
      RunOne(s, e);
      TargetRemainder(|s.contents|, n, g, y, target);
      var a, b := Balanced(|t.contents|, target, d, n);
      var es := WalkToStuck(t, d, m, target, a, b);
      RhythmConcat([e], es, d, m);
      RunCons(s, e, es);
      StuckCannot(Run(t, es), d, m);
    }
  }

  lemma PeriodAtLeastGrain(n: nat, g: nat, y: nat, d: nat, r: nat, capacity: nat, level: nat)
    requires g > 0 && n == y * g && r == level % g && level <= capacity && n + d - g + r > capacity
    requires n == 0 ==> g == d
    ensures n >= g && r < g
  {
    QuotientBelowSelf(level, g);
    if y > 0 {
      MulMono(1, y, g);
    }
  }

  lemma QuotientBelowSelf(x: nat, g: nat)
    requires g > 0
    ensures x % g <= x
  {
    QuotientTimes(x, g, x / g, x % g);
  }

  lemma TargetRemainder(level: nat, n: nat, g: nat, y: nat, target: nat)
    requires g > 0 && n == y * g && n >= g && target == n - g + level % g
    ensures target % g == level % g && target < n
  {
    assert y >= 1;
    MulStep(y - 1, g);
    DivModUnique(target, g, y - 1, level % g);
  }

  lemma StuckCannot(t: JackState, d: nat, m: nat)
    requires Stuck(t, d, m)
    ensures !CanDeliver(t, d, m)
  {
    hide Rhythm, Run, Stuck, Delivers;
    forall more | Rhythm(more, d, m)
      ensures !Delivers(Run(t, more), m)
    {
      StuckForEver(t, more, d, m);
    }
  }

  /** A period beyond the capacity is never delivered. */
  lemma NeverEnough(s: JackState, d: nat, m: nat, target: nat)
    requires Ready(s) && s.capacity < target < Need(s, m)
    ensures !CanDeliver(s, d, m)
  {
    hide Rhythm, Run, Need;
    forall more | Rhythm(more, d, m)
      ensures !Delivers(Run(s, more), m)
    {
      NeedAfter(s, more, m);
    }
  }

  /** With writes of `d` bytes and callbacks of `n` bytes, play never stops for good just when the ring holds
      `n + d - g + preroll % g` bytes, where `g` is the greatest common divisor of `d` and `n`. Otherwise after some run
      no callback delivers any more, whatever follows. */
  lemma NeverStarvesIff(s: JackState, d: nat, m: nat)
    requires Ready(s) && d > 0
    ensures Grain(s, d, m) > 0
    ensures NeverStarves(s, d, m)
       <==> Need(s, m) + d - Grain(s, d, m) + |s.contents| % Grain(s, d, m) <= s.capacity
  {
    hide Rhythm, Run, Need, Gcd, CanDeliver;
    var g := Grain(s, d, m);
    var x, y := GcdFactors(d, Need(s, m));
    if Need(s, m) + d - g + |s.contents| % g <= s.capacity {
      forall es | Rhythm(es, d, m)
        ensures CanDeliver(Run(s, es), d, m)
      {
        EnoughRoom(s, es, d, m, g, x, y);
      }
    } else {
      TooLittleRoom(s, d, m, g, x, y);
    }
  }

  /** Room for a period and a write at once is always enough. */
  lemma RoomForBoth(s: JackState, d: nat, m: nat)
    requires Ready(s) && d > 0 && Need(s, m) + d <= s.capacity + 1
    ensures NeverStarves(s, d, m)
  {
    hide NeverStarves, Need, Gcd;
    NeverStarvesIff(s, d, m);
    var g := Grain(s, d, m);
    var r := |s.contents| % g;
    assert r < g;
  }

  /** A ring in which no run delivers hands nothing to the ports. */
  lemma {:induction false} NothingDelivered(s: JackState, es: seq<Event>, d: nat, m: nat)
    requires Rhythm(es, d, m) && !CanDeliver(s, d, m)
    ensures Delivered(s, es) == 0
  {
    hide Rhythm, Run, Delivers;
    if es != [] {
      var init := es[..|es| - 1];
      RhythmInit(es, d, m);
      NothingDelivered(s, init, d, m);
      assert !Delivers(Run(s, init), m);
    }
  }

  /** A reopen with the same channel count makes the preroll at least one JACK period, unless its size wraps around 32
      bits. Then play never stops for good if a write is not larger than the preroll, and otherwise under the same
      condition as ever. */
  lemma ReopenPlays(s: JackState, requested: nat, period: nat, cfg: StreamConfig, d: nat)
    requires s.nbChannels == cfg.nbChannels && period * cfg.nbChannels * SampleSize(cfg.bitFmt) < TWO_32 && d > 0
    ensures var o := OpenState(s, requested, period, cfg);
            && Ready(o) && requested <= |o.contents| && Need(o, period) <= |o.contents|
            && Grain(o, d, period) > 0
            && (d <= |o.contents| ==> NeverStarves(o, d, period))
            && (NeverStarves(o, d, period)
                <==> Need(o, period) + d - Grain(o, d, period) + |o.contents| % Grain(o, d, period) <= o.capacity)
  {
    hide RingSize, SampleSize, NeverStarves, Grain;
    OpenFits(s, requested, period, cfg);
    ReopenedNeed(s, requested, period, cfg);
    hide OpenState, Need;
    var o := OpenState(s, requested, period, cfg);
    NeverStarvesIff(o, d, period);
    if d <= |o.contents| {
      RoomForBoth(o, d, period);
    }
  }

  lemma ReopenedNeed(s: JackState, requested: nat, period: nat, cfg: StreamConfig)
    requires s.nbChannels == cfg.nbChannels && period * cfg.nbChannels * SampleSize(cfg.bitFmt) < TWO_32
    ensures var o := OpenState(s, requested, period, cfg); Need(o, period) <= |o.contents|
  {
    hide RingSize, SampleSize;
    var need := period * cfg.nbChannels * SampleSize(cfg.bitFmt);
    assert need % TWO_32 == need;
  }
}
