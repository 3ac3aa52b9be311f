/** Interleaved PCM data seen as a sequence of frames, and the frame-level channel map. */
module Frames {
  import opened Bytes

  type Sample = seq<byte>
  type Frame = seq<Sample>

  /** Samples grouped `n` by `n`; an incomplete last group is dropped. */
  function Group(samples: seq<Sample>, n: nat): (r: seq<Frame>)
    requires n > 0
    ensures |r| == |samples| / n
  {
    seq(|samples| / n, f requires 0 <= f < |samples| / n =>
      SlotFits(f, |samples| / n, n); samples[f * n..f * n + n])
  }

  /** The complete frames of `b`: `n` channels of `w` bytes. */
  function FramesOf(b: seq<byte>, n: nat, w: nat): seq<Frame>
    requires n > 0 && w > 0
  {
    Group(Slots(b, |b| / w, w), n)
  }

  /** The number of complete frames in `size` bytes. */
  function FrameCount(size: nat, n: nat, w: nat): nat
    requires n > 0 && w > 0
  {
    size / w / n
  }

  /** `size / (n * w)` is what the C code computes. */
  lemma FrameCountIsQuotient(size: nat, n: nat, w: nat)
    requires n > 0 && w > 0
    ensures n * w > 0 && size / (n * w) == FrameCount(size, n, w)
  {
    var q, f := size / w, size / w / n;
    NestedQuotient(size, n, w, q, f, q % n, size % w);
  }

  lemma NestedQuotient(size: nat, n: nat, w: nat, q: nat, f: nat, r: nat, s: nat)
    requires size == q * w + s && q == f * n + r && r < n && s < w
    ensures n * w > 0 && size / (n * w) == f
  {
    assert (f * n + r) * w == (f * n) * w + r * w;
    Assoc(f, n, w);
    SlotFits(r, n, w);
    DivModUnique(size, n * w, f, r * w + s);
  }

  lemma Assoc(a: nat, b: nat, c: nat)
    ensures (a * b) * c == a * (b * c)
  {
  }

  /** `b` is `k` whole frames. */
  predicate WholeFrames(b: seq<byte>, k: nat, n: nat, w: nat) {
    |b| == (k * n) * w
  }

  lemma WholeFramesCount(b: seq<byte>, k: nat, n: nat, w: nat)
    requires n > 0 && w > 0 && WholeFrames(b, k, n, w)
    ensures |b| / w == k * n && FrameCount(|b|, n, w) == k
    ensures |FramesOf(b, n, w)| == k
  {
    DivModUnique(|b|, w, k * n, 0);
    DivModUnique(k * n, n, k, 0);
  }

  function JoinFrames(frs: seq<Frame>): seq<Sample> {
    if frs == [] then [] else JoinFrames(frs[..|frs| - 1]) + frs[|frs| - 1]
  }

  lemma {:induction false} JoinGroup(samples: seq<Sample>, k: nat, n: nat)
    requires n > 0 && |samples| == k * n
    ensures JoinFrames(Group(samples, n)) == samples
  {
    DivModUnique(k * n, n, k, 0);
    if k > 0 {
      MulStep(k - 1, n);
      var init, last := samples[..(k - 1) * n], samples[(k - 1) * n..];
      assert samples == init + last;
      JoinGroup(init, k - 1, n);
      GroupConcat(init, last, k - 1, n);
      GroupOne(last, n);
      var g := Group(init, n);
      assert (g + [last])[..|g|] == g;
    }
  }

  lemma GroupOne(samples: seq<Sample>, n: nat)
    requires n > 0 && |samples| == n
    ensures Group(samples, n) == [samples]
  {
    DivModUnique(n, n, 1, 0);
    assert samples[0 * n..0 * n + n] == samples;
  }

  /** Whole frames can be put together again: the frame view loses nothing. */
  lemma JoinFramesOf(b: seq<byte>, k: nat, n: nat, w: nat)
    requires n > 0 && w > 0 && WholeFrames(b, k, n, w)
    ensures JoinSlots(JoinFrames(FramesOf(b, n, w))) == b
  {
    WholeFramesCount(b, k, n, w);
    JoinGroup(Slots(b, k * n, w), k, n);
    JoinSlotsOf(b, k * n, w);
  }

  lemma GroupConcat(x: seq<Sample>, y: seq<Sample>, k: nat, n: nat)
    requires n > 0 && |x| == k * n
    ensures Group(x + y, n) == Group(x, n) + Group(y, n)
  {
    DivAdd(k, |y|, n);
    DivModUnique(k * n, n, k, 0);
    var l, r := Group(x + y, n), Group(x, n) + Group(y, n);
    forall f: nat | f < |l|
      ensures l[f] == r[f]
    {
      if f < k {
        SlotFits(f, k, n);
        SlicePrefix(x, y, f * n, f * n + n);
      } else {
        GroupShift(x, y, k, f - k, n);
      }
    }
  }

  lemma GroupShift(x: seq<Sample>, y: seq<Sample>, k: nat, f: nat, n: nat)
    requires n > 0 && |x| == k * n && f < |y| / n
    requires |x + y| / n == k + |y| / n
    ensures Group(x + y, n)[k + f] == Group(y, n)[f]
  {
    SlotFits(f, |y| / n, n);
    SlotFits(k + f, |x + y| / n, n);
    assert (k + f) * n == k * n + f * n;
    SliceSuffix(x, y, f * n, f * n + n);
  }

  lemma SlicePrefix<T>(x: seq<T>, y: seq<T>, i: nat, j: nat)
    requires i <= j <= |x|
    ensures (x + y)[i..j] == x[i..j]
  {
  }

  lemma SliceSuffix<T>(x: seq<T>, y: seq<T>, i: nat, j: nat)
    requires i <= j <= |y|
    ensures (x + y)[|x| + i..|x| + j] == y[i..j]
  {
  }

  lemma FramesConcat(a: seq<byte>, b: seq<byte>, k: nat, n: nat, w: nat)
    requires n > 0 && w > 0 && WholeFrames(a, k, n, w)
    ensures FramesOf(a + b, n, w) == FramesOf(a, n, w) + FramesOf(b, n, w)
  {
    WholeFramesCount(a, k, n, w);
    var k' := |b| / w;
    DivAdd(k * n, |b|, w);
    SlotsConcat(a, b, k * n, k', w);
    GroupConcat(Slots(a, k * n, w), Slots(b, k', w), k, n);
  }

  lemma GroupAt(samples: seq<Sample>, n: nat, f: nat, c: nat)
    requires n > 0 && f < |samples| / n && c < n
    ensures f < |Group(samples, n)| && |Group(samples, n)[f]| == n
    ensures f * n + c < |samples|
    ensures Group(samples, n)[f][c] == samples[f * n + c]
  {
    hide Group;
    GroupSlice(samples, n, f, |samples| / n);
  }

  lemma GroupSlice(samples: seq<Sample>, n: nat, f: nat, k: nat)
    requires n > 0 && k == |samples| / n && f < k
    ensures f * n + n <= |samples| && Group(samples, n)[f] == samples[f * n..f * n + n]
  {
    SlotFits(f, k, n);
  }

  /** Sample `c` of frame `f` is slot `f * n + c` of the bytes. */
  lemma FramesAt(b: seq<byte>, n: nat, w: nat, f: nat, c: nat)
    requires n > 0 && w > 0 && c < n && f < FrameCount(|b|, n, w)
    ensures f < |FramesOf(b, n, w)| && |FramesOf(b, n, w)[f]| == n
    ensures f * n + c < |b| / w
    ensures (f * n + c) * w + w <= |b|
    ensures FramesOf(b, n, w)[f][c] == Slot(b, f * n + c, w)
  {
    GroupAt(Slots(b, |b| / w, w), n, f, c);
    SlotsAt(b, |b| / w, w, f * n + c);
  }

  // ----- the channel map on frames

  /** What a channel list does to one frame: slot `c` carries channel `m[c]`, or silence if there is none. */
  function MapFrame(fr: Frame, m: seq<byte>, w: nat): (r: Frame)
    ensures |r| == |m|
  {
    seq(|m|, c requires 0 <= c < |m| =>
      var i := m[c] as int; if i < |fr| then fr[i] else Zeros(w))
  }

  /** An empty channel list stands for "no map": every channel is forwarded. */
  function ApplyMap(fr: Frame, m: seq<byte>, w: nat): Frame {
    if m == [] then fr else MapFrame(fr, m, w)
  }

  function MapFrames(frs: seq<Frame>, m: seq<byte>, w: nat): (r: seq<Frame>)
    ensures |r| == |frs|
    ensures forall f :: 0 <= f < |frs| ==> r[f] == ApplyMap(frs[f], m, w)
  {
    seq(|frs|, f requires 0 <= f < |frs| => ApplyMap(frs[f], m, w))
  }

  /** The number of channels after a map. */
  function MappedChannels(m: seq<byte>, n: nat): nat {
    if m == [] then n else |m|
  }

  lemma MapFramesConcat(a: seq<Frame>, b: seq<Frame>, m: seq<byte>, w: nat)
    ensures MapFrames(a + b, m, w) == MapFrames(a, m, w) + MapFrames(b, m, w)
  {
  }
}
