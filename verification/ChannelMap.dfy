/** The effect of a channel map on its destination buffer, and its meaning on frames. */
module ChannelMap {
  import opened Bytes
  import opened Frames

  // ----- the map on slots, without widths

  /** Whether destination slot `j` is fed by a channel that a stream of `n` channels has. */
  predicate Live(m: seq<byte>, n: nat, j: nat)
    requires m != []
  {
    m[j % |m|] as int < n
  }

  /** The source slot that destination slot `j` is copied from. */
  function SourceSlot(m: seq<byte>, n: nat, j: nat): nat
    requires m != []
  {
    (j / |m|) * n + m[j % |m|] as nat
  }

  lemma SourceFits(m: seq<byte>, n: nat, frames: nat, j: nat)
    requires m != [] && j < frames * |m| && Live(m, n, j)
    ensures SourceSlot(m, n, j) < frames * n
  {
    RowBelow(j, |m|, frames);
    CellFits(j / |m|, m[j % |m|] as nat, n, frames);
  }

  lemma RowBelow(j: nat, m: nat, frames: nat)
    requires m > 0 && j < frames * m
    ensures j / m < frames
  {
    if frames <= j / m {
      MulMono(frames, j / m, m);
    }
  }

  /** `frames` rows of destination slots over `frames` rows of source slots. */
  predicate Shape(base: seq<Sample>, src: seq<Sample>, m: seq<byte>, n: nat, frames: nat) {
    && m != []
    && |base| == frames * |m|
    && |src| == frames * n
  }

  function Gather(base: seq<Sample>, src: seq<Sample>, m: seq<byte>, n: nat, frames: nat): (r: seq<Sample>)
    requires Shape(base, src, m, n, frames)
    ensures |r| == |base|
  {
    seq(|base|, j requires 0 <= j < |base| =>
      if Live(m, n, j) then SourceFits(m, n, frames, j); src[SourceSlot(m, n, j)] else base[j])
  }

  /** Slot `(f, c)` carries the mapped channel of source frame `f`, or what the buffer held. */
  lemma GatherAt(base: seq<Sample>, src: seq<Sample>, m: seq<byte>, n: nat, frames: nat, f: nat, c: nat)
    requires Shape(base, src, m, n, frames) && f < frames && c < |m|
    ensures f * |m| + c < |base|
    ensures m[c] as nat < n ==>
      && f * n + m[c] as nat < |src|
      && Gather(base, src, m, n, frames)[f * |m| + c] == src[f * n + m[c] as nat]
    ensures m[c] as nat >= n ==> Gather(base, src, m, n, frames)[f * |m| + c] == base[f * |m| + c]
  {
    CellFits(f, c, |m|, frames);
    RowCol(f, c, |m|);
    if m[c] as nat < n {
      SourceFits(m, n, frames, f * |m| + c);
    }
  }

  lemma GatherWidth(base: seq<Sample>, src: seq<Sample>, m: seq<byte>, n: nat, frames: nat, w: nat)
    requires Shape(base, src, m, n, frames)
    requires forall v :: v in base ==> |v| == w
    requires forall v :: v in src ==> |v| == w
    ensures forall v :: v in Gather(base, src, m, n, frames) ==> |v| == w
  {
    forall j: nat | j < |base|
      ensures |Gather(base, src, m, n, frames)[j]| == w
    {
      if Live(m, n, j) {
        SourceFits(m, n, frames, j);
      }
    }
  }

  // ----- the map on bytes

  /** `memset(dst, 0, size)` */
  function Cleared(dst: seq<byte>, size: nat): (r: seq<byte>)
    requires size <= |dst|
    ensures |r| == |dst|
  {
    Zeros(size) + dst[size..]
  }

  /** Where the mapped frames end. */
  function MappedSize(size: nat, m: seq<byte>, n: nat, w: nat): nat
    requires n > 0 && w > 0
  {
    (FrameCount(size, n, w) * |m|) * w
  }

  /** Both buffers are long enough for a map of `size` source bytes. */
  predicate MapFits(dstLen: nat, srcLen: nat, size: nat, m: seq<byte>, n: nat, w: nat) {
    && m != [] && n > 0 && w > 0
    && size <= srcLen && size <= dstLen
    && MappedSize(size, m, n, w) <= dstLen
  }

  lemma SourceRoom(size: nat, n: nat, w: nat)
    requires n > 0 && w > 0
    ensures FrameCount(size, n, w) * n <= size / w
    ensures (FrameCount(size, n, w) * n) * w <= size
  {
    MulMono(FrameCount(size, n, w) * n, size / w, w);
  }

  /** The slots of the mapped frames. */
  function MappedSlots(dst: seq<byte>, src: seq<byte>, size: nat, m: seq<byte>, n: nat, w: nat): (r: seq<Sample>)
    requires MapFits(|dst|, |src|, size, m, n, w)
    ensures |r| == FrameCount(size, n, w) * |m|
    ensures forall v :: v in r ==> |v| == w
  {
    SourceRoom(size, n, w);
    var frames := FrameCount(size, n, w);
    var base, from := Slots(Cleared(dst, size), frames * |m|, w), Slots(src, frames * n, w);
    GatherWidth(base, from, m, n, frames, w);
    Gather(base, from, m, n, frames)
  }

  /** The destination buffer after mapping `size` bytes of `src`. */
  function MapInto(dst: seq<byte>, src: seq<byte>, size: nat, m: seq<byte>, n: nat, w: nat): (r: seq<byte>)
    requires MapFits(|dst|, |src|, size, m, n, w)
    ensures |r| == |dst|
  {
    SourceRoom(size, n, w);
    var vals := MappedSlots(dst, src, size, m, n, w);
    JoinSlotsLength(vals, w);
    JoinSlots(vals) + Cleared(dst, size)[MappedSize(size, m, n, w)..]
  }

  lemma MapIntoSlot(dst: seq<byte>, src: seq<byte>, size: nat, m: seq<byte>, n: nat, w: nat, j: nat)
    requires MapFits(|dst|, |src|, size, m, n, w)
    requires j < FrameCount(size, n, w) * |m|
    ensures j * w + w <= MappedSize(size, m, n, w)
    ensures Slot(MapInto(dst, src, size, m, n, w), j, w) == MappedSlots(dst, src, size, m, n, w)[j]
  {
    SourceRoom(size, n, w);
    SlotFits(j, FrameCount(size, n, w) * |m|, w);
    var vals := MappedSlots(dst, src, size, m, n, w);
    JoinSlotsLength(vals, w);
    JoinSlotsAt(vals, w, j);
    PrefixSlot(JoinSlots(vals), Cleared(dst, size)[MappedSize(size, m, n, w)..], j, w);
  }

  /** The mapped slots and the cleared tail decide what the buffer becomes. */
  lemma MapIntoUnique(dst: seq<byte>, src: seq<byte>, size: nat, m: seq<byte>, n: nat, w: nat, r: seq<byte>)
    requires MapFits(|dst|, |src|, size, m, n, w) && |r| == |dst|
    requires forall j: nat :: j < FrameCount(size, n, w) * |m| ==>
      j * w + w <= |r| && Slot(r, j, w) == MappedSlots(dst, src, size, m, n, w)[j]
    requires r[MappedSize(size, m, n, w)..] == Cleared(dst, size)[MappedSize(size, m, n, w)..]
    ensures r == MapInto(dst, src, size, m, n, w)
  {
    SourceRoom(size, n, w);
    var o := MapInto(dst, src, size, m, n, w);
    var k := FrameCount(size, n, w) * |m|;
    forall j: nat | j < k
      ensures SlotEqual(r, o, j, w)
    {
      MapIntoSlot(dst, src, size, m, n, w, j);
    }
    JoinSlotsLength(MappedSlots(dst, src, size, m, n, w), w);
    SlotExtensionality(r, o, k, w);
  }

  /** The map reads only the first `size` source bytes. */
  lemma MapIntoLocal(dst: seq<byte>, src: seq<byte>, size: nat, m: seq<byte>, n: nat, w: nat)
    requires MapFits(|dst|, |src|, size, m, n, w)
    ensures MapInto(dst, src, size, m, n, w) == MapInto(dst, src[..size], size, m, n, w)
  {
    SourceRoom(size, n, w);
    SlotsPrefix(src, src[..size], FrameCount(size, n, w) * n, FrameCount(size, n, w) * n, w);
    assert Slots(src, FrameCount(size, n, w) * n, w) == Slots(src[..size], FrameCount(size, n, w) * n, w);
    assert MappedSlots(dst, src, size, m, n, w) == MappedSlots(dst, src[..size], size, m, n, w);
  }

  // ----- silence

  /** Every slot fed by no channel is zero, over the whole buffer. */
  ghost predicate Silent(dst: seq<byte>, m: seq<byte>, n: nat, w: nat)
    requires m != []
  {
    forall j: nat :: j * w + w <= |dst| && !Live(m, n, j) ==> Slot(dst, j, w) == Zeros(w)
  }

  /** The buffer that `calloc` returns is silent. */
  lemma ZerosAreSilent(k: nat, m: seq<byte>, n: nat, w: nat)
    requires m != []
    ensures Silent(Zeros(k), m, n, w)
  {
  }

  lemma ClearedSlot(dst: seq<byte>, size: nat, j: nat, w: nat)
    requires size <= |dst| && j * w + w <= |dst|
    requires j * w + w <= size || Slot(dst, j, w) == Zeros(w)
    ensures Slot(Cleared(dst, size), j, w) == Zeros(w)
  {
    forall i: nat | i < w
      ensures Slot(Cleared(dst, size), j, w)[i] == 0
    {
      assert Slot(dst, j, w)[i] == dst[j * w + i];
    }
  }

  lemma DropMore(a: seq<byte>, b: seq<byte>, i: nat, j: nat)
    requires i <= j <= |a| == |b| && a[i..] == b[i..]
    ensures a[j..] == b[j..]
  {
    assert a[j..] == a[i..][j - i..];
    assert b[j..] == b[i..][j - i..];
  }

  lemma SameTailSlot(a: seq<byte>, b: seq<byte>, from: nat, j: nat, w: nat)
    requires from <= j * w && j * w + w <= |a| == |b| && a[from..] == b[from..]
    ensures Slot(a, j, w) == Slot(b, j, w)
  {
    DropMore(a, b, from, j * w);
    assert Slot(a, j, w) == a[j * w..][..w];
    assert Slot(b, j, w) == b[j * w..][..w];
  }

  /** Silence is an invariant of the map: a buffer that starts silent stays silent. */
  lemma MapKeepsSilence(dst: seq<byte>, src: seq<byte>, size: nat, m: seq<byte>, n: nat, w: nat)
    requires MapFits(|dst|, |src|, size, m, n, w) && Silent(dst, m, n, w)
    ensures Silent(MapInto(dst, src, size, m, n, w), m, n, w)
  {
    SourceRoom(size, n, w);
    var r := MapInto(dst, src, size, m, n, w);
    JoinSlotsLength(MappedSlots(dst, src, size, m, n, w), w);
    forall j: nat | j * w + w <= |r| && !Live(m, n, j)
      ensures Slot(r, j, w) == Zeros(w)
    {
      SilentSlotStays(dst, src, size, m, n, w, j);
    }
  }

  lemma SilentSlotStays(dst: seq<byte>, src: seq<byte>, size: nat, m: seq<byte>, n: nat, w: nat, j: nat)
    requires MapFits(|dst|, |src|, size, m, n, w)
    requires j * w + w <= |dst| && !Live(m, n, j) && Slot(dst, j, w) == Zeros(w)
    ensures Slot(MapInto(dst, src, size, m, n, w), j, w) == Zeros(w)
  {
    SourceRoom(size, n, w);
    ClearedSlot(dst, size, j, w);
    var k := FrameCount(size, n, w) * |m|;
    if j < k {
      MapIntoSlot(dst, src, size, m, n, w, j);
    } else {
      MulMono(k, j, w);
      JoinSlotsLength(MappedSlots(dst, src, size, m, n, w), w);
      SameTailSlot(MapInto(dst, src, size, m, n, w), Cleared(dst, size), k * w, j, w);
    }
  }

  // ----- the map on frames

  /** The buffer now starts with exactly the mapped frames of the source. */
  ghost predicate MapsExactly(dst: seq<byte>, src: seq<byte>, size: nat, m: seq<byte>, n: nat, w: nat)
    requires MapFits(|dst|, |src|, size, m, n, w)
  {
    FramesOf(MapInto(dst, src, size, m, n, w)[..MappedSize(size, m, n, w)], |m|, w)
    == MapFrames(FramesOf(src[..size], n, w), m, w)
  }

  /** Silent slot `j` is zero once the first `size` bytes are cleared. */
  predicate SilentAfterClear(dst: seq<byte>, size: nat, m: seq<byte>, n: nat, w: nat, j: nat)
    requires m != [] && size <= |dst|
  {
    Live(m, n, j) || (j * w + w <= |dst| && Slot(Cleared(dst, size), j, w) == Zeros(w))
  }

  /** The frames of the mapped buffer are the mapped slots, grouped. */
  lemma MappedGroups(dst: seq<byte>, src: seq<byte>, size: nat, m: seq<byte>, n: nat, w: nat)
    requires MapFits(|dst|, |src|, size, m, n, w)
    ensures FramesOf(MapInto(dst, src, size, m, n, w)[..MappedSize(size, m, n, w)], |m|, w)
         == Group(MappedSlots(dst, src, size, m, n, w), |m|)
  {
    var vals := MappedSlots(dst, src, size, m, n, w);
    JoinSlotsLength(vals, w);
    var out := MapInto(dst, src, size, m, n, w)[..MappedSize(size, m, n, w)];
    assert out == JoinSlots(vals);
    DivModUnique(|out|, w, |vals|, 0);
    forall j: nat | j < |vals|
      ensures Slots(out, |vals|, w)[j] == vals[j]
    {
      JoinSlotsAt(vals, w, j);
    }
    assert Slots(out, |vals|, w) == vals;
  }

  lemma CellSlot(m: seq<byte>, n: nat, frames: nat, f: nat, c: nat)
    requires m != [] && f < frames && c < |m|
    ensures f * |m| + c < frames * |m|
    ensures Live(m, n, f * |m| + c) <==> m[c] as nat < n
  {
    CellFits(f, c, |m|, frames);
    RowCol(f, c, |m|);
  }

  /** A live slot of frame `f` holds the sample of its source channel. */
  lemma MappedLive(dst: seq<byte>, src: seq<byte>, size: nat, m: seq<byte>, n: nat, w: nat, f: nat, c: nat,
                   at: nat, from: nat)
    requires MapFits(|dst|, |src|, size, m, n, w)
    requires f < FrameCount(size, n, w) && c < |m| && m[c] as nat < n
    requires at == f * |m| + c && from == f * n + m[c] as nat
    ensures from * w + w <= size
    ensures at < |MappedSlots(dst, src, size, m, n, w)|
    ensures MappedSlots(dst, src, size, m, n, w)[at] == Slot(src, from, w)
  {
    hide FrameCount;
    SourceRoom(size, n, w);
    var frames := FrameCount(size, n, w);
    GatherAt(Slots(Cleared(dst, size), frames * |m|, w), Slots(src, frames * n, w), m, n, frames, f, c);
    SlotFits(from, frames * n, w);
    SlotsAt(src, frames * n, w, from);
  }

  /** A silent slot holds what clearing left in the buffer. */
  lemma MappedSilent(dst: seq<byte>, src: seq<byte>, size: nat, m: seq<byte>, n: nat, w: nat, j: nat)
    requires MapFits(|dst|, |src|, size, m, n, w)
    requires j < FrameCount(size, n, w) * |m| && !Live(m, n, j)
    ensures j * w + w <= |dst|
    ensures MappedSlots(dst, src, size, m, n, w)[j] == Slot(Cleared(dst, size), j, w)
  {
    SlotsAt(Cleared(dst, size), FrameCount(size, n, w) * |m|, w, j);
  }

  lemma SourceSample(src: seq<byte>, size: nat, n: nat, w: nat, f: nat, i: nat)
    requires n > 0 && w > 0 && size <= |src| && f < FrameCount(size, n, w) && i < n
    ensures f < |FramesOf(src[..size], n, w)| && |FramesOf(src[..size], n, w)[f]| == n
    ensures (f * n + i) * w + w <= size
    ensures FramesOf(src[..size], n, w)[f][i] == Slot(src, f * n + i, w)
  {
    FramesAt(src[..size], n, w, f, i);
    PrefixSlot(src[..size], src[size..], f * n + i, w);
    assert src[..size] + src[size..] == src;
  }

  /** A mapped frame of the source, computed slot by slot. */
  lemma MappedCell(dst: seq<byte>, src: seq<byte>, size: nat, m: seq<byte>, n: nat, w: nat, f: nat, c: nat)
    requires MapFits(|dst|, |src|, size, m, n, w)
    requires f < FrameCount(size, n, w) && c < |m|
    requires SilentAfterClear(dst, size, m, n, w, f * |m| + c)
    ensures f < |FramesOf(src[..size], n, w)|
    ensures f * |m| + c < FrameCount(size, n, w) * |m|
    ensures MappedSlots(dst, src, size, m, n, w)[f * |m| + c] == MapFrame(FramesOf(src[..size], n, w)[f], m, w)[c]
  {
    hide FrameCount, MappedSize, MappedSlots, FramesOf, Slot, Slots, Cleared;
    CellSlot(m, n, FrameCount(size, n, w), f, c);
    SourceSample(src, size, n, w, f, 0);
    if m[c] as nat < n {
      SourceSample(src, size, n, w, f, m[c] as nat);
      MappedLive(dst, src, size, m, n, w, f, c, f * |m| + c, f * n + m[c] as nat);
    } else {
      MappedSilent(dst, src, size, m, n, w, f * |m| + c);
    }
  }

  lemma MappedRow(dst: seq<byte>, src: seq<byte>, size: nat, m: seq<byte>, n: nat, w: nat, f: nat, c: nat)
    requires MapFits(|dst|, |src|, size, m, n, w)
    requires f < FrameCount(size, n, w) && c < |m|
    requires SilentAfterClear(dst, size, m, n, w, f * |m| + c)
    ensures var row := GroupedSlots(dst, src, size, m, n, w);
            && f < |row| && |row[f]| == |m|
            && f < |FramesOf(src[..size], n, w)|
            && row[f][c] == MapFrame(FramesOf(src[..size], n, w)[f], m, w)[c]
  {
    var frames := FrameCount(size, n, w);
    DivModUnique(frames * |m|, |m|, frames, 0);
    CellSlot(m, n, frames, f, c);
    MappedCell(dst, src, size, m, n, w, f, c);
    GroupAt(MappedSlots(dst, src, size, m, n, w), |m|, f, c);
  }

  function GroupedSlots(dst: seq<byte>, src: seq<byte>, size: nat, m: seq<byte>, n: nat, w: nat): (r: seq<Frame>)
    requires MapFits(|dst|, |src|, size, m, n, w)
    ensures |r| == FrameCount(size, n, w)
  {
    DivModUnique(FrameCount(size, n, w) * |m|, |m|, FrameCount(size, n, w), 0);
    Group(MappedSlots(dst, src, size, m, n, w), |m|)
  }

  lemma GroupedFrame(dst: seq<byte>, src: seq<byte>, size: nat, m: seq<byte>, n: nat, w: nat, f: nat)
    requires MapFits(|dst|, |src|, size, m, n, w) && f < FrameCount(size, n, w)
    requires forall j: nat :: j < FrameCount(size, n, w) * |m| ==> SilentAfterClear(dst, size, m, n, w, j)
    ensures f < |FramesOf(src[..size], n, w)|
    ensures GroupedSlots(dst, src, size, m, n, w)[f] == MapFrame(FramesOf(src[..size], n, w)[f], m, w)
  {
    CellSlot(m, n, FrameCount(size, n, w), f, 0);
    MappedRow(dst, src, size, m, n, w, f, 0);
    forall c: nat | c < |m|
      ensures GroupedSlots(dst, src, size, m, n, w)[f][c] == MapFrame(FramesOf(src[..size], n, w)[f], m, w)[c]
    {
      CellSlot(m, n, FrameCount(size, n, w), f, c);
      MappedRow(dst, src, size, m, n, w, f, c);
    }
  }

  lemma GroupedFrames(dst: seq<byte>, src: seq<byte>, size: nat, m: seq<byte>, n: nat, w: nat)
    requires MapFits(|dst|, |src|, size, m, n, w)
    requires forall j: nat :: j < FrameCount(size, n, w) * |m| ==> SilentAfterClear(dst, size, m, n, w, j)
    ensures GroupedSlots(dst, src, size, m, n, w) == MapFrames(FramesOf(src[..size], n, w), m, w)
  {
    var got, from := GroupedSlots(dst, src, size, m, n, w), FramesOf(src[..size], n, w);
    assert |from| == FrameCount(size, n, w);
    forall f: nat | f < |from|
      ensures got[f] == MapFrame(from[f], m, w)
    {
      GroupedFrame(dst, src, size, m, n, w, f);
    }
  }

  lemma MappedFrames(dst: seq<byte>, src: seq<byte>, size: nat, m: seq<byte>, n: nat, w: nat)
    requires MapFits(|dst|, |src|, size, m, n, w)
    requires forall j: nat :: j < FrameCount(size, n, w) * |m| ==> SilentAfterClear(dst, size, m, n, w, j)
    ensures MapsExactly(dst, src, size, m, n, w)
  {
    MappedGroups(dst, src, size, m, n, w);
    GroupedFrames(dst, src, size, m, n, w);
  }

  /** From a silent buffer the mapped bytes are exactly the mapped frames. */
  lemma MapFromSilence(dst: seq<byte>, src: seq<byte>, size: nat, m: seq<byte>, n: nat, w: nat)
    requires MapFits(|dst|, |src|, size, m, n, w) && Silent(dst, m, n, w)
    ensures MapsExactly(dst, src, size, m, n, w)
  {
    SourceRoom(size, n, w);
    var k := FrameCount(size, n, w) * |m|;
    forall j: nat | j < k
      ensures SilentAfterClear(dst, size, m, n, w, j)
    {
      SlotFits(j, k, w);
      if !Live(m, n, j) {
        ClearedSlot(dst, size, j, w);
      }
    }
    MappedFrames(dst, src, size, m, n, w);
  }

  /** The silent slots of the mapped frames lie inside the `size` bytes that are cleared first. */
  ghost predicate ClearCovers(size: nat, m: seq<byte>, n: nat, w: nat)
    requires m != [] && n > 0 && w > 0
  {
    forall j: nat :: j < FrameCount(size, n, w) * |m| && !Live(m, n, j) ==> j * w + w <= size
  }

  /** A map with no more entries than the stream has channels is exact whatever the buffer held. */
  lemma NarrowMapCovers(size: nat, m: seq<byte>, n: nat, w: nat)
    requires m != [] && n > 0 && w > 0 && |m| <= n
    ensures ClearCovers(size, m, n, w)
  {
    hide FrameCount;
    var frames := FrameCount(size, n, w);
    SourceRoom(size, n, w);
    NarrowRoom(frames, |m|, n, w);
    forall j: nat | j < frames * |m|
      ensures j * w + w <= size
    {
      SlotFits(j, frames * |m|, w);
    }
  }

  lemma NarrowRoom(frames: nat, m: nat, n: nat, w: nat)
    requires m <= n
    ensures (frames * m) * w <= (frames * n) * w
  {
    MulMono(m, n, frames);
    MulMono(frames * m, frames * n, w);
  }

  /** So is a map whose entries all name channels of the stream: it has no silent slot. */
  lemma LiveMapCovers(size: nat, m: seq<byte>, n: nat, w: nat)
    requires m != [] && n > 0 && w > 0 && forall c :: 0 <= c < |m| ==> m[c] as nat < n
    ensures ClearCovers(size, m, n, w)
  {
  }

  /** One call is exact from every old buffer content just when the clearing covers the silent slots. */
  lemma ExactFromAnyBuffer(src: seq<byte>, size: nat, dstLen: nat, m: seq<byte>, n: nat, w: nat)
    requires MapFits(dstLen, |src|, size, m, n, w)
    ensures (forall dst: seq<byte> :: |dst| == dstLen ==> MapsExactly(dst, src, size, m, n, w))
       <==> ClearCovers(size, m, n, w)
  {
    var k := FrameCount(size, n, w) * |m|;
    SourceRoom(size, n, w);
    if ClearCovers(size, m, n, w) {
      forall dst: seq<byte> | |dst| == dstLen
        ensures MapsExactly(dst, src, size, m, n, w)
      {
        forall j: nat | j < k
          ensures SilentAfterClear(dst, size, m, n, w, j)
        {
          if !Live(m, n, j) {
            ClearedSlot(dst, size, j, w);
          }
        }
        MappedFrames(dst, src, size, m, n, w);
      }
    } else {
      var j: nat :| j < k && !Live(m, n, j) && j * w + w > size;
      var dst := seq(dstLen, _ => 1 as byte);
      SlotFits(j, k, w);
      StaleSlot(dst, src, size, m, n, w, j);
      assert |dst| == dstLen;
    }
  }

  /** A silent slot that ends beyond the cleared bytes carries what the buffer held there. */
  lemma StaleSlot(dst: seq<byte>, src: seq<byte>, size: nat, m: seq<byte>, n: nat, w: nat, j: nat)
    requires MapFits(|dst|, |src|, size, m, n, w)
    requires j < FrameCount(size, n, w) * |m| && !Live(m, n, j) && size < j * w + w <= |dst|
    requires dst[j * w + w - 1] == 1
    ensures !MapsExactly(dst, src, size, m, n, w)
  {
    hide FrameCount, MappedSlots, FramesOf, Cleared, Gather, MapInto, Slot;
    var f, c := CellOf(j, |m|, FrameCount(size, n, w));
    assert GroupedSlots(dst, src, size, m, n, w) != MapFrames(FramesOf(src[..size], n, w), m, w) by {
      UnclearedSlot(dst, size, j, w);
      StaleSample(dst, src, size, m, n, w, f, c, j);
      SourceSample(src, size, n, w, f, 0);
    }
    MappedGroups(dst, src, size, m, n, w);
  }

  lemma StaleSample(dst: seq<byte>, src: seq<byte>, size: nat, m: seq<byte>, n: nat, w: nat, f: nat, c: nat, j: nat)
    requires MapFits(|dst|, |src|, size, m, n, w)
    requires f < FrameCount(size, n, w) && c < |m| && m[c] as nat >= n && j == f * |m| + c
    requires j * w + w <= |dst| && Slot(Cleared(dst, size), j, w) != Zeros(w)
    ensures f < |FramesOf(src[..size], n, w)|
    ensures GroupedSlots(dst, src, size, m, n, w)[f] != MapFrame(FramesOf(src[..size], n, w)[f], m, w)
  {
    var frames, vals := FrameCount(size, n, w), MappedSlots(dst, src, size, m, n, w);
    CellSlot(m, n, frames, f, c);
    MappedSilent(dst, src, size, m, n, w, j);
    DivModUnique(frames * |m|, |m|, frames, 0);
    GroupAt(vals, |m|, f, c);
    assert GroupedSlots(dst, src, size, m, n, w)[f][c] == vals[j];
    SourceSample(src, size, n, w, f, 0);
    assert MapFrame(FramesOf(src[..size], n, w)[f], m, w)[c] == Zeros(w);
  }

  lemma UnclearedSlot(dst: seq<byte>, size: nat, j: nat, w: nat)
    requires size < j * w + w <= |dst| && w > 0 && dst[j * w + w - 1] == 1
    ensures Slot(Cleared(dst, size), j, w) != Zeros(w)
  {
    assert Slot(Cleared(dst, size), j, w)[w - 1] == Cleared(dst, size)[j * w + w - 1] == 1;
  }
}
