/** Constants and tables of the VBAN protocol, and the stream configuration. */
module Protocol {
  import opened Bytes

  const EINVAL := 22
  const HEADER_SIZE := 28
  const HEADER_FOURC := 0x4E41_4256
  const STREAM_NAME_SIZE := 16
  const PROTOCOL_MAX_SIZE := 1464
  const DATA_MAX_SIZE := PROTOCOL_MAX_SIZE - HEADER_SIZE
  const CHANNELS_MAX_NB := 256
  const SAMPLES_MAX_NB := 256
  const SR_MAXNUMBER := 21
  const BIT_RESOLUTION_MAX := 8

  const SR_MASK := 0x1F
  const PROTOCOL_MASK := 0xE0
  const BIT_RESOLUTION_MASK := 0x07
  const RESERVED_MASK := 0x08
  const CODEC_MASK := 0xF0

  const SR_LIST: seq<nat> := [
    6000, 12000, 24000, 48000, 96000, 192000, 384000,
    8000, 16000, 32000, 64000, 128000, 256000, 512000,
    11025, 22050, 44100, 88200, 176400, 352800, 705600]

  /** Bytes per sample; the two last formats of the table have no size. */
  function SampleSize(fmt: nat): (w: nat)
    ensures w > 0 <==> fmt < 6
    ensures w <= 8
  {
    if fmt < 4 then fmt + 1
    else if fmt == 4 then 4
    else if fmt == 5 then 8
    else 0
  }

  datatype StreamConfig = StreamConfig(nbChannels: nat, sampleRate: nat, bitFmt: nat)

  /** Bytes per frame. */
  function FrameBytes(cfg: StreamConfig): (frame: nat)
    ensures frame > 0 <==> cfg.nbChannels > 0 && cfg.bitFmt < 6
  {
    cfg.nbChannels * SampleSize(cfg.bitFmt)
  }

  /** The state of a zeroed configuration. */
  const NO_STREAM := StreamConfig(0, 0, 0)

  /** A configuration that can be sent: its format has a size and its channel count fits the header. */
  predicate Sendable(cfg: StreamConfig) {
    1 <= cfg.nbChannels <= CHANNELS_MAX_NB && cfg.bitFmt < 6
  }

  predicate ValidConfig(cfg: StreamConfig) {
    Sendable(cfg) && KnownRate(cfg.sampleRate)
  }

  // ----- the rate table; it is read through `IndexIn` and `Nth` so that proofs need not unfold it

  /** The first index of `list` holding `value`, or the length of the list. */
  function IndexIn(value: nat, list: seq<nat>): (r: nat)
    ensures r <= |list|
  {
    if list == [] || list[0] == value then 0 else 1 + IndexIn(value, list[1..])
  }

  function Nth(list: seq<nat>, i: nat): nat
    requires i < |list|
  {
    if i == 0 then list[0] else Nth(list[1..], i - 1)
  }

  lemma {:induction false} NthIsIndex(list: seq<nat>, i: nat)
    requires i < |list|
    ensures Nth(list, i) == list[i]
  {
    if i > 0 {
      NthIsIndex(list[1..], i - 1);
    }
  }

  lemma {:induction false} IndexFinds(value: nat, list: seq<nat>)
    ensures value in list <==> IndexIn(value, list) < |list|
    ensures value in list ==> Nth(list, IndexIn(value, list)) == value
  {
    if list != [] && list[0] != value {
      IndexFinds(value, list[1..]);
    }
  }

  lemma {:induction false} IndexInverts(list: seq<nat>, i: nat)
    requires i < |list|
    requires forall j, k :: 0 <= j < k < |list| ==> list[j] != list[k]
    ensures IndexIn(list[i], list) == i
  {
    if i > 0 {
      assert list[0] != list[i];
      IndexInverts(list[1..], i - 1);
    }
  }

  /** The header index of a sample rate, 21 for a rate that is not in the table. */
  function RateIndex(value: nat): (r: nat)
    ensures r <= SR_MAXNUMBER
  {
    IndexIn(value, SR_LIST)
  }

  predicate KnownRate(value: nat) {
    RateIndex(value) < SR_MAXNUMBER
  }

  /** The rate at a table index; after a successful check the table is never read out of range. */
  function RateAt(i: nat): nat {
    if i < SR_MAXNUMBER then Nth(SR_LIST, i) else 0
  }

  lemma KnownRateMeaning(value: nat)
    ensures KnownRate(value) <==> value in SR_LIST
  {
    IndexFinds(value, SR_LIST);
  }

  lemma RateAtIndex(value: nat)
    requires KnownRate(value)
    ensures RateAt(RateIndex(value)) == value
  {
    IndexFinds(value, SR_LIST);
  }

  /** A rate of the table is found again at its own index: the table has no repetition. */
  lemma RateIndexInverts(i: nat)
    requires i < SR_MAXNUMBER
    ensures RateIndex(RateAt(i)) == i
  {
    RateAtIsTable(i);
    RatesDistinct();
    IndexInverts(SR_LIST, i);
  }

  /** The rates of the protocol: three base rates, each doubled up to six times. */
  function StandardRate(i: nat): nat {
    if i < 7 then 6000 * Pow2(i)
    else if i < 14 then 8000 * Pow2(i - 7)
    else 11025 * Pow2(i - 14)
  }

  lemma SevenPowers()
    ensures Pow2(0) == 1 && Pow2(1) == 2 && Pow2(2) == 4 && Pow2(3) == 8
    ensures Pow2(4) == 16 && Pow2(5) == 32 && Pow2(6) == 64
  {
  }

  /** Code `i` stands for the `i`-th standard rate, and that rate is sent as code `i`. */
  lemma RateCodes(i: nat)
    requires i < SR_MAXNUMBER
    ensures RateAt(i) == StandardRate(i) && RateIndex(StandardRate(i)) == i
  {
    hide Pow2, RateAt, RateIndex;
    SevenPowers();
    RateAtIsTable(i);
    RateIndexInverts(i);
    if i < 7 {
      assert SR_LIST[i] == 6000 * Pow2(i);
    } else if i < 14 {
      assert SR_LIST[i] == 8000 * Pow2(i - 7);
    } else {
      assert SR_LIST[i] == 11025 * Pow2(i - 14);
    }
  }

  /** Two rates of the table. */
  lemma CommonRatesKnown()
    ensures KnownRate(6000) && KnownRate(48000)
  {
    hide IndexIn, Nth, RateAt, RateIndex;
    assert SR_LIST[0] == 6000 && SR_LIST[3] == 48000;
    RateAtIsTable(0);
    RateIndexInverts(0);
    RateAtIsTable(3);
    RateIndexInverts(3);
  }

  lemma RatesDistinct()
    ensures forall j, k :: 0 <= j < k < SR_MAXNUMBER ==> SR_LIST[j] != SR_LIST[k]
  {
  }

  lemma RateAtIsTable(i: nat)
    requires i < SR_MAXNUMBER
    ensures RateAt(i) == SR_LIST[i]
  {
    NthIsIndex(SR_LIST, i);
  }

  /** `vban_sr_from_value` */
  method RateFromValue(value: nat) returns (index: nat)
    ensures index == RateIndex(value)
  {
    index := 0;
    assert SR_LIST[0..] == SR_LIST;
    while index < SR_MAXNUMBER && value != SR_LIST[index]
      invariant index <= SR_MAXNUMBER
      invariant index + IndexIn(value, SR_LIST[index..]) == RateIndex(value)
    {
      assert SR_LIST[index..][1..] == SR_LIST[index + 1..];
      index := index + 1;
    }
  }

  // ----- the bit fields of the header

  lemma BitAndShift2(x: nat, mask: nat)
    ensures BitAnd(x, 4 * mask) == 4 * BitAnd(x / 4, mask)
  {
    hide BitAnd;
    assert x / 2 / 2 == x / 4;
    var twice := 2 * mask;
    BitAndEven(x, twice);
    BitAndEven(x / 2, mask);
  }

  lemma BitAndShift3(x: nat, mask: nat)
    ensures BitAnd(x, 8 * mask) == 8 * BitAnd(x / 8, mask)
  {
    hide BitAnd;
    BitAndShift2(x, 2 * mask);
    BitAndEven(x / 4, mask);
  }

  lemma BitAndShift4(x: nat, mask: nat)
    ensures BitAnd(x, 16 * mask) == 16 * BitAnd(x / 16, mask)
  {
    hide BitAnd;
    BitAndShift3(x, 2 * mask);
    BitAndEven(x / 8, mask);
  }

  lemma BitAndShift5(x: nat, mask: nat)
    ensures BitAnd(x, 32 * mask) == 32 * BitAnd(x / 32, mask)
  {
    hide BitAnd;
    BitAndShift4(x, 2 * mask);
    BitAndEven(x / 16, mask);
  }

  lemma Powers()
    ensures Pow2(1) == 2 && Pow2(3) == 8 && Pow2(4) == 16 && Pow2(5) == 32
  {
    assert Pow2(2) == 4;
  }

  lemma ReservedBit(x: nat)
    ensures BitAnd(x, RESERVED_MASK) == 0 <==> x / 8 % 2 == 0
  {
    BitAndShift3(x, 1);
    Powers();
    BitAndLow(x / 8, 1);
  }

  lemma CodecBits(x: nat)
    requires x < 256
    ensures BitAnd(x, CODEC_MASK) == 0 <==> x < 16
  {
    BitAndShift4(x, 15);
    Powers();
    BitAndLow(x / 16, 4);
  }

  lemma ResolutionBits(x: nat)
    ensures BitAnd(x, BIT_RESOLUTION_MASK) == x % 8
  {
    Powers();
    BitAndLow(x, 3);
  }

  /** A format byte passes the reserved-bit and codec tests just when it is a bit format. */
  lemma FormatBits(x: nat)
    requires x < 256
    ensures BitAnd(x, RESERVED_MASK) == 0 && BitAnd(x, CODEC_MASK) == 0 <==> x < BIT_RESOLUTION_MAX
    ensures BitAnd(x, BIT_RESOLUTION_MASK) == x % 8
  {
    ReservedBit(x);
    CodecBits(x);
    ResolutionBits(x);
  }

  /** A rate byte passes the protocol test just when it is below the protocol bits. */
  lemma RateBits(x: nat)
    requires x < 256
    ensures BitAnd(x, PROTOCOL_MASK) == 0 <==> x < 32
    ensures BitAnd(x, SR_MASK) == x % 32
  {
    BitAndShift5(x, 7);
    Powers();
    BitAndLow(x / 32, 3);
    BitAndLow(x, 5);
  }
}
