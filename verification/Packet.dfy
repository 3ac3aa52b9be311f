/** The VBAN audio packet: header codec, validator and payload sizing. */
module Packet {
  import opened Bytes
  import opened Protocol

  // ----- C strings

  /** The characters before the first NUL. */
  function CStr(s: seq<byte>): seq<byte> {
    if s == [] || s[0] == 0 then [] else [s[0]] + CStr(s[1..])
  }

  /** `strncmp(a, b, n) == 0` */
  predicate StrNEqual(a: seq<byte>, b: seq<byte>, n: nat)
    requires n <= |a| && n <= |b|
  {
    n == 0 || (a[0] == b[0] && (a[0] == 0 || StrNEqual(a[1..], b[1..], n - 1)))
  }

  lemma {:induction false} StrNEqualMeaning(a: seq<byte>, b: seq<byte>)
    requires |a| == |b|
    ensures StrNEqual(a, b, |a|) <==> CStr(a) == CStr(b)
  {
    if a != [] && a[0] == b[0] && a[0] != 0 {
      StrNEqualMeaning(a[1..], b[1..]);
      assert CStr(a)[1..] == CStr(a[1..]) && CStr(b)[1..] == CStr(b[1..]);
    }
  }

  /** What `strncpy(dst, s, n)` leaves in the first `n` characters of `dst`. */
  function StrNCopy(s: seq<byte>, n: nat): (r: seq<byte>)
    ensures |r| == n
  {
    if n == 0 then []
    else if s == [] || s[0] == 0 then Zeros(n)
    else [s[0]] + StrNCopy(s[1..], n - 1)
  }

  lemma {:induction false} StrNCopyMeaning(s: seq<byte>, n: nat)
    requires |CStr(s)| <= n
    ensures CStr(StrNCopy(s, n) + [0]) == CStr(s)
  {
    if n > 0 && s != [] && s[0] != 0 {
      StrNCopyMeaning(s[1..], n - 1);
      assert (StrNCopy(s, n) + [0])[1..] == StrNCopy(s[1..], n - 1) + [0];
    }
  }

  lemma {:induction false} CStrLength(s: seq<byte>)
    ensures |CStr(s)| <= |s|
    ensures s != [] && s[|s| - 1] == 0 ==> |CStr(s)| < |s|
  {
    if s != [] && s[0] != 0 {
      CStrLength(s[1..]);
    }
  }

  // ----- 32-bit little-endian fields

  function LE32(x: nat): (b: seq<byte>)
    requires x < TWO_32
    ensures |b| == 4
  {
    [ToByte(x), ToByte(x / 256), ToByte(x / 256 / 256), ToByte(x / 256 / 256 / 256)]
  }

  function FromLE32(b: seq<byte>): (x: nat)
    requires |b| == 4
    ensures x < TWO_32
  {
    b[0] as nat + 256 * (b[1] as nat + 256 * (b[2] as nat + 256 * b[3] as nat))
  }

  lemma LE32RoundTrip(x: nat)
    requires x < TWO_32
    ensures FromLE32(LE32(x)) == x
  {
  }

  lemma FromLE32RoundTrip(b: seq<byte>)
    requires |b| == 4
    ensures LE32(FromLE32(b)) == b
  {
    var hi := b[2] as nat + 256 * b[3] as nat;
    Horner(b[0] as nat, b[1] as nat + 256 * hi);
    Horner(b[1] as nat, hi);
    Horner(b[2] as nat, b[3] as nat);
  }

  lemma Horner(low: nat, high: nat)
    requires low < 256
    ensures (low + 256 * high) / 256 == high && (low + 256 * high) % 256 == low
  {
  }

  // ----- the header

  function HeaderBytes(sr: byte, nbs: byte, nbc: byte, bit: byte, name: seq<byte>, nu: nat): (h: seq<byte>)
    requires |name| == STREAM_NAME_SIZE && nu < TWO_32
    ensures |h| == HEADER_SIZE
  {
    LE32(HEADER_FOURC) + [sr, nbs, nbc, bit] + name + LE32(nu)
  }

  /** The bytes per frame that a header announces. */
  function FrameSize(pkt: seq<byte>): nat
    requires |pkt| >= HEADER_SIZE
  {
    FrameBytes(StreamConfig(pkt[6] as nat + 1, 0, BitAnd(pkt[7] as nat, BIT_RESOLUTION_MASK)))
  }

  /** `packet_pcm_check` */
  function PcmCheck(pkt: seq<byte>): int
    requires |pkt| > HEADER_SIZE
  {
    var bitRes := BitAnd(pkt[7] as nat, BIT_RESOLUTION_MASK);
    var rate := BitAnd(pkt[4] as nat, SR_MASK);
    var nbSamples, nbChannels := pkt[5] as nat + 1, pkt[6] as nat + 1;
    if bitRes >= BIT_RESOLUTION_MAX then -EINVAL
    else if rate >= SR_MAXNUMBER then -EINVAL
    else if nbSamples * SampleSize(bitRes) * nbChannels != |pkt| - HEADER_SIZE then -EINVAL
    else 0
  }

  /** `packet_check`, on the received bytes. */
  function Check(streamname: seq<byte>, pkt: seq<byte>): int
    requires |streamname| == STREAM_NAME_SIZE
  {
    if |pkt| <= HEADER_SIZE then -EINVAL
    else if FromLE32(pkt[..4]) != HEADER_FOURC then -EINVAL
    else if !StrNEqual(streamname, pkt[8..24], STREAM_NAME_SIZE) then -EINVAL
    else if BitAnd(pkt[7] as nat, RESERVED_MASK) != 0 then -EINVAL
    else if BitAnd(pkt[4] as nat, PROTOCOL_MASK) != 0 then -EINVAL
    else if BitAnd(pkt[7] as nat, CODEC_MASK) != 0 then -EINVAL
    else PcmCheck(pkt)
  }

  /** `packet_get_stream_config`; the rate index must be one of the table, as after a successful check. */
  function GetStreamConfig(pkt: seq<byte>): StreamConfig
    requires |pkt| >= HEADER_SIZE && BitAnd(pkt[4] as nat, SR_MASK) < SR_MAXNUMBER
  {
    StreamConfig(pkt[6] as nat + 1, RateAt(BitAnd(pkt[4] as nat, SR_MASK)), BitAnd(pkt[7] as nat, BIT_RESOLUTION_MASK))
  }

  function MaxFrames(frame: nat): nat
    requires frame > 0
  {
    var count := DATA_MAX_SIZE / frame;
    if count > SAMPLES_MAX_NB then SAMPLES_MAX_NB else count
  }

  /** `packet_get_max_payload_size` */
  function MaxPayload(pkt: seq<byte>): nat
    requires |pkt| >= HEADER_SIZE && FrameSize(pkt) > 0
  {
    MaxFrames(FrameSize(pkt)) * FrameSize(pkt)
  }

  /** The packet buffer after `packet_init_header`. */
  function InitHeader(pkt: seq<byte>, cfg: StreamConfig, streamname: seq<byte>): (r: seq<byte>)
    requires |pkt| >= HEADER_SIZE
    ensures |r| == |pkt|
  {
    HeaderBytes(ToByte(RateIndex(cfg.sampleRate)), pkt[5], ToByte(cfg.nbChannels - 1), ToByte(cfg.bitFmt),
                StrNCopy(streamname, STREAM_NAME_SIZE - 1) + [pkt[23]], 0)
    + pkt[HEADER_SIZE..]
  }

  /** The packet buffer after `packet_set_new_content`. */
  function Stamp(pkt: seq<byte>, payloadSize: nat): (r: seq<byte>)
    requires |pkt| >= HEADER_SIZE && FrameSize(pkt) > 0
    ensures |r| == |pkt|
  {
    pkt[..5] + [ToByte(payloadSize / FrameSize(pkt) - 1)] + pkt[6..24]
    + LE32((FromLE32(pkt[24..28]) + 1) % TWO_32) + pkt[HEADER_SIZE..]
  }

  /** Writing the fields in the order of the C code assembles the header. */
  lemma HeaderAssembly(was: seq<byte>, magic: seq<byte>, fields: seq<byte>, named: seq<byte>, last: seq<byte>,
                       sr: byte, nbc: byte, bit: byte, name: seq<byte>)
    requires |was| >= HEADER_SIZE && |name| == STREAM_NAME_SIZE - 1
    requires magic == was[..0] + LE32(HEADER_FOURC) + was[4..]
    requires fields == magic[6 := nbc][4 := sr][7 := bit]
    requires named == fields[..8] + name + fields[23..]
    requires last == named[..24] + LE32(0) + named[28..]
    ensures last == HeaderBytes(sr, was[5], nbc, bit, name + [was[23]], 0) + was[HEADER_SIZE..]
  {
    hide LE32;
    assert named[..24] == LE32(HEADER_FOURC) + [sr, was[5], nbc, bit] + (name + [was[23]]);
    assert named[28..] == was[28..];
  }

  /** `packet_init_header`, on the buffer. */
  method InitHeaderInPlace(buffer: array<byte>, cfg: StreamConfig, streamname: seq<byte>)
    requires buffer.Length >= HEADER_SIZE && STREAM_NAME_SIZE - 1 <= |streamname|
    modifies buffer
    ensures buffer[..] == InitHeader(old(buffer[..]), cfg, streamname)
  {
    hide RateIndex, StrNCopy, LE32, HeaderBytes;
    ghost var was := buffer[..];
    var rate := RateFromValue(cfg.sampleRate);
    PutLE32(buffer, 0, HEADER_FOURC);
    ghost var magic := buffer[..];
    buffer[6] := ToByte(cfg.nbChannels - 1);
    buffer[4] := ToByte(rate);
    buffer[7] := ToByte(cfg.bitFmt);
    ghost var fields := buffer[..];
    CopyName(buffer, 8, streamname, STREAM_NAME_SIZE - 1);
    ghost var named := buffer[..];
    PutLE32(buffer, 24, 0);
    HeaderAssembly(was, magic, fields, named, buffer[..], ToByte(rate), ToByte(cfg.nbChannels - 1), ToByte(cfg.bitFmt),
                   StrNCopy(streamname, STREAM_NAME_SIZE - 1));
  }

  method PutLE32(buffer: array<byte>, at: nat, x: nat)
    requires at + 4 <= buffer.Length && x < TWO_32
    modifies buffer
    ensures buffer[..] == old(buffer[..at]) + LE32(x) + old(buffer[at + 4..])
  {
    buffer[at], buffer[at + 1] := ToByte(x), ToByte(x / 256);
    buffer[at + 2], buffer[at + 3] := ToByte(x / 256 / 256), ToByte(x / 256 / 256 / 256);
  }

  lemma {:induction false} StrNCopyAt(s: seq<byte>, n: nat, i: nat)
    requires i < n <= |s|
    ensures StrNCopy(s, n)[i] == if 0 in s[..i + 1] then 0 else s[i]
  {
    assert s[0] in s[..i + 1];
    if i > 0 && s[0] != 0 {
      StrNCopyAt(s[1..], n - 1, i - 1);
      assert s[..i + 1] == [s[0]] + s[1..][..i];
    }
  }

  /** `strncpy`, character by character. */
  method CopyName(buffer: array<byte>, at: nat, s: seq<byte>, n: nat)
    requires at + n <= buffer.Length && n <= |s|
    modifies buffer
    ensures buffer[..] == old(buffer[..at]) + StrNCopy(s, n) + old(buffer[at + n..])
  {
    var i, ended := 0, false;
    while i < n
      invariant i <= n
      invariant ended <==> 0 in s[..i]
      invariant forall k :: 0 <= k < buffer.Length && !(at <= k < at + i) ==> buffer[k] == old(buffer[k])
      invariant forall k :: 0 <= k < i ==> buffer[at + k] == StrNCopy(s, n)[k]
    {
      StrNCopyAt(s, n, i);
      assert s[..i + 1] == s[..i] + [s[i]];
      ended := ended || s[i] == 0;
      buffer[at + i] := if ended then 0 else s[i];
      i := i + 1;
    }
  }

  /** `packet_set_new_content`, on the buffer. */
  method SetNewContent(buffer: array<byte>, payloadSize: nat)
    requires buffer.Length >= HEADER_SIZE && FrameSize(buffer[..]) > 0
    modifies buffer
    ensures buffer[..] == Stamp(old(buffer[..]), payloadSize)
  {
    ghost var was := buffer[..];
    var frameSize := FrameSize(buffer[..]);
    buffer[5] := ToByte(payloadSize / frameSize - 1);
    var nu := FromLE32(buffer[24..28]);
    assert buffer[24..28] == was[24..28];
    PutLE32(buffer, 24, (nu + 1) % TWO_32);
  }
}
