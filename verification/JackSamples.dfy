/** `jack_convert_sample` for the integer formats, against two's complement. */
module JackSamples {
  import opened Bytes
  import opened Protocol
  import opened Jack

  /** The unsigned little-endian value of some bytes. */
  function UnsignedLE(b: seq<byte>): nat {
    if b == [] then 0 else b[0] as nat + 256 * UnsignedLE(b[1..])
  }

  /** The two's complement value of `w` little-endian bytes, for `full == 2^(8w)`. */
  function SignedLE(b: seq<byte>, full: nat): int {
    if 2 * UnsignedLE(b) < full then UnsignedLE(b) else UnsignedLE(b) - full
  }

  /** `2^(8w)` for the integer formats 0, 1 and 2, of 1, 2 and 3 bytes. */
  function FullScale(fmt: nat): nat {
    if fmt == 0 then 0x100 else if fmt == 1 then 0x1_0000 else 0x100_0000
  }

  lemma Unsigned3(b: seq<byte>)
    requires 1 <= |b| <= 3
    ensures |b| == 1 ==> UnsignedLE(b) == b[0] as nat
    ensures |b| == 2 ==> UnsignedLE(b) == b[0] as nat + 256 * b[1] as nat
    ensures |b| == 3 ==> UnsignedLE(b) == b[0] as nat + 256 * (b[1] as nat + 256 * b[2] as nat)
  {
    if |b| > 1 {
      assert b[1..][0] == b[1];
      if |b| > 2 {
        assert b[1..][1..] == b[2..] && b[2..][0] == b[2] && b[2..][1..] == [];
      } else {
        assert b[1..][1..] == [];
      }
    } else {
      assert b[1..] == [];
    }
  }

  /** A sample is its two's complement value over half the full scale, a level from -1 up to but not including 1. */
  lemma ConvertIsSigned(b: seq<byte>, fmt: nat)
    requires fmt < 3 && |b| == SampleSize(fmt)
    ensures Convert(b, fmt) == Level(SignedLE(b, FullScale(fmt)) as real / (FullScale(fmt) / 2) as real)
    ensures -1.0 <= Convert(b, fmt).value < 1.0
  {
    UnsignedBelowFull(b, fmt);
    SignedBytes(b, fmt);
    if fmt == 0 {
      assert FullScale(fmt) / 2 == 128;
    } else if fmt == 1 {
      assert FullScale(fmt) / 2 == 32768;
    } else {
      assert FullScale(fmt) / 2 == 8388608;
    }
    RatioBounds(SignedLE(b, FullScale(fmt)), FullScale(fmt) / 2);
  }

  lemma SignedBytes(b: seq<byte>, fmt: nat)
    requires fmt < 3 && |b| == SampleSize(fmt)
    ensures fmt == 0 ==> SignedLE(b, 0x100) == SignedByte(b[0])
    ensures fmt == 1 ==> SignedLE(b, 0x1_0000) == SignedByte(b[1]) * 0x100 + b[0] as int
    ensures fmt == 2 ==> SignedLE(b, 0x100_0000) == SignedByte(b[2]) * 0x1_0000 + b[1] as int * 0x100 + b[0] as int
  {
    Unsigned3(b);
  }

  lemma RatioBounds(x: int, d: nat)
    requires d > 0 && 0 - d <= x < d
    ensures -1.0 <= x as real / d as real < 1.0
  {
    var r, e := x as real / d as real, d as real;
    assert x as real == r * e;
    QuotientBounds(x as real, e, r);
  }

  lemma QuotientBounds(x: real, e: real, r: real)
    requires e > 0.0 && x == r * e && 0.0 - e <= x < e
    ensures -1.0 <= r < 1.0
  {
    if r >= 1.0 {
      ScaleBound(r, 1.0, e);
    } else if r < -1.0 {
      ScaleBound(-1.0, r, e);
    }
  }

  lemma ScaleBound(a: real, b: real, d: real)
    requires a >= b && d >= 0.0
    ensures a * d >= b * d
  {
    var x := a - b;
    assert x * d >= 0.0;
    assert x * d == a * d - b * d;
  }

  lemma {:induction false} UnsignedInjective(a: seq<byte>, b: seq<byte>)
    requires |a| == |b| && UnsignedLE(a) == UnsignedLE(b)
    ensures a == b
  {
    if a != [] {
      assert a[0] == b[0];
      UnsignedInjective(a[1..], b[1..]);
      assert a == [a[0]] + a[1..] && b == [b[0]] + b[1..];
    }
  }

  lemma UnsignedBelowFull(b: seq<byte>, fmt: nat)
    requires fmt < 3 && |b| == SampleSize(fmt)
    ensures UnsignedLE(b) < FullScale(fmt)
  {
    Unsigned3(b);
  }

  /** Different sample bytes are different levels: the conversion loses nothing. */
  lemma ConvertInjective(a: seq<byte>, b: seq<byte>, fmt: nat)
    requires fmt < 5 && |a| == |b| == SampleSize(fmt)
    requires Convert(a, fmt) == Convert(b, fmt)
    ensures a == b
  {
    hide UnsignedLE, Convert;
    if fmt < 3 {
      ConvertIsSigned(a, fmt);
      ConvertIsSigned(b, fmt);
      SameRatio(SignedLE(a, FullScale(fmt)), SignedLE(b, FullScale(fmt)), FullScale(fmt) / 2);
      UnsignedBelowFull(a, fmt);
      UnsignedBelowFull(b, fmt);
      UnsignedInjective(a, b);
    } else {
      ConvertKeepsBits(a, fmt);
      ConvertKeepsBits(b, fmt);
    }
  }

  /** The 32-bit formats reach the ports with all their bits, integers and floats apart; 64-bit floats are silence. */
  lemma ConvertKeepsBits(b: seq<byte>, fmt: nat)
    requires 3 <= fmt < 6 && |b| == SampleSize(fmt)
    ensures fmt == 3 ==> Convert(b, fmt).Int32Bits? && Convert(b, fmt).bits == b
    ensures fmt == 4 ==> Convert(b, fmt).FloatBits? && Convert(b, fmt).bits == b
    ensures fmt == 5 ==> Convert(b, fmt) == Level(0.0)
  {
  }

  lemma SameRatio(x: int, y: int, d: nat)
    requires d > 0 && x as real / d as real == y as real / d as real
    ensures x == y
  {
    var r := x as real / d as real;
    assert x as real == r * d as real && y as real == r * d as real;
  }

  /** Zero bytes are silence. */
  lemma ZeroIsSilence(fmt: nat)
    requires fmt < 3
    ensures Convert(Zeros(SampleSize(fmt)), fmt) == Level(0.0)
  {
  }
}
