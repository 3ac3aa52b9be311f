/** Bytes, fixed-width C integers and the fixed-width slots that sample data is cut into. */
module Bytes {

  newtype byte = x: int | 0 <= x < 256

  const TWO_32 := 0x1_0000_0000
  const TWO_64 := 0x1_0000_0000_0000_0000

  /** Conversion to `uint8_t`. */
  function ToByte(x: int): byte {
    (x % 256) as byte
  }

  /** Conversion to `int`, two's complement. */
  function ToInt32(x: int): int {
    var u := x % TWO_32;
    if u < 0x8000_0000 then u else u - TWO_32
  }

  function Zeros(n: nat): (z: seq<byte>)
    ensures |z| == n
    ensures forall i :: 0 <= i < n ==> z[i] == 0
  {
    seq(n, _ => 0)
  }

  /** The `j`-th block of `w` bytes of `s`. */
  function Slot(s: seq<byte>, j: nat, w: nat): (r: seq<byte>)
    requires j * w + w <= |s|
    ensures |r| == w
  {
    s[j * w..j * w + w]
  }

  /** The C operator `&` on non-negative operands. */
  function BitAnd(x: nat, mask: nat): nat {
    if x == 0 || mask == 0 then 0
    else (if x % 2 == 1 && mask % 2 == 1 then 1 else 0) + 2 * BitAnd(x / 2, mask / 2)
  }

  function Pow2(k: nat): (p: nat)
    ensures p > 0
  {
    if k == 0 then 1 else 2 * Pow2(k - 1)
  }

  lemma BitAndEven(x: nat, mask: nat)
    ensures BitAnd(x, 2 * mask) == 2 * BitAnd(x / 2, mask)
  {
    assert (2 * mask) / 2 == mask && (2 * mask) % 2 == 0;
  }

  lemma BitAndOdd(x: nat, mask: nat)
    ensures BitAnd(x, 2 * mask + 1) == x % 2 + 2 * BitAnd(x / 2, mask)
  {
    assert (2 * mask + 1) / 2 == mask && (2 * mask + 1) % 2 == 1;
  }

  /** A mask of `k` low ones keeps the remainder modulo `2^k`. */
  lemma {:induction false} BitAndLow(x: nat, k: nat)
    ensures BitAnd(x, Pow2(k) - 1) == x % Pow2(k)
  {
    if k > 0 {
      BitAndOdd(x, Pow2(k - 1) - 1);
      BitAndLow(x / 2, k - 1);
      ModDouble(x, Pow2(k - 1));
    }
  }

  lemma ModDouble(x: nat, p: nat)
    requires p > 0
    ensures x % (2 * p) == x % 2 + 2 * ((x / 2) % p)
    ensures x / (2 * p) == x / 2 / p
  {
    var q, r := (x / 2) / p, (x / 2) % p;
    assert q * (2 * p) == 2 * (q * p);
    DivModUnique(x, 2 * p, q, 2 * r + x % 2);
  }

  // ----- arithmetic helpers

  lemma QuotientUnique(d: int, q: int, r: int, q': int, r': int)
    requires q * d + r == q' * d + r'
    requires 0 <= r < d && 0 <= r' < d
    ensures q == q' && r == r'
  {
    if q < q' {
      MulMono(q + 1, q', d);
    } else if q' < q {
      MulMono(q' + 1, q, d);
    }
  }

  lemma DivModUnique(x: int, d: nat, q: int, r: nat)
    requires x == q * d + r && r < d
    ensures x / d == q && x % d == r
  {
    QuotientUnique(d, q, r, x / d, x % d);
  }

  lemma MulMono(a: int, b: int, w: nat)
    requires a <= b
    ensures a * w <= b * w
  {
  }

  lemma QuotientAtMost(x: nat, d: nat)
    requires d > 0
    ensures x / d <= x
  {
    QuotientScaled(x, d, x / d, x % d);
  }

  lemma QuotientScaled(x: nat, d: nat, q: nat, r: nat)
    requires d > 0 && x == q * d + r
    ensures q <= x
  {
    MulMono(1, d, q);
  }

  /** `f * m + c` is row `f`, column `c` of a table with rows of length `m`. */
  lemma RowCol(f: nat, c: nat, m: nat)
    requires c < m
    ensures (f * m + c) / m == f && (f * m + c) % m == c
  {
    DivModUnique(f * m + c, m, f, c);
  }

  /** The row and the column of cell `j` in a table of `rows` rows. */
  lemma CellOf(j: nat, m: nat, rows: nat) returns (f: nat, c: nat)
    requires j < rows * m
    ensures f < rows && c < m && c == j % m && f == j / m && j == f * m + c
  {
    f, c := j / m, j % m;
    QuotientBelow(j, m, f, c, rows);
  }

  lemma QuotientBelow(j: nat, m: nat, f: nat, c: nat, rows: nat)
    requires j == f * m + c && j < rows * m
    ensures f < rows
  {
    if rows <= f {
      MulMono(rows, f, m);
    }
  }

  /** Cell `(f, c)` of a table of `rows` rows lies before the table's end. */
  lemma CellFits(f: nat, c: nat, m: nat, rows: nat)
    requires f < rows && c < m
    ensures f * m + c < rows * m
  {
    MulMono(f + 1, rows, m);
  }

  lemma SlotFits(j: nat, k: nat, w: nat)
    requires j < k
    ensures j * w + w <= k * w
  {
    MulMono(j + 1, k, w);
  }

  /** Sequences that agree on their first `k` slots and on what follows are equal. */
  lemma {:induction false} SlotExtensionality(a: seq<byte>, b: seq<byte>, k: nat, w: nat)
    requires |a| == |b| && k * w <= |a|
    requires forall j: nat :: j < k ==> SlotEqual(a, b, j, w)
    requires a[k * w..] == b[k * w..]
    ensures a == b
  {
    if k > 0 {
      var i := (k - 1) * w;
      SlotFits(k - 1, k, w);
      assert SlotEqual(a, b, k - 1, w);
      TailSplit(a, b, i, w, k * w);
      SlotExtensionality(a, b, k - 1, w);
    }
  }

  lemma TailSplit(a: seq<byte>, b: seq<byte>, i: nat, w: nat, end: nat)
    requires end == i + w <= |a| == |b|
    requires a[i..i + w] == b[i..i + w] && a[end..] == b[end..]
    ensures a[i..] == b[i..]
  {
    assert a[i..] == a[i..i + w] + a[end..];
    assert b[i..] == b[i..i + w] + b[end..];
  }

  predicate SlotEqual(a: seq<byte>, b: seq<byte>, j: nat, w: nat) {
    && j * w + w <= |a| && j * w + w <= |b|
    && Slot(a, j, w) == Slot(b, j, w)
  }

  /** The first `k` slots of `s`. */
  function Slots(s: seq<byte>, k: nat, w: nat): (r: seq<seq<byte>>)
    requires k * w <= |s|
    ensures |r| == k
  {
    seq(k, j requires 0 <= j < k => SlotFits(j, k, w); Slot(s, j, w))
  }

  lemma SlotsAt(s: seq<byte>, k: nat, w: nat, j: nat)
    requires k * w <= |s| && j < k
    ensures j * w + w <= |s|
    ensures Slots(s, k, w)[j] == Slot(s, j, w)
  {
    SlotFits(j, k, w);
  }

  /** Slots of width `w` written one after the other. */
  function JoinSlots(vals: seq<seq<byte>>): seq<byte> {
    if vals == [] then [] else JoinSlots(vals[..|vals| - 1]) + vals[|vals| - 1]
  }

  lemma {:induction false} JoinSlotsLength(vals: seq<seq<byte>>, w: nat)
    requires forall v :: v in vals ==> |v| == w
    ensures |JoinSlots(vals)| == |vals| * w
  {
    if vals != [] {
      var k := |vals| - 1;
      JoinSlotsLength(vals[..k], w);
      assert vals[k] in vals;
      MulStep(k, w);
    }
  }

  lemma MulStep(k: nat, w: nat)
    ensures (k + 1) * w == k * w + w
  {
  }

  lemma {:induction false} JoinSlotsAt(vals: seq<seq<byte>>, w: nat, j: nat)
    requires forall v :: v in vals ==> |v| == w
    requires j < |vals|
    ensures j * w + w <= |JoinSlots(vals)|
    ensures Slot(JoinSlots(vals), j, w) == vals[j]
  {
    JoinSlotsLength(vals, w);
    SlotFits(j, |vals|, w);
    var init := vals[..|vals| - 1];
    JoinSlotsLength(init, w);
    if j < |init| {
      JoinSlotsAt(init, w, j);
    }
  }

  lemma {:induction false} JoinSlotsOf(s: seq<byte>, k: nat, w: nat)
    requires |s| == k * w
    ensures JoinSlots(Slots(s, k, w)) == s
  {
    hide Slots;
    if k > 0 {
      var at := (k - 1) * w;
      MulStep(k - 1, w);
      var init := s[..at];
      JoinSlotsOf(init, k - 1, w);
      SlotsPrefix(s, init, k, k - 1, w);
      SlotsAt(s, k, w, k - 1);
      assert s == init + s[at..at + w];
    }
  }

  lemma SlotsPrefix(s: seq<byte>, init: seq<byte>, k: nat, k': nat, w: nat)
    requires k * w <= |s| && k' <= k && k' * w <= |init| && init <= s
    ensures Slots(s, k, w)[..k'] == Slots(init, k', w)
  {
    forall j: nat | j < k'
      ensures Slots(s, k, w)[j] == Slots(init, k', w)[j]
    {
      SlotFits(j, k', w);
      assert Slot(s, j, w) == Slot(init, j, w);
    }
  }

  lemma DivAdd(k: nat, y: nat, w: nat)
    requires w > 0
    ensures (k * w + y) / w == k + y / w
  {
    DivAddParts(k, y, w, y / w, y % w);
  }

  lemma DivAddParts(k: nat, y: nat, w: nat, q: nat, r: nat)
    requires y == q * w + r && r < w
    ensures (k * w + y) / w == k + q
  {
    assert (k + q) * w == k * w + q * w;
    DivModUnique(k * w + y, w, k + q, r);
  }

  lemma PrefixSlot(a: seq<byte>, b: seq<byte>, j: nat, w: nat)
    requires j * w + w <= |a|
    ensures Slot(a + b, j, w) == Slot(a, j, w)
  {
  }

  lemma SuffixSlot(a: seq<byte>, b: seq<byte>, k: nat, j: nat, w: nat)
    requires |a| == k * w && j * w + w <= |b|
    ensures (k + j) * w + w <= |a + b|
    ensures Slot(a + b, k + j, w) == Slot(b, j, w)
  {
    Distribute(k, j, w);
    ShiftedSlot(a, b, k + j, j, w);
  }

  lemma Distribute(a: nat, b: nat, w: nat)
    ensures (a + b) * w == a * w + b * w
  {
  }

  lemma ShiftedSlot(a: seq<byte>, b: seq<byte>, i: nat, j: nat, w: nat)
    requires i * w == |a| + j * w && j * w + w <= |b|
    ensures Slot(a + b, i, w) == Slot(b, j, w)
  {
    var x := j * w;
    assert (a + b)[|a| + x..|a| + x + w] == b[x..x + w];
  }

  lemma SlotsConcat(a: seq<byte>, b: seq<byte>, k: nat, k': nat, w: nat)
    requires |a| == k * w && k' * w <= |b|
    ensures (k + k') * w <= |a + b|
    ensures Slots(a + b, k + k', w) == Slots(a, k, w) + Slots(b, k', w)
  {
    assert (k + k') * w == k * w + k' * w;
    var l, r := Slots(a + b, k + k', w), Slots(a, k, w) + Slots(b, k', w);
    forall j: nat | j < k + k'
      ensures l[j] == r[j]
    {
      if j < k {
        SlotFits(j, k, w);
        PrefixSlot(a, b, j, w);
      } else {
        SlotFits(j - k, k', w);
        SuffixSlot(a, b, k, j - k, w);
      }
    }
  }
}
