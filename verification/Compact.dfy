/** The compact form of targets: a size and three bytes (src/bignum.h, SetCompact and GetCompact). */
module Compact {
  import opened Bytes
  import opened Bignum

  /** The bytes of the number, least significant first: the three named ones on top of zeros, or fewer for small sizes. */
  function CompactBytes(nCompact: UInt32): (r: seq<Byte>)
    ensures |r| == nCompact / 0x100_0000
  {
    var size, b2, b1, b0 := nCompact / 0x100_0000, nCompact / 0x1_0000 % 0x100, nCompact / 0x100 % 0x100, nCompact % 0x100;
    if size == 0 then []
    else if size == 1 then [b2]
    else if size == 2 then [b1, b2]
    else Zeros(size - 3) + [b0, b1, b2]
  }

  /** The top bit of the first byte is the sign. */
  function SetCompact(nCompact: UInt32): int {
    SetVch(CompactBytes(nCompact))
  }

  function Pack(size: nat, b2: Byte, b1: Byte, b0: Byte): nat {
    size * 0x100_0000 + b2 * 0x1_0000 + b1 * 0x100 + b0
  }

  /** GetCompact. With more than 255 bytes the size would run out of its byte. */
  function GetCompact(n: int): nat {
    var v := GetVch(n);
    var size := |v|;
    Pack(size, if size >= 1 then v[size - 1] else 0, if size >= 2 then v[size - 2] else 0, if size >= 3 then v[size - 3] else 0)
  }

  lemma Unpack(size: nat, b2: Byte, b1: Byte, b0: Byte)
    requires size < 0x100
    ensures var c := Pack(size, b2, b1, b0);
      c < 0x1_0000_0000 && c / 0x100_0000 == size && c / 0x1_0000 % 0x100 == b2 && c / 0x100 % 0x100 == b1 && c % 0x100 == b0
  {
    var c := Pack(size, b2, b1, b0);
    assert c / 0x100 == size * 0x1_0000 + b2 * 0x100 + b1;
    assert c / 0x1_0000 == size * 0x100 + b2;
  }

  /** The number with all but its top three bytes zeroed. */
  function Truncated(v: seq<Byte>): (r: seq<Byte>)
    ensures |r| == |v|
  {
    if |v| <= 3 then v else Zeros(|v| - 3) + v[|v| - 3..]
  }

  lemma CompactBytesOf(size: nat, b2: Byte, b1: Byte, b0: Byte)
    requires size < 0x100
    ensures Pack(size, b2, b1, b0) < 0x1_0000_0000
    ensures CompactBytes(Pack(size, b2, b1, b0)) ==
      if size == 0 then [] else if size == 1 then [b2] else if size == 2 then [b1, b2] else Zeros(size - 3) + [b0, b1, b2]
  {
    Unpack(size, b2, b1, b0);
    hide Pack, Zeros;
  }

  lemma CompactKeepsTop(n: int)
    requires |GetVch(n)| < 0x100
    ensures GetCompact(n) < 0x1_0000_0000 && CompactBytes(GetCompact(n)) == Truncated(GetVch(n))
  {
    var v := GetVch(n);
    hide GetVch, Pack, CompactBytes, Zeros;
    var size := |v|;
    CompactBytesOf(size, if size >= 1 then v[size - 1] else 0, if size >= 2 then v[size - 2] else 0,
                   if size >= 3 then v[size - 3] else 0);
    if size >= 3 {
      assert v[size - 3..] == [v[size - 3], v[size - 2], v[size - 1]];
      if size == 3 {
        assert Zeros(0) + v == v;
      }
    }
  }

  lemma {:induction false} FromLittleEndianConcat(a: seq<Byte>, b: seq<Byte>)
    ensures FromLittleEndian(a + b) == FromLittleEndian(a) + Pow256(|a|) * FromLittleEndian(b)
  {
    if a == [] {
      assert a + b == b;
    } else {
      FromLittleEndianConcat(a[1..], b);
      assert (a + b)[1..] == a[1..] + b;
      assert Pow256(|a|) * FromLittleEndian(b) == 0x100 * (Pow256(|a| - 1) * FromLittleEndian(b));
    }
  }

  lemma {:induction false} ZerosAreZero(k: nat)
    ensures FromLittleEndian(Zeros(k)) == 0
  {
    if k > 0 {
      ZerosAreZero(k - 1);
      assert Zeros(k)[1..] == Zeros(k - 1);
    }
  }

  /** The form getvch gives a positive number. */
  predicate IsPositive(v: seq<Byte>) {
    v != [] && v[|v| - 1] < 0x80 && (v[|v| - 1] > 0 || (|v| >= 2 && v[|v| - 2] >= 0x80))
  }

  lemma GetVchPositive(n: nat)
    requires n > 0
    ensures IsPositive(GetVch(n)) && FromLittleEndian(GetVch(n)) == n
  {
    MagnitudeValue(n);
    TrailingZero(Magnitude(n));
  }

  lemma PositiveUnique(v: seq<Byte>)
    requires IsPositive(v)
    ensures SetVch(v) == FromLittleEndian(v) > 0 && GetVch(FromLittleEndian(v)) == v
  {
    if v[|v| - 1] > 0 {
      MagnitudeUnique(v);
      NonzeroValue(v);
    } else {
      var m := v[..|v| - 1];
      assert v == m + [0];
      TrailingZero(m);
      MagnitudeUnique(m);
      NonzeroValue(m);
    }
  }

  lemma {:induction false} Pow256Sum(a: nat, b: nat)
    ensures Pow256(a + b) == Pow256(a) * Pow256(b)
  {
    if a > 0 {
      Pow256Sum(a - 1, b);
      assert Pow256(a) * Pow256(b) == 0x100 * (Pow256(a - 1) * Pow256(b));
    }
  }

  lemma TopThree(t: seq<Byte>)
    requires |t| == 3 && IsPositive(t)
    ensures FromLittleEndian(t) >= 0x8000
  {
    assert t == [t[0]] + ([t[1]] + ([t[2]] + []));
    assert t[1..] == [t[1], t[2]] && t[1..][1..] == [t[2]] && t[1..][1..][1..] == [];
  }

  lemma TruncationArithmetic(n: nat, low: nat, p: nat, top: nat)
    requires n == low + p * top && low < p && top >= 0x8000
    ensures 0 <= low && low * 0x8000 < n
  {
    assert p * top >= p * 0x8000;
  }

  /**
   * Packing truncates a positive number downward by less than one part in 2 to the 15, and packing again changes
   * nothing.
   */
  lemma CompactTruncates(n: nat)
    requires 0 < n && |GetVch(n)| < 0x100
    ensures GetCompact(n) < 0x1_0000_0000
    ensures var m := SetCompact(GetCompact(n)); 0 < m <= n && (n - m) * 0x8000 < n && GetCompact(m) == GetCompact(n)
  {
    var v := GetVch(n);
    GetVchPositive(n);
    CompactKeepsTop(n);
    if |v| <= 3 {
      PositiveUnique(v);
    } else {
      var k := |v| - 3;
      var low, top := v[..k], v[k..];
      assert v == low + top && IsPositive(top);
      FromLittleEndianConcat(low, top);
      FromLittleEndianConcat(Zeros(k), top);
      ZerosAreZero(k);
      FromLittleEndianBound(low);
      TopThree(top);
      TruncationArithmetic(n, FromLittleEndian(low), Pow256(k), FromLittleEndian(top));
      TruncatedPositive(v);
    }
  }

  lemma GetCompactOf(n: int, v: seq<Byte>)
    requires GetVch(n) == v && |v| >= 3
    ensures GetCompact(n) == Pack(|v|, v[|v| - 1], v[|v| - 2], v[|v| - 3])
  {
    hide GetVch, Pack;
  }

  lemma TruncatedPositive(v: seq<Byte>)
    requires IsPositive(v) && |v| > 3
    ensures var m := SetVch(Truncated(v)); m == FromLittleEndian(Truncated(v)) > 0 && GetCompact(m) == GetCompact(FromLittleEndian(v))
  {
    var w := Truncated(v);
    assert w[|v| - 1] == v[|v| - 1] && w[|v| - 2] == v[|v| - 2] && w[|v| - 3] == v[|v| - 3];
    assert IsPositive(w);
    hide Truncated, GetCompact, SetVch, FromLittleEndian, GetVch, Pack, IsPositive;
    PositiveUnique(v);
    PositiveUnique(w);
    GetCompactOf(FromLittleEndian(v), v);
    GetCompactOf(FromLittleEndian(w), w);
  }

  // Work

  const TWO_TO_256: nat := 0x1_0000000000000000_0000000000000000_0000000000000000_0000000000000000

  /**
   * The work a target stands for: the expected number of hashes, 2^256 divided by one more than the target and rounded
   * down, and none for a target that no hash can meet.
   */
  predicate IsWorkOf(w: int, target: int) {
    if target <= 0 then w == 0 else w * (target + 1) <= TWO_TO_256 < (w + 1) * (target + 1)
  }

  function Quotient(a: nat, b: nat): (q: nat)
    requires b > 0
    ensures q * b <= a < (q + 1) * b
  {
    a / b
  }

  function BlockWork(nBits: UInt32): (w: nat)
    ensures IsWorkOf(w, SetCompact(nBits))
  {
    var target := SetCompact(nBits);
    if target <= 0 then 0 else Quotient(TWO_TO_256, target + 1)
  }

  /** A larger divisor never goes more often into the same number. */
  lemma FewerTimes(n: nat, w: nat, d: nat, w': nat, d': nat)
    requires w' * d' <= n < (w + 1) * d && d <= d'
    ensures w' <= w
  {
    if w' > w {
      LargerProduct(w + 1, d, w', d');
    }
  }

  lemma LargerProduct(a: nat, b: nat, a': nat, b': nat)
    requires a <= a' && b <= b'
    ensures a * b <= a' * b'
  {
    assert a * b <= a' * b <= a' * b';
  }

  /** A smaller target never has less work. So the work of a target is unique. */
  lemma WorkNeverGrows(target: int, w: nat, target': int, w': nat)
    requires 0 < target <= target' && IsWorkOf(w, target) && IsWorkOf(w', target')
    ensures w' <= w
  {
    FewerTimes(TWO_TO_256, w, target + 1, w', target' + 1);
  }

  /** There is some work in exactly the positive targets below 2^256. */
  lemma WorkIsPositive(target: int, w: nat)
    requires IsWorkOf(w, target)
    ensures w > 0 <==> 0 < target < TWO_TO_256
  {
    if 0 < target < TWO_TO_256 {
      FewerTimes(TWO_TO_256, w, target + 1, 1, target + 1);
    } else if target >= TWO_TO_256 {
      FewerTimes(TWO_TO_256, 0, TWO_TO_256 + 1, w, target + 1);
    }
  }
}
