/** What packing does to targets: it truncates, keeps their order, and changes nothing when done again. */
module Packing {
  import opened Bytes
  import opened Bignum
  import opened Compact
  import opened Retarget

  lemma PackedFacts(n: nat)
    requires n <= WORK_LIMIT
    ensures GetCompact(n) < 0x1_0000_0000
    ensures var m := SetCompact(GetCompact(n));
      0 <= m <= n && n * 0x7fff <= m * 0x8000 && (n > 0 ==> m > 0) && GetCompact(m) == GetCompact(n)
  {
    hide SetCompact, GetCompact, GetVch;
    LimitFits(n);
    PackedBounds(n, n);
    if n > 0 {
      CompactTruncates(n);
    } else {
      CompactOfZero();
    }
  }

  /** The value of a target once it was packed. */
  function Packed(n: nat): (m: nat)
    requires n <= WORK_LIMIT
    ensures m <= n
  {
    PackedFacts(n);
    SetCompact(GetCompact(n))
  }

  lemma SmallBytes(v: seq<Byte>)
    requires v != [] && v[|v| - 1] < 0x80
    ensures FromLittleEndian(v) < 0x80 * Pow256(|v| - 1)
  {
    var low, top := v[..|v| - 1], v[|v| - 1];
    assert v == low + [top];
    FromLittleEndianConcat(low, [top]);
    FromLittleEndianBound(low);
    OneByte(top);
    hide FromLittleEndian, Pow256;
    Scaled(Pow256(|low|), top);
  }

  lemma OneByte(b: Byte)
    ensures FromLittleEndian([b]) == b
  {
  }

  lemma Scaled(p: nat, top: nat)
    requires top < 0x80
    ensures p + p * top <= 0x80 * p
  {
    assert p * top <= p * 0x7f;
  }

  /** A long number keeps its top three bytes, which hold at least fifteen bits. */
  lemma PackedLong(n: nat) returns (p: nat, top: nat)
    requires 0 < n <= WORK_LIMIT && |GetVch(n)| > 3
    ensures p == Pow256(|GetVch(n)| - 3) > 0 && 0x8000 <= top
    ensures Packed(n) == p * top && p * top <= n < p * (top + 1)
  {
    var v := GetVch(n);
    LimitFits(n);
    GetVchPositive(n);
    CompactKeepsTop(n);
    TruncatedPositive(v);
    hide GetVch, GetCompact, CompactBytes, SetVch, FromLittleEndian, Pow256, Zeros, IsPositive;
    p, top := LongParts(v);
  }

  lemma LongParts(v: seq<Byte>) returns (p: nat, top: nat)
    requires IsPositive(v) && |v| > 3
    ensures p == Pow256(|v| - 3) > 0 && 0x8000 <= top
    ensures FromLittleEndian(Truncated(v)) == p * top && p * top <= FromLittleEndian(v) < p * (top + 1)
  {
    var k := |v| - 3;
    var low, high := v[..k], v[k..];
    assert v == low + high && IsPositive(high);
    hide IsPositive, Pow256, FromLittleEndian;
    TopThree(high);
    FromLittleEndianConcat(low, high);
    FromLittleEndianConcat(Zeros(k), high);
    ZerosAreZero(k);
    FromLittleEndianBound(low);
    p, top := Pow256(k), FromLittleEndian(high);
    Between(FromLittleEndian(low), p, top);
  }

  lemma Between(low: nat, p: nat, top: nat)
    requires low < p
    ensures p * top <= low + p * top < p * (top + 1)
  {
    assert p * (top + 1) == p * top + p;
  }

  lemma PackedShort(n: nat)
    requires 0 < n <= WORK_LIMIT && |GetVch(n)| <= 3
    ensures Packed(n) == n
  {
    LimitFits(n);
    GetVchPositive(n);
    CompactKeepsTop(n);
    PositiveUnique(GetVch(n));
    hide GetVch, GetCompact, CompactBytes, SetVch, FromLittleEndian, IsPositive;
  }

  lemma {:induction false} Pow256Monotone(i: nat, j: nat)
    requires i <= j
    ensures Pow256(i) <= Pow256(j)
  {
    if i < j {
      Pow256Monotone(i, j - 1);
    }
  }

  lemma Pow256Step(k: nat)
    ensures Pow256(k + 1) == 0x100 * Pow256(k)
  {
  }

  lemma SmallNumber(n: nat)
    requires n > 0
    ensures |GetVch(n)| > 0 && n < 0x80 * Pow256(|GetVch(n)| - 1)
  {
    GetVchPositive(n);
    SmallBytes(GetVch(n));
    hide GetVch, FromLittleEndian, Pow256;
  }

  /** Fewer bytes, smaller number, even after packing. */
  lemma ShorterIsLess(a: nat, b: nat)
    requires 0 < a <= WORK_LIMIT && 0 < b <= WORK_LIMIT && |GetVch(a)| < |GetVch(b)| && |GetVch(b)| > 3
    ensures a < Packed(b)
  {
    hide *;
    SmallNumber(a);
    var la, lb := |GetVch(a)|, |GetVch(b)|;
    Pow256Monotone(la - 1, lb - 2);
    Pow256Step(lb - 3);
    var p, top := PackedLong(b);
    AtLeast(p, 0x8000, top);
  }

  lemma AtLeast(p: nat, x: nat, y: nat)
    requires x <= y
    ensures p * x <= p * y
  {
  }

  lemma SameLength(p: nat, a: nat, x: nat, b: nat, y: nat)
    requires p > 0 && p * x <= a <= b < p * (y + 1)
    ensures p * x <= p * y
  {
    if x > y {
      AtLeast(p, y + 1, x);
    } else {
      AtLeast(p, x, y);
    }
  }

  lemma PackedMonotone(a: nat, b: nat)
    requires a <= b <= WORK_LIMIT
    ensures Packed(a) <= Packed(b)
  {
    hide *;
    if a > 0 {
      if |GetVch(b)| <= 3 {
        PackedShort(b);
      } else if |GetVch(a)| < |GetVch(b)| {
        ShorterIsLess(a, b);
      } else if |GetVch(a)| > |GetVch(b)| {
        ShorterIsLess(b, a);
      } else {
        var p, x := PackedLong(a);
        var q, y := PackedLong(b);
        SameLength(p, a, x, b, y);
      }
    }
  }

  lemma PackedTwice(n: nat)
    requires n <= WORK_LIMIT
    ensures Packed(Packed(n)) == Packed(n)
  {
    PackedFacts(n);
    hide GetCompact, SetCompact;
  }

  lemma PackedLoss(n: nat)
    requires n <= WORK_LIMIT
    ensures Packed(n) * 0x8000 >= n * 0x7fff
  {
    PackedFacts(n);
    hide GetCompact, SetCompact;
  }

  // Bits

  /** Bits as blocks carry them: within the limit and in the form GetCompact gives. */
  predicate Proper(nBits: int) {
    0 <= nBits < 0x1_0000_0000 && 0 <= SetCompact(nBits) <= WORK_LIMIT && GetCompact(SetCompact(nBits)) == nBits
  }

  function Target(nBits: int): (r: nat)
    requires Proper(nBits)
    ensures r <= WORK_LIMIT
  {
    SetCompact(nBits)
  }

  /** The bits a retarget asks for, given the timespan it finds. */
  function NextBits(nBits: int, actual: int): (r: int)
    requires Proper(nBits)
    ensures Proper(r)
  {
    NewTargetBounds(Target(nBits), actual);
    PackedFacts(NewTarget(Target(nBits), actual));
    GetCompact(NewTarget(Target(nBits), actual))
  }

  /** A target that blocks carry is what packing makes of it. */
  lemma ProperIsPacked(nBits: int)
    requires Proper(nBits)
    ensures Packed(Target(nBits)) == Target(nBits)
  {
    hide SetCompact, GetCompact;
  }

  /** The easiest target in the form blocks carry it. */
  function Easiest(): (r: nat)
    ensures r <= WORK_LIMIT
  {
    Packed(WORK_LIMIT)
  }

  lemma TargetAtMostEasiest(nBits: int)
    requires Proper(nBits)
    ensures Target(nBits) <= Easiest()
  {
    hide Proper, Packed, Target;
    ProperIsPacked(nBits);
    PackedMonotone(Target(nBits), WORK_LIMIT);
  }
}
