/** The difficulty rule of the main network (src/main.cpp, GetNextWorkRequired). */
module Retarget {
  import opened Bytes
  import opened Bignum
  import opened Compact
  import opened BlockTree

  const TARGET_TIMESPAN := 86400

  /** A day of blocks two minutes apart. */
  const INTERVAL: nat := 720

  const RETARGET_HISTORY_FACT: nat := 4
  const COINFIX1_BLOCK := 15000

  /** The all-ones 256-bit number shifted right by 20. */
  const WORK_LIMIT: nat := 0xfff_ffffffffffffffff_ffffffffffffffff_ffffffffffffffff_ffffffff

  /** Division as C++ and BN_div do it: toward zero. */
  function DivTrunc(a: int, b: nat): (q: int)
    requires b > 0
    ensures if a >= 0 then q * b <= a < (q + 1) * b else (q - 1) * b < a <= q * b
  {
    if a >= 0 then a / b else -((-a) / b)
  }

  function Clamp(x: int, lo: int, hi: int): int {
    if x < lo then lo else if x > hi then hi else x
  }

  /** k blocks below b. */
  ghost function Below(b: BlockIndex?, k: nat): BlockIndex?
    requires b != null ==> Linked(b)
    decreases k
  {
    if k == 0 || b == null then b else Below(b.pprev, k - 1)
  }

  /** The walk down does not leave a complete chain as long as it is no longer than the height. */
  lemma {:induction false} BelowExists(b: BlockIndex, k: nat)
    requires Linked(b) && k <= b.nHeight
    ensures Below(b, k) != null && Linked(Below(b, k)) && Below(b, k).nHeight == b.nHeight - k
    decreases k
  {
    if k > 0 {
      BelowExists(b.pprev, k - 1);
    }
  }

  /** How far to look back: the first retarget cannot reach the block before genesis; later ones average four intervals. */
  function BlocksToGoBack(height: nat): nat {
    if height > COINFIX1_BLOCK then RETARGET_HISTORY_FACT * INTERVAL
    else if height + 1 != INTERVAL then INTERVAL
    else INTERVAL - 1
  }

  predicate IsRetarget(height: nat) {
    (height + 1) % INTERVAL == 0
  }

  /** At a retarget there are always enough blocks to look back: the source's assertion on pindexFirst cannot fail. */
  lemma EnoughHistory(height: nat)
    requires IsRetarget(height)
    ensures BlocksToGoBack(height) <= height
  {
    Multiples(height + 1);
  }

  lemma Multiples(n: nat)
    requires n > 0 && n % 720 == 0
    ensures n == 720 || n >= 1440
  {
  }

  ghost function ActualTimespan(last: BlockIndex): int
    requires Linked(last) && IsRetarget(last.nHeight)
  {
    EnoughHistory(last.nHeight);
    BelowExists(last, BlocksToGoBack(last.nHeight));
    var span := last.nTime - Below(last, BlocksToGoBack(last.nHeight)).nTime;
    if last.nHeight > COINFIX1_BLOCK then DivTrunc(span, RETARGET_HISTORY_FACT) else span
  }

  /** The old target scaled by the clamped timespan and cut off at the limit, before it is packed. */
  function NewTarget(oldTarget: int, actual: int): int {
    var span := Clamp(actual, TARGET_TIMESPAN / 4, TARGET_TIMESPAN * 4);
    var target := DivTrunc(oldTarget * span, TARGET_TIMESPAN);
    if target > WORK_LIMIT then WORK_LIMIT else target
  }

  ghost function NextWork(last: BlockIndex?): int
    requires last != null ==> Linked(last) && 0 <= last.nBits < 0x1_0000_0000
  {
    if last == null then GetCompact(WORK_LIMIT)
    else if !IsRetarget(last.nHeight) then last.nBits
    else GetCompact(NewTarget(SetCompact(last.nBits), ActualTimespan(last)))
  }

  method GetNextWorkRequired(pindexLast: BlockIndex?) returns (nBits: int)
    requires pindexLast != null ==> Linked(pindexLast) && 0 <= pindexLast.nBits < 0x1_0000_0000
    ensures nBits == NextWork(pindexLast)
  {
    hide GetCompact, SetCompact, Linked;
    var nProofOfWorkLimit := GetCompact(WORK_LIMIT);
    if pindexLast == null {
      return nProofOfWorkLimit;
    }
    if (pindexLast.nHeight + 1) % INTERVAL != 0 {
      return pindexLast.nBits;
    }
    var blockstogoback := INTERVAL - 1;
    if pindexLast.nHeight + 1 != INTERVAL {
      blockstogoback := INTERVAL;
    }
    if pindexLast.nHeight > COINFIX1_BLOCK {
      blockstogoback := RETARGET_HISTORY_FACT * INTERVAL;
    }
    var pindexFirst := GoBack(pindexLast, blockstogoback);
    EnoughHistory(pindexLast.nHeight);
    BelowExists(pindexLast, blockstogoback);
    assert pindexFirst != null;
    var nActualTimespan := pindexLast.nTime - pindexFirst.nTime;
    if pindexLast.nHeight > COINFIX1_BLOCK {
      nActualTimespan := DivTrunc(nActualTimespan, RETARGET_HISTORY_FACT);
    }
    if nActualTimespan < TARGET_TIMESPAN / 4 {
      nActualTimespan := TARGET_TIMESPAN / 4;
    }
    if nActualTimespan > TARGET_TIMESPAN * 4 {
      nActualTimespan := TARGET_TIMESPAN * 4;
    }
    var bnNew := SetCompact(pindexLast.nBits);
    bnNew := bnNew * nActualTimespan;
    bnNew := DivTrunc(bnNew, TARGET_TIMESPAN);
    if bnNew > WORK_LIMIT {
      bnNew := WORK_LIMIT;
    }
    nBits := GetCompact(bnNew);
  }

  method GoBack(pindexLast: BlockIndex, blockstogoback: nat) returns (pindexFirst: BlockIndex?)
    requires Linked(pindexLast)
    ensures pindexFirst == Below(pindexLast, blockstogoback)
  {
    pindexFirst := pindexLast;
    var i := 0;
    while pindexFirst != null && i < blockstogoback
      invariant i <= blockstogoback && (pindexFirst != null ==> Linked(pindexFirst))
      invariant Below(pindexLast, blockstogoback) == Below(pindexFirst, blockstogoback - i)
    {
      pindexFirst := pindexFirst.pprev;
      i := i + 1;
    }
  }

  // The scaling law

  /**
   * n is the old target times the timespan per day, rounded toward zero, or the limit if that is lower. The timespan
   * counts as no less than a quarter of a day and no more than four days.
   */
  predicate IsRescaled(oldTarget: int, actual: int, n: int) {
    if actual < 21600 then IsScaled(oldTarget, 21600, n)
    else if actual > 345600 then IsScaled(oldTarget, 345600, n)
    else IsScaled(oldTarget, actual, n)
  }

  predicate IsScaled(oldTarget: int, span: nat, n: int) {
    var product := oldTarget * span;
    if product < 0 then (n - 1) * 86400 < product <= n * 86400
    else 0 <= n <= WORK_LIMIT && n * 86400 <= product && (n < WORK_LIMIT ==> product < (n + 1) * 86400)
  }

  lemma RescaledExactlyWhen(oldTarget: int, actual: int, n: int)
    ensures n == NewTarget(oldTarget, actual) <==> IsRescaled(oldTarget, actual, n)
  {
    var span := if actual < 21600 then 21600 else if actual > 345600 then 345600 else actual;
    ScaledExactlyWhen(oldTarget * span, n);
  }

  lemma ScaledExactlyWhen(product: int, n: int)
    ensures (if DivTrunc(product, 86400) > WORK_LIMIT then WORK_LIMIT else DivTrunc(product, 86400)) == n <==>
            if product < 0 then (n - 1) * 86400 < product <= n * 86400
            else 0 <= n <= WORK_LIMIT && n * 86400 <= product && (n < WORK_LIMIT ==> product < (n + 1) * 86400)
  {
  }

  /** A longer timespan or a larger old target never gives a smaller target. */
  lemma NewTargetMonotone(a: nat, b: nat, short: int, long: int)
    requires a <= b && short <= long
    ensures NewTarget(a, short) <= NewTarget(b, long)
  {
    var s, l := Clamp(short, 21600, 345600), Clamp(long, 21600, 345600);
    ProductMonotone(a, b, s, l);
  }

  lemma ProductMonotone(a: nat, b: nat, s: nat, l: nat)
    requires a <= b && s <= l
    ensures a * s <= b * l
  {
    assert a * s <= b * s <= b * l;
  }

  /** A target within the limit is kept exactly if the timespan is a day, for targets of a day's seconds or more. */
  lemma KeptExactlyWhen(target: nat, actual: int)
    requires 86400 <= target < WORK_LIMIT
    ensures NewTarget(target, actual) == target <==> actual == 86400
  {
    hide NewTarget;
    RescaledExactlyWhen(target, actual, target);
    OtherSpan(target, Clamp(actual, 21600, 345600));
  }

  lemma OtherSpan(target: nat, span: nat)
    requires target >= 86400
    ensures span < 86400 ==> target * span < target * 86400
    ensures span > 86400 ==> target * span >= target * 86400 + 86400
  {
    if span < 86400 {
      assert target * (86400 - span) > 0;
    } else if span > 86400 {
      assert target * (span - 86400) >= target;
    }
  }

  /** What actual is to the span that it averages over k intervals: the quotient, rounded toward zero. */
  predicate IsAverage(span: int, k: nat, actual: int) {
    if span >= 0 then actual * k <= span < (actual + 1) * k else (actual - 1) * k < span <= actual * k
  }

  /** How many blocks below the last one the timespan starts. */
  function Reach(height: nat): nat {
    if height > 15000 then 2880 else if height == 719 then 719 else 720
  }

  /**
   * The bits are kept except at the end of an interval of 720 blocks. There the target is rescaled by the time since
   * the block 720 below, which is the fourth part of that since the block 2880 below from height 15001 on; the first
   * time only 719 blocks are there to look back.
   */
  lemma NextWorkScales(last: BlockIndex, first: BlockIndex) returns (actual: int, n: int)
    requires Linked(last) && 0 <= last.nBits < 0x1_0000_0000 && IsAncestor(first, last)
    requires (last.nHeight + 1) % 720 == 0 ==> last.nHeight - first.nHeight == Reach(last.nHeight)
    ensures (last.nHeight + 1) % 720 != 0 ==> NextWork(last) == last.nBits
    ensures (last.nHeight + 1) % 720 == 0 ==>
      && IsAverage(last.nTime - first.nTime, if last.nHeight > 15000 then 4 else 1, actual)
      && IsRescaled(SetCompact(last.nBits), actual, n) && NextWork(last) == GetCompact(n)
  {
    hide GetCompact, SetCompact, NewTarget, IsRescaled;
    actual, n := 0, 0;
    if (last.nHeight + 1) % 720 == 0 {
      var k := BlocksToGoBack(last.nHeight);
      EnoughHistory(last.nHeight);
      BelowExists(last, k);
      BelowIs(last, first, k);
      actual := ActualTimespan(last);
      n := NewTarget(SetCompact(last.nBits), actual);
      RescaledExactlyWhen(SetCompact(last.nBits), actual, n);
    }
  }

  /** The walk ends at the ancestor that far below. */
  lemma {:induction false} BelowIs(b: BlockIndex, a: BlockIndex, k: nat)
    requires Linked(b) && IsAncestor(a, b) && b.nHeight - a.nHeight == k
    ensures Below(b, k) == a
    decreases k
  {
    if k > 0 {
      BelowIs(b.pprev, a, k - 1);
    } else {
      AncestorFacts(a, b);
    }
  }

  // Bounds

  /** Between a quarter, rounded down, and four times the old target, and never above the limit. */
  lemma NewTargetBounds(oldTarget: nat, actual: int)
    ensures var t := NewTarget(oldTarget, actual);
      Least(oldTarget) <= t <= WORK_LIMIT && t <= 4 * oldTarget
  {
    ScaleBounds(oldTarget, Clamp(actual, TARGET_TIMESPAN / 4, TARGET_TIMESPAN * 4));
  }

  lemma ScaleBounds(target: nat, span: nat)
    requires 21600 <= span <= 345600
    ensures target / 4 <= DivTrunc(target * span, TARGET_TIMESPAN) <= 4 * target
  {
    assert target * 21600 <= target * span <= target * 345600;
    var q := DivTrunc(target * span, TARGET_TIMESPAN);
    assert q * 86400 <= target * 345600 && (q + 1) * 86400 > target * 21600;
  }

  lemma LimitFits(n: nat)
    requires n <= WORK_LIMIT
    ensures |GetVch(n)| < 0x100
  {
    LimitBelowPower();
    GetVchLength(n, 40);
  }

  lemma {:induction false} PowerGrows(k: nat)
    ensures Pow256(k + 8) == 0x1_0000000000000000 * Pow256(k)
  {
    Pow256Values();
    Pow256Sum(8, k);
  }

  lemma LimitBelowPower()
    ensures WORK_LIMIT < Pow256(40)
  {
    PowerGrows(0);
    PowerGrows(8);
    PowerGrows(16);
    PowerGrows(24);
    PowerGrows(32);
  }

  function Least(target: nat): nat {
    if WORK_LIMIT < target / 4 then WORK_LIMIT else target / 4
  }

  /** What packing does to a target within the limit. */
  lemma PackedBounds(n: nat, least: nat)
    requires least <= n && |GetVch(n)| < 0x100
    ensures 0 <= GetCompact(n) < 0x1_0000_0000
    ensures var t := SetCompact(GetCompact(n)); 0 <= t <= n && t * 0x8000 >= least * 0x7fff && (n > 0 ==> t > 0)
  {
    hide SetCompact, GetCompact, GetVch;
    if n > 0 {
      CompactTruncates(n);
      LowerBound(n, SetCompact(GetCompact(n)), least);
    } else {
      CompactOfZero();
    }
  }

  /**
   * A positive target stays within a factor of four and within the limit, up to what packing cuts off: less than one
   * part in 2 to the 15.
   */
  lemma RetargetBounds(last: BlockIndex)
    requires Linked(last) && IsRetarget(last.nHeight) && 0 <= last.nBits < 0x1_0000_0000
    requires SetCompact(last.nBits) > 0
    ensures 0 <= NextWork(last) < 0x1_0000_0000
    ensures var oldTarget, t := SetCompact(last.nBits), SetCompact(NextWork(last));
      && 0 <= t <= WORK_LIMIT && t <= 4 * oldTarget && t * 0x8000 >= Least(oldTarget) * 0x7fff
      && (oldTarget >= 4 ==> t > 0)
  {
    hide SetCompact, GetCompact, NewTarget, ActualTimespan, Linked;
    var oldTarget := SetCompact(last.nBits);
    NewTargetBounds(oldTarget, ActualTimespan(last));
    LimitFits(NewTarget(oldTarget, ActualTimespan(last)));
    hide GetVch;
    PackedBounds(NewTarget(oldTarget, ActualTimespan(last)), Least(oldTarget));
  }

  lemma LowerBound(n: nat, m: nat, least: nat)
    requires m <= n && (n - m) * 0x8000 < n && n >= least
    ensures m * 0x8000 >= least * 0x7fff
  {
  }

  lemma CompactOfZero()
    ensures GetCompact(0) == 0 && SetCompact(0) == 0
  {
    hide FromLittleEndian, Magnitude, Zeros;
    assert GetVch(0) == [] && CompactBytes(0) == [];
  }
}
