/** How easy a block may be some time after another one (src/main.cpp, ComputeMinWork). */
module MinWork {
  import opened Sequences
  import opened Bytes
  import opened Bignum
  import opened Compact
  import opened MedianTime
  import opened Retarget
  import opened Packing
  import opened HeaderChain

  const LONGEST_TIMESPAN := 345600

  /** How many periods of the longest timespan were begun. */
  function Periods(nTime: int): nat
    decreases nTime
  {
    if nTime <= 0 then 0 else 1 + Periods(nTime - LONGEST_TIMESPAN)
  }

  function Pow4(k: nat): (r: nat)
    ensures r > 0
  {
    if k == 0 then 1 else 4 * Pow4(k - 1)
  }

  function Capped(target: int): int {
    if target > WORK_LIMIT then WORK_LIMIT else target
  }

  /** Four times the target for every period begun. */
  function MinTarget(base: int, nTime: int): (r: int)
    ensures r <= WORK_LIMIT && (base >= 0 ==> r >= 0)
  {
    Capped(base * Pow4(Periods(nTime)))
  }

  function MinWork(nBase: UInt32, nTime: int): nat {
    GetCompact(MinTarget(SetCompact(nBase), nTime))
  }

  /** On the main network. */
  method ComputeMinWork(nBase: UInt32, nTime: int) returns (nBits: nat)
    ensures nBits == MinWork(nBase, nTime)
  {
    hide GetCompact, SetCompact;
    var bnResult, t := SetCompact(nBase), nTime;
    while t > 0 && bnResult < WORK_LIMIT
      invariant Capped(bnResult * Pow4(Periods(t))) == MinTarget(SetCompact(nBase), nTime)
      decreases t
    {
      OnePeriod(bnResult, t);
      bnResult := bnResult * 4;
      t := t - TARGET_TIMESPAN * 4;
    }
    Stops(bnResult, Pow4(Periods(t)), t);
    if bnResult > WORK_LIMIT {
      bnResult := WORK_LIMIT;
    }
    nBits := GetCompact(bnResult);
  }

  lemma OnePeriod(n: int, t: int)
    requires t > 0
    ensures n * Pow4(Periods(t)) == (n * 4) * Pow4(Periods(t - LONGEST_TIMESPAN))
  {
    assert n * (4 * Pow4(Periods(t - LONGEST_TIMESPAN))) == (n * 4) * Pow4(Periods(t - LONGEST_TIMESPAN));
  }

  lemma Stops(n: int, p: nat, t: int)
    requires p > 0 && p == Pow4(Periods(t)) && (t <= 0 || n >= WORK_LIMIT)
    ensures Capped(n * p) == Capped(n)
  {
    if t > 0 {
      assert n * p >= n * 1;
    }
  }

  lemma {:induction false} Pow4Monotone(i: nat, j: nat)
    requires i <= j
    ensures Pow4(i) <= Pow4(j)
  {
    if i < j {
      Pow4Monotone(i, j - 1);
    }
  }

  lemma {:induction false} Pow4Of4(k: nat)
    ensures Pow4(4 * k) == Pow256(k)
  {
    if k > 0 {
      Pow4Of4(k - 1);
      assert Pow4(4 * k) == 4 * Pow4(4 * k - 1) && Pow4(4 * k - 1) == 4 * Pow4(4 * k - 2);
      assert Pow4(4 * k - 2) == 4 * Pow4(4 * k - 3) && Pow4(4 * k - 3) == 4 * Pow4(4 * k - 4);
    }
  }

  // What the minimum promises

  /** The target the minimum stands for. */
  function MinAllowed(nBits: int, nTime: int): (r: nat)
    requires Proper(nBits)
    ensures r <= WORK_LIMIT
  {
    Packed(MinTarget(Target(nBits), nTime))
  }

  /** Some block so much later than one with these bits is above the minimum, and so refused by ProcessBlock. */
  ghost predicate RefusedAt(chain: seq<Header>, c: nat) {
    && c < |chain| && KeepsRules(chain) && Proper(chain[c].nBits) && Proper(chain[|chain| - 1].nBits)
    && Target(chain[|chain| - 1].nBits) > MinAllowed(chain[c].nBits, chain[|chain| - 1].nTime - chain[c].nTime)
  }

  /** No chain that keeps the rules gets past the minimum in this time after a block with these bits. */
  ghost predicate IsMinimum(nBits: int, nTime: int) {
    forall chain: seq<Header>, c: nat |
      c < |chain| && chain[c].nBits == nBits && chain[|chain| - 1].nTime - chain[c].nTime == nTime ::
      !RefusedAt(chain, c)
  }

  /** A target of zero stays zero. */
  lemma {:induction false} ZeroStays(chain: seq<Header>, c: nat, i: nat)
    requires KeepsRules(chain) && c <= i < |chain| && Proper(chain[c].nBits) && Target(chain[c].nBits) == 0
    ensures Proper(chain[i].nBits) && Target(chain[i].nBits) == 0
  {
    hide Accepts, Proper, Target;
    if c < i {
      ZeroStays(chain, c, i - 1);
      ZeroNext(chain[..i], chain[i]);
    }
  }

  lemma ZeroNext(chain: seq<Header>, next: Header)
    requires chain != [] && Accepts(chain, next) && Target(chain[|chain| - 1].nBits) == 0
    ensures Proper(next.nBits) && Target(next.nBits) == 0
  {
    hide Median, LastTimes, Timespan, Proper, Target, NextBits;
    if IsRetarget(|chain| - 1) {
      NextOfZero(chain[|chain| - 1].nBits, Timespan(chain));
    }
  }

  lemma NextOfZero(nBits: int, actual: int)
    requires Proper(nBits) && Target(nBits) == 0
    ensures Target(NextBits(nBits, actual)) == 0
  {
    NewTargetBounds(0, actual);
    PackedFacts(NewTarget(0, actual));
    hide SetCompact, GetCompact, NewTarget;
  }

  lemma NotRefused(chain: seq<Header>, c: nat)
    requires c < |chain| && KeepsRules(chain) && Proper(chain[c].nBits)
    requires var x, nTime := Target(chain[c].nBits), chain[|chain| - 1].nTime - chain[c].nTime;
      x == 0 || x * Pow4(Periods(nTime)) >= Easiest()
    ensures !RefusedAt(chain, c)
  {
    hide KeepsRules, Proper, Target, Packed, Periods, Pow4;
    var n := |chain| - 1;
    BitsAreProper(chain, n);
    TargetAtMostEasiest(chain[n].nBits);
    if Target(chain[c].nBits) == 0 {
      ZeroStays(chain, c, n);
    } else {
      PackedTwice(WORK_LIMIT);
      LargerPacked(MinTarget(Target(chain[c].nBits), chain[n].nTime - chain[c].nTime));
    }
  }

  lemma LargerPacked(n: nat)
    requires Easiest() <= n <= WORK_LIMIT
    ensures Packed(n) >= Easiest()
  {
    hide Packed;
    PackedTwice(WORK_LIMIT);
    PackedMonotone(Easiest(), n);
  }

  // Retargets after the longest timespan

  /** Four times the target, cut off at the limit and packed. */
  function Fourfold(y: nat): (r: nat)
    requires y <= WORK_LIMIT
    ensures r <= WORK_LIMIT
  {
    Packed(Capped(4 * y))
  }

  lemma FourTimes(y: nat)
    ensures NewTarget(y, LONGEST_TIMESPAN) == Capped(4 * y)
  {
    var q := DivTrunc(y * LONGEST_TIMESPAN, TARGET_TIMESPAN);
    assert q * TARGET_TIMESPAN <= (4 * y) * TARGET_TIMESPAN < (q + 1) * TARGET_TIMESPAN;
  }

  /** A longer timespan does no more than the longest. */
  lemma LongerIsLongest(nBits: int, span: int)
    requires Proper(nBits) && span >= LONGEST_TIMESPAN
    ensures NextBits(nBits, span) == NextBits(nBits, LONGEST_TIMESPAN)
  {
    hide SetCompact, GetCompact;
    assert NewTarget(Target(nBits), span) == NewTarget(Target(nBits), LONGEST_TIMESPAN);
  }

  /** The bits after so many retargets of that kind. */
  function Grown(nBits: int, k: nat): (r: int)
    requires Proper(nBits)
    ensures Proper(r)
  {
    if k == 0 then nBits else NextBits(Grown(nBits, k - 1), LONGEST_TIMESPAN)
  }

  lemma NextIsFourfold(nBits: int)
    requires Proper(nBits)
    ensures Target(NextBits(nBits, LONGEST_TIMESPAN)) == Fourfold(Target(nBits))
  {
    hide SetCompact, GetCompact, NewTarget, Capped;
    FourTimes(Target(nBits));
  }

  /** n but for what k packings cut off, up to the limit. */
  ghost predicate Nearly(n: nat, k: nat, y: nat) {
    y >= Easiest() || y * 0x8000 >= n * (0x8000 - k)
  }

  lemma NearlyStep(n: nat, k: nat, y: nat, z: nat)
    requires k < 0x8000 && y * 0x8000 >= n * (0x8000 - k) && z * 0x8000 >= (4 * y) * 0x7fff
    ensures z * 0x8000 >= (4 * n) * (0x8000 - (k + 1))
  {
    var m := 0x8000 - k;
    assert (n * m) * 0x7fff == n * (m * 0x7fff);
    AtLeast(n, (m - 1) * 0x8000, m * 0x7fff);
    assert n * ((m - 1) * 0x8000) == (n * (m - 1)) * 0x8000;
  }

  lemma FourfoldLarge(y: nat)
    requires Easiest() <= y <= WORK_LIMIT
    ensures Fourfold(y) >= Easiest()
  {
    hide Packed;
    LargerPacked(Capped(4 * y));
  }

  lemma FourfoldSmall(y: nat)
    requires y <= WORK_LIMIT
    ensures Fourfold(y) >= Easiest() || Fourfold(y) * 0x8000 >= (4 * y) * 0x7fff
  {
    hide Packed;
    if 4 * y <= WORK_LIMIT {
      PackedLoss(4 * y);
    }
  }

  lemma NearlyNext(n: nat, k: nat, y: nat)
    requires k < 0x8000 && y <= WORK_LIMIT && Nearly(n, k, y)
    ensures Nearly(4 * n, k + 1, Fourfold(y))
  {
    hide Easiest, Fourfold;
    if y >= Easiest() {
      FourfoldLarge(y);
    } else {
      FourfoldSmall(y);
      if Fourfold(y) < Easiest() {
        NearlyStep(n, k, y, Fourfold(y));
      }
    }
  }

  function Product(a: nat, b: nat): nat {
    a * b
  }

  lemma ProductOfPower(x: nat, k: nat)
    ensures Product(x, Pow4(k + 1)) == 4 * Product(x, Pow4(k)) && Product(x, Pow4(0)) == x
  {
    assert x * (4 * Pow4(k)) == 4 * (x * Pow4(k));
  }

  lemma {:induction false} GrownNearly(nBits: int, k: nat)
    requires Proper(nBits) && k <= 0x8000
    ensures Nearly(Product(Target(nBits), Pow4(k)), k, Target(Grown(nBits, k)))
  {
    hide Proper, Target, Easiest, Product, Pow4;
    if k == 0 {
      ProductOfPower(Target(nBits), 0);
    } else {
      hide Nearly, Fourfold, NextBits;
      GrownNearly(nBits, k - 1);
      NextIsFourfold(Grown(nBits, k - 1));
      ProductOfPower(Target(nBits), k - 1);
      NearlyNext(Product(Target(nBits), Pow4(k - 1)), k - 1, Target(Grown(nBits, k - 1)));
    }
  }

  lemma FewPeriods(x: nat, p: nat)
    requires x > 0 && Product(x, Pow4(p)) <= WORK_LIMIT
    ensures p < 160
  {
    if p >= 160 {
      AtLeast(Pow4(p), 1, x);
      Pow4Monotone(160, p);
      Pow4Of4(40);
      LimitBelowPower();
    }
  }

  lemma Overtakes(n: nat, k: nat, y: nat)
    requires n > 0 && k <= 161 && y * 0x8000 >= (4 * n) * (0x8000 - k)
    ensures y > n
  {
    AtLeast(4 * n, 0x8000 - 161, 0x8000 - k);
  }

  /** One retarget more than periods gets past the minimum unless that is the easiest target anyway. */
  lemma GrownOvertakes(nBits: int, p: nat)
    requires Proper(nBits) && Target(nBits) > 0 && Product(Target(nBits), Pow4(p)) < Easiest()
    ensures p < 160 && Target(Grown(nBits, p + 1)) > Product(Target(nBits), Pow4(p))
  {
    hide Proper, Target, Easiest, Grown;
    var x := Target(nBits);
    FewPeriods(x, p);
    GrownNearly(nBits, p + 1);
    ProductOfPower(x, p);
    AtLeast(x, 1, Pow4(p));
    if Target(Grown(nBits, p + 1)) < Easiest() {
      Overtakes(Product(x, Pow4(p)), p + 1, Target(Grown(nBits, p + 1)));
    }
  }

  // A chain with such retargets

  const INTERVAL_TIME := 400_000

  /**
   * The last block of every interval is dated four days after the one before, all others a second after their
   * predecessor; the n-th block comes nTime after the end of the first interval.
   */
  function TimeAt(i: nat, n: nat, nTime: int): int {
    if i == n then INTERVAL_TIME + nTime
    else if IsRetarget(i) then INTERVAL_TIME + LONGEST_TIMESPAN * ((i + 1) / INTERVAL - 1)
    else i
  }

  /** bits[k] are the bits of the k-th interval. */
  function FastHeader(bits: seq<int>, n: nat, nTime: int, i: nat): Header
    requires i / INTERVAL < |bits|
  {
    Header(TimeAt(i, n, nTime), bits[i / INTERVAL])
  }

  predicate LongEnough(bits: seq<int>, length: nat) {
    length <= INTERVAL * |bits|
  }

  function FastChain(bits: seq<int>, n: nat, nTime: int, length: nat): (r: seq<Header>)
    requires LongEnough(bits, length)
    ensures |r| == length
  {
    if length == 0 then []
    else FastChain(bits, n, nTime, length - 1) + [FastHeader(bits, n, nTime, length - 1)]
  }

  lemma {:induction false} FastAt(bits: seq<int>, n: nat, nTime: int, length: nat, i: nat)
    requires LongEnough(bits, length) && i < length
    ensures i / INTERVAL < |bits| && LongEnough(bits, i)
    ensures FastChain(bits, n, nTime, length)[i] == FastHeader(bits, n, nTime, i)
    ensures FastChain(bits, n, nTime, length)[..i] == FastChain(bits, n, nTime, i)
  {
    hide FastHeader;
    if i < length - 1 {
      FastAt(bits, n, nTime, length - 1, i);
    }
  }

  lemma IntervalEnds(k: nat)
    requires k > 0
    ensures IsRetarget(INTERVAL * k - 1) && INTERVAL * k / INTERVAL == k
  {
  }

  lemma TimeAtEnd(k: nat, n: nat, nTime: int)
    requires k > 0 && INTERVAL * k <= n
    ensures TimeAt(INTERVAL * k - 1, n, nTime) == INTERVAL_TIME + LONGEST_TIMESPAN * (k - 1)
  {
    IntervalEnds(k);
  }

  lemma TimeAtGenesis(n: nat, nTime: int)
    requires n > 0
    ensures TimeAt(0, n, nTime) == 0
  {
  }

  /** At the end of its k-th interval the chain finds the longest timespan or, the first time, a longer one. */
  lemma FastTimespan(bits: seq<int>, n: nat, nTime: int, k: nat)
    requires 0 < k <= |bits| && INTERVAL * k <= n
    ensures LongEnough(bits, INTERVAL * k) && IsRetarget(INTERVAL * k - 1)
    ensures Timespan(FastChain(bits, n, nTime, INTERVAL * k)) >= LONGEST_TIMESPAN
  {
    hide FastChain, IsRetarget, TimeAt;
    IntervalEnds(k);
    var h := INTERVAL * k - 1;
    var back := BlocksToGoBack(h);
    EnoughHistory(h);
    FastAt(bits, n, nTime, h + 1, h);
    FastAt(bits, n, nTime, h + 1, h - back);
    TimeAtEnd(k, n, nTime);
    if h > COINFIX1_BLOCK {
      TimeAtEnd(k - 4, n, nTime);
    } else if k > 1 {
      TimeAtEnd(k - 1, n, nTime);
    } else {
      TimeAtGenesis(n, nTime);
    }
  }

  lemma {:induction false} AllButOne(s: seq<int>, m: int, at: int)
    requires forall i | 0 <= i < |s| && i != at :: s[i] <= m
    ensures AtMost(s, m) >= |s| - (if 0 <= at < |s| then 1 else 0)
  {
    if s != [] {
      AllButOne(s[1..], m, at - 1);
    }
  }

  /** The bits grow fourfold from interval to interval. */
  predicate AllGrown(bits: seq<int>) {
    && (forall k | 0 <= k < |bits| :: Proper(bits[k]))
    && forall k | 0 < k < |bits| :: bits[k] == NextBits(bits[k - 1], LONGEST_TIMESPAN)
  }

  lemma {:induction false} GrownBits(nBits: int, k: nat) returns (bits: seq<int>)
    requires Proper(nBits)
    ensures |bits| == k + 1 && AllGrown(bits) && forall i | 0 <= i <= k :: bits[i] == Grown(nBits, i)
  {
    hide Proper, NextBits;
    if k == 0 {
      bits := [nBits];
    } else {
      var fewer := GrownBits(nBits, k - 1);
      bits := fewer + [Grown(nBits, k)];
    }
  }

  /** Within an interval the bits stay, at its end they grow. */
  lemma FastBits(bits: seq<int>, n: nat, nTime: int, i: nat)
    requires AllGrown(bits) && 0 < i <= n && LongEnough(bits, i + 1)
    ensures i / INTERVAL < |bits|
    ensures var chain := FastChain(bits, n, nTime, i);
      Proper(chain[i - 1].nBits) && RequiredBits(chain) == bits[i / INTERVAL]
  {
    hide Proper, FastChain, Timespan, NextBits;
    FastAt(bits, n, nTime, i, i - 1);
    var k := i / INTERVAL;
    if IsRetarget(i - 1) {
      assert i == INTERVAL * k && (i - 1) / INTERVAL == k - 1;
      FastTimespan(bits, n, nTime, k);
      LongerIsLongest(bits[k - 1], Timespan(FastChain(bits, n, nTime, i)));
    } else {
      SameInterval(i);
    }
  }

  lemma SameInterval(i: nat)
    requires i > 0 && !IsRetarget(i - 1)
    ensures (i - 1) / INTERVAL == i / INTERVAL
  {
  }

  /** The last end of an interval below i. */
  function LastEnd(i: nat): int {
    i / INTERVAL * INTERVAL - 1
  }

  lemma NotAnEnd(i: nat, j: nat)
    requires j < i <= j + MEDIAN_TIME_SPAN && j != LastEnd(i)
    ensures !IsRetarget(j)
  {
  }

  /** All others in the window are dated no later than their height. */
  lemma FastDated(bits: seq<int>, n: nat, nTime: int, i: nat, j: nat)
    requires LongEnough(bits, i) && 0 < i <= n && j < |LastTimes(FastChain(bits, n, nTime, i))|
    requires i - |LastTimes(FastChain(bits, n, nTime, i))| + j != LastEnd(i)
    ensures LastTimes(FastChain(bits, n, nTime, i))[j] <= i - 1
  {
    hide FastChain, LastTimes;
    var chain := FastChain(bits, n, nTime, i);
    LastTimesAre(chain, j);
    var k := i - |LastTimes(chain)| + j;
    FastAt(bits, n, nTime, i, k);
    NotAnEnd(i, k);
  }

  lemma FastMedian(bits: seq<int>, n: nat, nTime: int, i: nat)
    requires LongEnough(bits, i) && 0 < i <= n
    ensures Median(LastTimes(FastChain(bits, n, nTime, i))) <= i - 1
  {
    hide FastChain, LastTimes, Median, LastEnd;
    var w := LastTimes(FastChain(bits, n, nTime, i));
    var at := LastEnd(i) - (i - |w|);
    LastTimesAre(FastChain(bits, n, nTime, i), 0);
    forall j | 0 <= j < |w| && j != at ensures w[j] <= i - 1 {
      FastDated(bits, n, nTime, i, j);
    }
    AllButOne(w, i - 1, at);
    if |w| < 3 {
      ShortWindow(i, |w|);
    }
    MedianAtMost(w, i - 1);
  }

  /** A window that short reaches no end of an interval. */
  lemma ShortWindow(i: nat, size: nat)
    requires 0 < i && size == Min(i, MEDIAN_TIME_SPAN) && size < 3
    ensures LastEnd(i) - (i - size) < 0
  {
  }

  lemma FastInRange(n: nat, nTime: int, i: nat)
    requires 0 < i <= n <= 161 * INTERVAL && 0 <= nTime <= 160 * LONGEST_TIMESPAN
    ensures i - 1 < TimeAt(i, n, nTime) < 0x1_0000_0000
  {
  }

  lemma FastAccepted(bits: seq<int>, n: nat, nTime: int, i: nat)
    requires AllGrown(bits) && LongEnough(bits, i + 1)
    requires 0 < i <= n <= 161 * INTERVAL && 0 <= nTime <= 160 * LONGEST_TIMESPAN
    ensures i / INTERVAL < |bits| && Accepts(FastChain(bits, n, nTime, i), FastHeader(bits, n, nTime, i))
  {
    hide FastChain, AllGrown, Proper, RequiredBits, LastTimes, Median, TimeAt;
    FastBits(bits, n, nTime, i);
    FastMedian(bits, n, nTime, i);
    FastInRange(n, nTime, i);
  }

  lemma FastKeepsRules(bits: seq<int>, n: nat, nTime: int)
    requires AllGrown(bits) && LongEnough(bits, n + 1) && 0 < n <= 161 * INTERVAL && 0 <= nTime <= 160 * LONGEST_TIMESPAN
    ensures KeepsRules(FastChain(bits, n, nTime, n + 1))
  {
    hide FastChain, Proper, Accepts, TimeAt;
    var chain := FastChain(bits, n, nTime, n + 1);
    FastAt(bits, n, nTime, n + 1, 0);
    TimeAtGenesis(n, nTime);
    forall i | 1 <= i < |chain| ensures Accepts(chain[..i], chain[i]) {
      hide FastHeader, AllGrown;
      FastAt(bits, n, nTime, n + 1, i);
      FastAccepted(bits, n, nTime, i);
    }
  }

  lemma {:induction false} PeriodsBegun(nTime: int)
    requires nTime > 0
    ensures LONGEST_TIMESPAN * (Periods(nTime) - 1) < nTime <= LONGEST_TIMESPAN * Periods(nTime)
    decreases nTime
  {
    if nTime > LONGEST_TIMESPAN {
      PeriodsBegun(nTime - LONGEST_TIMESPAN);
    }
  }

  /** The two headers that are compared: the last of the first interval and the first of the last. */
  lemma FastEnds(bits: seq<int>, p: nat, nTime: int)
    requires |bits| == p + 2
    ensures var n := INTERVAL * (p + 1);
      && FastHeader(bits, n, nTime, INTERVAL - 1) == Header(INTERVAL_TIME, bits[0])
      && FastHeader(bits, n, nTime, n) == Header(INTERVAL_TIME + nTime, bits[p + 1])
  {
    var n := INTERVAL * (p + 1);
    TimeAtEnd(1, n, nTime);
    IntervalEnds(p + 1);
  }

  /** A chain that keeps the rules and is refused. */
  lemma FastRefused(nBits: int, nTime: int) returns (chain: seq<Header>, c: nat)
    requires Proper(nBits) && nTime >= 0 && Target(nBits) > 0
    requires Product(Target(nBits), Pow4(Periods(nTime))) < Easiest()
    ensures c < |chain| && chain[c].nBits == nBits && chain[|chain| - 1].nTime - chain[c].nTime == nTime
    ensures RefusedAt(chain, c)
  {
    hide Proper, FastChain, FastHeader, KeepsRules, Target, Pow4, Packed, Easiest, MinAllowed, Product, NextBits;
    var p := Periods(nTime);
    GrownOvertakes(nBits, p);
    if nTime > 0 {
      PeriodsBegun(nTime);
    }
    var bits := GrownBits(nBits, p + 1);
    hide Periods, AllGrown;
    var n := INTERVAL * (p + 1);
    c := INTERVAL - 1;
    chain := FastChain(bits, n, nTime, n + 1);
    FastKeepsRules(bits, n, nTime);
    FastAt(bits, n, nTime, n + 1, n);
    FastAt(bits, n, nTime, n + 1, c);
    FastEnds(bits, p, nTime);
    MinAllowedAtMost(nBits, nTime);
  }

  lemma MinAllowedAtMost(nBits: int, nTime: int)
    requires Proper(nBits)
    ensures MinAllowed(nBits, nTime) <= Product(Target(nBits), Pow4(Periods(nTime)))
  {
    hide Proper, Target, Pow4, Periods;
  }

  /**
   * After a given time the result is a minimum exactly if the base target is zero or fourfold for every period begun
   * makes it the easiest target.
   */
  lemma MinimumExactlyWhen(nBits: int, nTime: int)
    requires Proper(nBits) && nTime >= 0
    ensures IsMinimum(nBits, nTime) <==> (Target(nBits) == 0 || Target(nBits) * Pow4(Periods(nTime)) >= Easiest())
  {
    hide Proper, Target, Easiest, RefusedAt, KeepsRules, Periods, Pow4;
    if Target(nBits) == 0 || Target(nBits) * Pow4(Periods(nTime)) >= Easiest() {
      forall chain: seq<Header>, c: nat |
        c < |chain| && chain[c].nBits == nBits && chain[|chain| - 1].nTime - chain[c].nTime == nTime
        ensures !RefusedAt(chain, c)
      {
        if KeepsRules(chain) {
          NotRefused(chain, c);
        } else {
          NeedsRules(chain, c);
        }
      }
    } else {
      var chain, c := FastRefused(nBits, nTime);
    }
  }

  lemma NeedsRules(chain: seq<Header>, c: nat)
    requires !KeepsRules(chain)
    ensures !RefusedAt(chain, c)
  {
    hide KeepsRules;
  }

  /** So it is a minimum after every time exactly if the base target is zero or itself the easiest. */
  lemma AlwaysMinimumExactlyWhen(nBits: int)
    requires Proper(nBits)
    ensures (forall nTime: int | nTime >= 0 :: IsMinimum(nBits, nTime)) <==> (Target(nBits) == 0 || Target(nBits) == Easiest())
  {
    hide Proper, Target, Easiest, IsMinimum, Periods;
    TargetAtMostEasiest(nBits);
    assert Periods(0) == 0 by {
      NoPeriods();
    }
    if Target(nBits) == 0 || Target(nBits) == Easiest() {
      forall nTime: int | nTime >= 0 ensures IsMinimum(nBits, nTime) {
        AtLeast(Target(nBits), 1, Pow4(Periods(nTime)));
        MinimumExactlyWhen(nBits, nTime);
      }
    } else {
      MinimumExactlyWhen(nBits, 0);
      assert !IsMinimum(nBits, 0);
    }
  }

  lemma NoPeriods()
    ensures Periods(0) == 0
  {
  }
}
