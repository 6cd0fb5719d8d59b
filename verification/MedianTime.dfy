/** Median time past and the time rule for new blocks (src/main.h, GetMedianTimePast; src/main.cpp, AcceptBlock). */
module MedianTime {
  import opened BlockTree

  const MEDIAN_TIME_SPAN: nat := 11

  // Sorting, which the source leaves to its library

  predicate Ascending(s: seq<int>) {
    forall i, j | 0 <= i < j < |s| :: s[i] <= s[j]
  }

  function Insert(x: int, s: seq<int>): seq<int> {
    if s == [] || x <= s[0] then [x] + s else [s[0]] + Insert(x, s[1..])
  }

  function Sorted(s: seq<int>): (r: seq<int>)
    ensures |r| == |s|
  {
    if s == [] then [] else
      InsertLength(s[0], Sorted(s[1..]));
      Insert(s[0], Sorted(s[1..]))
  }

  lemma {:induction false} InsertLength(x: int, s: seq<int>)
    ensures |Insert(x, s)| == |s| + 1
  {
    if s != [] && x > s[0] {
      InsertLength(x, s[1..]);
    }
  }

  /** How many elements are at most m. */
  function AtMost(s: seq<int>, m: int): (n: nat)
    ensures n <= |s|
  {
    if s == [] then 0 else (if s[0] <= m then 1 else 0) + AtMost(s[1..], m)
  }

  lemma {:induction false} AtMostInsert(x: int, s: seq<int>, m: int)
    ensures AtMost(Insert(x, s), m) == AtMost(s, m) + (if x <= m then 1 else 0)
  {
    if s == [] || x <= s[0] {
      assert ([x] + s)[1..] == s;
    } else {
      AtMostInsert(x, s[1..], m);
      assert ([s[0]] + Insert(x, s[1..]))[1..] == Insert(x, s[1..]);
    }
  }

  lemma {:induction false} AtMostSorted(s: seq<int>, m: int)
    ensures AtMost(Sorted(s), m) == AtMost(s, m)
  {
    if s != [] {
      AtMostSorted(s[1..], m);
      AtMostInsert(s[0], Sorted(s[1..]), m);
    }
  }

  lemma {:induction false} InsertAscending(x: int, s: seq<int>)
    requires Ascending(s)
    ensures Ascending(Insert(x, s)) && forall y | y in Insert(x, s) :: y == x || y in s
  {
    if s != [] && x > s[0] {
      InsertAscending(x, s[1..]);
      var r := Insert(x, s[1..]);
      forall y | y in r ensures s[0] <= y {
        assert y == x || y in s[1..];
      }
      var c := [s[0]] + r;
      assert forall i | 0 < i < |c| :: c[i] == r[i - 1] && r[i - 1] in r;
    } else {
      assert forall i | 0 < i < |[x] + s| :: ([x] + s)[i] == s[i - 1];
    }
  }

  lemma {:induction false} SortedAscending(s: seq<int>)
    ensures Ascending(Sorted(s))
  {
    if s != [] {
      SortedAscending(s[1..]);
      InsertAscending(s[0], Sorted(s[1..]));
    }
  }

  /** The k-th of an ascending list is at most m exactly if more than k elements are. */
  lemma {:induction false} RankOf(s: seq<int>, k: nat, m: int)
    requires Ascending(s) && k < |s|
    ensures s[k] <= m <==> AtMost(s, m) > k
  {
    assert forall i | 0 <= i < |s| - 1 :: s[1..][i] == s[i + 1];
    if k > 0 {
      RankOf(s[1..], k - 1, m);
    } else if s[0] > m {
      NoneAtMost(s, m);
    }
  }

  lemma {:induction false} NoneAtMost(s: seq<int>, m: int)
    requires forall i | 0 <= i < |s| :: s[i] > m
    ensures AtMost(s, m) == 0
  {
    if s != [] {
      NoneAtMost(s[1..], m);
    }
  }

  // The median

  function Median(times: seq<int>): int
    requires times != []
  {
    Sorted(times)[|times| / 2]
  }

  /** The median is at most m exactly if more than half of the times (rounded down) are. */
  lemma MedianAtMost(times: seq<int>, m: int)
    requires times != []
    ensures Median(times) <= m <==> AtMost(times, m) > |times| / 2
  {
    SortedAscending(times);
    RankOf(Sorted(times), |times| / 2, m);
    AtMostSorted(times, m);
  }

  lemma {:induction false} AtMostSnoc(s: seq<int>, x: int, m: int)
    ensures AtMost(s + [x], m) == AtMost(s, m) + (if x <= m then 1 else 0)
  {
    if s == [] {
      assert s + [x] == [x];
    } else {
      AtMostSnoc(s[1..], x, m);
      assert (s + [x])[1..] == s[1..] + [x];
    }
  }

  /** The window with one more time; at full length the oldest drops out. */
  function Push(times: seq<int>, x: int): seq<int> {
    if |times| < MEDIAN_TIME_SPAN then times + [x] else times[1..] + [x]
  }

  /** A time above the median never lowers the median, for windows of any length. */
  lemma PushKeepsMedian(times: seq<int>, x: int)
    requires times != [] && |times| <= MEDIAN_TIME_SPAN && x > Median(times)
    ensures Median(Push(times, x)) >= Median(times)
  {
    var m := Median(times) - 1;
    MedianAtMost(times, m);
    MedianAtMost(Push(times, x), m);
    AtMostSnoc(if |times| < MEDIAN_TIME_SPAN then times else times[1..], x, m);
  }

  // Along a chain

  /** The times of b and of the blocks below it, oldest first, at most k of them. */
  ghost function Window(b: BlockIndex?, k: nat): (r: seq<int>)
    requires b != null ==> Linked(b)
    ensures |r| <= k && (b != null && k > 0 ==> r != [] && r[|r| - 1] == b.nTime)
    decreases k
  {
    if b == null || k == 0 then [] else Window(b.pprev, k - 1) + [b.nTime]
  }

  ghost function MedianTimePast(b: BlockIndex): int
    requires Linked(b)
  {
    Median(Window(b, MEDIAN_TIME_SPAN))
  }

  lemma Regroup(a: seq<int>, x: int, b: seq<int>)
    ensures a + [x] + b == a + ([x] + b)
  {
  }

  lemma LinkedBelow(b: BlockIndex)
    requires Linked(b)
    ensures b.pprev != null ==> Linked(b.pprev)
  {
  }

  method GetMedianTimePast(b: BlockIndex) returns (median: int)
    requires Linked(b)
    ensures median == MedianTimePast(b)
  {
    hide Linked;
    var pmedian: seq<int> := [];
    assert Window(b, MEDIAN_TIME_SPAN) + [] == Window(b, MEDIAN_TIME_SPAN);
    var pindex: BlockIndex? := b;
    var i: nat := 0;
    while i < MEDIAN_TIME_SPAN && pindex != null
      invariant i <= MEDIAN_TIME_SPAN && (pindex != null ==> Linked(pindex))
      invariant Window(b, MEDIAN_TIME_SPAN) == Window(pindex, MEDIAN_TIME_SPAN - i) + pmedian
    {
      LinkedBelow(pindex);
      Regroup(Window(pindex.pprev, MEDIAN_TIME_SPAN - i - 1), pindex.nTime, pmedian);
      pmedian := [pindex.nTime] + pmedian;
      pindex := pindex.pprev;
      i := i + 1;
    }
    assert [] + pmedian == pmedian;
    pmedian := Sorted(pmedian);
    median := pmedian[|pmedian| / 2];
  }

  /** A shorter window is the end of a longer one. */
  lemma {:induction false} WindowTail(b: BlockIndex?, k: nat)
    requires b != null ==> Linked(b)
    ensures var w, v := Window(b, k + 1), Window(b, k);
      if |w| <= k then v == w else |w| == k + 1 && v == w[1..]
    decreases k
  {
    if b != null && k > 0 {
      WindowTail(b.pprev, k - 1);
      var w := Window(b.pprev, k);
      if |w| == k {
        assert (w + [b.nTime])[1..] == w[1..] + [b.nTime];
      }
    }
  }

  /** The window of a block is that of the block below with its own time pushed. */
  lemma WindowPush(b: BlockIndex)
    requires Linked(b) && b.pprev != null
    ensures Window(b, MEDIAN_TIME_SPAN) == Push(Window(b.pprev, MEDIAN_TIME_SPAN), b.nTime)
  {
    WindowTail(b.pprev, MEDIAN_TIME_SPAN - 1);
  }

  /** AcceptBlock refuses a block whose time is not above the median time past of the block below. */
  ghost predicate TimeAccepted(b: BlockIndex)
    requires Linked(b)
  {
    b.pprev != null ==> b.nTime > MedianTimePast(b.pprev)
  }

  ghost predicate AllAccepted(b: BlockIndex)
    requires Linked(b)
    decreases b.nHeight
  {
    TimeAccepted(b) && (b.pprev != null ==> AllAccepted(b.pprev))
  }

  /** Median time past never decreases along a chain of accepted blocks, its first short windows included. */
  lemma {:induction false} MedianNeverDecreases(a: BlockIndex, b: BlockIndex)
    requires Linked(b) && AllAccepted(b) && IsAncestor(a, b)
    ensures Linked(a) && MedianTimePast(a) <= MedianTimePast(b)
    decreases b.nHeight
  {
    if a != b {
      MedianNeverDecreases(a, b.pprev);
      WindowPush(b);
      PushKeepsMedian(Window(b.pprev, MEDIAN_TIME_SPAN), b.nTime);
    }
  }

  /** So every accepted block is later than the median of any block below it. */
  lemma LaterThanAllMedians(a: BlockIndex, b: BlockIndex)
    requires Linked(b) && AllAccepted(b) && IsAncestor(a, b) && a != b
    ensures Linked(a) && MedianTimePast(a) < b.nTime
  {
    MedianNeverDecreases(a, b.pprev);
  }

  /** UpdateTime: the earliest time from now on that the rule accepts. */
  method UpdateTime(pindexPrev: BlockIndex, now: int) returns (nTime: int)
    requires Linked(pindexPrev)
    ensures nTime > MedianTimePast(pindexPrev) && nTime >= now
    ensures nTime == MedianTimePast(pindexPrev) + 1 || nTime == now
  {
    var past := GetMedianTimePast(pindexPrev);
    nTime := if past + 1 > now then past + 1 else now;
  }
}
