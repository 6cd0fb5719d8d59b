/** Chains of headers as values, and the rules for the bits and the time of the next one (src/main.cpp, AcceptBlock). */
module HeaderChain {
  import opened Sequences
  import opened Compact
  import opened Transactions
  import opened BlockTree
  import opened MedianTime
  import opened Retarget
  import opened Packing

  datatype Header = Header(nTime: int, nBits: int)

  /** The timespan that a retarget on top of the chain finds. */
  function Timespan(chain: seq<Header>): int
    requires chain != [] && IsRetarget(|chain| - 1)
  {
    var h := |chain| - 1;
    EnoughHistory(h);
    var span := chain[h].nTime - chain[h - BlocksToGoBack(h)].nTime;
    if h > COINFIX1_BLOCK then DivTrunc(span, RETARGET_HISTORY_FACT) else span
  }

  /** The bits of the next block. */
  function RequiredBits(chain: seq<Header>): (r: int)
    requires chain != [] && Proper(chain[|chain| - 1].nBits)
    ensures Proper(r)
  {
    var last := chain[|chain| - 1];
    if IsRetarget(|chain| - 1) then NextBits(last.nBits, Timespan(chain)) else last.nBits
  }

  function TimesOf(chain: seq<Header>): (r: seq<int>)
    ensures |r| == |chain| && forall i | 0 <= i < |chain| :: r[i] == chain[i].nTime
  {
    if chain == [] then [] else TimesOf(chain[..|chain| - 1]) + [chain[|chain| - 1].nTime]
  }

  /** The last k headers, or all of them. */
  function Tail(chain: seq<Header>, k: nat): seq<Header> {
    chain[|chain| - Min(|chain|, k)..]
  }

  /** The last eleven times, or all of them. */
  function LastTimes(chain: seq<Header>): (r: seq<int>)
    requires chain != []
    ensures r != []
  {
    TimesOf(Tail(chain, MEDIAN_TIME_SPAN))
  }

  lemma LastTimesAre(chain: seq<Header>, j: nat)
    requires chain != []
    ensures |LastTimes(chain)| == Min(|chain|, MEDIAN_TIME_SPAN)
    ensures j < |LastTimes(chain)| ==> LastTimes(chain)[j] == chain[|chain| - |LastTimes(chain)| + j].nTime
  {
  }

  /** The next header has the required bits and a time that a block can carry, above the median time past. */
  predicate Accepts(chain: seq<Header>, next: Header)
    requires chain != []
  {
    && Proper(chain[|chain| - 1].nBits) && next.nBits == RequiredBits(chain)
    && 0 <= next.nTime < 0x1_0000_0000 && next.nTime > Median(LastTimes(chain))
  }

  /** A chain from a genesis block on that keeps both rules. */
  predicate KeepsRules(chain: seq<Header>) {
    && chain != [] && Proper(chain[0].nBits) && 0 <= chain[0].nTime < 0x1_0000_0000
    && forall i | 1 <= i < |chain| :: Accepts(chain[..i], chain[i])
  }

  lemma {:induction false} BitsAreProper(chain: seq<Header>, i: nat)
    requires KeepsRules(chain) && i < |chain|
    ensures Proper(chain[i].nBits)
  {
    hide Proper, RequiredBits, LastTimes, Median;
    if i > 0 {
      assert Accepts(chain[..i], chain[i]);
    }
  }

  // The same rules on the tree of block headers

  ghost function HeadersOf(b: BlockIndex): (r: seq<Header>)
    requires Linked(b)
    ensures |r| == b.nHeight + 1 && r[b.nHeight] == Header(b.nTime, b.nBits)
    decreases b.nHeight
  {
    (if b.pprev == null then [] else HeadersOf(b.pprev)) + [Header(b.nTime, b.nBits)]
  }

  lemma {:induction false} HeaderBelow(b: BlockIndex, k: nat)
    requires Linked(b) && k <= b.nHeight
    ensures Below(b, k) != null && HeadersOf(b)[b.nHeight - k] == Header(Below(b, k).nTime, Below(b, k).nBits)
    decreases k
  {
    if k > 0 {
      HeaderBelow(b.pprev, k - 1);
    }
  }

  lemma TimespanIsActual(b: BlockIndex)
    requires Linked(b) && IsRetarget(b.nHeight)
    ensures Timespan(HeadersOf(b)) == ActualTimespan(b)
  {
    var k := BlocksToGoBack(b.nHeight);
    EnoughHistory(b.nHeight);
    BelowExists(b, k);
    HeaderBelow(b, k);
    hide HeadersOf, Below, BlocksToGoBack, IsRetarget;
  }

  lemma RequiredIsNextWork(b: BlockIndex)
    requires Linked(b) && Proper(b.nBits)
    ensures NextWork(b) == RequiredBits(HeadersOf(b))
  {
    hide HeadersOf, NewTarget, Timespan, ActualTimespan, SetCompact, GetCompact;
    if IsRetarget(b.nHeight) {
      TimespanIsActual(b);
    }
  }

  lemma TailSnoc(chain: seq<Header>, x: Header, k: nat)
    requires k > 0
    ensures Tail(chain + [x], k) == Tail(chain, k - 1) + [x]
    ensures TimesOf(Tail(chain, k - 1) + [x]) == TimesOf(Tail(chain, k - 1)) + [x.nTime]
  {
    var tail := Tail(chain, k - 1);
    assert (tail + [x])[..|tail|] == tail;
  }

  lemma {:induction false} TimesInWindow(b: BlockIndex, k: nat)
    requires Linked(b) && k > 0
    ensures Window(b, k) == TimesOf(Tail(HeadersOf(b), k))
    decreases k
  {
    hide Linked, TimesOf, Tail;
    LinkedBelow(b);
    var below: seq<Header> := if b.pprev == null then [] else HeadersOf(b.pprev);
    TailSnoc(below, Header(b.nTime, b.nBits), k);
    if k > 1 && b.pprev != null {
      TimesInWindow(b.pprev, k - 1);
    } else {
      NoTail(below, k - 1);
    }
  }

  lemma NoTail(chain: seq<Header>, k: nat)
    requires chain == [] || k == 0
    ensures TimesOf(Tail(chain, k)) == []
  {
  }

  lemma MedianIsMedian(b: BlockIndex)
    requires Linked(b)
    ensures MedianTimePast(b) == Median(LastTimes(HeadersOf(b)))
  {
    TimesInWindow(b, MEDIAN_TIME_SPAN);
  }

  /** A header may follow another exactly if the rules of the tree allow it. */
  lemma AcceptedInTree(a: BlockIndex, next: Header)
    requires Linked(a) && Proper(a.nBits)
    ensures Accepts(HeadersOf(a), next) <==>
            next.nBits == NextWork(a) && next.nTime > MedianTimePast(a) && 0 <= next.nTime < 0x1_0000_0000
  {
    RequiredIsNextWork(a);
    MedianIsMedian(a);
    hide Linked, Proper, NextWork, RequiredBits, LastTimes, Median, MedianTimePast, HeadersOf;
    AcceptsParts(HeadersOf(a), next);
  }

  lemma AcceptsParts(chain: seq<Header>, next: Header)
    requires chain != [] && Proper(chain[|chain| - 1].nBits)
    ensures Accepts(chain, next) <==>
            next.nBits == RequiredBits(chain) && next.nTime > Median(LastTimes(chain)) && 0 <= next.nTime < 0x1_0000_0000
  {
    hide Proper, RequiredBits, LastTimes, Median;
  }

  /** Every chain of headers is that of some block. */
  method Realise(chain: seq<Header>) returns (b: BlockIndex)
    requires chain != []
    ensures fresh(b) && Linked(b) && HeadersOf(b) == chain
  {
    b := new BlockIndex(NULL_HASH, null, 0, 0, 0, chain[0].nTime, chain[0].nBits);
    for i := 1 to |chain|
      invariant fresh(b) && Linked(b) && HeadersOf(b) == chain[..i]
    {
      b := new BlockIndex(NULL_HASH, b, 0, 0, 0, chain[i].nTime, chain[i].nBits);
    }
    assert chain[..|chain|] == chain;
  }
}
