/** The tree of block headers (src/main.h, CBlockIndex) and the search for a fork (src/main.cpp, Reorganize). */
module BlockTree {
  import opened Transactions

  /** Only pnext changes after a block has been added to the tree. */
  class BlockIndex {
    const hash: Hash
    const pprev: BlockIndex?
    const nHeight: nat
    const bnChainWork: int
    const nFile: nat
    const nBlockPos: nat
    const nTime: int
    const nBits: int
    var pnext: BlockIndex?

    constructor (hash: Hash, pprev: BlockIndex?, work: nat, nFile: nat, nBlockPos: nat, nTime: int, nBits: int)
      ensures this.hash == hash && this.pprev == pprev && this.nFile == nFile && this.nBlockPos == nBlockPos
      ensures this.nTime == nTime && this.nBits == nBits && pnext == null
      ensures nHeight == if pprev == null then 0 else pprev.nHeight + 1
      ensures bnChainWork == (if pprev == null then 0 else pprev.bnChainWork) + work
    {
      this.hash, this.pprev, this.nFile, this.nBlockPos := hash, pprev, nFile, nBlockPos;
      this.nTime, this.nBits := nTime, nBits;
      nHeight := if pprev == null then 0 else pprev.nHeight + 1;
      bnChainWork := (if pprev == null then 0 else pprev.bnChainWork) + work;
      pnext := null;
    }
  }

  /** Heights count the steps to a root, and work never shrinks on the way up. */
  ghost predicate Linked(b: BlockIndex)
    decreases b.nHeight
  {
    if b.pprev == null then b.nHeight == 0
    else b.pprev.nHeight + 1 == b.nHeight && b.pprev.bnChainWork <= b.bnChainWork && Linked(b.pprev)
  }

  /** a is b or lies below b. */
  ghost predicate IsAncestor(a: BlockIndex, b: BlockIndex)
    requires Linked(b)
    decreases b.nHeight
  {
    a == b || (b.pprev != null && IsAncestor(a, b.pprev))
  }

  lemma {:induction false} AncestorFacts(a: BlockIndex, b: BlockIndex)
    requires Linked(b) && IsAncestor(a, b)
    ensures Linked(a) && a.nHeight <= b.nHeight && (a.nHeight == b.nHeight ==> a == b)
    decreases b.nHeight
  {
    if a != b {
      AncestorFacts(a, b.pprev);
    }
  }

  lemma {:induction false} AncestorTransitive(a: BlockIndex, b: BlockIndex, c: BlockIndex)
    requires Linked(c) && IsAncestor(b, c) && Linked(b) && IsAncestor(a, b)
    ensures IsAncestor(a, c)
    decreases c.nHeight
  {
    if b != c {
      AncestorTransitive(a, b, c.pprev);
    }
  }

  /** Two ancestors of the same block are ordered. */
  lemma {:induction false} AncestorsChain(a: BlockIndex, b: BlockIndex, c: BlockIndex)
    requires Linked(c) && IsAncestor(a, c) && IsAncestor(b, c) && Linked(b) && a.nHeight <= b.nHeight
    ensures IsAncestor(a, b)
    decreases c.nHeight
  {
    if b != c {
      if a == c {
        AncestorFacts(b, c);
      } else {
        AncestorsChain(a, b, c.pprev);
      }
    }
  }

  ghost predicate CommonAncestor(c: BlockIndex, a: BlockIndex, b: BlockIndex)
    requires Linked(a) && Linked(b)
  {
    IsAncestor(c, a) && IsAncestor(c, b)
  }

  /** The first block on the way down from a that b descends from; null if there is none. */
  ghost function LowestCommonAncestor(a: BlockIndex, b: BlockIndex): BlockIndex?
    requires Linked(a) && Linked(b)
    decreases a.nHeight
  {
    if IsAncestor(a, b) then a
    else if a.pprev == null then null
    else LowestCommonAncestor(a.pprev, b)
  }

  /** It is a common ancestor, and every common ancestor lies at or below it. */
  lemma {:induction false} LowestCommonAncestorIsLowest(a: BlockIndex, b: BlockIndex, c: BlockIndex)
    requires Linked(a) && Linked(b)
    ensures var fork := LowestCommonAncestor(a, b);
      && (fork != null ==> Linked(fork) && CommonAncestor(fork, a, b))
      && (CommonAncestor(c, a, b) ==> fork != null && IsAncestor(c, fork))
    decreases a.nHeight
  {
    AncestorTransitive(a, a, a);
    if !IsAncestor(a, b) {
      if a.pprev != null {
        LowestCommonAncestorIsLowest(a.pprev, b, c);
      }
    } else {
      AncestorFacts(a, b);
    }
  }

  /** A step down from the higher of the two does not change the answer. */
  lemma {:induction false} LcaStepDown(a: BlockIndex, b: BlockIndex)
    requires Linked(a) && Linked(b) && b.nHeight > a.nHeight
    ensures b.pprev != null && LowestCommonAncestor(a, b) == LowestCommonAncestor(a, b.pprev)
    decreases a.nHeight
  {
    if a.pprev != null {
      LcaStepDown(a.pprev, b);
    }
  }

  /** Leaving out blocks that alone make b heavier than a does not change the answer. */
  lemma {:induction false} LcaOfHeavier(a: BlockIndex, b: BlockIndex, c: BlockIndex)
    requires Linked(a) && Linked(b) && Linked(c) && IsAncestor(c, b) && c.bnChainWork > a.bnChainWork
    ensures LowestCommonAncestor(a, b) == LowestCommonAncestor(a, c)
    decreases a.nHeight
  {
    if IsAncestor(a, c) {
      AncestorTransitive(a, c, b);
    } else if IsAncestor(a, b) {
      if a.nHeight <= c.nHeight {
        AncestorsChain(a, c, b);
      } else {
        AncestorsChain(c, a, b);
        AncestorWork(c, a);
      }
      assert false;
    } else if a.pprev != null {
      LcaOfHeavier(a.pprev, b, c);
    }
  }

  lemma {:induction false} AncestorWork(a: BlockIndex, b: BlockIndex)
    requires Linked(b) && IsAncestor(a, b)
    ensures a.bnChainWork <= b.bnChainWork
    decreases b.nHeight
  {
    if a != b {
      AncestorWork(a, b.pprev);
    }
  }

  /** The two cursors walk down from a and b until they meet; null is the source's error return. */
  method FindFork(a: BlockIndex, b: BlockIndex) returns (fork: BlockIndex?)
    requires Linked(a) && Linked(b)
    ensures fork == LowestCommonAncestor(a, b)
  {
    var pfork: BlockIndex := a;
    var longer: BlockIndex := b;
    while pfork != longer
      invariant Linked(pfork) && Linked(longer)
      invariant LowestCommonAncestor(a, b) == LowestCommonAncestor(pfork, longer)
      decreases pfork.nHeight + longer.nHeight
    {
      while longer.nHeight > pfork.nHeight
        invariant Linked(longer)
        invariant LowestCommonAncestor(a, b) == LowestCommonAncestor(pfork, longer)
        decreases longer.nHeight
      {
        // the source also checks for a null pprev here, which a positive height excludes
        LcaStepDown(pfork, longer);
        longer := longer.pprev;
      }
      if pfork == longer {
        break;
      }
      assert !IsAncestor(pfork, longer) by {
        if IsAncestor(pfork, longer) {
          AncestorFacts(pfork, longer);
        }
      }
      if pfork.pprev == null {
        return null;
      }
      pfork := pfork.pprev;
    }
    fork := pfork;
  }
}
