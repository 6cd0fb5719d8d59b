/** The best chain: extending it, switching to another branch, and what the database then holds (src/main.cpp). */
module ChainState {
  import opened Sequences
  import opened Compact
  import opened Wrappers
  import opened Bytes
  import opened Transactions
  import opened BlockTree
  import opened Ledger
  import opened Supply
  import opened BlockConnection

  // What the index should be

  ghost function BlockAt(rules: Rules, b: BlockIndex): Option<Block> {
    rules.readBlock(b.nFile, b.nBlockPos)
  }

  /** Reads the block back and connects it. */
  ghost function ConnectStep(rules: Rules, checkScripts: bool, ix: Index, b: BlockIndex): Option<Index> {
    match BlockAt(rules, b)
    case None => None
    case Some(block) => Connect(rules, ix, b, checkScripts, block)
  }

  /**
   * Connecting every block on the path from genesis, which itself is never connected. Signatures are not
   * looked at again: they decide whether a block connects, not what it does.
   */
  ghost function Replay(rules: Rules, b: BlockIndex): Option<Index>
    requires Linked(b)
    decreases b.nHeight
  {
    if b.pprev == null then Some(map[])
    else
      match Replay(rules, b.pprev)
      case None => None
      case Some(ix) => ConnectStep(rules, false, ix, b)
  }

  /** No block on the path reused a transaction id that was indexed when it was connected. */
  ghost predicate FreshPath(rules: Rules, b: BlockIndex)
    requires Linked(b) && Replay(rules, b).Some?
    decreases b.nHeight
  {
    b.pprev != null ==>
      FreshPath(rules, b.pprev) && Fresh(rules, Replay(rules, b.pprev).value, BlockAt(rules, b).value)
  }

  /** None of the blocks above fork up to top did. */
  ghost predicate FreshAbove(rules: Rules, fork: BlockIndex, top: BlockIndex)
    requires Linked(top) && IsAncestor(fork, top) && Replay(rules, top).Some?
    decreases top.nHeight
  {
    top != fork ==>
      FreshAbove(rules, fork, top.pprev) && Fresh(rules, Replay(rules, top.pprev).value, BlockAt(rules, top).value)
  }

  lemma {:induction false} FreshPathIsFreshAbove(rules: Rules, fork: BlockIndex, top: BlockIndex)
    requires Linked(top) && IsAncestor(fork, top) && Replay(rules, top).Some? && FreshPath(rules, top)
    ensures FreshAbove(rules, fork, top)
    decreases top.nHeight
  {
    if top != fork {
      FreshPathIsFreshAbove(rules, fork, top.pprev);
    }
  }

  /** No block from top down to where the path to b leaves it did. */
  ghost predicate FreshToFork(rules: Rules, top: BlockIndex, b: BlockIndex)
    requires Linked(top) && Linked(b) && Replay(rules, top).Some?
  {
    LowestCommonAncestorIsLowest(top, b, top);
    var fork := LowestCommonAncestor(top, b);
    fork != null ==> FreshAbove(rules, fork, top)
  }

  /** The block at b connects to the replay of the chain below where b's branch leaves the one to best, and so do all below. */
  ghost predicate Connectable(rules: Rules, checkScripts: bool, best: BlockIndex, b: BlockIndex)
    requires Linked(best) && Linked(b)
  {
    LowestCommonAncestorIsLowest(best, b, best);
    var fork := LowestCommonAncestor(best, b);
    fork != null && Replay(rules, fork).Some? && ConnectUp(rules, checkScripts, Replay(rules, fork).value, fork, b).Some?
  }

  /** Disconnects the blocks from top down to, not including, fork. */
  ghost function DisconnectDown(rules: Rules, ix: Index, fork: BlockIndex, top: BlockIndex): Option<Index>
    requires Linked(top) && IsAncestor(fork, top)
    decreases top.nHeight
  {
    if top == fork then Some(ix)
    else
      match BlockAt(rules, top)
      case None => None
      case Some(block) =>
        match Disconnect(rules, ix, block)
        case None => None
        case Some(ix') => DisconnectDown(rules, ix', fork, top.pprev)
  }

  /** Connects the blocks above fork up to and including top. */
  ghost function ConnectUp(rules: Rules, checkScripts: bool, ix: Index, fork: BlockIndex, top: BlockIndex): Option<Index>
    requires Linked(top) && IsAncestor(fork, top)
    decreases top.nHeight
  {
    if top == fork then Some(ix)
    else
      match ConnectUp(rules, checkScripts, ix, fork, top.pprev)
      case None => None
      case Some(ix') => ConnectStep(rules, checkScripts, ix', top)
  }

  // Checking signatures only rules results out

  lemma ConnectTxUnchecked(rules: Rules, base: Index, pindex: BlockIndex, p: Progress, tx: Tx, pos: DiskTxPos)
    requires ConnectTx(rules, base, pindex, true, p, tx, pos).Some?
    ensures ConnectTx(rules, base, pindex, false, p, tx, pos) == ConnectTx(rules, base, pindex, true, p, tx, pos)
  {
    if !tx.IsCoinBase() {
      assert forall i | 0 <= i < |tx.vin| :: InputOk(rules, p.index, pindex, true, tx, i)
                                         ==> InputOk(rules, p.index, pindex, false, tx, i);
    }
  }

  lemma {:induction false} ConnectTxsUnchecked(rules: Rules, base: Index, pindex: BlockIndex, b: Block, k: nat)
    requires k <= |b.vtx| && ConnectTxs(rules, base, pindex, true, b, k).Some?
    ensures ConnectTxs(rules, base, pindex, false, b, k) == ConnectTxs(rules, base, pindex, true, b, k)
  {
    if k > 0 {
      ConnectTxsUnchecked(rules, base, pindex, b, k - 1);
      ConnectTxUnchecked(rules, base, pindex, ConnectTxs(rules, base, pindex, true, b, k - 1).value,
                         b.vtx[k - 1], TxPos(pindex, b, k - 1));
    }
  }

  lemma ConnectUnchecked(rules: Rules, base: Index, pindex: BlockIndex, checkScripts: bool, b: Block)
    requires Connect(rules, base, pindex, checkScripts, b).Some?
    ensures Connect(rules, base, pindex, false, b) == Connect(rules, base, pindex, checkScripts, b)
  {
    if checkScripts {
      ConnectTxsUnchecked(rules, base, pindex, b, |b.vtx|);
    }
  }

  // A reorganisation ends where a replay of the new path ends

  lemma {:induction false} DisconnectDownIsReplay(rules: Rules, fork: BlockIndex, top: BlockIndex)
    requires Linked(top) && IsAncestor(fork, top)
    requires Replay(rules, top).Some? && FreshAbove(rules, fork, top)
    ensures Linked(fork) && Replay(rules, fork).Some?
    ensures DisconnectDown(rules, Replay(rules, top).value, fork, top) == Replay(rules, fork)
    decreases top.nHeight
  {
    if top != fork {
      UndoBlock(rules, Replay(rules, top.pprev).value, top, false, BlockAt(rules, top).value);
      DisconnectDownIsReplay(rules, fork, top.pprev);
    }
  }

  lemma {:induction false} ConnectUpIsReplay(rules: Rules, checkScripts: bool, fork: BlockIndex, top: BlockIndex)
    requires Linked(top) && IsAncestor(fork, top) && Linked(fork)
    requires Replay(rules, fork).Some?
    requires ConnectUp(rules, checkScripts, Replay(rules, fork).value, fork, top).Some?
    ensures Replay(rules, top) == ConnectUp(rules, checkScripts, Replay(rules, fork).value, fork, top)
    decreases top.nHeight
  {
    if top != fork {
      ConnectUpIsReplay(rules, checkScripts, fork, top.pprev);
      ConnectUnchecked(rules, Replay(rules, top.pprev).value, top, checkScripts, BlockAt(rules, top).value);
    }
  }

  /** The lowest block on the way down from b whose parent no longer beats that much work. */
  ghost function Intermediate(b: BlockIndex, work: int): (r: BlockIndex)
    requires Linked(b)
    ensures Linked(r) && IsAncestor(r, b) && (r == b || r.bnChainWork > work)
    ensures r.pprev != null ==> r.pprev.bnChainWork <= work
    decreases b.nHeight
  {
    if b.pprev != null && b.pprev.bnChainWork > work then Intermediate(b.pprev, work) else b
  }

  lemma {:induction false} ConnectUpSplit(rules: Rules, checkScripts: bool, ix: Index, fork: BlockIndex,
                                          b: BlockIndex, top: BlockIndex)
    requires Linked(top) && Linked(b) && IsAncestor(fork, b) && IsAncestor(b, top) && IsAncestor(fork, top)
    requires ConnectUp(rules, checkScripts, ix, fork, b).Some?
    ensures ConnectUp(rules, checkScripts, ix, fork, top)
            == ConnectUp(rules, checkScripts, ConnectUp(rules, checkScripts, ix, fork, b).value, b, top)
    decreases top.nHeight
  {
    if b != top {
      AncestorFacts(b, top.pprev);
      AncestorFacts(fork, b);
      AncestorTransitive(fork, b, top.pprev);
      ConnectUpSplit(rules, checkScripts, ix, fork, b, top.pprev);
    }
  }

  /** The index after leaving the branch of best for b, whether or not disconnecting undoes it exactly. */
  ghost function Switched(rules: Rules, checkScripts: bool, best: BlockIndex, b: BlockIndex): Option<Index>
    requires Linked(best) && Linked(b) && Replay(rules, best).Some?
  {
    LowestCommonAncestorIsLowest(best, b, best);
    var fork := LowestCommonAncestor(best, b);
    if fork == null then None
    else
      match DisconnectDown(rules, Replay(rules, best).value, fork, best)
      case None => None
      case Some(ix) => ConnectUp(rules, checkScripts, ix, fork, b)
  }

  /** And after the postponed blocks up to top. */
  ghost function SwitchedThrough(rules: Rules, checkScripts: bool, best: BlockIndex, top: BlockIndex): Option<Index>
    requires Linked(best) && Linked(top) && Replay(rules, best).Some?
  {
    var b := Intermediate(top, best.bnChainWork);
    match Switched(rules, checkScripts, best, b)
    case None => None
    case Some(ix) => ConnectUp(rules, checkScripts, ix, b, top)
  }

  lemma ExtensionSwitched(rules: Rules, checkScripts: bool, best: BlockIndex, b: BlockIndex)
    requires Linked(b) && b.pprev == best && Replay(rules, best).Some?
    ensures Linked(best) && Intermediate(b, best.bnChainWork) == b
    ensures Switched(rules, checkScripts, best, b) == ConnectStep(rules, checkScripts, Replay(rules, best).value, b)
    ensures SwitchedThrough(rules, checkScripts, best, b) == Switched(rules, checkScripts, best, b)
  {
    ExtensionConnectable(rules, checkScripts, best, b);
    var ix := Replay(rules, best).value;
    assert DisconnectDown(rules, ix, best, best) == Some(ix);
    assert ConnectUp(rules, checkScripts, ix, best, best) == Some(ix);
    hide ConnectStep, DisconnectDown;
  }

  /** For a block right on top of the best one only that block matters. */
  lemma ExtensionConnectable(rules: Rules, checkScripts: bool, best: BlockIndex, b: BlockIndex)
    requires Linked(b) && b.pprev == best && Replay(rules, best).Some?
    ensures Linked(best) && LowestCommonAncestor(best, b) == best
    ensures Connectable(rules, checkScripts, best, b) <==>
            ConnectStep(rules, checkScripts, Replay(rules, best).value, b).Some?
  {
    AncestorTransitive(best, best, best);
    assert ConnectUp(rules, checkScripts, Replay(rules, best).value, best, best).Some?;
    if b == best {
      assert false;
    }
  }

  // Successor pointers

  /** The block above b on the path to tip; null unless b lies strictly below tip. */
  ghost function NextOn(b: BlockIndex, tip: BlockIndex): BlockIndex?
    requires Linked(tip)
    decreases tip.nHeight
  {
    if tip.pprev == null then null
    else if tip.pprev == b then tip
    else NextOn(b, tip.pprev)
  }

  lemma {:induction false} NextOnAncestors(b: BlockIndex, tip: BlockIndex)
    requires Linked(tip)
    ensures NextOn(b, tip) != null <==> IsAncestor(b, tip) && b != tip
    ensures NextOn(b, tip) != null ==> NextOn(b, tip).pprev == b && IsAncestor(NextOn(b, tip), tip)
    decreases tip.nHeight
  {
    if tip.pprev != null {
      NextOnAncestors(b, tip.pprev);
      if IsAncestor(tip, tip.pprev) {
        AncestorFacts(tip, tip.pprev);
      }
    }
  }

  /** Every pnext in the tree points along the path to tip. */
  ghost predicate PointsTo(tree: set<BlockIndex>, tip: BlockIndex)
    requires Linked(tip)
    reads tree
  {
    forall b | b in tree :: b.pnext == NextOn(b, tip)
  }

  /** Removing tip from the end of the path, or adding it, changes the pointer of the block below it only. */
  lemma NextOnStep(b: BlockIndex, tip: BlockIndex)
    requires Linked(tip) && tip.pprev != null
    ensures NextOn(b, tip) == if b == tip.pprev then tip else NextOn(b, tip.pprev)
    ensures NextOn(tip.pprev, tip.pprev) == null
  {
    NextOnAncestors(tip.pprev, tip.pprev);
  }

  function HashOf(b: BlockIndex?): Hash {
    if b == null then NULL_HASH else b.hash
  }

  /** The successor recorded for a block in the database, the null hash if there is none. */
  function RecordedNext(next: map<Hash, Hash>, b: BlockIndex): Hash {
    if b.hash in next then next[b.hash] else NULL_HASH
  }

  /** The database records the same successors as PointsTo asks of the pointers. */
  ghost predicate RecordsPointTo(next: map<Hash, Hash>, tree: set<BlockIndex>, tip: BlockIndex)
    requires Linked(tip)
  {
    forall b | b in tree :: RecordedNext(next, b) == HashOf(NextOn(b, tip))
  }

  ghost predicate DistinctHashes(tree: set<BlockIndex>) {
    forall a, b | a in tree && b in tree && a.hash == b.hash :: a == b
  }

  lemma RecordStepDown(next: map<Hash, Hash>, tree: set<BlockIndex>, tip: BlockIndex)
    requires Linked(tip) && tip.pprev != null && tip.pprev in tree && DistinctHashes(tree)
    requires RecordsPointTo(next, tree, tip)
    ensures RecordsPointTo(WithNext(next, tip, NULL_HASH), tree, tip.pprev)
  {
    forall b | b in tree
      ensures RecordedNext(WithNext(next, tip, NULL_HASH), b) == HashOf(NextOn(b, tip.pprev))
    {
      NextOnStep(b, tip);
    }
  }

  lemma RecordStepUp(next: map<Hash, Hash>, tree: set<BlockIndex>, tip: BlockIndex)
    requires Linked(tip) && tip.pprev != null && tip.pprev in tree && DistinctHashes(tree)
    requires RecordsPointTo(next, tree, tip.pprev)
    ensures RecordsPointTo(WithNext(next, tip, tip.hash), tree, tip)
  {
    forall b | b in tree
      ensures RecordedNext(WithNext(next, tip, tip.hash), b) == HashOf(NextOn(b, tip))
    {
      NextOnStep(b, tip);
    }
  }

  // Lists of blocks

  /** p lists the path from just above fork, lowest first, to top. */
  ghost predicate IsPath(p: seq<BlockIndex>, fork: BlockIndex, top: BlockIndex) {
    && (if p == [] then top == fork else p[0].pprev == fork && p[|p| - 1] == top)
    && (forall i | 0 < i < |p| :: p[i].pprev == p[i - 1])
  }

  /** The block the path reaches after i steps up from fork. */
  ghost function Reached(p: seq<BlockIndex>, fork: BlockIndex, i: nat): BlockIndex
    requires i <= |p|
  {
    if i == 0 then fork else p[i - 1]
  }

  lemma {:induction false} PathFacts(p: seq<BlockIndex>, fork: BlockIndex, top: BlockIndex, i: nat)
    requires Linked(top) && IsPath(p, fork, top) && i <= |p|
    ensures Linked(Reached(p, fork, i))
    ensures IsAncestor(fork, Reached(p, fork, i)) && IsAncestor(Reached(p, fork, i), top)
    decreases |p| - i
  {
    if i < |p| {
      PathFacts(p, fork, top, i + 1);
      var b, above := Reached(p, fork, i), Reached(p, fork, i + 1);
      assert above.pprev == b;
      AncestorTransitive(b, above, top);
      StartsAtFork(p, fork, i, above);
    } else {
      StartsAtFork(p, fork, |p|, top);
    }
  }

  lemma {:induction false} StartsAtFork(p: seq<BlockIndex>, fork: BlockIndex, i: nat, above: BlockIndex)
    requires i <= |p| && Linked(above)
    requires above == Reached(p, fork, i) || above.pprev == Reached(p, fork, i)
    requires i > 0 ==> p[0].pprev == fork
    requires forall j | 0 < j < |p| :: p[j].pprev == p[j - 1]
    ensures IsAncestor(fork, Reached(p, fork, i)) && IsAncestor(fork, above)
  {
    if i > 0 {
      StartsAtFork(p, fork, i - 1, p[i - 1]);
    }
  }

  /** Walks from top down to fork; the result, reversed, is the path. */
  method StepsDown(fork: BlockIndex, top: BlockIndex) returns (v: seq<BlockIndex>)
    requires Linked(top) && IsAncestor(fork, top)
    ensures IsPath(Reversed(v), fork, top)
  {
    v := [];
    var pindex: BlockIndex := top;
    while pindex != fork
      invariant Linked(pindex) && IsAncestor(fork, pindex)
      invariant IsPath(Reversed(v), pindex, top)
      decreases pindex.nHeight
    {
      ReversedSnoc(v, pindex);
      v := v + [pindex];
      pindex := pindex.pprev;
    }
  }

  /** The globals pindexBest, hashBestChain, pindexGenesisBlock, mapBlockIndex and the database. */
  class Chain {
    const rules: Rules
    const txdb: TxDb
    const hashGenesisBlock: Hash
    var mapBlockIndex: map<Hash, BlockIndex>
    var pindexGenesisBlock: BlockIndex?
    var pindexBest: BlockIndex?
    var hashBestChain: Hash
    var nBestHeight: int

    constructor (rules: Rules, hashGenesisBlock: Hash)
      ensures Valid() && fresh(txdb) && pindexBest == null && mapBlockIndex == map[]
      ensures this.rules == rules && this.hashGenesisBlock == hashGenesisBlock
    {
      this.rules, this.hashGenesisBlock := rules, hashGenesisBlock;
      txdb := new TxDb();
      mapBlockIndex, pindexGenesisBlock, pindexBest := map[], null, null;
      hashBestChain, nBestHeight := NULL_HASH, -1;
    }

    function Tree(): set<BlockIndex>
      reads `mapBlockIndex
    {
      mapBlockIndex.Values
    }

    /** The tree is closed under pprev and every block in it is filed under its own hash. */
    ghost predicate TreeOk()
      reads `mapBlockIndex
    {
      forall h | h in mapBlockIndex ::
        var b := mapBlockIndex[h];
        && b.hash == h && Linked(b)
        && (b.pprev != null ==> b.pprev.hash in mapBlockIndex && mapBlockIndex[b.pprev.hash] == b.pprev)
    }

    /** No transaction is open, and the committed best hash and both kinds of successor say that tip is the best block. */
    ghost predicate At(tip: BlockIndex)
      requires Linked(tip)
      reads `mapBlockIndex, txdb, Tree()
    {
      && txdb.activeTxn.None?
      && txdb.committed.hashBestChain == tip.hash
      && PointsTo(Tree(), tip) && RecordsPointTo(txdb.committed.hashNext, Tree(), tip)
    }

    /** Moreover, the committed index is the replay of the path to tip. */
    ghost predicate Holds(tip: BlockIndex)
      requires Linked(tip)
      reads `mapBlockIndex, txdb, Tree()
    {
      At(tip) && Replay(rules, tip) == Some(txdb.committed.index)
    }

    /**
     * What a quiet node satisfies: the committed index is the replay of the path to pindexBest, and pnext
     * is set on exactly the blocks strictly below it, each pointing to the next one up.
     */
    ghost predicate Valid()
      reads this, txdb, Tree()
    {
      && TreeOk() && txdb.activeTxn.None?
      && (pindexGenesisBlock == null <==> pindexBest == null)
      && (if pindexBest == null then
            txdb.committed.index == map[]
            && (forall b | b in Tree() :: b.pnext == null && RecordedNext(txdb.committed.hashNext, b) == NULL_HASH)
          else
            && pindexBest in Tree() && Linked(pindexBest) && hashBestChain == pindexBest.hash
            && Holds(pindexBest))
    }

    function CheckScripts(): bool
      reads `nBestHeight
    {
      !(nBestHeight < rules.totalBlocksEstimate)
    }

    /** CBlock::ReadFromDisk */
    method ReadFromDisk(pindex: BlockIndex) returns (r: Option<Block>)
      ensures r == BlockAt(rules, pindex)
    {
      r := rules.readBlock(pindex.nFile, pindex.nBlockPos);
    }

    /** One round of the disconnecting loop. */
    method DisconnectNext(pindex: BlockIndex, ghost fork: BlockIndex) returns (ok: bool)
      requires Linked(pindex) && pindex != fork && pindex.pprev != null && pindex.pprev in Tree() && DistinctHashes(Tree())
      requires IsAncestor(fork, pindex) && IsAncestor(fork, pindex.pprev)
      requires RecordsPointTo(txdb.View().hashNext, Tree(), pindex)
      modifies txdb
      ensures !ok ==> DisconnectDown(rules, old(txdb.View()).index, fork, pindex).None?
      ensures ok ==>
        DisconnectDown(rules, old(txdb.View()).index, fork, pindex)
        == DisconnectDown(rules, txdb.View().index, fork, pindex.pprev)
      ensures ok ==> RecordsPointTo(txdb.View().hashNext, Tree(), pindex.pprev)
      ensures txdb.activeTxn.Some? == old(txdb.activeTxn).Some?
      ensures txdb.activeTxn.Some? ==> txdb.committed == old(txdb.committed)
    {
      ghost var next := txdb.View().hashNext;
      var block := ReadFromDisk(pindex);
      if block.None? {
        return false;
      }
      ok := BlockConnection.DisconnectBlock(rules, txdb, block.value, pindex);
      if ok {
        RecordStepDown(next, Tree(), pindex);
      }
    }

    /** Disconnects the listed blocks, the highest one first. */
    method DisconnectBlocks(v: seq<BlockIndex>, ghost fork: BlockIndex, ghost top: BlockIndex) returns (ok: bool)
      requires TreeOk() && top in Tree() && IsAncestor(fork, top) && IsPath(Reversed(v), fork, top)
      requires RecordsPointTo(txdb.View().hashNext, Tree(), top)
      modifies txdb
      ensures ok <==> DisconnectDown(rules, old(txdb.View()).index, fork, top).Some?
      ensures ok ==> DisconnectDown(rules, old(txdb.View()).index, fork, top) == Some(txdb.View().index)
      ensures ok ==> Linked(fork) && RecordsPointTo(txdb.View().hashNext, Tree(), fork)
      ensures txdb.activeTxn.Some? == old(txdb.activeTxn).Some?
      ensures txdb.activeTxn.Some? ==> txdb.committed == old(txdb.committed)
    {
      ghost var p := Reversed(v);
      ghost var start := txdb.View().index;
      for i := 0 to |v|
        invariant Linked(Reached(p, fork, |v| - i)) && IsAncestor(fork, Reached(p, fork, |v| - i))
        invariant DisconnectDown(rules, start, fork, top)
          == DisconnectDown(rules, txdb.View().index, fork, Reached(p, fork, |v| - i))
        invariant RecordsPointTo(txdb.View().hashNext, Tree(), Reached(p, fork, |v| - i))
        invariant txdb.activeTxn.Some? == old(txdb.activeTxn).Some?
        invariant txdb.activeTxn.Some? ==> txdb.committed == old(txdb.committed)
      {
        var pindex := v[i];
        assert pindex == p[|v| - i - 1];
        PathStep(p, fork, top, |v| - i - 1);
        var done := DisconnectNext(pindex, fork);
        if !done {
          return false;
        }
      }
      ok := true;
    }

    /** One round of the connecting loop. */
    method ConnectNext(pindex: BlockIndex, checkScripts: bool) returns (ok: bool)
      requires Linked(pindex) && pindex.pprev != null && pindex.pprev in Tree() && DistinctHashes(Tree())
      requires RecordsPointTo(txdb.View().hashNext, Tree(), pindex.pprev)
      modifies txdb
      ensures ok <==> ConnectStep(rules, checkScripts, old(txdb.View()).index, pindex).Some?
      ensures ok ==> ConnectStep(rules, checkScripts, old(txdb.View()).index, pindex) == Some(txdb.View().index)
      ensures ok ==> RecordsPointTo(txdb.View().hashNext, Tree(), pindex)
      ensures txdb.activeTxn.Some? == old(txdb.activeTxn).Some?
      ensures txdb.activeTxn.Some? ==> txdb.committed == old(txdb.committed)
    {
      ghost var next := txdb.View().hashNext;
      var block := ReadFromDisk(pindex);
      if block.None? {
        return false;
      }
      ok := BlockConnection.ConnectBlock(rules, txdb, block.value, pindex, checkScripts);
      if ok {
        RecordStepUp(next, Tree(), pindex);
      }
    }

    /** Connects the listed blocks, the lowest one first. */
    method ConnectBlocks(v: seq<BlockIndex>, ghost fork: BlockIndex, ghost top: BlockIndex) returns (ok: bool)
      requires TreeOk() && top in Tree() && Linked(fork) && IsAncestor(fork, top) && IsPath(v, fork, top)
      requires RecordsPointTo(txdb.View().hashNext, Tree(), fork)
      modifies txdb
      ensures ok <==> ConnectUp(rules, CheckScripts(), old(txdb.View()).index, fork, top).Some?
      ensures ok ==> ConnectUp(rules, CheckScripts(), old(txdb.View()).index, fork, top) == Some(txdb.View().index)
      ensures ok ==> RecordsPointTo(txdb.View().hashNext, Tree(), top)
      ensures txdb.activeTxn.Some? == old(txdb.activeTxn).Some?
      ensures txdb.activeTxn.Some? ==> txdb.committed == old(txdb.committed)
    {
      ghost var start := txdb.View().index;
      var checkScripts := CheckScripts();
      for i := 0 to |v|
        invariant Linked(Reached(v, fork, i)) && IsAncestor(fork, Reached(v, fork, i))
        invariant ConnectUp(rules, checkScripts, start, fork, Reached(v, fork, i)) == Some(txdb.View().index)
        invariant RecordsPointTo(txdb.View().hashNext, Tree(), Reached(v, fork, i))
        invariant txdb.activeTxn.Some? == old(txdb.activeTxn).Some?
        invariant txdb.activeTxn.Some? ==> txdb.committed == old(txdb.committed)
      {
        PathStep(v, fork, top, i);
        var done := ConnectNext(v[i], checkScripts);
        if !done {
          ConnectUpFails(rules, checkScripts, start, fork, v[i], top);
          return false;
        }
      }
      ok := true;
    }

    lemma {:induction false} AncestorsInTree(a: BlockIndex, b: BlockIndex)
      requires TreeOk() && b in Tree() && IsAncestor(a, b)
      ensures a in Tree() && DistinctHashes(Tree())
      decreases b.nHeight
    {
      if a != b {
        AncestorsInTree(a, b.pprev);
      }
    }

    /** The i-th listed block sits on the block reached before it, in the tree, above fork and below top. */
    lemma PathStep(p: seq<BlockIndex>, fork: BlockIndex, top: BlockIndex, i: nat)
      requires TreeOk() && top in Tree() && Linked(top) && IsPath(p, fork, top) && i < |p|
      ensures Linked(p[i]) && p[i].pprev == Reached(p, fork, i) && Reached(p, fork, i + 1) == p[i] && p[i] != fork
      ensures Linked(Reached(p, fork, i)) && Reached(p, fork, i) in Tree() && DistinctHashes(Tree())
      ensures IsAncestor(fork, p[i]) && IsAncestor(fork, Reached(p, fork, i)) && IsAncestor(p[i], top)
    {
      PathFacts(p, fork, top, i + 1);
      PathFacts(p, fork, top, i);
      PathIsAbove(p, fork, top, i + 1);
      AncestorsInTree(Reached(p, fork, i), top);
    }

    /** pindex->pprev->pnext = NULL, the path having ended in pindex. */
    method StepBack(pindex: BlockIndex)
      requires Linked(pindex) && pindex.pprev != null && pindex.pprev in Tree() && PointsTo(Tree(), pindex)
      modifies Tree()`pnext
      ensures PointsTo(Tree(), pindex.pprev)
    {
      forall b | b in Tree() ensures NextOn(b, pindex) == if b == pindex.pprev then pindex else NextOn(b, pindex.pprev) {
        NextOnStep(b, pindex);
      }
      NextOnStep(pindex.pprev, pindex);
      pindex.pprev.pnext := null;
    }

    /** pindex->pprev->pnext = pindex, the path having ended just below pindex. */
    method StepForward(pindex: BlockIndex)
      requires Linked(pindex) && pindex.pprev != null && pindex.pprev in Tree() && PointsTo(Tree(), pindex.pprev)
      modifies Tree()`pnext
      ensures PointsTo(Tree(), pindex)
    {
      forall b | b in Tree() ensures NextOn(b, pindex) == if b == pindex.pprev then pindex else NextOn(b, pindex.pprev) {
        NextOnStep(b, pindex);
      }
      pindex.pprev.pnext := pindex;
    }

    /** The last part of Reorganize: the pointers along the old branch are cleared, those along the new one set. */
    method SwitchPointers(vDisconnect: seq<BlockIndex>, vConnect: seq<BlockIndex>,
                          ghost fork: BlockIndex, ghost from: BlockIndex, ghost to: BlockIndex)
      requires TreeOk() && from in Tree() && to in Tree() && Linked(fork) && CommonAncestor(fork, from, to)
      requires IsPath(Reversed(vDisconnect), fork, from) && IsPath(vConnect, fork, to)
      requires PointsTo(Tree(), from)
      modifies Tree()`pnext
      ensures PointsTo(Tree(), to)
    {
      ghost var p, n := Reversed(vDisconnect), |vDisconnect|;
      for i := 0 to |vDisconnect|
        invariant Linked(Reached(p, fork, n - i)) && PointsTo(Tree(), Reached(p, fork, n - i))
      {
        var pindex := vDisconnect[i];
        assert pindex == p[n - i - 1];
        PathStep(p, fork, from, n - i - 1);
        StepBack(pindex);
      }
      for i := 0 to |vConnect|
        invariant Linked(Reached(vConnect, fork, i)) && PointsTo(Tree(), Reached(vConnect, fork, i))
      {
        var pindex := vConnect[i];
        PathStep(vConnect, fork, to, i);
        StepForward(pindex);
      }
    }

    /**
     * Switches to the branch ending in pindexNew in one transaction. On failure nothing is committed and no
     * pointer has moved; aborting the transaction is left to the caller.
     */
    method Reorganize(pindexNew: BlockIndex) returns (ok: bool, ghost fork: BlockIndex?)
      requires TreeOk() && pindexBest != null && pindexBest in Tree() && pindexNew in Tree()
      requires txdb.activeTxn.Some? && PointsTo(Tree(), pindexBest)
      requires RecordsPointTo(txdb.View().hashNext, Tree(), pindexBest)
      modifies txdb, Tree()`pnext
      ensures fork == LowestCommonAncestor(pindexBest, pindexNew)
      ensures fork != null ==> Linked(fork) && CommonAncestor(fork, pindexBest, pindexNew)
      ensures ok <==> fork != null && Reorganized(old(txdb.View()).index, fork, pindexNew).Some?
      ensures ok ==>
        && txdb.activeTxn.None?
        && Some(txdb.committed.index) == Reorganized(old(txdb.View()).index, fork, pindexNew)
        && txdb.committed.hashBestChain == pindexNew.hash
        && RecordsPointTo(txdb.committed.hashNext, Tree(), pindexNew)
        && PointsTo(Tree(), pindexNew)
      ensures !ok ==> txdb.activeTxn.Some? && txdb.committed == old(txdb.committed) && PointsTo(Tree(), pindexBest)
    {
      hide Reorganized, PointsTo, RecordsPointTo;
      var found := FindFork(pindexBest, pindexNew);
      fork := found;
      if found == null {
        return false, null;
      }
      LowestCommonAncestorIsLowest(pindexBest, pindexNew, found);
      var vDisconnect := StepsDown(found, pindexBest);
      var down := StepsDown(found, pindexNew);
      ok := RewriteIndex(found, pindexNew, vDisconnect, Reversed(down));
      if !ok {
        return;
      }
      txdb.WriteHashBestChain(pindexNew.hash);
      var committed := txdb.TxnCommit();
      SwitchPointers(vDisconnect, Reversed(down), found, pindexBest, pindexNew);
    }

    /** The database half of Reorganize. */
    method RewriteIndex(ghost fork: BlockIndex, pindexNew: BlockIndex,
                        vDisconnect: seq<BlockIndex>, vConnect: seq<BlockIndex>) returns (ok: bool)
      requires TreeOk() && pindexBest != null && pindexBest in Tree() && pindexNew in Tree()
      requires Linked(fork) && CommonAncestor(fork, pindexBest, pindexNew)
      requires IsPath(Reversed(vDisconnect), fork, pindexBest) && IsPath(vConnect, fork, pindexNew)
      requires txdb.activeTxn.Some? && RecordsPointTo(txdb.View().hashNext, Tree(), pindexBest)
      modifies txdb
      ensures ok <==> Reorganized(old(txdb.View()).index, fork, pindexNew).Some?
      ensures ok ==> Reorganized(old(txdb.View()).index, fork, pindexNew) == Some(txdb.View().index)
      ensures ok ==> RecordsPointTo(txdb.View().hashNext, Tree(), pindexNew)
      ensures txdb.activeTxn.Some? && txdb.committed == old(txdb.committed)
    {
      ok := DisconnectBlocks(vDisconnect, fork, pindexBest);
      if ok {
        ok := ConnectBlocks(vConnect, fork, pindexNew);
      }
    }

    /** The index after disconnecting down to the fork and connecting up to the new tip. */
    ghost function Reorganized(ix: Index, fork: BlockIndex, pindexNew: BlockIndex): Option<Index>
      requires pindexBest != null && Linked(pindexBest) && Linked(pindexNew)
      requires CommonAncestor(fork, pindexBest, pindexNew)
      reads `pindexBest, `nBestHeight
    {
      match DisconnectDown(rules, ix, fork, pindexBest)
      case None => None
      case Some(ix') => ConnectUp(rules, CheckScripts(), ix', fork, pindexNew)
    }

    lemma ReorganizedIsReplay(ix: Index, fork: BlockIndex, pindexNew: BlockIndex)
      requires pindexBest != null && Linked(pindexBest) && Linked(pindexNew)
      requires CommonAncestor(fork, pindexBest, pindexNew)
      requires Replay(rules, pindexBest) == Some(ix) && FreshAbove(rules, fork, pindexBest)
      ensures Linked(fork) && Replay(rules, fork).Some?
      ensures Reorganized(ix, fork, pindexNew) == ConnectUp(rules, CheckScripts(), Replay(rules, fork).value, fork, pindexNew)
      ensures Reorganized(ix, fork, pindexNew).Some? ==> Replay(rules, pindexNew) == Reorganized(ix, fork, pindexNew)
    {
      DisconnectDownIsReplay(rules, fork, pindexBest);
      if Reorganized(ix, fork, pindexNew).Some? {
        ConnectUpIsReplay(rules, CheckScripts(), fork, pindexNew);
      }
    }

    /** Connects one block on top of the block the database is at; closes the transaction either way. */
    method SetBestChainInner(block: Block, pindexNew: BlockIndex) returns (ok: bool)
      requires TreeOk() && pindexNew in Tree() && pindexNew.pprev != null
      requires txdb.activeTxn == Some(txdb.committed) && txdb.committed.hashBestChain == pindexNew.pprev.hash
      requires RecordsPointTo(txdb.committed.hashNext, Tree(), pindexNew.pprev) && PointsTo(Tree(), pindexNew.pprev)
      modifies txdb, Tree()`pnext
      ensures ok <==> Connect(rules, old(txdb.committed).index, pindexNew, CheckScripts(), block).Some?
      ensures ok ==> At(pindexNew)
      ensures ok ==>
        Connect(rules, old(txdb.committed).index, pindexNew, CheckScripts(), block) == Some(txdb.committed.index)
      ensures !ok ==> At(pindexNew.pprev) && txdb.committed == old(txdb.committed)
    {
      ghost var next := txdb.View().hashNext;
      var connected := BlockConnection.ConnectBlock(rules, txdb, block, pindexNew, CheckScripts());
      if !connected {
        var aborted := txdb.TxnAbort();
        return false;
      }
      txdb.WriteHashBestChain(pindexNew.hash);
      var committed := txdb.TxnCommit();
      AncestorsInTree(pindexNew.pprev, pindexNew);
      RecordStepUp(next, Tree(), pindexNew);
      StepForward(pindexNew);
      ok := true;
    }

    /** Reads one postponed block, begins a transaction and connects it. */
    method ConnectOnePostponed(pindex: BlockIndex) returns (ok: bool)
      requires TreeOk() && pindex in Tree() && pindex.pprev != null && At(pindex.pprev)
      modifies txdb, Tree()`pnext
      ensures ok ==> At(pindex)
      ensures ok ==> ConnectStep(rules, CheckScripts(), old(txdb.committed).index, pindex) == Some(txdb.committed.index)
      ensures !ok ==> At(pindex.pprev) && txdb.committed == old(txdb.committed)
      ensures !ok ==> ConnectStep(rules, CheckScripts(), txdb.committed.index, pindex).None?
    {
      var block := ReadFromDisk(pindex);
      if block.None? {
        return false;
      }
      var begun := txdb.TxnBegin();
      ok := SetBestChainInner(block.value, pindex);
    }

    /** Blocks that need not be part of the reorganisation, because the branch is already heavier without them. */
    method PostponeBlocks(pindexNew: BlockIndex) returns (pindexIntermediate: BlockIndex, postponed: seq<BlockIndex>)
      requires TreeOk() && pindexNew in Tree() && pindexBest != null
      ensures pindexIntermediate in Tree() && IsAncestor(pindexIntermediate, pindexNew)
      ensures IsPath(Reversed(postponed), pindexIntermediate, pindexNew)
      ensures pindexIntermediate == Intermediate(pindexNew, pindexBest.bnChainWork)
    {
      pindexIntermediate, postponed := pindexNew, [];
      while pindexIntermediate.pprev != null && pindexIntermediate.pprev.bnChainWork > pindexBest.bnChainWork
        invariant pindexIntermediate in Tree() && IsAncestor(pindexIntermediate, pindexNew)
        invariant IsPath(Reversed(postponed), pindexIntermediate, pindexNew)
        invariant Intermediate(pindexNew, pindexBest.bnChainWork) == Intermediate(pindexIntermediate, pindexBest.bnChainWork)
        decreases pindexIntermediate.nHeight
      {
        ReversedSnoc(postponed, pindexIntermediate);
        AncestorTransitive(pindexIntermediate.pprev, pindexIntermediate, pindexNew);
        postponed := postponed + [pindexIntermediate];
        pindexIntermediate := pindexIntermediate.pprev;
      }
    }

    /** The database is at tip, and the block above it on the way to pindexNew cannot be read or does not connect. */
    ghost predicate StuckAt(tip: BlockIndex, pindexNew: BlockIndex, checkScripts: bool)
      requires Linked(pindexNew)
      reads txdb
    {
      NextOn(tip, pindexNew) != null
      && ConnectStep(rules, checkScripts, txdb.committed.index, NextOn(tip, pindexNew)).None?
    }

    /** Connects the postponed blocks one transaction at a time; stops without an error at the first that fails. */
    method ConnectPostponed(postponed: seq<BlockIndex>, ghost from: BlockIndex, pindexNew: BlockIndex)
      returns (ghost tip: BlockIndex)
      requires TreeOk() && from in Tree() && pindexNew in Tree() && IsPath(Reversed(postponed), from, pindexNew)
      requires At(from) && IsAncestor(from, pindexNew)
      modifies txdb, Tree()`pnext
      ensures tip in Tree() && IsAncestor(from, tip) && IsAncestor(tip, pindexNew) && At(tip)
      ensures ConnectUp(rules, CheckScripts(), old(txdb.committed).index, from, tip) == Some(txdb.committed.index)
      ensures tip == pindexNew || StuckAt(tip, pindexNew, CheckScripts())
      ensures tip == pindexNew <==> ConnectUp(rules, CheckScripts(), old(txdb.committed).index, from, pindexNew).Some?
    {
      hide At, ConnectUp, ConnectStep, IsPath;
      var v := Reversed(postponed);
      ghost var start := txdb.committed.index;
      tip := from;
      NothingUp(start, from);
      for i := 0 to |v|
        invariant tip == Reached(v, from, i) && tip in Tree() && Linked(tip) && IsAncestor(from, tip) && At(tip)
        invariant ConnectUp(rules, CheckScripts(), start, from, tip) == Some(txdb.committed.index)
      {
        PathStep(v, from, pindexNew, i);
        AncestorsInTree(v[i], pindexNew);
        OneUp(CheckScripts(), start, from, v[i]);
        var connected := ConnectOnePostponed(v[i]);
        if !connected {
          PostponedFails(v, CheckScripts(), start, from, pindexNew, i);
          return;
        }
        tip := v[i];
      }
      ReachesTop(v, from, pindexNew);
    }

    lemma NothingUp(start: Index, from: BlockIndex)
      requires Linked(from)
      ensures IsAncestor(from, from) && ConnectUp(rules, CheckScripts(), start, from, from) == Some(start)
    {
    }

    lemma OneUp(checkScripts: bool, start: Index, from: BlockIndex, b: BlockIndex)
      requires Linked(b) && b.pprev != null && b != from && IsAncestor(from, b) && IsAncestor(from, b.pprev)
      requires ConnectUp(rules, checkScripts, start, from, b.pprev).Some?
      ensures ConnectUp(rules, checkScripts, start, from, b)
              == ConnectStep(rules, checkScripts, ConnectUp(rules, checkScripts, start, from, b.pprev).value, b)
    {
      hide ConnectStep;
    }

    lemma ReachesTop(p: seq<BlockIndex>, fork: BlockIndex, top: BlockIndex)
      requires IsPath(p, fork, top)
      ensures Reached(p, fork, |p|) == top
    {
    }

    /** The i-th listed block fails to connect. */
    lemma PostponedFails(v: seq<BlockIndex>, checkScripts: bool, start: Index, from: BlockIndex, top: BlockIndex, i: nat)
      requires TreeOk() && top in Tree() && Linked(top) && IsPath(v, from, top) && i < |v|
      requires Linked(v[i]) && IsAncestor(from, v[i]) && ConnectUp(rules, checkScripts, start, from, v[i]).None?
      ensures Linked(Reached(v, from, i)) && IsAncestor(Reached(v, from, i), top) && NextOn(Reached(v, from, i), top) == v[i]
      ensures Reached(v, from, i) != top && IsAncestor(from, top)
      ensures ConnectUp(rules, checkScripts, start, from, top).None?
    {
      hide ConnectUp, IsPath;
      NextIsListed(v, from, top, i);
      PathFacts(v, from, top, i);
      PathFacts(v, from, top, |v|);
      ReachesTop(v, from, top);
      PathStep(v, from, top, i);
      NextOnAncestors(Reached(v, from, i), top);
      ConnectUpFails(rules, checkScripts, start, from, v[i], top);
    }

    /**
     * Makes pindexNew the best block. It succeeds exactly if the branch connects, on the index that disconnecting leaves,
     * up to the block that first beats the best chain; the node is valid afterwards exactly if the branch connects to its
     * end and yields the replay of that end. Unless a block to be left had reused a transaction id, that is whether the
     * branch connects to the replay of the fork. A postponed block that fails leaves the node claiming a best block that
     * the database is not at.
     */
    method SetBestChain(block: Block, pindexNew: BlockIndex) returns (ok: bool, ghost tip: BlockIndex)
      requires Valid() && pindexNew in Tree() && BlockAt(rules, pindexNew) == Some(block)
      requires if pindexNew.pprev == null then pindexBest != null ==> block.hashPrevBlock != hashBestChain
               else pindexNew.pprev.hash == block.hashPrevBlock
      requires pindexBest == null ==> pindexNew.hash == hashGenesisBlock && pindexNew.pprev == null
      modifies this`pindexGenesisBlock, this`pindexBest, this`hashBestChain, this`nBestHeight, txdb, Tree()`pnext
      ensures !ok ==> Valid() && txdb.committed == old(txdb.committed) && pindexBest == old(pindexBest)
      ensures ok ==> pindexBest == pindexNew && hashBestChain == pindexNew.hash && TreeOk()
      ensures ok ==> tip in Tree() && IsAncestor(tip, pindexNew) && At(tip)
      ensures ok ==> tip == pindexNew || StuckAt(tip, pindexNew, old(CheckScripts()))
      ensures UndoIsExact(old(pindexBest), pindexNew) ==>
        (ok <==> old(pindexBest) == null
                 || Connectable(rules, old(CheckScripts()), old(pindexBest), Intermediate(pindexNew, old(pindexBest).bnChainWork)))
      ensures ok && UndoIsExact(old(pindexBest), pindexNew) ==>
        (Valid() <==> old(pindexBest) == null || Connectable(rules, old(CheckScripts()), old(pindexBest), pindexNew))
      ensures ok && UndoIsExact(old(pindexBest), pindexNew) ==> Holds(tip) && (Valid() <==> tip == pindexNew)
      ensures old(pindexBest) == null ==> ok && Valid()
      ensures old(pindexBest) != null ==>
        && Linked(old(pindexBest)) && Linked(pindexNew) && Replay(rules, old(pindexBest)).Some?
        && (ok <==>
            Switched(rules, old(CheckScripts()), old(pindexBest), Intermediate(pindexNew, old(pindexBest).bnChainWork)).Some?)
        && (ok ==>
              (Valid() <==> Replay(rules, pindexNew).Some? &&
                            SwitchedThrough(rules, old(CheckScripts()), old(pindexBest), pindexNew) == Replay(rules, pindexNew)))
    {
      hide Holds, UndoIsExact, At, StuckAt, Connectable, Switched, SwitchedThrough;
      ok, tip := MoveDatabase(block, pindexNew);
      if ok {
        SetBest(pindexNew, tip);
      }
    }

    /** The new best block is claimed; the database is at tip. */
    method SetBest(pindexNew: BlockIndex, ghost tip: BlockIndex)
      requires TreeOk() && pindexNew in Tree() && tip in Tree() && At(tip) && pindexGenesisBlock != null
      modifies this`pindexBest, this`hashBestChain, this`nBestHeight
      ensures pindexBest == pindexNew && hashBestChain == pindexNew.hash
      ensures At(tip) && (Holds(tip) ==> (Valid() <==> tip == pindexNew))
      ensures Linked(pindexNew) && (Valid() <==> tip == pindexNew && Replay(rules, pindexNew) == Some(txdb.committed.index))
    {
      hashBestChain, pindexBest, nBestHeight := pindexNew.hash, pindexNew, pindexNew.nHeight;
      OnlyBestIsValid(tip);
    }

    /** SetBestChain up to the point where the globals are set. */
    method MoveDatabase(block: Block, pindexNew: BlockIndex) returns (ok: bool, ghost tip: BlockIndex)
      requires Valid() && pindexNew in Tree() && BlockAt(rules, pindexNew) == Some(block)
      requires if pindexNew.pprev == null then pindexBest != null ==> block.hashPrevBlock != hashBestChain
               else pindexNew.pprev.hash == block.hashPrevBlock
      requires pindexBest == null ==> pindexNew.hash == hashGenesisBlock && pindexNew.pprev == null
      modifies this`pindexGenesisBlock, txdb, Tree()`pnext
      ensures pindexGenesisBlock != null
      ensures !ok ==> Valid() && txdb.committed == old(txdb.committed)
      ensures ok ==> tip in Tree() && IsAncestor(tip, pindexNew) && At(tip)
      ensures ok ==> tip == pindexNew || StuckAt(tip, pindexNew, CheckScripts())
      ensures UndoIsExact(pindexBest, pindexNew) ==>
        (ok <==> pindexBest == null || Connectable(rules, CheckScripts(), pindexBest, Intermediate(pindexNew, pindexBest.bnChainWork)))
      ensures ok && UndoIsExact(pindexBest, pindexNew) ==>
        Holds(tip) && (tip == pindexNew <==> pindexBest == null || Connectable(rules, CheckScripts(), pindexBest, pindexNew))
      ensures if pindexBest == null then ok && tip == pindexNew && Holds(tip)
              else MovedTo(ok, tip, pindexBest, pindexNew, CheckScripts())
    {
      hide UndoIsExact, StuckAt, Connectable, Switched, SwitchedThrough;
      var begun := txdb.TxnBegin();
      tip := pindexNew;
      if pindexGenesisBlock == null && pindexNew.hash == hashGenesisBlock {
        StartChain(pindexNew);
        ok := true;
      } else if block.hashPrevBlock == hashBestChain {
        BestIsBelow(block, pindexNew);
        ok := ExtendBest(block, pindexNew);
      } else {
        ok, tip := SwitchBranch(pindexNew);
      }
    }

    /** The first case of SetBestChain: genesis is the best block without being connected. */
    method StartChain(pindexNew: BlockIndex)
      requires TreeOk() && pindexNew in Tree() && pindexNew.pprev == null && pindexBest == null
      requires txdb.activeTxn == Some(txdb.committed) && txdb.committed.index == map[]
      requires forall b | b in Tree() :: b.pnext == null && RecordedNext(txdb.committed.hashNext, b) == NULL_HASH
      modifies txdb, this`pindexGenesisBlock
      ensures pindexGenesisBlock == pindexNew && Linked(pindexNew) && Holds(pindexNew)
    {
      txdb.WriteHashBestChain(pindexNew.hash);
      var committed := txdb.TxnCommit();
      pindexGenesisBlock := pindexNew;
    }

    lemma BestIsBelow(block: Block, pindexNew: BlockIndex)
      requires TreeOk() && pindexNew in Tree() && pindexBest != null && pindexBest in Tree()
      requires hashBestChain == pindexBest.hash && block.hashPrevBlock == hashBestChain
      requires pindexNew.pprev != null && pindexNew.pprev.hash == block.hashPrevBlock
      ensures pindexNew.pprev == pindexBest
    {
      var h :| h in mapBlockIndex && mapBlockIndex[h] == pindexBest;
      var h' :| h' in mapBlockIndex && mapBlockIndex[h'] == pindexNew;
    }

    /** The second case of SetBestChain. */
    method ExtendBest(block: Block, pindexNew: BlockIndex) returns (ok: bool)
      requires TreeOk() && pindexNew in Tree() && pindexBest != null && pindexNew.pprev == pindexBest
      requires txdb.activeTxn == Some(txdb.committed) && Replay(rules, pindexBest) == Some(txdb.committed.index)
      requires txdb.committed.hashBestChain == pindexBest.hash && BlockAt(rules, pindexNew) == Some(block)
      requires PointsTo(Tree(), pindexBest) && RecordsPointTo(txdb.committed.hashNext, Tree(), pindexBest)
      modifies txdb, Tree()`pnext
      ensures ok ==> Holds(pindexNew)
      ensures !ok ==> At(pindexBest) && txdb.committed == old(txdb.committed)
      ensures ok <==> Connectable(rules, CheckScripts(), pindexBest, pindexNew)
      ensures Intermediate(pindexNew, pindexBest.bnChainWork) == pindexNew
      ensures ok <==> Switched(rules, CheckScripts(), pindexBest, pindexNew).Some?
      ensures SwitchedThrough(rules, CheckScripts(), pindexBest, pindexNew)
              == Switched(rules, CheckScripts(), pindexBest, pindexNew)
      ensures ok ==> Switched(rules, CheckScripts(), pindexBest, pindexNew) == Some(txdb.committed.index)
    {
      ExtensionConnectable(rules, CheckScripts(), pindexBest, pindexNew);
      ExtensionSwitched(rules, CheckScripts(), pindexBest, pindexNew);
      hide Connectable, Switched, SwitchedThrough;
      ghost var ix := txdb.committed.index;
      ok := SetBestChainInner(block, pindexNew);
      if ok {
        ConnectUnchecked(rules, ix, pindexNew, CheckScripts(), block);
      }
    }

    /** The database can hold one best block only. */
    lemma OnlyBestIsValid(tip: BlockIndex)
      requires TreeOk() && tip in Tree() && pindexGenesisBlock != null
      requires pindexBest != null && pindexBest in Tree() && hashBestChain == pindexBest.hash
      requires At(tip)
      ensures Linked(pindexBest)
      ensures Holds(tip) ==> (Valid() <==> tip == pindexBest)
      ensures Valid() <==> tip == pindexBest && Replay(rules, pindexBest) == Some(txdb.committed.index)
    {
      AncestorsInTree(pindexBest, pindexBest);
    }

    /** None of the blocks to be left reused an id, so that disconnecting them undoes them exactly. */
    ghost predicate UndoIsExact(best: BlockIndex?, pindexNew: BlockIndex) {
      best != null ==>
        && Linked(best) && Linked(pindexNew) && Replay(rules, best).Some?
        && FreshToFork(rules, best, pindexNew)
    }

    /** The third case of SetBestChain. */
    method SwitchBranch(pindexNew: BlockIndex) returns (ok: bool, ghost tip: BlockIndex)
      requires TreeOk() && pindexNew in Tree() && pindexBest != null && pindexBest in Tree()
      requires txdb.activeTxn == Some(txdb.committed) && Replay(rules, pindexBest) == Some(txdb.committed.index)
      requires txdb.committed.hashBestChain == pindexBest.hash
      requires PointsTo(Tree(), pindexBest) && RecordsPointTo(txdb.committed.hashNext, Tree(), pindexBest)
      modifies txdb, Tree()`pnext
      ensures !ok ==> At(pindexBest) && txdb.committed == old(txdb.committed)
      ensures ok ==> tip in Tree() && IsAncestor(tip, pindexNew) && At(tip)
      ensures ok ==> tip == pindexNew || StuckAt(tip, pindexNew, CheckScripts())
      ensures UndoIsExact(pindexBest, pindexNew) ==>
        (ok <==> Connectable(rules, CheckScripts(), pindexBest, Intermediate(pindexNew, pindexBest.bnChainWork)))
      ensures ok && UndoIsExact(pindexBest, pindexNew) ==>
        Holds(tip) && (tip == pindexNew <==> Connectable(rules, CheckScripts(), pindexBest, pindexNew))
      ensures MovedTo(ok, tip, pindexBest, pindexNew, CheckScripts())
    {
      hide PointsTo, RecordsPointTo, Connectable, UndoIsExact, StuckAt, Reorganized, Switched, SwitchedThrough;
      tip := pindexNew;
      var pindexIntermediate, postponed := PostponeBlocks(pindexNew);
      ghost var ix := txdb.committed.index;
      ghost var fork;
      ok, fork := Reorganize(pindexIntermediate);
      ReorganizedIsSwitched(ix, fork, pindexIntermediate);
      SwitchedGoesThrough(CheckScripts(), pindexBest, pindexNew);
      if UndoIsExact(pindexBest, pindexNew) {
        SwitchIsReplay(ix, fork, pindexIntermediate, pindexNew);
      }
      if !ok {
        var aborted := txdb.TxnAbort();
        return;
      }
      tip := ConnectPostponed(postponed, pindexIntermediate, pindexNew);
      if UndoIsExact(pindexBest, pindexNew) {
        ConnectUpIsReplay(rules, CheckScripts(), pindexIntermediate, tip);
      }
    }

    /** Success, how far the database came, and what it then holds, whatever the blocks left behind. */
    ghost predicate MovedTo(ok: bool, tip: BlockIndex, best: BlockIndex, pindexNew: BlockIndex, checkScripts: bool)
      reads txdb
    {
      && Linked(best) && Linked(pindexNew) && Replay(rules, best).Some?
      && (ok <==> Switched(rules, checkScripts, best, Intermediate(pindexNew, best.bnChainWork)).Some?)
      && (ok ==> (tip == pindexNew <==> SwitchedThrough(rules, checkScripts, best, pindexNew).Some?))
      && (ok && tip == pindexNew ==> SwitchedThrough(rules, checkScripts, best, pindexNew) == Some(txdb.committed.index))
    }

    lemma ReorganizedIsSwitched(ix: Index, fork: BlockIndex?, b: BlockIndex)
      requires pindexBest != null && Linked(pindexBest) && Linked(b) && Replay(rules, pindexBest) == Some(ix)
      requires fork == LowestCommonAncestor(pindexBest, b)
      requires fork != null ==> Linked(fork) && CommonAncestor(fork, pindexBest, b)
      ensures Switched(rules, CheckScripts(), pindexBest, b) == if fork == null then None else Reorganized(ix, fork, b)
    {
      hide Replay, DisconnectDown, ConnectUp;
    }

    lemma SwitchedGoesThrough(checkScripts: bool, best: BlockIndex, pindexNew: BlockIndex)
      requires Linked(best) && Linked(pindexNew) && Replay(rules, best).Some?
      ensures var b := Intermediate(pindexNew, best.bnChainWork);
        SwitchedThrough(rules, checkScripts, best, pindexNew)
        == match Switched(rules, checkScripts, best, b)
           case None => None
           case Some(ix) => ConnectUp(rules, checkScripts, ix, b, pindexNew)
    {
      hide Switched, ConnectUp, Replay;
    }

    /** What the branch switch makes of the index, in terms of replays. */
    lemma SwitchIsReplay(ix: Index, fork: BlockIndex?, b: BlockIndex, pindexNew: BlockIndex)
      requires pindexBest != null && Linked(pindexBest) && Linked(b) && Linked(pindexNew) && IsAncestor(b, pindexNew)
      requires Replay(rules, pindexBest) == Some(ix) && UndoIsExact(pindexBest, pindexNew)
      requires b == Intermediate(pindexNew, pindexBest.bnChainWork) && fork == LowestCommonAncestor(pindexBest, b)
      requires fork != null ==> Linked(fork) && CommonAncestor(fork, pindexBest, b)
      ensures Connectable(rules, CheckScripts(), pindexBest, b) <==> fork != null && Reorganized(ix, fork, b).Some?
      ensures Connectable(rules, CheckScripts(), pindexBest, b) ==>
        && Replay(rules, b) == Reorganized(ix, fork, b)
        && (Connectable(rules, CheckScripts(), pindexBest, pindexNew) <==>
            ConnectUp(rules, CheckScripts(), Replay(rules, b).value, b, pindexNew).Some?)
    {
      hide Reorganized;
      if b != pindexNew {
        LcaOfHeavier(pindexBest, pindexNew, b);
      }
      if fork != null {
        ReorganizedIsReplay(ix, fork, b);
        AncestorTransitive(fork, b, pindexNew);
        var start := Replay(rules, fork).value;
        if ConnectUp(rules, CheckScripts(), start, fork, b).Some? {
          ConnectUpSplit(rules, CheckScripts(), start, fork, b, pindexNew);
        }
      }
    }

    /** CBlockIndex::IsInMainChain */
    method IsInMainChain(b: BlockIndex) returns (r: bool)
      requires Valid() && b in Tree() && pindexBest != null
      ensures r <==> IsAncestor(b, pindexBest)
    {
      NextOnAncestors(b, pindexBest);
      r := b.pnext != null || b == pindexBest;
    }

    /** A block nobody below best builds on is not on the path, and has no successor to record. */
    lemma NewLeaf(b: BlockIndex)
      requires TreeOk() && pindexBest != null && pindexBest in Tree() && b !in Tree()
      ensures Linked(pindexBest) && NextOn(b, pindexBest) == null
    {
      NextOnAncestors(b, pindexBest);
      if IsAncestor(b, pindexBest) {
        AncestorsInTree(b, pindexBest);
      }
    }

    /** Adds a header without a successor to the tree. */
    method FileHeader(b: BlockIndex)
      requires Valid() && b.hash !in mapBlockIndex && b !in Tree()
      requires b.pnext == null && RecordedNext(txdb.committed.hashNext, b) == NULL_HASH
      requires Linked(b) && (b.pprev != null ==> b.pprev.hash in mapBlockIndex && mapBlockIndex[b.pprev.hash] == b.pprev)
      modifies `mapBlockIndex
      ensures Valid() && mapBlockIndex == old(mapBlockIndex)[b.hash := b] && b in Tree()
    {
      if pindexBest != null {
        NewLeaf(b);
      }
      ghost var tree := Tree();
      mapBlockIndex := mapBlockIndex[b.hash := b];
      assert Tree() == tree + {b} by {
        assert mapBlockIndex[b.hash] == b;
        forall c | c in tree ensures c in Tree() {
          var h :| h in old(mapBlockIndex) && old(mapBlockIndex)[h] == c;
          assert mapBlockIndex[h] == c;
        }
      }
    }

    /** Records that a hash not yet in the tree has no successor, in a transaction of its own. */
    method RecordHeader(hash: Hash)
      requires Valid() && hash !in mapBlockIndex
      modifies txdb
      ensures Valid() && txdb.committed.hashNext == old(txdb.committed.hashNext)[hash := NULL_HASH]
      ensures txdb.committed.index == old(txdb.committed.index)
    {
      var begun := txdb.TxnBegin();
      txdb.WriteHashNext(hash, NULL_HASH);
      var committed := txdb.TxnCommit();
      assert forall b | b in Tree() :: b.hash != hash;
    }

    predicate Heavier(b: BlockIndex, best: BlockIndex?) {
      best == null || b.bnChainWork > best.bnChainWork
    }

    function Known(hash: Hash): BlockIndex?
      reads `mapBlockIndex
    {
      if hash in mapBlockIndex then mapBlockIndex[hash] else null
    }

    /** The header of a block, filed on top of pprev with the work of its bits added. */
    ghost predicate IsHeaderOf(b: BlockIndex, block: Block, hash: Hash, nFile: nat, nBlockPos: nat, pprev: BlockIndex?) {
      && Linked(b) && b.hash == hash && b.pprev == pprev && b.nFile == nFile && b.nBlockPos == nBlockPos
      && b.nTime == block.time && b.nBits == block.bits
      && IsWorkOf(b.bnChainWork - (if pprev == null then 0 else pprev.bnChainWork), SetCompact(block.bits))
    }

    /** Switching from best to b is connecting b. */
    ghost predicate SwitchIsConnect(connected: Option<Index>, b: BlockIndex, best: BlockIndex, checkScripts: bool) {
      && Linked(b) && Linked(best) && Replay(rules, best).Some? && Heavier(b, best)
      && Switched(rules, checkScripts, best, Intermediate(b, best.bnChainWork)) == connected
      && SwitchedThrough(rules, checkScripts, best, b) == connected
      && (connected.Some? ==> Replay(rules, b) == connected)
    }

    /** A block right on top of the best one that has any work at all is heavier, and only has to connect. */
    lemma OnTopOfBest(ix: Index, block: Block, b: BlockIndex, best: BlockIndex, checkScripts: bool)
      requires IsHeaderOf(b, block, b.hash, b.nFile, b.nBlockPos, best) && BlockAt(rules, b) == Some(block)
      requires 0 < SetCompact(block.bits) < TWO_TO_256 && Linked(best) && Replay(rules, best) == Some(ix)
      ensures SwitchIsConnect(Connect(rules, ix, b, checkScripts, block), b, best, checkScripts)
    {
      WorkIsPositive(SetCompact(block.bits), b.bnChainWork - best.bnChainWork);
      hide IsWorkOf, SetCompact, Switched, SwitchedThrough;
      ExtensionSwitched(rules, checkScripts, best, b);
      if Connect(rules, ix, b, checkScripts, block).Some? {
        ConnectUnchecked(rules, ix, b, checkScripts, block);
      }
    }

    /** Adds a stored block to the tree and, if its chain has more work than the best, makes it the best. */
    method AddToBlockIndex(block: Block, hash: Hash, nFile: nat, nBlockPos: nat)
      returns (ok: bool, ghost tip: BlockIndex?)
      requires Valid() && rules.readBlock(nFile, nBlockPos) == Some(block)
      requires pindexBest == null ==> hash == hashGenesisBlock && block.hashPrevBlock !in mapBlockIndex
      modifies this, txdb, Tree()`pnext
      ensures ok ==> hash !in old(mapBlockIndex) && hash in mapBlockIndex
      ensures hash in old(mapBlockIndex) ==> !ok && mapBlockIndex == old(mapBlockIndex)
      ensures hash !in old(mapBlockIndex) ==>
        && hash in mapBlockIndex && mapBlockIndex == old(mapBlockIndex)[hash := mapBlockIndex[hash]]
        && IsHeaderOf(mapBlockIndex[hash], block, hash, nFile, nBlockPos, old(Known(block.hashPrevBlock)))
      ensures ok && Heavier(mapBlockIndex[hash], old(pindexBest)) ==> pindexBest == mapBlockIndex[hash]
      ensures ok ==>
        (pindexBest == mapBlockIndex[hash] <==>
         old(pindexBest) == null || mapBlockIndex[hash].bnChainWork > old(pindexBest).bnChainWork)
      ensures !ok || !Heavier(mapBlockIndex[hash], old(pindexBest)) ==> pindexBest == old(pindexBest)
      ensures hash !in old(mapBlockIndex) && !Heavier(mapBlockIndex[hash], old(pindexBest)) ==> ok && Valid()
      ensures hash !in old(mapBlockIndex) && old(pindexBest) == null ==> ok && Valid()
      ensures hash !in old(mapBlockIndex) && old(pindexBest) != null && Heavier(mapBlockIndex[hash], old(pindexBest)) ==>
        && Linked(old(pindexBest)) && Replay(rules, old(pindexBest)).Some?
        && (ok <==> Switched(rules, old(CheckScripts()), old(pindexBest),
                             Intermediate(mapBlockIndex[hash], old(pindexBest).bnChainWork)).Some?)
      ensures !ok ==> Valid() && pindexBest == old(pindexBest) && txdb.committed.index == old(txdb.committed.index)
      ensures ok && pindexBest == old(pindexBest) ==> Valid()
      ensures ok && pindexBest != old(pindexBest) ==>
        pindexBest == mapBlockIndex[hash] && TreeOk() && tip != null && tip in Tree() && At(tip)
      ensures ok && pindexBest != old(pindexBest) && UndoIsExact(old(pindexBest), pindexBest) ==>
        && Holds(tip) && (Valid() <==> tip == pindexBest)
        && (Valid() <==> old(pindexBest) == null || Connectable(rules, old(CheckScripts()), old(pindexBest), pindexBest))
      ensures hash !in old(mapBlockIndex) && old(pindexBest) != null && block.hashPrevBlock == old(hashBestChain)
              && 0 < SetCompact(block.bits) < TWO_TO_256 ==>
        var connected := Connect(rules, old(txdb.committed.index), mapBlockIndex[hash],
                                 old(nBestHeight) >= rules.totalBlocksEstimate, block);
        && Valid() && (ok <==> connected.Some?) && pindexBest == (if ok then mapBlockIndex[hash] else old(pindexBest))
        && (ok ==> Some(txdb.committed.index) == connected)
    {
      if hash in mapBlockIndex {
        return false, null;
      }
      hide Holds, UndoIsExact, At, StuckAt, Connectable, Switched, SwitchedThrough, IsHeaderOf, SetCompact, Connect, SwitchIsConnect;
      var pindexNew := StoreHeader(block, hash, nFile, nBlockPos);
      tip := null;
      ok := true;
      if Heavier(pindexNew, pindexBest) {
        ok, tip := SetBestChain(block, pindexNew);
      }
    }

    /** The first half of AddToBlockIndex: the header joins the tree and is recorded. */
    method StoreHeader(block: Block, hash: Hash, nFile: nat, nBlockPos: nat) returns (pindexNew: BlockIndex)
      requires Valid() && rules.readBlock(nFile, nBlockPos) == Some(block) && hash !in mapBlockIndex
      modifies `mapBlockIndex, txdb
      ensures fresh(pindexNew) && Valid() && mapBlockIndex == old(mapBlockIndex)[hash := pindexNew] && pindexNew in Tree()
      ensures txdb.committed.index == old(txdb.committed.index)
      ensures IsHeaderOf(pindexNew, block, hash, nFile, nBlockPos, old(Known(block.hashPrevBlock)))
      ensures pindexNew.hash == hash && BlockAt(rules, pindexNew) == Some(block)
      ensures if block.hashPrevBlock in old(mapBlockIndex) then
                pindexNew.pprev != null && pindexNew.pprev.hash == block.hashPrevBlock
              else pindexNew.pprev == null
      ensures pindexBest != null && block.hashPrevBlock == hashBestChain && 0 < SetCompact(block.bits) < TWO_TO_256 ==>
        SwitchIsConnect(Connect(rules, txdb.committed.index, pindexNew, CheckScripts(), block), pindexNew, pindexBest, CheckScripts())
    {
      var pprev := Known(block.hashPrevBlock);
      KnownIsThere(block.hashPrevBlock);
      hide Holds, SetCompact, IsWorkOf;
      pindexNew := new BlockIndex(hash, pprev, BlockWork(block.bits), nFile, nBlockPos, block.time, block.bits);
      RecordHeader(hash);
      FileHeader(pindexNew);
      if pindexBest != null && block.hashPrevBlock == hashBestChain && 0 < SetCompact(block.bits) < TWO_TO_256 {
        NewOnTop(block, pindexNew);
      }
    }

    lemma KnownIsThere(hash: Hash)
      requires Valid()
      ensures Known(hash) != null ==> Linked(Known(hash)) && Known(hash).hash == hash
      ensures pindexBest != null ==> Known(hashBestChain) == pindexBest
    {
    }

    lemma NewOnTop(block: Block, b: BlockIndex)
      requires Valid() && pindexBest != null && BlockAt(rules, b) == Some(block)
      requires IsHeaderOf(b, block, b.hash, b.nFile, b.nBlockPos, pindexBest) && 0 < SetCompact(block.bits) < TWO_TO_256
      ensures SwitchIsConnect(Connect(rules, txdb.committed.index, b, CheckScripts(), block), b, pindexBest, CheckScripts())
    {
      hide SetCompact, IsHeaderOf, SwitchIsConnect, Connect;
      OnTopOfBest(txdb.committed.index, block, b, pindexBest, CheckScripts());
    }
  }

  lemma {:induction false} ConnectUpFails(rules: Rules, checkScripts: bool, ix: Index, fork: BlockIndex,
                                          b: BlockIndex, top: BlockIndex)
    requires Linked(top) && Linked(b) && IsAncestor(fork, b) && IsAncestor(b, top)
    requires IsAncestor(fork, top) && ConnectUp(rules, checkScripts, ix, fork, b).None?
    ensures ConnectUp(rules, checkScripts, ix, fork, top).None?
    decreases top.nHeight
  {
    if b != top {
      AncestorFacts(b, top.pprev);
      AncestorFacts(fork, b);
      AncestorTransitive(fork, b, top.pprev);
      ConnectUpFails(rules, checkScripts, ix, fork, b, top.pprev);
    }
  }

  lemma NextIsListed(p: seq<BlockIndex>, fork: BlockIndex, top: BlockIndex, i: nat)
    requires Linked(top) && IsPath(p, fork, top) && i < |p|
    ensures NextOn(Reached(p, fork, i), top) == p[i]
  {
    var b := Reached(p, fork, i);
    PathFacts(p, fork, top, i);
    PathFacts(p, fork, top, i + 1);
    assert Reached(p, fork, i + 1) == p[i] && p[i].pprev == b;
    AncestorFacts(p[i], top);
    NextOnAncestors(b, top);
    AncestorFacts(b, top);
    var c := NextOn(b, top);
    AncestorFacts(c, top);
    AncestorsChain(c, p[i], top);
    AncestorFacts(c, p[i]);
  }

  /** Blocks listed on the path are not fork itself. */
  lemma PathIsAbove(p: seq<BlockIndex>, fork: BlockIndex, top: BlockIndex, i: nat)
    requires Linked(top) && IsPath(p, fork, top) && 0 < i <= |p|
    ensures Linked(Reached(p, fork, i)) && Reached(p, fork, i) != fork
  {
    PathFacts(p, fork, top, i);
    PathFacts(p, fork, top, i - 1);
    AncestorFacts(fork, Reached(p, fork, i - 1));
  }

  // No double spend

  /** The outputs spent on the path to b, block by block. */
  ghost function SpentOnPath(rules: Rules, b: BlockIndex): seq<(Hash, nat)>
    requires Linked(b) && Replay(rules, b).Some?
    decreases b.nHeight
  {
    if b.pprev == null then []
    else SpentOnPath(rules, b.pprev) + SpentInTxs(BlockAt(rules, b).value.vtx)
  }

  function SpentInTxs(vtx: seq<Tx>): seq<(Hash, nat)> {
    if vtx == [] then []
    else SpentInTxs(vtx[..|vtx| - 1]) + SpentInTx(vtx[|vtx| - 1])
  }

  function SpentInVin(vin: seq<TxIn>): seq<(Hash, nat)> {
    if vin == [] then []
    else SpentInVin(vin[..|vin| - 1]) + [(vin[|vin| - 1].prevout.hash, vin[|vin| - 1].prevout.n as nat)]
  }

  /** Every listed output is indexed and flagged as spent, and none is listed twice. */
  ghost predicate Flagged(index: Index, spent: seq<(Hash, nat)>) {
    && NoRepeats(spent)
    && forall i | 0 <= i < |spent| ::
         var (h, n) := spent[i];
         h in index && n < |index[h].vSpent| && index[h].vSpent[n] != NullPos
  }

  lemma FlaggedMark(ix: Index, spent: seq<(Hash, nat)>, o: OutPoint, p: DiskTxPos)
    requires Flagged(ix, spent) && Unspent(ix, o) && p != NullPos
    ensures Flagged(Mark(ix, o, p), spent + [(o.hash, o.n as nat)])
  {
    var ix', spent' := Mark(ix, o, p), spent + [(o.hash, o.n as nat)];
    forall i | 0 <= i < |spent'|
      ensures spent'[i].0 in ix' && spent'[i].1 < |ix'[spent'[i].0].vSpent| && ix'[spent'[i].0].vSpent[spent'[i].1] != NullPos
      ensures i < |spent| ==> spent'[i] != spent'[|spent|]
    {
      if i < |spent| {
        var (h, n) := spent[i];
        assert h in ix && n < |ix[h].vSpent| && ix[h].vSpent[n] != NullPos;
      }
    }
  }

  lemma {:induction false} SpendFlags(index: Index, vin: seq<TxIn>, p: DiskTxPos, spent: seq<(Hash, nat)>)
    requires Spend(index, vin, p).Some? && p != NullPos && Flagged(index, spent)
    ensures Flagged(Spend(index, vin, p).value, spent + SpentInVin(vin))
  {
    if vin == [] {
      assert spent + [] == spent;
    } else {
      var init, o := vin[..|vin| - 1], vin[|vin| - 1].prevout;
      SpendFlags(index, init, p, spent);
      FlaggedMark(Spend(index, init, p).value, spent + SpentInVin(init), o, p);
      assert spent + SpentInVin(vin) == spent + SpentInVin(init) + [(o.hash, o.n as nat)];
    }
  }

  function SpentInTx(tx: Tx): seq<(Hash, nat)> {
    if tx.IsCoinBase() then [] else SpentInVin(tx.vin)
  }

  lemma ConnectTxFlags(rules: Rules, base: Index, pindex: BlockIndex, p: Progress, tx: Tx, pos: DiskTxPos,
                       spent: seq<(Hash, nat)>)
    requires ConnectTx(rules, base, pindex, false, p, tx, pos).Some? && pos != NullPos
    requires rules.txid(tx) !in p.index && Flagged(p.index, spent)
    ensures Flagged(ConnectTx(rules, base, pindex, false, p, tx, pos).value.index, spent + SpentInTx(tx))
  {
    var ix := p.index;
    if tx.IsCoinBase() {
      assert spent + [] == spent;
    } else {
      SpendFlags(p.index, tx.vin, pos, spent);
      SpendMarksOuts(p.index, tx.vin, pos);
      ix := Spend(p.index, tx.vin, pos).value;
    }
    FlaggedAdd(ix, rules.txid(tx), TxIndex(pos, Nulls(|tx.vout|)), spent + SpentInTx(tx));
  }

  lemma FlaggedAdd(ix: Index, h: Hash, entry: TxIndex, spent: seq<(Hash, nat)>)
    requires Flagged(ix, spent) && h !in ix
    ensures Flagged(ix[h := entry], spent)
  {
  }

  lemma SpentInTxsSnoc(vtx: seq<Tx>, k: nat, spent: seq<(Hash, nat)>)
    requires 0 < k <= |vtx|
    ensures spent + SpentInTxs(vtx[..k]) == spent + SpentInTxs(vtx[..k - 1]) + SpentInTx(vtx[k - 1])
  {
    assert vtx[..k][..k - 1] == vtx[..k - 1];
  }

  /** The k-th transaction to be connected has an id that is not in the index by then. */
  lemma NextIdIsNew(rules: Rules, base: Index, pindex: BlockIndex, b: Block, k: nat)
    requires 0 < k <= |b.vtx| && NewIds(rules, base, b, k)
    requires ConnectTxs(rules, base, pindex, false, b, k - 1).Some?
    ensures rules.txid(b.vtx[k - 1]) !in ConnectTxs(rules, base, pindex, false, b, k - 1).value.index
    ensures NewIds(rules, base, b, k - 1) && TxPos(pindex, b, k - 1) != NullPos
  {
    hide ConnectTxs, ConnectTx;
    ConnectedKeys(rules, base, pindex, false, b, k - 1);
    var id, ix := rules.txid(b.vtx[k - 1]), ConnectTxs(rules, base, pindex, false, b, k - 1).value.index;
    assert id !in ix.Keys;
  }

  lemma {:induction false} ConnectTxsFlags(rules: Rules, base: Index, pindex: BlockIndex, b: Block, k: nat,
                                           spent: seq<(Hash, nat)>)
    requires k <= |b.vtx| && NewIds(rules, base, b, k) && Flagged(base, spent)
    requires ConnectTxs(rules, base, pindex, false, b, k).Some?
    ensures Flagged(ConnectTxs(rules, base, pindex, false, b, k).value.index, spent + SpentInTxs(b.vtx[..k]))
  {
    if k == 0 {
      assert spent + [] == spent;
    } else {
      hide ConnectTx, Flagged;
      SpentInTxsSnoc(b.vtx, k, spent);
      NextIdIsNew(rules, base, pindex, b, k);
      hide NewIds, TxPos;
      ConnectTxsFlags(rules, base, pindex, b, k - 1, spent);
      ConnectTxFlags(rules, base, pindex, ConnectTxs(rules, base, pindex, false, b, k - 1).value,
                     b.vtx[k - 1], TxPos(pindex, b, k - 1), spent + SpentInTxs(b.vtx[..k - 1]));
    }
  }

  /** On a chain that never reuses a transaction id, no output is spent twice. */
  lemma {:induction false} NoDoubleSpend(rules: Rules, b: BlockIndex)
    requires Linked(b) && Replay(rules, b).Some? && FreshPath(rules, b)
    ensures NoRepeats(SpentOnPath(rules, b))
    ensures Flagged(Replay(rules, b).value, SpentOnPath(rules, b))
    decreases b.nHeight
  {
    if b.pprev != null {
      NoDoubleSpend(rules, b.pprev);
      var block := BlockAt(rules, b).value;
      FreshIdsAreNew(rules, Replay(rules, b.pprev).value, block, |block.vtx|);
      ConnectTxsFlags(rules, Replay(rules, b.pprev).value, b, block, |block.vtx|, SpentOnPath(rules, b.pprev));
      assert block.vtx[..|block.vtx|] == block.vtx;
    }
  }

  // Supply along a chain

  /** Every block on the path can be read back, and each of its transactions at its recorded position. */
  ghost predicate PathStored(rules: Rules, b: BlockIndex)
    requires Linked(b) && Replay(rules, b).Some?
    decreases b.nHeight
  {
    b.pprev != null ==> PathStored(rules, b.pprev) && Stored(rules, b, BlockAt(rules, b).value)
  }

  /** The unspent outputs of a chain are worth at most one COIN for each connected block. */
  lemma {:induction false} ChainSupplyBound(rules: Rules, b: BlockIndex)
    requires Linked(b) && Replay(rules, b).Some? && PathStored(rules, b)
    ensures IndexOk(rules, Replay(rules, b).value)
    ensures Total(rules, Replay(rules, b).value) <= b.nHeight * COIN
    decreases b.nHeight
  {
    if b.pprev != null {
      ChainSupplyBound(rules, b.pprev);
      SupplyBound(rules, Replay(rules, b.pprev).value, b, false, BlockAt(rules, b).value);
    }
  }

  /** With real block files, a block whose printed form lies at its position is stored in that sense. */
  lemma FilesStore(rules: Rules, files: nat -> seq<Byte>, pindex: BlockIndex, b: Block)
    requires forall pos: DiskTxPos | pos.DiskTxPos? :: rules.readTx(pos) == ReadTxAt(files(pos.file), pos.txPos)
    requires HoldsAt(files(pindex.nFile), pindex.nBlockPos, PrintBlock(b))
    requires forall i | 0 <= i < |b.vtx| :: Readable(b.vtx[i])
    ensures Stored(rules, pindex, b)
  {
    forall i | 0 <= i < |b.vtx| ensures rules.readTx(TxPos(pindex, b, i)) == Some(b.vtx[i]) {
      RecordedOffsetReadsTx(files(pindex.nFile), b, pindex.nBlockPos, i);
    }
  }

  // A node that ends up claiming a best block its database is not at

  function SmallHash(k: Byte): Hash {
    Hash([k] + Zeros(31))
  }

  /** The second block of the branch has been lost from the files. */
  function StuckBlock(file: nat, pos: nat): Option<Block> {
    if pos == 2 then None else Some(PlainBlock(if pos == 0 then NULL_HASH else SmallHash(if pos == 3 then 2 else 0)))
  }

  /** Genesis, and a branch of three blocks of which the first connects and the second does not. */
  lemma StuckBranch(rules: Rules, checkScripts: bool, g: BlockIndex, a: BlockIndex, b: BlockIndex, c: BlockIndex)
    requires rules == PlainRules(StuckBlock)
    requires Linked(c) && c.pprev == b && b.pprev == a && a.pprev == g && g.pprev == null
    requires a.nBlockPos == 1 && b.nBlockPos == 2 && g.bnChainWork == 0 && a.bnChainWork > 0
    ensures Linked(g) && Linked(a) && Intermediate(c, g.bnChainWork) == a
    ensures Connectable(rules, checkScripts, g, a) && !Connectable(rules, checkScripts, g, c)
    ensures LowestCommonAncestor(g, c) == g && Replay(rules, g).Some?
  {
    assert Linked(b) && Linked(a) && Linked(g);
    AncestorWork(a, b);
    assert Intermediate(c, 0) == Intermediate(b, 0) == Intermediate(a, 0) == a;
    AncestorTransitive(g, g, g);
    assert IsAncestor(g, a) && IsAncestor(g, b) && IsAncestor(g, c);
    assert LowestCommonAncestor(g, a) == g && LowestCommonAncestor(g, c) == g;
    PlainConnects(rules, map[], a, checkScripts, SmallHash(0));
    hide Connect;
    assert ConnectUp(rules, checkScripts, map[], g, g) == Some(map[]);
    assert ConnectUp(rules, checkScripts, map[], g, a) == ConnectStep(rules, checkScripts, map[], a);
    assert ConnectStep(rules, checkScripts, map[], a).Some?;
    assert BlockAt(rules, b).None?;
    assert ConnectUp(rules, checkScripts, map[], g, b).None?;
    assert ConnectUp(rules, checkScripts, map[], g, c).None?;
  }

  /** Adds a header as AddToBlockIndex does before it looks at the work. */
  method AddHeader(chain: Chain, b: BlockIndex)
    requires chain.Valid() && b.hash !in chain.mapBlockIndex && b !in chain.Tree() && b.pnext == null && Linked(b)
    requires b.pprev != null ==> b.pprev.hash in chain.mapBlockIndex && chain.mapBlockIndex[b.pprev.hash] == b.pprev
    modifies chain`mapBlockIndex, chain.txdb
    ensures chain.Valid() && chain.mapBlockIndex == old(chain.mapBlockIndex)[b.hash := b] && b in chain.Tree()
  {
    chain.RecordHeader(b.hash);
    chain.FileHeader(b);
  }

  lemma SmallHashesDiffer(i: Byte, j: Byte)
    requires i != j
    ensures SmallHash(i) != SmallHash(j)
  {
    assert SmallHash(i).bytes[0] == i && SmallHash(j).bytes[0] == j;
  }

  /** A node at genesis alone. */
  method GenesisOnly() returns (chain: Chain, g: BlockIndex)
    ensures fresh(chain) && fresh(chain.txdb) && fresh(g) && chain.Valid() && chain.rules == PlainRules(StuckBlock)
    ensures chain.pindexBest == g && g.pprev == null && g.hash == SmallHash(0) && g.bnChainWork == 0 && Linked(g)
    ensures chain.mapBlockIndex == map[SmallHash(0) := g] && g in chain.Tree()
  {
    hide SmallHash, Connectable;
    chain := new Chain(PlainRules(StuckBlock), SmallHash(0));
    g := new BlockIndex(SmallHash(0), null, 0, 0, 0, 0, 0);
    AddHeader(chain, g);
    var ok;
    ghost var tip;
    ok, tip := chain.SetBestChain(PlainBlock(NULL_HASH), g);
  }

  /** Adds a block with a work of one on top of another. */
  method Extend(chain: Chain, below: BlockIndex, k: Byte) returns (b: BlockIndex)
    requires chain.Valid() && below in chain.Tree() && Linked(below) && SmallHash(k) !in chain.mapBlockIndex
    requires below.hash in chain.mapBlockIndex && chain.mapBlockIndex[below.hash] == below
    modifies chain`mapBlockIndex, chain.txdb
    ensures fresh(b) && b.hash == SmallHash(k) && b.pprev == below && b.nFile == 0 && b.nBlockPos == k && Linked(b)
    ensures b.bnChainWork == below.bnChainWork + 1
    ensures chain.Valid() && chain.mapBlockIndex == old(chain.mapBlockIndex)[SmallHash(k) := b] && b in chain.Tree()
  {
    b := new BlockIndex(SmallHash(k), below, 1, 0, k, 0, 0);
    hide SmallHash;
    AddHeader(chain, b);
  }

  lemma NothingToUndo(chain: Chain, g: BlockIndex, c: BlockIndex)
    requires Linked(g) && Linked(c) && LowestCommonAncestor(g, c) == g && Replay(chain.rules, g).Some?
    ensures chain.UndoIsExact(g, c)
  {
    LowestCommonAncestorIsLowest(g, c, g);
  }

  lemma SmallHashesDistinct()
    ensures SmallHash(1) !in {SmallHash(0)} && SmallHash(2) !in {SmallHash(0), SmallHash(1)}
    ensures SmallHash(3) !in {SmallHash(0), SmallHash(1), SmallHash(2)}
  {
    SmallHashesDiffer(0, 1);
    SmallHashesDiffer(0, 2);
    SmallHashesDiffer(0, 3);
    SmallHashesDiffer(1, 2);
    SmallHashesDiffer(1, 3);
    SmallHashesDiffer(2, 3);
  }

  /** A tree as it may be after a restart: the branch has been filed and its blocks have yet to be connected. */
  method StuckTree() returns (chain: Chain, g: BlockIndex, a: BlockIndex, b: BlockIndex, c: BlockIndex)
    ensures fresh(chain) && fresh(chain.txdb) && (forall x | x in chain.Tree() :: fresh(x))
    ensures chain.Valid() && chain.rules == PlainRules(StuckBlock) && chain.pindexBest == g && c in chain.Tree()
    ensures Linked(c) && c.pprev == b && b.pprev == a && a.pprev == g && g.pprev == null
    ensures a.nBlockPos == 1 && b.nBlockPos == 2 && g.bnChainWork == 0 && a.bnChainWork > 0
    ensures c.nFile == 0 && c.nBlockPos == 3 && b.hash == SmallHash(2)
  {
    hide SmallHash, Chain.Valid, Linked;
    SmallHashesDistinct();
    chain, g := GenesisOnly();
    a := Extend(chain, g, 1);
    b := Extend(chain, a, 2);
    c := Extend(chain, b, 3);
  }

  /** SetBestChain is called on a valid node and succeeds, and the node is not valid any more. */
  method StuckRun() returns (chain: Chain, ok: bool)
    ensures fresh(chain) && ok && chain.TreeOk() && !chain.Valid()
  {
    var g, a, b, c;
    chain, g, a, b, c := StuckTree();
    StuckBranch(chain.rules, chain.CheckScripts(), g, a, b, c);
    NothingToUndo(chain, g, c);
    hide Chain.Valid, Chain.UndoIsExact, Connectable, SmallHash;
    ghost var tip;
    ok, tip := chain.SetBestChain(PlainBlock(SmallHash(2)), c);
  }
}
