/**
 * What connecting and disconnecting a block mean, stated directly on the transaction index:
 * one transaction after the other, without the queue of pending changes the code keeps.
 */
module Ledger {
  import opened Wrappers
  import opened Transactions
  import opened BlockTree

  const COINBASE_MATURITY := 15
  const MAX_BLOCK_SIGOPS := 1_000_000 / 50
  const BIP30_SWITCH_TIME := 1349049600
  const BIP16_SWITCH_TIME := 1349049600

  /** NullPos is the marker nFile == -1: in a spent flag it means "not spent". */
  datatype DiskTxPos = NullPos | DiskTxPos(file: nat, blockPos: nat, txPos: nat)

  /** Entries that only exist in the memory pool carry this position. */
  const MEMPOOL_POS := DiskTxPos(1, 1, 1)

  datatype TxIndex = TxIndex(pos: DiskTxPos, vSpent: seq<DiskTxPos>)

  type Index = map<Hash, TxIndex>

  /** The world outside: hashing, block files, the memory pool, signature checking, context-free block checks. */
  datatype Rules = Rules(
    txid: Tx -> Hash,
    readTx: DiskTxPos -> Option<Tx>,
    readBlock: (nat, nat) -> Option<Block>,
    mempool: map<Hash, Tx>,
    verifySignature: (Tx, Tx, nat, bool) -> bool,
    legacySigOps: Tx -> nat,
    p2shSigOps: (TxOut, TxIn) -> nat,
    otherBlockChecks: Block -> bool,
    totalBlocksEstimate: nat)

  // Values

  function ValueOut(vout: seq<TxOut>): int {
    if vout == [] then 0 else ValueOut(vout[..|vout| - 1]) + vout[|vout| - 1].value
  }

  predicate OutputsInRange(vout: seq<TxOut>) {
    forall k | 0 <= k < |vout| :: InRange(vout, k)
  }

  /** The k-th value and the sum so far. */
  predicate InRange(vout: seq<TxOut>, k: nat)
    requires k < |vout|
  {
    MoneyRange(vout[k].value) && MoneyRange(ValueOut(vout[..k + 1]))
  }

  // Context-free checks

  function Outs(vin: seq<TxIn>): set<(Hash, nat)> {
    set i | 0 <= i < |vin| :: (vin[i].prevout.hash, vin[i].prevout.n as nat)
  }

  predicate CheckTransaction(tx: Tx) {
    && tx.vin != [] && tx.vout != []
    && TxSize(tx) <= 1_000_000
    && OutputsInRange(tx.vout)
    && (forall i, j | 0 <= i < j < |tx.vin| :: tx.vin[i].prevout != tx.vin[j].prevout)
    && (if tx.IsCoinBase() then 2 <= |tx.vin[0].scriptSig| <= 100
        else forall i | 0 <= i < |tx.vin| :: !tx.vin[i].prevout.IsNull())
  }

  predicate DistinctIds(rules: Rules, b: Block) {
    forall i, j | 0 <= i < j < |b.vtx| :: rules.txid(b.vtx[i]) != rules.txid(b.vtx[j])
  }

  predicate CheckBlock(rules: Rules, b: Block) {
    && b.vtx != [] && b.vtx[0].IsCoinBase()
    && (forall i | 1 <= i < |b.vtx| :: !b.vtx[i].IsCoinBase())
    && (forall i | 0 <= i < |b.vtx| :: CheckTransaction(b.vtx[i]))
    && DistinctIds(rules, b)
    && rules.otherBlockChecks(b)
  }

  // Spending

  predicate Unspent(index: Index, o: OutPoint) {
    o.hash in index && o.n < |index[o.hash].vSpent| && index[o.hash].vSpent[o.n] == NullPos
  }

  function Mark(index: Index, o: OutPoint, p: DiskTxPos): Index
    requires o.hash in index && o.n < |index[o.hash].vSpent|
  {
    index[o.hash := index[o.hash].(vSpent := index[o.hash].vSpent[o.n := p])]
  }

  /** Marks the outputs named by the inputs one by one; an input whose output is missing or already spent fails. */
  function Spend(index: Index, vin: seq<TxIn>, p: DiskTxPos): Option<Index> {
    if vin == [] then Some(index)
    else
      var o := vin[|vin| - 1].prevout;
      match Spend(index, vin[..|vin| - 1], p)
      case None => None
      case Some(ix) => if Unspent(ix, o) then Some(Mark(ix, o, p)) else None
  }

  /** Clears the spent flags in input order, as CTransaction::DisconnectInputs does. */
  function Unspend(index: Index, vin: seq<TxIn>): Option<Index> {
    if vin == [] then Some(index)
    else
      var o := vin[|vin| - 1].prevout;
      match Unspend(index, vin[..|vin| - 1])
      case None => None
      case Some(ix) =>
        if o.hash in ix && o.n < |ix[o.hash].vSpent| then Some(Mark(ix, o, NullPos)) else None
  }

  // Previous transactions

  function PrevTx(rules: Rules, hash: Hash, ix: TxIndex): Option<Tx> {
    if ix.pos == MEMPOOL_POS then
      if hash in rules.mempool then Some(rules.mempool[hash]) else None
    else rules.readTx(ix.pos)
  }

  /** FetchInputs succeeds on this input: its transaction is indexed and readable and has that output. */
  predicate Fetchable(rules: Rules, index: Index, o: OutPoint) {
    && o.hash in index
    && PrevTx(rules, o.hash, index[o.hash]).Some?
    && o.n < |PrevTx(rules, o.hash, index[o.hash]).value.vout|
    && o.n < |index[o.hash].vSpent|
  }

  function PrevOf(rules: Rules, index: Index, o: OutPoint): Tx
    requires Fetchable(rules, index, o)
  {
    PrevTx(rules, o.hash, index[o.hash]).value
  }

  function PrevOut(rules: Rules, index: Index, o: OutPoint): TxOut
    requires Fetchable(rules, index, o)
  {
    PrevOf(rules, index, o).vout[o.n]
  }

  predicate AllFetchable(rules: Rules, index: Index, vin: seq<TxIn>) {
    forall i | 0 <= i < |vin| :: Fetchable(rules, index, vin[i].prevout)
  }

  function ValueIn(rules: Rules, index: Index, vin: seq<TxIn>): int
    requires AllFetchable(rules, index, vin)
  {
    if vin == [] then 0
    else ValueIn(rules, index, vin[..|vin| - 1]) + PrevOut(rules, index, vin[|vin| - 1].prevout).value
  }

  function P2SHSigOps(rules: Rules, index: Index, vin: seq<TxIn>): nat
    requires AllFetchable(rules, index, vin)
  {
    if vin == [] then 0
    else P2SHSigOps(rules, index, vin[..|vin| - 1]) +
         rules.p2shSigOps(PrevOut(rules, index, vin[|vin| - 1].prevout), vin[|vin| - 1])
  }

  /** A block fewer than COINBASE_MATURITY below pindex, or pindex itself, lies at that place in the block files. */
  ghost predicate Immature(pindex: BlockIndex?, tip: nat, pos: DiskTxPos)
    decreases if pindex == null then 0 else 1 + pindex.nHeight
  {
    && pindex != null && tip - pindex.nHeight < COINBASE_MATURITY
    && ((pos != NullPos && pindex.nBlockPos == pos.blockPos && pindex.nFile == pos.file)
        || (pindex.pprev != null && pindex.pprev.nHeight < pindex.nHeight && Immature(pindex.pprev, tip, pos)))
  }

  /** The checks ConnectInputs makes on input i, apart from the double-spend check. */
  ghost predicate InputOk(rules: Rules, index: Index, pindex: BlockIndex, checkScripts: bool, tx: Tx, i: nat)
    requires i < |tx.vin| && AllFetchable(rules, index, tx.vin)
  {
    var o := tx.vin[i].prevout;
    var prev := PrevOf(rules, index, o);
    && !(prev.IsCoinBase() && Immature(pindex, pindex.nHeight, index[o.hash].pos))
    && MoneyRange(prev.vout[o.n].value)
    && MoneyRange(ValueIn(rules, index, tx.vin[..i + 1]))
    && (checkScripts ==> rules.verifySignature(prev, tx, i, pindex.nTime >= BIP16_SWITCH_TIME))
  }

  ghost predicate InputsOk(rules: Rules, index: Index, pindex: BlockIndex, checkScripts: bool, tx: Tx) {
    && AllFetchable(rules, index, tx.vin)
    && (forall i | 0 <= i < |tx.vin| :: InputOk(rules, index, pindex, checkScripts, tx, i))
    && ValueIn(rules, index, tx.vin) >= ValueOut(tx.vout)
    && MoneyRange(ValueIn(rules, index, tx.vin) - ValueOut(tx.vout))
  }

  // Connecting

  function Nulls(n: nat): (s: seq<DiskTxPos>)
    ensures |s| == n && forall i | 0 <= i < n :: s[i] == NullPos
  {
    seq(n, _ => NullPos)
  }

  datatype Progress = Progress(index: Index, fees: int, sigOps: nat)

  predicate HasUnspentOutput(ix: TxIndex) {
    exists n | 0 <= n < |ix.vSpent| :: ix.vSpent[n] == NullPos
  }

  /** The rule of BIP 30, section "Specification", against the index as it was before the block. */
  predicate Overwrites(rules: Rules, base: Index, pindex: BlockIndex, tx: Tx) {
    pindex.nTime > BIP30_SWITCH_TIME && rules.txid(tx) in base && HasUnspentOutput(base[rules.txid(tx)])
  }

  /** A transaction that is not a coinbase takes its inputs and pays its fee. */
  ghost function SpendTx(rules: Rules, pindex: BlockIndex, checkScripts: bool,
                         p: Progress, tx: Tx, pos: DiskTxPos): Option<Progress>
  {
    if !InputsOk(rules, p.index, pindex, checkScripts, tx) then None
    else
      var sigOps := p.sigOps +
        if pindex.nTime >= BIP16_SWITCH_TIME then P2SHSigOps(rules, p.index, tx.vin) else 0;
      if pindex.nTime >= BIP16_SWITCH_TIME && sigOps > MAX_BLOCK_SIGOPS then None
      else
        match Spend(p.index, tx.vin, pos)
        case None => None
        case Some(spent) =>
          Some(Progress(spent, p.fees + (ValueIn(rules, p.index, tx.vin) - ValueOut(tx.vout)), sigOps))
  }

  ghost function ConnectTx(rules: Rules, base: Index, pindex: BlockIndex, checkScripts: bool,
                           p: Progress, tx: Tx, pos: DiskTxPos): Option<Progress>
  {
    var sigOps := p.sigOps + rules.legacySigOps(tx);
    if Overwrites(rules, base, pindex, tx) || sigOps > MAX_BLOCK_SIGOPS then None
    else
      match (if tx.IsCoinBase() then Some(p.(sigOps := sigOps))
             else SpendTx(rules, pindex, checkScripts, p.(sigOps := sigOps), tx, pos))
      case None => None
      case Some(q) => Some(q.(index := q.index[rules.txid(tx) := TxIndex(pos, Nulls(|tx.vout|))]))
  }

  function TxPos(pindex: BlockIndex, b: Block, i: nat): DiskTxPos
    requires i < |b.vtx|
  {
    DiskTxPos(pindex.nFile, pindex.nBlockPos, TxOffset(b, pindex.nBlockPos, i))
  }

  /** The first k transactions of the block. */
  ghost function ConnectTxs(rules: Rules, base: Index, pindex: BlockIndex, checkScripts: bool,
                            b: Block, k: nat): Option<Progress>
    requires k <= |b.vtx|
  {
    if k == 0 then Some(Progress(base, 0, 0))
    else
      match ConnectTxs(rules, base, pindex, checkScripts, b, k - 1)
      case None => None
      case Some(p) => ConnectTx(rules, base, pindex, checkScripts, p, b.vtx[k - 1], TxPos(pindex, b, k - 1))
  }

  ghost function Connect(rules: Rules, base: Index, pindex: BlockIndex, checkScripts: bool, b: Block): Option<Index> {
    if !CheckBlock(rules, b) then None
    else
      match ConnectTxs(rules, base, pindex, checkScripts, b, |b.vtx|)
      case None => None
      case Some(p) => if ValueOut(b.vtx[0].vout) > COIN + p.fees then None else Some(p.index)
  }

  // Disconnecting

  function DisconnectTx(rules: Rules, index: Index, tx: Tx): Option<Index> {
    match (if tx.IsCoinBase() then Some(index) else Unspend(index, tx.vin))
    case None => None
    case Some(ix) => Some(ix - {rules.txid(tx)})
  }

  /** Disconnects transactions k-1 down to 0. */
  function DisconnectTxs(rules: Rules, index: Index, b: Block, k: nat): Option<Index>
    requires k <= |b.vtx|
    decreases k
  {
    if k == 0 then Some(index)
    else
      match DisconnectTx(rules, index, b.vtx[k - 1])
      case None => None
      case Some(ix) => DisconnectTxs(rules, ix, b, k - 1)
  }

  function Disconnect(rules: Rules, index: Index, b: Block): Option<Index> {
    DisconnectTxs(rules, index, b, |b.vtx|)
  }

  // Undo

  /** ix' is ix with exactly the outputs in s, all unspent before, marked as spent at p. */
  ghost predicate SpentExactly(ix: Index, ix': Index, s: set<(Hash, nat)>, p: DiskTxPos) {
    && ix'.Keys == ix.Keys
    && (forall h | h in ix :: ix'[h].pos == ix[h].pos && |ix'[h].vSpent| == |ix[h].vSpent|)
    && (forall h, n | h in ix && 0 <= n < |ix[h].vSpent| ::
          ix'[h].vSpent[n] == if (h, n) in s then p else ix[h].vSpent[n])
    && (forall h, n | (h, n) in s :: h in ix && n < |ix[h].vSpent| && ix[h].vSpent[n] == NullPos)
  }

  ghost predicate ClearedExactly(ix: Index, ix': Index, s: set<(Hash, nat)>) {
    && ix'.Keys == ix.Keys
    && (forall h | h in ix :: ix'[h].pos == ix[h].pos && |ix'[h].vSpent| == |ix[h].vSpent|)
    && (forall h, n | h in ix && 0 <= n < |ix[h].vSpent| ::
          ix'[h].vSpent[n] == if (h, n) in s then NullPos else ix[h].vSpent[n])
  }

  lemma OutsSnoc(vin: seq<TxIn>)
    requires vin != []
    ensures var o := vin[|vin| - 1].prevout;
      Outs(vin) == Outs(vin[..|vin| - 1]) + {(o.hash, o.n as nat)}
  {
    var init := vin[..|vin| - 1];
    forall x | x in Outs(vin) ensures x in Outs(init) + {(vin[|vin| - 1].prevout.hash, vin[|vin| - 1].prevout.n as nat)} {
      var i :| 0 <= i < |vin| && x == (vin[i].prevout.hash, vin[i].prevout.n as nat);
      if i < |vin| - 1 { assert init[i] == vin[i]; }
    }
    forall x | x in Outs(init) ensures x in Outs(vin) {
      var i :| 0 <= i < |init| && x == (init[i].prevout.hash, init[i].prevout.n as nat);
      assert init[i] == vin[i];
    }
  }

  lemma {:induction false} SpendMarksOuts(index: Index, vin: seq<TxIn>, p: DiskTxPos)
    requires Spend(index, vin, p).Some? && p != NullPos
    ensures SpentExactly(index, Spend(index, vin, p).value, Outs(vin), p)
  {
    if vin != [] {
      SpendMarksOuts(index, vin[..|vin| - 1], p);
      OutsSnoc(vin);
    }
  }

  lemma {:induction false} UnspendClearsOuts(index: Index, vin: seq<TxIn>)
    requires forall h, n | (h, n) in Outs(vin) :: h in index && n < |index[h].vSpent|
    ensures Unspend(index, vin).Some? && ClearedExactly(index, Unspend(index, vin).value, Outs(vin))
  {
    if vin != [] {
      OutsSnoc(vin);
      UnspendClearsOuts(index, vin[..|vin| - 1]);
      var o := vin[|vin| - 1].prevout;
      assert (o.hash, o.n as nat) in Outs(vin);
    }
  }

  lemma ClearAfterSpend(ix: Index, ix1: Index, ix2: Index, s: set<(Hash, nat)>, p: DiskTxPos)
    requires SpentExactly(ix, ix1, s, p) && ClearedExactly(ix1, ix2, s)
    ensures ix2 == ix
  {
    forall h | h in ix ensures ix2[h] == ix[h] {
      assert ix2[h].vSpent == ix[h].vSpent;
    }
  }

  lemma UnspendAfterSpend(ix: Index, spent: Index, id: Hash, entry: TxIndex, vin: seq<TxIn>, pos: DiskTxPos)
    requires Spend(ix, vin, pos) == Some(spent) && pos != NullPos && id !in ix
    ensures Unspend(spent[id := entry], vin).Some? && Unspend(spent[id := entry], vin).value - {id} == ix
  {
    SpendMarksOuts(ix, vin, pos);
    hide Spend, Unspend, Outs;
    UnspendClearsOuts(spent[id := entry], vin);
    ClearAfterSpend(ix, spent, Unspend(spent[id := entry], vin).value - {id}, Outs(vin), pos);
  }

  /** The outputs a transaction spends stay spent until it is disconnected, and its own entry is new: so it undoes exactly. */
  lemma UndoTx(rules: Rules, base: Index, pindex: BlockIndex, checkScripts: bool, p: Progress, tx: Tx, pos: DiskTxPos)
    requires pos != NullPos
    requires ConnectTx(rules, base, pindex, checkScripts, p, tx, pos).Some?
    requires rules.txid(tx) !in p.index
    ensures DisconnectTx(rules, ConnectTx(rules, base, pindex, checkScripts, p, tx, pos).value.index, tx)
            == Some(p.index)
  {
    var id := rules.txid(tx);
    var after := ConnectTx(rules, base, pindex, checkScripts, p, tx, pos).value.index;
    if tx.IsCoinBase() {
      assert after - {id} == p.index;
    } else {
      hide InputsOk, Overwrites, Spend, Unspend, P2SHSigOps;
      UnspendAfterSpend(p.index, Spend(p.index, tx.vin, pos).value, id, TxIndex(pos, Nulls(|tx.vout|)), tx.vin, pos);
    }
  }

  ghost predicate Fresh(rules: Rules, base: Index, b: Block) {
    forall i | 0 <= i < |b.vtx| :: rules.txid(b.vtx[i]) !in base
  }

  /** The ids of the first k transactions. */
  function Ids(rules: Rules, b: Block, k: nat): set<Hash>
    requires k <= |b.vtx|
  {
    if k == 0 then {} else Ids(rules, b, k - 1) + {rules.txid(b.vtx[k - 1])}
  }

  lemma {:induction false} InIds(rules: Rules, b: Block, k: nat, h: Hash)
    requires k <= |b.vtx|
    ensures h in Ids(rules, b, k) <==> exists i | 0 <= i < k :: rules.txid(b.vtx[i]) == h
  {
    if k > 0 {
      InIds(rules, b, k - 1, h);
    }
  }

  lemma ConnectTxKeys(rules: Rules, base: Index, pindex: BlockIndex, checkScripts: bool, p: Progress, tx: Tx, pos: DiskTxPos)
    requires pos != NullPos
    requires ConnectTx(rules, base, pindex, checkScripts, p, tx, pos).Some?
    ensures ConnectTx(rules, base, pindex, checkScripts, p, tx, pos).value.index.Keys
            == p.index.Keys + {rules.txid(tx)}
  {
    if !tx.IsCoinBase() {
      SpendMarksOuts(p.index, tx.vin, pos);
    }
  }

  lemma {:induction false} ConnectedKeys(rules: Rules, base: Index, pindex: BlockIndex, checkScripts: bool, b: Block, k: nat)
    requires k <= |b.vtx| && ConnectTxs(rules, base, pindex, checkScripts, b, k).Some?
    ensures ConnectTxs(rules, base, pindex, checkScripts, b, k).value.index.Keys == base.Keys + Ids(rules, b, k)
  {
    if k > 0 {
      ConnectedKeys(rules, base, pindex, checkScripts, b, k - 1);
      var p := ConnectTxs(rules, base, pindex, checkScripts, b, k - 1).value;
      ConnectTxKeys(rules, base, pindex, checkScripts, p, b.vtx[k - 1], TxPos(pindex, b, k - 1));
    }
  }

  /** None of the first k ids is indexed or repeated. */
  predicate NewIds(rules: Rules, base: Index, b: Block, k: nat)
    requires k <= |b.vtx|
  {
    k > 0 ==>
      var id := rules.txid(b.vtx[k - 1]);
      NewIds(rules, base, b, k - 1) && id !in base && id !in Ids(rules, b, k - 1)
  }

  lemma {:induction false} FreshIdsAreNew(rules: Rules, base: Index, b: Block, k: nat)
    requires k <= |b.vtx| && DistinctIds(rules, b) && Fresh(rules, base, b)
    ensures NewIds(rules, base, b, k)
  {
    if k > 0 {
      FreshIdsAreNew(rules, base, b, k - 1);
      InIds(rules, b, k - 1, rules.txid(b.vtx[k - 1]));
    }
  }

  lemma {:induction false} UndoTxs(rules: Rules, base: Index, pindex: BlockIndex, checkScripts: bool, b: Block, k: nat)
    requires k <= |b.vtx| && NewIds(rules, base, b, k)
    requires ConnectTxs(rules, base, pindex, checkScripts, b, k).Some?
    ensures DisconnectTxs(rules, ConnectTxs(rules, base, pindex, checkScripts, b, k).value.index, b, k) == Some(base)
  {
    hide ConnectTx;
    if k > 0 {
      var p := ConnectTxs(rules, base, pindex, checkScripts, b, k - 1).value;
      ConnectedKeys(rules, base, pindex, checkScripts, b, k - 1);
      UndoTx(rules, base, pindex, checkScripts, p, b.vtx[k - 1], TxPos(pindex, b, k - 1));
      UndoTxs(rules, base, pindex, checkScripts, b, k - 1);
    }
  }

  lemma DisconnectTxKeys(rules: Rules, index: Index, tx: Tx)
    requires DisconnectTx(rules, index, tx).Some?
    ensures DisconnectTx(rules, index, tx).value.Keys == index.Keys - {rules.txid(tx)}
  {
    if !tx.IsCoinBase() {
      UnspendKeepsKeys(index, tx.vin);
    }
  }

  lemma {:induction false} DisconnectedKeys(rules: Rules, index: Index, b: Block, k: nat)
    requires k <= |b.vtx| && DisconnectTxs(rules, index, b, k).Some?
    ensures DisconnectTxs(rules, index, b, k).value.Keys == index.Keys - Ids(rules, b, k)
    decreases k
  {
    if k > 0 {
      DisconnectTxKeys(rules, index, b.vtx[k - 1]);
      DisconnectedKeys(rules, DisconnectTx(rules, index, b.vtx[k - 1]).value, b, k - 1);
    }
  }

  lemma {:induction false} UnspendKeepsKeys(index: Index, vin: seq<TxIn>)
    requires Unspend(index, vin).Some?
    ensures Unspend(index, vin).value.Keys == index.Keys
  {
    if vin != [] {
      UnspendKeepsKeys(index, vin[..|vin| - 1]);
    }
  }

  /**
   * Disconnecting a block that was just connected gives back the index exactly if and only if none of its
   * transaction ids was indexed before: an overwritten, fully spent duplicate is lost.
   */
  lemma UndoBlock(rules: Rules, base: Index, pindex: BlockIndex, checkScripts: bool, b: Block)
    requires Connect(rules, base, pindex, checkScripts, b).Some?
    ensures Disconnect(rules, Connect(rules, base, pindex, checkScripts, b).value, b) == Some(base)
            <==> Fresh(rules, base, b)
  {
    var after := Connect(rules, base, pindex, checkScripts, b).value;
    if Fresh(rules, base, b) {
      FreshIdsAreNew(rules, base, b, |b.vtx|);
      UndoTxs(rules, base, pindex, checkScripts, b, |b.vtx|);
    } else if Disconnect(rules, after, b) == Some(base) {
      DisconnectedKeys(rules, after, b, |b.vtx|);
      var i :| 0 <= i < |b.vtx| && rules.txid(b.vtx[i]) in base;
      InIds(rules, b, |b.vtx|, rules.txid(b.vtx[i]));
      assert false;
    }
  }

  // A block that loses an entry when it is undone

  /** A world in which all blocks pass the other checks and all transactions have one id. */
  function PlainRules(readBlock: (nat, nat) -> Option<Block>): Rules {
    Rules(_ => NULL_HASH, _ => None, readBlock, map[], (_, _, _, _) => true, _ => 0, (_, _) => 0, _ => true, 0)
  }

  function PlainCoinbase(): Tx {
    Tx(1, [TxIn(OutPoint(NULL_HASH, 0xffff_ffff), [0, 0], 0)], [TxOut(0, [])], 0)
  }

  function PlainBlock(hashPrevBlock: Hash): Block {
    Block(1, hashPrevBlock, NULL_HASH, 0, 0, 0, [PlainCoinbase()])
  }

  lemma PlainChecked(rules: Rules, hashPrevBlock: Hash)
    requires rules.otherBlockChecks(PlainBlock(hashPrevBlock))
    ensures CheckBlock(rules, PlainBlock(hashPrevBlock)) && ValueOut(PlainCoinbase().vout) == 0
  {
    var tx := PlainCoinbase();
    assert ValueOut(tx.vout[..0]) == 0 && tx.vout[..0 + 1] == tx.vout;
    assert ValueOut(tx.vout) == 0;
    assert TxSize(tx) <= 1_000_000;
  }

  lemma PlainConnects(rules: Rules, base: Index, pindex: BlockIndex, checkScripts: bool, hashPrevBlock: Hash)
    requires rules.otherBlockChecks(PlainBlock(hashPrevBlock)) && rules.legacySigOps(PlainCoinbase()) <= MAX_BLOCK_SIGOPS
    requires !Overwrites(rules, base, pindex, PlainCoinbase())
    ensures var b := PlainBlock(hashPrevBlock);
      Connect(rules, base, pindex, checkScripts, b)
      == Some(base[rules.txid(PlainCoinbase()) := TxIndex(TxPos(pindex, b, 0), [NullPos])])
  {
    PlainChecked(rules, hashPrevBlock);
    var b, tx := PlainBlock(hashPrevBlock), PlainCoinbase();
    hide CheckBlock, ValueOut, TxPos;
    assert ConnectTxs(rules, base, pindex, checkScripts, b, 0) == Some(Progress(base, 0, 0));
    assert Nulls(1) == [NullPos];
    assert ConnectTxs(rules, base, pindex, checkScripts, b, 1)
           == ConnectTx(rules, base, pindex, checkScripts, Progress(base, 0, 0), tx, TxPos(pindex, b, 0));
  }

  /**
   * A coinbase with the id of a fully spent transaction connects, and undoing it leaves that id out of the index: for
   * all rules under which the block passes the other checks.
   */
  lemma DuplicateLost(rules: Rules, base: Index, pindex: BlockIndex, checkScripts: bool, hashPrevBlock: Hash)
    requires rules.otherBlockChecks(PlainBlock(hashPrevBlock)) && rules.legacySigOps(PlainCoinbase()) <= MAX_BLOCK_SIGOPS
    requires rules.txid(PlainCoinbase()) in base && !HasUnspentOutput(base[rules.txid(PlainCoinbase())])
    ensures var b, id := PlainBlock(hashPrevBlock), rules.txid(PlainCoinbase());
      && Connect(rules, base, pindex, checkScripts, b).Some?
      && Disconnect(rules, Connect(rules, base, pindex, checkScripts, b).value, b) == Some(base - {id}) != Some(base)
  {
    var b, id := PlainBlock(hashPrevBlock), rules.txid(PlainCoinbase());
    PlainConnects(rules, base, pindex, checkScripts, hashPrevBlock);
    hide TxPos, Connect;
    var after := base[id := TxIndex(TxPos(pindex, b, 0), [NullPos])];
    assert DisconnectTxs(rules, after, b, 1) == DisconnectTxs(rules, after - {id}, b, 0);
    assert after - {id} == base - {id};
    assert id in base && id !in base - {id};
  }
}
