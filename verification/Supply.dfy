/** Conservation: what connecting a block does to the total value of the unspent outputs. */
module Supply {
  import opened Wrappers
  import opened Transactions
  import opened BlockTree
  import opened Ledger

  /** The value of the unspent ones among the first n outputs of an indexed transaction. */
  function UnspentValue(ix: TxIndex, vout: seq<TxOut>, n: nat): int
    requires n <= |vout| && n <= |ix.vSpent|
  {
    if n == 0 then 0
    else UnspentValue(ix, vout, n - 1) + if ix.vSpent[n - 1] == NullPos then vout[n - 1].value else 0
  }

  /** Every entry names a transaction that can be read back, with one flag for each of its outputs. */
  ghost predicate EntryOk(rules: Rules, h: Hash, ix: TxIndex) {
    && ix.pos != NullPos
    && PrevTx(rules, h, ix).Some?
    && |PrevTx(rules, h, ix).value.vout| == |ix.vSpent|
    && OutputsInRange(PrevTx(rules, h, ix).value.vout)
  }

  ghost predicate IndexOk(rules: Rules, index: Index) {
    forall h | h in index :: EntryOk(rules, h, index[h])
  }

  ghost function EntryValue(rules: Rules, h: Hash, ix: TxIndex): int
    requires EntryOk(rules, h, ix)
  {
    UnspentValue(ix, PrevTx(rules, h, ix).value.vout, |ix.vSpent|)
  }

  /** The total value of the unspent outputs. */
  ghost function Total(rules: Rules, index: Index): int
    requires IndexOk(rules, index)
  {
    if index == map[] then 0
    else
      var h :| h in index;
      EntryValue(rules, h, index[h]) + Total(rules, index - {h})
  }

  lemma {:induction false} TotalSplit(rules: Rules, index: Index, h: Hash)
    requires IndexOk(rules, index) && h in index
    ensures Total(rules, index) == EntryValue(rules, h, index[h]) + Total(rules, index - {h})
    decreases index
  {
    var g :| g in index && Total(rules, index) == EntryValue(rules, g, index[g]) + Total(rules, index - {g});
    if g != h {
      TotalSplit(rules, index - {g}, h);
      TotalSplit(rules, index - {h}, g);
      assert index - {g} - {h} == index - {h} - {g};
    }
  }

  lemma TotalUpdate(rules: Rules, index: Index, h: Hash, ix: TxIndex)
    requires IndexOk(rules, index) && EntryOk(rules, h, ix)
    ensures IndexOk(rules, index[h := ix])
    ensures Total(rules, index[h := ix])
            == Total(rules, index) + EntryValue(rules, h, ix) - if h in index then EntryValue(rules, h, index[h]) else 0
  {
    TotalSplit(rules, index[h := ix], h);
    if h in index {
      TotalSplit(rules, index, h);
      assert index[h := ix] - {h} == index - {h};
    } else {
      assert index[h := ix] - {h} == index;
    }
  }

  lemma {:induction false} UnspentValueMark(ix: TxIndex, vout: seq<TxOut>, k: nat, p: DiskTxPos, n: nat)
    requires k < |ix.vSpent| && ix.vSpent[k] == NullPos && p != NullPos
    requires n <= |vout| && n <= |ix.vSpent|
    ensures UnspentValue(ix.(vSpent := ix.vSpent[k := p]), vout, n)
            == UnspentValue(ix, vout, n) - if k < n then vout[k].value else 0
  {
    if n > 0 {
      UnspentValueMark(ix, vout, k, p, n - 1);
    }
  }

  lemma {:induction false} UnspentValueBounds(ix: TxIndex, vout: seq<TxOut>, n: nat)
    requires OutputsInRange(vout) && n <= |vout| && n <= |ix.vSpent|
    ensures 0 <= UnspentValue(ix, vout, n)
    ensures ix.vSpent == Nulls(|ix.vSpent|) ==> UnspentValue(ix, vout, n) == ValueOut(vout[..n])
  {
    if n > 0 {
      UnspentValueBounds(ix, vout, n - 1);
      assert InRange(vout, n - 1);
      assert vout[..n][..n - 1] == vout[..n - 1];
    }
  }

  /** Marking an unspent output as spent takes its value out of the total. */
  lemma TotalMark(rules: Rules, index: Index, o: OutPoint, p: DiskTxPos)
    requires IndexOk(rules, index) && Unspent(index, o) && p != NullPos
    ensures IndexOk(rules, Mark(index, o, p)) && Fetchable(rules, index, o)
    ensures Total(rules, Mark(index, o, p)) == Total(rules, index) - PrevOut(rules, index, o).value
  {
    var ix := index[o.hash];
    var vout := PrevTx(rules, o.hash, ix).value.vout;
    UnspentValueMark(ix, vout, o.n, p, |ix.vSpent|);
    TotalUpdate(rules, index, o.hash, ix.(vSpent := ix.vSpent[o.n := p]));
  }

  lemma FetchableBeforeSpend(rules: Rules, index: Index, ix: Index, s: set<(Hash, nat)>, p: DiskTxPos, o: OutPoint)
    requires SpentExactly(index, ix, s, p) && Fetchable(rules, ix, o)
    ensures Fetchable(rules, index, o) && PrevOut(rules, index, o) == PrevOut(rules, ix, o)
  {
  }

  lemma AllFetchableSnoc(rules: Rules, index: Index, vin: seq<TxIn>)
    requires vin != [] && AllFetchable(rules, index, vin[..|vin| - 1])
    requires Fetchable(rules, index, vin[|vin| - 1].prevout)
    ensures AllFetchable(rules, index, vin)
  {
    forall i | 0 <= i < |vin| ensures Fetchable(rules, index, vin[i].prevout) {
      if i < |vin| - 1 { assert vin[..|vin| - 1][i] == vin[i]; }
    }
  }

  lemma {:induction false} TotalSpend(rules: Rules, index: Index, vin: seq<TxIn>, p: DiskTxPos)
    requires IndexOk(rules, index) && p != NullPos
    requires Spend(index, vin, p).Some?
    ensures AllFetchable(rules, index, vin)
    ensures IndexOk(rules, Spend(index, vin, p).value)
    ensures Total(rules, Spend(index, vin, p).value) == Total(rules, index) - ValueIn(rules, index, vin)
  {
    if vin != [] {
      var init, o := vin[..|vin| - 1], vin[|vin| - 1].prevout;
      TotalSpend(rules, index, init, p);
      var ix := Spend(index, init, p).value;
      TotalMark(rules, ix, o, p);
      assert Fetchable(rules, index, o) && PrevOut(rules, index, o) == PrevOut(rules, ix, o) by {
        SpendMarksOuts(index, init, p);
        FetchableBeforeSpend(rules, index, ix, Outs(init), p, o);
      }
      AllFetchableSnoc(rules, index, vin);
    }
  }

  /** A new entry adds its outputs; if it overwrites one, what was unspent there is gone. */
  lemma TotalAdd(rules: Rules, index: Index, tx: Tx, pos: DiskTxPos)
    requires IndexOk(rules, index)
    requires pos != NullPos && pos != MEMPOOL_POS && rules.readTx(pos) == Some(tx) && OutputsInRange(tx.vout)
    ensures var index' := index[rules.txid(tx) := TxIndex(pos, Nulls(|tx.vout|))];
      && IndexOk(rules, index')
      && Total(rules, index') <= Total(rules, index) + ValueOut(tx.vout)
      && (rules.txid(tx) !in index ==> Total(rules, index') == Total(rules, index) + ValueOut(tx.vout))
  {
    var h := rules.txid(tx);
    var ix := TxIndex(pos, Nulls(|tx.vout|));
    UnspentValueBounds(ix, tx.vout, |tx.vout|);
    assert tx.vout[..|tx.vout|] == tx.vout;
    TotalUpdate(rules, index, h, ix);
    if h in index {
      UnspentValueBounds(index[h], PrevTx(rules, h, index[h]).value.vout, |index[h].vSpent|);
    }
  }

  /** The block's transactions can be read back at the positions recorded for them. */
  ghost predicate Stored(rules: Rules, pindex: BlockIndex, b: Block) {
    forall i | 0 <= i < |b.vtx| :: rules.readTx(TxPos(pindex, b, i)) == Some(b.vtx[i])
  }

  /** A transaction that is not a coinbase moves value from outputs to outputs and fees; some may be overwritten. */
  lemma TotalConnectTx(rules: Rules, base: Index, pindex: BlockIndex, checkScripts: bool, p: Progress, tx: Tx, pos: DiskTxPos)
    requires IndexOk(rules, p.index) && !tx.IsCoinBase() && OutputsInRange(tx.vout)
    requires pos != NullPos && pos != MEMPOOL_POS && rules.readTx(pos) == Some(tx)
    requires ConnectTx(rules, base, pindex, checkScripts, p, tx, pos).Some?
    ensures var p' := ConnectTx(rules, base, pindex, checkScripts, p, tx, pos).value;
      && IndexOk(rules, p'.index)
      && Total(rules, p'.index) + p'.fees <= Total(rules, p.index) + p.fees
      && (rules.txid(tx) !in p.index ==> Total(rules, p'.index) + p'.fees == Total(rules, p.index) + p.fees)
  {
    TotalSpend(rules, p.index, tx.vin, pos);
    var spent := Spend(p.index, tx.vin, pos).value;
    assert spent.Keys == p.index.Keys by { SpendMarksOuts(p.index, tx.vin, pos); }
    TotalAdd(rules, spent, tx, pos);
  }

  ghost predicate Conserved(rules: Rules, base: Index, b: Block, p: Progress)
    requires b.vtx != [] && IndexOk(rules, base)
  {
    && IndexOk(rules, p.index)
    && Total(rules, p.index) + p.fees <= Total(rules, base) + ValueOut(b.vtx[0].vout)
    && (Fresh(rules, base, b) ==> Total(rules, p.index) + p.fees == Total(rules, base) + ValueOut(b.vtx[0].vout))
  }

  /** The net change of unspent value and fees together by the first k transactions. */
  lemma {:induction false} TotalConnectTxs(rules: Rules, base: Index, pindex: BlockIndex, checkScripts: bool, b: Block, k: nat)
    requires CheckBlock(rules, b) && Stored(rules, pindex, b) && IndexOk(rules, base)
    requires 0 < k <= |b.vtx| && ConnectTxs(rules, base, pindex, checkScripts, b, k).Some?
    ensures Conserved(rules, base, b, ConnectTxs(rules, base, pindex, checkScripts, b, k).value)
  {
    var tx, pos := b.vtx[k - 1], TxPos(pindex, b, k - 1);
    assert CheckTransaction(tx);
    if k == 1 {
      assert ConnectTxs(rules, base, pindex, checkScripts, b, 0) == Some(Progress(base, 0, 0));
      TotalAdd(rules, base, tx, pos);
    } else {
      TotalConnectTxs(rules, base, pindex, checkScripts, b, k - 1);
      var p := ConnectTxs(rules, base, pindex, checkScripts, b, k - 1).value;
      if Fresh(rules, base, b) {
        FreshIdsAreNew(rules, base, b, k);
        ConnectedKeys(rules, base, pindex, checkScripts, b, k - 1);
      }
      TotalConnectTx(rules, base, pindex, checkScripts, p, tx, pos);
    }
  }

  /**
   * Connecting a block raises the total value of unspent outputs by at most one COIN; with fresh ids
   * nothing is lost either: the change is what the coinbase pays minus the fees.
   */
  lemma SupplyBound(rules: Rules, base: Index, pindex: BlockIndex, checkScripts: bool, b: Block)
    requires Stored(rules, pindex, b) && IndexOk(rules, base)
    requires Connect(rules, base, pindex, checkScripts, b).Some?
    ensures var after := Connect(rules, base, pindex, checkScripts, b).value;
      && IndexOk(rules, after)
      && Total(rules, after) <= Total(rules, base) + COIN
      && (Fresh(rules, base, b) ==>
            Total(rules, after) == Total(rules, base) + ValueOut(b.vtx[0].vout)
              - ConnectTxs(rules, base, pindex, checkScripts, b, |b.vtx|).value.fees)
  {
    TotalConnectTxs(rules, base, pindex, checkScripts, b, |b.vtx|);
  }
}
