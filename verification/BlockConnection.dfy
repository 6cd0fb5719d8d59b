/** The transaction database and the code that connects and disconnects a block (src/main.cpp, src/db.h). */
module BlockConnection {
  import opened Wrappers
  import opened Transactions
  import opened BlockTree
  import opened Ledger

  /** What the database holds: the transaction index, the best chain's hash, and each block's successor. */
  datatype Records = Records(index: Index, hashBestChain: Hash, hashNext: map<Hash, Hash>)

  /** One connection to the database. Writes between begin and commit are invisible to committed. */
  class TxDb {
    var committed: Records
    var activeTxn: Option<Records>

    constructor ()
      ensures activeTxn.None? && committed == Records(map[], NULL_HASH, map[])
    {
      committed, activeTxn := Records(map[], NULL_HASH, map[]), None;
    }

    /** What a read sees. */
    function View(): Records
      reads this
    {
      if activeTxn.Some? then activeTxn.value else committed
    }

    method TxnBegin() returns (ok: bool)
      modifies this
      ensures ok <==> old(activeTxn).None?
      ensures activeTxn.Some? && committed == old(committed) && View() == old(View())
    {
      if activeTxn.Some? {
        return false;
      }
      activeTxn := Some(committed);
      ok := true;
    }

    method TxnCommit() returns (ok: bool)
      modifies this
      ensures ok <==> old(activeTxn).Some?
      ensures activeTxn.None? && committed == old(View())
    {
      if activeTxn.None? {
        return false;
      }
      committed, activeTxn := activeTxn.value, None;
      ok := true;
    }

    method TxnAbort() returns (ok: bool)
      modifies this
      ensures ok <==> old(activeTxn).Some?
      ensures activeTxn.None? && committed == old(committed)
    {
      ok := activeTxn.Some?;
      activeTxn := None;
    }

    method Put(r: Records)
      modifies this
      ensures View() == r && activeTxn.Some? == old(activeTxn).Some?
      ensures activeTxn.Some? ==> committed == old(committed)
    {
      if activeTxn.Some? {
        activeTxn := Some(r);
      } else {
        committed := r;
      }
    }

    method ReadTxIndex(hash: Hash) returns (r: Option<TxIndex>)
      ensures r == if hash in View().index then Some(View().index[hash]) else None
    {
      r := if hash in View().index then Some(View().index[hash]) else None;
    }

    method UpdateTxIndex(hash: Hash, txindex: TxIndex)
      modifies this
      ensures View() == old(View()).(index := old(View()).index[hash := txindex])
      ensures activeTxn.Some? == old(activeTxn).Some? && (activeTxn.Some? ==> committed == old(committed))
    {
      Put(View().(index := View().index[hash := txindex]));
    }

    method EraseTxIndex(hash: Hash)
      modifies this
      ensures View() == old(View()).(index := old(View()).index - {hash})
      ensures activeTxn.Some? == old(activeTxn).Some? && (activeTxn.Some? ==> committed == old(committed))
    {
      Put(View().(index := View().index - {hash}));
    }

    method WriteHashBestChain(hash: Hash)
      modifies this
      ensures View() == old(View()).(hashBestChain := hash)
      ensures activeTxn.Some? == old(activeTxn).Some? && (activeTxn.Some? ==> committed == old(committed))
    {
      Put(View().(hashBestChain := hash));
    }

    method WriteHashNext(hash: Hash, next: Hash)
      modifies this
      ensures View() == old(View()).(hashNext := old(View()).hashNext[hash := next])
      ensures activeTxn.Some? == old(activeTxn).Some? && (activeTxn.Some? ==> committed == old(committed))
    {
      Put(View().(hashNext := View().hashNext[hash := next]));
    }
  }

  // Inputs

  type PrevTxs = map<Hash, (TxIndex, Tx)>

  /** The map FetchInputs fills agrees with the index it was filled from. */
  predicate Loaded(rules: Rules, index: Index, inputs: PrevTxs) {
    forall h | h in inputs :: h in index && PrevTx(rules, h, index[h]).Some?
      && inputs[h] == (index[h], PrevTx(rules, h, index[h]).value)
  }

  predicate CoversInputs(inputs: PrevTxs, vin: seq<TxIn>) {
    forall i | 0 <= i < |vin| :: vin[i].prevout.hash in inputs
  }

  /** Called for a block: an entry is taken from the queued changes if it is there, else from the database. */
  method FetchInputs(rules: Rules, txdb: TxDb, queued: Index, tx: Tx) returns (r: Option<PrevTxs>)
    ensures var index := txdb.View().index + queued;
      && (!tx.IsCoinBase() ==> (r.Some? <==> AllFetchable(rules, index, tx.vin)))
      && (tx.IsCoinBase() ==> r == Some(map[]))
      && (r.Some? ==> Loaded(rules, index, r.value))
      && (r.Some? && !tx.IsCoinBase() ==> CoversInputs(r.value, tx.vin))
  {
    if tx.IsCoinBase() {
      return Some(map[]);
    }
    ghost var index := txdb.View().index + queued;
    var inputs: PrevTxs := map[];
    for i := 0 to |tx.vin|
      invariant Loaded(rules, index, inputs)
      invariant forall j | 0 <= j < i :: tx.vin[j].prevout.hash in inputs
    {
      var o := tx.vin[i].prevout;
      if o.hash !in inputs {
        var found: Option<TxIndex>;
        if o.hash in queued {
          found := Some(queued[o.hash]);
        } else {
          found := txdb.ReadTxIndex(o.hash);
        }
        if found.None? {
          assert !Fetchable(rules, index, o);
          return None;
        }
        var txPrev: Option<Tx>;
        if found.value.pos == MEMPOOL_POS {
          txPrev := if o.hash in rules.mempool then Some(rules.mempool[o.hash]) else None;
        } else {
          txPrev := rules.readTx(found.value.pos);
        }
        if txPrev.None? {
          assert !Fetchable(rules, index, o);
          return None;
        }
        inputs := inputs[o.hash := (found.value, txPrev.value)];
      }
    }
    for i := 0 to |tx.vin|
      invariant forall j | 0 <= j < i :: Fetchable(rules, index, tx.vin[j].prevout)
    {
      var o := tx.vin[i].prevout;
      if o.n >= |inputs[o.hash].1.vout| || o.n >= |inputs[o.hash].0.vSpent| {
        assert !Fetchable(rules, index, o);
        return None;
      }
    }
    r := Some(inputs);
  }

  /** None is the exception "value out of range". */
  method GetValueOut(tx: Tx) returns (r: Option<int>)
    ensures r == if OutputsInRange(tx.vout) then Some(ValueOut(tx.vout)) else None
  {
    var sum := 0;
    for i := 0 to |tx.vout|
      invariant sum == ValueOut(tx.vout[..i])
      invariant forall k | 0 <= k < i :: InRange(tx.vout, k)
    {
      assert tx.vout[..i + 1][..i] == tx.vout[..i];
      sum := sum + tx.vout[i].value;
      assert InRange(tx.vout, i) <==> MoneyRange(tx.vout[i].value) && MoneyRange(sum);
      if !MoneyRange(tx.vout[i].value) || !MoneyRange(sum) {
        return None;
      }
    }
    assert tx.vout[..|tx.vout|] == tx.vout;
    r := Some(sum);
  }

  method GetValueIn(rules: Rules, ghost index: Index, inputs: PrevTxs, tx: Tx) returns (sum: int)
    requires AllFetchable(rules, index, tx.vin) && Loaded(rules, index, inputs) && CoversInputs(inputs, tx.vin)
    ensures sum == ValueIn(rules, index, tx.vin)
  {
    sum := 0;
    for i := 0 to |tx.vin|
      invariant sum == ValueIn(rules, index, tx.vin[..i])
    {
      var o := tx.vin[i].prevout;
      assert Fetchable(rules, index, o);
      assert tx.vin[..i + 1][..i] == tx.vin[..i];
      sum := sum + inputs[o.hash].1.vout[o.n].value;
    }
    assert tx.vin[..|tx.vin|] == tx.vin;
  }

  method GetP2SHSigOpCount(rules: Rules, ghost index: Index, inputs: PrevTxs, tx: Tx) returns (sum: nat)
    requires AllFetchable(rules, index, tx.vin) && Loaded(rules, index, inputs) && CoversInputs(inputs, tx.vin)
    ensures sum == P2SHSigOps(rules, index, tx.vin)
  {
    sum := 0;
    for i := 0 to |tx.vin|
      invariant sum == P2SHSigOps(rules, index, tx.vin[..i])
    {
      var o := tx.vin[i].prevout;
      assert Fetchable(rules, index, o);
      assert tx.vin[..i + 1][..i] == tx.vin[..i];
      sum := sum + rules.p2shSigOps(inputs[o.hash].1.vout[o.n], tx.vin[i]);
    }
    assert tx.vin[..|tx.vin|] == tx.vin;
  }

  /** Walks down at most COINBASE_MATURITY blocks, looking for the one the coinbase is in. */
  method IsImmature(pindexBlock: BlockIndex, pos: DiskTxPos) returns (r: bool)
    requires Linked(pindexBlock)
    ensures r <==> Immature(pindexBlock, pindexBlock.nHeight, pos)
  {
    var pindex: BlockIndex? := pindexBlock;
    while pindex != null && pindexBlock.nHeight - pindex.nHeight < COINBASE_MATURITY
      invariant pindex != null ==> Linked(pindex)
      invariant Immature(pindexBlock, pindexBlock.nHeight, pos) <==> Immature(pindex, pindexBlock.nHeight, pos)
      decreases if pindex == null then 0 else 1 + pindex.nHeight
    {
      if pos != NullPos && pindex.nBlockPos == pos.blockPos && pindex.nFile == pos.file {
        return true;
      }
      pindex := pindex.pprev;
    }
    r := false;
  }

  /** ConnectInputs, first loop: the inexpensive checks. */
  method CheckInputs(rules: Rules, ghost index: Index, inputs: PrevTxs, pindexBlock: BlockIndex, tx: Tx)
    returns (valueIn: Option<int>)
    requires Linked(pindexBlock) && Loaded(rules, index, inputs) && CoversInputs(inputs, tx.vin)
    ensures valueIn.Some? <==>
      && AllFetchable(rules, index, tx.vin)
      && forall j | 0 <= j < |tx.vin| :: InputOk(rules, index, pindexBlock, false, tx, j)
    ensures valueIn.Some? ==> valueIn.value == ValueIn(rules, index, tx.vin)
  {
    hide Immature;
    var sum := 0;
    for i := 0 to |tx.vin|
      invariant AllFetchable(rules, index, tx.vin[..i]) && sum == ValueIn(rules, index, tx.vin[..i])
      invariant AllFetchable(rules, index, tx.vin) ==>
        forall j | 0 <= j < i :: InputOk(rules, index, pindexBlock, false, tx, j)
    {
      var o := tx.vin[i].prevout;
      var (txindex, txPrev) := inputs[o.hash];
      if o.n >= |txPrev.vout| || o.n >= |txindex.vSpent| {
        assert !Fetchable(rules, index, o);
        return None;
      }
      assert Fetchable(rules, index, o);
      NextFetchable(rules, index, tx.vin, i);
      if txPrev.IsCoinBase() {
        var immature := IsImmature(pindexBlock, txindex.pos);
        if immature {
          assert AllFetchable(rules, index, tx.vin) ==> !InputOk(rules, index, pindexBlock, false, tx, i);
          return None;
        }
      }
      sum := sum + txPrev.vout[o.n].value;
      if !MoneyRange(txPrev.vout[o.n].value) || !MoneyRange(sum) {
        assert AllFetchable(rules, index, tx.vin) ==> !InputOk(rules, index, pindexBlock, false, tx, i);
        return None;
      }
    }
    assert tx.vin[..|tx.vin|] == tx.vin;
    valueIn := Some(sum);
  }

  lemma NextFetchable(rules: Rules, index: Index, vin: seq<TxIn>, i: nat)
    requires i < |vin| && AllFetchable(rules, index, vin[..i]) && Fetchable(rules, index, vin[i].prevout)
    ensures AllFetchable(rules, index, vin[..i + 1])
    ensures ValueIn(rules, index, vin[..i + 1])
            == ValueIn(rules, index, vin[..i]) + PrevOut(rules, index, vin[i].prevout).value
  {
    assert vin[..i + 1] == vin[..i] + [vin[i]];
    assert vin[..i + 1][..i] == vin[..i];
  }

  lemma LoadedAfterMark(rules: Rules, index: Index, inputs: PrevTxs, o: OutPoint, p: DiskTxPos)
    requires Loaded(rules, index, inputs) && o.hash in inputs && o.n < |index[o.hash].vSpent|
    ensures var (ix, prev) := inputs[o.hash];
      Loaded(rules, Mark(index, o, p), inputs[o.hash := (ix.(vSpent := ix.vSpent[o.n := p]), prev)])
  {
  }

  ghost predicate ScriptOk(rules: Rules, index: Index, pindex: BlockIndex, tx: Tx, i: nat)
    requires i < |tx.vin| && AllFetchable(rules, index, tx.vin)
  {
    rules.verifySignature(PrevOf(rules, index, tx.vin[i].prevout), tx, i, pindex.nTime >= BIP16_SWITCH_TIME)
  }

  /** The transactions read are those of the index at the start, whatever has been marked since. */
  ghost predicate SamePrevTxs(rules: Rules, index: Index, inputs: PrevTxs) {
    forall h | h in inputs :: h in index && PrevTx(rules, h, index[h]) == Some(inputs[h].1)
  }

  /** The first i inputs have been taken: the map of previous transactions is kept in step with the queued changes. */
  ghost predicate Taken(rules: Rules, index: Index, ix: Index, inputs: PrevTxs, vin: seq<TxIn>, i: nat, pos: DiskTxPos)
    requires i <= |vin|
  {
    && Spend(index, vin[..i], pos) == Some(ix)
    && Loaded(rules, ix, inputs) && CoversInputs(inputs, vin) && SamePrevTxs(rules, index, inputs)
  }

  lemma TakenStart(rules: Rules, index: Index, inputs: PrevTxs, vin: seq<TxIn>, pos: DiskTxPos)
    requires Loaded(rules, index, inputs) && CoversInputs(inputs, vin)
    ensures Taken(rules, index, index, inputs, vin, 0, pos)
  {
  }

  lemma TakenEnd(rules: Rules, index: Index, ix: Index, inputs: PrevTxs, vin: seq<TxIn>, pos: DiskTxPos)
    requires Taken(rules, index, ix, inputs, vin, |vin|, pos)
    ensures Spend(index, vin, pos) == Some(ix)
  {
    assert vin[..|vin|] == vin;
  }

  lemma TakenFacts(rules: Rules, index: Index, ix: Index, inputs: PrevTxs, vin: seq<TxIn>, i: nat, pos: DiskTxPos)
    requires i < |vin| && pos != NullPos && AllFetchable(rules, index, vin)
    requires Taken(rules, index, ix, inputs, vin, i, pos)
    ensures var o := vin[i].prevout;
      && o.hash in inputs && o.hash in ix && o.n < |ix[o.hash].vSpent|
      && inputs[o.hash] == (ix[o.hash], PrevOf(rules, index, o))
      && Spend(index, vin[..i + 1], pos) == if Unspent(ix, o) then Some(Mark(ix, o, pos)) else None
  {
    assert vin[..i + 1][..i] == vin[..i];
    assert Fetchable(rules, index, vin[i].prevout);
    SpendMarksOuts(index, vin[..i], pos);
  }

  lemma TakeOne(rules: Rules, index: Index, base: Index, queued: Index, inputs: PrevTxs, vin: seq<TxIn>, i: nat,
                pos: DiskTxPos, marked: TxIndex, txPrev: Tx)
    requires i < |vin| && pos != NullPos && AllFetchable(rules, index, vin)
    requires Taken(rules, index, base + queued, inputs, vin, i, pos) && Unspent(base + queued, vin[i].prevout)
    requires var o := vin[i].prevout;
      && o.hash in inputs && o.n < |inputs[o.hash].0.vSpent|
      && txPrev == inputs[o.hash].1
      && marked == inputs[o.hash].0.(vSpent := inputs[o.hash].0.vSpent[o.n := pos])
    ensures Taken(rules, index, base + queued[vin[i].prevout.hash := marked],
                  inputs[vin[i].prevout.hash := (marked, txPrev)], vin, i + 1, pos)
  {
    var o := vin[i].prevout;
    TakenFacts(rules, index, base + queued, inputs, vin, i, pos);
    LoadedAfterMark(rules, base + queued, inputs, o, pos);
    assert Mark(base + queued, o, pos) == base + queued[o.hash := marked];
  }

  /** ConnectInputs, second loop: the double-spend check, the signature, and the mark, input by input. */
  method TakeInputs(rules: Rules, ghost base: Index, inputs0: PrevTxs, queued0: Index, pos: DiskTxPos,
                    pindexBlock: BlockIndex, checkScripts: bool, tx: Tx) returns (r: Option<Index>)
    requires pos != NullPos && AllFetchable(rules, base + queued0, tx.vin)
    requires Loaded(rules, base + queued0, inputs0) && CoversInputs(inputs0, tx.vin)
    ensures r.Some? <==>
      && (checkScripts ==> forall j | 0 <= j < |tx.vin| :: ScriptOk(rules, base + queued0, pindexBlock, tx, j))
      && Spend(base + queued0, tx.vin, pos).Some?
    ensures r.Some? ==> base + r.value == Spend(base + queued0, tx.vin, pos).value
  {
    hide Taken, Loaded, Spend, AllFetchable, Mark;
    ghost var index := base + queued0;
    TakenStart(rules, index, inputs0, tx.vin, pos);
    var inputs: PrevTxs, queued: Index := inputs0, queued0;
    for i := 0 to |tx.vin|
      invariant checkScripts ==> forall j | 0 <= j < i :: ScriptOk(rules, index, pindexBlock, tx, j)
      invariant Taken(rules, index, base + queued, inputs, tx.vin, i, pos)
    {
      TakenFacts(rules, index, base + queued, inputs, tx.vin, i, pos);
      var o := tx.vin[i].prevout;
      var (txindex, txPrev) := inputs[o.hash];
      if txindex.vSpent[o.n] != NullPos {
        SpendFails(index, tx.vin, pos, i + 1);
        return None;
      }
      if checkScripts && !rules.verifySignature(txPrev, tx, i, pindexBlock.nTime >= BIP16_SWITCH_TIME) {
        assert !ScriptOk(rules, index, pindexBlock, tx, i);
        return None;
      }
      txindex := txindex.(vSpent := txindex.vSpent[o.n := pos]);
      TakeOne(rules, index, base, queued, inputs, tx.vin, i, pos, txindex, txPrev);
      inputs := inputs[o.hash := (txindex, txPrev)];
      queued := queued[o.hash := txindex];
    }
    TakenEnd(rules, index, base + queued, inputs, tx.vin, pos);
    r := Some(queued);
  }

  lemma InputsOkParts(rules: Rules, index: Index, pindex: BlockIndex, checkScripts: bool, tx: Tx)
    requires AllFetchable(rules, index, tx.vin)
    ensures InputsOk(rules, index, pindex, checkScripts, tx) <==>
      && (forall j | 0 <= j < |tx.vin| :: InputOk(rules, index, pindex, false, tx, j))
      && (checkScripts ==> forall j | 0 <= j < |tx.vin| :: ScriptOk(rules, index, pindex, tx, j))
      && ValueIn(rules, index, tx.vin) >= ValueOut(tx.vout)
      && MoneyRange(ValueIn(rules, index, tx.vin) - ValueOut(tx.vout))
  {
    assert forall j | 0 <= j < |tx.vin| ::
      InputOk(rules, index, pindex, checkScripts, tx, j) <==>
        InputOk(rules, index, pindex, false, tx, j) && (checkScripts ==> ScriptOk(rules, index, pindex, tx, j));
  }

  /** Returns the queued changes with the transaction's inputs marked as spent at pos. */
  method ConnectInputs(rules: Rules, ghost base: Index, inputs: PrevTxs, queued: Index, pos: DiskTxPos,
                       pindexBlock: BlockIndex, checkScripts: bool, tx: Tx) returns (r: Option<Index>)
    requires Linked(pindexBlock) && !tx.IsCoinBase() && pos != NullPos && OutputsInRange(tx.vout)
    requires Loaded(rules, base + queued, inputs) && CoversInputs(inputs, tx.vin)
    ensures r.Some? <==> InputsOk(rules, base + queued, pindexBlock, checkScripts, tx)
                         && Spend(base + queued, tx.vin, pos).Some?
    ensures r.Some? ==> base + r.value == Spend(base + queued, tx.vin, pos).value
  {
    var valueIn := CheckInputs(rules, base + queued, inputs, pindexBlock, tx);
    if valueIn.None? {
      if AllFetchable(rules, base + queued, tx.vin) {
        InputsOkParts(rules, base + queued, pindexBlock, checkScripts, tx);
      }
      return None;
    }
    InputsOkParts(rules, base + queued, pindexBlock, checkScripts, tx);
    var taken := TakeInputs(rules, base, inputs, queued, pos, pindexBlock, checkScripts, tx);
    if taken.None? {
      return None;
    }
    var valueOut := GetValueOut(tx);
    if valueIn.value < valueOut.value || !MoneyRange(valueIn.value - valueOut.value) {
      return None;
    }
    r := taken;
  }

  lemma {:induction false} SpendFails(index: Index, vin: seq<TxIn>, p: DiskTxPos, k: nat)
    requires k <= |vin| && Spend(index, vin[..k], p).None?
    ensures Spend(index, vin, p).None?
  {
    if k < |vin| {
      assert vin[..|vin| - 1][..k] == vin[..k];
      SpendFails(index, vin[..|vin| - 1], p, k);
    } else {
      assert vin[..k] == vin;
    }
  }

  // Blocks

  method WriteQueuedChanges(txdb: TxDb, queued: Index)
    modifies txdb
    ensures txdb.View() == old(txdb.View()).(index := old(txdb.View()).index + queued)
    ensures txdb.activeTxn.Some? == old(txdb.activeTxn).Some?
    ensures txdb.activeTxn.Some? ==> txdb.committed == old(txdb.committed)
  {
    var rest := queued.Keys;
    ghost var start := txdb.View();
    while rest != {}
      invariant rest <= queued.Keys
      invariant txdb.View() == start.(index := start.index + (queued - rest))
      invariant txdb.activeTxn.Some? == old(txdb.activeTxn).Some?
      invariant txdb.activeTxn.Some? ==> txdb.committed == old(txdb.committed)
    {
      var h :| h in rest;
      txdb.UpdateTxIndex(h, queued[h]);
      assert start.index + (queued - (rest - {h})) == (start.index + (queued - rest))[h := queued[h]];
      rest := rest - {h};
    }
    assert queued - {} == queued;
  }

  /** The successor of the block below is recorded along with the index. */
  function WithNext(next: map<Hash, Hash>, pindex: BlockIndex, hash: Hash): map<Hash, Hash> {
    if pindex.pprev == null then next else next[pindex.pprev.hash := hash]
  }

  method ReadsAsUnspent(txdb: TxDb, hash: Hash) returns (r: bool)
    ensures r <==> hash in txdb.View().index && HasUnspentOutput(txdb.View().index[hash])
  {
    var txindexOld := txdb.ReadTxIndex(hash);
    if txindexOld.None? {
      return false;
    }
    for n := 0 to |txindexOld.value.vSpent|
      invariant forall m | 0 <= m < n :: txindexOld.value.vSpent[m] != NullPos
    {
      if txindexOld.value.vSpent[n] == NullPos {
        return true;
      }
    }
    r := false;
  }

  /** ConnectBlock on a transaction that is not a coinbase: fetch, count, tally the fee, connect. */
  method ConnectSpending(rules: Rules, txdb: TxDb, pindex: BlockIndex, checkScripts: bool, tx: Tx, pos: DiskTxPos,
                         queued: Index, fees: int, sigOps: nat) returns (r: Option<(Index, int, nat)>)
    requires Linked(pindex) && pos != NullPos && OutputsInRange(tx.vout) && !tx.IsCoinBase()
    ensures var base := txdb.View().index;
      var p := SpendTx(rules, pindex, checkScripts, Progress(base + queued, fees, sigOps), tx, pos);
      && (r.Some? <==> p.Some?)
      && (r.Some? ==> p.value == Progress(base + r.value.0, r.value.1, r.value.2))
  {
    ghost var base := txdb.View().index;
    var inputs := FetchInputs(rules, txdb, queued, tx);
    if inputs.None? {
      return None;
    }
    var nSigOps := sigOps;
    if pindex.nTime >= BIP16_SWITCH_TIME {
      var more := GetP2SHSigOpCount(rules, base + queued, inputs.value, tx);
      nSigOps := nSigOps + more;
      if nSigOps > MAX_BLOCK_SIGOPS {
        return None;
      }
    }
    var valueIn := GetValueIn(rules, base + queued, inputs.value, tx);
    var valueOut := GetValueOut(tx);
    var taken := ConnectInputs(rules, base, inputs.value, queued, pos, pindex, checkScripts, tx);
    if taken.None? {
      return None;
    }
    r := Some((taken.value, fees + (valueIn - valueOut.value), nSigOps));
  }

  /** One round of ConnectBlock's loop: the new queue, fees and signature operations, or None for a rejected block. */
  method ConnectOne(rules: Rules, txdb: TxDb, pindex: BlockIndex, checkScripts: bool, tx: Tx, pos: DiskTxPos,
                    queued: Index, fees: int, sigOps: nat) returns (r: Option<(Index, int, nat)>)
    requires Linked(pindex) && pos != NullPos && OutputsInRange(tx.vout)
    ensures var base := txdb.View().index;
      var p := ConnectTx(rules, base, pindex, checkScripts, Progress(base + queued, fees, sigOps), tx, pos);
      && (r.Some? <==> p.Some?)
      && (r.Some? ==> p.value == Progress(base + r.value.0, r.value.1, r.value.2))
  {
    hide SpendTx;
    ghost var base := txdb.View().index;
    var hashTx := rules.txid(tx);
    if pindex.nTime > BIP30_SWITCH_TIME {
      var overwrites := ReadsAsUnspent(txdb, hashTx);
      if overwrites {
        return None;
      }
    }
    var nSigOps := sigOps + rules.legacySigOps(tx);
    if nSigOps > MAX_BLOCK_SIGOPS {
      return None;
    }
    var nFees, changes: Index := fees, queued;
    if !tx.IsCoinBase() {
      var step := ConnectSpending(rules, txdb, pindex, checkScripts, tx, pos, queued, fees, nSigOps);
      if step.None? {
        return None;
      }
      changes, nFees, nSigOps := step.value.0, step.value.1, step.value.2;
    }
    var entry := TxIndex(pos, Nulls(|tx.vout|));
    assert base + changes[hashTx := entry] == (base + changes)[hashTx := entry];
    r := Some((changes[hashTx := entry], nFees, nSigOps));
  }

  lemma {:induction false} ConnectTxsFails(rules: Rules, base: Index, pindex: BlockIndex, checkScripts: bool,
                                           b: Block, i: nat, k: nat)
    requires i <= k <= |b.vtx| && ConnectTxs(rules, base, pindex, checkScripts, b, i).None?
    ensures ConnectTxs(rules, base, pindex, checkScripts, b, k).None?
  {
    hide ConnectTx;
    if i < k {
      ConnectTxsFails(rules, base, pindex, checkScripts, b, i, k - 1);
    }
  }

  /**
   * All changes to the index are queued and written at the end, yet the database ends up as if each
   * transaction had been applied to it in turn. When the call fails, what was written is the caller's to abort.
   */
  method ConnectBlock(rules: Rules, txdb: TxDb, b: Block, pindex: BlockIndex, checkScripts: bool) returns (ok: bool)
    requires Linked(pindex)
    modifies txdb
    ensures ok <==> Connect(rules, old(txdb.View()).index, pindex, checkScripts, b).Some?
    ensures ok ==> txdb.View() == old(txdb.View()).(
      index := Connect(rules, old(txdb.View()).index, pindex, checkScripts, b).value,
      hashNext := WithNext(old(txdb.View()).hashNext, pindex, pindex.hash))
    ensures txdb.activeTxn.Some? == old(txdb.activeTxn).Some?
    ensures txdb.activeTxn.Some? ==> txdb.committed == old(txdb.committed)
  {
    hide ConnectTx;
    if !CheckBlock(rules, b) {
      return false;
    }
    ghost var base := txdb.View().index;
    var nTxPos := pindex.nBlockPos + (HEADER_SIZE + 1) - 1 + SizeOfCount(b);
    var queued: Index, nFees, nSigOps := map[], 0, 0;
    assert base + queued == base;
    for i := 0 to |b.vtx|
      invariant txdb.View() == old(txdb.View()) && txdb.activeTxn == old(txdb.activeTxn)
      invariant txdb.committed == old(txdb.committed)
      invariant nTxPos == TxOffset(b, pindex.nBlockPos, i)
      invariant ConnectTxs(rules, base, pindex, checkScripts, b, i) == Some(Progress(base + queued, nFees, nSigOps))
    {
      assert CheckTransaction(b.vtx[i]);
      var posThisTx := DiskTxPos(pindex.nFile, pindex.nBlockPos, nTxPos);
      var step := ConnectOne(rules, txdb, pindex, checkScripts, b.vtx[i], posThisTx, queued, nFees, nSigOps);
      assert ConnectTxs(rules, base, pindex, checkScripts, b, i + 1)
        == ConnectTx(rules, base, pindex, checkScripts, Progress(base + queued, nFees, nSigOps), b.vtx[i], posThisTx);
      if step.None? {
        ConnectTxsFails(rules, base, pindex, checkScripts, b, i + 1, |b.vtx|);
        return false;
      }
      NextOffset(b, pindex.nBlockPos, i);
      nTxPos := nTxPos + TxSize(b.vtx[i]);
      queued, nFees, nSigOps := step.value.0, step.value.1, step.value.2;
    }
    WriteQueuedChanges(txdb, queued);
    assert CheckTransaction(b.vtx[0]);
    var coinbaseOut := GetValueOut(b.vtx[0]);
    if coinbaseOut.value > COIN + nFees {
      return false;
    }
    if pindex.pprev != null {
      txdb.WriteHashNext(pindex.pprev.hash, pindex.hash);
    }
    ok := true;
  }

  method DisconnectInputs(rules: Rules, txdb: TxDb, tx: Tx) returns (ok: bool)
    modifies txdb
    ensures ok <==> DisconnectTx(rules, old(txdb.View()).index, tx).Some?
    ensures ok ==> txdb.View() == old(txdb.View()).(
      index := DisconnectTx(rules, old(txdb.View()).index, tx).value)
    ensures txdb.activeTxn.Some? == old(txdb.activeTxn).Some?
    ensures txdb.activeTxn.Some? ==> txdb.committed == old(txdb.committed)
  {
    ghost var start := txdb.View();
    if !tx.IsCoinBase() {
      for i := 0 to |tx.vin|
        invariant Unspend(start.index, tx.vin[..i]) == Some(txdb.View().index)
        invariant txdb.View() == start.(index := txdb.View().index)
        invariant txdb.activeTxn.Some? == old(txdb.activeTxn).Some?
        invariant txdb.activeTxn.Some? ==> txdb.committed == old(txdb.committed)
      {
        var o := tx.vin[i].prevout;
        assert tx.vin[..i + 1][..i] == tx.vin[..i];
        var txindex := txdb.ReadTxIndex(o.hash);
        if txindex.None? || o.n >= |txindex.value.vSpent| {
          UnspendFails(start.index, tx.vin, i + 1);
          return false;
        }
        txdb.UpdateTxIndex(o.hash, txindex.value.(vSpent := txindex.value.vSpent[o.n := NullPos]));
      }
      assert tx.vin[..|tx.vin|] == tx.vin;
    }
    txdb.EraseTxIndex(rules.txid(tx));
    ok := true;
  }

  lemma {:induction false} UnspendFails(index: Index, vin: seq<TxIn>, k: nat)
    requires k <= |vin| && Unspend(index, vin[..k]).None?
    ensures Unspend(index, vin).None?
  {
    if k < |vin| {
      assert vin[..|vin| - 1][..k] == vin[..k];
      UnspendFails(index, vin[..|vin| - 1], k);
    } else {
      assert vin[..k] == vin;
    }
  }

  /** Disconnects the transactions in reverse order. */
  method DisconnectBlock(rules: Rules, txdb: TxDb, b: Block, pindex: BlockIndex) returns (ok: bool)
    modifies txdb
    ensures ok <==> Disconnect(rules, old(txdb.View()).index, b).Some?
    ensures ok ==> txdb.View() == old(txdb.View()).(
      index := Disconnect(rules, old(txdb.View()).index, b).value,
      hashNext := WithNext(old(txdb.View()).hashNext, pindex, NULL_HASH))
    ensures txdb.activeTxn.Some? == old(txdb.activeTxn).Some?
    ensures txdb.activeTxn.Some? ==> txdb.committed == old(txdb.committed)
  {
    ghost var start := txdb.View();
    for i := |b.vtx| downto 0
      invariant DisconnectTxs(rules, start.index, b, |b.vtx|) == DisconnectTxs(rules, txdb.View().index, b, i)
      invariant txdb.View() == start.(index := txdb.View().index)
      invariant txdb.activeTxn.Some? == old(txdb.activeTxn).Some?
      invariant txdb.activeTxn.Some? ==> txdb.committed == old(txdb.committed)
    {
      var one := DisconnectInputs(rules, txdb, b.vtx[i]);
      if !one {
        return false;
      }
    }
    if pindex.pprev != null {
      txdb.WriteHashNext(pindex.pprev.hash, NULL_HASH);
    }
    ok := true;
  }
}
