/** Which transactions and blocks connect, said without the recursion of the ledger (src/main.cpp, ConnectInputs, ConnectBlock). */
module Acceptance {
  import opened Wrappers
  import opened Transactions
  import opened BlockTree
  import opened Ledger

  // Age

  predicate LiesAt(b: BlockIndex, pos: DiskTxPos) {
    pos.DiskTxPos? && b.nFile == pos.file && b.nBlockPos == pos.blockPos
  }

  /** b and the blocks below it. */
  ghost function Ancestors(b: BlockIndex): set<BlockIndex>
    requires Linked(b)
    decreases b.nHeight
  {
    (if b.pprev == null then {} else Ancestors(b.pprev)) + {b}
  }

  lemma {:induction false} AncestorsAre(a: BlockIndex, b: BlockIndex)
    requires Linked(b)
    ensures a in Ancestors(b) <==> IsAncestor(a, b)
    decreases b.nHeight
  {
    if b.pprev != null {
      AncestorsAre(a, b.pprev);
    }
  }

  /** The block pindex, or one fewer than 15 below it, lies at that place in the block files. */
  ghost predicate TooYoung(pindex: BlockIndex, pos: DiskTxPos)
    requires Linked(pindex)
  {
    exists a | a in Ancestors(pindex) :: pindex.nHeight - a.nHeight < 15 && LiesAt(a, pos)
  }

  lemma {:induction false} ImmatureBelow(b: BlockIndex, tip: nat, pos: DiskTxPos)
    requires Linked(b) && b.nHeight <= tip
    ensures Immature(b, tip, pos) <==> exists a | a in Ancestors(b) :: tip - a.nHeight < 15 && LiesAt(a, pos)
    decreases b.nHeight
  {
    if b.pprev != null {
      ImmatureBelow(b.pprev, tip, pos);
    }
    if tip - b.nHeight >= 15 {
      forall a | a in Ancestors(b) ensures tip - a.nHeight >= 15 {
        AncestorsAre(a, b);
        AncestorFacts(a, b);
      }
    } else if LiesAt(b, pos) {
      assert b in Ancestors(b);
    }
  }

  /** A coinbase is too young exactly if it lies in the block to be connected or one of the fourteen below. */
  lemma ImmatureExactlyWhen(pindex: BlockIndex, pos: DiskTxPos)
    requires Linked(pindex)
    ensures Immature(pindex, pindex.nHeight, pos) <==> TooYoung(pindex, pos)
    ensures TooYoung(pindex, pos) <==>
            exists a: BlockIndex :: IsAncestor(a, pindex) && pindex.nHeight - a.nHeight < 15 && LiesAt(a, pos)
  {
    ImmatureBelow(pindex, pindex.nHeight, pos);
    if TooYoung(pindex, pos) {
      var a :| a in Ancestors(pindex) && pindex.nHeight - a.nHeight < 15 && LiesAt(a, pos);
      AncestorsAre(a, pindex);
    }
    if a: BlockIndex :| IsAncestor(a, pindex) && pindex.nHeight - a.nHeight < 15 && LiesAt(a, pos) {
      AncestorsAre(a, pindex);
    }
  }

  // Sums

  function SumOf(s: seq<int>): int {
    if s == [] then 0 else SumOf(s[..|s| - 1]) + s[|s| - 1]
  }

  lemma {:induction false} SumGrows(s: seq<int>, n: nat)
    requires n <= |s| && forall i | 0 <= i < |s| :: s[i] >= 0
    ensures 0 <= SumOf(s[..n]) <= SumOf(s)
  {
    if n == |s| {
      assert s[..n] == s;
      if s != [] {
        SumGrows(s[..|s| - 1], |s| - 1);
      }
    } else {
      SumGrows(s[..|s| - 1], n);
      assert s[..|s| - 1][..n] == s[..n];
    }
  }

  function OutValues(vout: seq<TxOut>): (r: seq<int>)
    ensures |r| == |vout| && forall i | 0 <= i < |vout| :: r[i] == vout[i].value
  {
    seq(|vout|, i requires 0 <= i < |vout| => vout[i].value)
  }

  lemma {:induction false} ValueOutIsSum(vout: seq<TxOut>)
    ensures ValueOut(vout) == SumOf(OutValues(vout))
  {
    if vout != [] {
      ValueOutIsSum(vout[..|vout| - 1]);
      assert OutValues(vout)[..|vout| - 1] == OutValues(vout[..|vout| - 1]);
    }
  }

  // Inputs

  /** The transaction an output belongs to, read from where the index says. */
  function Origin(rules: Rules, ix: Index, o: OutPoint): Option<Tx> {
    if o.hash in ix then PrevTx(rules, o.hash, ix[o.hash]) else None
  }

  /** The output is there and not spent. */
  predicate Spendable(rules: Rules, ix: Index, o: OutPoint) {
    && Origin(rules, ix, o).Some? && o.n < |Origin(rules, ix, o).value.vout|
    && o.n < |ix[o.hash].vSpent| && ix[o.hash].vSpent[o.n] == NullPos
  }

  function Paid(rules: Rules, ix: Index, o: OutPoint): TxOut {
    if Origin(rules, ix, o).Some? && o.n < |Origin(rules, ix, o).value.vout| then Origin(rules, ix, o).value.vout[o.n]
    else TxOut(0, [])
  }

  function InValues(rules: Rules, ix: Index, vin: seq<TxIn>): (r: seq<int>)
    ensures |r| == |vin| && forall i | 0 <= i < |vin| :: r[i] == Paid(rules, ix, vin[i].prevout).value
  {
    seq(|vin|, i requires 0 <= i < |vin| => Paid(rules, ix, vin[i].prevout).value)
  }

  function SubscriptOps(rules: Rules, ix: Index, vin: seq<TxIn>): (r: seq<int>)
    ensures |r| == |vin| && forall i | 0 <= i < |vin| :: r[i] == rules.p2shSigOps(Paid(rules, ix, vin[i].prevout), vin[i])
  {
    seq(|vin|, i requires 0 <= i < |vin| => rules.p2shSigOps(Paid(rules, ix, vin[i].prevout), vin[i]))
  }

  predicate NoOutputTwice(vin: seq<TxIn>) {
    forall i, j | 0 <= i < j < |vin| :: vin[i].prevout != vin[j].prevout
  }

  /** Input i spends an output that is there, old enough, and rightly signed for if scripts are checked. */
  ghost predicate InputPasses(rules: Rules, ix: Index, pindex: BlockIndex, checkScripts: bool, tx: Tx, i: nat)
    requires Linked(pindex) && i < |tx.vin|
  {
    var o := tx.vin[i].prevout;
    && Spendable(rules, ix, o)
    && (Origin(rules, ix, o).value.IsCoinBase() ==> !TooYoung(pindex, ix[o.hash].pos))
    && (checkScripts ==> rules.verifySignature(Origin(rules, ix, o).value, tx, i, pindex.nTime >= 1349049600))
  }

  /** No amount is negative and neither the inputs nor the fee come to more than all the money. */
  predicate AmountsPass(ins: seq<int>, outs: seq<int>) {
    && (forall i | 0 <= i < |ins| :: ins[i] >= 0)
    && SumOf(ins) <= 1_000_000_000_000 && 0 <= SumOf(ins) - SumOf(outs) <= 1_000_000_000_000
  }

  ghost predicate SpendPasses(rules: Rules, ix: Index, pindex: BlockIndex, checkScripts: bool, tx: Tx)
    requires Linked(pindex)
  {
    && (forall i | 0 <= i < |tx.vin| :: InputPasses(rules, ix, pindex, checkScripts, tx, i))
    && NoOutputTwice(tx.vin) && AmountsPass(InValues(rules, ix, tx.vin), OutValues(tx.vout))
  }

  lemma {:induction false} ValueInIsSum(rules: Rules, ix: Index, vin: seq<TxIn>)
    requires AllFetchable(rules, ix, vin)
    ensures ValueIn(rules, ix, vin) == SumOf(InValues(rules, ix, vin))
  {
    if vin != [] {
      ValueInIsSum(rules, ix, vin[..|vin| - 1]);
      assert InValues(rules, ix, vin)[..|vin| - 1] == InValues(rules, ix, vin[..|vin| - 1]);
    }
  }

  lemma {:induction false} SubscriptOpsAreSum(rules: Rules, ix: Index, vin: seq<TxIn>)
    requires AllFetchable(rules, ix, vin)
    ensures P2SHSigOps(rules, ix, vin) == SumOf(SubscriptOps(rules, ix, vin))
  {
    if vin != [] {
      SubscriptOpsAreSum(rules, ix, vin[..|vin| - 1]);
      assert SubscriptOps(rules, ix, vin)[..|vin| - 1] == SubscriptOps(rules, ix, vin[..|vin| - 1]);
    }
  }

  predicate AllUnspent(ix: Index, vin: seq<TxIn>) {
    forall i | 0 <= i < |vin| :: Unspent(ix, vin[i].prevout)
  }

  lemma {:induction false} SpendsExactlyWhen(ix: Index, vin: seq<TxIn>, p: DiskTxPos)
    requires p != NullPos
    ensures Spend(ix, vin, p).Some? <==> AllUnspent(ix, vin) && NoOutputTwice(vin)
    decreases |vin|
  {
    if vin != [] {
      var init, o := vin[..|vin| - 1], vin[|vin| - 1].prevout;
      SpendsExactlyWhen(ix, init, p);
      hide Spend;
      if Spend(ix, init, p).Some? {
        SpendMarksOuts(ix, init, p);
        LastUnspent(ix, Spend(ix, init, p).value, vin, p);
      }
    }
  }

  lemma LastUnspent(ix: Index, ix': Index, vin: seq<TxIn>, p: DiskTxPos)
    requires vin != [] && p != NullPos && SpentExactly(ix, ix', Outs(vin[..|vin| - 1]), p)
    requires AllUnspent(ix, vin[..|vin| - 1]) && NoOutputTwice(vin[..|vin| - 1])
    ensures Unspent(ix', vin[|vin| - 1].prevout) <==> AllUnspent(ix, vin) && NoOutputTwice(vin)
  {
    var init, o := vin[..|vin| - 1], vin[|vin| - 1].prevout;
    if (o.hash, o.n as nat) in Outs(init) {
      var i :| 0 <= i < |init| && (o.hash, o.n as nat) == (init[i].prevout.hash, init[i].prevout.n as nat);
      assert vin[i].prevout == o;
    }
    if !NoOutputTwice(vin) {
      var i, j :| 0 <= i < j < |vin| && vin[i].prevout == vin[j].prevout;
      assert j == |vin| - 1 && init[i] == vin[i];
    }
  }

  lemma SumUpTo(s: seq<int>, i: nat)
    requires i < |s|
    ensures SumOf(s[..i + 1]) == SumOf(s[..i]) + s[i]
  {
    assert s[..i + 1][..i] == s[..i];
  }

  /** The i-th value and the sum so far. */
  predicate SumInRange(ins: seq<int>, i: nat)
    requires i < |ins|
  {
    MoneyRange(ins[i]) && MoneyRange(SumOf(ins[..i + 1]))
  }

  /** The amounts pass exactly if every value and every sum so far is in range, and so is the fee. */
  lemma AmountsExactlyWhen(ins: seq<int>, outs: seq<int>)
    ensures AmountsPass(ins, outs) <==>
      && (forall i | 0 <= i < |ins| :: SumInRange(ins, i))
      && SumOf(ins) >= SumOf(outs) && MoneyRange(SumOf(ins) - SumOf(outs))
  {
    if AmountsPass(ins, outs) {
      forall i | 0 <= i < |ins| ensures SumInRange(ins, i) {
        SumUpTo(ins, i);
        SumGrows(ins, i);
        SumGrows(ins, i + 1);
      }
    } else if forall i | 0 <= i < |ins| :: SumInRange(ins, i) {
      forall i | 0 <= i < |ins| ensures ins[i] >= 0 {
        assert SumInRange(ins, i);
      }
      if ins != [] {
        assert SumInRange(ins, |ins| - 1) && ins[..|ins| - 1 + 1] == ins;
      }
    }
  }

  lemma FetchableExactlyWhen(rules: Rules, ix: Index, o: OutPoint)
    ensures Fetchable(rules, ix, o) && Unspent(ix, o) <==> Spendable(rules, ix, o)
    ensures Fetchable(rules, ix, o) ==>
      PrevOf(rules, ix, o) == Origin(rules, ix, o).value && PrevOut(rules, ix, o) == Paid(rules, ix, o)
  {
  }

  lemma InputExactlyWhen(rules: Rules, ix: Index, pindex: BlockIndex, checkScripts: bool, tx: Tx, i: nat)
    requires Linked(pindex) && AllFetchable(rules, ix, tx.vin) && AllUnspent(ix, tx.vin) && i < |tx.vin|
    ensures var ins := InValues(rules, ix, tx.vin);
      InputOk(rules, ix, pindex, checkScripts, tx, i) <==>
      InputPasses(rules, ix, pindex, checkScripts, tx, i) && SumInRange(ins, i)
  {
    var o := tx.vin[i].prevout;
    FetchableExactlyWhen(rules, ix, o);
    assert Unspent(ix, o);
    ImmatureExactlyWhen(pindex, ix[o.hash].pos);
    ValueInIsSum(rules, ix, tx.vin[..i + 1]);
    assert InValues(rules, ix, tx.vin)[..i + 1] == InValues(rules, ix, tx.vin[..i + 1]);
    hide Immature, TooYoung, PrevTx, MoneyRange, SumOf, ValueIn, Unspent, IsAncestor;
  }

  lemma InputsExactlyWhen(rules: Rules, ix: Index, pindex: BlockIndex, checkScripts: bool, tx: Tx)
    requires Linked(pindex)
    ensures InputsOk(rules, ix, pindex, checkScripts, tx) && AllUnspent(ix, tx.vin) && NoOutputTwice(tx.vin) <==>
            SpendPasses(rules, ix, pindex, checkScripts, tx)
  {
    hide InputOk, InputPasses, NoOutputTwice, AmountsPass, ValueIn, ValueOut, SumInRange, SumOf;
    var ins, outs := InValues(rules, ix, tx.vin), OutValues(tx.vout);
    AmountsExactlyWhen(ins, outs);
    ValueOutIsSum(tx.vout);
    if SpendPasses(rules, ix, pindex, checkScripts, tx) {
      forall i | 0 <= i < |tx.vin| ensures Fetchable(rules, ix, tx.vin[i].prevout) && Unspent(ix, tx.vin[i].prevout) {
        PassesIsSpendable(rules, ix, pindex, checkScripts, tx, i);
        FetchableExactlyWhen(rules, ix, tx.vin[i].prevout);
      }
    }
    if AllFetchable(rules, ix, tx.vin) && AllUnspent(ix, tx.vin) {
      ValueInIsSum(rules, ix, tx.vin);
      forall i | 0 <= i < |tx.vin|
        ensures InputOk(rules, ix, pindex, checkScripts, tx, i) <==>
                InputPasses(rules, ix, pindex, checkScripts, tx, i) && SumInRange(ins, i)
      {
        InputExactlyWhen(rules, ix, pindex, checkScripts, tx, i);
      }
    }
  }

  lemma PassesIsSpendable(rules: Rules, ix: Index, pindex: BlockIndex, checkScripts: bool, tx: Tx, i: nat)
    requires Linked(pindex) && i < |tx.vin| && InputPasses(rules, ix, pindex, checkScripts, tx, i)
    ensures Spendable(rules, ix, tx.vin[i].prevout)
  {
  }

  // Transactions

  predicate AfterSwitch(pindex: BlockIndex) {
    pindex.nTime >= 1349049600
  }

  /** The signature operations a transaction adds to those of its block. */
  ghost function OpsOf(rules: Rules, ix: Index, pindex: BlockIndex, tx: Tx): int {
    rules.legacySigOps(tx) +
    if AfterSwitch(pindex) && !tx.IsCoinBase() then SumOf(SubscriptOps(rules, ix, tx.vin)) else 0
  }

  /** What it pays to the miner. */
  ghost function FeeOf(rules: Rules, ix: Index, tx: Tx): int {
    if tx.IsCoinBase() then 0 else SumOf(InValues(rules, ix, tx.vin)) - SumOf(OutValues(tx.vout))
  }

  /**
   * On the index ix, and base before the block: no unspent transaction is overwritten after the switch, the signature
   * operations stay within the limit, and all inputs pass.
   */
  ghost predicate TxPasses(rules: Rules, base: Index, ix: Index, ops: nat, pindex: BlockIndex, checkScripts: bool, tx: Tx)
    requires Linked(pindex)
  {
    && (pindex.nTime > 1349049600 && rules.txid(tx) in base ==>
          forall n | 0 <= n < |base[rules.txid(tx)].vSpent| :: base[rules.txid(tx)].vSpent[n] != NullPos)
    && ops + OpsOf(rules, ix, pindex, tx) <= 20000
    && (!tx.IsCoinBase() ==> SpendPasses(rules, ix, pindex, checkScripts, tx))
  }

  /** ix' is ix with the outputs the transaction spends marked, and the transaction's own outputs added unspent. */
  ghost predicate TxApplied(rules: Rules, ix: Index, ix': Index, tx: Tx, pos: DiskTxPos) {
    var taken := if tx.IsCoinBase() then {} else Outs(tx.vin);
    exists spent: Index ::
      && SpentExactly(ix, spent, taken, pos)
      && ix' == spent[rules.txid(tx) := TxIndex(pos, Nulls(|tx.vout|))]
  }

  lemma SpendTxExactlyWhen(rules: Rules, pindex: BlockIndex, checkScripts: bool, p: Progress, tx: Tx, pos: DiskTxPos)
    requires Linked(pindex) && pos != NullPos && !tx.IsCoinBase()
    ensures var ops := if AfterSwitch(pindex) then SumOf(SubscriptOps(rules, p.index, tx.vin)) else 0;
      SpendTx(rules, pindex, checkScripts, p, tx, pos).Some? <==>
      SpendPasses(rules, p.index, pindex, checkScripts, tx) && (AfterSwitch(pindex) ==> p.sigOps + ops <= 20000)
    ensures SpendTx(rules, pindex, checkScripts, p, tx, pos).Some? ==>
      var ops := if AfterSwitch(pindex) then SumOf(SubscriptOps(rules, p.index, tx.vin)) else 0;
      var q := SpendTx(rules, pindex, checkScripts, p, tx, pos).value;
      && q.fees == p.fees + FeeOf(rules, p.index, tx) && q.sigOps == p.sigOps + ops
      && SpentExactly(p.index, q.index, Outs(tx.vin), pos)
  {
    InputsExactlyWhen(rules, p.index, pindex, checkScripts, tx);
    SpendsExactlyWhen(p.index, tx.vin, pos);
    hide SpendPasses, AllUnspent, NoOutputTwice, Spend, SpentExactly, SumOf, ValueIn, ValueOut, P2SHSigOps, InputOk, Outs;
    if InputsOk(rules, p.index, pindex, checkScripts, tx) {
      SubscriptOpsAreSum(rules, p.index, tx.vin);
      ValueInIsSum(rules, p.index, tx.vin);
      ValueOutIsSum(tx.vout);
      if Spend(p.index, tx.vin, pos).Some? {
        SpendMarksOuts(p.index, tx.vin, pos);
      }
    }
  }

  /** A transaction connects exactly if it passes, and what it does then. */
  lemma TxConnectsExactlyWhen(rules: Rules, base: Index, pindex: BlockIndex, checkScripts: bool, p: Progress, tx: Tx,
                              pos: DiskTxPos)
    requires Linked(pindex) && pos != NullPos
    ensures ConnectTx(rules, base, pindex, checkScripts, p, tx, pos).Some? <==>
            TxPasses(rules, base, p.index, p.sigOps, pindex, checkScripts, tx)
    ensures ConnectTx(rules, base, pindex, checkScripts, p, tx, pos).Some? ==>
      var q := ConnectTx(rules, base, pindex, checkScripts, p, tx, pos).value;
      && q.fees == p.fees + FeeOf(rules, p.index, tx) && q.sigOps == p.sigOps + OpsOf(rules, p.index, pindex, tx)
      && TxApplied(rules, p.index, q.index, tx, pos)
  {
    hide SpendPasses, SumOf;
    if tx.IsCoinBase() {
      assert SpentExactly(p.index, p.index, {}, pos);
    } else {
      var p' := p.(sigOps := p.sigOps + rules.legacySigOps(tx));
      SpendTxExactlyWhen(rules, pindex, checkScripts, p', tx, pos);
      OpsArePositive(rules, p.index, tx.vin);
      hide SpendTx, SpentExactly, Outs;
    }
  }

  lemma OpsArePositive(rules: Rules, ix: Index, vin: seq<TxIn>)
    ensures SumOf(SubscriptOps(rules, ix, vin)) >= 0
  {
    SumGrows(SubscriptOps(rules, ix, vin), 0);
  }

  // Blocks

  /** Transaction k passes on the index that those before it leave. */
  ghost predicate PassesInTurn(rules: Rules, base: Index, pindex: BlockIndex, checkScripts: bool, b: Block, k: nat)
    requires Linked(pindex) && k < |b.vtx|
  {
    match ConnectTxs(rules, base, pindex, checkScripts, b, k)
    case None => false
    case Some(p) => TxPasses(rules, base, p.index, p.sigOps, pindex, checkScripts, b.vtx[k])
  }

  ghost predicate AllPass(rules: Rules, base: Index, pindex: BlockIndex, checkScripts: bool, b: Block, n: nat)
    requires Linked(pindex) && n <= |b.vtx|
  {
    forall k | 0 <= k < n :: PassesInTurn(rules, base, pindex, checkScripts, b, k)
  }

  lemma {:induction false} PrefixConnects(rules: Rules, base: Index, pindex: BlockIndex, checkScripts: bool, b: Block, n: nat)
    requires Linked(pindex) && n <= |b.vtx|
    ensures ConnectTxs(rules, base, pindex, checkScripts, b, n).Some? <==> AllPass(rules, base, pindex, checkScripts, b, n)
  {
    hide ConnectTxs, PassesInTurn;
    if n == 0 {
      NothingConnects(rules, base, pindex, checkScripts, b);
    } else {
      PrefixConnects(rules, base, pindex, checkScripts, b, n - 1);
      OneMoreConnects(rules, base, pindex, checkScripts, b, n);
      if PassesInTurn(rules, base, pindex, checkScripts, b, n - 1) {
        PassedInTurn(rules, base, pindex, checkScripts, b, n - 1);
      }
    }
  }

  lemma NothingConnects(rules: Rules, base: Index, pindex: BlockIndex, checkScripts: bool, b: Block)
    ensures ConnectTxs(rules, base, pindex, checkScripts, b, 0).Some?
  {
  }

  lemma PassedInTurn(rules: Rules, base: Index, pindex: BlockIndex, checkScripts: bool, b: Block, k: nat)
    requires Linked(pindex) && k < |b.vtx| && PassesInTurn(rules, base, pindex, checkScripts, b, k)
    ensures ConnectTxs(rules, base, pindex, checkScripts, b, k).Some?
  {
    hide ConnectTxs, TxPasses;
  }

  lemma OneMoreConnects(rules: Rules, base: Index, pindex: BlockIndex, checkScripts: bool, b: Block, n: nat)
    requires Linked(pindex) && 0 < n <= |b.vtx|
    ensures ConnectTxs(rules, base, pindex, checkScripts, b, n).Some? <==>
            PassesInTurn(rules, base, pindex, checkScripts, b, n - 1)
  {
    hide TxPasses, ConnectTx, TxApplied, OpsOf, FeeOf;
    var p := ConnectTxs(rules, base, pindex, checkScripts, b, n - 1);
    if p.Some? {
      TxConnectsExactlyWhen(rules, base, pindex, checkScripts, p.value, b.vtx[n - 1], TxPos(pindex, b, n - 1));
    }
  }

  /**
   * A block connects exactly if it passes the checks that need no context, all its transactions pass in turn, and the
   * coinbase takes at most one COIN more than the fees.
   */
  lemma BlockConnectsExactlyWhen(rules: Rules, base: Index, pindex: BlockIndex, checkScripts: bool, b: Block)
    requires Linked(pindex)
    ensures Connect(rules, base, pindex, checkScripts, b).Some? <==>
      && CheckBlock(rules, b) && b.vtx != [] && AllPass(rules, base, pindex, checkScripts, b, |b.vtx|)
      && SumOf(OutValues(b.vtx[0].vout)) <= 100_000_000 + SumOf(Fees(rules, base, pindex, checkScripts, b, |b.vtx|))
  {
    PrefixConnects(rules, base, pindex, checkScripts, b, |b.vtx|);
    if b.vtx != [] {
      ValueOutIsSum(b.vtx[0].vout);
    }
    if ConnectTxs(rules, base, pindex, checkScripts, b, |b.vtx|).Some? {
      FeesAreSum(rules, base, pindex, checkScripts, b, |b.vtx|);
    }
    CheckedIsNotEmpty(rules, b);
    hide CheckBlock, ConnectTxs, AllPass, SumOf, ValueOut, Fees;
  }

  lemma CheckedIsNotEmpty(rules: Rules, b: Block)
    ensures CheckBlock(rules, b) ==> b.vtx != []
  {
  }

  /** What each of the first n transactions pays, read from the index it finds. */
  ghost function Fees(rules: Rules, base: Index, pindex: BlockIndex, checkScripts: bool, b: Block, n: nat): (r: seq<int>)
    requires n <= |b.vtx|
    ensures |r| == n
  {
    if n == 0 then []
    else
      Fees(rules, base, pindex, checkScripts, b, n - 1) +
      [match ConnectTxs(rules, base, pindex, checkScripts, b, n - 1)
       case None => 0
       case Some(p) => FeeOf(rules, p.index, b.vtx[n - 1])]
  }

  lemma {:induction false} FeesAreSum(rules: Rules, base: Index, pindex: BlockIndex, checkScripts: bool, b: Block, n: nat)
    requires Linked(pindex) && n <= |b.vtx| && ConnectTxs(rules, base, pindex, checkScripts, b, n).Some?
    ensures ConnectTxs(rules, base, pindex, checkScripts, b, n).value.fees
            == SumOf(Fees(rules, base, pindex, checkScripts, b, n))
  {
    hide TxPasses, ConnectTx, TxApplied, OpsOf, FeeOf;
    if n > 0 {
      FeesAreSum(rules, base, pindex, checkScripts, b, n - 1);
      var p := ConnectTxs(rules, base, pindex, checkScripts, b, n - 1).value;
      TxConnectsExactlyWhen(rules, base, pindex, checkScripts, p, b.vtx[n - 1], TxPos(pindex, b, n - 1));
      var fees := Fees(rules, base, pindex, checkScripts, b, n);
      assert fees[..n - 1] == Fees(rules, base, pindex, checkScripts, b, n - 1);
    }
  }

  /** A connected block spends no coinbase of its own or of the fourteen blocks below, and every input is signed for. */
  lemma SpentInConnectedBlock(rules: Rules, base: Index, pindex: BlockIndex, checkScripts: bool, b: Block, k: nat, i: nat)
    requires Linked(pindex) && Connect(rules, base, pindex, checkScripts, b).Some?
    requires k < |b.vtx| && !b.vtx[k].IsCoinBase() && i < |b.vtx[k].vin|
    ensures ConnectTxs(rules, base, pindex, checkScripts, b, k).Some?
    ensures var ix, tx := ConnectTxs(rules, base, pindex, checkScripts, b, k).value.index, b.vtx[k];
      var o := tx.vin[i].prevout;
      && Spendable(rules, ix, o)
      && (checkScripts ==> rules.verifySignature(Origin(rules, ix, o).value, tx, i, pindex.nTime >= 1349049600))
      && (Origin(rules, ix, o).value.IsCoinBase() ==>
            forall a: BlockIndex | IsAncestor(a, pindex) && LiesAt(a, ix[o.hash].pos) :: pindex.nHeight - a.nHeight >= 15)
  {
    BlockConnectsExactlyWhen(rules, base, pindex, checkScripts, b);
    hide Connect, ConnectTxs, CheckBlock, Fees, SumOf;
    assert PassesInTurn(rules, base, pindex, checkScripts, b, k);
    var ix, tx := ConnectTxs(rules, base, pindex, checkScripts, b, k).value.index, b.vtx[k];
    assert InputPasses(rules, ix, pindex, checkScripts, tx, i);
    var o := tx.vin[i].prevout;
    ImmatureExactlyWhen(pindex, ix[o.hash].pos);
  }

  /** Age refuses no other coinbase: one that lies in none of those blocks passes like any output. */
  lemma OldCoinbasePasses(rules: Rules, ix: Index, pindex: BlockIndex, checkScripts: bool, tx: Tx, i: nat)
    requires Linked(pindex) && i < |tx.vin| && Spendable(rules, ix, tx.vin[i].prevout)
    requires forall a: BlockIndex | IsAncestor(a, pindex) && LiesAt(a, ix[tx.vin[i].prevout.hash].pos) ::
               pindex.nHeight - a.nHeight >= 15
    ensures InputPasses(rules, ix, pindex, checkScripts, tx, i) <==>
            (checkScripts ==> rules.verifySignature(Origin(rules, ix, tx.vin[i].prevout).value, tx, i, pindex.nTime >= 1349049600))
  {
    ImmatureExactlyWhen(pindex, ix[tx.vin[i].prevout.hash].pos);
  }
}
