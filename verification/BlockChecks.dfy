/** The checks of transactions and blocks that need no context (src/main.cpp, CheckTransaction and CheckBlock). */
module BlockChecks {
  import opened Sequences
  import opened Transactions
  import opened Ledger
  import opened Acceptance

  /** The elements of a list as a set. */
  function SetOf<T(==)>(s: seq<T>): set<T> {
    set x | x in s
  }

  /** A list has as many different elements as elements exactly if none is repeated. */
  lemma {:induction false} SizeOfSet<T>(s: seq<T>)
    ensures |SetOf(s)| <= |s|
    ensures |SetOf(s)| == |s| <==> forall i, j | 0 <= i < j < |s| :: s[i] != s[j]
  {
    if s != [] {
      var init, last := s[..|s| - 1], s[|s| - 1];
      SizeOfSet(init);
      assert s == init + [last];
      assert SetOf(s) == SetOf(init) + {last};
      if last in SetOf(init) {
        var i :| 0 <= i < |init| && init[i] == last;
        assert SetOf(s) == SetOf(init) && s[i] == s[|s| - 1];
      } else {
        assert |SetOf(s)| == |SetOf(init)| + 1;
        assert forall i | 0 <= i < |init| :: init[i] in SetOf(init);
      }
    }
  }

  function Prevouts(vin: seq<TxIn>): (r: seq<OutPoint>)
    ensures |r| == |vin| && forall i | 0 <= i < |vin| :: r[i] == vin[i].prevout
  {
    seq(|vin|, i requires 0 <= i < |vin| => vin[i].prevout)
  }

  method CheckTransaction(tx: Tx) returns (ok: bool)
    ensures ok <==> Ledger.CheckTransaction(tx)
  {
    if tx.vin == [] || tx.vout == [] || TxSize(tx) > 1_000_000 {
      return false;
    }
    var sum := 0;
    for i := 0 to |tx.vout|
      invariant sum == ValueOut(tx.vout[..i]) && forall k | 0 <= k < i :: InRange(tx.vout, k)
    {
      assert tx.vout[..i + 1][..i] == tx.vout[..i];
      sum := sum + tx.vout[i].value;
      if !MoneyRange(tx.vout[i].value) || !MoneyRange(sum) {
        assert !InRange(tx.vout, i);
        return false;
      }
    }
    var vInOutPoints := {};
    for i := 0 to |tx.vin|
      invariant vInOutPoints == SetOf(Prevouts(tx.vin)[..i])
      invariant forall j, k | 0 <= j < k < i :: tx.vin[j].prevout != tx.vin[k].prevout
    {
      var seen := Prevouts(tx.vin)[..i];
      if tx.vin[i].prevout in vInOutPoints {
        var j :| 0 <= j < |seen| && seen[j] == tx.vin[i].prevout;
        assert tx.vin[j].prevout == tx.vin[i].prevout;
        return false;
      }
      forall j | 0 <= j < i ensures tx.vin[j].prevout != tx.vin[i].prevout {
        assert seen[j] in seen;
      }
      assert Prevouts(tx.vin)[..i + 1] == seen + [tx.vin[i].prevout];
      vInOutPoints := vInOutPoints + {tx.vin[i].prevout};
    }
    if tx.IsCoinBase() {
      return 2 <= |tx.vin[0].scriptSig| <= 100;
    }
    for i := 0 to |tx.vin|
      invariant forall j | 0 <= j < i :: !tx.vin[j].prevout.IsNull()
    {
      if tx.vin[i].prevout.IsNull() {
        return false;
      }
    }
    ok := true;
  }

  method CheckBlock(rules: Rules, b: Block) returns (ok: bool)
    ensures ok <==> Ledger.CheckBlock(rules, b)
  {
    hide Ledger.CheckTransaction, DistinctIds;
    if b.vtx == [] || !b.vtx[0].IsCoinBase() {
      return false;
    }
    for i := 1 to |b.vtx|
      invariant forall j | 1 <= j < i :: !b.vtx[j].IsCoinBase()
    {
      if b.vtx[i].IsCoinBase() {
        return false;
      }
    }
    for i := 0 to |b.vtx|
      invariant forall j | 0 <= j < i :: Ledger.CheckTransaction(b.vtx[j])
    {
      var checked := CheckTransaction(b.vtx[i]);
      if !checked {
        return false;
      }
    }
    var unique := IdsAreUnique(rules, b);
    if !unique {
      return false;
    }
    ok := rules.otherBlockChecks(b);
  }

  method IdsAreUnique(rules: Rules, b: Block) returns (unique: bool)
    ensures unique <==> DistinctIds(rules, b)
  {
    var uniqueTx := {};
    for i := 0 to |b.vtx|
      invariant uniqueTx == SetOf(TxIds(rules, b)[..i])
    {
      assert TxIds(rules, b)[..i + 1] == TxIds(rules, b)[..i] + [rules.txid(b.vtx[i])];
      uniqueTx := uniqueTx + {rules.txid(b.vtx[i])};
    }
    assert TxIds(rules, b)[..|b.vtx|] == TxIds(rules, b);
    SizeOfSet(TxIds(rules, b));
    unique := |uniqueTx| == |b.vtx|;
    if !unique {
      var i, j :| 0 <= i < j < |b.vtx| && TxIds(rules, b)[i] == TxIds(rules, b)[j];
      assert rules.txid(b.vtx[i]) == rules.txid(b.vtx[j]);
    }
  }

  function TxIds(rules: Rules, b: Block): (r: seq<Hash>)
    ensures |r| == |b.vtx| && forall i | 0 <= i < |b.vtx| :: r[i] == rules.txid(b.vtx[i])
  {
    seq(|b.vtx|, i requires 0 <= i < |b.vtx| => rules.txid(b.vtx[i]))
  }

  /**
   * A transaction passes exactly if it has inputs and outputs, prints to at most a million bytes, pays no negative amount
   * and in all no more than all the money, names no output twice, and is a coinbase with 2 to 100 script bytes or one
   * without the null output among its inputs.
   */
  lemma CheckedExactlyWhen(tx: Tx)
    ensures Ledger.CheckTransaction(tx) <==>
      && |tx.vin| > 0 && |tx.vout| > 0 && |PrintTx(tx)| <= 1_000_000
      && (forall i | 0 <= i < |tx.vout| :: tx.vout[i].value >= 0) && SumOf(OutValues(tx.vout)) <= 1_000_000_000_000
      && |SetOf(Prevouts(tx.vin))| == |tx.vin|
      && (if |tx.vin| == 1 && tx.vin[0].prevout.IsNull() then 2 <= |tx.vin[0].scriptSig| <= 100
          else forall i | 0 <= i < |tx.vin| :: !tx.vin[i].prevout.IsNull())
  {
    TxSizeIsPrintedLength(tx);
    SizeOfSet(Prevouts(tx.vin));
    RangeExactlyWhen(tx.vout);
    hide PrintTx, TxSize, SumOf, OutputsInRange, SetOf;
  }

  lemma RangeExactlyWhen(vout: seq<TxOut>)
    ensures OutputsInRange(vout) <==>
            (forall i | 0 <= i < |vout| :: vout[i].value >= 0) && SumOf(OutValues(vout)) <= 1_000_000_000_000
  {
    var values := OutValues(vout);
    forall i | 0 <= i < |vout| ensures InRange(vout, i) <==> SumInRange(values, i) {
      ValueOutIsSum(vout[..i + 1]);
      assert values[..i + 1] == OutValues(vout[..i + 1]);
    }
    if OutputsInRange(vout) {
      forall i | 0 <= i < |vout| ensures vout[i].value >= 0 {
        assert InRange(vout, i);
      }
      if vout != [] {
        assert InRange(vout, |vout| - 1) && values[..|vout| - 1 + 1] == values;
      }
    } else if forall i | 0 <= i < |vout| :: vout[i].value >= 0 {
      var k :| 0 <= k < |vout| && !InRange(vout, k);
      SumUpTo(values, k);
      SumGrows(values, k);
      SumGrows(values, k + 1);
    }
  }
}
