/** What a signature signs, and checking one (src/script.cpp, SignatureHash and CheckSig). */
module Signatures {
  import opened Wrappers
  import opened Bytes
  import opened Transactions
  import opened ScriptCode
  import opened Multisig
  import I = Interpreter

  const SIGHASH_NONE := 2
  const SIGHASH_SINGLE := 3

  /** nHashType & 0x1f */
  function BaseType(nHashType: int): int {
    nHashType % 0x20
  }

  /** nHashType & SIGHASH_ANYONECANPAY */
  predicate AnyoneCanPay(nHashType: int) {
    (nHashType / 0x80) % 2 == 1
  }

  /** The library: hashing a transaction together with a hash type, ECDSA verification, and plain hashes. */
  datatype Crypto = Crypto(
    hashTx: (Tx, int) -> Hash,
    verify: (Value, Hash, Value) -> bool,
    ripemd160: Value -> Bytes20,
    sha1: Value -> Bytes20,
    sha256: Value -> Bytes32,
    hash160: Value -> Bytes20,
    hash256: Value -> Bytes32)

  /** The hash returned when there is nothing to sign. */
  const ONE := Hash([1] + Zeros(31))

  const NULL_TXOUT := TxOut(-1, [])

  function NullOuts(n: nat): (r: seq<TxOut>)
    ensures |r| == n
  {
    if n == 0 then [] else NullOuts(n - 1) + [NULL_TXOUT]
  }

  /** The inputs as they are hashed: only input nIn has a script, and the others may lose their sequence number. */
  function HashedInputs(vin: seq<TxIn>, nIn: nat, code: Script, keepSequences: bool): (r: seq<TxIn>)
    ensures |r| == |vin|
    ensures forall i | 0 <= i < |vin| :: r[i] == HashedInput(vin[i], i == nIn, code, keepSequences)
  {
    if vin == [] then []
    else
      HashedInputs(vin[..|vin| - 1], nIn, code, keepSequences) +
      [HashedInput(vin[|vin| - 1], |vin| - 1 == nIn, code, keepSequences)]
  }

  function HashedInput(x: TxIn, signed: bool, code: Script, keepSequences: bool): TxIn {
    if signed then TxIn(x.prevout, code, x.sequence)
    else TxIn(x.prevout, [], if keepSequences then x.sequence else 0)
  }

  /** The transaction that is hashed; None where the source returns the hash 1. */
  function HashedTx(code: Script, tx: Tx, nIn: nat, nHashType: int): Option<Tx> {
    var base := BaseType(nHashType);
    if nIn >= |tx.vin| || (base == SIGHASH_SINGLE && nIn >= |tx.vout|) then None
    else
      var keepSequences := base != SIGHASH_NONE && base != SIGHASH_SINGLE;
      var vin := HashedInputs(tx.vin, nIn, Deleted(code, [I.OP_CODESEPARATOR]).0, keepSequences);
      var vout :=
        if base == SIGHASH_NONE then []
        else if base == SIGHASH_SINGLE then NullOuts(nIn) + [tx.vout[nIn]]
        else tx.vout;
      Some(tx.(vin := if AnyoneCanPay(nHashType) then [vin[nIn]] else vin, vout := vout))
  }

  function SignedHash(crypto: Crypto, code: Script, tx: Tx, nIn: nat, nHashType: int): Hash {
    match HashedTx(code, tx, nIn, nHashType)
    case None => ONE
    case Some(tmp) => crypto.hashTx(tmp, nHashType)
  }

  lemma {:induction false} HashedInputsByLoop(vin: seq<TxIn>, r: seq<TxIn>, nIn: nat, code: Script, keepSequences: bool)
    requires |r| == |vin|
    requires forall i | 0 <= i < |vin| :: r[i] == HashedInput(vin[i], i == nIn, code, keepSequences)
    ensures r == HashedInputs(vin, nIn, code, keepSequences)
  {
  }

  /** Zeroes the sequence number of every input but nIn. */
  method ZeroSequences(vin: seq<TxIn>, nIn: nat) returns (r: seq<TxIn>)
    ensures |r| == |vin|
    ensures forall i | 0 <= i < |vin| :: r[i] == if i == nIn then vin[i] else vin[i].(sequence := 0)
  {
    r := vin;
    for i := 0 to |vin|
      invariant |r| == |vin|
      invariant forall j | 0 <= j < |vin| :: r[j] == if j >= i || j == nIn then vin[j] else vin[j].(sequence := 0)
    {
      if i != nIn {
        r := r[i := r[i].(sequence := 0)];
      }
    }
  }

  method SignatureHash(crypto: Crypto, scriptCode: Script, txTo: Tx, nIn: nat, nHashType: int) returns (h: Hash)
    ensures h == SignedHash(crypto, scriptCode, txTo, nIn, nHashType)
  {
    if nIn >= |txTo.vin| {
      return ONE;
    }
    var code, nFound := FindAndDelete(scriptCode, [I.OP_CODESEPARATOR]);
    var vin, vout := txTo.vin, txTo.vout;
    for i := 0 to |vin|
      invariant |vin| == |txTo.vin|
      invariant forall j | 0 <= j < |vin| :: vin[j] == if j < i then txTo.vin[j].(scriptSig := []) else txTo.vin[j]
    {
      vin := vin[i := vin[i].(scriptSig := [])];
    }
    vin := vin[nIn := vin[nIn].(scriptSig := code)];
    var base := BaseType(nHashType);
    if base == SIGHASH_NONE {
      vout := [];
      vin := ZeroSequences(vin, nIn);
    } else if base == SIGHASH_SINGLE {
      if nIn >= |vout| {
        return ONE;
      }
      vout := vout[..nIn + 1];
      for i := 0 to nIn
        invariant |vout| == nIn + 1 && vout[nIn] == txTo.vout[nIn] && vout[..i] == NullOuts(i)
      {
        vout := vout[i := NULL_TXOUT];
        assert vout[..i + 1] == vout[..i] + [NULL_TXOUT];
      }
      assert vout == NullOuts(nIn) + [txTo.vout[nIn]];
      vin := ZeroSequences(vin, nIn);
    }
    HashedInputsByLoop(txTo.vin, vin, nIn, code, base != SIGHASH_NONE && base != SIGHASH_SINGLE);
    if AnyoneCanPay(nHashType) {
      ghost var signed := vin[nIn];
      vin := vin[0 := vin[nIn]];
      vin := vin[..1];
      assert vin == [signed];
    }
    assert HashedTx(scriptCode, txTo, nIn, nHashType) == Some(txTo.(vin := vin, vout := vout));
    h := crypto.hashTx(txTo.(vin := vin, vout := vout), nHashType);
  }

  // What a signature does not depend on

  /** The two transactions differ in input scripts only. */
  ghost predicate SameButScripts(a: Tx, b: Tx) {
    && a.version == b.version && a.vout == b.vout && a.lockTime == b.lockTime && |a.vin| == |b.vin|
    && forall i | 0 <= i < |a.vin| :: a.vin[i].prevout == b.vin[i].prevout && a.vin[i].sequence == b.vin[i].sequence
  }

  /** No input script, its own or another's, enters the hash. */
  lemma HashIgnoresScripts(crypto: Crypto, code: Script, a: Tx, b: Tx, nIn: nat, nHashType: int)
    requires SameButScripts(a, b)
    ensures SignedHash(crypto, code, a, nIn, nHashType) == SignedHash(crypto, code, b, nIn, nHashType)
  {
    if nIn < |a.vin| {
      var code' := Deleted(code, [I.OP_CODESEPARATOR]).0;
      var keep := BaseType(nHashType) != SIGHASH_NONE && BaseType(nHashType) != SIGHASH_SINGLE;
      var va, vb := HashedInputs(a.vin, nIn, code', keep), HashedInputs(b.vin, nIn, code', keep);
      forall i | 0 <= i < |a.vin| ensures va[i] == vb[i] {
        assert a.vin[i].prevout == b.vin[i].prevout && a.vin[i].sequence == b.vin[i].sequence;
      }
      assert va == vb;
    }
  }

  /** With SIGHASH_ANYONECANPAY the other inputs can be anything. */
  lemma AnyoneCanPayIgnoresOtherInputs(crypto: Crypto, code: Script, a: Tx, b: Tx, nIn: nat, nHashType: int)
    requires AnyoneCanPay(nHashType) && nIn < |a.vin| && nIn < |b.vin|
    requires a.vin[nIn].prevout == b.vin[nIn].prevout && a.vin[nIn].sequence == b.vin[nIn].sequence
    requires a.(vin := []) == b.(vin := [])
    ensures SignedHash(crypto, code, a, nIn, nHashType) == SignedHash(crypto, code, b, nIn, nHashType)
  {
    var code' := Deleted(code, [I.OP_CODESEPARATOR]).0;
    var keep := BaseType(nHashType) != SIGHASH_NONE && BaseType(nHashType) != SIGHASH_SINGLE;
    assert HashedInputs(a.vin, nIn, code', keep)[nIn] == HashedInputs(b.vin, nIn, code', keep)[nIn];
    if BaseType(nHashType) != SIGHASH_NONE && !(BaseType(nHashType) == SIGHASH_SINGLE && nIn >= |a.vout|) {
      assert a.vout == a.(vin := []).vout == b.(vin := []).vout;
    }
  }

  /** With SIGHASH_NONE the outputs and the other sequence numbers can be anything. */
  lemma NoneIgnoresOutputs(crypto: Crypto, code: Script, a: Tx, b: Tx, nIn: nat, nHashType: int)
    requires BaseType(nHashType) == SIGHASH_NONE && nIn < |a.vin| && |a.vin| == |b.vin|
    requires forall i | 0 <= i < |a.vin| :: a.vin[i].prevout == b.vin[i].prevout
    requires a.vin[nIn].sequence == b.vin[nIn].sequence && a.version == b.version && a.lockTime == b.lockTime
    ensures SignedHash(crypto, code, a, nIn, nHashType) == SignedHash(crypto, code, b, nIn, nHashType)
  {
    var code' := Deleted(code, [I.OP_CODESEPARATOR]).0;
    assert HashedInputs(a.vin, nIn, code', false) == HashedInputs(b.vin, nIn, code', false);
  }

  /** There is nothing to sign exactly without the input, or without its own output where only that is signed. */
  lemma NothingToSignExactlyWhen(code: Script, tx: Tx, nIn: nat, nHashType: int)
    ensures HashedTx(code, tx, nIn, nHashType).None? <==>
            (nIn >= |tx.vin| || (nHashType % 0x20 == 3 && nIn >= |tx.vout|))
  {
  }

  // What a signature does depend on

  /** The script without its separators. */
  function Signable(code: Script): Script {
    Deleted(code, [0xab]).0
  }

  predicate SamePrevout(a: TxIn, b: TxIn) {
    a.prevout == b.prevout
  }

  /** The own input counts whole; unless anyone can pay, the others too, and with all outputs their sequence numbers. */
  predicate SameInputs(a: Tx, b: Tx, nIn: nat, nHashType: int) {
    && nIn < |a.vin| && nIn < |b.vin|
    && SamePrevout(a.vin[nIn], b.vin[nIn]) && a.vin[nIn].sequence == b.vin[nIn].sequence
    && ((nHashType / 0x80) % 2 == 0 ==>
          && |a.vin| == |b.vin|
          && (forall i | 0 <= i < |a.vin| :: SamePrevout(a.vin[i], b.vin[i]))
          && (nHashType % 0x20 !in {2, 3} ==> forall i | 0 <= i < |a.vin| :: a.vin[i].sequence == b.vin[i].sequence))
  }

  /** No output for type 2, the own one for type 3, and all for every other type. */
  predicate SameOutputs(a: Tx, b: Tx, nIn: nat, nHashType: int) {
    if nHashType % 0x20 == 2 then true
    else if nHashType % 0x20 == 3 then nIn < |a.vout| && nIn < |b.vout| && a.vout[nIn] == b.vout[nIn]
    else a.vout == b.vout
  }

  ghost predicate SameSigned(codeA: Script, a: Tx, codeB: Script, b: Tx, nIn: nat, nHashType: int) {
    && a.version == b.version && a.lockTime == b.lockTime && Signable(codeA) == Signable(codeB)
    && SameInputs(a, b, nIn, nHashType) && SameOutputs(a, b, nIn, nHashType)
  }

  lemma SameOneInput(x: TxIn, y: TxIn, signed: bool, codeA: Script, codeB: Script, keep: bool)
    ensures HashedInput(x, signed, codeA, keep) == HashedInput(y, signed, codeB, keep) <==>
            SamePrevout(x, y) && (signed || keep ==> x.sequence == y.sequence) && (signed ==> codeA == codeB)
  {
  }

  lemma SameHashedInputs(a: seq<TxIn>, b: seq<TxIn>, nIn: nat, codeA: Script, codeB: Script, keep: bool)
    requires nIn < |a| && nIn < |b|
    ensures HashedInputs(a, nIn, codeA, keep) == HashedInputs(b, nIn, codeB, keep) <==>
            && |a| == |b| && codeA == codeB && a[nIn].sequence == b[nIn].sequence
            && (forall i | 0 <= i < |a| :: SamePrevout(a[i], b[i]))
            && (keep ==> forall i | 0 <= i < |a| :: a[i].sequence == b[i].sequence)
  {
    var va, vb := HashedInputs(a, nIn, codeA, keep), HashedInputs(b, nIn, codeB, keep);
    hide HashedInput, HashedInputs, SamePrevout;
    if |a| == |b| {
      forall i | 0 <= i < |a|
        ensures va[i] == vb[i] <==> SamePrevout(a[i], b[i]) && (i == nIn || keep ==> a[i].sequence == b[i].sequence)
                                    && (i == nIn ==> codeA == codeB)
      {
        SameOneInput(a[i], b[i], i == nIn, codeA, codeB, keep);
      }
      if va == vb {
        assert va[nIn] == vb[nIn];
        forall i | 0 <= i < |a| ensures SamePrevout(a[i], b[i]) && (keep ==> a[i].sequence == b[i].sequence) {
          assert va[i] == vb[i];
        }
      }
    }
  }

  /**
   * Where there is something to sign, what is hashed is the same exactly if the version, the lock time, the script
   * without separators, and those inputs and outputs are that the hash type names.
   */
  lemma HashCommitsTo(codeA: Script, a: Tx, codeB: Script, b: Tx, nIn: nat, nHashType: int)
    requires HashedTx(codeA, a, nIn, nHashType).Some? && HashedTx(codeB, b, nIn, nHashType).Some?
    ensures HashedTx(codeA, a, nIn, nHashType) == HashedTx(codeB, b, nIn, nHashType) <==>
            SameSigned(codeA, a, codeB, b, nIn, nHashType)
  {
    var keep := BaseType(nHashType) != SIGHASH_NONE && BaseType(nHashType) != SIGHASH_SINGLE;
    SameOneInput(a.vin[nIn], b.vin[nIn], true, Signable(codeA), Signable(codeB), keep);
    SameHashedInputs(a.vin, b.vin, nIn, Signable(codeA), Signable(codeB), keep);
    hide Deleted, HashedInput, SamePrevout;
    SameHashedOutputs(codeA, a, codeB, b, nIn, nHashType);
    var x, y := HashedTx(codeA, a, nIn, nHashType).value, HashedTx(codeB, b, nIn, nHashType).value;
    assert x == y <==> x.version == y.version && x.lockTime == y.lockTime && x.vin == y.vin && x.vout == y.vout;
    if AnyoneCanPay(nHashType) && x.vin == y.vin {
      assert x.vin[0] == y.vin[0];
    }
  }

  lemma SameHashedOutputs(codeA: Script, a: Tx, codeB: Script, b: Tx, nIn: nat, nHashType: int)
    requires HashedTx(codeA, a, nIn, nHashType).Some? && HashedTx(codeB, b, nIn, nHashType).Some?
    ensures HashedTx(codeA, a, nIn, nHashType).value.vout == HashedTx(codeB, b, nIn, nHashType).value.vout <==>
            SameOutputs(a, b, nIn, nHashType)
  {
    if BaseType(nHashType) == SIGHASH_SINGLE {
      assert (NullOuts(nIn) + [a.vout[nIn]])[nIn] == a.vout[nIn] && (NullOuts(nIn) + [b.vout[nIn]])[nIn] == b.vout[nIn];
    }
  }

  /** Two different things to hash with one hash. */
  predicate Collide(crypto: Crypto, x: Option<Tx>, y: Option<Tx>, nHashType: int) {
    x.Some? && y.Some? && x != y && crypto.hashTx(x.value, nHashType) == crypto.hashTx(y.value, nHashType)
  }

  /** So a signature hash is shared exactly by what is the same in all of these parts, unless the hash function collides. */
  lemma SignatureCommitsTo(crypto: Crypto, codeA: Script, a: Tx, codeB: Script, b: Tx, nIn: nat, nHashType: int)
    requires HashedTx(codeA, a, nIn, nHashType).Some? && HashedTx(codeB, b, nIn, nHashType).Some?
    ensures SignedHash(crypto, codeA, a, nIn, nHashType) == SignedHash(crypto, codeB, b, nIn, nHashType) <==>
            || SameSigned(codeA, a, codeB, b, nIn, nHashType)
            || Collide(crypto, HashedTx(codeA, a, nIn, nHashType), HashedTx(codeB, b, nIn, nHashType), nHashType)
  {
    HashCommitsTo(codeA, a, codeB, b, nIn, nHashType);
    hide HashedTx, SameSigned;
  }

  /** With SIGHASH_SINGLE the other outputs and the other sequence numbers can be anything. */
  lemma SingleIgnoresOtherOutputs(crypto: Crypto, code: Script, a: Tx, b: Tx, nIn: nat, nHashType: int)
    requires nHashType % 0x20 == 3 && nIn < |a.vin| && |a.vin| == |b.vin| && nIn < |a.vout| && nIn < |b.vout|
    requires forall i | 0 <= i < |a.vin| :: SamePrevout(a.vin[i], b.vin[i])
    requires a.vin[nIn].sequence == b.vin[nIn].sequence && a.vout[nIn] == b.vout[nIn]
    requires a.version == b.version && a.lockTime == b.lockTime
    ensures SignedHash(crypto, code, a, nIn, nHashType) == SignedHash(crypto, code, b, nIn, nHashType)
  {
    NothingToSignExactlyWhen(code, a, nIn, nHashType);
    NothingToSignExactlyWhen(code, b, nIn, nHashType);
    HashCommitsTo(code, a, code, b, nIn, nHashType);
    hide HashedTx;
  }

  // Checking

  /** The last byte of a signature is its hash type; a nonzero nHashType must agree with it. */
  function SigValid(crypto: Crypto, sig: Value, pubKey: Value, code: Script, tx: Tx, nIn: nat, nHashType: int): bool {
    if sig == [] then false
    else
      var last: int := sig[|sig| - 1];
      (nHashType == 0 || nHashType == last)
      && crypto.verify(pubKey, SignedHash(crypto, code, tx, nIn, last), sig[..|sig| - 1])
  }

  method CheckSig(crypto: Crypto, vchSig: Value, vchPubKey: Value, scriptCode: Script, txTo: Tx, nIn: nat, nHashType: int)
    returns (r: bool)
    ensures r == SigValid(crypto, vchSig, vchPubKey, scriptCode, txTo, nIn, nHashType)
  {
    if vchSig == [] {
      return false;
    }
    var hashType := nHashType;
    if hashType == 0 {
      hashType := vchSig[|vchSig| - 1];
    } else if hashType != vchSig[|vchSig| - 1] {
      return false;
    }
    var sighash := SignatureHash(crypto, scriptCode, txTo, nIn, hashType);
    r := crypto.verify(vchPubKey, sighash, vchSig[..|vchSig| - 1]);
  }

  /** A signature for its own output alone, where there is none, is as good for any other such input. */
  lemma SingleWithoutOutput(crypto: Crypto, sig: Value, pubKey: Value, code: Script, tx: Tx, nIn: nat,
                            otherCode: Script, other: Tx, otherIn: nat, nHashType: int)
    requires sig != [] && sig[|sig| - 1] % 0x20 == SIGHASH_SINGLE && nIn >= |tx.vout| && otherIn >= |other.vout|
    ensures SigValid(crypto, sig, pubKey, code, tx, nIn, nHashType)
            == SigValid(crypto, sig, pubKey, otherCode, other, otherIn, nHashType)
  {
    var last: int := sig[|sig| - 1];
    NothingToSignExactlyWhen(code, tx, nIn, last);
    NothingToSignExactlyWhen(otherCode, other, otherIn, last);
    hide HashedTx;
  }

  /** The machine's view of one input of a transaction. */
  function EnvFor(crypto: Crypto, tx: Tx, nIn: nat, nHashType: int): I.Env {
    I.Env(crypto.ripemd160, crypto.sha1, crypto.sha256, crypto.hash160, crypto.hash256,
          (sig, key, code) => SigValid(crypto, sig, key, code, tx, nIn, nHashType))
  }
}
