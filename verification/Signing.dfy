/** Signing an input and verifying it (src/script.cpp, VerifyScript and SignSignature). */
module Signing {
  import opened Sequences
  import opened Wrappers
  import opened Bytes
  import opened Transactions
  import opened ScriptCode
  import opened Multisig
  import opened Standard
  import opened Signatures
  import opened PushScripts
  import I = Interpreter

  // Verifying

  /** VerifyScript. The serialized script of pay-to-script-hash is what scriptSig leaves on top. */
  ghost predicate Verify(crypto: Crypto, scriptSig: Script, scriptPubKey: Script, tx: Tx, nIn: nat, p2sh: bool, nHashType: int) {
    var env := EnvFor(crypto, tx, nIn, nHashType);
    match I.Eval(env, [], scriptSig)
    case None => false
    case Some(stack) =>
      && Accepts(I.Eval(env, stack, scriptPubKey))
      && (p2sh && IsPayToScriptHash(scriptPubKey) ==>
            && PushOnly(scriptSig) && stack != []
            && Accepts(I.Eval(env, I.Pop(stack, 1), I.Top(stack, 1))))
  }

  predicate Accepts(r: Option<seq<Value>>) {
    r.Some? && r.value != [] && I.IsTrue(I.Top(r.value, 1))
  }

  /** A pay-to-script-hash output needs an element to hash, so the copy of the stack is never read empty. */
  lemma ScriptHashNeedsElement(env: I.Env, s: Script)
    requires IsPayToScriptHash(s)
    ensures I.Eval(env, [], s).None?
  {
    assert s == [OP_HASH160] + s[1..];
    RunOne(env, OP_HASH160, s[1..], I.State([], [], [], 0, s));
  }

  method VerifyScript(crypto: Crypto, scriptSig: Script, scriptPubKey: Script, txTo: Tx, nIn: nat,
                      fValidatePayToScriptHash: bool, nHashType: int) returns (ok: bool)
    ensures ok <==> Verify(crypto, scriptSig, scriptPubKey, txTo, nIn, fValidatePayToScriptHash, nHashType)
  {
    hide I.Eval;
    var env := EnvFor(crypto, txTo, nIn, nHashType);
    var stack := I.EvalScript(env, [], scriptSig);
    if stack.None? {
      return false;
    }
    var stackCopy := stack.value;
    var result := I.EvalScript(env, stack.value, scriptPubKey);
    if result.None? || result.value == [] {
      return false;
    }
    var top := I.CastToBool(I.Top(result.value, 1));
    if !top {
      return false;
    }
    if fValidatePayToScriptHash && IsPayToScriptHash(scriptPubKey) {
      var pushOnly := IsPushOnly(scriptSig);
      if !pushOnly {
        return false;
      }
      if stackCopy == [] {
        ScriptHashNeedsElement(env, scriptPubKey);
      }
      var pubKey2: Script := I.Top(stackCopy, 1);
      result := I.EvalScript(env, I.Pop(stackCopy, 1), pubKey2);
      if result.None? || result.value == [] {
        return false;
      }
      ok := I.CastToBool(I.Top(result.value, 1));
      return;
    }
    ok := true;
  }

  // Signing

  datatype Key = Key(pub: Value, sign: Hash -> Option<Value>)

  datatype KeyStore = KeyStore(getKey: Value -> Option<Key>, getScript: Value -> Option<Script>)

  function TypeByte(nHashType: int): Byte {
    nHashType % 0x100
  }

  /** What the key with this id signs, the hash type appended. */
  function SignatureOf(ks: KeyStore, id: Value, hash: Hash, nHashType: int): Option<Value> {
    match ks.getKey(id)
    case None => None
    case Some(key) =>
      match key.sign(hash)
      case None => None
      case Some(sig) => Some(sig + [TypeByte(nHashType)])
  }

  /** The first signatures that can be made for the keys in order, up to required. */
  function SignaturesOf(crypto: Crypto, ks: KeyStore, keys: seq<Value>, required: nat, hash: Hash, t: int): (r: seq<Value>)
    ensures |r| <= required && |r| <= |keys|
    decreases |keys|
  {
    if keys == [] || required == 0 then []
    else
      match SignatureOf(ks, crypto.hash160(keys[0]), hash, t)
      case None => SignaturesOf(crypto, ks, keys[1..], required, hash, t)
      case Some(sig) => [sig] + SignaturesOf(crypto, ks, keys[1..], required - 1, hash, t)
  }

  /** values are what scriptSig pushes; for a script hash, script is the script to be evaluated instead. */
  datatype Solution = Solution(ok: bool, whichType: TxOutType, values: seq<Value>, script: Script)

  function SolutionFor(crypto: Crypto, ks: KeyStore, scriptPubKey: Script, hash: Hash, t: int): Solution {
    var (whichType, v) := Solve(scriptPubKey);
    match whichType
    case NonStandard => Solution(false, NonStandard, [], [])
    case PubKey =>
      PubKeyMatches(scriptPubKey);
      (match SignatureOf(ks, crypto.hash160(v[0]), hash, t)
       case None => Solution(false, PubKey, [], [])
       case Some(sig) => Solution(true, PubKey, [sig], []))
    case PubKeyHash =>
      PubKeyHashMatches(scriptPubKey);
      (match SignatureOf(ks, v[0], hash, t)
       case None => Solution(false, PubKeyHash, [], [])
       case Some(sig) => Solution(true, PubKeyHash, [sig, ks.getKey(v[0]).value.pub], []))
    case ScriptHash =>
      (match ks.getScript(v[0])
       case None => Solution(false, ScriptHash, [], [])
       case Some(s) => Solution(true, ScriptHash, [], s))
    case MultiSig =>
      var sigs := SignaturesOf(crypto, ks, v[1..|v| - 1], v[0][0], hash, t);
      Solution(|sigs| == v[0][0], MultiSig, [[]] + sigs, [])
  }

  method Sign1(address: Value, ks: KeyStore, hash: Hash, nHashType: int, scriptSig: Script) returns (ok: bool, r: Script)
    ensures ok <==> SignatureOf(ks, address, hash, nHashType).Some?
    ensures r == if ok then scriptSig + PushBytes(SignatureOf(ks, address, hash, nHashType).value) else scriptSig
  {
    r := scriptSig;
    var key := ks.getKey(address);
    if key.None? {
      return false, r;
    }
    var vchSig := key.value.sign(hash);
    if vchSig.None? {
      return false, r;
    }
    r := AppendPush(r, vchSig.value + [TypeByte(nHashType)]);
    ok := true;
  }

  lemma PushesSnoc(vs: seq<Value>, v: Value)
    ensures Pushes(vs + [v]) == Pushes(vs) + PushBytes(v)
  {
    assert (vs + [v])[..|vs|] == vs;
  }

  /** made are the signatures for the first i keys. */
  ghost predicate SignedSoFar(crypto: Crypto, ks: KeyStore, keys: seq<Value>, required: nat, hash: Hash, t: int,
                              i: nat, made: seq<Value>)
  {
    && i <= |keys| && |made| <= required
    && SignaturesOf(crypto, ks, keys, required, hash, t)
       == made + SignaturesOf(crypto, ks, keys[i..], required - |made|, hash, t)
  }

  lemma SignedAtStart(crypto: Crypto, ks: KeyStore, keys: seq<Value>, required: nat, hash: Hash, t: int)
    ensures SignedSoFar(crypto, ks, keys, required, hash, t, 0, [])
  {
    var all := SignaturesOf(crypto, ks, keys, required, hash, t);
    assert keys[0..] == keys && [] + all == all;
  }

  lemma SignNext(crypto: Crypto, ks: KeyStore, keys: seq<Value>, required: nat, hash: Hash, t: int,
                 i: nat, made: seq<Value>)
    requires SignedSoFar(crypto, ks, keys, required, hash, t, i, made) && i < |keys| && |made| < required
    ensures
      match SignatureOf(ks, crypto.hash160(keys[i]), hash, t)
      case None => SignedSoFar(crypto, ks, keys, required, hash, t, i + 1, made)
      case Some(sig) => SignedSoFar(crypto, ks, keys, required, hash, t, i + 1, made + [sig])
  {
    var rest := keys[i..];
    assert rest[0] == keys[i] && rest[1..] == keys[i + 1..];
    match SignatureOf(ks, crypto.hash160(keys[i]), hash, t) {
      case None =>
      case Some(sig) => Concat3(made, [sig], SignaturesOf(crypto, ks, keys[i + 1..], required - |made| - 1, hash, t));
    }
  }

  lemma SignedAtEnd(crypto: Crypto, ks: KeyStore, keys: seq<Value>, required: nat, hash: Hash, t: int,
                    i: nat, made: seq<Value>)
    requires SignedSoFar(crypto, ks, keys, required, hash, t, i, made) && (i == |keys| || |made| == required)
    ensures SignaturesOf(crypto, ks, keys, required, hash, t) == made
  {
    assert made + [] == made;
  }

  method SignN(crypto: Crypto, multisigdata: seq<Value>, ks: KeyStore, hash: Hash, nHashType: int, ghost below: seq<Value>,
               scriptSig: Script) returns (ok: bool, r: Script)
    requires MultisigCountsOk(multisigdata) && scriptSig == Pushes(below)
    ensures var sigs := SignaturesOf(crypto, ks, multisigdata[1..|multisigdata| - 1], multisigdata[0][0], hash, nHashType);
      r == Pushes(below + sigs) && (ok <==> |sigs| == multisigdata[0][0])
  {
    hide SignedSoFar, Pushes, PushBytes, SignatureOf;
    var nRequired: nat := multisigdata[0][0];
    ghost var keys := multisigdata[1..|multisigdata| - 1];
    ghost var made: seq<Value> := [];
    var nSigned, i := 0, 1;
    r := scriptSig;
    assert below + [] == below;
    SignedAtStart(crypto, ks, keys, nRequired, hash, nHashType);
    while i < |multisigdata| - 1 && nSigned < nRequired
      invariant 1 <= i <= |multisigdata| - 1 && nSigned == |made| <= nRequired
      invariant SignedSoFar(crypto, ks, keys, nRequired, hash, nHashType, i - 1, made)
      invariant r == Pushes(below + made)
    {
      SignNext(crypto, ks, keys, nRequired, hash, nHashType, i - 1, made);
      var keyID: Value := crypto.hash160(multisigdata[i]);
      var signed;
      signed, r := Sign1(keyID, ks, hash, nHashType, r);
      if signed {
        ghost var sig := SignatureOf(ks, keyID, hash, nHashType).value;
        PushesSnoc(below + made, sig);
        Concat3(below, made, [sig]);
        made := made + [sig];
        nSigned := nSigned + 1;
      }
      i := i + 1;
    }
    SignedAtEnd(crypto, ks, keys, nRequired, hash, nHashType, i - 1, made);
    ok := nSigned == nRequired;
  }

  method SolverSign(crypto: Crypto, ks: KeyStore, scriptPubKey: Script, hash: Hash, nHashType: int)
    returns (ok: bool, scriptSig: Script, whichType: TxOutType)
    ensures var s := SolutionFor(crypto, ks, scriptPubKey, hash, nHashType);
      ok == s.ok && (ok ==> whichType == s.whichType)
      && scriptSig == if s.whichType == ScriptHash then s.script else Pushes(s.values)
  {
    var solved, vSolutions;
    scriptSig := [];
    solved, whichType, vSolutions := Solver(scriptPubKey);
    if !solved {
      return false, [], NonStandard;
    }
    PubKeyMatches(scriptPubKey);
    PubKeyHashMatches(scriptPubKey);
    hide MatchTemplate;
    ok := false;
    match whichType {
      case NonStandard =>
      case PubKey =>
        ok, scriptSig := Sign1(crypto.hash160(vSolutions[0]), ks, hash, nHashType, scriptSig);
      case PubKeyHash =>
        ok, scriptSig := Sign1(vSolutions[0], ks, hash, nHashType, scriptSig);
        if ok {
          ghost var sig := SignatureOf(ks, vSolutions[0], hash, nHashType).value;
          PushesSnoc([sig], ks.getKey(vSolutions[0]).value.pub);
          assert [sig] + [ks.getKey(vSolutions[0]).value.pub] == [sig, ks.getKey(vSolutions[0]).value.pub];
          assert scriptSig == Pushes([sig]);
          scriptSig := AppendPush(scriptSig, ks.getKey(vSolutions[0]).value.pub);
        }
      case ScriptHash =>
        var script := ks.getScript(vSolutions[0]);
        if script.Some? {
          ok, scriptSig := true, script.value;
        }
      case MultiSig =>
        scriptSig := scriptSig + [OP_0];
        assert scriptSig == Pushes([[]]);
        ok, scriptSig := SignN(crypto, vSolutions, ks, hash, nHashType, [[]], scriptSig);
    }
  }

  function WithScript(tx: Tx, nIn: nat, scriptSig: Script): Tx
    requires nIn < |tx.vin|
  {
    tx.(vin := tx.vin[nIn := tx.vin[nIn].(scriptSig := scriptSig)])
  }

  lemma ScriptsOnly(tx: Tx, nIn: nat)
    requires nIn < |tx.vin|
    ensures forall a :: SameButScripts(tx, WithScript(tx, nIn, a)) && |WithScript(tx, nIn, a).vin| == |tx.vin|
    ensures forall a, b :: WithScript(WithScript(tx, nIn, a), nIn, b) == WithScript(tx, nIn, b)
  {
  }

  /** The scriptSig that signing leaves, and whether everything it asks for was signed. */
  function SignedScript(crypto: Crypto, ks: KeyStore, fromPubKey: Script, tx: Tx, nIn: nat, t: int): (bool, Script) {
    var s := SolutionFor(crypto, ks, fromPubKey, SignedHash(crypto, fromPubKey, tx, nIn, t), t);
    if s.whichType != ScriptHash then (s.ok, Pushes(s.values))
    else if !s.ok then (false, s.script)
    else
      var sub := SolutionFor(crypto, ks, s.script, SignedHash(crypto, s.script, tx, nIn, t), t);
      if sub.whichType == ScriptHash then (false, sub.script + PushBytes(s.script))
      else (sub.ok, Pushes(sub.values + [s.script]))
  }

  /** Signs input nIn and tests the result. */
  method SignSignature(crypto: Crypto, ks: KeyStore, fromPubKey: Script, txTo: Tx, nIn: nat, nHashType: int)
    returns (ok: bool, r: Tx)
    requires nIn < |txTo.vin|
    ensures var (signed, scriptSig) := SignedScript(crypto, ks, fromPubKey, txTo, nIn, nHashType);
      && r == WithScript(txTo, nIn, scriptSig)
      && (ok <==> signed && Verify(crypto, scriptSig, fromPubKey, r, nIn, true, 0))
  {
    hide Verify, SolutionFor, WithScript, Pushes, PushBytes;
    ScriptsOnly(txTo, nIn);
    var hash := SignatureHash(crypto, fromPubKey, txTo, nIn, nHashType);
    var solved, scriptSig, whichType := SolverSign(crypto, ks, fromPubKey, hash, nHashType);
    r := WithScript(txTo, nIn, scriptSig);
    if !solved {
      return false, r;
    }
    if whichType == ScriptHash {
      var subscript := scriptSig;
      var hash2 := SignatureHash(crypto, subscript, r, nIn, nHashType);
      HashIgnoresScripts(crypto, subscript, txTo, r, nIn, nHashType);
      ghost var sub := SolutionFor(crypto, ks, subscript, hash2, nHashType);
      var fSolved, scriptSig2, subType := SolverSign(crypto, ks, subscript, hash2, nHashType);
      fSolved := fSolved && subType != ScriptHash;
      PushesSnoc(sub.values, subscript);
      scriptSig := AppendPush(scriptSig2, subscript);
      r := WithScript(r, nIn, scriptSig);
      if !fSolved {
        return false, r;
      }
    }
    ok := VerifyScript(crypto, scriptSig, fromPubKey, r, nIn, true, 0);
  }

  // What can be signed

  /** A key is filed under this id and signs the hash. */
  predicate CanSign(ks: KeyStore, id: Value, hash: Hash) {
    ks.getKey(id).Some? && ks.getKey(id).value.sign(hash).Some?
  }

  /** How many of the keys can sign. */
  function SignerCount(crypto: Crypto, ks: KeyStore, keys: seq<Value>, hash: Hash): nat {
    if keys == [] then 0
    else (if CanSign(ks, crypto.hash160(keys[0]), hash) then 1 else 0) + SignerCount(crypto, ks, keys[1..], hash)
  }

  lemma {:induction false} AllSignersSign(crypto: Crypto, ks: KeyStore, keys: seq<Value>, required: nat, hash: Hash, t: int)
    ensures |SignaturesOf(crypto, ks, keys, required, hash, t)|
            == if SignerCount(crypto, ks, keys, hash) < required then SignerCount(crypto, ks, keys, hash) else required
    decreases |keys|
  {
    if keys != [] && required > 0 {
      var signs := CanSign(ks, crypto.hash160(keys[0]), hash);
      AllSignersSign(crypto, ks, keys[1..], if signs then required - 1 else required, hash, t);
    }
  }

  /**
   * Everything asked for is signed exactly if the store holds what the form needs: the key, or enough of the keys, or the
   * script with that hash.
   */
  lemma SignedExactlyWhen(crypto: Crypto, ks: KeyStore, s: Script, hash: Hash, t: int)
    ensures var ok := SolutionFor(crypto, ks, s, hash, t).ok;
      && (forall key | IsPubKeyScript(s, key) :: ok <==> CanSign(ks, crypto.hash160(key), hash))
      && (forall id | IsPubKeyHashScript(s, id) :: ok <==> CanSign(ks, id, hash))
      && (forall m: nat, keys | IsMultisigScript(s, m, keys) :: ok <==> SignerCount(crypto, ks, keys, hash) >= m)
      && (IsPayToScriptHash(s) ==> (ok <==> ks.getScript(s[2..22]).Some?))
  {
    hide IsPubKeyScript, IsPubKeyHashScript, IsMultisigScript, IsPayToScriptHash;
    forall key | IsPubKeyScript(s, key)
      ensures SolutionFor(crypto, ks, s, hash, t).ok <==> CanSign(ks, crypto.hash160(key), hash)
    {
      PubKeySolved(s, key);
      hide Solve;
    }
    forall id | IsPubKeyHashScript(s, id) ensures SolutionFor(crypto, ks, s, hash, t).ok <==> CanSign(ks, id, hash) {
      PubKeyHashSolved(s, id);
      hide Solve;
    }
    forall m: nat, keys | IsMultisigScript(s, m, keys)
      ensures SolutionFor(crypto, ks, s, hash, t).ok <==> SignerCount(crypto, ks, keys, hash) >= m
    {
      MultisigSignedExactlyWhen(crypto, ks, s, m, keys, hash, t);
    }
    if IsPayToScriptHash(s) {
      NotScriptHash(s);
    }
  }

  lemma MultisigSignedExactlyWhen(crypto: Crypto, ks: KeyStore, s: Script, m: nat, keys: seq<Value>, hash: Hash, t: int)
    requires IsMultisigScript(s, m, keys)
    ensures SolutionFor(crypto, ks, s, hash, t).ok <==> SignerCount(crypto, ks, keys, hash) >= m
  {
    MultisigSolved(s, m, keys);
    MultisigSolutions([m], keys, [|keys|]);
    AllSignersSign(crypto, ks, keys, m, hash, t);
    hide Solve, SignaturesOf, SignerCount;
  }

  // Completeness

  /**
   * What the signer relies on: keys and scripts are filed under their own hashes, what a key signs verifies, and
   * everything fits into a stack element.
   */
  ghost predicate Reliable(crypto: Crypto, ks: KeyStore) {
    && (forall id | ks.getKey(id).Some? :: crypto.hash160(ks.getKey(id).value.pub) == id)
    && (forall id | ks.getKey(id).Some? :: |ks.getKey(id).value.pub| <= I.MAX_ELEMENT_SIZE && SignsWell(crypto, ks.getKey(id).value))
    && (forall id | ks.getScript(id).Some? :: FiledScript(crypto, id, ks.getScript(id).value))
  }

  /** No other key is filed under the hash of one of these. */
  predicate NoneElseFiled(crypto: Crypto, ks: KeyStore, keys: seq<Value>) {
    forall i | 0 <= i < |keys| && ks.getKey(crypto.hash160(keys[i])).Some? ::
      ks.getKey(crypto.hash160(keys[i])).value.pub == keys[i]
  }

  /** The keys a standard script names outright, not by their hash. */
  function KeysNamed(s: Script): seq<Value> {
    var (whichType, v) := Solve(s);
    match whichType
    case PubKey => PubKeyMatches(s); [v[0]]
    case MultiSig => v[1..|v| - 1]
    case _ => []
  }

  ghost predicate SignsWell(crypto: Crypto, key: Key) {
    forall h | key.sign(h).Some? ::
      crypto.verify(key.pub, h, key.sign(h).value) && |key.sign(h).value| < I.MAX_ELEMENT_SIZE
  }

  predicate FiledScript(crypto: Crypto, id: Value, s: Script) {
    crypto.hash160(s) == id && |s| <= I.MAX_ELEMENT_SIZE
  }

  /** The script that is signed does not itself push any signature made for it. */
  ghost predicate PushesNoSignature(ks: KeyStore, hash: Hash, t: int, s: Script) {
    forall id | SignatureOf(ks, id, hash, t).Some? :: NotPushed(SignatureOf(ks, id, hash, t).value, s)
  }

  /** A signature the store makes is accepted for its key, with any scriptSig in place. */
  lemma MadeSignature(crypto: Crypto, ks: KeyStore, id: Value, code: Script, tx: Tx, tx': Tx, nIn: nat, t: int)
    requires Reliable(crypto, ks) && SameButScripts(tx, tx') && 0 <= t < 0x100
    requires SignatureOf(ks, id, SignedHash(crypto, code, tx, nIn, t), t).Some?
    ensures var sig := SignatureOf(ks, id, SignedHash(crypto, code, tx, nIn, t), t).value;
      |sig| <= I.MAX_ELEMENT_SIZE && EnvFor(crypto, tx', nIn, 0).checkSig(sig, ks.getKey(id).value.pub, code)
  {
    var hash := SignedHash(crypto, code, tx, nIn, t);
    var raw, key := ks.getKey(id).value.sign(hash).value, ks.getKey(id).value;
    var sig := raw + [TypeByte(t)];
    assert SignsWell(crypto, key);
    HashIgnoresScripts(crypto, code, tx, tx', nIn, t);
    hide SignedHash;
    assert sig[..|sig| - 1] == raw && sig[|sig| - 1] == t;
  }

  /** What makes a list of signatures good for the keys of a script. */
  ghost predicate GoodSignatures(env: I.Env, code: Script, sigs: seq<Value>, keys: seq<Value>) {
    && Assignable(I.CheckWith(env, code), sigs, keys)
    && forall i | 0 <= i < |sigs| :: |sigs[i]| <= I.MAX_ELEMENT_SIZE && NotPushed(sigs[i], code)
  }

  lemma OneMoreKey(env: I.Env, code: Script, made: Option<Value>, sigs: seq<Value>, keys: seq<Value>)
    requires keys != [] && GoodSignatures(env, code, sigs, keys[1..])
    requires made.Some? ==> env.checkSig(made.value, keys[0], code)
    requires made.Some? ==> |made.value| <= I.MAX_ELEMENT_SIZE && NotPushed(made.value, code)
    ensures GoodSignatures(env, code, (if made.None? then [] else [made.value]) + sigs, keys)
  {
    hide NotPushed, IsAssignment;
    var valid := I.CheckWith(env, code);
    var g :| IsAssignment(g, valid, sigs, keys[1..]);
    assert keys == [keys[0]] + keys[1..] && [] + sigs == sigs;
    if made.None? {
      SkipFirstKey(g, valid, sigs, keys[0], keys[1..]);
    } else {
      UseFirstKey(g, valid, made.value, sigs, keys[0], keys[1..]);
    }
  }

  lemma {:induction false} MadeSignatures(crypto: Crypto, ks: KeyStore, keys: seq<Value>, required: nat,
                                         code: Script, tx: Tx, tx': Tx, nIn: nat, t: int)
    requires Reliable(crypto, ks) && SameButScripts(tx, tx') && 0 <= t < 0x100
    requires PushesNoSignature(ks, SignedHash(crypto, code, tx, nIn, t), t, code) && NoneElseFiled(crypto, ks, keys)
    ensures GoodSignatures(EnvFor(crypto, tx', nIn, 0), code,
                           SignaturesOf(crypto, ks, keys, required, SignedHash(crypto, code, tx, nIn, t), t), keys)
    decreases |keys|
  {
    hide SignedHash, NotPushed, SameButScripts, SignatureOf, EnvFor, IsAssignment, GoodSignatures;
    var hash, env := SignedHash(crypto, code, tx, nIn, t), EnvFor(crypto, tx', nIn, 0);
    if keys == [] || required == 0 {
      NoSignatures(env, code, keys);
    } else {
      var id: Value := crypto.hash160(keys[0]);
      var made := SignatureOf(ks, id, hash, t);
      var required' := if made.None? then required else required - 1;
      MadeSignatures(crypto, ks, keys[1..], required', code, tx, tx', nIn, t);
      var rest := SignaturesOf(crypto, ks, keys[1..], required', hash, t);
      assert [] + rest == rest;
      if made.Some? {
        SignerHasKey(ks, id, hash, t);
        MadeSignature(crypto, ks, id, code, tx, tx', nIn, t);
        assert ks.getKey(crypto.hash160(keys[0])).value.pub == keys[0];
      }
      OneMoreKey(env, code, made, rest, keys);
    }
  }

  lemma SignerHasKey(ks: KeyStore, id: Value, hash: Hash, t: int)
    requires SignatureOf(ks, id, hash, t).Some?
    ensures ks.getKey(id).Some?
  {
  }

  lemma NoSignatures(env: I.Env, code: Script, keys: seq<Value>)
    ensures GoodSignatures(env, code, [], keys)
  {
    assert IsAssignment([], I.CheckWith(env, code), [], keys);
  }

  /** Signing any form that is not a script hash leaves values that satisfy the script. */
  lemma SolutionSatisfies(crypto: Crypto, ks: KeyStore, s: Script, tx: Tx, tx': Tx, nIn: nat, t: int)
    requires Reliable(crypto, ks) && SameButScripts(tx, tx') && 0 <= t < 0x100
    requires NoneElseFiled(crypto, ks, KeysNamed(s))
    requires PushesNoSignature(ks, SignedHash(crypto, s, tx, nIn, t), t, s)
    requires SolutionFor(crypto, ks, s, SignedHash(crypto, s, tx, nIn, t), t).ok
    requires SolutionFor(crypto, ks, s, SignedHash(crypto, s, tx, nIn, t), t).whichType != ScriptHash
    ensures var values := SolutionFor(crypto, ks, s, SignedHash(crypto, s, tx, nIn, t), t).values;
      && I.Eval(EnvFor(crypto, tx', nIn, 0), values, s) == Some([I.VCH_TRUE])
      && I.Bounded(values) && |values| <= 17
  {
    var hash := SignedHash(crypto, s, tx, nIn, t);
    match Solve(s).0 {
      case PubKey => PubKeySatisfied(crypto, ks, s, tx, tx', nIn, t);
      case PubKeyHash => PubKeyHashSatisfied(crypto, ks, s, tx, tx', nIn, t);
      case MultiSig => MultisigSatisfied(crypto, ks, s, tx, tx', nIn, t);
      case _ =>
    }
  }

  /** A signature in scriptSig is not part of what it signs. */
  lemma SignatureChecks(crypto: Crypto, ks: KeyStore, id: Value, s: Script, tx: Tx, tx': Tx, nIn: nat, t: int)
    requires Reliable(crypto, ks) && SameButScripts(tx, tx') && 0 <= t < 0x100
    requires PushesNoSignature(ks, SignedHash(crypto, s, tx, nIn, t), t, s)
    requires SignatureOf(ks, id, SignedHash(crypto, s, tx, nIn, t), t).Some?
    ensures var sig := SignatureOf(ks, id, SignedHash(crypto, s, tx, nIn, t), t).value;
      && |sig| <= I.MAX_ELEMENT_SIZE
      && EnvFor(crypto, tx', nIn, 0).checkSig(sig, ks.getKey(id).value.pub, I.Drop(s, sig))
  {
    MadeSignature(crypto, ks, id, s, tx, tx', nIn, t);
    DropNothing(s, SignatureOf(ks, id, SignedHash(crypto, s, tx, nIn, t), t).value);
  }

  lemma PubKeySatisfied(crypto: Crypto, ks: KeyStore, s: Script, tx: Tx, tx': Tx, nIn: nat, t: int)
    requires Reliable(crypto, ks) && SameButScripts(tx, tx') && 0 <= t < 0x100
    requires NoneElseFiled(crypto, ks, KeysNamed(s))
    requires PushesNoSignature(ks, SignedHash(crypto, s, tx, nIn, t), t, s) && Solve(s).0 == PubKey
    requires SolutionFor(crypto, ks, s, SignedHash(crypto, s, tx, nIn, t), t).ok
    ensures var values := SolutionFor(crypto, ks, s, SignedHash(crypto, s, tx, nIn, t), t).values;
      I.Eval(EnvFor(crypto, tx', nIn, 0), values, s) == Some([I.VCH_TRUE]) && I.Bounded(values) && |values| == 1
  {
    PubKeyMatches(s);
    hide MatchTemplate, PushesNoSignature, SignedHash, EnvFor, I.Eval, I.Drop, SignatureOf;
    var key := Solve(s).1[0];
    var id: Value := crypto.hash160(key);
    SignatureChecks(crypto, ks, id, s, tx, tx', nIn, t);
    var sig := SignatureOf(ks, id, SignedHash(crypto, s, tx, nIn, t), t).value;
    SignerHasKey(ks, id, SignedHash(crypto, s, tx, nIn, t), t);
    assert ks.getKey(crypto.hash160(key)).value.pub == key;
    EvalPubKey(EnvFor(crypto, tx', nIn, 0), s, key, sig);
  }

  lemma PubKeyHashSatisfied(crypto: Crypto, ks: KeyStore, s: Script, tx: Tx, tx': Tx, nIn: nat, t: int)
    requires Reliable(crypto, ks) && SameButScripts(tx, tx') && 0 <= t < 0x100
    requires PushesNoSignature(ks, SignedHash(crypto, s, tx, nIn, t), t, s) && Solve(s).0 == PubKeyHash
    requires SolutionFor(crypto, ks, s, SignedHash(crypto, s, tx, nIn, t), t).ok
    ensures var values := SolutionFor(crypto, ks, s, SignedHash(crypto, s, tx, nIn, t), t).values;
      I.Eval(EnvFor(crypto, tx', nIn, 0), values, s) == Some([I.VCH_TRUE]) && I.Bounded(values) && |values| == 2
  {
    PubKeyHashMatches(s);
    EnvHashes(crypto, tx', nIn);
    hide MatchTemplate, PushesNoSignature, SignedHash, EnvFor, I.Eval, I.Drop, SignatureOf;
    var id := Solve(s).1[0];
    SignatureChecks(crypto, ks, id, s, tx, tx', nIn, t);
    var sig := SignatureOf(ks, id, SignedHash(crypto, s, tx, nIn, t), t).value;
    SignerHasKey(ks, id, SignedHash(crypto, s, tx, nIn, t), t);
    EvalPubKeyHash(EnvFor(crypto, tx', nIn, 0), s, id, sig, ks.getKey(id).value.pub);
  }

  lemma EnvHashes(crypto: Crypto, tx: Tx, nIn: nat)
    ensures forall v :: EnvFor(crypto, tx, nIn, 0).hash160(v) == crypto.hash160(v)
  {
  }

  lemma MultisigSatisfied(crypto: Crypto, ks: KeyStore, s: Script, tx: Tx, tx': Tx, nIn: nat, t: int)
    requires Reliable(crypto, ks) && SameButScripts(tx, tx') && 0 <= t < 0x100
    requires NoneElseFiled(crypto, ks, KeysNamed(s))
    requires PushesNoSignature(ks, SignedHash(crypto, s, tx, nIn, t), t, s) && Solve(s).0 == MultiSig
    requires SolutionFor(crypto, ks, s, SignedHash(crypto, s, tx, nIn, t), t).ok
    ensures var values := SolutionFor(crypto, ks, s, SignedHash(crypto, s, tx, nIn, t), t).values;
      I.Eval(EnvFor(crypto, tx', nIn, 0), values, s) == Some([I.VCH_TRUE]) && I.Bounded(values) && |values| <= 17
  {
    var sigs := MultisigSolution(crypto, ks, s, SignedHash(crypto, s, tx, nIn, t), t);
    var m, keys := MultisigVerdict(s);
    MultisigSolutions([m], keys, [|keys|]);
    hide MatchTemplate, PushesNoSignature, SignedHash, EnvFor, I.Eval, SignatureOf, Solve, GoodSignatures;
    hide IsMultisigScript, SolutionFor, I.Bounded;
    MadeSignatures(crypto, ks, keys, m, s, tx, tx', nIn, t);
    GoodSignaturesSatisfy(EnvFor(crypto, tx', nIn, 0), s, m, keys, sigs);
  }

  lemma GoodSignaturesSatisfy(env: I.Env, s: Script, m: nat, keys: seq<Value>, sigs: seq<Value>)
    requires IsMultisigScript(s, m, keys) && |sigs| == m && GoodSignatures(env, s, sigs, keys)
    ensures I.Eval(env, [[]] + sigs, s) == Some([I.VCH_TRUE]) && I.Bounded([[]] + sigs) && m <= 16
  {
    hide I.Eval;
    EvalMultisig(env, s, m, keys, sigs);
    DropAllNothing(s, Reversed(sigs));
  }

  /** What is pushed for a multisig output. */
  lemma MultisigSolution(crypto: Crypto, ks: KeyStore, s: Script, hash: Hash, t: int) returns (sigs: seq<Value>)
    requires Solve(s).0 == MultiSig && SolutionFor(crypto, ks, s, hash, t).ok
    ensures var v := Solve(s).1;
      && |v| >= 2 && |v[0]| == 1
      && sigs == SignaturesOf(crypto, ks, v[1..|v| - 1], v[0][0], hash, t) && |sigs| == v[0][0]
    ensures SolutionFor(crypto, ks, s, hash, t).values == [[]] + sigs
  {
    var v := Solve(s).1;
    sigs := SignaturesOf(crypto, ks, v[1..|v| - 1], v[0][0], hash, t);
  }

  /** The script whose hash is signed: the filed one for a script hash. */
  function ScriptToSign(ks: KeyStore, fromPubKey: Script): Script {
    if IsPayToScriptHash(fromPubKey) && ks.getScript(fromPubKey[2..22]).Some? then ks.getScript(fromPubKey[2..22]).value
    else fromPubKey
  }

  /**
   * Whenever signing supplies everything an output asks for, the test at its end passes: for the three plain forms
   * and for a script hash over one of them.
   */
  lemma SigningIsComplete(crypto: Crypto, ks: KeyStore, fromPubKey: Script, tx: Tx, nIn: nat, t: int)
    requires nIn < |tx.vin| && Reliable(crypto, ks) && 0 <= t < 0x100
    requires NoneElseFiled(crypto, ks, KeysNamed(ScriptToSign(ks, fromPubKey)))
    requires var code := ScriptToSign(ks, fromPubKey); PushesNoSignature(ks, SignedHash(crypto, code, tx, nIn, t), t, code)
    requires SignedScript(crypto, ks, fromPubKey, tx, nIn, t).0
    ensures var scriptSig := SignedScript(crypto, ks, fromPubKey, tx, nIn, t).1;
      Verify(crypto, scriptSig, fromPubKey, WithScript(tx, nIn, scriptSig), nIn, true, 0)
  {
    hide PushesNoSignature, SignedHash, EnvFor, Verify, MatchTemplate, SameButScripts, I.Eval, SignatureOf, SignaturesOf,
         NoneElseFiled, KeysNamed, I.Bounded, WithScript, Reliable;
    var s := SolutionFor(crypto, ks, fromPubKey, SignedHash(crypto, fromPubKey, tx, nIn, t), t);
    var scriptSig := SignedScript(crypto, ks, fromPubKey, tx, nIn, t).1;
    ScriptsOnly(tx, nIn);
    var tx' := WithScript(tx, nIn, scriptSig);
    NotScriptHash(fromPubKey);
    if s.whichType != ScriptHash {
      SolutionSatisfies(crypto, ks, fromPubKey, tx, tx', nIn, t);
      PlainFormVerifies(crypto, fromPubKey, s.values, tx', nIn);
    } else {
      SubscriptSigned(crypto, ks, fromPubKey, s.script, tx, tx', nIn, t);
    }
  }

  /** The filed script of a script hash is signed like any other, and pushed on top. */
  lemma SubscriptSigned(crypto: Crypto, ks: KeyStore, s: Script, sub: Script, tx: Tx, tx': Tx, nIn: nat, t: int)
    requires Reliable(crypto, ks) && SameButScripts(tx, tx') && 0 <= t < 0x100 && NoneElseFiled(crypto, ks, KeysNamed(sub))
    requires IsPayToScriptHash(s) && ks.getScript(s[2..22]) == Some(sub)
    requires PushesNoSignature(ks, SignedHash(crypto, sub, tx, nIn, t), t, sub)
    requires SolutionFor(crypto, ks, sub, SignedHash(crypto, sub, tx, nIn, t), t).ok
    requires SolutionFor(crypto, ks, sub, SignedHash(crypto, sub, tx, nIn, t), t).whichType != ScriptHash
    ensures var values := SolutionFor(crypto, ks, sub, SignedHash(crypto, sub, tx, nIn, t), t).values;
      Verify(crypto, Pushes(values + [sub]), s, tx', nIn, true, 0)
  {
    assert FiledScript(crypto, s[2..22], sub);
    hide PushesNoSignature, SignedHash, EnvFor, Verify, SameButScripts, I.Eval, SolutionFor, NoneElseFiled, KeysNamed, Reliable;
    SolutionSatisfies(crypto, ks, sub, tx, tx', nIn, t);
    ScriptHashVerifies(crypto, s, SolutionFor(crypto, ks, sub, SignedHash(crypto, sub, tx, nIn, t), t).values, sub, tx', nIn);
  }

  lemma PlainFormVerifies(crypto: Crypto, s: Script, values: seq<Value>, tx: Tx, nIn: nat)
    requires !IsPayToScriptHash(s) && I.Bounded(values) && |values| <= 17
    requires I.Eval(EnvFor(crypto, tx, nIn, 0), values, s) == Some([I.VCH_TRUE])
    ensures Verify(crypto, Pushes(values), s, tx, nIn, true, 0)
  {
    PushesLength(values);
    EvalPushes(EnvFor(crypto, tx, nIn, 0), values);
    hide EnvFor, I.Eval;
    TrueIsTrue();
  }

  lemma ScriptHashVerifies(crypto: Crypto, s: Script, values: seq<Value>, sub: Script, tx: Tx, nIn: nat)
    requires IsPayToScriptHash(s) && FiledScript(crypto, s[2..22], sub) && I.Bounded(values) && |values| <= 17
    requires I.Eval(EnvFor(crypto, tx, nIn, 0), values, sub) == Some([I.VCH_TRUE])
    ensures Verify(crypto, Pushes(values + [sub]), s, tx, nIn, true, 0)
  {
    var env := EnvFor(crypto, tx, nIn, 0);
    EnvHashes(crypto, tx, nIn);
    hide EnvFor, I.Eval;
    ScriptHashSatisfied(env, s, values, sub);
    TrueIsTrue();
    assert I.Top(values + [sub], 1) == sub && I.Pop(values + [sub], 1) == values;
    assert I.Top(values + [I.VCH_TRUE], 1) == I.VCH_TRUE;
  }

  lemma TrueIsTrue()
    ensures I.IsTrue(I.VCH_TRUE)
  {
    assert I.VCH_TRUE[0] == 1;
  }

  lemma NotScriptHash(s: Script)
    ensures IsPayToScriptHash(s) <==> Solve(s).0 == ScriptHash
  {
  }

  lemma ScriptHashSatisfied(env: I.Env, s: Script, values: seq<Value>, sub: Script)
    requires IsPayToScriptHash(s) && env.hash160(sub) == s[2..22]
    requires I.Bounded(values) && |values| <= 17 && |sub| <= I.MAX_ELEMENT_SIZE
    ensures var scriptSig := Pushes(values + [sub]);
      && I.Eval(env, [], scriptSig) == Some(values + [sub])
      && I.Eval(env, values + [sub], s) == Some(values + [I.VCH_TRUE])
      && PushOnly(scriptSig)
  {
    var all := values + [sub];
    PushesLength(all);
    EvalPushes(env, all);
    EvalScriptHash(env, s, values, sub);
    PushesArePushOnly(all, []);
    assert Pushes(all) + [] == Pushes(all);
  }
}
