/** Building the standard outputs and reading their addresses back (src/script.cpp, SetDestination, SetMultisig). */
module Destinations {
  import opened Sequences
  import opened Wrappers
  import opened Bytes
  import opened ScriptCode
  import opened Multisig
  import opened Standard
  import I = Interpreter

  datatype Destination = NoDestination | KeyId(id: Bytes20) | ScriptId(id: Bytes20)

  function ScriptFor(d: Destination): Script {
    match d
    case NoDestination => []
    case KeyId(id) => [I.OP_DUP, OP_HASH160] + PushBytes(id) + [I.OP_EQUALVERIFY, I.OP_CHECKSIG]
    case ScriptId(id) => [OP_HASH160] + PushBytes(id) + [OP_EQUAL]
  }

  method SetDestination(dest: Destination) returns (ok: bool, script: Script)
    ensures ok <==> dest != NoDestination
    ensures script == ScriptFor(dest)
  {
    script := [];
    match dest {
      case NoDestination =>
        ok := false;
      case KeyId(id) =>
        script := script + [I.OP_DUP] + [OP_HASH160];
        script := script + ([20] + id);
        script := script + [I.OP_EQUALVERIFY] + [I.OP_CHECKSIG];
        ok := true;
      case ScriptId(id) =>
        script := script + [OP_HASH160];
        script := script + ([20] + id);
        script := script + [OP_EQUAL];
        ok := true;
    }
  }

  function ExtractedDestination(hash160: Value -> Bytes20, s: Script): Option<Destination> {
    var (whichType, v) := Solve(s);
    match whichType
    case PubKey =>
      PubKeyMatches(s);
      Some(KeyId(hash160(v[0])))
    case PubKeyHash =>
      PubKeyHashMatches(s);
      Some(KeyId(v[0]))
    case ScriptHash => Some(ScriptId(v[0]))
    case _ => None
  }

  method ExtractDestination(hash160: Value -> Bytes20, scriptPubKey: Script) returns (r: Option<Destination>)
    ensures r == ExtractedDestination(hash160, scriptPubKey)
  {
    var ok, whichType, vSolutions := Solver(scriptPubKey);
    if !ok {
      return None;
    }
    PubKeyMatches(scriptPubKey);
    PubKeyHashMatches(scriptPubKey);
    hide MatchTemplate;
    match whichType {
      case PubKey =>
        r := Some(KeyId(hash160(vSolutions[0])));
      case PubKeyHash =>
        r := Some(KeyId(vSolutions[0]));
      case ScriptHash =>
        r := Some(ScriptId(vSolutions[0]));
      case _ =>
        r := None;
    }
  }

  /** The address a script was built for is the one read from it. */
  lemma DestinationRoundTrip(hash160: Value -> Bytes20, d: Destination)
    ensures ExtractedDestination(hash160, ScriptFor(d)) == if d == NoDestination then None else Some(d)
  {
    var s := ScriptFor(d);
    match d {
      case NoDestination =>
        NothingSolved();
      case KeyId(id) =>
        KeyScript(id);
        PubKeyHashSolved(s, id);
        hide Solve;
      case ScriptId(id) =>
        assert s[2..22] == id;
    }
  }

  /**
   * A script has an address exactly if it has one of the three single-address forms: the hash of the key it names or asks
   * for, or that of the script.
   */
  lemma DestinationExactlyWhen(hash160: Value -> Bytes20, s: Script, d: Destination)
    ensures ExtractedDestination(hash160, s) == Some(d) <==>
      match d
      case NoDestination => false
      case KeyId(id) => IsPubKeyHashScript(s, id) || exists key :: IsPubKeyScript(s, key) && hash160(key) == id
      case ScriptId(id) => IsPayToScriptHash(s) && s[2..22] == id
  {
    PubKeyMatches(s);
    PubKeyHashMatches(s);
    hide MatchTemplate, ParseOp;
    match d {
      case NoDestination =>
      case KeyId(id) =>
        PubKeyHashSolved(s, id);
        forall key ensures Solve(s) == (PubKey, [key]) <==> IsPubKeyScript(s, key) {
          PubKeySolved(s, key);
        }
      case ScriptId(id) =>
    }
  }

  lemma KeyScript(id: Bytes20)
    ensures IsPubKeyHashScript(ScriptFor(KeyId(id)), id)
  {
    var s := ScriptFor(KeyId(id));
    var tail: Script := [I.OP_EQUALVERIFY, I.OP_CHECKSIG];
    assert s[2..] == PushBytes(id) + tail;
    ParsePush(id, tail);
    assert s[2..][|PushBytes(id)|..] == tail;
  }

  lemma NothingSolved()
    ensures Solve([]).0 == NonStandard
  {
    PubKeyMatches([]);
    PubKeyHashMatches([]);
    var keys, tail := MultisigMatches([]);
    NothingToParse();
    hide MatchTemplate;
  }

  function KeyPushes(keys: seq<Value>): Script {
    if keys == [] then [] else PushBytes(keys[0]) + KeyPushes(keys[1..])
  }

  function MultisigScript(nRequired: nat, keys: seq<Value>): Script
    requires nRequired <= 16 && |keys| <= 16
  {
    [EncodeOP_N(nRequired)] + (KeyPushes(keys) + [EncodeOP_N(|keys|), I.OP_CHECKMULTISIG])
  }

  lemma {:induction false} KeyPushesSnoc(keys: seq<Value>, key: Value)
    ensures KeyPushes(keys + [key]) == KeyPushes(keys) + PushBytes(key)
  {
    hide PushBytes;
    if keys == [] {
      assert ([key])[1..] == [] && PushBytes(key) + [] == [] + PushBytes(key);
    } else {
      assert (keys + [key])[1..] == keys[1..] + [key];
      KeyPushesSnoc(keys[1..], key);
      Concat3(PushBytes(keys[0]), KeyPushes(keys[1..]), PushBytes(key));
    }
  }

  /** EncodeOP_N asserts that both numbers are at most 16. */
  method SetMultisig(nRequired: nat, keys: seq<Value>) returns (script: Script)
    requires nRequired <= 16 && |keys| <= 16
    ensures script == MultisigScript(nRequired, keys)
  {
    script := [EncodeOP_N(nRequired)];
    assert keys[..0] == [] && script + KeyPushes([]) == script;
    for i := 0 to |keys|
      invariant script == [EncodeOP_N(nRequired)] + KeyPushes(keys[..i])
    {
      assert keys[..i + 1] == keys[..i] + [keys[i]];
      KeyPushesSnoc(keys[..i], keys[i]);
      Concat3([EncodeOP_N(nRequired)], KeyPushes(keys[..i]), PushBytes(keys[i]));
      script := AppendPush(script, keys[i]);
    }
    assert keys[..|keys|] == keys;
    script := script + [EncodeOP_N(|keys|)] + [I.OP_CHECKMULTISIG];
  }

  predicate AllKeySized(keys: seq<Value>) {
    forall i | 0 <= i < |keys| :: KeySized(keys[i])
  }

  lemma {:induction false} PushedKeys(keys: seq<Value>, rest: Script)
    requires AllKeySized(keys)
    ensures PushesKeys(KeyPushes(keys) + rest, keys, rest)
  {
    hide ParseOp;
    var s := KeyPushes(keys) + rest;
    if keys == [] {
      assert s == rest;
    } else {
      assert KeySized(keys[0]) && AllKeySized(keys[1..]);
      var rest' := KeyPushes(keys[1..]) + rest;
      Concat3(PushBytes(keys[0]), KeyPushes(keys[1..]), rest);
      ParsePush(keys[0], rest');
      assert (PushBytes(keys[0]) + rest')[|PushBytes(keys[0])|..] == rest';
      PushedKeys(keys[1..], rest);
    }
  }

  lemma {:induction false} SizedIfPushed(s: Script, keys: seq<Value>, rest: Script)
    requires PushesKeys(s, keys, rest)
    ensures AllKeySized(keys)
    decreases |keys|
  {
    hide ParseOp;
    if keys != [] {
      SizedIfPushed(s[ParseOp(s).value.len..], keys[1..], rest);
      assert forall i | 0 < i < |keys| :: keys[i] == keys[1..][i - 1];
    }
  }

  /** A multisig output is recognised, with its numbers and keys, exactly if it asks for 1 to n of n real keys. */
  lemma MultisigRecognised(m: nat, keys: seq<Value>)
    requires m <= 16 && |keys| <= 16
    ensures Solve(MultisigScript(m, keys)) == (MultiSig, [[m]] + (keys + [[|keys|]]))
            <==> 1 <= m <= |keys| && AllKeySized(keys)
  {
    var s, tail := MultisigScript(m, keys), [EncodeOP_N(|keys|), I.OP_CHECKMULTISIG];
    assert s[1..] == KeyPushes(keys) + tail;
    MultisigSolved(s, m, keys);
    hide Solve;
    if AllKeySized(keys) {
      PushedKeys(keys, tail);
    }
    if IsMultisigScript(s, m, keys) {
      SizedIfPushed(s[1..], keys, tail);
    }
  }
}
