/** Merging two partly signed multisig inputs (src/script.cpp, CombineMultisig). */
module Combine {
  import opened Sequences
  import opened Wrappers
  import opened Bytes
  import opened Transactions
  import opened ScriptCode
  import opened Multisig
  import opened Standard
  import opened Signatures
  import opened PushScripts
  import I = Interpreter

  type Validity = (Value, Value) -> bool

  /** Whether CheckSig accepts a signature for a key, for this input. */
  function ValidFor(crypto: Crypto, code: Script, tx: Tx, nIn: nat): Validity {
    I.CheckWith(EnvFor(crypto, tx, nIn, 0), code)
  }

  ghost predicate HasSignature(valid: Validity, all: set<Value>, key: Value) {
    exists sig :: sig in all && valid(sig, key)
  }

  /** How many key positions have a valid signature in the set. */
  ghost function Covered(valid: Validity, all: set<Value>, keys: seq<Value>): nat {
    if keys == [] then 0 else (if HasSignature(valid, all, keys[0]) then 1 else 0) + Covered(valid, all, keys[1..])
  }

  /** No signature is good for two different keys. */
  ghost predicate OneKeyEach(valid: Validity, all: set<Value>, keys: seq<Value>) {
    forall sig, a, b :: sig in all && a in keys && b in keys && valid(sig, a) && valid(sig, b) ==> a == b
  }

  /** Every entry is a valid signature from the set. */
  ghost predicate Matched(valid: Validity, all: set<Value>, sigs: map<Value, Value>) {
    forall key :: key in sigs ==> sigs[key] in all && valid(sigs[key], key)
  }

  /** The signatures of the first keys that have one, at most required of them. */
  function Slots(sigs: map<Value, Value>, keys: seq<Value>, required: nat): (r: seq<Value>)
    ensures |r| <= required
    decreases |keys|
  {
    if keys == [] || required == 0 then []
    else if keys[0] in sigs then [sigs[keys[0]]] + Slots(sigs, keys[1..], required - 1)
    else Slots(sigs, keys[1..], required)
  }

  function Blanks(n: nat): (r: seq<Value>)
    ensures |r| == n && forall i | 0 <= i < n :: r[i] == []
  {
    if n == 0 then [] else Blanks(n - 1) + [[]]
  }

  lemma {:induction false} SlotsInOrder(valid: Validity, all: set<Value>, sigs: map<Value, Value>, keys: seq<Value>, required: nat)
    requires Matched(valid, all, sigs)
    ensures Assignable(valid, Slots(sigs, keys, required), keys)
    ensures forall i | 0 <= i < |Slots(sigs, keys, required)| :: Slots(sigs, keys, required)[i] in all
    decreases |keys|
  {
    if keys == [] || required == 0 {
      assert IsAssignment([], valid, [], keys);
    } else {
      var found := keys[0] in sigs;
      SlotsInOrder(valid, all, sigs, keys[1..], if found then required - 1 else required);
      var rest := Slots(sigs, keys[1..], if found then required - 1 else required);
      var g :| IsAssignment(g, valid, rest, keys[1..]);
      assert keys == [keys[0]] + keys[1..];
      hide IsAssignment;
      if found {
        UseFirstKey(g, valid, sigs[keys[0]], rest, keys[0], keys[1..]);
      } else {
        SkipFirstKey(g, valid, rest, keys[0], keys[1..]);
      }
    }
  }

  /** If the map holds every key that has a signature, the slots found are as many as can be. */
  lemma {:induction false} SlotsFound(valid: Validity, all: set<Value>, sigs: map<Value, Value>, keys: seq<Value>, required: nat)
    requires forall i | 0 <= i < |keys| :: keys[i] in sigs ==> HasSignature(valid, all, keys[i])
    ensures |Slots(sigs, keys, required)| <= Covered(valid, all, keys)
    ensures (forall i | 0 <= i < |keys| :: HasSignature(valid, all, keys[i]) ==> keys[i] in sigs) ==>
      |Slots(sigs, keys, required)| == Min(required, Covered(valid, all, keys))
    decreases |keys|
  {
    if keys != [] && required > 0 {
      SlotsFound(valid, all, sigs, keys[1..], if keys[0] in sigs then required - 1 else required);
      assert forall i | 0 <= i < |keys| - 1 :: keys[1..][i] == keys[i + 1];
    }
  }

  // The source's loops

  method InsertNonEmpty(s: set<Value>, sigs: seq<Value>) returns (r: set<Value>)
    ensures r == s + set sig | sig in sigs && sig != []
  {
    r := s;
    for i := 0 to |sigs|
      invariant r == s + set sig | sig in sigs[..i] && sig != []
    {
      assert sigs[..i + 1] == sigs[..i] + [sigs[i]];
      if sigs[i] != [] {
        r := r + {sigs[i]};
      }
    }
    assert sigs[..|sigs|] == sigs;
  }

  /** Files sig under the first key that has none yet and for which it is valid. */
  method FileSignature(crypto: Crypto, code: Script, tx: Tx, nIn: nat, sig: Value, keys: seq<Value>, sigs: map<Value, Value>)
    returns (r: map<Value, Value>)
    ensures var valid := ValidFor(crypto, code, tx, nIn);
      (r == sigs && forall i | 0 <= i < |keys| :: keys[i] in sigs || !valid(sig, keys[i]))
      || exists i | 0 <= i < |keys| :: keys[i] !in sigs && valid(sig, keys[i]) && r == sigs[keys[i] := sig]
                                       && forall j | 0 <= j < i :: keys[j] in sigs || !valid(sig, keys[j])
  {
    ghost var valid := ValidFor(crypto, code, tx, nIn);
    for i := 0 to |keys|
      invariant forall j | 0 <= j < i :: keys[j] in sigs || !valid(sig, keys[j])
    {
      if keys[i] in sigs {
        continue;
      }
      var ok := CheckSig(crypto, sig, keys[i], code, tx, nIn, 0);
      if ok {
        return sigs[keys[i] := sig];
      }
    }
    r := sigs;
  }

  /** done is the part of all that has been filed. */
  ghost predicate Filed(valid: Validity, all: set<Value>, done: set<Value>, keys: seq<Value>, sigs: map<Value, Value>) {
    && Matched(valid, all, sigs)
    && (OneKeyEach(valid, all, keys) ==> forall i | 0 <= i < |keys| :: HasSignature(valid, done, keys[i]) ==> keys[i] in sigs)
  }

  lemma FileOne(valid: Validity, all: set<Value>, done: set<Value>, sig: Value, keys: seq<Value>,
                sigs: map<Value, Value>, r: map<Value, Value>)
    requires Filed(valid, all, done, keys, sigs) && done <= all && sig in all
    requires
      || (r == sigs && forall i | 0 <= i < |keys| :: keys[i] in sigs || !valid(sig, keys[i]))
      || exists i | 0 <= i < |keys| :: keys[i] !in sigs && valid(sig, keys[i]) && r == sigs[keys[i] := sig]
    ensures Filed(valid, all, done + {sig}, keys, r)
  {
    if OneKeyEach(valid, all, keys) {
      forall i | 0 <= i < |keys| && HasSignature(valid, done + {sig}, keys[i]) ensures keys[i] in r {
        var s :| s in done + {sig} && valid(s, keys[i]);
        if s != sig {
          assert HasSignature(valid, done, keys[i]);
        }
      }
    }
  }

  /** Matches every signature to a key, in whatever order the set is walked. */
  method FileAll(crypto: Crypto, code: Script, tx: Tx, nIn: nat, all: set<Value>, keys: seq<Value>)
    returns (sigs: map<Value, Value>)
    ensures Filed(ValidFor(crypto, code, tx, nIn), all, all, keys, sigs)
  {
    hide Filed;
    ghost var valid := ValidFor(crypto, code, tx, nIn);
    sigs := map[];
    var rest := all;
    NothingFiled(valid, all, keys);
    assert all - rest == {};
    while rest != {}
      invariant rest <= all && Filed(valid, all, all - rest, keys, sigs)
      decreases |rest|
    {
      var sig :| sig in rest;
      var r := FileSignature(crypto, code, tx, nIn, sig, keys, sigs);
      FileOne(valid, all, all - rest, sig, keys, sigs, r);
      assert all - (rest - {sig}) == all - rest + {sig};
      sigs, rest := r, rest - {sig};
    }
    assert all - rest == all;
  }

  lemma NothingFiled(valid: Validity, all: set<Value>, keys: seq<Value>)
    ensures Filed(valid, all, {}, keys, map[])
  {
  }

  /** The signatures found, in key order. */
  method PlaceFound(sigs: map<Value, Value>, keys: seq<Value>, nSigsRequired: nat, ghost below: seq<Value>, script: Script)
    returns (result: Script, nSigsHave: nat)
    requires script == Pushes(below)
    ensures var have := Slots(sigs, keys, nSigsRequired);
      result == Pushes(below + have) && nSigsHave == |have|
  {
    hide Pushes, PushBytes;
    ghost var have := Slots(sigs, keys, nSigsRequired);
    ghost var placed: seq<Value> := [];
    var i := 0;
    result, nSigsHave := script, 0;
    assert keys[0..] == keys && placed + have == have && below + placed == below;
    while i < |keys| && nSigsHave < nSigsRequired
      invariant i <= |keys| && nSigsHave == |placed| <= nSigsRequired
      invariant have == placed + Slots(sigs, keys[i..], nSigsRequired - nSigsHave)
      invariant result == Pushes(below + placed)
    {
      assert keys[i..][1..] == keys[i + 1..];
      if keys[i] in sigs {
        result := AppendPush(result, sigs[keys[i]]);
        OneMorePush(below, placed, sigs[keys[i]]);
        Concat3(placed, [sigs[keys[i]]], Slots(sigs, keys[i + 1..], nSigsRequired - nSigsHave - 1));
        placed := placed + [sigs[keys[i]]];
        nSigsHave := nSigsHave + 1;
      }
      i := i + 1;
    }
    assert placed + [] == placed;
  }

  /** Empty slots up to the number required. */
  method Pad(ghost below: seq<Value>, script: Script, nSigsHave: nat, nSigsRequired: nat) returns (result: Script)
    requires script == Pushes(below) && nSigsHave <= nSigsRequired
    ensures result == Pushes(below + Blanks(nSigsRequired - nSigsHave))
  {
    hide Pushes;
    result := script;
    assert below + [] == below && PushBytes([]) == [OP_0];
    for k := nSigsHave to nSigsRequired
      invariant result == Pushes(below + Blanks(k - nSigsHave))
    {
      OneMorePush(below, Blanks(k - nSigsHave), []);
      result := result + [OP_0];
    }
  }

  lemma OneMorePush(below: seq<Value>, vs: seq<Value>, v: Value)
    ensures Pushes(below + (vs + [v])) == Pushes(below + vs) + PushBytes(v)
  {
    Concat3(below, vs, [v]);
    assert (below + vs + [v])[..|below + vs|] == below + vs;
  }

  // The whole operation

  /** The non-empty signatures of both inputs. */
  ghost function Union(sigs1: seq<Value>, sigs2: seq<Value>): set<Value> {
    set sig | sig in sigs1 + sigs2 && sig != []
  }

  /**
   * The result is a dummy and exactly m slots: first `have` signatures from the union, in key order and each valid for
   * its key, then blanks. have is bounded by the number of keys that could be served, and reaches it, or m, when no
   * signature serves two keys.
   */
  method CombineMultisig(crypto: Crypto, scriptPubKey: Script, txTo: Tx, nIn: nat, vSolutions: seq<Value>,
                         sigs1: seq<Value>, sigs2: seq<Value>) returns (result: Script)
    requires |vSolutions| >= 2 && |vSolutions[0]| >= 1
    ensures exists slots ::
      && IsCombination(ValidFor(crypto, scriptPubKey, txTo, nIn), Union(sigs1, sigs2), vSolutions[0][0],
                       vSolutions[1..|vSolutions| - 1], slots)
      && result == Pushes([[]] + slots)
  {
    hide IsCombination, Filed, Slots, ValidFor, PushBytes;
    ghost var valid := ValidFor(crypto, scriptPubKey, txTo, nIn);
    var keys := vSolutions[1..|vSolutions| - 1];
    var nSigsRequired: nat := vSolutions[0][0];
    var allsigs := InsertNonEmpty({}, sigs1);
    allsigs := InsertNonEmpty(allsigs, sigs2);
    assert allsigs == Union(sigs1, sigs2);
    var sigs := FileAll(crypto, scriptPubKey, txTo, nIn, allsigs, keys);
    ghost var have := Slots(sigs, keys, nSigsRequired);
    result := [OP_0];
    DummyPush();
    hide Pushes;
    var nSigsHave;
    result, nSigsHave := PlaceFound(sigs, keys, nSigsRequired, [[]], result);
    result := Pad([[]] + have, result, nSigsHave, nSigsRequired);
    ghost var slots := have + Blanks(nSigsRequired - nSigsHave);
    Concat3([[]], have, Blanks(nSigsRequired - nSigsHave));
    SlotsCombine(valid, allsigs, nSigsRequired, keys, sigs);
  }

  lemma DummyPush()
    ensures Pushes([[]]) == [OP_0]
  {
    assert Pushes([[]]) == [] + PushBytes([]);
  }

  /** The slots in front of the first blank. */
  function Have(slots: seq<Value>): (r: nat)
    ensures r <= |slots|
  {
    if slots == [] || slots[0] == [] then 0 else 1 + Have(slots[1..])
  }

  ghost predicate IsCombination(valid: Validity, all: set<Value>, m: nat, keys: seq<Value>, slots: seq<Value>) {
    var have := Have(slots);
    && |slots| == m
    && (forall i | have <= i < m :: slots[i] == [])
    && (forall i | 0 <= i < have :: slots[i] in all)
    && Assignable(valid, slots[..have], keys)
    && have <= Min(m, Covered(valid, all, keys))
    && (OneKeyEach(valid, all, keys) ==> have == Min(m, Covered(valid, all, keys)))
  }

  lemma {:induction false} HaveIs(have: seq<Value>, n: nat)
    requires forall i | 0 <= i < |have| :: have[i] != []
    ensures Have(have + Blanks(n)) == |have|
  {
    if have == [] {
      assert have + Blanks(n) == Blanks(n);
    } else {
      HaveIs(have[1..], n);
      assert (have + Blanks(n))[1..] == have[1..] + Blanks(n);
    }
  }

  lemma SlotsCombine(valid: Validity, all: set<Value>, m: nat, keys: seq<Value>, sigs: map<Value, Value>)
    requires Filed(valid, all, all, keys, sigs) && [] !in all
    ensures var have := Slots(sigs, keys, m); IsCombination(valid, all, m, keys, have + Blanks(m - |have|))
  {
    var have := Slots(sigs, keys, m);
    SlotsInOrder(valid, all, sigs, keys, m);
    HaveIs(have, m - |have|);
    assert (have + Blanks(m - |have|))[..|have|] == have;
    forall i | 0 <= i < |keys| && keys[i] in sigs ensures HasSignature(valid, all, keys[i]) {
    }
    SlotsFound(valid, all, sigs, keys, m);
  }

  lemma BlankUnassignable(valid: Validity, sigs: seq<Value>, keys: seq<Value>, k: nat)
    requires k < |sigs| && sigs[k] == [] && forall key :: !valid([], key)
    ensures !Assignable(valid, sigs, keys)
  {
    forall f ensures !IsAssignment(f, valid, sigs, keys) {
      if |f| == |sigs| && f[k] < |keys| {
        assert !valid(sigs[k], keys[f[k]]);
      }
    }
  }

  /** The matching of OP_CHECKMULTISIG succeeds on a combination exactly if no slot is blank. */
  lemma CombinationPasses(valid: Validity, all: set<Value>, m: nat, keys: seq<Value>, slots: seq<Value>)
    requires IsCombination(valid, all, m, keys, slots) && (forall key :: !valid([], key))
    ensures Assignable(valid, slots, keys) <==> Have(slots) == m
    ensures OneKeyEach(valid, all, keys) ==> (Assignable(valid, slots, keys) <==> Covered(valid, all, keys) >= m)
  {
    if Have(slots) == m {
      assert slots[..m] == slots;
    } else {
      BlankUnassignable(valid, slots, keys, Have(slots));
    }
  }

  /** Evaluated against the output, a combination is accepted exactly if no slot is blank. */
  lemma CombinedScriptAccepted(crypto: Crypto, s: Script, tx: Tx, nIn: nat, m: nat, keys: seq<Value>,
                               all: set<Value>, slots: seq<Value>)
    requires IsMultisigScript(s, m, keys) && IsCombination(ValidFor(crypto, s, tx, nIn), all, m, keys, slots)
    requires forall i | 0 <= i < |slots| :: |slots[i]| < 0x1_0000_0000 && slots[i] !in keys
    ensures I.Eval(EnvFor(crypto, tx, nIn, 0), [[]] + slots, s) == Some([I.BoolVch(Have(slots) == m)])
  {
    var env, valid := EnvFor(crypto, tx, nIn, 0), ValidFor(crypto, s, tx, nIn);
    forall key ensures !valid([], key) {
    }
    CombinationPasses(valid, all, m, keys, slots);
    forall i | 0 <= i < |slots| ensures NotPushed(slots[i], s) {
      MultisigPushesKeys(slots[i], s, m, keys);
    }
    hide I.Eval, IsCombination, EnvFor, NotPushed;
    DropAllNothing(s, Reversed(slots));
    EvalMultisig(env, s, m, keys, slots);
  }
}
