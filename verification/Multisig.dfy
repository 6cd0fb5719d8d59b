/** The matching loop of OP_CHECKMULTISIG (src/script.cpp). */
module Multisig {
  import opened Bytes

  type Value = seq<Byte>

  /** Signature i goes with key f[i]: in order, no key twice, every pair valid. */
  ghost predicate IsAssignment(f: seq<nat>, valid: (Value, Value) -> bool, sigs: seq<Value>, keys: seq<Value>) {
    && |f| == |sigs|
    && (forall i | 0 <= i < |f| :: f[i] < |keys| && valid(sigs[i], keys[f[i]]))
    && (forall i, j | 0 <= i < j < |f| :: f[i] < f[j])
  }

  ghost predicate Assignable(valid: (Value, Value) -> bool, sigs: seq<Value>, keys: seq<Value>) {
    exists f :: IsAssignment(f, valid, sigs, keys)
  }

  /** Each key is tried against the first signature that is still unmatched, and never again. */
  function Greedy(valid: (Value, Value) -> bool, sigs: seq<Value>, keys: seq<Value>): bool
    decreases |keys|
  {
    if sigs == [] then true
    else if |sigs| > |keys| then false
    else Greedy(valid, if valid(sigs[0], keys[0]) then sigs[1..] else sigs, keys[1..])
  }

  lemma AssignmentFits(f: seq<nat>, valid: (Value, Value) -> bool, sigs: seq<Value>, keys: seq<Value>)
    requires IsAssignment(f, valid, sigs, keys)
    ensures |sigs| <= |keys|
    ensures forall i | 0 <= i < |f| :: f[i] >= i
  {
    IncreasingIsAbove(f);
    if f != [] {
      assert f[|f| - 1] >= |f| - 1;
    }
  }

  lemma {:induction false} IncreasingIsAbove(f: seq<nat>)
    requires forall i, j | 0 <= i < j < |f| :: f[i] < f[j]
    ensures forall i | 0 <= i < |f| :: f[i] >= i
  {
    if |f| > 1 {
      var init := f[..|f| - 1];
      IncreasingIsAbove(init);
      assert forall i | 0 <= i < |init| :: f[i] == init[i];
      assert f[|f| - 2] < f[|f| - 1];
    }
  }

  function Shift(f: seq<nat>, d: int): (r: seq<nat>)
    requires forall i | 0 <= i < |f| :: f[i] + d >= 0
    ensures |r| == |f| && forall i | 0 <= i < |f| :: r[i] == f[i] + d
  {
    if f == [] then [] else [f[0] + d] + Shift(f[1..], d)
  }

  lemma DropUsedKey(f: seq<nat>, valid: (Value, Value) -> bool, sigs: seq<Value>, keys: seq<Value>)
    requires sigs != [] && keys != [] && IsAssignment(f, valid, sigs, keys)
    ensures Assignable(valid, sigs[1..], keys[1..])
  {
    AssignmentFits(f, valid, sigs, keys);
    var g := Shift(f[1..], -1);
    forall i | 0 <= i < |g| ensures g[i] < |keys[1..]| && valid(sigs[1..][i], keys[1..][g[i]]) {
      assert g[i] == f[i + 1] - 1;
    }
    assert IsAssignment(g, valid, sigs[1..], keys[1..]);
  }

  lemma DropUselessKey(f: seq<nat>, valid: (Value, Value) -> bool, sigs: seq<Value>, keys: seq<Value>)
    requires sigs != [] && keys != [] && IsAssignment(f, valid, sigs, keys) && !valid(sigs[0], keys[0])
    ensures Assignable(valid, sigs, keys[1..])
  {
    assert f[0] != 0;
    assert forall i | 0 <= i < |f| :: f[i] >= 1;
    var g := Shift(f, -1);
    forall i | 0 <= i < |g| ensures g[i] < |keys[1..]| && valid(sigs[i], keys[1..][g[i]]) {
      assert g[i] == f[i] - 1;
    }
    assert IsAssignment(g, valid, sigs, keys[1..]);
  }

  /** If the first key goes with the first signature, some assignment for the rest remains; else the key is useless. */
  lemma DropFirstKey(f: seq<nat>, valid: (Value, Value) -> bool, sigs: seq<Value>, keys: seq<Value>)
    requires sigs != [] && keys != [] && IsAssignment(f, valid, sigs, keys)
    ensures Assignable(valid, if valid(sigs[0], keys[0]) then sigs[1..] else sigs, keys[1..])
  {
    hide IsAssignment, Assignable;
    if valid(sigs[0], keys[0]) {
      DropUsedKey(f, valid, sigs, keys);
    } else {
      DropUselessKey(f, valid, sigs, keys);
    }
  }

  lemma SkipFirstKey(g: seq<nat>, valid: (Value, Value) -> bool, sigs: seq<Value>, key: Value, keys: seq<Value>)
    requires IsAssignment(g, valid, sigs, keys)
    ensures IsAssignment(Shift(g, 1), valid, sigs, [key] + keys)
  {
  }

  lemma UseFirstKey(g: seq<nat>, valid: (Value, Value) -> bool, sig: Value, sigs: seq<Value>, key: Value, keys: seq<Value>)
    requires IsAssignment(g, valid, sigs, keys) && valid(sig, key)
    ensures IsAssignment([0] + Shift(g, 1), valid, [sig] + sigs, [key] + keys)
  {
    SkipFirstKey(g, valid, sigs, key, keys);
  }

  lemma AddFirstKey(g: seq<nat>, valid: (Value, Value) -> bool, sigs: seq<Value>, keys: seq<Value>)
    requires sigs != [] && keys != []
    requires IsAssignment(g, valid, if valid(sigs[0], keys[0]) then sigs[1..] else sigs, keys[1..])
    ensures Assignable(valid, sigs, keys)
  {
    hide IsAssignment;
    assert keys == [keys[0]] + keys[1..] && sigs == [sigs[0]] + sigs[1..];
    if valid(sigs[0], keys[0]) {
      UseFirstKey(g, valid, sigs[0], sigs[1..], keys[0], keys[1..]);
    } else {
      SkipFirstKey(g, valid, sigs, keys[0], keys[1..]);
    }
  }

  /** The greedy order decides exactly whether an order-preserving assignment exists. */
  lemma {:induction false} GreedyIsComplete(valid: (Value, Value) -> bool, sigs: seq<Value>, keys: seq<Value>)
    ensures Greedy(valid, sigs, keys) <==> Assignable(valid, sigs, keys)
    decreases |keys|
  {
    if sigs == [] {
      assert IsAssignment([], valid, sigs, keys);
    } else if |sigs| > |keys| {
      if Assignable(valid, sigs, keys) {
        var f :| IsAssignment(f, valid, sigs, keys);
        AssignmentFits(f, valid, sigs, keys);
      }
    } else {
      var sigs' := if valid(sigs[0], keys[0]) then sigs[1..] else sigs;
      GreedyIsComplete(valid, sigs', keys[1..]);
      if Assignable(valid, sigs, keys) {
        var f :| IsAssignment(f, valid, sigs, keys);
        DropFirstKey(f, valid, sigs, keys);
      }
      if Assignable(valid, sigs', keys[1..]) {
        var g :| IsAssignment(g, valid, sigs', keys[1..]);
        AddFirstKey(g, valid, sigs, keys);
      }
    }
  }

  /** The loop with its four counters, as the source writes it: isig and ikey advance, the counts go down. */
  method MatchSignatures(valid: (Value, Value) -> bool, sigs: seq<Value>, keys: seq<Value>) returns (fSuccess: bool)
    requires |sigs| <= |keys|
    ensures fSuccess <==> Assignable(valid, sigs, keys)
  {
    GreedyIsComplete(valid, sigs, keys);
    var isig, ikey, nSigsCount, nKeysCount := 0, 0, |sigs|, |keys|;
    fSuccess := true;
    while fSuccess && nSigsCount > 0
      invariant isig + nSigsCount == |sigs| && ikey + nKeysCount == |keys|
      invariant 0 <= nSigsCount && 0 <= nKeysCount
      invariant fSuccess <==> nSigsCount <= nKeysCount
      invariant Greedy(valid, sigs, keys) <==> Greedy(valid, sigs[isig..], keys[ikey..])
      decreases nKeysCount
    {
      assert sigs[isig..][1..] == sigs[isig + 1..] && keys[ikey..][1..] == keys[ikey + 1..];
      if valid(sigs[isig], keys[ikey]) {
        isig, nSigsCount := isig + 1, nSigsCount - 1;
      }
      ikey, nKeysCount := ikey + 1, nKeysCount - 1;
      if nSigsCount > nKeysCount {
        fSuccess := false;
      }
    }
  }
}
