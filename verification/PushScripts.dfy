/** Running scripts that only push, and the standard forms. */
module PushScripts {
  import opened Sequences
  import opened Wrappers
  import opened Bytes
  import opened Bignum
  import opened ScriptCode
  import opened Multisig
  import opened Interpreter
  import opened Standard

  predicate HasRoom(st: State, n: nat) {
    Running(st.exec) && |st.stack| + |st.alt| + n <= MAX_STACK
  }

  /** Any encoding of a push. */
  lemma RunDataPush(env: Env, s: Script, st: State)
    requires ParseOp(s).Some? && ParseOp(s).value.op <= OP_PUSHDATA4
    requires |ParseOp(s).value.data| <= MAX_ELEMENT_SIZE && HasRoom(st, 1)
    ensures Run(env, s, st) == Run(env, s[ParseOp(s).value.len..], st.(stack := st.stack + [ParseOp(s).value.data]))
  {
    hide Execute, ParseOp;
    var i := ParseOp(s).value;
    assert st.(opCount := CountOp(i.op, st.opCount)) == st;
  }

  lemma RunPush(env: Env, v: Value, rest: Script, st: State)
    requires |v| <= MAX_ELEMENT_SIZE && HasRoom(st, 1)
    ensures Run(env, PushBytes(v) + rest, st) == Run(env, rest, st.(stack := st.stack + [v]))
  {
    hide ParseOp, Execute, Step;
    ParsePush(v, rest);
    RunDataPush(env, PushBytes(v) + rest, st);
    assert (PushBytes(v) + rest)[|PushBytes(v)|..] == rest;
  }

  lemma {:induction false} RunPushes(env: Env, vs: seq<Value>, rest: Script, st: State)
    requires Bounded(vs) && HasRoom(st, |vs|)
    ensures Run(env, Pushes(vs) + rest, st) == Run(env, rest, st.(stack := st.stack + vs))
  {
    if vs == [] {
      assert Pushes(vs) + rest == rest && st.stack + vs == st.stack;
    } else {
      var init, last := vs[..|vs| - 1], vs[|vs| - 1];
      assert Bounded(init) && init + [last] == vs;
      Concat3(Pushes(init), PushBytes(last), rest);
      RunPushes(env, init, PushBytes(last) + rest, st);
      RunPush(env, last, rest, st.(stack := st.stack + init));
      assert st.stack + init + [last] == st.stack + vs;
    }
  }

  /** Evaluating PushAll(values) on an empty stack leaves exactly those values. */
  lemma EvalPushes(env: Env, vs: seq<Value>)
    requires Bounded(vs) && |vs| <= MAX_STACK && |Pushes(vs)| <= MAX_SCRIPT_SIZE
    ensures Eval(env, [], Pushes(vs)) == Some(vs)
  {
    var st := State([], [], [], 0, Pushes(vs));
    RunPushes(env, vs, [], st);
    assert Pushes(vs) + [] == Pushes(vs) && [] + vs == vs;
  }

  lemma {:induction false} PushesLength(vs: seq<Value>)
    requires Bounded(vs)
    ensures |Pushes(vs)| <= 523 * |vs|
  {
    if vs != [] {
      assert Bounded(vs[..|vs| - 1]);
      PushesLength(vs[..|vs| - 1]);
      assert |vs[|vs| - 1]| <= 520;
    }
  }

  lemma {:induction false} PushesArePushOnly(vs: seq<Value>, rest: Script)
    requires Bounded(vs) && PushOnly(rest)
    ensures PushOnly(Pushes(vs) + rest)
  {
    hide ParseOp;
    if vs == [] {
      assert Pushes(vs) + rest == rest;
    } else {
      var init, last := vs[..|vs| - 1], vs[|vs| - 1];
      assert Bounded(init) && |last| <= 520;
      ParsePush(last, rest);
      assert (PushBytes(last) + rest)[|PushBytes(last)|..] == rest;
      PushesArePushOnly(init, PushBytes(last) + rest);
      Concat3(Pushes(init), PushBytes(last), rest);
    }
  }

  // Scripts that push something other than the signature are signed whole

  /** No instruction of s pushes v. */
  ghost predicate NotPushed(v: Value, s: Script) {
    forall i | 0 <= i < |Chunks(s)| :: !Pushing(Chunks(s)[i], v)
  }

  predicate Pushing(chunk: Script, v: Value) {
    ParseOp(chunk).Some? && ParseOp(chunk).value.op <= OP_PUSHDATA4 && ParseOp(chunk).value.data == v
  }

  lemma {:induction false} WithoutNone(chunks: seq<Script>, b: Script)
    requires forall i | 0 <= i < |chunks| :: chunks[i] != b
    ensures Without(chunks, b) == chunks
  {
    if chunks != [] {
      WithoutNone(chunks[1..], b);
    }
  }

  lemma DropNothing(s: Script, sig: Value)
    requires |sig| < 0x1_0000_0000 && NotPushed(sig, s)
    ensures Drop(s, sig) == s
  {
    hide ParseOp;
    var b := PushBytes(sig);
    ParsePush(sig, []);
    assert b + [] == b;
    DeletedIsFiltered(s, b);
    forall i | 0 <= i < |Chunks(s)| ensures Chunks(s)[i] != b {
      assert !Pushing(Chunks(s)[i], sig);
    }
    WithoutNone(Chunks(s), b);
    ChunksOfWhole(s);
  }

  lemma {:induction false} DropAllNothing(s: Script, sigs: seq<Value>)
    requires forall i | 0 <= i < |sigs| :: |sigs[i]| < 0x1_0000_0000 && NotPushed(sigs[i], s)
    ensures DropAll(s, sigs) == s
  {
    hide Drop;
    if sigs != [] {
      DropNothing(s, sigs[0]);
      DropAllNothing(s, sigs[1..]);
    }
  }

  // The standard forms

  lemma RunOne(env: Env, op: Byte, rest: Script, st: State)
    requires op > OP_PUSHDATA4
    ensures Run(env, [op] + rest, st) ==
      match Step(env, Instr(op, [], 1), rest, st) case None => None case Some(st') => Run(env, rest, st')
  {
    hide ParseOp, Step;
    ParseSingle(op, rest);
    assert ([op] + rest)[1..] == rest;
  }

  /** An operation on the main stack only, run in a state with no conditionals. */
  lemma RunStackOp(env: Env, op: Byte, rest: Script, st: State)
    requires OP_VERIFY <= op <= OP_NOP10 && !Disabled(op)
    requires op != OP_TOALTSTACK && op != OP_FROMALTSTACK && !(OP_CODESEPARATOR <= op <= OP_CHECKMULTISIGVERIFY)
    requires st.exec == [] && st.alt == [] && st.opCount < MAX_OPS
    requires StackOp(env, op, st.stack).Some? && |StackOp(env, op, st.stack).value| <= MAX_STACK
    ensures Run(env, [op] + rest, st)
            == Run(env, rest, st.(stack := StackOp(env, op, st.stack).value, opCount := st.opCount + 1))
  {
    RunOne(env, op, rest, st);
    hide StackOp;
  }

  lemma RunCheckSigOp(env: Env, rest: Script, st: State, t: seq<Value>)
    requires st.exec == [] && st.alt == [] && st.opCount < MAX_OPS && |t| <= MAX_STACK
    requires CheckSigOp(env, st.stack, st.code) == Some(t)
    ensures Run(env, [OP_CHECKSIG] + rest, st) == Run(env, rest, st.(stack := t, opCount := st.opCount + 1))
  {
    hide ParseOp, StackOp, CheckSigOp, MultisigOp, ControlOp;
    RunOne(env, OP_CHECKSIG, rest, st);
  }

  /** OP_CHECKSIG on a signature and a key that agree. */
  lemma RunCheckSig(env: Env, rest: Script, st: State, below: seq<Value>, sig: Value, key: Value)
    requires st.exec == [] && st.alt == [] && st.opCount < MAX_OPS && st.stack == below + [sig, key]
    requires |below| < MAX_STACK && env.checkSig(sig, key, Drop(st.code, sig))
    ensures Run(env, [OP_CHECKSIG] + rest, st)
            == Run(env, rest, st.(stack := below + [VCH_TRUE], opCount := st.opCount + 1))
  {
    hide Drop, Run;
    assert Top(st.stack, 2) == sig && Top(st.stack, 1) == key && Pop(st.stack, 2) == below;
    RunCheckSigOp(env, rest, st, below + [VCH_TRUE]);
  }

  lemma SmallPushLength(s: Script)
    requires ParseOp(s).Some?
    ensures ParseOp(s).value.len <= |ParseOp(s).value.data| + 5
  {
  }

  lemma EvalPubKey(env: Env, s: Script, key: Value, sig: Value)
    requires IsPubKeyScript(s, key) && env.checkSig(sig, key, Drop(s, sig))
    ensures Eval(env, [sig], s) == Some([VCH_TRUE])
  {
    hide Step, Execute, Drop;
    SmallPushLength(s);
    var st := State([sig], [], [], 0, s);
    RunDataPush(env, s, st);
    assert [sig] + [key] == [] + [sig, key] && [OP_CHECKSIG] == [OP_CHECKSIG] + [];
    RunCheckSig(env, [], st.(stack := [sig] + [key]), [], sig, key);
    assert [] + [VCH_TRUE] == [VCH_TRUE];
  }

  lemma DupOnTop(env: Env, below: seq<Value>, v: Value)
    ensures StackOp(env, OP_DUP, below + [v]) == Some(below + [v] + [v])
  {
  }

  lemma HashOnTop(env: Env, below: seq<Value>, v: Value)
    ensures StackOp(env, OP_HASH160, below + [v]) == Some(below + [env.hash160(v)])
  {
    assert Pop(below + [v], 1) == below;
  }

  lemma EvalPubKeyHash(env: Env, s: Script, id: Value, sig: Value, key: Value)
    requires IsPubKeyHashScript(s, id) && env.hash160(key) == id && env.checkSig(sig, key, Drop(s, sig))
    ensures Eval(env, [sig, key], s) == Some([VCH_TRUE])
  {
    hide StackOp, Step, Execute, Drop;
    var rest := s[2..];
    SmallPushLength(rest);
    assert s == [OP_DUP] + ([OP_HASH160] + rest);
    assert [OP_EQUALVERIFY, OP_CHECKSIG] == [OP_EQUALVERIFY] + [OP_CHECKSIG] && [OP_CHECKSIG] == [OP_CHECKSIG] + [];
    assert [sig, key] == [sig] + [key];
    var st := State([sig] + [key], [], [], 0, s);
    DupOnTop(env, [sig], key);
    RunStackOp(env, OP_DUP, [OP_HASH160] + rest, st);
    HashOnTop(env, [sig] + [key], key);
    RunStackOp(env, OP_HASH160, rest, st.(stack := [sig] + [key] + [key], opCount := 1));
    RunDataPush(env, rest, st.(stack := [sig] + [key] + [id], opCount := 2));
    EqualVerifyPasses(env, [sig] + [key], id);
    RunStackOp(env, OP_EQUALVERIFY, [OP_CHECKSIG], st.(stack := [sig] + [key] + [id] + [id], opCount := 2));
    assert [] + [sig, key] == [sig] + [key] && [] + [VCH_TRUE] == [VCH_TRUE];
    RunCheckSig(env, [], st.(stack := [sig] + [key], opCount := 3), [], sig, key);
  }

  lemma EqualVerifyPasses(env: Env, below: seq<Value>, v: Value)
    ensures StackOp(env, OP_EQUALVERIFY, below + [v] + [v]) == Some(below)
  {
    var s := below + [v] + [v];
    assert Top(s, 1) == v && Top(s, 2) == v && Pop(s, 2) == below;
    assert IsTrue(VCH_TRUE) by { assert VCH_TRUE[0] == 1; }
    assert Pop(below + [VCH_TRUE], 1) == below && Top(below + [VCH_TRUE], 1) == VCH_TRUE;
  }

  lemma EqualPasses(env: Env, below: seq<Value>, v: Value)
    ensures StackOp(env, OP_EQUAL, below + [v] + [v]) == Some(below + [VCH_TRUE])
  {
    var s := below + [v] + [v];
    assert Top(s, 1) == v && Top(s, 2) == v && Pop(s, 2) == below;
  }

  /** Pay-to-script-hash itself only compares the hash of what is on top. */
  lemma EvalScriptHash(env: Env, s: Script, below: seq<Value>, sub: Value)
    requires IsPayToScriptHash(s) && env.hash160(sub) == s[2..22] && |below| + 2 <= MAX_STACK
    ensures Eval(env, below + [sub], s) == Some(below + [VCH_TRUE])
  {
    var id := s[2..22];
    var st := State(below + [sub], [], [], 0, s);
    assert s == [OP_HASH160] + (PushBytes(id) + ([OP_EQUAL] + []));
    assert Pop(st.stack, 1) == below && Top(st.stack, 1) == sub;
    RunStackOp(env, OP_HASH160, PushBytes(id) + ([OP_EQUAL] + []), st);
    var st1 := st.(stack := below + [id], opCount := 1);
    RunPush(env, id, [OP_EQUAL] + [], st1);
    EqualPasses(env, below, id);
    RunStackOp(env, OP_EQUAL, [], st1.(stack := below + [id] + [id]));
  }

  // Multisig

  lemma ReverseAssignment(f: seq<nat>, valid: (Value, Value) -> bool, sigs: seq<Value>, keys: seq<Value>)
    requires IsAssignment(f, valid, sigs, keys)
    ensures Assignable(valid, Reversed(sigs), Reversed(keys))
  {
    var g := seq(|f|, (i: nat) requires i < |f| => if f[|f| - 1 - i] < |keys| then |keys| - 1 - f[|f| - 1 - i] else 0);
    assert forall i | 0 <= i < |f| :: f[i] < |keys| && valid(sigs[i], keys[f[i]]);
    assert IsAssignment(g, valid, Reversed(sigs), Reversed(keys));
  }

  /** Matching from the last signature down decides the same question as matching from the first one up. */
  lemma AssignableReversed(valid: (Value, Value) -> bool, sigs: seq<Value>, keys: seq<Value>)
    ensures Assignable(valid, sigs, keys) <==> Assignable(valid, Reversed(sigs), Reversed(keys))
  {
    if Assignable(valid, sigs, keys) {
      var f :| IsAssignment(f, valid, sigs, keys);
      ReverseAssignment(f, valid, sigs, keys);
    }
    if Assignable(valid, Reversed(sigs), Reversed(keys)) {
      var f :| IsAssignment(f, valid, Reversed(sigs), Reversed(keys));
      ReverseAssignment(f, valid, Reversed(sigs), Reversed(keys));
      assert Reversed(Reversed(sigs)) == sigs && Reversed(Reversed(keys)) == keys;
    }
  }

  lemma DownIsReversed(below: seq<Value>, mid: seq<Value>, above: seq<Value>)
    ensures Down(below + mid + above, |above| + 1, |mid|) == Reversed(mid)
  {
  }

  lemma SmallNumber(n: nat)
    requires 1 <= n <= 16
    ensures GetVch(n) == [n] && Num([n]) == Some(n)
  {
    assert Magnitude(n) == [n] + Magnitude(0);
    VchRoundTrip(n);
  }

  /** An opcode for a number from 1 to 16. */
  lemma RunSmall(env: Env, n: nat, rest: Script, st: State)
    requires 1 <= n <= 16 && HasRoom(st, 1)
    ensures Run(env, [EncodeOP_N(n)] + rest, st) == Run(env, rest, st.(stack := st.stack + [[n]]))
  {
    RunOne(env, EncodeOP_N(n), rest, st);
    SmallNumber(n);
  }

  lemma {:induction false} RunKeys(env: Env, s: Script, keys: seq<Value>, rest: Script, st: State)
    requires PushesKeys(s, keys, rest) && HasRoom(st, |keys|)
    ensures Run(env, s, st) == Run(env, rest, st.(stack := st.stack + keys))
    ensures |s| <= 125 * |keys| + |rest|
    decreases |keys|
  {
    hide ParseOp, Step;
    if keys == [] {
      assert st.stack + keys == st.stack;
    } else {
      var i := ParseOp(s).value;
      SmallPushLength(s);
      KeyIsPush(s);
      RunDataPush(env, s, st);
      var st1 := st.(stack := st.stack + [keys[0]]);
      RunKeys(env, s[i.len..], keys[1..], rest, st1);
      assert st.stack + [keys[0]] + keys[1..] == st.stack + keys;
    }
  }

  lemma KeyIsPush(s: Script)
    requires ParseOp(s).Some? && ParseOp(s).value.data != []
    ensures ParseOp(s).value.op <= OP_PUSHDATA4
  {
  }

  lemma Regroup5<T>(a: seq<T>, b: seq<T>, c: seq<T>, d: seq<T>, e: seq<T>)
    ensures a + b + c + d + e == a + b + (c + d + e)
    ensures a + b + c + d + e == a + b + c + (d + e)
  {
  }

  lemma ArgumentKeys(s: seq<Value>, below: seq<Value>, keys: seq<Value>, n: Value)
    requires s == below + keys + [n]
    ensures |s| == |below| + |keys| + 1 && Top(s, 1) == n && Down(s, 2, |keys|) == Reversed(keys)
  {
    DownIsReversed(below, keys, [n]);
    hide Down;
  }

  lemma ArgumentSigs(s: seq<Value>, dummy: Value, sigs: seq<Value>, m: Value, above: seq<Value>)
    requires s == [dummy] + sigs + ([m] + above)
    ensures Top(s, |above| + 1) == m && Down(s, |above| + 2, |sigs|) == Reversed(sigs)
  {
    DownIsReversed([dummy], sigs, [m] + above);
    hide Down;
  }

  /** The parts of the argument list of OP_CHECKMULTISIG, a dummy lowest. */
  lemma ArgumentList(s: seq<Value>, dummy: Value, sigs: seq<Value>, m: Value, keys: seq<Value>, n: Value)
    requires s == [dummy] + sigs + [m] + keys + [n]
    ensures |s| == |keys| + |sigs| + 3 && Top(s, 1) == n && Top(s, 2 + |keys|) == m
    ensures Down(s, 2, |keys|) == Reversed(keys) && Down(s, 3 + |keys|, |sigs|) == Reversed(sigs)
  {
    hide Top, Down, Reversed;
    ArgumentKeys(s, [dummy] + sigs + [m], keys, n);
    Regroup5([dummy], sigs, [m], keys, [n]);
    Concat3([m], keys, [n]);
    ArgumentSigs(s, dummy, sigs, m, keys + [n]);
  }

  lemma CountsOnList(s: seq<Value>, m: nat, n: nat, opCount: nat)
    requires 1 <= m <= n <= 16 && opCount + n <= MAX_OPS && |s| == n + m + 3
    requires Top(s, 1) == [n] && Top(s, 2 + n) == [m]
    ensures MultisigCounts(s, opCount) == Some((n, m))
  {
    hide Num, Top;
    SmallNumber(m);
    SmallNumber(n);
  }

  lemma MultisigOpOnList(env: Env, s: seq<Value>, sigs: seq<Value>, m: nat, keys: seq<Value>, opCount: nat, code: Script)
    requires 1 <= m <= |keys| <= 16 && |sigs| == m && opCount + |keys| <= MAX_OPS
    requires s == [[]] + sigs + [[m]] + keys + [[|keys|]]
    ensures MultisigOp(env, s, opCount, code) ==
      Some(([BoolVch(Assignable(CheckWith(env, DropAll(code, Reversed(sigs))), sigs, keys))], opCount + |keys|))
  {
    hide MultisigCounts, DropAll, Assignable, Down, Top, CheckWith, Reversed;
    ArgumentList(s, [], sigs, [m], keys, [|keys|]);
    CountsOnList(s, m, |keys|, opCount);
    var valid := CheckWith(env, DropAll(code, Reversed(sigs)));
    AssignableReversed(valid, sigs, keys);
    var verdict := BoolVch(Assignable(valid, Reversed(sigs), Reversed(keys)));
    assert Pop(s, |keys| + m + 3) + [verdict] == [verdict];
  }

  /** A multisig output holds out for an order-preserving assignment of the signatures to its keys. */
  lemma EvalMultisig(env: Env, s: Script, m: nat, keys: seq<Value>, sigs: seq<Value>)
    requires IsMultisigScript(s, m, keys) && |sigs| == m
    ensures Eval(env, [[]] + sigs, s) ==
      Some([BoolVch(Assignable(CheckWith(env, DropAll(s, Reversed(sigs))), sigs, keys))])
  {
    hide Step, DropAll, MultisigOp;
    var n := |keys|;
    var st := State([[]] + sigs, [], [], 0, s);
    assert s == [EncodeOP_N(m)] + s[1..];
    RunSmall(env, m, s[1..], st);
    var st1 := st.(stack := [[]] + sigs + [[m]]);
    var tail: Script := [EncodeOP_N(n), OP_CHECKMULTISIG];
    RunKeys(env, s[1..], keys, tail, st1);
    var st2 := st1.(stack := st1.stack + keys);
    assert tail == [EncodeOP_N(n)] + ([OP_CHECKMULTISIG] + []);
    RunSmall(env, n, [OP_CHECKMULTISIG] + [], st2);
    RunCheckMultisig(env, st2.(stack := st2.stack + [[n]]), sigs, m, keys);
  }

  lemma RunMultisigOp(env: Env, st: State, t: seq<Value>, n: nat)
    requires st.exec == [] && st.alt == [] && st.opCount < MAX_OPS && |t| <= MAX_STACK
    requires MultisigOp(env, st.stack, st.opCount + 1, st.code) == Some((t, n))
    ensures Run(env, [OP_CHECKMULTISIG] + [], st) == Some(st.(stack := t, opCount := n))
  {
    hide ParseOp, StackOp, CheckSigOp, ControlOp, MultisigOp;
    RunOne(env, OP_CHECKMULTISIG, [], st);
  }

  lemma RunCheckMultisig(env: Env, st: State, sigs: seq<Value>, m: nat, keys: seq<Value>)
    requires 1 <= m <= |keys| <= 16 && |sigs| == m && st.opCount == 0 && st.exec == [] && st.alt == []
    requires st.stack == [[]] + sigs + [[m]] + keys + [[|keys|]]
    ensures Run(env, [OP_CHECKMULTISIG] + [], st) ==
      Some(st.(stack := [BoolVch(Assignable(CheckWith(env, DropAll(st.code, Reversed(sigs))), sigs, keys))],
               opCount := 1 + |keys|))
  {
    MultisigOpOnList(env, st.stack, sigs, m, keys, 1, st.code);
    hide MultisigOp, DropAll, Assignable, CheckWith, BoolVch, Reversed;
    var verdict := BoolVch(Assignable(CheckWith(env, DropAll(st.code, Reversed(sigs))), sigs, keys));
    RunMultisigOp(env, st, [verdict], 1 + |keys|);
  }

  lemma NotPushedCons(v: Value, s: Script)
    requires ParseOp(s).Some?
    requires ParseOp(s).value.op <= OP_PUSHDATA4 ==> ParseOp(s).value.data != v
    requires NotPushed(v, s[ParseOp(s).value.len..])
    ensures NotPushed(v, s)
  {
    var i := ParseOp(s).value;
    ParsePrefix(s, []);
    assert s[..i.len] + [] == s[..i.len];
    assert Chunks(s) == [s[..i.len]] + Chunks(s[i.len..]);
  }

  lemma {:induction false} KeysPushOnlyKeys(v: Value, s: Script, keys: seq<Value>, rest: Script)
    requires PushesKeys(s, keys, rest) && v !in keys && NotPushed(v, rest)
    ensures NotPushed(v, s) && forall i | 0 <= i < |keys| :: KeySized(keys[i])
    decreases |keys|
  {
    hide NotPushed, ParseOp;
    if keys != [] {
      KeysPushOnlyKeys(v, s[ParseOp(s).value.len..], keys[1..], rest);
      NotPushedCons(v, s);
    }
  }

  lemma NotPushedOp(v: Value, op: Byte, s: Script)
    requires op > OP_PUSHDATA4 && NotPushed(v, s)
    ensures NotPushed(v, [op] + s)
  {
    ParseSingle(op, s);
    assert ([op] + s)[1..] == s;
    NotPushedCons(v, [op] + s);
  }

  /** A multisig output pushes nothing but its keys. */
  lemma MultisigPushesKeys(v: Value, s: Script, m: nat, keys: seq<Value>)
    requires IsMultisigScript(s, m, keys) && v !in keys
    ensures NotPushed(v, s) && forall i | 0 <= i < |keys| :: KeySized(keys[i])
  {
    hide NotPushed, ParseOp;
    var tail: Script := [EncodeOP_N(|keys|), OP_CHECKMULTISIG];
    NothingPushed(v);
    NotPushedOp(v, OP_CHECKMULTISIG, []);
    NotPushedOp(v, EncodeOP_N(|keys|), [OP_CHECKMULTISIG] + []);
    assert tail == [EncodeOP_N(|keys|)] + ([OP_CHECKMULTISIG] + []) && s == [s[0]] + s[1..];
    KeysPushOnlyKeys(v, s[1..], keys, tail);
    NotPushedOp(v, s[0], s[1..]);
  }

  lemma NothingPushed(v: Value)
    ensures NotPushed(v, [])
  {
  }
}
