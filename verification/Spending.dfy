/** Which scripts spend the standard outputs: exactly what VerifyScript asks of each form (src/script.cpp). */
module Spending {
  import opened Sequences
  import opened Wrappers
  import opened Bytes
  import opened Bignum
  import opened Transactions
  import opened ScriptCode
  import opened Multisig
  import opened Standard
  import opened Signatures
  import opened PushScripts
  import opened Signing
  import I = Interpreter

  // One instruction, whether or not it succeeds

  lemma StackOpExactly(env: I.Env, op: Byte, rest: Script, st: I.State)
    requires I.OP_VERIFY <= op <= I.OP_NOP10 && !I.Disabled(op) && st.exec == [] && st.opCount < I.MAX_OPS
    requires op != I.OP_TOALTSTACK && op != I.OP_FROMALTSTACK && !(I.OP_CODESEPARATOR <= op <= I.OP_CHECKMULTISIGVERIFY)
    ensures var s := I.StackOp(env, op, st.stack);
      I.Run(env, [op] + rest, st)
      == if s.None? || |s.value| + |st.alt| > I.MAX_STACK then None
         else I.Run(env, rest, st.(stack := s.value, opCount := st.opCount + 1))
  {
    hide I.StackOp, ParseOp, I.ControlOp, I.CheckSigOp, I.MultisigOp;
    RunOne(env, op, rest, st);
  }

  lemma PushExactly(env: I.Env, s: Script, st: I.State)
    requires ParseOp(s).Some? && ParseOp(s).value.op <= OP_PUSHDATA4 && st.exec == []
    requires |ParseOp(s).value.data| <= I.MAX_ELEMENT_SIZE
    ensures I.Run(env, s, st)
            == if |st.stack| + |st.alt| >= I.MAX_STACK then None
               else I.Run(env, s[ParseOp(s).value.len..], st.(stack := st.stack + [ParseOp(s).value.data]))
  {
    hide I.Execute, ParseOp;
    var i := ParseOp(s).value;
    assert st.(opCount := I.CountOp(i.op, st.opCount)) == st;
  }

  lemma SmallExactly(env: I.Env, n: nat, rest: Script, st: I.State)
    requires 1 <= n <= 16 && st.exec == []
    ensures I.Run(env, [EncodeOP_N(n)] + rest, st)
            == if |st.stack| + |st.alt| >= I.MAX_STACK then None else I.Run(env, rest, st.(stack := st.stack + [[n]]))
  {
    RunOne(env, EncodeOP_N(n), rest, st);
    SmallNumber(n);
  }

  lemma {:induction false} KeysExactly(env: I.Env, s: Script, keys: seq<Value>, rest: Script, st: I.State)
    requires PushesKeys(s, keys, rest) && st.exec == [] && |st.stack| + |st.alt| <= I.MAX_STACK
    ensures I.Run(env, s, st)
            == if |st.stack| + |st.alt| + |keys| > I.MAX_STACK then None
               else I.Run(env, rest, st.(stack := st.stack + keys))
    ensures |s| <= 125 * |keys| + |rest|
    decreases |keys|
  {
    hide ParseOp, I.Step;
    if keys == [] {
      assert st.stack + keys == st.stack;
    } else {
      var i := ParseOp(s).value;
      SmallPushLength(s);
      KeyIsPush(s);
      PushExactly(env, s, st);
      KeysLength(s[i.len..], keys[1..], rest);
      if |st.stack| + |st.alt| < I.MAX_STACK {
        KeysExactly(env, s[i.len..], keys[1..], rest, st.(stack := st.stack + [keys[0]]));
        assert st.stack + [keys[0]] + keys[1..] == st.stack + keys;
      }
    }
  }

  lemma {:induction false} KeysLength(s: Script, keys: seq<Value>, rest: Script)
    requires PushesKeys(s, keys, rest)
    ensures |s| <= 125 * |keys| + |rest|
    decreases |keys|
  {
    hide ParseOp;
    if keys != [] {
      SmallPushLength(s);
      KeysLength(s[ParseOp(s).value.len..], keys[1..], rest);
    }
  }

  lemma CheckSigExactly(env: I.Env, st: I.State)
    requires st.exec == [] && st.alt == [] && st.opCount < I.MAX_OPS && |st.stack| <= I.MAX_STACK
    ensures I.Run(env, [I.OP_CHECKSIG] + [], st)
            == match I.CheckSigOp(env, st.stack, st.code)
               case None => None
               case Some(t) => Some(st.(stack := t, opCount := st.opCount + 1))
  {
    hide ParseOp, I.StackOp, I.MultisigOp, I.ControlOp;
    RunOne(env, I.OP_CHECKSIG, [], st);
  }

  lemma MultisigExactly(env: I.Env, st: I.State)
    requires st.exec == [] && st.alt == [] && st.opCount < I.MAX_OPS && |st.stack| <= I.MAX_STACK
    ensures I.Run(env, [I.OP_CHECKMULTISIG] + [], st)
            == match I.MultisigOp(env, st.stack, st.opCount + 1, st.code)
               case None => None
               case Some((t, n)) => if |t| > I.MAX_STACK then None else Some(st.(stack := t, opCount := n))
  {
    hide ParseOp, I.StackOp, I.CheckSigOp, I.ControlOp, I.MultisigOp;
    RunOne(env, I.OP_CHECKMULTISIG, [], st);
  }

  // What each form makes of a stack

  lemma EvalPubKeyExactly(env: I.Env, s: Script, key: Value, stack: seq<Value>)
    requires IsPubKeyScript(s, key)
    ensures I.Eval(env, stack, s)
            == if stack == [] || |stack| >= I.MAX_STACK then None
               else
                 var sig := I.Top(stack, 1);
                 Some(I.Pop(stack, 1) + [I.BoolVch(env.checkSig(sig, key, I.Drop(s, sig)))])
  {
    hide I.Drop, I.Step;
    SmallPushLength(s);
    KeyIsPush(s);
    var st := I.State(stack, [], [], 0, s);
    PushExactly(env, s, st);
    assert [I.OP_CHECKSIG] == [I.OP_CHECKSIG] + [];
    if |stack| < I.MAX_STACK {
      var st1 := st.(stack := stack + [key]);
      CheckSigExactly(env, st1);
      if stack != [] {
        assert I.Top(st1.stack, 2) == I.Top(stack, 1) && I.Top(st1.stack, 1) == key && I.Pop(st1.stack, 2) == I.Pop(stack, 1);
      }
    }
  }

  lemma EvalScriptHashExactly(env: I.Env, s: Script, stack: seq<Value>)
    requires IsPayToScriptHash(s)
    ensures I.Eval(env, stack, s)
            == if stack == [] || |stack| >= I.MAX_STACK then None
               else Some(I.Pop(stack, 1) + [I.BoolVch(env.hash160(I.Top(stack, 1)) == s[2..22])])
  {
    hide I.Run, I.StackOp, PushBytes;
    var id := s[2..22];
    var st := I.State(stack, [], [], 0, s);
    ScriptHashParts(s);
    HashExactly(env, stack);
    StackOpExactly(env, OP_HASH160, PushBytes(id) + ([OP_EQUAL] + []), st);
    if stack != [] && |stack| <= I.MAX_STACK {
      var below: seq<Value>, h: Value := I.Pop(stack, 1), env.hash160(I.Top(stack, 1));
      var st1 := st.(stack := below + [h], opCount := 1);
      ParsePush(id, [OP_EQUAL] + []);
      PushExactly(env, PushBytes(id) + ([OP_EQUAL] + []), st1);
      assert (PushBytes(id) + ([OP_EQUAL] + []))[|PushBytes(id)|..] == [OP_EQUAL] + [];
      if |stack| < I.MAX_STACK {
        var st2 := st1.(stack := below + [h] + [id]);
        EqualExactly(env, below, h, id);
        StackOpExactly(env, OP_EQUAL, [], st2);
        RunNothing(env, st2.(stack := below + [I.BoolVch(h == id)], opCount := 2));
      }
    }
  }

  lemma ScriptHashParts(s: Script)
    requires IsPayToScriptHash(s)
    ensures s == [OP_HASH160] + (PushBytes(s[2..22]) + ([OP_EQUAL] + [])) && |s| <= I.MAX_SCRIPT_SIZE
  {
  }

  lemma HashExactly(env: I.Env, stack: seq<Value>)
    ensures I.StackOp(env, OP_HASH160, stack)
            == if stack == [] then None else Some(I.Pop(stack, 1) + [env.hash160(I.Top(stack, 1))])
  {
  }

  lemma RunNothing(env: I.Env, st: I.State)
    ensures I.Run(env, [], st) == Some(st)
  {
  }

  lemma EqualExactly(env: I.Env, below: seq<Value>, a: Value, b: Value)
    ensures I.StackOp(env, OP_EQUAL, below + [a] + [b]) == Some(below + [I.BoolVch(a == b)])
    ensures I.StackOp(env, I.OP_EQUALVERIFY, below + [a] + [b]) == if a == b then Some(below) else None
  {
    var s := below + [a] + [b];
    assert I.Top(s, 1) == b && I.Top(s, 2) == a && I.Pop(s, 2) == below;
    VerifyExactly(below, a == b);
  }

  lemma VerifyExactly(below: seq<Value>, b: bool)
    ensures I.Verify(below + [I.BoolVch(b)]) == if b then Some(below) else None
    ensures Accepts(Some(below + [I.BoolVch(b)])) <==> b
  {
    TrueIsTrue();
    assert I.Pop(below + [I.BoolVch(b)], 1) == below && I.Top(below + [I.BoolVch(b)], 1) == I.BoolVch(b);
  }

  lemma EvalPubKeyHashExactly(env: I.Env, s: Script, id: Value, stack: seq<Value>)
    requires IsPubKeyHashScript(s, id)
    ensures I.Eval(env, stack, s)
            == if |stack| < 2 || |stack| + 2 > I.MAX_STACK || env.hash160(I.Top(stack, 1)) != id then None
               else
                 var sig, key := I.Top(stack, 2), I.Top(stack, 1);
                 Some(I.Pop(stack, 2) + [I.BoolVch(env.checkSig(sig, key, I.Drop(s, sig)))])
  {
    hide I.Drop, I.Step, I.Run, ParseOp;
    var rest := s[2..];
    var st := I.State(stack, [], [], 0, s);
    PubKeyHashParts(s, id);
    StackOpExactly(env, I.OP_DUP, [OP_HASH160] + rest, st);
    DupExactly(env, stack);
    if stack != [] && |stack| < I.MAX_STACK {
      var key := I.Top(stack, 1);
      var st1 := st.(stack := stack + [key], opCount := 1);
      HashOnTop(env, stack, key);
      StackOpExactly(env, OP_HASH160, rest, st1);
      var h: Value := env.hash160(key);
      PushExactly(env, rest, st1.(stack := stack + [h], opCount := 2));
      if |stack| + 2 <= I.MAX_STACK {
        var st3 := st1.(stack := stack + [h] + [id], opCount := 2);
        EqualExactly(env, stack, h, id);
        StackOpExactly(env, I.OP_EQUALVERIFY, [I.OP_CHECKSIG] + [], st3);
        CheckSigExactly(env, st3.(stack := stack, opCount := 3));
      }
    }
  }

  lemma PubKeyHashParts(s: Script, id: Value)
    requires IsPubKeyHashScript(s, id)
    ensures s == [I.OP_DUP] + ([OP_HASH160] + s[2..]) && |s| <= I.MAX_SCRIPT_SIZE
    ensures ParseOp(s[2..]).value.op <= OP_PUSHDATA4
    ensures s[2..][ParseOp(s[2..]).value.len..] == [I.OP_EQUALVERIFY] + ([I.OP_CHECKSIG] + [])
  {
    SmallPushLength(s[2..]);
    KeyIsPush(s[2..]);
  }

  lemma DupExactly(env: I.Env, stack: seq<Value>)
    ensures I.StackOp(env, I.OP_DUP, stack) == if stack == [] then None else Some(stack + [I.Top(stack, 1)])
  {
  }

  /** The last m values, the lowest first. */
  function LastOf(stack: seq<Value>, m: nat): seq<Value>
    requires m <= |stack|
  {
    stack[|stack| - m..]
  }

  lemma EvalMultisigExactly(env: I.Env, s: Script, m: nat, keys: seq<Value>, stack: seq<Value>)
    requires IsMultisigScript(s, m, keys)
    ensures I.Eval(env, stack, s)
            == if |stack| <= m || |stack| + |keys| + 2 > I.MAX_STACK then None
               else
                 var sigs := LastOf(stack, m);
                 var valid := I.CheckWith(env, I.DropAll(s, Reversed(sigs)));
                 Some(I.Pop(stack, m + 1) + [I.BoolVch(Assignable(valid, sigs, keys))])
  {
    hide I.Step, I.DropAll, I.MultisigOp, I.Run;
    var n := |keys|;
    var tail: Script := [EncodeOP_N(n)] + ([I.OP_CHECKMULTISIG] + []);
    assert s == [EncodeOP_N(m)] + s[1..] && tail == [EncodeOP_N(n), I.OP_CHECKMULTISIG];
    KeysLength(s[1..], keys, tail);
    var st := I.State(stack, [], [], 0, s);
    SmallExactly(env, m, s[1..], st);
    if |stack| < I.MAX_STACK {
      var st1 := st.(stack := stack + [[m]]);
      KeysExactly(env, s[1..], keys, tail, st1);
      if |stack| + 1 + n <= I.MAX_STACK {
        var st2 := st1.(stack := stack + [[m]] + keys);
        SmallExactly(env, n, [I.OP_CHECKMULTISIG] + [], st2);
        if |stack| + 2 + n <= I.MAX_STACK {
          var st3 := st2.(stack := stack + [[m]] + keys + [[n]]);
          MultisigExactly(env, st3);
          MultisigOnStack(env, stack, m, keys, s);
        }
      }
    }
  }

  lemma MultisigOnStack(env: I.Env, stack: seq<Value>, m: nat, keys: seq<Value>, code: Script)
    requires 1 <= m <= |keys| <= 16
    ensures I.MultisigOp(env, stack + [[m]] + keys + [[|keys|]], 1, code)
            == if |stack| <= m then None
               else
                 var sigs := LastOf(stack, m);
                 var valid := I.CheckWith(env, I.DropAll(code, Reversed(sigs)));
                 Some((I.Pop(stack, m + 1) + [I.BoolVch(Assignable(valid, sigs, keys))], 1 + |keys|))
  {
    hide I.DropAll, Assignable, I.Down, I.CheckWith, Reversed, I.Num;
    var n := |keys|;
    var s := stack + [[m]] + keys + [[n]];
    SmallNumber(m);
    SmallNumber(n);
    assert I.Top(s, 1) == [n] && I.Top(s, 2 + n) == [m];
    if |stack| > m {
      var sigs, below := LastOf(stack, m), stack[..|stack| - m];
      var valid := I.CheckWith(env, I.DropAll(code, Reversed(sigs)));
      DownKeys(stack, m, keys);
      DownSigs(stack, m, keys);
      AssignableReversed(valid, sigs, keys);
      assert I.Pop(s, n + m + 3) == I.Pop(stack, m + 1);
    }
  }

  lemma DownKeys(stack: seq<Value>, m: nat, keys: seq<Value>)
    requires m < 0x100 && |keys| < 0x100
    ensures I.Down(stack + [[m]] + keys + [[|keys|]], 2, |keys|) == Reversed(keys)
  {
    DownIsReversed(stack + [[m]], keys, [[|keys|]]);
  }

  lemma DownSigs(stack: seq<Value>, m: nat, keys: seq<Value>)
    requires m < |stack| && m < 0x100 && |keys| < 0x100
    ensures I.Down(stack + [[m]] + keys + [[|keys|]], 3 + |keys|, m) == Reversed(LastOf(stack, m))
  {
    hide I.Down, Reversed;
    DownTo(stack[..|stack| - m], LastOf(stack, m), [[m]], keys, [[|keys|]]);
    assert stack == stack[..|stack| - m] + LastOf(stack, m);
  }

  lemma DownTo(below: seq<Value>, mid: seq<Value>, a: seq<Value>, b: seq<Value>, c: seq<Value>)
    ensures I.Down(below + mid + a + b + c, |a| + |b| + |c| + 1, |mid|) == Reversed(mid)
  {
    hide I.Down, Reversed;
    DownIsReversed(below, mid, a + b + c);
    Regroup5(below, mid, a, b, c);
  }

  // What it takes to spend

  /** sig is a signature by key of input nIn: its last byte says what it signs, and must be t unless t is zero. */
  ghost predicate Authorises(crypto: Crypto, sig: Value, key: Value, code: Script, tx: Tx, nIn: nat, t: int) {
    exists body: Value, b: Byte ::
      sig == body + [b] && (t == 0 || t == b) && crypto.verify(key, SignedHash(crypto, code, tx, nIn, b), body)
  }

  lemma CheckSigAuthorises(crypto: Crypto, sig: Value, key: Value, code: Script, tx: Tx, nIn: nat, t: int)
    ensures EnvFor(crypto, tx, nIn, t).checkSig(sig, key, code) <==> Authorises(crypto, sig, key, code, tx, nIn, t)
  {
    hide SignedHash;
    if SigValid(crypto, sig, key, code, tx, nIn, t) {
      var body, b := sig[..|sig| - 1], sig[|sig| - 1];
      assert sig == body + [b];
    }
    if Authorises(crypto, sig, key, code, tx, nIn, t) {
      var body: Value, b: Byte :|
        sig == body + [b] && (t == 0 || t == b) && crypto.verify(key, SignedHash(crypto, code, tx, nIn, b), body);
      assert sig[..|sig| - 1] == body && sig[|sig| - 1] == b;
    }
  }

  /** The script without the instructions that push sig, and whatever cannot be read: what a signature in it signs. */
  function Cleared(s: Script, sig: Value): Script {
    Join(Without(Chunks(s), PushBytes(sig))) + Unparsable(s)
  }

  /** The same for several signatures, the last one first. */
  function ClearedOfAll(s: Script, sigs: seq<Value>): Script
    decreases |sigs|
  {
    if sigs == [] then s else ClearedOfAll(Cleared(s, sigs[|sigs| - 1]), sigs[..|sigs| - 1])
  }

  lemma DropClears(s: Script, sig: Value)
    requires |sig| <= I.MAX_ELEMENT_SIZE
    ensures I.Drop(s, sig) == Cleared(s, sig)
  {
    hide ParseOp;
    ParsePush(sig, []);
    assert PushBytes(sig) + [] == PushBytes(sig);
    DeletedIsFiltered(s, PushBytes(sig));
  }

  lemma {:induction false} DropAllClears(s: Script, sigs: seq<Value>)
    requires I.Bounded(sigs)
    ensures I.DropAll(s, Reversed(sigs)) == ClearedOfAll(s, sigs)
    decreases |sigs|
  {
    hide I.Drop, Cleared;
    if sigs != [] {
      var init, last := sigs[..|sigs| - 1], sigs[|sigs| - 1];
      DropClears(s, last);
      assert sigs == init + [last];
      ReversedSnoc(init, last);
      assert ([last] + Reversed(init))[1..] == Reversed(init);
      DropAllClears(Cleared(s, last), init);
    }
  }

  /** The stack scriptSig leaves, if it runs. */
  ghost function LeftBy(crypto: Crypto, scriptSig: Script, tx: Tx, nIn: nat, t: int): Option<seq<Value>> {
    I.Eval(EnvFor(crypto, tx, nIn, t), [], scriptSig)
  }

  lemma LeftIsBounded(crypto: Crypto, scriptSig: Script, tx: Tx, nIn: nat, t: int)
    ensures LeftBy(crypto, scriptSig, tx, nIn, t).Some? ==> I.Bounded(LeftBy(crypto, scriptSig, tx, nIn, t).value)
  {
    hide I.Run;
    if LeftBy(crypto, scriptSig, tx, nIn, t).Some? {
      I.RunKeepsLimits(EnvFor(crypto, tx, nIn, t), scriptSig, I.State([], [], [], 0, scriptSig));
    }
  }

  /** Pay-to-pubkey: exactly if the value on top is a signature by the key. */
  lemma PubKeySpentExactlyWhen(crypto: Crypto, scriptSig: Script, s: Script, key: Value, tx: Tx, nIn: nat, p2sh: bool, t: int)
    requires IsPubKeyScript(s, key)
    ensures Verify(crypto, scriptSig, s, tx, nIn, p2sh, t) <==>
      match LeftBy(crypto, scriptSig, tx, nIn, t)
      case None => false
      case Some(stack) =>
        1 <= |stack| < 1000 && Authorises(crypto, I.Top(stack, 1), key, Cleared(s, I.Top(stack, 1)), tx, nIn, t)
  {
    PubKeySolved(s, key);
    NotScriptHash(s);
    LeftIsBounded(crypto, scriptSig, tx, nIn, t);
    hide I.Eval, EnvFor, Solve, Authorises, I.Drop, Cleared;
    var env := EnvFor(crypto, tx, nIn, t);
    if I.Eval(env, [], scriptSig).Some? {
      var stack := I.Eval(env, [], scriptSig).value;
      EvalPubKeyExactly(env, s, key, stack);
      if 1 <= |stack| < 1000 {
        var sig := I.Top(stack, 1);
        DropClears(s, sig);
        CheckSigAuthorises(crypto, sig, key, I.Drop(s, sig), tx, nIn, t);
        VerifyExactly(I.Pop(stack, 1), env.checkSig(sig, key, I.Drop(s, sig)));
      }
    }
  }

  /** Pay-to-pubkey-hash: exactly if the value on top is a key with that hash and the one below a signature by it. */
  lemma PubKeyHashSpentExactlyWhen(crypto: Crypto, scriptSig: Script, s: Script, id: Value, tx: Tx, nIn: nat,
                                   p2sh: bool, t: int)
    requires IsPubKeyHashScript(s, id)
    ensures Verify(crypto, scriptSig, s, tx, nIn, p2sh, t) <==>
      match LeftBy(crypto, scriptSig, tx, nIn, t)
      case None => false
      case Some(stack) =>
        && 2 <= |stack| <= 998 && crypto.hash160(I.Top(stack, 1)) == id
        && Authorises(crypto, I.Top(stack, 2), I.Top(stack, 1), Cleared(s, I.Top(stack, 2)), tx, nIn, t)
  {
    PubKeyHashSolved(s, id);
    NotScriptHash(s);
    var env := EnvFor(crypto, tx, nIn, t);
    assert forall v :: env.hash160(v) == crypto.hash160(v);
    LeftIsBounded(crypto, scriptSig, tx, nIn, t);
    hide I.Eval, EnvFor, Solve, Authorises, I.Drop, Cleared;
    if I.Eval(env, [], scriptSig).Some? {
      var stack := I.Eval(env, [], scriptSig).value;
      EvalPubKeyHashExactly(env, s, id, stack);
      if 2 <= |stack| <= 998 {
        var sig, key := I.Top(stack, 2), I.Top(stack, 1);
        DropClears(s, sig);
        CheckSigAuthorises(crypto, sig, key, I.Drop(s, sig), tx, nIn, t);
        VerifyExactly(I.Pop(stack, 2), env.checkSig(sig, key, I.Drop(s, sig)));
      }
    }
  }

  /** The signatures belong to keys of the list, in the same order. */
  ghost predicate AllAuthorise(crypto: Crypto, sigs: seq<Value>, keys: seq<Value>, code: Script, tx: Tx, nIn: nat, t: int) {
    exists f: seq<nat> ::
      && |f| == |sigs| && (forall i | 0 <= i < |f| :: f[i] < |keys| && Authorises(crypto, sigs[i], keys[f[i]], code, tx, nIn, t))
      && (forall i, j | 0 <= i < j < |f| :: f[i] < f[j])
  }

  lemma AssignableAuthorises(crypto: Crypto, sigs: seq<Value>, keys: seq<Value>, code: Script, tx: Tx, nIn: nat, t: int)
    ensures Assignable(I.CheckWith(EnvFor(crypto, tx, nIn, t), code), sigs, keys) <==>
            AllAuthorise(crypto, sigs, keys, code, tx, nIn, t)
  {
    var valid := I.CheckWith(EnvFor(crypto, tx, nIn, t), code);
    forall sig, key ensures valid(sig, key) <==> Authorises(crypto, sig, key, code, tx, nIn, t) {
      CheckSigAuthorises(crypto, sig, key, code, tx, nIn, t);
    }
    hide Authorises, EnvFor, I.CheckWith;
    if Assignable(valid, sigs, keys) {
      var f :| IsAssignment(f, valid, sigs, keys);
      assert |f| == |sigs|;
    }
    if AllAuthorise(crypto, sigs, keys, code, tx, nIn, t) {
      var f: seq<nat> :|
        && |f| == |sigs| && (forall i | 0 <= i < |f| :: f[i] < |keys| && Authorises(crypto, sigs[i], keys[f[i]], code, tx, nIn, t))
        && (forall i, j | 0 <= i < j < |f| :: f[i] < f[j]);
      assert IsAssignment(f, valid, sigs, keys);
    }
  }

  /** m of n: exactly if the m values on top, above one that is ignored, are signatures by keys in their order. */
  lemma MultisigSpentExactlyWhen(crypto: Crypto, scriptSig: Script, s: Script, m: nat, keys: seq<Value>, tx: Tx, nIn: nat,
                                 p2sh: bool, t: int)
    requires IsMultisigScript(s, m, keys)
    ensures Verify(crypto, scriptSig, s, tx, nIn, p2sh, t) <==>
      match LeftBy(crypto, scriptSig, tx, nIn, t)
      case None => false
      case Some(stack) =>
        && m < |stack| <= 998 - |keys|
        && AllAuthorise(crypto, LastOf(stack, m), keys, ClearedOfAll(s, LastOf(stack, m)), tx, nIn, t)
  {
    MultisigSolved(s, m, keys);
    NotScriptHash(s);
    LeftIsBounded(crypto, scriptSig, tx, nIn, t);
    hide I.Eval, EnvFor, Solve, AllAuthorise, I.DropAll, ClearedOfAll;
    var env := EnvFor(crypto, tx, nIn, t);
    if I.Eval(env, [], scriptSig).Some? {
      var stack := I.Eval(env, [], scriptSig).value;
      EvalMultisigExactly(env, s, m, keys, stack);
      if m < |stack| <= 998 - |keys| {
        var sigs := LastOf(stack, m);
        var code := I.DropAll(s, Reversed(sigs));
        DropAllClears(s, sigs);
        AssignableAuthorises(crypto, sigs, keys, code, tx, nIn, t);
        VerifyExactly(I.Pop(stack, m + 1), Assignable(I.CheckWith(env, code), sigs, keys));
      }
    }
  }

  /**
   * Pay-to-script-hash: exactly if scriptSig only pushes and what it leaves on top has that hash and, run as a script on
   * the rest, leaves a true value on top. Before the rule applied, the hash alone decided.
   */
  lemma ScriptHashSpentExactlyWhen(crypto: Crypto, scriptSig: Script, s: Script, tx: Tx, nIn: nat, p2sh: bool, t: int)
    requires IsPayToScriptHash(s)
    ensures Verify(crypto, scriptSig, s, tx, nIn, p2sh, t) <==>
      match LeftBy(crypto, scriptSig, tx, nIn, t)
      case None => false
      case Some(stack) =>
        && 1 <= |stack| < 1000 && crypto.hash160(I.Top(stack, 1)) == s[2..22]
        && (p2sh ==>
              PushOnly(scriptSig)
              && match I.Eval(EnvFor(crypto, tx, nIn, t), I.Pop(stack, 1), I.Top(stack, 1))
                 case None => false
                 case Some(left) => left != [] && SetVch(I.Top(left, 1)) != 0)
  {
    var env := EnvFor(crypto, tx, nIn, t);
    assert forall v :: env.hash160(v) == crypto.hash160(v);
    hide I.Eval, EnvFor, PushOnly;
    if I.Eval(env, [], scriptSig).Some? {
      var stack := I.Eval(env, [], scriptSig).value;
      EvalScriptHashExactly(env, s, stack);
      if 1 <= |stack| < 1000 {
        VerifyExactly(I.Pop(stack, 1), env.hash160(I.Top(stack, 1)) == s[2..22]);
        var left := I.Eval(env, I.Pop(stack, 1), I.Top(stack, 1));
        if left.Some? && left.value != [] {
          I.TrueMeansNonzero(I.Top(left.value, 1));
        }
      }
    }
  }

  /** So an empty scriptSig spends none of the four forms. */
  lemma NothingSpendsNothing(crypto: Crypto, s: Script, tx: Tx, nIn: nat, p2sh: bool, t: int)
    requires Solve(s).0 != NonStandard
    ensures !Verify(crypto, [], s, tx, nIn, p2sh, t)
  {
    hide Verify, EnvFor;
    assert LeftBy(crypto, [], tx, nIn, t) == Some([]);
    hide LeftBy;
    match Solve(s).0 {
      case PubKey =>
        PubKeyMatches(s);
        PubKeySpentExactlyWhen(crypto, [], s, ParseOp(s).value.data, tx, nIn, p2sh, t);
      case PubKeyHash =>
        PubKeyHashMatches(s);
        PubKeyHashSpentExactlyWhen(crypto, [], s, ParseOp(s[2..]).value.data, tx, nIn, p2sh, t);
      case ScriptHash =>
        NotScriptHash(s);
        ScriptHashSpentExactlyWhen(crypto, [], s, tx, nIn, p2sh, t);
      case MultiSig =>
        var m, keys := MultisigVerdict(s);
        MultisigSpentExactlyWhen(crypto, [], s, m, keys, tx, nIn, p2sh, t);
    }
  }
}
