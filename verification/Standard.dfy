/** The standard script forms and the template matcher that recognises them (src/script.cpp, Solver). */
module Standard {
  import opened Wrappers
  import opened Bytes
  import opened ScriptCode
  import opened Multisig
  import opened Interpreter

  const OP_SMALLINTEGER := 0xfa
  const OP_PUBKEYS := 0xfb
  const OP_PUBKEYHASH := 0xfd
  const OP_PUBKEY := 0xfe

  datatype TxOutType = NonStandard | PubKey | PubKeyHash | ScriptHash | MultiSig

  const PUBKEY_TEMPLATE: Script := [OP_PUBKEY, OP_CHECKSIG]
  const PUBKEYHASH_TEMPLATE: Script := [OP_DUP, OP_HASH160, OP_PUBKEYHASH, OP_EQUALVERIFY, OP_CHECKSIG]
  const MULTISIG_TEMPLATE: Script := [OP_SMALLINTEGER, OP_PUBKEYS, OP_SMALLINTEGER, OP_CHECKMULTISIG]

  predicate KeySized(v: Value) {
    33 <= |v| <= 120
  }

  // The forms, said without templates

  /** <key> OP_CHECKSIG, the key pushed in any way. */
  predicate IsPubKeyScript(s: Script, key: Value) {
    ParseOp(s).Some? && ParseOp(s).value.data == key && 33 <= |key| <= 120 && s[ParseOp(s).value.len..] == [OP_CHECKSIG]
  }

  /** OP_DUP OP_HASH160 <20 bytes> OP_EQUALVERIFY OP_CHECKSIG */
  predicate IsPubKeyHashScript(s: Script, id: Value) {
    && |s| > 2 && s[0] == OP_DUP && s[1] == OP_HASH160
    && ParseOp(s[2..]).Some? && ParseOp(s[2..]).value.data == id && |id| == 20
    && s[2..][ParseOp(s[2..]).value.len..] == [OP_EQUALVERIFY, OP_CHECKSIG]
  }

  /** s is pushes of the keys followed by rest. */
  predicate PushesKeys(s: Script, keys: seq<Value>, rest: Script)
    decreases |keys|
  {
    if keys == [] then s == rest
    else
      ParseOp(s).Some? && ParseOp(s).value.data == keys[0] && 33 <= |keys[0]| <= 120
      && PushesKeys(s[ParseOp(s).value.len..], keys[1..], rest)
  }

  /** m <key>... n OP_CHECKMULTISIG with 1 <= m <= n and n keys. */
  predicate IsMultisigScript(s: Script, m: nat, keys: seq<Value>) {
    && 1 <= m <= |keys| <= 16 && s != [] && s[0] == EncodeOP_N(m)
    && PushesKeys(s[1..], keys, [EncodeOP_N(|keys|), OP_CHECKMULTISIG])
  }

  // The matcher

  /** The opcode and data under the cursor; reading past the end leaves the invalid opcode. */
  datatype Cursor = Cursor(op: Byte, data: Value, rest: Script)

  function Next(s: Script): Cursor {
    match ParseOp(s)
    case None => Cursor(0xff, [], s)
    case Some(i) => Cursor(i.op, i.data, s[i.len..])
  }

  /**
   * The inner loop for OP_PUBKEYS: the keys taken and the cursor after them. At the end of the script the
   * cursor carries no data, so that leaving the loop there needs no case of its own.
   */
  function TakeKeys(c: Cursor): (r: (seq<Value>, Cursor))
    decreases |c.rest|, |c.data|
  {
    if !KeySized(c.data) then ([], c)
    else
      var (keys, c') := TakeKeys(Next(c.rest));
      ([c.data] + keys, c')
  }

  /** What one template opcode contributes, or None if it does not accept the instruction. */
  function MatchOne(c: Cursor, t: Byte): Option<seq<Value>> {
    if t == OP_PUBKEY then if KeySized(c.data) then Some([c.data]) else None
    else if t == OP_PUBKEYHASH then if |c.data| == 20 then Some([c.data]) else None
    else if t == OP_SMALLINTEGER then
      if c.op == OP_0 || OP_1 <= c.op <= OP_16 then Some([[DecodeOP_N(c.op)]]) else None
    else if c.op == t && c.data == [] then Some([]) else None
  }

  /** Templates consist of one-byte opcodes. */
  predicate IsTemplate(t: Script) {
    forall i | 0 <= i < |t| :: t[i] > OP_PUSHDATA4
  }

  function MatchTemplate(s: Script, t: Script): Option<seq<Value>>
    decreases |t|
  {
    if s == [] && t == [] then Some([])
    else if ParseOp(s).None? || t == [] then None
    else if t[0] == OP_PUBKEYS then
      var (keys, c) := TakeKeys(Next(s));
      if |t| < 2 || MatchOne(c, t[1]).None? then None
      else
        Prepend(keys, Prepend(MatchOne(c, t[1]).value, MatchTemplate(c.rest, t[2..])))
    else
      var c := Next(s);
      if MatchOne(c, t[0]).None? then None
      else
        Prepend(MatchOne(c, t[0]).value, MatchTemplate(c.rest, t[1..]))
  }

  function Prepend(v: seq<Value>, r: Option<seq<Value>>): Option<seq<Value>> {
    if r.None? then None else Some(v + r.value)
  }

  lemma PrependTwice(a: seq<Value>, b: seq<Value>, r: Option<seq<Value>>)
    ensures Prepend(a, Prepend(b, r)) == Prepend(a + b, r)
  {
    if r.Some? {
      assert a + (b + r.value) == a + b + r.value;
    }
  }

  /** The loop that takes key pushes, appending them to the solutions. */
  method TakeAllKeys(c0: Cursor, solutions0: seq<Value>) returns (solutions: seq<Value>, c: Cursor)
    ensures solutions == solutions0 + TakeKeys(c0).0 && c == TakeKeys(c0).1
  {
    c, solutions := c0, solutions0;
    ghost var taken: seq<Value> := [];
    assert [] + TakeKeys(c).0 == TakeKeys(c).0;
    while KeySized(c.data)
      invariant solutions == solutions0 + taken
      invariant TakeKeys(c0) == (taken + TakeKeys(c).0, TakeKeys(c).1)
      decreases |c.rest|, |c.data|
    {
      assert taken + ([c.data] + TakeKeys(Next(c.rest)).0) == taken + [c.data] + TakeKeys(Next(c.rest)).0;
      taken := taken + [c.data];
      solutions := solutions + [c.data];
      c := Next(c.rest);
    }
  }

  /** The comparison loop with its two cursors. */
  method Compare(script1: Script, script2: Script) returns (r: Option<seq<Value>>)
    requires IsTemplate(script2)
    ensures r == MatchTemplate(script1, script2)
  {
    var s, t, solutions: seq<Value> := script1, script2, [];
    assert MatchTemplate(s, t) == Prepend([], MatchTemplate(s, t)) by {
      if MatchTemplate(s, t).Some? {
        assert [] + MatchTemplate(s, t).value == MatchTemplate(s, t).value;
      }
    }
    while !(s == [] && t == [])
      invariant IsTemplate(t)
      invariant MatchTemplate(script1, script2) == Prepend(solutions, MatchTemplate(s, t))
      decreases |t|
    {
      if ParseOp(s).None? || t == [] {
        return None;
      }
      var c, op2 := Next(s), t[0];
      if op2 == OP_PUBKEYS {
        if |t| == 1 {
          return None;
        }
        ghost var keys := TakeKeys(c).0;
        ghost var solutions0 := solutions;
        solutions, c := TakeAllKeys(c, solutions);
        op2 := t[1];
        t := t[2..];
        if MatchOne(c, op2).Some? {
          PrependTwice(solutions0, keys, Prepend(MatchOne(c, op2).value, MatchTemplate(c.rest, t)));
        }
      } else {
        t := t[1..];
      }
      var one := MatchOne(c, op2);
      if one.None? {
        return None;
      }
      s := c.rest;
      PrependTwice(solutions, one.value, MatchTemplate(s, t));
      solutions := solutions + one.value;
    }
    assert solutions + [] == solutions;
    r := Some(solutions);
  }

  /** The source's Solver: the type and the data the script carries; NonStandard where it returns false. */
  function Solve(s: Script): (TxOutType, seq<Value>) {
    if IsPayToScriptHash(s) then (ScriptHash, [s[2..22]])
    else if MatchTemplate(s, PUBKEY_TEMPLATE).Some? then (PubKey, MatchTemplate(s, PUBKEY_TEMPLATE).value)
    else if MatchTemplate(s, PUBKEYHASH_TEMPLATE).Some? then (PubKeyHash, MatchTemplate(s, PUBKEYHASH_TEMPLATE).value)
    else
      match MatchTemplate(s, MULTISIG_TEMPLATE)
      case None => (NonStandard, [])
      case Some(v) => if MultisigCountsOk(v) then (MultiSig, v) else (NonStandard, [])
  }

  /** The first and last solutions are the small integers m and n. */
  predicate MultisigCountsOk(v: seq<Value>) {
    && |v| >= 2 && |v[0]| == 1 && |v[|v| - 1]| == 1
    && 1 <= v[0][0] <= v[|v| - 1][0] && |v| - 2 == v[|v| - 1][0]
  }

  /** The type and the data of the template that matches, whether or not the counts of a multisig script are right. */
  function Recognised(s: Script): (TxOutType, seq<Value>) {
    if Solve(s).0 == NonStandard && MatchTemplate(s, MULTISIG_TEMPLATE).Some? then
      (MultiSig, MatchTemplate(s, MULTISIG_TEMPLATE).value)
    else Solve(s)
  }

  /** The type and the solutions stay set when the counts are wrong and the result is false. */
  method Solver(scriptPubKey: Script) returns (ok: bool, whichType: TxOutType, solutions: seq<Value>)
    ensures ok <==> Solve(scriptPubKey).0 != NonStandard
    ensures ok ==> (whichType, solutions) == Solve(scriptPubKey)
    ensures (whichType, solutions) == Recognised(scriptPubKey)
  {
    if IsPayToScriptHash(scriptPubKey) {
      return true, ScriptHash, [scriptPubKey[2..22]];
    }
    var templates := [(PubKey, PUBKEY_TEMPLATE), (PubKeyHash, PUBKEYHASH_TEMPLATE), (MultiSig, MULTISIG_TEMPLATE)];
    for i := 0 to |templates|
      invariant i > 0 ==> MatchTemplate(scriptPubKey, PUBKEY_TEMPLATE).None?
      invariant i > 1 ==> MatchTemplate(scriptPubKey, PUBKEYHASH_TEMPLATE).None?
      invariant i > 2 ==> MatchTemplate(scriptPubKey, MULTISIG_TEMPLATE).None?
    {
      var (tplate, script2) := templates[i];
      var found := Compare(scriptPubKey, script2);
      if found.Some? {
        ok := tplate != MultiSig || MultisigCountsOk(found.value);
        return ok, tplate, found.value;
      }
    }
    return false, NonStandard, [];
  }

  // What matching means

  lemma PrependNothing(r: Option<seq<Value>>)
    ensures Prepend([], r) == r
  {
    if r.Some? {
      assert [] + r.value == r.value;
    }
  }

  /** A template opcode that stands for itself. */
  lemma PlainOpcode(s: Script, op: Byte, t: Script)
    requires OP_NOP <= op < OP_SMALLINTEGER
    ensures MatchTemplate(s, [op] + t) == if s != [] && s[0] == op then MatchTemplate(s[1..], t) else None
  {
    assert ([op] + t)[1..] == t;
    if s != [] && s[0] == op {
      PrependNothing(MatchTemplate(s[1..], t));
    }
  }

  lemma Ended(s: Script)
    ensures MatchTemplate(s, []) == if s == [] then Some([]) else None
  {
  }

  /** The rest of a template that consists of two plain opcodes. */
  lemma TwoOpcodes(s: Script, a: Byte, b: Byte)
    requires OP_NOP <= a < OP_SMALLINTEGER && OP_NOP <= b < OP_SMALLINTEGER
    ensures MatchTemplate(s, [a, b]) == if s == [a, b] then Some([]) else None
  {
    assert [a, b] == [a] + [b] && [b] == [b] + [];
    PlainOpcode(s, a, [b]);
    if s != [] {
      PlainOpcode(s[1..], b, []);
      if |s| > 1 {
        Ended(s[1..][1..]);
        assert s == [s[0], s[1]] + s[2..];
      }
    }
  }

  lemma OneOpcode(s: Script, a: Byte)
    requires OP_NOP <= a < OP_SMALLINTEGER
    ensures MatchTemplate(s, [a]) == if s == [a] then Some([]) else None
  {
    assert [a] == [a] + [];
    PlainOpcode(s, a, []);
    if s != [] {
      Ended(s[1..]);
      assert s == [s[0]] + s[1..];
    }
  }

  /** A template opcode that stands for some data or number. */
  lemma ParameterOpcode(s: Script, op: Byte, t: Script)
    requires op == OP_PUBKEY || op == OP_PUBKEYHASH || op == OP_SMALLINTEGER
    ensures MatchTemplate(s, [op] + t) ==
      if ParseOp(s).Some? && MatchOne(Next(s), op).Some?
      then Prepend(MatchOne(Next(s), op).value, MatchTemplate(Next(s).rest, t)) else None
  {
    assert ([op] + t)[1..] == t;
  }

  lemma PrependToNothing(v: seq<Value>)
    ensures Prepend(v, Some([])) == Some(v)
  {
    assert v + [] == v;
  }

  lemma PubKeyMatches(s: Script)
    ensures MatchTemplate(s, PUBKEY_TEMPLATE) ==
      if ParseOp(s).Some? && IsPubKeyScript(s, ParseOp(s).value.data) then Some([ParseOp(s).value.data]) else None
  {
    hide MatchTemplate;
    assert PUBKEY_TEMPLATE == [OP_PUBKEY] + [OP_CHECKSIG];
    ParameterOpcode(s, OP_PUBKEY, [OP_CHECKSIG]);
    if ParseOp(s).Some? {
      OneOpcode(s[ParseOp(s).value.len..], OP_CHECKSIG);
      PrependToNothing([ParseOp(s).value.data]);
    }
  }

  lemma HashMatches(s: Script)
    ensures MatchTemplate(s, [OP_PUBKEYHASH, OP_EQUALVERIFY, OP_CHECKSIG]) ==
      if ParseOp(s).Some? && |ParseOp(s).value.data| == 20 && s[ParseOp(s).value.len..] == [OP_EQUALVERIFY, OP_CHECKSIG]
      then Some([ParseOp(s).value.data]) else None
  {
    hide MatchTemplate;
    assert [OP_PUBKEYHASH, OP_EQUALVERIFY, OP_CHECKSIG] == [OP_PUBKEYHASH] + [OP_EQUALVERIFY, OP_CHECKSIG];
    ParameterOpcode(s, OP_PUBKEYHASH, [OP_EQUALVERIFY, OP_CHECKSIG]);
    if ParseOp(s).Some? {
      TwoOpcodes(s[ParseOp(s).value.len..], OP_EQUALVERIFY, OP_CHECKSIG);
      PrependToNothing([ParseOp(s).value.data]);
    }
  }

  lemma PubKeyHashMatches(s: Script)
    ensures MatchTemplate(s, PUBKEYHASH_TEMPLATE) ==
      if |s| > 2 && ParseOp(s[2..]).Some? && IsPubKeyHashScript(s, ParseOp(s[2..]).value.data)
      then Some([ParseOp(s[2..]).value.data]) else None
  {
    hide MatchTemplate, ParseOp;
    var t2: Script := [OP_PUBKEYHASH, OP_EQUALVERIFY, OP_CHECKSIG];
    assert PUBKEYHASH_TEMPLATE == [OP_DUP] + ([OP_HASH160] + t2);
    PlainOpcode(s, OP_DUP, [OP_HASH160] + t2);
    if s != [] {
      PlainOpcode(s[1..], OP_HASH160, t2);
      if |s| > 1 {
        assert s[1..][1..] == s[2..];
        HashMatches(s[2..]);
        if |s| == 2 {
          NothingToParse();
        }
      }
    }
  }

  lemma NothingToParse()
    ensures ParseOp([]).None?
  {
  }

  /** The keys taken are exactly the key-sized pushes in front. */
  lemma {:induction false} TakenKeys(s: Script) returns (rest: Script)
    ensures PushesKeys(s, TakeKeys(Next(s)).0, rest) && TakeKeys(Next(s)).1 == Next(rest)
    ensures !KeySized(Next(rest).data)
    decreases |s|
  {
    if !KeySized(Next(s).data) {
      rest := s;
    } else {
      rest := TakenKeys(s[ParseOp(s).value.len..]);
    }
  }

  lemma {:induction false} KeysAreTaken(s: Script, keys: seq<Value>, rest: Script)
    requires PushesKeys(s, keys, rest) && !KeySized(Next(rest).data)
    ensures TakeKeys(Next(s)) == (keys, Next(rest))
    decreases |keys|
  {
    if keys != [] {
      KeysAreTaken(s[ParseOp(s).value.len..], keys[1..], rest);
      assert [keys[0]] + keys[1..] == keys;
    }
  }

  /** Opcodes that push a number from 0 to 16. */
  predicate IsSmall(op: Byte) {
    op == OP_0 || OP_1 <= op <= OP_16
  }

  lemma SmallOpcode(s: Script)
    ensures s != [] && IsSmall(s[0]) ==> Next(s) == Cursor(s[0], [], s[1..])
    ensures IsSmall(Next(s).op) ==> s != [] && Next(s).op == s[0]
    ensures s != [] && IsSmall(s[0]) ==> ParseOp(s).Some?
  {
  }

  lemma KeysOpcode(s: Script, op: Byte, t: Script)
    ensures MatchTemplate(s, [OP_PUBKEYS, op] + t) ==
      var (keys, c) := TakeKeys(Next(s));
      if ParseOp(s).Some? && MatchOne(c, op).Some?
      then Prepend(keys, Prepend(MatchOne(c, op).value, MatchTemplate(c.rest, t))) else None
  {
    assert ([OP_PUBKEYS, op] + t)[2..] == t;
  }

  /** From the keys of a multisig script on. */
  lemma KeysMatch(s: Script, tail: Script)
    requires TakeKeys(Next(s)).1 == Next(tail)
    ensures MatchTemplate(s, [OP_PUBKEYS, OP_SMALLINTEGER, OP_CHECKMULTISIG]) ==
      if s != [] && ParseOp(s).Some? && |tail| == 2 && IsSmall(tail[0]) && tail[1] == OP_CHECKMULTISIG
      then Some(TakeKeys(Next(s)).0 + [[DecodeOP_N(tail[0])]]) else None
  {
    hide MatchTemplate, ParseOp, TakeKeys;
    assert [OP_PUBKEYS, OP_SMALLINTEGER, OP_CHECKMULTISIG] == [OP_PUBKEYS, OP_SMALLINTEGER] + [OP_CHECKMULTISIG];
    KeysOpcode(s, OP_SMALLINTEGER, [OP_CHECKMULTISIG]);
    SmallOpcode(tail);
    if tail != [] && IsSmall(tail[0]) {
      OneOpcode(tail[1..], OP_CHECKMULTISIG);
      PrependToNothing([[DecodeOP_N(tail[0])]]);
      assert tail[1..] == [OP_CHECKMULTISIG] <==> |tail| == 2 && tail[1] == OP_CHECKMULTISIG;
    }
  }

  lemma MultisigMatches(s: Script) returns (keys: seq<Value>, tail: Script)
    ensures MatchTemplate(s, MULTISIG_TEMPLATE) ==
      if && s != [] && IsSmall(s[0]) && ParseOp(s[1..]).Some?
         && PushesKeys(s[1..], keys, tail) && |tail| == 2 && IsSmall(tail[0]) && tail[1] == OP_CHECKMULTISIG
      then Some([[DecodeOP_N(s[0])]] + (keys + [[DecodeOP_N(tail[0])]])) else None
    ensures s != [] ==> PushesKeys(s[1..], keys, tail) && (keys, Next(tail)) == TakeKeys(Next(s[1..]))
  {
    hide MatchTemplate, ParseOp, TakeKeys;
    var t1: Script := [OP_PUBKEYS, OP_SMALLINTEGER, OP_CHECKMULTISIG];
    assert MULTISIG_TEMPLATE == [OP_SMALLINTEGER] + t1;
    ParameterOpcode(s, OP_SMALLINTEGER, t1);
    SmallOpcode(s);
    keys, tail := [], [];
    if s == [] {
      NothingToParse();
    } else {
      keys := TakeKeys(Next(s[1..])).0;
      tail := TakenKeys(s[1..]);
      KeysMatch(s[1..], tail);
      if s[1..] == [] {
        NothingToParse();
      }
    }
  }

  // The types the source's Solver reports are the forms above

  lemma NotPubKey(s: Script)
    requires s != [] && s[0] > OP_PUSHDATA4
    ensures MatchTemplate(s, PUBKEY_TEMPLATE).None?
  {
    PubKeyMatches(s);
  }

  lemma PubKeySolved(s: Script, key: Value)
    ensures Solve(s) == (PubKey, [key]) <==> IsPubKeyScript(s, key)
  {
    PubKeyMatches(s);
    hide MatchTemplate;
    if IsPubKeyScript(s, key) {
      assert s[0] <= OP_PUSHDATA4;
    }
  }

  lemma PubKeyHashSolved(s: Script, id: Value)
    ensures Solve(s) == (PubKeyHash, [id]) <==> IsPubKeyHashScript(s, id)
  {
    PubKeyHashMatches(s);
    hide MatchTemplate;
    if IsPubKeyHashScript(s, id) {
      NotPubKey(s);
    }
  }

  lemma MultisigSolved(s: Script, m: nat, keys: seq<Value>)
    requires m < 0x100 && |keys| < 0x100
    ensures Solve(s) == (MultiSig, [[m]] + (keys + [[|keys|]])) <==> IsMultisigScript(s, m, keys)
  {
    var taken, tail := MultisigMatches(s);
    hide MatchTemplate, TakeKeys;
    if IsMultisigScript(s, m, keys) {
      assert s[0] == OP_1 + m - 1;
      NotPubKey(s);
      PubKeyHashMatches(s);
      var rest: Script := [EncodeOP_N(|keys|), OP_CHECKMULTISIG];
      KeysAreTaken(s[1..], keys, rest);
      SmallOpcode(rest);
      SmallOpcode(tail);
      assert rest[1..] == [OP_CHECKMULTISIG];
      assert taken == keys && Next(tail) == Next(rest);
      assert tail[0] == rest[0] && tail[1..] == rest[1..];
      assert tail[1] == tail[1..][0] && |tail| == 2;
      assert ParseOp(s[1..]).Some?;
      MultisigSolutions([m], keys, [|keys|]);
      assert MatchTemplate(s, MULTISIG_TEMPLATE) == Some([[m]] + (keys + [[|keys|]]));
    }
    if Solve(s) == (MultiSig, [[m]] + (keys + [[|keys|]])) {
      MultisigSolutions([DecodeOP_N(s[0])], taken, [DecodeOP_N(tail[0])]);
      MultisigSolutions([m], keys, [|keys|]);
      assert tail == [tail[0], tail[1]];
    }
  }

  lemma MultisigSolutions(m: Value, keys: seq<Value>, n: Value)
    ensures var v := [m] + (keys + [n]); v[0] == m && v[|v| - 1] == n && v[1..|v| - 1] == keys && |v| == |keys| + 2
  {
  }

  /** A multisig verdict always comes with m, the keys and their count. */
  lemma MultisigVerdict(s: Script) returns (m: nat, keys: seq<Value>)
    requires Solve(s).0 == MultiSig
    ensures m < 0x100 && |keys| < 0x100 && Solve(s).1 == [[m]] + (keys + [[|keys|]]) && IsMultisigScript(s, m, keys)
  {
    var taken, tail := MultisigMatches(s);
    keys := taken;
    m := DecodeOP_N(s[0]);
    MultisigSolutions([m], keys, [DecodeOP_N(tail[0])]);
    MultisigSolved(s, m, keys);
  }

  /** With wrong counts there are still two small integers around the keys, which is all that merging signatures needs. */
  lemma RecognisedMultisig(s: Script)
    requires Recognised(s).0 == MultiSig
    ensures var v := Recognised(s).1; |v| >= 2 && |v[0]| == 1 && |v[|v| - 1]| == 1
  {
    var keys, tail := MultisigMatches(s);
    hide MatchTemplate;
    if Solve(s).0 == NonStandard {
      MultisigSolutions([DecodeOP_N(s[0])], keys, [DecodeOP_N(tail[0])]);
    }
  }
}
