/** The stack machine (src/script.cpp, EvalScript). */
module Interpreter {
  import opened Wrappers
  import opened Bytes
  import opened Bignum
  import opened ScriptCode
  import opened Multisig


  const OP_NOP := 0x61
  const OP_IF := 0x63
  const OP_NOTIF := 0x64
  const OP_ELSE := 0x67
  const OP_ENDIF := 0x68
  const OP_VERIFY := 0x69
  const OP_TOALTSTACK := 0x6b
  const OP_FROMALTSTACK := 0x6c
  const OP_DUP := 0x76
  const OP_EQUALVERIFY := 0x88
  const OP_CODESEPARATOR := 0xab
  const OP_CHECKSIG := 0xac
  const OP_CHECKSIGVERIFY := 0xad
  const OP_CHECKMULTISIG := 0xae
  const OP_CHECKMULTISIGVERIFY := 0xaf
  const OP_NOP1 := 0xb0
  const OP_NOP10 := 0xb9

  const MAX_SCRIPT_SIZE := 10000
  const MAX_ELEMENT_SIZE := 520
  const MAX_OPS := 201
  const MAX_STACK := 1000

  /** Hash functions, and CheckSig for the transaction being verified, with the script code as third argument. */
  datatype Env = Env(
    ripemd160: Value -> Bytes20,
    sha1: Value -> Bytes20,
    sha256: Value -> Bytes32,
    hash160: Value -> Bytes20,
    hash256: Value -> Bytes32,
    checkSig: (Value, Value, Script) -> bool)

  /** exec is vfExec, code the script from the last code separator on. The top of a stack is its last element. */
  datatype State = State(stack: seq<Value>, alt: seq<Value>, exec: seq<bool>, opCount: nat, code: Script)

  // Values

  const VCH_FALSE: Value := []
  const VCH_TRUE: Value := [1]

  function BoolVch(b: bool): Value {
    if b then VCH_TRUE else VCH_FALSE
  }

  /** Some byte is nonzero, a sign bit alone at the end not counting. */
  predicate IsTrue(v: Value) {
    exists i | 0 <= i < |v| :: v[i] != 0 && !(i == |v| - 1 && v[i] == 0x80)
  }

  method CastToBool(v: Value) returns (r: bool)
    ensures r <==> IsTrue(v)
  {
    for i := 0 to |v|
      invariant forall j | 0 <= j < i :: v[j] == 0
    {
      if v[i] != 0 {
        return !(i == |v| - 1 && v[i] == 0x80);
      }
    }
    r := false;
  }

  lemma {:induction false} ZeroBytes(v: seq<Byte>)
    ensures FromLittleEndian(v) == 0 <==> forall i | 0 <= i < |v| :: v[i] == 0
  {
    if v != [] {
      ZeroBytes(v[1..]);
      assert forall i | 0 <= i < |v| :: v[i] == if i == 0 then v[0] else v[1..][i - 1];
    }
  }

  /** A value is true exactly if the number it encodes is not zero; negative zero is false. */
  lemma TrueMeansNonzero(v: Value)
    ensures IsTrue(v) <==> SetVch(v) != 0
  {
    if v != [] {
      var init, last := v[..|v| - 1], v[|v| - 1];
      if last >= 0x80 {
        var m := init + [last - 0x80];
        ZeroBytes(m);
        assert m[|v| - 1] == last - 0x80 && forall i | 0 <= i < |v| - 1 :: m[i] == v[i];
      } else {
        ZeroBytes(v);
      }
    }
  }

  /** CastToBigNum: numbers are read from at most four bytes. */
  function Num(v: Value): Option<int> {
    if |v| > 4 then None else Some(SetVch(v))
  }

  // Instructions that only touch the main stack

  function Top(stack: seq<Value>, i: nat): Value
    requires 1 <= i <= |stack|
  {
    stack[|stack| - i]
  }

  function Pop(stack: seq<Value>, n: nat): seq<Value>
    requires n <= |stack|
  {
    stack[..|stack| - n]
  }

  /** OP_2DROP to OP_TUCK, which do not change any element. */
  function Shuffle(op: Byte, s: seq<Value>): Option<seq<Value>> {
    var n := |s|;
    match op
    case 0x6d /* 2DROP */ => if n < 2 then None else Some(Pop(s, 2))
    case 0x6e /* 2DUP */  => if n < 2 then None else Some(s + [Top(s, 2), Top(s, 1)])
    case 0x6f /* 3DUP */  => if n < 3 then None else Some(s + [Top(s, 3), Top(s, 2), Top(s, 1)])
    case 0x70 /* 2OVER */ => if n < 4 then None else Some(s + [Top(s, 4), Top(s, 3)])
    case 0x71 /* 2ROT */  => if n < 6 then None
                             else Some(Pop(s, 6) + [Top(s, 4), Top(s, 3), Top(s, 2), Top(s, 1), Top(s, 6), Top(s, 5)])
    case 0x72 /* 2SWAP */ => if n < 4 then None else Some(Pop(s, 4) + [Top(s, 2), Top(s, 1), Top(s, 4), Top(s, 3)])
    case 0x73 /* IFDUP */ => if n < 1 then None else Some(if IsTrue(Top(s, 1)) then s + [Top(s, 1)] else s)
    case 0x75 /* DROP */  => if n < 1 then None else Some(Pop(s, 1))
    case 0x76 /* DUP */   => if n < 1 then None else Some(s + [Top(s, 1)])
    case 0x77 /* NIP */   => if n < 2 then None else Some(Pop(s, 2) + [Top(s, 1)])
    case 0x78 /* OVER */  => if n < 2 then None else Some(s + [Top(s, 2)])
    case 0x79 /* PICK */  => PickOrRoll(false, s)
    case 0x7a /* ROLL */  => PickOrRoll(true, s)
    case 0x7b /* ROT */   => if n < 3 then None else Some(Pop(s, 3) + [Top(s, 2), Top(s, 1), Top(s, 3)])
    case 0x7c /* SWAP */  => if n < 2 then None else Some(Pop(s, 2) + [Top(s, 1), Top(s, 2)])
    case 0x7d /* TUCK */  => if n < 2 then None else Some(Pop(s, 2) + [Top(s, 1), Top(s, 2), Top(s, 1)])
    case _ => None
  }

  function PickOrRoll(roll: bool, s: seq<Value>): Option<seq<Value>> {
    if |s| < 2 || Num(Top(s, 1)).None? then None
    else
      var n, t := Num(Top(s, 1)).value, Pop(s, 1);
      if n < 0 || n >= |t| then None
      else
        var v := Top(t, n + 1);
        Some((if roll then t[..|t| - n - 1] + t[|t| - n..] else t) + [v])
  }

  /** One number in, one number out. */
  function Unary(op: Byte, x: int): Option<int> {
    match op
    case 0x8b /* 1ADD */ => Some(x + 1)
    case 0x8c /* 1SUB */ => Some(x - 1)
    case 0x8f /* NEGATE */ => Some(-x)
    case 0x90 /* ABS */ => Some(if x < 0 then -x else x)
    case 0x91 /* NOT */ => Some(if x == 0 then 1 else 0)
    case 0x92 /* 0NOTEQUAL */ => Some(if x != 0 then 1 else 0)
    case _ => None
  }

  function BoolNum(b: bool): int {
    if b then 1 else 0
  }

  /** Two numbers in, one number out; OP_NUMEQUALVERIFY is handled like OP_NUMEQUAL first. */
  function Binary(op: Byte, x: int, y: int): Option<int> {
    match op
    case 0x93 /* ADD */ => Some(x + y)
    case 0x94 /* SUB */ => Some(x - y)
    case 0x9a /* BOOLAND */ => Some(BoolNum(x != 0 && y != 0))
    case 0x9b /* BOOLOR */ => Some(BoolNum(x != 0 || y != 0))
    case 0x9c /* NUMEQUAL */ => Some(BoolNum(x == y))
    case 0x9d /* NUMEQUALVERIFY */ => Some(BoolNum(x == y))
    case 0x9e /* NUMNOTEQUAL */ => Some(BoolNum(x != y))
    case 0x9f /* LESSTHAN */ => Some(BoolNum(x < y))
    case 0xa0 /* GREATERTHAN */ => Some(BoolNum(x > y))
    case 0xa1 /* LESSTHANOREQUAL */ => Some(BoolNum(x <= y))
    case 0xa2 /* GREATERTHANOREQUAL */ => Some(BoolNum(x >= y))
    case 0xa3 /* MIN */ => Some(if x < y then x else y)
    case 0xa4 /* MAX */ => Some(if x > y then x else y)
    case _ => None
  }

  /** What the ...VERIFY variants do once their result is on the stack. */
  function Verify(s: seq<Value>): Option<seq<Value>> {
    if s == [] || !IsTrue(Top(s, 1)) then None else Some(Pop(s, 1))
  }

  function Arithmetic(op: Byte, s: seq<Value>): Option<seq<Value>> {
    if op <= 0x92 then
      if |s| < 1 || Num(Top(s, 1)).None? then None
      else
        match Unary(op, Num(Top(s, 1)).value)
        case None => None
        case Some(x) => Some(Pop(s, 1) + [GetVch(x)])
    else if op <= 0xa4 then
      if |s| < 2 || Num(Top(s, 2)).None? || Num(Top(s, 1)).None? then None
      else
        match Binary(op, Num(Top(s, 2)).value, Num(Top(s, 1)).value)
        case None => None
        case Some(x) =>
          var t := Pop(s, 2) + [GetVch(x)];
          if op == 0x9d then Verify(t) else Some(t)
    else
      // OP_WITHIN
      if |s| < 3 || Num(Top(s, 3)).None? || Num(Top(s, 2)).None? || Num(Top(s, 1)).None? then None
      else
        var x, lo, hi := Num(Top(s, 3)).value, Num(Top(s, 2)).value, Num(Top(s, 1)).value;
        Some(Pop(s, 3) + [BoolVch(lo <= x < hi)])
  }

  function Hash(env: Env, op: Byte, v: Value): Value {
    if op == 0xa6 then env.ripemd160(v)
    else if op == 0xa7 then env.sha1(v)
    else if op == 0xa8 then env.sha256(v)
    else if op == 0xa9 then env.hash160(v)
    else env.hash256(v)
  }

  function StackOp(env: Env, op: Byte, s: seq<Value>): Option<seq<Value>> {
    if op == OP_1NEGATE || OP_1 <= op <= OP_16 then Some(s + [GetVch(op - (OP_1 - 1))])
    else if op == OP_NOP || OP_NOP1 <= op <= OP_NOP10 then Some(s)
    else if op == OP_VERIFY then Verify(s)
    else if op == 0x74 /* DEPTH */ then Some(s + [GetVch(|s|)])
    else if 0x6d <= op <= 0x7d then Shuffle(op, s)
    else if op == 0x82 /* SIZE */ then if |s| < 1 then None else Some(s + [GetVch(|Top(s, 1)|)])
    else if op == OP_EQUAL || op == OP_EQUALVERIFY then
      if |s| < 2 then None
      else
        var t := Pop(s, 2) + [BoolVch(Top(s, 2) == Top(s, 1))];
        if op == OP_EQUALVERIFY then Verify(t) else Some(t)
    else if 0x8b <= op <= 0xa5 then Arithmetic(op, s)
    else if 0xa6 <= op <= 0xaa then if |s| < 1 then None else Some(Pop(s, 1) + [Hash(env, op, Top(s, 1))])
    else None
  }

  // Signature checks

  /** Drop the signature from the script it signs. */
  function Drop(code: Script, sig: Value): Script {
    Deleted(code, PushBytes(sig)).0
  }

  function DropAll(code: Script, sigs: seq<Value>): Script
    decreases |sigs|
  {
    if sigs == [] then code else DropAll(Drop(code, sigs[0]), sigs[1..])
  }

  function CheckSigOp(env: Env, s: seq<Value>, code: Script): Option<seq<Value>> {
    if |s| < 2 then None
    else
      var sig, key := Top(s, 2), Top(s, 1);
      Some(Pop(s, 2) + [BoolVch(env.checkSig(sig, key, Drop(code, sig)))])
  }

  /** The n elements from the i-th from the top downward, the upper one first. */
  function Down(s: seq<Value>, i: nat, n: nat): (r: seq<Value>)
    requires i >= 1 && i + n <= |s| + 1
    ensures |r| == n && forall k | 0 <= k < n :: r[k] == Top(s, i + k)
    decreases n
  {
    if n == 0 then [] else [Top(s, i)] + Down(s, i + 1, n - 1)
  }

  /** The counts of keys and signatures, if the stack holds such an argument list. */
  function MultisigCounts(s: seq<Value>, opCount: nat): Option<(nat, nat)> {
    if |s| < 1 || Num(Top(s, 1)).None? then None
    else
      var nKeys := Num(Top(s, 1)).value;
      if nKeys < 0 || nKeys > 20 || opCount + nKeys > MAX_OPS || |s| < 2 + nKeys || Num(Top(s, 2 + nKeys)).None? then None
      else
        var nSigs := Num(Top(s, 2 + nKeys)).value;
        if nSigs < 0 || nSigs > nKeys || |s| < 3 + nKeys + nSigs then None
        else Some((nKeys, nSigs))
  }

  function CheckWith(env: Env, code: Script): (Value, Value) -> bool {
    (sig, key) => env.checkSig(sig, key, code)
  }

  /** True if the signatures can be matched to keys in order; keys, signatures and three more items are popped. */
  ghost function MultisigOp(env: Env, s: seq<Value>, opCount: nat, code: Script): Option<(seq<Value>, nat)> {
    match MultisigCounts(s, opCount)
    case None => None
    case Some((nKeys, nSigs)) =>
      var keys, sigs := Down(s, 2, nKeys), Down(s, 3 + nKeys, nSigs);
      var valid := CheckWith(env, DropAll(code, sigs));
      Some((Pop(s, nKeys + nSigs + 3) + [BoolVch(Assignable(valid, sigs, keys))], opCount + nKeys))
  }

  method OpCheckMultisig(env: Env, s: seq<Value>, opCount: nat, code: Script) returns (r: Option<(seq<Value>, nat)>)
    ensures r == MultisigOp(env, s, opCount, code)
  {
    var counts := MultisigCounts(s, opCount);
    if counts.None? {
      return None;
    }
    var (nKeys, nSigs) := counts.value;
    var keys, sigs := Down(s, 2, nKeys), Down(s, 3 + nKeys, nSigs);
    var scriptCode := code;
    for k := 0 to |sigs|
      invariant DropAll(code, sigs) == DropAll(scriptCode, sigs[k..])
    {
      assert sigs[k..][1..] == sigs[k + 1..];
      var nFound;
      scriptCode, nFound := FindAndDelete(scriptCode, PushBytes(sigs[k]));
    }
    assert scriptCode == DropAll(code, sigs);
    var fSuccess := MatchSignatures(CheckWith(env, scriptCode), sigs, keys);
    var i, t := nKeys + nSigs + 3, s;
    while i > 0
      invariant 0 <= i <= |t| && Pop(t, i) == Pop(s, nKeys + nSigs + 3)
    {
      t, i := t[..|t| - 1], i - 1;
    }
    assert t == Pop(s, nKeys + nSigs + 3);
    r := Some((t + [BoolVch(fSuccess)], opCount + nKeys));
  }

  // The machine

  predicate Disabled(op: Byte) {
    || 0x7e <= op <= 0x81                      // CAT, SUBSTR, LEFT, RIGHT
    || 0x83 <= op <= 0x86                      // INVERT, AND, OR, XOR
    || op == 0x8d || op == 0x8e                // 2MUL, 2DIV
    || 0x95 <= op <= 0x99                      // MUL, DIV, MOD, LSHIFT, RSHIFT
  }

  predicate Running(exec: seq<bool>) {
    forall i | 0 <= i < |exec| :: exec[i]
  }

  /** The instructions that are looked at even in a branch that is not taken. */
  function ControlOp(op: Byte, st: State): Option<State> {
    if op == OP_IF || op == OP_NOTIF then
      if !Running(st.exec) then Some(st.(exec := st.exec + [false]))
      else if |st.stack| < 1 then None
      else Some(st.(stack := Pop(st.stack, 1), exec := st.exec + [IsTrue(Top(st.stack, 1)) == (op == OP_IF)]))
    else if op == OP_ELSE then
      if st.exec == [] then None
      else Some(st.(exec := st.exec[|st.exec| - 1 := !st.exec[|st.exec| - 1]]))
    else if op == OP_ENDIF then
      if st.exec == [] then None else Some(st.(exec := st.exec[..|st.exec| - 1]))
    else None  // OP_VERIF, OP_VERNOTIF
  }

  ghost function Execute(env: Env, op: Byte, after: Script, st: State): Option<State> {
    if op == OP_TOALTSTACK then
      if |st.stack| < 1 then None
      else Some(st.(stack := Pop(st.stack, 1), alt := st.alt + [Top(st.stack, 1)]))
    else if op == OP_FROMALTSTACK then
      if |st.alt| < 1 then None
      else Some(st.(stack := st.stack + [Top(st.alt, 1)], alt := Pop(st.alt, 1)))
    else if op == OP_CODESEPARATOR then Some(st.(code := after))
    else if op == OP_CHECKSIG || op == OP_CHECKSIGVERIFY then
      match CheckSigOp(env, st.stack, st.code)
      case None => None
      case Some(s) => Finish(op == OP_CHECKSIGVERIFY, s, st)
    else if op == OP_CHECKMULTISIG || op == OP_CHECKMULTISIGVERIFY then
      match MultisigOp(env, st.stack, st.opCount, st.code)
      case None => None
      case Some((s, n)) => Finish(op == OP_CHECKMULTISIGVERIFY, s, st.(opCount := n))
    else Finish'(StackOp(env, op, st.stack), st)
  }

  function Finish'(s: Option<seq<Value>>, st: State): Option<State> {
    if s.None? then None else Some(st.(stack := s.value))
  }

  function Finish(verify: bool, s: seq<Value>, st: State): Option<State> {
    Finish'(if verify then Verify(s) else Some(s), st)
  }

  function CountOp(op: Byte, n: nat): nat {
    if op > OP_16 then n + 1 else n
  }

  /** One round of the loop; after is the script behind the instruction. */
  ghost function Step(env: Env, i: Instr, after: Script, st: State): Option<State> {
    var st' := st.(opCount := CountOp(i.op, st.opCount));
    if |i.data| > MAX_ELEMENT_SIZE || (i.op > OP_16 && st'.opCount > MAX_OPS) || Disabled(i.op) then None
    else
      var r :=
        if i.op <= OP_PUSHDATA4 then Some(if Running(st.exec) then st'.(stack := st.stack + [i.data]) else st')
        else if OP_IF <= i.op <= OP_ENDIF then ControlOp(i.op, st')
        else if Running(st.exec) then Execute(env, i.op, after, st')
        else Some(st');
      if r.None? || |r.value.stack| + |r.value.alt| > MAX_STACK then None else r
  }

  ghost function Run(env: Env, script: Script, st: State): Option<State>
    decreases |script|
  {
    if script == [] then Some(st)
    else
      match ParseOp(script)
      case None => None
      case Some(i) =>
        match Step(env, i, script[i.len..], st)
        case None => None
        case Some(st') => Run(env, script[i.len..], st')
  }

  /** EvalScript: the final stack, or None where the source returns false. */
  ghost function Eval(env: Env, stack: seq<Value>, script: Script): Option<seq<Value>> {
    if |script| > MAX_SCRIPT_SIZE then None
    else
      match Run(env, script, State(stack, [], [], 0, script))
      case None => None
      case Some(st) => if st.exec != [] then None else Some(st.stack)
  }

  method ExecuteOp(env: Env, op: Byte, after: Script, st: State) returns (r: Option<State>)
    ensures r == Execute(env, op, after, st)
  {
    if op == OP_CHECKMULTISIG || op == OP_CHECKMULTISIGVERIFY {
      var m := OpCheckMultisig(env, st.stack, st.opCount, st.code);
      if m.None? {
        return None;
      }
      r := Finish(op == OP_CHECKMULTISIGVERIFY, m.value.0, st.(opCount := m.value.1));
    } else if op == OP_CHECKSIG || op == OP_CHECKSIGVERIFY {
      if |st.stack| < 2 {
        return None;
      }
      var sig, key := Top(st.stack, 2), Top(st.stack, 1);
      var scriptCode, nFound := FindAndDelete(st.code, PushBytes(sig));
      var fSuccess := env.checkSig(sig, key, scriptCode);
      r := Finish(op == OP_CHECKSIGVERIFY, Pop(st.stack, 2) + [BoolVch(fSuccess)], st);
    } else if op == OP_TOALTSTACK {
      r := if |st.stack| < 1 then None
           else Some(st.(stack := Pop(st.stack, 1), alt := st.alt + [Top(st.stack, 1)]));
    } else if op == OP_FROMALTSTACK {
      r := if |st.alt| < 1 then None
           else Some(st.(stack := st.stack + [Top(st.alt, 1)], alt := Pop(st.alt, 1)));
    } else if op == OP_CODESEPARATOR {
      r := Some(st.(code := after));
    } else {
      r := Finish'(StackOp(env, op, st.stack), st);
    }
  }

  /** One round of the loop, for an instruction that has been read. */
  method Round(env: Env, i: Instr, after: Script, st0: State) returns (r: Option<State>)
    ensures r == Step(env, i, after, st0)
  {
    hide Execute, ControlOp;
    var st, opcode := st0, i.op;
    var fExec := Running(st.exec);
    if |i.data| > MAX_ELEMENT_SIZE {
      return None;
    }
    if opcode > OP_16 {
      st := st.(opCount := st.opCount + 1);
      if st.opCount > MAX_OPS {
        return None;
      }
    }
    if Disabled(opcode) {
      return None;
    }
    if fExec && opcode <= OP_PUSHDATA4 {
      st := st.(stack := st.stack + [i.data]);
    } else if OP_IF <= opcode <= OP_ENDIF {
      var control := ControlOp(opcode, st);
      if control.None? {
        return None;
      }
      st := control.value;
    } else if fExec {
      var executed := ExecuteOp(env, opcode, after, st);
      if executed.None? {
        return None;
      }
      st := executed.value;
    }
    if |st.stack| + |st.alt| > MAX_STACK {
      return None;
    }
    r := Some(st);
  }

  /** Returns the resulting stack; the source leaves it in place and returns true. */
  method EvalScript(env: Env, stack: seq<Value>, script: Script) returns (r: Option<seq<Value>>)
    ensures r == Eval(env, stack, script)
  {
    hide Step, ParseOp;
    if |script| > MAX_SCRIPT_SIZE {
      return None;
    }
    var pc := 0;
    var st := State(stack, [], [], 0, script);
    assert script[0..] == script;
    while pc < |script|
      invariant pc <= |script|
      invariant Run(env, script, State(stack, [], [], 0, script)) == Run(env, script[pc..], st)
    {
      var ok, opcode, data, next := GetOp2(script, pc);
      if !ok {
        return None;
      }
      assert script[pc..][next - pc..] == script[next..];
      var after := Round(env, Instr(opcode, data, next - pc), script[next..], st);
      if after.None? {
        return None;
      }
      st, pc := after.value, next;
    }
    r := if st.exec != [] then None else Some(st.stack);
  }

  // Limits

  predicate Bounded(s: seq<Value>) {
    forall i | 0 <= i < |s| :: |s[i]| <= MAX_ELEMENT_SIZE
  }

  predicate WithinLimits(st: State) {
    && Bounded(st.stack) && Bounded(st.alt)
    && |st.stack| + |st.alt| <= MAX_STACK
    && st.opCount <= MAX_OPS
  }

  lemma NumberIsShort(x: int)
    requires -0x100_0000_0000 < x < 0x100_0000_0000
    ensures |GetVch(x)| <= 6
  {
    Pow256Values();
    assert Pow256(5) == 0x100_0000_0000;
    GetVchLength(x, 5);
  }

  lemma NumRange(v: Value)
    requires Num(v).Some?
    ensures -0x1_0000_0000 < Num(v).value < 0x1_0000_0000
  {
    Pow256Values();
    SetVchBound(v);
    assert |v| <= 4 ==> Pow256(|v|) <= 0x1_0000_0000 by {
      assert Pow256(3) == 0x100_0000 && Pow256(2) == 0x1_0000 && Pow256(0) == 1;
    }
  }

  lemma ArithmeticBounded(op: Byte, s: seq<Value>)
    requires Bounded(s) && Arithmetic(op, s).Some?
    ensures Bounded(Arithmetic(op, s).value)
  {
    if op <= 0x92 {
      NumRange(Top(s, 1));
      NumberIsShort(Unary(op, Num(Top(s, 1)).value).value);
    } else if op <= 0xa4 {
      NumRange(Top(s, 1));
      NumRange(Top(s, 2));
      NumberIsShort(Binary(op, Num(Top(s, 2)).value, Num(Top(s, 1)).value).value);
    }
  }

  lemma ShuffleBounded(op: Byte, s: seq<Value>)
    requires Bounded(s) && Shuffle(op, s).Some?
    ensures Bounded(Shuffle(op, s).value)
  {
    if op <= 0x73 {
      PairsBounded(op, s);
    }
  }

  lemma PairsBounded(op: Byte, s: seq<Value>)
    requires Bounded(s) && Shuffle(op, s).Some? && op <= 0x73
    ensures Bounded(Shuffle(op, s).value)
  {
  }

  lemma StackOpBounded(env: Env, op: Byte, s: seq<Value>)
    requires Bounded(s) && |s| <= MAX_STACK && StackOp(env, op, s).Some?
    ensures Bounded(StackOp(env, op, s).value)
  {
    hide Arithmetic, Shuffle;
    if 0x8b <= op <= 0xa5 {
      ArithmeticBounded(op, s);
    } else if 0x6d <= op <= 0x7d && op != 0x74 {
      ShuffleBounded(op, s);
    } else if op == OP_1NEGATE || OP_1 <= op <= OP_16 {
      NumberIsShort(op - (OP_1 - 1));
    } else if op == 0x74 {
      NumberIsShort(|s|);
    } else if op == 0x82 {
      NumberIsShort(|Top(s, 1)|);
    }
  }

  lemma ExecuteBounded(env: Env, op: Byte, after: Script, st: State)
    requires WithinLimits(st) && Execute(env, op, after, st).Some?
    ensures var st' := Execute(env, op, after, st).value;
      Bounded(st'.stack) && Bounded(st'.alt) && st'.opCount <= MAX_OPS && st'.exec == st.exec
  {
    if op == OP_TOALTSTACK || op == OP_FROMALTSTACK || OP_CODESEPARATOR <= op <= OP_CHECKMULTISIGVERIFY {
    } else {
      StackOpBounded(env, op, st.stack);
    }
  }

  /** Each step keeps every element at most 520 bytes, both stacks together at most 1000, and at most 201 operations. */
  lemma StepKeepsLimits(env: Env, i: Instr, after: Script, st: State)
    requires WithinLimits(st) && Step(env, i, after, st).Some?
    ensures WithinLimits(Step(env, i, after, st).value)
  {
    var st' := st.(opCount := CountOp(i.op, st.opCount));
    if OP_PUSHDATA4 < i.op && !(OP_IF <= i.op <= OP_ENDIF) && Running(st.exec) {
      ExecuteBounded(env, i.op, after, st');
    }
  }

  lemma {:induction false} RunKeepsLimits(env: Env, script: Script, st: State)
    requires WithinLimits(st) && Run(env, script, st).Some?
    ensures WithinLimits(Run(env, script, st).value)
    decreases |script|
  {
    hide Step;
    if script != [] {
      var i := ParseOp(script).value;
      StepKeepsLimits(env, i, script[i.len..], st);
      RunKeepsLimits(env, script[i.len..], Step(env, i, script[i.len..], st).value);
    }
  }
}
