/** The byte form of scripts: reading and writing instructions, and deleting one (src/script.h, CScript). */
module ScriptCode {
  import opened Sequences
  import opened Wrappers
  import opened Bytes

  type Script = seq<Byte>

  const OP_0 := 0x00
  const OP_PUSHDATA1 := 0x4c
  const OP_PUSHDATA2 := 0x4d
  const OP_PUSHDATA4 := 0x4e
  const OP_1NEGATE := 0x4f
  const OP_1 := 0x51
  const OP_16 := 0x60
  const OP_HASH160 := 0xa9
  const OP_EQUAL := 0x87

  /** One instruction: its opcode, the data it pushes if it is a push, and the bytes it occupies. */
  datatype Instr = Instr(op: Byte, data: seq<Byte>, len: nat)

  /** GetOp2 at the start of s. */
  function ParseOp(s: Script): (r: Option<Instr>)
    ensures r.Some? ==> 0 < r.value.len <= |s| && r.value.op == s[0] && |r.value.data| < r.value.len
  {
    if s == [] then None
    else if s[0] > OP_PUSHDATA4 then Some(Instr(s[0], [], 1))
    else
      var width := if s[0] < OP_PUSHDATA1 then 0 else if s[0] == OP_PUSHDATA1 then 1 else if s[0] == OP_PUSHDATA2 then 2 else 4;
      if |s| < 1 + width then None
      else
        var size := if s[0] < OP_PUSHDATA1 then s[0] else FromLittleEndian(s[1..1 + width]);
        if |s| < 1 + width + size then None
        else Some(Instr(s[0], s[1 + width..1 + width + size], 1 + width + size))
  }

  /** GetOp2: reads the instruction at pc and advances past it. */
  method GetOp2(script: Script, pc: nat) returns (ok: bool, opcode: Byte, data: seq<Byte>, next: nat)
    requires pc <= |script|
    ensures ok <==> ParseOp(script[pc..]).Some?
    ensures ok ==> pc < next <= |script| && ParseOp(script[pc..]) == Some(Instr(opcode, data, next - pc))
  {
    ok, opcode, data, next := false, 0xff, [], pc;
    ghost var s := script[pc..];
    if |script| - next < 1 {
      return;
    }
    var op := script[next];
    next := next + 1;
    if op <= OP_PUSHDATA4 {
      var size: nat := 0;
      if op < OP_PUSHDATA1 {
        size := op;
      } else if op == OP_PUSHDATA1 {
        if |script| - next < 1 {
          return;
        }
        size := script[next];
        assert s[1..2] == [size] && FromLittleEndian([size][1..]) == 0;
        next := next + 1;
      } else if op == OP_PUSHDATA2 {
        if |script| - next < 2 {
          return;
        }
        size := FromLittleEndian(script[next..next + 2]);
        SliceOfSuffix(script, pc, 1, 3);
        next := next + 2;
      } else {
        if |script| - next < 4 {
          return;
        }
        size := FromLittleEndian(script[next..next + 4]);
        SliceOfSuffix(script, pc, 1, 5);
        next := next + 4;
      }
      if |script| - next < size {
        return;
      }
      data := script[next..next + size];
      SliceOfSuffix(script, pc, next - pc, next - pc + size);
      next := next + size;
    }
    opcode, ok := op, true;
  }

  /** The bytes operator<< appends to push b. The source truncates sizes of 2 to the 32 and more. */
  function PushBytes(b: seq<Byte>): (r: Script)
    ensures r != []
  {
    (if |b| < OP_PUSHDATA1 then [|b|]
     else if |b| <= 0xff then [OP_PUSHDATA1, |b|]
     else if |b| <= 0xffff then [OP_PUSHDATA2] + LittleEndian(|b|, 2)
     else [OP_PUSHDATA4] + LittleEndian(|b|, 4)) + b
  }

  method AppendPush(script: Script, b: seq<Byte>) returns (r: Script)
    ensures r == script + PushBytes(b)
  {
    r := script;
    if |b| < OP_PUSHDATA1 {
      r := r + [|b|];
    } else if |b| <= 0xff {
      r := r + [OP_PUSHDATA1];
      r := r + [|b|];
    } else if |b| <= 0xffff {
      r := r + [OP_PUSHDATA2];
      r := r + LittleEndian(|b|, 2);
    } else {
      r := r + [OP_PUSHDATA4];
      r := r + LittleEndian(|b|, 4);
    }
    r := r + b;
  }

  /** GetOp2 inverts the push encoder in all four length classes, whatever follows. */
  lemma ParsePush(b: seq<Byte>, rest: Script)
    requires |b| < 0x1_0000_0000
    ensures ParseOp(PushBytes(b) + rest) == Some(Instr(PushBytes(b)[0], b, |PushBytes(b)|))
    ensures PushBytes(b)[0] <= OP_PUSHDATA4
  {
    Pow256Values();
    var s := PushBytes(b) + rest;
    if |b| < OP_PUSHDATA1 {
      assert s[1..1 + |b|] == b;
    } else {
      var width := if |b| <= 0xff then 1 else if |b| <= 0xffff then 2 else 4;
      LittleEndianRoundTrip(|b|, width);
      assert s[1..1 + width] == LittleEndian(|b|, width) by {
        if width == 1 {
          assert LittleEndian(|b|, 1) == [|b|];
        }
      }
      assert s[1 + width..1 + width + |b|] == b;
    }
  }

  lemma ParseSingle(op: Byte, rest: Script)
    requires op > OP_PUSHDATA4
    ensures ParseOp([op] + rest) == Some(Instr(op, [], 1))
  {
  }

  /** Reading an instruction looks at no byte behind it. */
  lemma ParsePrefix(s: Script, rest: Script)
    requires ParseOp(s).Some?
    ensures ParseOp(s + rest) == ParseOp(s)
    ensures ParseOp(s[..ParseOp(s).value.len] + rest) == ParseOp(s)
  {
    var i := ParseOp(s).value;
    ParsePrefixOf(s, s + rest);
    ParsePrefixOf(s, s[..i.len] + rest);
  }

  lemma ParsePrefixOf(s: Script, t: Script)
    requires ParseOp(s).Some? && ParseOp(s).value.len <= |t|
    requires t[..ParseOp(s).value.len] == s[..ParseOp(s).value.len]
    ensures ParseOp(t) == ParseOp(s)
  {
    var i := ParseOp(s).value;
    assert forall k | 0 <= k < i.len :: t[k] == t[..i.len][k] && s[k] == s[..i.len][k];
    if s[0] <= OP_PUSHDATA4 {
      var width := if s[0] < OP_PUSHDATA1 then 0 else if s[0] == OP_PUSHDATA1 then 1 else if s[0] == OP_PUSHDATA2 then 2 else 4;
      assert t[1..1 + width] == s[1..1 + width];
      assert t[1 + width..i.len] == s[1 + width..i.len];
    }
  }

  // Whole scripts

  /** The instructions in front, as byte strings, up to the first that cannot be read. */
  function Chunks(s: Script): seq<Script>
    decreases |s|
  {
    match ParseOp(s)
    case None => []
    case Some(i) => [s[..i.len]] + Chunks(s[i.len..])
  }

  /** What is left from there on. */
  function Unparsable(s: Script): Script
    decreases |s|
  {
    match ParseOp(s)
    case None => s
    case Some(i) => Unparsable(s[i.len..])
  }

  function Join(chunks: seq<Script>): Script {
    if chunks == [] then [] else chunks[0] + Join(chunks[1..])
  }

  function Without(chunks: seq<Script>, b: Script): seq<Script> {
    if chunks == [] then []
    else (if chunks[0] == b then [] else [chunks[0]]) + Without(chunks[1..], b)
  }

  function Count(chunks: seq<Script>, b: Script): nat {
    if chunks == [] then 0 else (if chunks[0] == b then 1 else 0) + Count(chunks[1..], b)
  }

  predicate IsOneInstruction(b: Script) {
    ParseOp(b).Some? && ParseOp(b).value.len == |b|
  }

  lemma JoinCons(x: Script, rest: seq<Script>)
    ensures Join([x] + rest) == x + Join(rest)
    ensures ([x] + rest)[1..] == rest
  {
  }

  lemma {:induction false} ChunksOfWhole(s: Script)
    ensures Join(Chunks(s)) + Unparsable(s) == s
    decreases |s|
  {
    hide ParseOp;
    match ParseOp(s) {
      case None =>
        assert Join([]) + s == s;
      case Some(i) =>
        ChunksOfWhole(s[i.len..]);
        JoinCons(s[..i.len], Chunks(s[i.len..]));
        Concat3(s[..i.len], Join(Chunks(s[i.len..])), Unparsable(s));
        assert s[..i.len] + s[i.len..] == s;
    }
  }

  predicate StartsWith(s: Script, b: Script) {
    |b| <= |s| && s[..|b|] == b
  }

  /** What FindAndDelete does to the bytes from a cursor on, pattern by pattern and instruction by instruction. */
  function Deleted(s: Script, b: Script): (r: (Script, nat))
    requires b != []
    decreases |s|
  {
    if StartsWith(s, b) then
      var (t, n) := Deleted(s[|b|..], b);
      (t, n + 1)
    else
      match ParseOp(s)
      case None => (s, 0)
      case Some(i) =>
        var (t, n) := Deleted(s[i.len..], b);
        (s[..i.len] + t, n)
  }

  lemma WithoutCons(x: Script, rest: seq<Script>, b: Script)
    ensures Without([x] + rest, b) == if x == b then Without(rest, b) else [x] + Without(rest, b)
    ensures Count([x] + rest, b) == Count(rest, b) + if x == b then 1 else 0
  {
    assert ([x] + rest)[1..] == rest;
  }

  /**
   * For a pattern that is one whole instruction, deleting is filtering that instruction out of the script;
   * bytes that cannot be read stay.
   */
  lemma {:induction false} DeletedIsFiltered(s: Script, b: Script)
    requires IsOneInstruction(b)
    ensures Deleted(s, b) == (Join(Without(Chunks(s), b)) + Unparsable(s), Count(Chunks(s), b))
    decreases |s|
  {
    if StartsWith(s, b) {
      ParsePrefixOf(b, s);
      hide ParseOp;
      DeletedIsFiltered(s[|b|..], b);
      WithoutCons(b, Chunks(s[|b|..]), b);
    } else if ParseOp(s).Some? {
      hide ParseOp;
      var i := ParseOp(s).value;
      DeletedIsFiltered(s[i.len..], b);
      var first, rest := s[..i.len], Chunks(s[i.len..]);
      WithoutCons(first, rest, b);
      JoinCons(first, Without(rest, b));
      Concat3(first, Join(Without(rest, b)), Unparsable(s));
    } else {
      assert Join(Without([], b)) + s == s;
    }
  }

  /** The result if the cursor stands at pc of r and n copies are gone already. */
  ghost function DeletedFrom(r: Script, pc: nat, n: nat, b: Script): (Script, nat)
    requires b != [] && pc <= |r|
  {
    (r[..pc] + Deleted(r[pc..], b).0, n + Deleted(r[pc..], b).1)
  }

  lemma EraseAt(r: Script, pc: nat, n: nat, b: Script)
    requires b != [] && pc + |b| <= |r| && r[pc..pc + |b|] == b
    ensures DeletedFrom(r, pc, n, b) == DeletedFrom(r[..pc] + r[pc + |b|..], pc, n + 1, b)
  {
    var erased := r[..pc] + r[pc + |b|..];
    SliceOfSuffix(r, pc, 0, |b|);
    SliceOfSuffix(r, pc, |b|, |b|);
    assert erased[..pc] == r[..pc] && erased[pc..] == r[pc + |b|..];
  }

  lemma SkipAt(r: Script, pc: nat, n: nat, b: Script)
    requires b != [] && pc <= |r| && !StartsWith(r[pc..], b) && ParseOp(r[pc..]).Some?
    ensures DeletedFrom(r, pc, n, b) == DeletedFrom(r, pc + ParseOp(r[pc..]).value.len, n, b)
  {
    var len := ParseOp(r[pc..]).value.len;
    SliceOfSuffix(r, pc, len, len);
    Concat3(r[..pc], r[pc..][..len], Deleted(r[pc + len..], b).0);
    assert r[..pc + len] == r[..pc] + r[pc..][..len];
  }

  /** Erases in place at a cursor that otherwise moves from instruction to instruction. */
  method FindAndDelete(script: Script, b: Script) returns (r: Script, nFound: nat)
    ensures b == [] ==> r == script && nFound == 0
    ensures b != [] ==> (r, nFound) == Deleted(script, b)
  {
    r, nFound := script, 0;
    if b == [] {
      return;
    }
    var pc: nat := 0;
    DeletedAtStart(script, b);
    hide ParseOp, Deleting;
    while true
      invariant pc <= |r| && Deleting(script, r, pc, nFound, b)
      decreases |r| - pc
    {
      while |r| - pc >= |b| && r[pc..pc + |b|] == b
        invariant pc <= |r| && Deleting(script, r, pc, nFound, b)
        decreases |r|
      {
        EraseNext(script, r, pc, nFound, b);
        r, nFound := r[..pc] + r[pc + |b|..], nFound + 1;
      }
      var ok, opcode, data, next := GetOp2(r, pc);
      if !ok {
        DeletedAtEnd(script, r, pc, nFound, b);
        return;
      }
      SkipNext(script, r, pc, nFound, b);
      pc := next;
    }
  }

  /** What is left to do at the cursor gives the result wanted. */
  ghost predicate Deleting(script: Script, r: Script, pc: nat, n: nat, b: Script) {
    b != [] && pc <= |r| && Deleted(script, b) == DeletedFrom(r, pc, n, b)
  }

  lemma EraseNext(script: Script, r: Script, pc: nat, n: nat, b: Script)
    requires Deleting(script, r, pc, n, b) && pc + |b| <= |r| && r[pc..pc + |b|] == b
    ensures Deleting(script, r[..pc] + r[pc + |b|..], pc, n + 1, b)
  {
    hide Deleted, DeletedFrom;
    EraseAt(r, pc, n, b);
  }

  lemma SkipNext(script: Script, r: Script, pc: nat, n: nat, b: Script)
    requires Deleting(script, r, pc, n, b) && !(|r| - pc >= |b| && r[pc..pc + |b|] == b) && ParseOp(r[pc..]).Some?
    ensures Deleting(script, r, pc + ParseOp(r[pc..]).value.len, n, b)
  {
    hide Deleted, DeletedFrom, ParseOp;
    NotAt(r, pc, b);
    SkipAt(r, pc, n, b);
  }

  lemma NotAt(r: Script, pc: nat, b: Script)
    requires pc <= |r|
    ensures StartsWith(r[pc..], b) <==> |r| - pc >= |b| && r[pc..pc + |b|] == b
  {
    if |r| - pc >= |b| {
      SliceOfSuffix(r, pc, 0, |b|);
    }
  }

  lemma DeletedAtStart(r: Script, b: Script)
    requires b != []
    ensures Deleting(r, r, 0, 0, b)
  {
    assert r[0..] == r;
    assert r[..0] + Deleted(r, b).0 == Deleted(r, b).0;
  }

  lemma DeletedAtEnd(script: Script, r: Script, pc: nat, n: nat, b: Script)
    requires Deleting(script, r, pc, n, b) && !(|r| - pc >= |b| && r[pc..pc + |b|] == b) && ParseOp(r[pc..]).None?
    ensures Deleted(script, b) == (r, n)
  {
    hide ParseOp;
    NotAt(r, pc, b);
    assert r[..pc] + r[pc..] == r;
  }

  // Small integers

  function EncodeOP_N(n: nat): Byte
    requires n <= 16
  {
    if n == 0 then OP_0 else OP_1 + n - 1
  }

  function DecodeOP_N(opcode: Byte): nat
    requires opcode == OP_0 || OP_1 <= opcode <= OP_16
  {
    if opcode == OP_0 then 0 else opcode - (OP_1 - 1)
  }

  lemma SmallIntegers(n: nat, opcode: Byte)
    ensures n <= 16 ==> DecodeOP_N(EncodeOP_N(n)) == n
    ensures opcode == OP_0 || OP_1 <= opcode <= OP_16 ==> EncodeOP_N(DecodeOP_N(opcode)) == opcode
  {
  }

  // Script shapes

  predicate PushOnly(s: Script)
    decreases |s|
  {
    s != [] ==> ParseOp(s).Some? && ParseOp(s).value.op <= OP_16 && PushOnly(s[ParseOp(s).value.len..])
  }

  method IsPushOnly(script: Script) returns (r: bool)
    ensures r <==> PushOnly(script)
  {
    var pc := 0;
    while pc < |script|
      invariant pc <= |script| && (PushOnly(script) <==> PushOnly(script[pc..]))
    {
      var ok, opcode, data, next := GetOp2(script, pc);
      if !ok || opcode > OP_16 {
        return false;
      }
      assert script[next..] == script[pc..][next - pc..];
      pc := next;
    }
    r := true;
  }

  predicate IsPayToScriptHash(s: Script) {
    |s| == 23 && s[0] == OP_HASH160 && s[1] == 0x14 && s[22] == OP_EQUAL
  }

  /** PushAll: one push after the other. */
  function Pushes(values: seq<seq<Byte>>): Script {
    if values == [] then [] else Pushes(values[..|values| - 1]) + PushBytes(values[|values| - 1])
  }

  method PushAll(values: seq<seq<Byte>>) returns (r: Script)
    ensures r == Pushes(values)
  {
    r := [];
    for i := 0 to |values|
      invariant r == Pushes(values[..i])
    {
      assert values[..i + 1][..i] == values[..i];
      r := AppendPush(r, values[i]);
    }
    assert values[..|values|] == values;
  }
}
