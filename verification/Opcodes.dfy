/** What the data opcodes do: laws between them, and what no script gets away with (src/script.cpp, EvalScript). */
module Opcodes {
  import opened Sequences
  import opened Wrappers
  import opened Bytes
  import opened Bignum
  import Compact
  import opened ScriptCode
  import opened Multisig
  import opened Interpreter
  import opened PushScripts
  import opened Spending

  type Stack = seq<Value>

  const DROP2 := 0x6d
  const DUP2 := 0x6e
  const DUP3 := 0x6f
  const OVER2 := 0x70
  const ROT2 := 0x71
  const SWAP2 := 0x72
  const IFDUP := 0x73
  const DROP := 0x75
  const DUP := 0x76
  const NIP := 0x77
  const OVER := 0x78
  const PICK := 0x79
  const ROLL := 0x7a
  const ROT := 0x7b
  const SWAP := 0x7c
  const TUCK := 0x7d

  // Stack opcodes

  /** One opcode after the other on the main stack. */
  function Ops(env: Env, ops: seq<Byte>, s: Stack): Option<Stack> {
    if ops == [] then Some(s)
    else
      match StackOp(env, ops[0], s)
      case None => None
      case Some(t) => Ops(env, ops[1..], t)
  }

  /** An opcode behind a number. */
  function OpsWith(env: Env, n: int, op: Byte, s: Stack): Option<Stack> {
    StackOp(env, op, s + [GetVch(n)])
  }

  function Chain(env: Env, n: int, op: Byte, r: Option<Stack>): Option<Stack> {
    if r.None? then None else OpsWith(env, n, op, r.value)
  }

  /** OP_PICK copies the value n below the top and OP_ROLL moves it; both fail where there is none. */
  lemma PickAndRoll(env: Env, s: Stack, n: int)
    requires |GetVch(n)| <= 4
    ensures OpsWith(env, n, PICK, s) == if 0 <= n < |s| then Some(s + [Top(s, n + 1)]) else None
    ensures OpsWith(env, n, ROLL, s)
            == if 0 <= n < |s| then Some(s[..|s| - n - 1] + s[|s| - n..] + [Top(s, n + 1)]) else None
  {
    VchRoundTrip(n);
    hide GetVch, SetVch;
    var t := s + [GetVch(n)];
    assert Top(t, 1) == GetVch(n) && Pop(t, 1) == s;
    if s == [] {
      assert n < 0 || n >= |s|;
    }
  }

  /** The last n + 1 values, turned k times. */
  function Turned(s: Stack, n: nat, k: nat): Stack
    requires n < |s| && k <= n + 1
  {
    var below, part := s[..|s| - n - 1], s[|s| - n - 1..];
    below + (part[k..] + part[..k])
  }

  function RollTimes(env: Env, n: nat, k: nat, s: Stack): Option<Stack> {
    if k == 0 then Some(s) else Chain(env, n, ROLL, RollTimes(env, n, k - 1, s))
  }

  lemma TurnOnce(s: Stack, n: nat, k: nat)
    requires n < |s| && k <= n
    ensures var t := Turned(s, n, k);
      |t| == |s| && Turned(s, n, k + 1) == t[..|t| - n - 1] + t[|t| - n..] + [Top(t, n + 1)]
  {
    var part := s[|s| - n - 1..];
    assert part[k..] == [part[k]] + part[k + 1..] && part[..k + 1] == part[..k] + [part[k]];
  }

  lemma {:induction false} RollsTurn(env: Env, s: Stack, n: nat, k: nat)
    requires n < |s| && |GetVch(n)| <= 4 && k <= n + 1
    ensures RollTimes(env, n, k, s) == Some(Turned(s, n, k))
  {
    hide OpsWith, GetVch;
    if k == 0 {
      assert Turned(s, n, 0) == s;
    } else {
      RollsTurn(env, s, n, k - 1);
      TurnOnce(s, n, k - 1);
      PickAndRoll(env, Turned(s, n, k - 1), n);
    }
  }

  /** Rolling n + 1 times from depth n gives the stack back. */
  lemma RollsCycle(env: Env, s: Stack, n: nat)
    requires n < |s| && |GetVch(n)| <= 4
    ensures RollTimes(env, n, n + 1, s) == Some(s)
  {
    hide RollTimes, OpsWith, GetVch;
    RollsTurn(env, s, n, n + 1);
    assert Turned(s, n, n + 1) == s;
  }

  lemma SmallIsShort(n: nat)
    requires n <= 16
    ensures |GetVch(n)| <= 4
  {
    if n > 0 {
      SmallNumber(n);
    }
  }

  /** OP_DROP takes the top away; it fails on an empty stack only. */
  lemma DropsTop(env: Env, s: Stack)
    ensures StackOp(env, DROP, s) == if s == [] then None else Some(s[..|s| - 1])
  {
  }

  /** Every copying opcode is some picks. */
  lemma CopiesArePicks(env: Env, s: Stack)
    ensures StackOp(env, DUP, s) == OpsWith(env, 0, PICK, s)
    ensures StackOp(env, OVER, s) == OpsWith(env, 1, PICK, s)
    ensures StackOp(env, DUP2, s) == Chain(env, 1, PICK, OpsWith(env, 1, PICK, s))
    ensures StackOp(env, DUP3, s) == Chain(env, 2, PICK, Chain(env, 2, PICK, OpsWith(env, 2, PICK, s)))
    ensures StackOp(env, OVER2, s) == Chain(env, 3, PICK, OpsWith(env, 3, PICK, s))
  {
    hide StackOp, OpsWith;
    Copies(env, s);
    PicksAt(env, s, 0);
    PicksAt(env, s, 1);
    PicksAt(env, s, 2);
    PicksAt(env, s, 3);
    if |s| >= 2 {
      PicksAt(env, s + [Top(s, 2)], 1);
    }
    if |s| >= 3 {
      var t := s + [Top(s, 3)];
      PicksAt(env, t, 2);
      PicksAt(env, t + [Top(t, 3)], 2);
    }
    if |s| >= 4 {
      PicksAt(env, s + [Top(s, 4)], 3);
    }
  }

  lemma Copies(env: Env, s: Stack)
    ensures StackOp(env, DUP, s) == if |s| < 1 then None else Some(s + [Top(s, 1)])
    ensures StackOp(env, OVER, s) == if |s| < 2 then None else Some(s + [Top(s, 2)])
    ensures StackOp(env, DUP2, s) == if |s| < 2 then None else Some(s + [Top(s, 2)] + [Top(s, 1)])
    ensures StackOp(env, DUP3, s) == if |s| < 3 then None else Some(s + [Top(s, 3)] + [Top(s, 2)] + [Top(s, 1)])
    ensures StackOp(env, OVER2, s) == if |s| < 4 then None else Some(s + [Top(s, 4)] + [Top(s, 3)])
  {
    if |s| >= 2 {
      assert s + [Top(s, 2), Top(s, 1)] == s + [Top(s, 2)] + [Top(s, 1)];
    }
    if |s| >= 3 {
      assert s + [Top(s, 3), Top(s, 2), Top(s, 1)] == s + [Top(s, 3)] + [Top(s, 2)] + [Top(s, 1)];
    }
    if |s| >= 4 {
      assert s + [Top(s, 4), Top(s, 3)] == s + [Top(s, 4)] + [Top(s, 3)];
    }
  }

  lemma PicksAt(env: Env, s: Stack, n: nat)
    requires n <= 5
    ensures OpsWith(env, n, PICK, s) == if n < |s| then Some(s + [Top(s, n + 1)]) else None
    ensures OpsWith(env, n, ROLL, s)
            == if n < |s| then Some(s[..|s| - n - 1] + s[|s| - n..] + [Top(s, n + 1)]) else None
  {
    SmallIsShort(n);
    PickAndRoll(env, s, n);
  }

  /** Every reordering opcode is some rolls. */
  lemma MovesAreRolls(env: Env, s: Stack)
    ensures StackOp(env, SWAP, s) == OpsWith(env, 1, ROLL, s)
    ensures StackOp(env, ROT, s) == OpsWith(env, 2, ROLL, s)
    ensures StackOp(env, SWAP2, s) == Chain(env, 3, ROLL, OpsWith(env, 3, ROLL, s))
    ensures StackOp(env, ROT2, s) == Chain(env, 5, ROLL, OpsWith(env, 5, ROLL, s))
  {
    hide StackOp, OpsWith;
    PicksAt(env, s, 1);
    PicksAt(env, s, 2);
    PicksAt(env, s, 3);
    PicksAt(env, s, 5);
    SwapIsRoll(env, s);
    TooFew(env, s);
    if |s| >= 4 {
      PicksAt(env, s[..|s| - 4] + s[|s| - 3..] + [Top(s, 4)], 3);
      SwapPairs(env, s);
    }
    if |s| >= 6 {
      PicksAt(env, s[..|s| - 6] + s[|s| - 5..] + [Top(s, 6)], 5);
      RotatePairs(env, s);
    }
  }

  lemma SwapIsRoll(env: Env, s: Stack)
    ensures StackOp(env, SWAP, s) == if |s| < 2 then None else Some(s[..|s| - 2] + s[|s| - 1..] + [Top(s, 2)])
    ensures StackOp(env, ROT, s) == if |s| < 3 then None else Some(s[..|s| - 3] + s[|s| - 2..] + [Top(s, 3)])
  {
    if |s| >= 2 {
      assert s[..|s| - 2] + s[|s| - 1..] + [Top(s, 2)] == Pop(s, 2) + [Top(s, 1), Top(s, 2)];
    }
    if |s| >= 3 {
      assert s[..|s| - 3] + s[|s| - 2..] + [Top(s, 3)] == Pop(s, 3) + [Top(s, 2), Top(s, 1), Top(s, 3)];
    }
  }

  lemma TooFew(env: Env, s: Stack)
    ensures |s| < 4 ==> StackOp(env, SWAP2, s).None?
    ensures |s| < 6 ==> StackOp(env, ROT2, s).None?
  {
  }

  lemma SwapPairs(env: Env, s: Stack)
    requires |s| >= 4
    ensures var t := s[..|s| - 4] + s[|s| - 3..] + [Top(s, 4)];
      StackOp(env, SWAP2, s) == Some(t[..|t| - 4] + t[|t| - 3..] + [Top(t, 4)])
  {
    var t := s[..|s| - 4] + s[|s| - 3..] + [Top(s, 4)];
    assert t[..|t| - 4] + t[|t| - 3..] + [Top(t, 4)] == Pop(s, 4) + [Top(s, 2), Top(s, 1), Top(s, 4), Top(s, 3)];
  }

  lemma RotatePairs(env: Env, s: Stack)
    requires |s| >= 6
    ensures var t := s[..|s| - 6] + s[|s| - 5..] + [Top(s, 6)];
      StackOp(env, ROT2, s) == Some(t[..|t| - 6] + t[|t| - 5..] + [Top(t, 6)])
  {
    var t := s[..|s| - 6] + s[|s| - 5..] + [Top(s, 6)];
    assert t[..|t| - 6] + t[|t| - 5..] + [Top(t, 6)]
        == Pop(s, 6) + [Top(s, 4), Top(s, 3), Top(s, 2), Top(s, 1), Top(s, 6), Top(s, 5)];
  }

  /** What remains follows from these. */
  lemma OtherShuffles(env: Env, s: Stack)
    ensures StackOp(env, NIP, s) == Ops(env, [SWAP, DROP], s)
    ensures StackOp(env, TUCK, s) == Ops(env, [SWAP, OVER], s)
    ensures StackOp(env, DROP2, s) == Ops(env, [DROP, DROP], s)
    ensures StackOp(env, IFDUP, s)
            == if s == [] then None else if SetVch(Top(s, 1)) != 0 then StackOp(env, DUP, s) else Some(s)
  {
    TwoOps(env, SWAP, DROP, s);
    TwoOps(env, SWAP, OVER, s);
    TwoOps(env, DROP, DROP, s);
    hide Ops, SetVch;
    if s != [] {
      TrueMeansNonzero(Top(s, 1));
    }
    if |s| >= 2 {
      var t := Pop(s, 2) + [Top(s, 1), Top(s, 2)];
      assert Pop(Pop(s, 1), 1) == Pop(s, 2);
      assert Pop(t, 1) == Pop(s, 2) + [Top(s, 1)] && t + [Top(t, 2)] == Pop(s, 2) + [Top(s, 1), Top(s, 2), Top(s, 1)];
    }
  }

  lemma TwoOps(env: Env, a: Byte, b: Byte, s: Stack)
    ensures Ops(env, [a, b], s) == match StackOp(env, a, s) case None => None case Some(t) => StackOp(env, b, t)
  {
    hide StackOp;
    assert [a, b][1..] == [b] && [b][1..] == [];
    if StackOp(env, a, s).Some? {
      var t := StackOp(env, a, s).value;
      assert Ops(env, [b], t) == StackOp(env, b, t) by {
        if StackOp(env, b, t).Some? {
          assert Ops(env, [], StackOp(env, b, t).value) == StackOp(env, b, t);
        }
      }
    }
  }

  // Number opcodes

  const ADD1 := 0x8b
  const SUB1 := 0x8c
  const NEGATE := 0x8f
  const ABS := 0x90
  const NOT := 0x91
  const NOTEQUAL0 := 0x92
  const ADD := 0x93
  const SUB := 0x94
  const BOOLAND := 0x9a
  const BOOLOR := 0x9b
  const NUMEQUAL := 0x9c
  const NUMEQUALVERIFY := 0x9d
  const NUMNOTEQUAL := 0x9e
  const LESSTHAN := 0x9f
  const GREATERTHAN := 0xa0
  const LESSTHANOREQUAL := 0xa1
  const GREATERTHANOREQUAL := 0xa2
  const MIN := 0xa3
  const MAX := 0xa4
  const WITHIN := 0xa5

  predicate IsUnary(op: Byte) {
    op in {ADD1, SUB1, NEGATE, ABS, NOT, NOTEQUAL0}
  }

  predicate IsBinary(op: Byte) {
    op in {ADD, SUB} || BOOLAND <= op <= MAX
  }

  /** The numbers on top, the upper one last; each is read from at most four bytes. */
  predicate HasNumbers(s: Stack, n: nat) {
    |s| >= n && forall i | 1 <= i <= n :: |Top(s, i)| <= 4
  }

  lemma UnaryOn(env: Env, op: Byte, s: Stack)
    requires IsUnary(op)
    ensures StackOp(env, op, s)
            == if !HasNumbers(s, 1) then None else Some(Pop(s, 1) + [GetVch(Unary(op, SetVch(Top(s, 1))).value)])
  {
    hide GetVch, SetVch;
  }

  lemma BinaryOn(env: Env, op: Byte, s: Stack)
    requires IsBinary(op) && op != NUMEQUALVERIFY
    ensures StackOp(env, op, s)
            == if !HasNumbers(s, 2) then None
               else Some(Pop(s, 2) + [GetVch(Binary(op, SetVch(Top(s, 2)), SetVch(Top(s, 1))).value)])
  {
    hide GetVch, SetVch;
    if |s| >= 2 && |Top(s, 2)| <= 4 && |Top(s, 1)| <= 4 {
      assert HasNumbers(s, 2);
    }
  }

  /** The results that all others follow from. */
  lemma BasicNumbers(env: Env, below: Stack, v: Value, w: Value)
    requires |v| <= 4 && |w| <= 4
    ensures var x, y := SetVch(v), SetVch(w);
      && StackOp(env, NEGATE, below + [v]) == Some(below + [GetVch(0 - x)])
      && StackOp(env, NOT, below + [v]) == Some(below + [if x == 0 then [1] else []])
      && StackOp(env, ADD, below + [v, w]) == Some(below + [GetVch(x + y)])
      && StackOp(env, NUMEQUAL, below + [v, w]) == Some(below + [if x == y then [1] else []])
      && StackOp(env, LESSTHAN, below + [v, w]) == Some(below + [if x < y then [1] else []])
  {
    hide GetVch, SetVch, StackOp;
    OneAndZero();
    var s, t := below + [v], below + [v, w];
    assert Top(s, 1) == v && Pop(s, 1) == below && Top(t, 2) == v && Top(t, 1) == w && Pop(t, 2) == below;
    UnaryOn(env, NEGATE, s);
    UnaryOn(env, NOT, s);
    BinaryOn(env, ADD, t);
    BinaryOn(env, NUMEQUAL, t);
    BinaryOn(env, LESSTHAN, t);
  }

  lemma OneAndZero()
    ensures GetVch(1) == [1] && GetVch(0) == [] && SetVch([1]) == 1 && SetVch([]) == 0
  {
    SmallNumber(1);
    VchRoundTrip(1);
    VchRoundTrip(0);
    assert GetVch(0) == [];
  }

  lemma BasicFails(env: Env, s: Stack)
    ensures !HasNumbers(s, 1) ==> StackOp(env, NEGATE, s).None? && StackOp(env, NOT, s).None?
    ensures !HasNumbers(s, 2) ==> forall op | op in {ADD, NUMEQUAL, LESSTHAN} :: StackOp(env, op, s).None?
  {
    hide GetVch, SetVch, StackOp;
    UnaryOn(env, NEGATE, s);
    UnaryOn(env, NOT, s);
    BinaryOn(env, ADD, s);
    BinaryOn(env, NUMEQUAL, s);
    BinaryOn(env, LESSTHAN, s);
  }

  /** The lesser and the greater of two numbers, together as much as both. */
  lemma LesserAndGreater(env: Env, below: Stack, v: Value, w: Value) returns (least: int, most: int)
    requires |v| <= 4 && |w| <= 4
    ensures StackOp(env, MIN, below + [v, w]) == Some(below + [GetVch(least)])
    ensures StackOp(env, MAX, below + [v, w]) == Some(below + [GetVch(most)])
    ensures least <= most && {least, most} == {SetVch(v), SetVch(w)} && least + most == SetVch(v) + SetVch(w)
  {
    hide GetVch, SetVch, StackOp;
    var x, y := SetVch(v), SetVch(w);
    least, most := if x < y then x else y, if x > y then x else y;
    var t := below + [v, w];
    assert Top(t, 2) == v && Top(t, 1) == w && Pop(t, 2) == below;
    BinaryOn(env, MIN, t);
    BinaryOn(env, MAX, t);
  }

  /** True for numbers from the first bound on and below the second. */
  lemma WithinBounds(env: Env, s: Stack)
    ensures StackOp(env, WITHIN, s)
            == if !HasNumbers(s, 3) then None
               else Some(Pop(s, 3) + [if SetVch(Top(s, 2)) <= SetVch(Top(s, 3)) < SetVch(Top(s, 1)) then [1] else []])
  {
    hide SetVch;
    if |s| >= 3 && |Top(s, 3)| <= 4 && |Top(s, 2)| <= 4 && |Top(s, 1)| <= 4 {
      assert HasNumbers(s, 3);
    }
  }

  /** The number of values, and the length of the top one. */
  lemma DepthAndSize(env: Env, s: Stack)
    ensures StackOp(env, 0x74, s).Some? && StackOp(env, 0x74, s).value[..|s|] == s
    ensures var t := StackOp(env, 0x74, s).value; |t| == |s| + 1 && SetVch(t[|s|]) == |s|
    ensures StackOp(env, 0x82, s).Some? <==> s != []
    ensures s != [] ==>
      var t := StackOp(env, 0x82, s).value; |t| == |s| + 1 && t[..|s|] == s && SetVch(t[|s|]) == |s[|s| - 1]|
  {
    VchRoundTrip(|s|);
    if s != [] {
      VchRoundTrip(|s[|s| - 1]|);
    }
    hide GetVch, SetVch;
  }

  lemma OneMoreOp(env: Env, a: Byte, rest: seq<Byte>, s: Stack)
    ensures Ops(env, [a] + rest, s) == match StackOp(env, a, s) case None => None case Some(t) => Ops(env, rest, t)
  {
    hide StackOp;
    assert ([a] + rest)[1..] == rest;
  }

  /** A negative number in its four bytes stays within four bytes when negated. */
  lemma NegatedFits(v: Value)
    requires |v| <= 4
    ensures |GetVch(0 - SetVch(v))| <= 4
  {
    NumRange31(v);
    FourBytes(0 - SetVch(v));
  }

  lemma FourBytes(n: int)
    requires -0x8000_0000 < n < 0x8000_0000
    ensures |GetVch(n)| <= 4
  {
    var a := if n < 0 then -n else n;
    Pow256Values();
    MagnitudeLength(a, 4);
    MagnitudeValue(a);
    var m := Magnitude(a);
    hide Magnitude, FromLittleEndian;
    if |m| == 4 {
      TopByte(m[..3], m[3]);
      assert m == m[..3] + [m[3]];
    }
  }

  lemma NumRange31(v: Value)
    requires |v| <= 4
    ensures -0x8000_0000 < SetVch(v) < 0x8000_0000
  {
    Pow256Values();
    assert Pow256(3) == 0x100_0000 && Pow256(0) == 1;
    if |v| == 4 {
      var init, last := v[..3], v[3];
      FromLittleEndianBound(init);
      TopByte(init, last % 0x80);
      TopByte(init, last);
      assert v == init + [last] && (last >= 0x80 ==> init + [last - 0x80] == init + [last % 0x80]);
    } else {
      SetVchBound(v);
    }
  }

  lemma TopByte(init: seq<Byte>, top: Byte)
    requires |init| == 3
    ensures FromLittleEndian(init + [top]) == FromLittleEndian(init) + 0x100_0000 * top
  {
    Compact.FromLittleEndianConcat(init, [top]);
    assert Pow256(3) == 0x100_0000 by {
      assert Pow256(2) == 0x1_0000;
    }
    assert FromLittleEndian([top]) == top by {
      assert [top][1..] == [];
    }
  }

  // What follows from the basic ones

  /** The unary opcodes in terms of adding, negating, comparing and OP_NOT. */
  lemma UnaryLaws(env: Env, s: Stack)
    ensures StackOp(env, ADD1, s) == Ops(env, [OP_1, ADD], s)
    ensures StackOp(env, SUB, s) == Ops(env, [NEGATE, ADD], s)
    ensures StackOp(env, SUB1, s) == Ops(env, [OP_1, SUB], s)
    ensures StackOp(env, ABS, s) == Ops(env, [DUP, NEGATE, MAX], s)
    ensures StackOp(env, NOTEQUAL0, s) == Ops(env, [NOT, NOT], s)
  {
    hide GetVch, SetVch, StackOp, Ops;
    AddOne(env, s);
    SubtractNegated(env, s);
    Absolute(env, s);
    NotTwice(env, s);
  }

  lemma PushesOne(env: Env, s: Stack)
    ensures StackOp(env, OP_1, s) == Some(s + [[1]])
  {
    OneAndZero();
    hide GetVch, SetVch;
  }

  lemma AddOne(env: Env, s: Stack)
    ensures StackOp(env, ADD1, s) == Ops(env, [OP_1, ADD], s)
    ensures StackOp(env, SUB1, s) == Ops(env, [OP_1, SUB], s)
  {
    hide GetVch, SetVch, StackOp, Ops;
    TwoOps(env, OP_1, ADD, s);
    TwoOps(env, OP_1, SUB, s);
    PushesOne(env, s);
    OneAndZero();
    UnaryOn(env, ADD1, s);
    UnaryOn(env, SUB1, s);
    var t := s + [[1]];
    BinaryOn(env, ADD, t);
    BinaryOn(env, SUB, t);
    assert Top(t, 1) == [1];
    if s != [] {
      assert Top(t, 2) == Top(s, 1) && Pop(t, 2) == Pop(s, 1);
    }
  }

  lemma SubtractNegated(env: Env, s: Stack)
    ensures StackOp(env, SUB, s) == Ops(env, [NEGATE, ADD], s)
  {
    hide GetVch, SetVch, StackOp, Ops;
    TwoOps(env, NEGATE, ADD, s);
    UnaryOn(env, NEGATE, s);
    BinaryOn(env, SUB, s);
    if HasNumbers(s, 1) {
      var y := SetVch(Top(s, 1));
      var t := Pop(s, 1) + [GetVch(-y)];
      NegatedFits(Top(s, 1));
      VchRoundTrip(-y);
      BinaryOn(env, ADD, t);
      assert Top(t, 1) == GetVch(-y);
      if |s| >= 2 {
        assert Top(t, 2) == Top(s, 2) && Pop(t, 2) == Pop(s, 2);
      }
    }
  }

  lemma Absolute(env: Env, s: Stack)
    ensures StackOp(env, ABS, s) == Ops(env, [DUP, NEGATE, MAX], s)
  {
    hide GetVch, SetVch, StackOp, Ops;
    assert [DUP, NEGATE, MAX] == [DUP] + [NEGATE, MAX];
    OneMoreOp(env, DUP, [NEGATE, MAX], s);
    DupIs(env, s);
    UnaryOn(env, ABS, s);
    if s != [] {
      var v := Top(s, 1);
      var t := s + [v];
      assert Top(t, 1) == v && Pop(t, 1) == s;
      TwoOps(env, NEGATE, MAX, t);
      UnaryOn(env, NEGATE, t);
      if |v| <= 4 {
        assert HasNumbers(t, 1) && HasNumbers(s, 1);
        var y := SetVch(v);
        NegatedFits(v);
        VchRoundTrip(-y);
        var u := s + [GetVch(-y)];
        assert Top(u, 1) == GetVch(-y) && Top(u, 2) == v && Pop(u, 2) == Pop(s, 1);
        BinaryOn(env, MAX, u);
        assert HasNumbers(u, 2);
      } else {
        assert !HasNumbers(t, 1) && !HasNumbers(s, 1);
      }
    }
  }

  lemma DupIs(env: Env, s: Stack)
    ensures StackOp(env, DUP, s) == if s == [] then None else Some(s + [Top(s, 1)])
  {
  }

  lemma NotTwice(env: Env, s: Stack)
    ensures StackOp(env, NOTEQUAL0, s) == Ops(env, [NOT, NOT], s)
  {
    hide GetVch, SetVch, StackOp, Ops;
    TwoOps(env, NOT, NOT, s);
    OneAndZero();
    UnaryOn(env, NOT, s);
    UnaryOn(env, NOTEQUAL0, s);
    if HasNumbers(s, 1) {
      var b := GetVch(if SetVch(Top(s, 1)) == 0 then 1 else 0);
      NotOn(env, Pop(s, 1), b);
    }
  }

  lemma NotOn(env: Env, below: Stack, v: Value)
    requires |v| <= 4
    ensures StackOp(env, NOT, below + [v]) == Some(below + [GetVch(if SetVch(v) == 0 then 1 else 0)])
  {
    hide GetVch, SetVch, StackOp;
    var t := below + [v];
    assert Top(t, 1) == v && Pop(t, 1) == below && HasNumbers(t, 1);
    UnaryOn(env, NOT, t);
  }

  lemma BinaryIs(env: Env, op: Byte, below: Stack, v: Value, w: Value)
    requires IsBinary(op) && op != NUMEQUALVERIFY && |v| <= 4 && |w| <= 4
    ensures StackOp(env, op, below + [v, w]) == Some(below + [GetVch(Binary(op, SetVch(v), SetVch(w)).value)])
  {
    hide GetVch, SetVch, StackOp;
    var t := below + [v, w];
    assert Top(t, 2) == v && Top(t, 1) == w && Pop(t, 2) == below && HasNumbers(t, 2);
    BinaryOn(env, op, t);
  }

  /** A comparison followed by OP_NOT. */
  lemma Negated(env: Env, op: Byte, opposite: Byte, s: Stack)
    requires (op, opposite) in {(NUMNOTEQUAL, NUMEQUAL), (LESSTHANOREQUAL, GREATERTHAN), (GREATERTHANOREQUAL, LESSTHAN)}
    ensures StackOp(env, op, s) == Ops(env, [opposite, NOT], s)
  {
    hide GetVch, SetVch, StackOp, Ops;
    TwoOps(env, opposite, NOT, s);
    OneAndZero();
    BinaryOn(env, op, s);
    BinaryOn(env, opposite, s);
    if HasNumbers(s, 2) {
      NotOn(env, Pop(s, 2), GetVch(Binary(opposite, SetVch(Top(s, 2)), SetVch(Top(s, 1))).value));
    }
  }

  lemma SwapIs(env: Env, s: Stack)
    ensures StackOp(env, SWAP, s) == if |s| < 2 then None else Some(Pop(s, 2) + [Top(s, 1), Top(s, 2)])
  {
  }

  lemma Greater(env: Env, s: Stack)
    ensures StackOp(env, GREATERTHAN, s) == Ops(env, [SWAP, LESSTHAN], s)
  {
    hide GetVch, SetVch, StackOp, Ops;
    TwoOps(env, SWAP, LESSTHAN, s);
    SwapIs(env, s);
    BinaryOn(env, GREATERTHAN, s);
    if |s| >= 2 {
      var t := Pop(s, 2) + [Top(s, 1), Top(s, 2)];
      assert Top(t, 1) == Top(s, 2) && Top(t, 2) == Top(s, 1) && Pop(t, 2) == Pop(s, 2);
      BinaryOn(env, LESSTHAN, t);
      assert HasNumbers(t, 2) <==> HasNumbers(s, 2) by {
        BothNumbers(s);
        BothNumbers(t);
      }
    }
  }

  lemma BothNumbers(s: Stack)
    requires |s| >= 2
    ensures HasNumbers(s, 2) <==> |Top(s, 1)| <= 4 && |Top(s, 2)| <= 4
  {
  }

  /** OP_VERIFY fails unless the top is true, and takes it away. */
  lemma VerifyVariants(env: Env, s: Stack)
    ensures StackOp(env, NUMEQUALVERIFY, s) == Ops(env, [NUMEQUAL, OP_VERIFY], s)
    ensures StackOp(env, OP_EQUALVERIFY, s) == Ops(env, [OP_EQUAL, OP_VERIFY], s)
    ensures StackOp(env, OP_VERIFY, s) == if s == [] || SetVch(Top(s, 1)) == 0 then None else Some(s[..|s| - 1])
  {
    hide GetVch, SetVch, Ops;
    TwoOps(env, NUMEQUAL, OP_VERIFY, s);
    TwoOps(env, OP_EQUAL, OP_VERIFY, s);
    if s != [] {
      TrueMeansNonzero(Top(s, 1));
    }
  }

  /** Both are nonzero exactly if neither is zero, and one of them is exactly if not both are zero. */
  lemma AndOr(env: Env, s: Stack)
    ensures StackOp(env, BOOLAND, s) == Ops(env, [NOT, SWAP, NOT, ADD, NOT], s)
    ensures StackOp(env, BOOLOR, s) == Ops(env, [NOT, SWAP, NOT, BOOLAND, NOT], s)
  {
    hide GetVch, SetVch, StackOp, Ops;
    BinaryOn(env, BOOLAND, s);
    BinaryOn(env, BOOLOR, s);
    NotBoth(env, s, ADD);
    NotBoth(env, s, BOOLAND);
    if HasNumbers(s, 2) {
      var a, b := if SetVch(Top(s, 1)) == 0 then 1 else 0, if SetVch(Top(s, 2)) == 0 then 1 else 0;
      OnBits(env, Pop(s, 2), a, b);
    }
  }

  lemma OnBits(env: Env, below: Stack, a: int, b: int)
    requires 0 <= a <= 1 && 0 <= b <= 1
    ensures var t := below + [GetVch(a), GetVch(b)];
      && Ops(env, [ADD, NOT], t) == Some(below + [GetVch(if a + b == 0 then 1 else 0)])
      && Ops(env, [BOOLAND, NOT], t) == Some(below + [GetVch(if a == 1 && b == 1 then 0 else 1)])
  {
    hide GetVch, SetVch, StackOp, Ops;
    var t := below + [GetVch(a), GetVch(b)];
    SumOfBits(a, 0);
    SumOfBits(b, 0);
    SumOfBits(a, b);
    TwoOps(env, ADD, NOT, t);
    TwoOps(env, BOOLAND, NOT, t);
    BinaryIs(env, ADD, below, GetVch(a), GetVch(b));
    BinaryIs(env, BOOLAND, below, GetVch(a), GetVch(b));
    NotOn(env, below, GetVch(a + b));
    var both := BoolNum(a != 0 && b != 0);
    SumOfBits(both, 0);
    NotOn(env, below, GetVch(both));
  }

  lemma SumOfBits(a: int, b: int)
    requires 0 <= a <= 1 && 0 <= b <= 1
    ensures |GetVch(a + b)| <= 4 && SetVch(GetVch(a + b)) == a + b
  {
    FourBytes(a + b);
    VchRoundTrip(a + b);
  }

  lemma NotBoth(env: Env, s: Stack, op: Byte)
    ensures Ops(env, [NOT, SWAP, NOT, op, NOT], s)
            == if !HasNumbers(s, 2) then None
               else
                 var x, y := SetVch(Top(s, 2)), SetVch(Top(s, 1));
                 Ops(env, [op, NOT], Pop(s, 2) + [GetVch(if y == 0 then 1 else 0), GetVch(if x == 0 then 1 else 0)])
  {
    hide GetVch, SetVch, StackOp, Ops;
    assert [NOT, SWAP, NOT, op, NOT] == [NOT] + [SWAP, NOT, op, NOT] && [SWAP, NOT, op, NOT] == [SWAP] + [NOT, op, NOT];
    assert [NOT, op, NOT] == [NOT] + [op, NOT];
    OneMoreOp(env, NOT, [SWAP, NOT, op, NOT], s);
    UnaryOn(env, NOT, s);
    if HasNumbers(s, 1) {
      var b := GetVch(if SetVch(Top(s, 1)) == 0 then 1 else 0);
      var t := Pop(s, 1) + [b];
      OneMoreOp(env, SWAP, [NOT, op, NOT], t);
      SwapIs(env, t);
      if |s| >= 2 {
        BothNumbers(s);
        var u := Pop(s, 2) + [b, Top(s, 2)];
        assert Pop(t, 2) == Pop(s, 2) && Top(t, 1) == b && Top(t, 2) == Top(s, 2);
        OneMoreOp(env, NOT, [op, NOT], u);
        UnaryOn(env, NOT, u);
        assert Top(u, 1) == Top(s, 2) && Pop(u, 1) == Pop(s, 2) + [b];
        assert HasNumbers(u, 1) <==> |Top(s, 2)| <= 4;
        assert Pop(s, 2) + [b] + [GetVch(if SetVch(Top(s, 2)) == 0 then 1 else 0)]
            == Pop(s, 2) + [b, GetVch(if SetVch(Top(s, 2)) == 0 then 1 else 0)];
      }
    }
  }

  /** Subtracting and then adding gives the number back exactly if the difference fits into four bytes. */
  lemma SubtractThenAdd(env: Env, below: Stack, v: Value, w: Value)
    requires |v| <= 4 && |w| <= 4
    ensures var t := StackOp(env, SUB, below + [v, w]);
      && t.Some?
      && StackOp(env, ADD, t.value + [w])
         == if |GetVch(SetVch(v) - SetVch(w))| <= 4 then Some(below + [GetVch(SetVch(v))]) else None
  {
    hide GetVch, SetVch, StackOp;
    BinaryIs(env, SUB, below, v, w);
    var d := SetVch(v) - SetVch(w);
    VchRoundTrip(d);
    var t := below + [GetVch(d)] + [w];
    assert Top(t, 1) == w && Top(t, 2) == GetVch(d) && Pop(t, 2) == below;
    BinaryOn(env, ADD, t);
    BothNumbers(t);
  }

  // Hash locks

  /** The five hash opcodes, in the order of their codes. */
  function HashOf(env: Env, op: Byte, v: Value): Value
    requires 0xa6 <= op <= 0xaa
  {
    match op
    case 0xa6 => env.ripemd160(v)
    case 0xa7 => env.sha1(v)
    case 0xa8 => env.sha256(v)
    case 0xa9 => env.hash160(v)
    case 0xaa => env.hash256(v)
  }

  /** A hash lock leaves true exactly for the values with that hash. */
  lemma HashLock(env: Env, op: Byte, h: Value, v: Value)
    requires 0xa6 <= op <= 0xaa && |h| <= MAX_ELEMENT_SIZE
    ensures Eval(env, [v], [op] + (PushBytes(h) + ([OP_EQUAL] + []))) == Some([BoolVch(HashOf(env, op, v) == h)])
  {
    hide Run, PushBytes, ParseOp;
    var rest: Script := [OP_EQUAL] + [];
    var s := [op] + (PushBytes(h) + rest);
    var st := State([v], [], [], 0, s);
    HashIs(env, op, v);
    StackOpExactly(env, op, PushBytes(h) + rest, st);
    var st1 := st.(stack := [HashOf(env, op, v)], opCount := 1);
    ParsePush(h, rest);
    PushExactly(env, PushBytes(h) + rest, st1);
    assert (PushBytes(h) + rest)[|PushBytes(h)|..] == rest;
    EqualExactly(env, [], HashOf(env, op, v), h);
    assert [] + [HashOf(env, op, v)] + [h] == [HashOf(env, op, v)] + [h];
    StackOpExactly(env, OP_EQUAL, [], st1.(stack := [HashOf(env, op, v)] + [h]));
    assert [] + [BoolVch(HashOf(env, op, v) == h)] == [BoolVch(HashOf(env, op, v) == h)];
    RunNothing(env, st1.(stack := [BoolVch(HashOf(env, op, v) == h)], opCount := 2));
    PushIsShort(h);
  }

  lemma PushIsShort(h: Value)
    requires |h| <= MAX_ELEMENT_SIZE
    ensures |PushBytes(h)| <= 523
  {
  }

  lemma HashIs(env: Env, op: Byte, v: Value)
    requires 0xa6 <= op <= 0xaa
    ensures StackOp(env, op, [v]) == Some([HashOf(env, op, v)])
  {
    assert Pop([v], 1) == [] && Top([v], 1) == v && [] + [HashOf(env, op, v)] == [HashOf(env, op, v)];
  }

  // Multisig

  /**
   * On the arguments of OP_CHECKMULTISIG: it fails for more than twenty keys, more signatures than keys, or too many
   * operations, each key counting as one; otherwise all arguments and one value below them give way to the answer.
   */
  lemma MultisigArguments(env: Env, below: Stack, dummy: Value, sigs: seq<Value>, v: Value, keys: seq<Value>, w: Value,
                          opCount: nat, code: Script)
    requires |v| <= 4 && |w| <= 4 && SetVch(v) == |sigs| && SetVch(w) == |keys|
    ensures MultisigOp(env, below + [dummy] + sigs + [v] + keys + [w], opCount, code)
            == if |keys| > 20 || |sigs| > |keys| || opCount + |keys| > 201 then None
               else
                 var valid := CheckWith(env, DropAll(code, Reversed(sigs)));
                 Some((below + [BoolVch(Assignable(valid, sigs, keys))], opCount + |keys|))
  {
    hide DropAll, Assignable, Down, CheckWith, Reversed, SetVch;
    var s := below + [dummy] + sigs + [v] + keys + [w];
    assert Top(s, 1) == w && Top(s, 2 + |keys|) == v && Pop(s, |keys| + |sigs| + 3) == below;
    if |keys| <= 20 && |sigs| <= |keys| && opCount + |keys| <= 201 {
      DownTo(below + [dummy] + sigs + [v], keys, [w], [], []);
      DownTo(below + [dummy], sigs, [v], keys, [w]);
      assert below + [dummy] + sigs + [v] + keys + [w] + [] + [] == s;
      AssignableReversed(CheckWith(env, DropAll(code, Reversed(sigs))), sigs, keys);
    }
  }

  // Other state

  /** What goes to the other stack comes back. */
  lemma AltStackReturns(env: Env, after: Script, st: State)
    requires st.stack != []
    ensures Execute(env, OP_TOALTSTACK, after, st).Some?
    ensures Execute(env, OP_FROMALTSTACK, after, Execute(env, OP_TOALTSTACK, after, st).value) == Some(st)
  {
    assert Pop(st.stack, 1) + [Top(st.stack, 1)] == st.stack;
    assert Pop(st.alt + [Top(st.stack, 1)], 1) == st.alt;
  }

  /** Behind a separator signatures sign what follows it. */
  lemma SeparatorCuts(env: Env, rest: Script, st: State)
    requires Running(st.exec) && st.opCount < MAX_OPS && |st.stack| + |st.alt| <= MAX_STACK
    ensures Run(env, [OP_CODESEPARATOR] + rest, st) == Run(env, rest, st.(code := rest, opCount := st.opCount + 1))
  {
    hide ParseOp;
    RunOne(env, OP_CODESEPARATOR, rest, st);
  }

  // What no script gets away with

  /** Splicing, bit logic, and most arithmetic beyond sums is disabled. */
  const DISABLED: set<int> := {0x7e, 0x7f, 0x80, 0x81, 0x83, 0x84, 0x85, 0x86, 0x8d, 0x8e, 0x95, 0x96, 0x97, 0x98, 0x99}

  /** Every instruction can be read, pushes at most 520 bytes, and is neither disabled nor one of the two reserved conditionals. */
  predicate Allowed(script: Script)
    decreases |script|
  {
    script != [] ==>
      match ParseOp(script)
      case None => false
      case Some(i) =>
        && |i.data| <= 520 && (i.op as int) !in DISABLED && i.op != 0x65 && i.op != 0x66
        && Allowed(script[i.len..])
  }

  /** The instructions that count as operations: all but pushes and small numbers. */
  function Operations(script: Script): nat
    decreases |script|
  {
    if script == [] then 0
    else
      match ParseOp(script)
      case None => 0
      case Some(i) => (if i.op > 0x60 then 1 else 0) + Operations(script[i.len..])
  }

  lemma StepAllowed(env: Env, i: Instr, after: Script, st: State)
    requires Step(env, i, after, st).Some?
    ensures |i.data| <= 520 && (i.op as int) !in DISABLED && i.op != 0x65 && i.op != 0x66
    ensures Step(env, i, after, st).value.opCount >= st.opCount + (if i.op > 0x60 then 1 else 0)
    ensures i.op > 0x60 ==> st.opCount < 201
  {
    hide StackOp, CheckSigOp;
  }

  /** A script that runs, taken branches or not, has allowed instructions only, and at most 201 operations. */
  lemma {:induction false} RunsOnlyIfAllowed(env: Env, script: Script, st: State)
    requires Run(env, script, st).Some?
    ensures Allowed(script) && Run(env, script, st).value.opCount >= st.opCount + Operations(script)
    ensures Operations(script) > 0 ==> st.opCount + Operations(script) <= 201
    decreases |script|
  {
    hide Step, ParseOp;
    if script != [] {
      var i := ParseOp(script).value;
      StepAllowed(env, i, script[i.len..], st);
      RunsOnlyIfAllowed(env, script[i.len..], Step(env, i, script[i.len..], st).value);
    }
  }

  /** So no longer script, and no other, has a result. */
  lemma EvalOnlyIfAllowed(env: Env, stack: seq<Value>, script: Script)
    requires Eval(env, stack, script).Some?
    ensures |script| <= 10000 && Allowed(script) && Operations(script) <= 201
  {
    hide Run;
    RunsOnlyIfAllowed(env, script, State(stack, [], [], 0, script));
  }
}
