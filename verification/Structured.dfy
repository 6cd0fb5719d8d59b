/**
 * Scripts as nested conditionals: a semantics without a condition stack, which the flat machine refines.
 */
module Structured {
  import opened Wrappers
  import opened Bytes
  import opened ScriptCode
  import opened Multisig
  import opened Interpreter

  /** An instruction and the script behind it. */
  datatype Located = Located(i: Instr, after: Script)

  /** The whole script as instructions, if it can be read to its end. */
  function Listing(script: Script): Option<seq<Located>>
    decreases |script|
  {
    if script == [] then Some([])
    else
      match ParseOp(script)
      case None => None
      case Some(i) =>
        match Listing(script[i.len..])
        case None => None
        case Some(rest) => Some([Located(i, script[i.len..])] + rest)
  }

  /** The flat machine on a listing. */
  ghost function RunList(env: Env, list: seq<Located>, st: State): Option<State>
    decreases |list|
  {
    if list == [] then Some(st)
    else
      match Step(env, list[0].i, list[0].after, st)
      case None => None
      case Some(st') => RunList(env, list[1..], st')
  }

  lemma {:induction false} RunIsRunList(env: Env, script: Script, st: State)
    ensures Run(env, script, st) == if Listing(script).None? then None else RunList(env, Listing(script).value, st)
    decreases |script|
  {
    hide Step;
    if script != [] && ParseOp(script).Some? {
      var i := ParseOp(script).value;
      var after := script[i.len..];
      var step := Step(env, i, after, st);
      if step.Some? {
        RunIsRunList(env, after, step.value);
      }
      if Listing(after).Some? {
        var rest := Listing(after).value;
        assert ([Located(i, after)] + rest)[1..] == rest;
      }
    }
  }

  // Structured programs

  /** A sequence of statements; a conditional has one or more branches, separated by OP_ELSE. */
  datatype Prog =
    | Nil
    | Simple(instr: Located, rest: Prog)
    | If(open: Located, branches: Branches, close: Located, rest: Prog)
  datatype Branches =
    | Last(body: Prog)
    | More(body: Prog, other: Located, branches: Branches)

  predicate IsOpen(op: Byte) {
    op == OP_IF || op == OP_NOTIF
  }

  predicate IsStructural(op: Byte) {
    IsOpen(op) || op == OP_ELSE || op == OP_ENDIF
  }

  predicate WellFormed(p: Prog) {
    match p
    case Nil => true
    case Simple(i, rest) => !IsStructural(i.i.op) && WellFormed(rest)
    case If(open, bs, close, rest) =>
      IsOpen(open.i.op) && close.i.op == OP_ENDIF && WellFormedBranches(bs) && WellFormed(rest)
  }

  predicate WellFormedBranches(bs: Branches) {
    match bs
    case Last(body) => WellFormed(body)
    case More(body, other, rest) => other.i.op == OP_ELSE && WellFormed(body) && WellFormedBranches(rest)
  }

  function Flatten(p: Prog): seq<Located> {
    match p
    case Nil => []
    case Simple(i, rest) => [i] + Flatten(rest)
    case If(open, bs, close, rest) => [open] + (FlattenBranches(bs) + ([close] + Flatten(rest)))
  }

  function FlattenBranches(bs: Branches): seq<Located> {
    match bs
    case Last(body) => Flatten(body)
    case More(body, other, rest) => Flatten(body) + ([other] + FlattenBranches(rest))
  }

  // Their meaning

  /** The machine without its condition stack. */
  datatype Store = Store(stack: seq<Value>, alt: seq<Value>, opCount: nat, code: Script)

  function Flat(s: Store, exec: seq<bool>): State {
    State(s.stack, s.alt, exec, s.opCount, s.code)
  }

  function Forget(st: State): Store {
    Store(st.stack, st.alt, st.opCount, st.code)
  }

  /** What every instruction is subject to, run or not. */
  function Gate(i: Instr, s: Store): Option<Store> {
    var n := CountOp(i.op, s.opCount);
    if |i.data| > MAX_ELEMENT_SIZE || (i.op > OP_16 && n > MAX_OPS) || Disabled(i.op) then None
    else Some(s.(opCount := n))
  }

  function Fits(s: Store): Option<Store> {
    if |s.stack| + |s.alt| > MAX_STACK then None else Some(s)
  }

  /** Passing over an instruction: both stacks stay, and OP_VERIF and OP_VERNOTIF still fail. */
  function Skip(i: Instr, s: Store): Option<Store> {
    if OP_IF <= i.op <= OP_ENDIF && !IsStructural(i.op) then None
    else match Gate(i, s) case None => None case Some(s') => Fits(s')
  }

  ghost function Do(env: Env, l: Located, s: Store): Option<Store> {
    if OP_IF <= l.i.op <= OP_ENDIF then None
    else
      match Gate(l.i, s)
      case None => None
      case Some(s') =>
        if l.i.op <= OP_PUSHDATA4 then Fits(s'.(stack := s'.stack + [l.i.data]))
        else
          match Execute(env, l.i.op, l.after, Flat(s', []))
          case None => None
          case Some(st) => Fits(Forget(st))
  }

  /** Opening a conditional pops the condition; the first branch is taken if it is true, or false for OP_NOTIF. */
  function Test(i: Instr, s: Store): Option<(bool, Store)> {
    match Gate(i, s)
    case None => None
    case Some(s') =>
      if |s'.stack| < 1 then None
      else
        match Fits(s'.(stack := Pop(s'.stack, 1)))
        case None => None
        case Some(s'') => Some((IsTrue(Top(s'.stack, 1)) == (i.op == OP_IF), s''))
  }

  /** on says whether the program is run or only passed over. */
  ghost function RunProg(env: Env, p: Prog, on: bool, s: Store): Option<Store> {
    match p
    case Nil => Some(s)
    case Simple(l, rest) =>
      (match (if on then Do(env, l, s) else Skip(l.i, s))
       case None => None
       case Some(s') => RunProg(env, rest, on, s'))
    case If(open, bs, close, rest) =>
      match (if on then Test(open.i, s) else match Skip(open.i, s) case None => None case Some(s') => Some((false, s')))
      case None => None
      case Some((taken, s1)) =>
        match RunBranches(env, bs, on, taken, s1)
        case None => None
        case Some(s2) =>
          match Skip(close.i, s2)
          case None => None
          case Some(s3) => RunProg(env, rest, on, s3)
  }

  /** The branches are taken alternately. */
  ghost function RunBranches(env: Env, bs: Branches, on: bool, taken: bool, s: Store): Option<Store> {
    match RunProg(env, bs.body, on && taken, s)
    case None => None
    case Some(s1) =>
      match bs
      case Last(_) => Some(s1)
      case More(_, other, rest) =>
        match Skip(other.i, s1)
        case None => None
        case Some(s2) => RunBranches(env, rest, on, !taken, s2)
  }

  /** Code that is not run leaves both stacks as they are. */
  lemma {:induction false} SkippedCodeIsInert(env: Env, p: Prog, s: Store)
    requires RunProg(env, p, false, s).Some?
    ensures var s' := RunProg(env, p, false, s).value;
      s'.stack == s.stack && s'.alt == s.alt && s'.code == s.code
  {
    hide Do;
    match p {
      case Nil =>
      case Simple(l, rest) =>
        SkippedCodeIsInert(env, rest, Skip(l.i, s).value);
      case If(open, bs, close, rest) =>
        var s1 := Skip(open.i, s).value;
        SkippedBranchesAreInert(env, bs, false, s1);
        SkippedCodeIsInert(env, rest, Skip(close.i, RunBranches(env, bs, false, false, s1).value).value);
    }
  }

  lemma {:induction false} SkippedBranchesAreInert(env: Env, bs: Branches, taken: bool, s: Store)
    requires RunBranches(env, bs, false, taken, s).Some?
    ensures var s' := RunBranches(env, bs, false, taken, s).value;
      s'.stack == s.stack && s'.alt == s.alt && s'.code == s.code
  {
    SkippedCodeIsInert(env, bs.body, s);
    if bs.More? {
      SkippedBranchesAreInert(env, bs.branches, !taken, Skip(bs.other.i, RunProg(env, bs.body, false, s).value).value);
    }
  }

  // The flat machine on flattened programs

  function Lift(r: Option<Store>, exec: seq<bool>): Option<State> {
    if r.None? then None else Some(Flat(r.value, exec))
  }

  lemma {:induction false} RunListConcat(env: Env, a: seq<Located>, b: seq<Located>, st: State)
    ensures RunList(env, a + b, st) ==
            match RunList(env, a, st) case None => None case Some(st') => RunList(env, b, st')
    decreases |a|
  {
    hide Step;
    if a == [] {
      assert a + b == b;
    } else {
      assert (a + b)[0] == a[0] && (a + b)[1..] == a[1..] + b;
      var step := Step(env, a[0].i, a[0].after, st);
      if step.Some? {
        RunListConcat(env, a[1..], b, step.value);
      }
    }
  }

  lemma RunListCons(env: Env, l: Located, rest: seq<Located>, st: State)
    ensures RunList(env, [l] + rest, st) ==
            match Step(env, l.i, l.after, st) case None => None case Some(st') => RunList(env, rest, st')
  {
    hide Step;
    assert ([l] + rest)[1..] == rest;
  }

  lemma ExecuteIgnoresConditions(env: Env, op: Byte, after: Script, s: Store, exec: seq<bool>)
    ensures Execute(env, op, after, Flat(s, exec)) ==
            match Execute(env, op, after, Flat(s, [])) case None => None case Some(st) => Some(st.(exec := exec))
  {
    hide StackOp, MultisigOp, CheckSigOp;
  }

  /** A statement that is not part of a conditional. */
  lemma StepSimple(env: Env, l: Located, s: Store, exec: seq<bool>)
    requires !IsStructural(l.i.op)
    ensures Step(env, l.i, l.after, Flat(s, exec))
            == Lift(if Running(exec) then Do(env, l, s) else Skip(l.i, s), exec)
  {
    hide Execute;
    var s' := s.(opCount := CountOp(l.i.op, s.opCount));
    ExecuteIgnoresConditions(env, l.i.op, l.after, s', exec);
    assert Flat(s, exec).(opCount := s'.opCount) == Flat(s', exec);
  }

  lemma RunningSnoc(exec: seq<bool>, b: bool)
    ensures Running(exec + [b]) <==> Running(exec) && b
  {
    assert forall i | 0 <= i < |exec| :: (exec + [b])[i] == exec[i];
    assert (exec + [b])[|exec|] == b;
  }

  lemma StepOpen(env: Env, l: Located, s: Store, exec: seq<bool>)
    requires IsOpen(l.i.op)
    ensures Step(env, l.i, l.after, Flat(s, exec)) ==
      if Running(exec) then
        match Test(l.i, s) case None => None case Some((taken, s')) => Some(Flat(s', exec + [taken]))
      else Lift(Skip(l.i, s), exec + [false])
  {
    hide Execute;
  }

  lemma StepElse(env: Env, l: Located, s: Store, exec: seq<bool>, taken: bool)
    requires l.i.op == OP_ELSE
    ensures Step(env, l.i, l.after, Flat(s, exec + [taken])) == Lift(Skip(l.i, s), exec + [!taken])
  {
    hide Execute;
    assert (exec + [taken])[|exec| := !taken] == exec + [!taken];
  }

  lemma StepClose(env: Env, l: Located, s: Store, exec: seq<bool>, taken: bool)
    requires l.i.op == OP_ENDIF
    ensures Step(env, l.i, l.after, Flat(s, exec + [taken])) == Lift(Skip(l.i, s), exec)
  {
    hide Execute;
    assert (exec + [taken])[..|exec|] == exec;
  }

  /** On a well-formed program the flat machine does what the program means, at any nesting depth. */
  lemma {:induction false} FlatRunsProg(env: Env, p: Prog, s: Store, exec: seq<bool>)
    requires WellFormed(p)
    ensures RunList(env, Flatten(p), Flat(s, exec)) == Lift(RunProg(env, p, Running(exec), s), exec)
    decreases p, 2
  {
    hide Step, Do, Test, Skip;
    match p {
      case Nil =>
      case Simple(l, rest) =>
        RunListCons(env, l, Flatten(rest), Flat(s, exec));
        StepSimple(env, l, s, exec);
        var r := if Running(exec) then Do(env, l, s) else Skip(l.i, s);
        if r.Some? {
          FlatRunsProg(env, rest, r.value, exec);
        }
      case If(open, bs, close, rest) =>
        RunListCons(env, open, FlattenBranches(bs) + ([close] + Flatten(rest)), Flat(s, exec));
        StepOpen(env, open, s, exec);
        if Running(exec) {
          if Test(open.i, s).Some? {
            var (taken, s1) := Test(open.i, s).value;
            FlatRunsIf(env, p, s1, exec, taken);
          }
        } else if Skip(open.i, s).Some? {
          FlatRunsIf(env, p, Skip(open.i, s).value, exec, false);
        }
    }
  }

  /** From the first branch of the conditional on. */
  lemma {:induction false} FlatRunsIf(env: Env, p: Prog, s: Store, exec: seq<bool>, taken: bool)
    requires p.If? && WellFormed(p)
    ensures RunList(env, FlattenBranches(p.branches) + ([p.close] + Flatten(p.rest)), Flat(s, exec + [taken])) ==
      match RunBranches(env, p.branches, Running(exec), taken, s)
      case None => None
      case Some(s2) =>
        match Skip(p.close.i, s2)
        case None => None
        case Some(s3) => Lift(RunProg(env, p.rest, Running(exec), s3), exec)
    decreases p, 1
  {
    hide Step, Do, Test, Skip;
    RunListConcat(env, FlattenBranches(p.branches), [p.close] + Flatten(p.rest), Flat(s, exec + [taken]));
    var last := FlatRunsBranches(env, p.branches, s, exec, taken);
    var r := RunBranches(env, p.branches, Running(exec), taken, s);
    if r.Some? {
      RunListCons(env, p.close, Flatten(p.rest), Flat(r.value, exec + [last]));
      StepClose(env, p.close, r.value, exec, last);
      if Skip(p.close.i, r.value).Some? {
        FlatRunsProg(env, p.rest, Skip(p.close.i, r.value).value, exec);
      }
    }
  }

  lemma {:induction false} FlatRunsBranches(env: Env, bs: Branches, s: Store, exec: seq<bool>, taken: bool)
    returns (last: bool)
    requires WellFormedBranches(bs)
    ensures RunList(env, FlattenBranches(bs), Flat(s, exec + [taken]))
            == Lift(RunBranches(env, bs, Running(exec), taken, s), exec + [last])
    decreases bs, 0
  {
    hide Step, Do, Test, Skip;
    RunningSnoc(exec, taken);
    FlatRunsProg(env, bs.body, s, exec + [taken]);
    last := taken;
    if bs.More? {
      var tail := [bs.other] + FlattenBranches(bs.branches);
      RunListConcat(env, Flatten(bs.body), tail, Flat(s, exec + [taken]));
      var r := RunProg(env, bs.body, Running(exec) && taken, s);
      if r.Some? {
        RunListCons(env, bs.other, FlattenBranches(bs.branches), Flat(r.value, exec + [taken]));
        StepElse(env, bs.other, r.value, exec, taken);
        if Skip(bs.other.i, r.value).Some? {
          last := FlatRunsBranches(env, bs.branches, Skip(bs.other.i, r.value).value, exec, !taken);
        }
      }
    }
  }

  // Reading the structure

  /** As many whole statements as there are in front, and what follows them. */
  function ParseProg(list: seq<Located>): (r: Option<(Prog, seq<Located>)>)
    ensures r.Some? ==> |r.value.1| <= |list|
    decreases |list|, 1
  {
    if list == [] || list[0].i.op == OP_ELSE || list[0].i.op == OP_ENDIF then Some((Nil, list))
    else if IsOpen(list[0].i.op) then
      match ParseBranches(list[1..])
      case None => None
      case Some((bs, close, after)) =>
        match ParseProg(after)
        case None => None
        case Some((p, rest)) => Some((If(list[0], bs, close, p), rest))
    else
      match ParseProg(list[1..])
      case None => None
      case Some((p, rest)) => Some((Simple(list[0], p), rest))
  }

  /** The branches of a conditional up to its OP_ENDIF, and what follows that. */
  function ParseBranches(list: seq<Located>): (r: Option<(Branches, Located, seq<Located>)>)
    ensures r.Some? ==> |r.value.2| < |list|
    decreases |list|, 2
  {
    match ParseProg(list)
    case None => None
    case Some((body, rest)) =>
      if rest == [] then None
      else if rest[0].i.op == OP_ENDIF then Some((Last(body), rest[0], rest[1..]))
      else
        match ParseBranches(rest[1..])
        case None => None
        case Some((bs, close, after)) => Some((More(body, rest[0], bs), close, after))
  }

  lemma Regroup(a: seq<Located>, b: seq<Located>, c: seq<Located>)
    ensures a + b + c == a + (b + c)
  {
  }

  lemma {:induction false} ParsedProg(list: seq<Located>)
    requires ParseProg(list).Some?
    ensures var (p, rest) := ParseProg(list).value;
      && WellFormed(p) && Flatten(p) + rest == list
      && (rest != [] ==> rest[0].i.op == OP_ELSE || rest[0].i.op == OP_ENDIF)
    decreases |list|, 1
  {
    if list != [] && !(list[0].i.op == OP_ELSE || list[0].i.op == OP_ENDIF) {
      assert list == [list[0]] + list[1..];
      if IsOpen(list[0].i.op) {
        ParsedBranches(list[1..]);
        var (bs, close, after) := ParseBranches(list[1..]).value;
        ParsedProg(after);
        var (p, rest) := ParseProg(after).value;
        Regroup([close], Flatten(p), rest);
        Regroup(FlattenBranches(bs), [close] + Flatten(p), rest);
        Regroup([list[0]], FlattenBranches(bs) + ([close] + Flatten(p)), rest);
      } else {
        ParsedProg(list[1..]);
        var (p, rest) := ParseProg(list[1..]).value;
        Regroup([list[0]], Flatten(p), rest);
      }
    } else {
      assert Flatten(Nil) + list == list;
    }
  }

  lemma {:induction false} ParsedBranches(list: seq<Located>)
    requires ParseBranches(list).Some?
    ensures var (bs, close, after) := ParseBranches(list).value;
      WellFormedBranches(bs) && close.i.op == OP_ENDIF && FlattenBranches(bs) + ([close] + after) == list
    decreases |list|, 2
  {
    ParsedProg(list);
    var (body, rest) := ParseProg(list).value;
    assert rest == [rest[0]] + rest[1..];
    if rest[0].i.op == OP_ELSE {
      ParsedBranches(rest[1..]);
      var (bs, close, after) := ParseBranches(rest[1..]).value;
      Regroup([rest[0]], FlattenBranches(bs), [close] + after);
      Regroup(Flatten(body), [rest[0]] + FlattenBranches(bs), [close] + after);
    }
  }

  // Unbalanced scripts fail

  /** The nesting depth after the list, if it never drops below zero. */
  function Depth(list: seq<Located>, d: nat): Option<nat>
    decreases |list|
  {
    if list == [] then Some(d)
    else
      var op := list[0].i.op;
      if IsOpen(op) then Depth(list[1..], d + 1)
      else if op == OP_ELSE then if d == 0 then None else Depth(list[1..], d)
      else if op == OP_ENDIF then if d == 0 then None else Depth(list[1..], d - 1)
      else Depth(list[1..], d)
  }

  lemma StepDepth(env: Env, l: Located, st: State)
    requires Step(env, l.i, l.after, st).Some?
    ensures var n := |Step(env, l.i, l.after, st).value.exec|;
      && (IsOpen(l.i.op) ==> n == |st.exec| + 1)
      && (l.i.op == OP_ELSE ==> n == |st.exec| > 0)
      && (l.i.op == OP_ENDIF ==> |st.exec| > 0 && n == |st.exec| - 1)
      && (!IsStructural(l.i.op) ==> n == |st.exec|)
  {
    if !IsStructural(l.i.op) {
      StepSimple(env, l, Forget(st), st.exec);
    } else {
      hide Execute;
    }
  }

  lemma {:induction false} RunDepth(env: Env, list: seq<Located>, st: State)
    requires RunList(env, list, st).Some?
    ensures Depth(list, |st.exec|) == Some(|RunList(env, list, st).value.exec|)
    decreases |list|
  {
    if list != [] {
      StepDepth(env, list[0], st);
      hide Step;
      RunDepth(env, list[1..], Step(env, list[0].i, list[0].after, st).value);
    }
  }

  lemma {:induction false} DepthConcat(a: seq<Located>, b: seq<Located>, d: nat)
    ensures Depth(a + b, d) == match Depth(a, d) case None => None case Some(d') => Depth(b, d')
    decreases |a|
  {
    if a == [] {
      assert a + b == b;
    } else {
      assert (a + b)[0] == a[0] && (a + b)[1..] == a[1..] + b;
      var op := a[0].i.op;
      if IsOpen(op) {
        DepthConcat(a[1..], b, d + 1);
      } else if op == OP_ENDIF {
        if d > 0 { DepthConcat(a[1..], b, d - 1); }
      } else {
        DepthConcat(a[1..], b, d);
      }
    }
  }

  lemma {:induction false} ProgDepth(p: Prog, d: nat)
    requires WellFormed(p)
    ensures Depth(Flatten(p), d) == Some(d)
  {
    match p {
      case Nil =>
      case Simple(l, rest) =>
        ProgDepth(rest, d);
        assert Flatten(p)[1..] == Flatten(rest);
      case If(open, bs, close, rest) =>
        var tail := [close] + Flatten(rest);
        assert Flatten(p)[1..] == FlattenBranches(bs) + tail;
        DepthConcat(FlattenBranches(bs), tail, d + 1);
        BranchesDepth(bs, d + 1);
        assert tail[1..] == Flatten(rest);
        ProgDepth(rest, d);
    }
  }

  lemma {:induction false} BranchesDepth(bs: Branches, d: nat)
    requires WellFormedBranches(bs) && d > 0
    ensures Depth(FlattenBranches(bs), d) == Some(d)
  {
    ProgDepth(bs.body, d);
    if bs.More? {
      var tail := [bs.other] + FlattenBranches(bs.branches);
      DepthConcat(Flatten(bs.body), tail, d);
      assert tail[1..] == FlattenBranches(bs.branches);
      BranchesDepth(bs.branches, d);
    }
  }

  /** A list with a conditional that is never closed ends deeper than it began. */
  lemma {:induction false} UnparsedStaysDeep(list: seq<Located>, d: nat)
    requires ParseProg(list).None? && Depth(list, d).Some?
    ensures Depth(list, d).value > d
    decreases |list|, 1
  {
    if IsOpen(list[0].i.op) {
      if ParseBranches(list[1..]).None? {
        UnparsedBranchesStayDeep(list[1..], d + 1);
      } else {
        var (bs, close, after) := ParseBranches(list[1..]).value;
        ParsedBranches(list[1..]);
        DepthConcat(FlattenBranches(bs), [close] + after, d + 1);
        BranchesDepth(bs, d + 1);
        assert ([close] + after)[1..] == after;
        UnparsedStaysDeep(after, d);
      }
    } else {
      UnparsedStaysDeep(list[1..], d);
    }
  }

  lemma {:induction false} UnparsedBranchesStayDeep(list: seq<Located>, d: nat)
    requires d > 0 && ParseBranches(list).None? && Depth(list, d).Some?
    ensures Depth(list, d).value >= d
    decreases |list|, 2
  {
    if ParseProg(list).None? {
      UnparsedStaysDeep(list, d);
    } else {
      var (body, rest) := ParseProg(list).value;
      ParsedProg(list);
      DepthConcat(Flatten(body), rest, d);
      ProgDepth(body, d);
      if rest != [] {
        UnparsedBranchesStayDeep(rest[1..], d);
      }
    }
  }

  /** The structured evaluator: the script must be nothing but whole statements. */
  ghost function EvalStructured(env: Env, stack: seq<Value>, script: Script): Option<seq<Value>> {
    if |script| > MAX_SCRIPT_SIZE || Listing(script).None? then None
    else
      match ParseProg(Listing(script).value)
      case None => None
      case Some((p, rest)) =>
        if rest != [] then None
        else
          match RunProg(env, p, true, Store(stack, [], 0, script))
          case None => None
          case Some(s) => Some(s.stack)
  }

  /**
   * EvalScript refines the structured semantics: it succeeds exactly on scripts that are balanced and whose
   * structured run succeeds, with the same stack.
   */
  lemma FlatRefinesStructured(env: Env, stack: seq<Value>, script: Script)
    ensures Eval(env, stack, script) == EvalStructured(env, stack, script)
  {
    hide Step;
    var s := Store(stack, [], 0, script);
    var st := Flat(s, []);
    RunIsRunList(env, script, st);
    if Listing(script).Some? {
      var list := Listing(script).value;
      if ParseProg(list).None? {
        if RunList(env, list, st).Some? {
          RunDepth(env, list, st);
          UnparsedStaysDeep(list, 0);
        }
      } else {
        var (p, rest) := ParseProg(list).value;
        ParsedProg(list);
        RunListConcat(env, Flatten(p), rest, st);
        FlatRunsProg(env, p, s, []);
        if rest != [] && RunProg(env, p, true, s).Some? {
          var s' := RunProg(env, p, true, s).value;
          if RunList(env, rest, Flat(s', [])).Some? {
            RunDepth(env, rest, Flat(s', []));
          }
        }
      }
    }
  }
}
