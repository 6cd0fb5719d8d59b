/** Cutting the receive buffer into messages (src/main.cpp, ProcessMessages; src/protocol.cpp, CMessageHeader). */
module Framing {
  import opened Sequences
  import opened Wrappers
  import opened Bytes
  import opened Streams
  import opened Serialization

  const START: seq<Byte> := [0xfc, 0xd9, 0xb7, 0xdd]
  const HEADER_SIZE: nat := 24
  const COMMAND_SIZE := 12

  /** The first four bytes of the double hash of a payload. */
  type Checksum = seq<Byte> -> UInt32

  datatype Message = Message(command: seq<Byte>, payload: seq<Byte>)

  // Headers

  datatype Header = Header(start: seq<Byte>, command: seq<Byte>, size: nat, checksum: nat)

  function ParseHeader(s: seq<Byte>): (h: Header)
    requires |s| == HEADER_SIZE
    ensures |h.start| == 4 && |h.command| == COMMAND_SIZE
  {
    Header(s[..4], s[4..16], FromLittleEndian(s[16..20]), FromLittleEndian(s[20..24]))
  }

  predicate Printable(b: Byte) {
    0x20 <= b <= 0x7e
  }

  /** Printable characters, then nothing but zeros. */
  predicate CommandOk(c: seq<Byte>) {
    exists n :: 0 <= n <= |c| && IsCommand(c, n)
  }

  predicate IsCommand(c: seq<Byte>, n: nat)
    requires n <= |c|
  {
    (forall i | 0 <= i < n :: Printable(c[i])) && (forall i | n <= i < |c| :: c[i] == 0)
  }

  predicate HeaderOk(h: Header) {
    h.start == START && CommandOk(h.command) && h.size <= MAX_SIZE
  }

  method IsValid(h: Header) returns (ok: bool)
    ensures ok <==> HeaderOk(h)
  {
    if h.start != START {
      return false;
    }
    var p1, c := 0, h.command;
    while p1 < |c|
      invariant p1 <= |c| && forall i | 0 <= i < p1 :: Printable(c[i])
    {
      if c[p1] == 0 {
        var n := p1;
        while p1 < |c|
          invariant n <= p1 <= |c| && forall i | n <= i < p1 :: c[i] == 0
        {
          if c[p1] != 0 {
            ZeroInside(c, n, p1);
            return false;
          }
          p1 := p1 + 1;
        }
        assert IsCommand(c, n);
        return h.size <= MAX_SIZE;
      } else if c[p1] < 0x20 || c[p1] > 0x7e {
        NeitherInside(c, p1);
        return false;
      }
      p1 := p1 + 1;
    }
    assert IsCommand(c, |c|);
    ok := h.size <= MAX_SIZE;
  }

  lemma ZeroInside(c: seq<Byte>, i: nat, j: nat)
    requires i < j < |c| && c[i] == 0 && c[j] != 0
    ensures !CommandOk(c)
  {
    forall n | 0 <= n <= |c| ensures !IsCommand(c, n) {
      assert n > i ==> !Printable(c[i]);
    }
  }

  lemma NeitherInside(c: seq<Byte>, i: nat)
    requires i < |c| && c[i] != 0 && !Printable(c[i])
    ensures !CommandOk(c)
  {
    forall n | 0 <= n <= |c| ensures !IsCommand(c, n) {
      assert n > i ==> !Printable(c[i]);
    }
  }

  /** The command up to its first zero byte. */
  function Command(c: seq<Byte>): seq<Byte> {
    if c == [] || c[0] == 0 then [] else [c[0]] + Command(c[1..])
  }

  /** The command up to its first zero byte, or all of it if the last byte is not zero; for valid commands the same. */
  method GetCommand(c: seq<Byte>) returns (r: seq<Byte>)
    requires |c| == COMMAND_SIZE
    ensures r == if c[COMMAND_SIZE - 1] == 0 then Command(c) else c
    ensures CommandOk(c) ==> r == Command(c)
  {
    if c[COMMAND_SIZE - 1] == 0 {
      var len := 0;
      assert c[..0] == [];
      while c[len] != 0
        invariant len < |c| && Command(c) == c[..len] + Command(c[len..])
        decreases |c| - len
      {
        assert c[..len + 1] == c[..len] + [c[len]] && c[len..][1..] == c[len + 1..];
        len := len + 1;
      }
      assert c[..len] + [] == c[..len];
      r := c[..len];
    } else {
      if CommandOk(c) {
        WholeCommand(c);
      }
      r := c;
    }
  }

  lemma WholeCommand(c: seq<Byte>)
    requires CommandOk(c) && c != [] && c[|c| - 1] != 0
    ensures Command(c) == c
  {
    var n :| 0 <= n <= |c| && IsCommand(c, n);
    NoZeros(c);
  }

  lemma {:induction false} NoZeros(c: seq<Byte>)
    requires forall i | 0 <= i < |c| :: c[i] != 0
    ensures Command(c) == c
  {
    if c != [] {
      NoZeros(c[1..]);
      assert [c[0]] + c[1..] == c;
    }
  }

  // One round of the loop

  predicate StartsAt(s: seq<Byte>, i: nat) {
    i + 4 <= |s| && s[i..i + 4] == START
  }

  /** Where the first start string begins, or the end. */
  function FindStart(s: seq<Byte>): (p: nat)
    ensures p <= |s|
  {
    if s == [] || StartsAt(s, 0) then 0 else 1 + FindStart(s[1..])
  }

  /** p is the first place where a start string begins, or the end. */
  predicate IsFirstStart(s: seq<Byte>, p: nat) {
    p <= |s| && (p < |s| ==> StartsAt(s, p)) && forall i | 0 <= i < p :: !StartsAt(s, i)
  }

  lemma StartsShift(s: seq<Byte>, g: nat, i: nat)
    requires g <= |s|
    ensures StartsAt(s[g..], i) <==> StartsAt(s, g + i)
  {
    if g + i + 4 <= |s| {
      SliceOfSuffix(s, g, i, i + 4);
    }
  }

  lemma {:induction false} StartUnique(s: seq<Byte>, p: nat)
    ensures IsFirstStart(s, p) <==> p == FindStart(s)
  {
    hide StartsAt;
    if s != [] && !StartsAt(s, 0) {
      var q := FindStart(s[1..]);
      StartUnique(s[1..], q);
      StartsShift(s, 1, q);
      forall i | 0 <= i < q + 1 ensures !StartsAt(s, i) {
        if i > 0 {
          StartsShift(s, 1, i - 1);
        }
      }
      if p < q + 1 {
        assert !StartsAt(s, p);
      } else if p > q + 1 && q < |s| - 1 {
        assert StartsAt(s, q + 1);
      }
    }
  }

  datatype Outcome = Wait(rest: seq<Byte>) | Skip(rest: seq<Byte>) | Got(message: Message, rest: seq<Byte>)

  function Step(check: Checksum, s: seq<Byte>): (r: Outcome)
    ensures !r.Wait? ==> |r.rest| < |s|
  {
    var p := FindStart(s);
    if |s| - p < HEADER_SIZE then Wait(if |s| > HEADER_SIZE then s[|s| - HEADER_SIZE..] else s)
    else
      var h, rest := ParseHeader(s[p..p + HEADER_SIZE]), s[p + HEADER_SIZE..];
      if !HeaderOk(h) then Skip(rest)
      else if h.size > |rest| then Wait(s[p..])
      else if check(rest[..h.size]) != h.checksum then Skip(rest)
      else Got(Message(Command(h.command), rest[..h.size]), rest[h.size..])
  }

  /** The messages in a buffer and the bytes that stay in it. */
  function Run(check: Checksum, s: seq<Byte>): (seq<Message>, seq<Byte>)
    decreases |s|
  {
    match Step(check, s)
    case Wait(rest) => ([], rest)
    case Skip(rest) => Run(check, rest)
    case Got(m, rest) => ([m] + Run(check, rest).0, Run(check, rest).1)
  }

  method Search(s: seq<Byte>) returns (p: nat)
    ensures p == FindStart(s)
  {
    p := 0;
    hide FindStart;
    while p < |s| && !(p + 4 <= |s| && s[p..p + 4] == START)
      invariant p <= |s| && forall i | 0 <= i < p :: !StartsAt(s, i)
    {
      p := p + 1;
    }
    assert IsFirstStart(s, p);
    StartUnique(s, p);
  }

  /** One round: whether to go on, and the message found if any. */
  method NextMessage(check: Checksum, vRecv: DataStream) returns (go: bool, m: Option<Message>)
    requires vRecv.Valid()
    modifies vRecv
    ensures vRecv.Valid() && vRecv.Contents() == Step(check, old(vRecv.Contents())).rest
    ensures go <==> !Step(check, old(vRecv.Contents())).Wait?
    ensures m == match Step(check, old(vRecv.Contents())) case Got(x, _) => Some(x) case _ => None
  {
    hide FindStart, HeaderOk, ParseHeader, Command, CommandOk;
    ghost var s := vRecv.Contents();
    var pstart := Search(vRecv.Contents());
    var size := |vRecv.Contents()|;
    if size - pstart < HEADER_SIZE {
      if size > HEADER_SIZE {
        vRecv.EraseFront(size - HEADER_SIZE);
      }
      return false, None;
    }
    vRecv.EraseFront(pstart);
    var vHeaderSave := vRecv.Contents()[..HEADER_SIZE];
    SliceAt(s, pstart, HEADER_SIZE);
    var bytes := vRecv.Read(HEADER_SIZE);
    var hdr := ParseHeader(bytes.value);
    var valid := IsValid(hdr);
    if !valid {
      return true, None;
    }
    var strCommand := CommandOf(hdr);
    var nMessageSize := hdr.size;
    if nMessageSize > |vRecv.Contents()| {
      vRecv.InsertFront(vHeaderSave);
      return false, None;
    }
    var payload := vRecv.Contents()[..nMessageSize];
    if check(payload) != hdr.checksum {
      return true, None;
    }
    var ok := vRecv.Ignore(nMessageSize);
    return true, Some(Message(strCommand, payload));
  }

  method CommandOf(h: Header) returns (r: seq<Byte>)
    requires HeaderOk(h) && |h.command| == COMMAND_SIZE
    ensures r == Command(h.command)
  {
    r := GetCommand(h.command);
  }

  /** Messages are dispatched in the order found; what a handler does with its own copy of the payload is not modelled. */
  method ProcessMessages(check: Checksum, vRecv: DataStream) returns (messages: seq<Message>)
    requires vRecv.Valid()
    modifies vRecv
    ensures vRecv.Valid() && (messages, vRecv.Contents()) == Run(check, old(vRecv.Contents()))
  {
    messages := [];
    if vRecv.Contents() == [] {
      RunNothing(check);
      return;
    }
    hide Step;
    ghost var s := vRecv.Contents();
    assert [] + Run(check, s).0 == Run(check, s).0;
    while true
      invariant vRecv.Valid() && Run(check, s) == After(messages, Run(check, vRecv.Contents()))
      decreases |vRecv.Contents()|
    {
      var go, m := NextMessage(check, vRecv);
      if !go {
        assert messages + [] == messages;
        break;
      }
      if m.Some? {
        AfterOne(messages, m.value, Run(check, vRecv.Contents()));
        messages := messages + [m.value];
      }
    }
    vRecv.Compact();
  }

  function After(m: seq<Message>, r: (seq<Message>, seq<Byte>)): (seq<Message>, seq<Byte>) {
    (m + r.0, r.1)
  }

  lemma AfterOne(ms: seq<Message>, m: Message, r: (seq<Message>, seq<Byte>))
    ensures After(ms, ([m] + r.0, r.1)) == After(ms + [m], r)
  {
    assert ms + ([m] + r.0) == ms + [m] + r.0;
  }

  lemma SliceAt(s: seq<Byte>, p: nat, n: nat)
    requires p + n <= |s|
    ensures s[p..][..n] == s[p..p + n] && s[p..][n..] == s[p + n..] && s[p..p + n] + s[p + n..] == s[p..]
  {
  }

  // However the stream is cut

  /** A start string that lies in front does not depend on what follows. */
  lemma StartsInFront(a: seq<Byte>, b: seq<Byte>, i: nat)
    requires i + 4 <= |a|
    ensures StartsAt(a + b, i) <==> StartsAt(a, i)
  {
    assert (a + b)[i..i + 4] == a[i..i + 4];
  }

  lemma FitsStart(s: seq<Byte>, i: nat)
    requires StartsAt(s, i)
    ensures i + 4 <= |s|
  {
  }

  lemma StartFound(a: seq<Byte>, b: seq<Byte>)
    requires FindStart(a) < |a|
    ensures FindStart(a + b) == FindStart(a)
  {
    hide StartsAt, FindStart;
    var p := FindStart(a);
    StartUnique(a, p);
    FitsStart(a, p);
    StartsInFront(a, b, p);
    forall i | 0 <= i < p ensures !StartsAt(a + b, i) {
      StartsInFront(a, b, i);
    }
    StartUnique(a + b, p);
  }

  lemma Slices(a: seq<Byte>, b: seq<Byte>, i: nat, j: nat)
    requires i <= j <= |a|
    ensures (a + b)[i..j] == a[i..j] && (a + b)[i..] == a[i..] + b
  {
  }

  /** What a round does once it can do something does not depend on the bytes still to come. */
  lemma StepSettled(check: Checksum, a: seq<Byte>, b: seq<Byte>)
    requires !Step(check, a).Wait?
    ensures Step(check, a + b) == Step(check, a).(rest := Step(check, a).rest + b)
  {
    hide HeaderOk, FindStart, ParseHeader;
    var p := FindStart(a);
    StartFound(a, b);
    Slices(a, b, p, p + HEADER_SIZE);
    Slices(a, b, p + HEADER_SIZE, p + HEADER_SIZE);
    var h, rest := ParseHeader(a[p..p + HEADER_SIZE]), a[p + HEADER_SIZE..];
    if h.size <= |rest| {
      Slices(rest, b, 0, h.size);
      Slices(rest, b, h.size, h.size);
      assert (rest + b)[..h.size] == (rest + b)[0..h.size] && rest[..h.size] == rest[0..h.size];
    }
  }

  lemma {:induction false} StartBehind(s: seq<Byte>, g: nat)
    requires g <= |s| && forall i | 0 <= i < g :: !StartsAt(s, i)
    ensures FindStart(s) == g + FindStart(s[g..])
    decreases g
  {
    hide StartsAt;
    if g == 0 {
      assert s[0..] == s;
    } else {
      forall i | 0 <= i < g - 1 ensures !StartsAt(s[1..], i) {
        StartsShift(s, 1, i);
      }
      StartBehind(s[1..], g - 1);
      assert s[1..][g - 1..] == s[g..];
    }
  }

  /** Garbage in front makes no difference, if a header's worth of bytes stays. */
  lemma DropGarbage(check: Checksum, s: seq<Byte>, g: nat)
    requires g <= |s| && (forall i | 0 <= i < g :: !StartsAt(s, i)) && (g == 0 || |s| - g >= HEADER_SIZE)
    ensures Step(check, s[g..]) == Step(check, s)
  {
    hide HeaderOk, FindStart, ParseHeader;
    StartBehind(s, g);
    var t := s[g..];
    var p := FindStart(t);
    if |t| - p < HEADER_SIZE {
      assert g == 0 ==> t == s;
      if |t| >= HEADER_SIZE {
        SliceOfSuffix(s, g, |t| - HEADER_SIZE, |t|);
      }
    } else {
      SliceOfSuffix(s, g, p, p + HEADER_SIZE);
      SliceOfSuffix(s, g, p + HEADER_SIZE, |t|);
    }
  }

  /** A round that waits keeps all that matters. */
  lemma WaitKeeps(check: Checksum, a: seq<Byte>, b: seq<Byte>)
    requires Step(check, a).Wait?
    ensures Step(check, Step(check, a).rest + b) == Step(check, a + b)
  {
    hide Step, StartsAt;
    var r := Step(check, a).rest;
    var g := |a| - |r|;
    WaitIsSuffix(check, a);
    forall i | 0 <= i < g ensures !StartsAt(a + b, i) {
      StartsInFront(a, b, i);
    }
    Slices(a, b, g, g);
    DropGarbage(check, a + b, g);
  }

  lemma WaitIsSuffix(check: Checksum, a: seq<Byte>)
    requires Step(check, a).Wait?
    ensures var r := Step(check, a).rest; |r| <= |a| && r == a[|a| - |r|..]
    ensures var g := |a| - |Step(check, a).rest|;
      g == 0 || (g + HEADER_SIZE <= |a| && forall i | 0 <= i < g :: !StartsAt(a, i))
  {
    hide HeaderOk, ParseHeader, StartsAt, FindStart;
    StartUnique(a, FindStart(a));
  }

  /** Cutting the stream anywhere gives the same messages and leaves the same bytes. */
  lemma {:induction false} CutAnywhere(check: Checksum, a: seq<Byte>, b: seq<Byte>)
    ensures Run(check, a + b) == After(Run(check, a).0, Run(check, Run(check, a).1 + b))
    decreases |a|
  {
    hide Step;
    match Step(check, a) {
      case Wait(rest) =>
        WaitKeeps(check, a, b);
        assert [] + Run(check, rest + b).0 == Run(check, rest + b).0;
      case Skip(rest) =>
        StepSettled(check, a, b);
        CutAnywhere(check, rest, b);
      case Got(m, rest) =>
        StepSettled(check, a, b);
        CutAnywhere(check, rest, b);
        AfterOne([], m, Run(check, rest + b));
        assert [m] + (Run(check, rest).0 + Run(check, Run(check, rest).1 + b).0)
            == ([m] + Run(check, rest).0) + Run(check, Run(check, rest).1 + b).0;
    }
  }

  function Concat(chunks: seq<seq<Byte>>): seq<Byte> {
    if chunks == [] then [] else Concat(chunks[..|chunks| - 1]) + chunks[|chunks| - 1]
  }

  /** Delivering the chunks one after the other, with a call of ProcessMessages after each. */
  function Deliver(check: Checksum, chunks: seq<seq<Byte>>): (seq<Message>, seq<Byte>) {
    if chunks == [] then ([], [])
    else
      var (messages, rest) := Deliver(check, chunks[..|chunks| - 1]);
      After(messages, Run(check, rest + chunks[|chunks| - 1]))
  }

  lemma RunNothing(check: Checksum)
    ensures Run(check, []) == ([], [])
  {
  }

  /** Framing does not depend on how the stream was cut into chunks. */
  lemma {:induction false} ChunkIndependent(check: Checksum, chunks: seq<seq<Byte>>)
    ensures Deliver(check, chunks) == Run(check, Concat(chunks))
  {
    if chunks == [] {
      RunNothing(check);
    } else {
      ChunkIndependent(check, chunks[..|chunks| - 1]);
      CutAnywhere(check, Concat(chunks[..|chunks| - 1]), chunks[|chunks| - 1]);
    }
  }

  // What gets through

  function Frame(check: Checksum, m: Message, command: seq<Byte>): seq<Byte> {
    START + command + LittleEndian(|m.payload|, 4) + LittleEndian(check(m.payload), 4) + m.payload
  }

  lemma FrameParses(check: Checksum, m: Message, command: seq<Byte>)
    requires |command| == COMMAND_SIZE && |m.payload| <= MAX_SIZE
    ensures var f := Frame(check, m, command);
      && |f| == HEADER_SIZE + |m.payload| && StartsAt(f, 0) && f[HEADER_SIZE..] == m.payload
      && ParseHeader(f[..HEADER_SIZE]) == Header(START, command, |m.payload|, check(m.payload))
  {
    Pow256Values();
    var f := Frame(check, m, command);
    var size, sum := LittleEndian(|m.payload|, 4), LittleEndian(check(m.payload), 4);
    LittleEndianRoundTrip(|m.payload|, 4);
    LittleEndianRoundTrip(check(m.payload), 4);
    var h := f[..HEADER_SIZE];
    assert f[0..4] == START && h[..4] == START && h[4..16] == command;
    assert h[16..20] == size && h[20..24] == sum;
  }

  /** A well-formed message behind any garbage is dispatched, and the stream goes on right behind it. */
  lemma FrameDelivered(check: Checksum, garbage: seq<Byte>, m: Message, command: seq<Byte>, rest: seq<Byte>)
    requires |command| == COMMAND_SIZE && CommandOk(command) && m.command == Command(command) && |m.payload| <= MAX_SIZE
    requires forall i | 0 <= i < |garbage| :: !StartsAt(garbage + Frame(check, m, command), i)
    ensures Run(check, garbage + Frame(check, m, command) + rest) == After([m], Run(check, rest))
  {
    var f, g := Frame(check, m, command), |garbage|;
    var s := garbage + f;
    FrameParses(check, m, command);
    StartBehind(s, g);
    assert s[g..] == f;
    StartUnique(f, 0);
    SliceOfSuffix(s, g, 0, HEADER_SIZE);
    SliceOfSuffix(s, g, HEADER_SIZE, |f|);
    assert f[0..HEADER_SIZE] == f[..HEADER_SIZE] && m.payload[..|m.payload|] == m.payload && m.payload[|m.payload|..] == [];
    hide FindStart, CommandOk, ParseHeader;
    assert Step(check, s) == Got(m, []);
    StepSettled(check, s, rest);
    assert [] + rest == rest;
  }

  // What does not get through

  /** The twelve bytes are printable characters, which are the command, and zeros behind them. */
  predicate IsPadded(c: seq<Byte>, command: seq<Byte>) {
    && |command| <= |c| && c[..|command|] == command
    && (forall i | 0 <= i < |command| :: 0x20 <= command[i] <= 0x7e) && (forall i | |command| <= i < |c| :: c[i] == 0)
  }

  lemma CommandIsPadded(c: seq<Byte>)
    requires CommandOk(c)
    ensures IsPadded(c, Command(c))
  {
    var n :| 0 <= n <= |c| && IsCommand(c, n);
    CommandUpTo(c, n);
  }

  lemma {:induction false} CommandUpTo(c: seq<Byte>, n: nat)
    requires n <= |c| && IsCommand(c, n)
    ensures Command(c) == c[..n]
    decreases n
  {
    if n > 0 {
      forall i | 0 <= i < n - 1 ensures Printable(c[1..][i]) {
        assert c[1..][i] == c[i + 1];
      }
      CommandUpTo(c[1..], n - 1);
      assert [c[0]] + c[1..][..n - 1] == c[..n];
    }
  }

  /** A message stands at p: header with the start string, a proper command, the payload's size and its checksum. */
  predicate FrameAt(check: Checksum, s: seq<Byte>, p: nat, m: Message) {
    && p + HEADER_SIZE + |m.payload| <= |s| && |m.payload| <= 0x0200_0000
    && s[p..p + 4] == [0xfc, 0xd9, 0xb7, 0xdd] && IsPadded(s[p + 4..p + 16], m.command)
    && FromLittleEndian(s[p + 16..p + 20]) == |m.payload|
    && FromLittleEndian(s[p + 20..p + 24]) == check(m.payload)
    && s[p + HEADER_SIZE..p + HEADER_SIZE + |m.payload|] == m.payload
  }

  /** The messages stand at these places, one behind the other. */
  predicate FramesAt(check: Checksum, s: seq<Byte>, at: seq<nat>, ms: seq<Message>) {
    && |at| == |ms| && (forall k | 0 <= k < |ms| :: FrameAt(check, s, at[k], ms[k]))
    && forall j, k | 0 <= j < k < |ms| :: at[j] + HEADER_SIZE + |ms[j].payload| <= at[k]
  }

  lemma FrameShift(check: Checksum, s: seq<Byte>, g: nat, p: nat, m: Message)
    requires g <= |s| && FrameAt(check, s[g..], p, m)
    ensures FrameAt(check, s, g + p, m)
  {
    hide IsPadded, FromLittleEndian;
    SliceOfSuffix(s, g, p, p + 4);
    SliceOfSuffix(s, g, p + 4, p + 16);
    SliceOfSuffix(s, g, p + 16, p + 20);
    SliceOfSuffix(s, g, p + 20, p + 24);
    SliceOfSuffix(s, g, p + HEADER_SIZE, p + HEADER_SIZE + |m.payload|);
  }

  lemma GotParts(check: Checksum, s: seq<Byte>)
    requires Step(check, s).Got?
    ensures var p := FindStart(s);
      && p + HEADER_SIZE <= |s|
      && var h, rest := ParseHeader(s[p..p + HEADER_SIZE]), s[p + HEADER_SIZE..];
         && HeaderOk(h) && h.size <= |rest| && check(rest[..h.size]) == h.checksum
         && Step(check, s) == Got(Message(Command(h.command), rest[..h.size]), rest[h.size..])
  {
    hide FindStart, HeaderOk, ParseHeader, Command;
  }

  lemma HeaderAt(s: seq<Byte>, p: nat)
    requires p + HEADER_SIZE <= |s|
    ensures ParseHeader(s[p..p + HEADER_SIZE])
            == Header(s[p..p + 4], s[p + 4..p + 16], FromLittleEndian(s[p + 16..p + 20]), FromLittleEndian(s[p + 20..p + 24]))
  {
    hide FromLittleEndian;
    var bytes := s[p..p + HEADER_SIZE];
    assert bytes[..4] == s[p..p + 4] && bytes[4..16] == s[p + 4..p + 16];
    assert bytes[16..20] == s[p + 16..p + 20] && bytes[20..24] == s[p + 20..p + 24];
  }

  lemma GotStands(check: Checksum, s: seq<Byte>)
    requires Step(check, s).Got?
    ensures var p, m := FindStart(s), Step(check, s).message;
      FrameAt(check, s, p, m) && p + HEADER_SIZE + |m.payload| + |Step(check, s).rest| == |s|
  {
    hide FindStart, CommandOk, Command, FromLittleEndian, IsPadded, Step, ParseHeader;
    var p := FindStart(s);
    GotParts(check, s);
    HeaderAt(s, p);
    CommandIsPadded(s[p + 4..p + 16]);
    var h, rest := ParseHeader(s[p..p + HEADER_SIZE]), s[p + HEADER_SIZE..];
    SliceOfSuffix(s, p + HEADER_SIZE, 0, h.size);
    assert rest[..h.size] == rest[0..h.size];
  }

  lemma SkipIsSuffix(check: Checksum, s: seq<Byte>)
    requires !Step(check, s).Wait?
    ensures Step(check, s).rest == s[|s| - |Step(check, s).rest|..]
  {
    hide FindStart, HeaderOk, ParseHeader;
  }

  lemma FramesShift(check: Checksum, s: seq<Byte>, g: nat, at: seq<nat>, ms: seq<Message>) returns (r: seq<nat>)
    requires g <= |s| && FramesAt(check, s[g..], at, ms)
    ensures FramesAt(check, s, r, ms) && forall k | 0 <= k < |r| :: r[k] == g + at[k]
  {
    hide FrameAt;
    r := seq(|at|, k requires 0 <= k < |at| => g + at[k]);
    forall k | 0 <= k < |ms| ensures FrameAt(check, s, r[k], ms[k]) {
      FrameShift(check, s, g, at[k], ms[k]);
    }
  }

  lemma PutInFront(check: Checksum, s: seq<Byte>, p: nat, m: Message, at: seq<nat>, ms: seq<Message>)
    requires FrameAt(check, s, p, m) && FramesAt(check, s, at, ms)
    requires forall k | 0 <= k < |at| :: p + HEADER_SIZE + |m.payload| <= at[k]
    ensures FramesAt(check, s, [p] + at, [m] + ms)
  {
    hide FrameAt;
  }

  /**
   * Whatever is dispatched stands in the stream, in that order and without overlap, under a proper header with the right
   * checksum.
   */
  lemma {:induction false} DispatchedStands(check: Checksum, s: seq<Byte>) returns (at: seq<nat>)
    ensures FramesAt(check, s, at, Run(check, s).0)
    decreases |s|
  {
    hide Step, FrameAt;
    var o := Step(check, s);
    if o.Wait? {
      at := [];
    } else {
      SkipIsSuffix(check, s);
      var behind := DispatchedStands(check, o.rest);
      at := FramesShift(check, s, |s| - |o.rest|, behind, Run(check, o.rest).0);
      if o.Got? {
        GotStands(check, s);
        PutInFront(check, s, FindStart(s), o.message, at, Run(check, o.rest).0);
        at := [FindStart(s)] + at;
      }
    }
  }

  /** A frame whose header is not proper is skipped, and the search goes on right behind that header. */
  lemma BadHeaderSkipped(check: Checksum, garbage: seq<Byte>, header: seq<Byte>, rest: seq<Byte>)
    requires |header| == HEADER_SIZE && !HeaderOk(ParseHeader(header)) && IsFirstStart(garbage + header, |garbage|)
    ensures Run(check, garbage + header + rest) == Run(check, rest)
  {
    HeaderFound(check, garbage, header, []);
    hide HeaderOk, ParseHeader, FindStart;
    assert garbage + header + [] == garbage + header;
    StepSettled(check, garbage + header, rest);
    assert [] + rest == rest;
  }

  /** So is one with the wrong checksum, and its payload is searched again. */
  lemma BadChecksumSkipped(check: Checksum, garbage: seq<Byte>, header: seq<Byte>, payload: seq<Byte>, rest: seq<Byte>)
    requires |header| == HEADER_SIZE && ParseHeader(header).size == |payload| && IsFirstStart(garbage + header, |garbage|)
    requires check(payload) != ParseHeader(header).checksum
    ensures Run(check, garbage + header + payload + rest) == Run(check, payload + rest)
  {
    HeaderFound(check, garbage, header, payload);
    hide HeaderOk, ParseHeader, FindStart;
    assert payload[..|payload|] == payload;
    StepSettled(check, garbage + header + payload, rest);
  }

  /** One with a proper header whose payload is not complete stays in the buffer from its start on. */
  lemma IncompleteKept(check: Checksum, garbage: seq<Byte>, header: seq<Byte>, part: seq<Byte>)
    requires |header| == HEADER_SIZE && HeaderOk(ParseHeader(header)) && IsFirstStart(garbage + header, |garbage|)
    requires |part| < ParseHeader(header).size
    ensures Run(check, garbage + header + part) == ([], header + part)
  {
    HeaderFound(check, garbage, header, part);
    hide HeaderOk, ParseHeader, FindStart;
  }

  /** What the search finds behind garbage. */
  lemma HeaderFound(check: Checksum, garbage: seq<Byte>, header: seq<Byte>, rest: seq<Byte>)
    requires |header| == HEADER_SIZE && IsFirstStart(garbage + header, |garbage|)
    ensures var s, p := garbage + header + rest, |garbage|;
      FindStart(s) == p && s[p..p + HEADER_SIZE] == header && s[p + HEADER_SIZE..] == rest && s[p..] == header + rest
  {
    hide StartsAt, FindStart;
    StartUnique(garbage + header, |garbage|);
    StartFound(garbage + header, rest);
  }

  /** What stays in the buffer is short or the beginning of a message with an acceptable header. */
  lemma {:induction false} BufferBounded(check: Checksum, s: seq<Byte>)
    ensures |Run(check, s).1| < HEADER_SIZE + MAX_SIZE
    decreases |s|
  {
    var o := Step(check, s);
    hide FindStart, CommandOk;
    match o {
      case Wait(rest) =>
      case Skip(rest) => BufferBounded(check, rest);
      case Got(m, rest) => BufferBounded(check, rest);
    }
  }
}
