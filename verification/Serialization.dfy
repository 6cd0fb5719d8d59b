/** Compact sizes and vectors on a stream (src/serialize.h). */
module Serialization {
  import opened Wrappers
  import opened Bytes
  import opened Streams

  const MAX_SIZE := 0x0200_0000

  /** A parser returns the value and the bytes that are left. */
  type Parser<T> = seq<Byte> -> Option<(T, seq<Byte>)>

  function GetSizeOfCompactSize(n: nat): nat {
    if n < 253 then 1
    else if n <= 0xffff then 3
    else if n <= 0xffff_ffff then 5
    else 9
  }

  function CompactSize(n: nat): (r: seq<Byte>)
    ensures |r| == GetSizeOfCompactSize(n)
  {
    if n < 253 then [n]
    else if n <= 0xffff then [253] + LittleEndian(n, 2)
    else if n <= 0xffff_ffff then [254] + LittleEndian(n, 4)
    else [255] + LittleEndian(n, 8)
  }

  function ParseInt(s: seq<Byte>, k: nat): Option<(nat, seq<Byte>)> {
    if |s| < k then None else Some((FromLittleEndian(s[..k]), s[k..]))
  }

  /** Any of the four forms is accepted, shortest or not; a size over MAX_SIZE is refused. */
  function ParseCompactSize(s: seq<Byte>): Option<(nat, seq<Byte>)> {
    if s == [] then None
    else
      var n :=
        if s[0] < 253 then Some((s[0], s[1..]))
        else ParseInt(s[1..], if s[0] == 253 then 2 else if s[0] == 254 then 4 else 8);
      if n.None? || n.value.0 > MAX_SIZE then None else n
  }

  lemma ParseIntRoundTrip(n: nat, k: nat, rest: seq<Byte>)
    requires n < Pow256(k)
    ensures ParseInt(LittleEndian(n, k) + rest, k) == Some((n, rest))
  {
    var s := LittleEndian(n, k) + rest;
    assert s[..k] == LittleEndian(n, k) && s[k..] == rest;
    LittleEndianRoundTrip(n, k);
  }

  /** The form of a compact size that a first byte announces. */
  lemma ParseAnnounced(first: Byte, n: nat, k: nat, rest: seq<Byte>)
    requires first >= 253 && k == (if first == 253 then 2 else if first == 254 then 4 else 8) && n < Pow256(k)
    ensures ParseCompactSize([first] + LittleEndian(n, k) + rest) == if n <= MAX_SIZE then Some((n, rest)) else None
  {
    hide LittleEndian, Pow256, ParseInt;
    var s := [first] + LittleEndian(n, k) + rest;
    assert s[1..] == LittleEndian(n, k) + rest;
    ParseIntRoundTrip(n, k, rest);
  }

  /** What is written is read back exactly when the size is one the reader accepts. */
  lemma CompactSizeRoundTrip(n: nat, rest: seq<Byte>)
    requires n < 0x1_0000_0000_0000_0000
    ensures ParseCompactSize(CompactSize(n) + rest) == if n <= MAX_SIZE then Some((n, rest)) else None
  {
    Pow256Values();
    hide LittleEndian, Pow256, ParseInt;
    if n < 253 {
      hide LittleEndian;
      assert (CompactSize(n) + rest)[1..] == rest;
    } else {
      hide ParseCompactSize;
      var first := if n <= 0xffff then 253 else if n <= 0xffff_ffff then 254 else 255;
      ParseAnnounced(first, n, if first == 253 then 2 else if first == 254 then 4 else 8, rest);
    }
  }

  /** Nothing shorter is read as the same size. */
  lemma ShortestCompactSize(n: nat, s: seq<Byte>, rest: seq<Byte>)
    requires ParseCompactSize(s) == Some((n, rest))
    ensures |rest| <= |s| && |s| - |rest| >= |CompactSize(n)|
  {
    Pow256Values();
    if s[0] >= 253 {
      var k := if s[0] == 253 then 2 else if s[0] == 254 then 4 else 8;
      FromLittleEndianBound(s[1..][..k]);
    }
    hide FromLittleEndian, Pow256, CompactSize;
  }

  method WriteCompactSize(os: DataStream, n: nat)
    requires os.Valid() && n < 0x1_0000_0000_0000_0000
    modifies os
    ensures os.Valid() && os.Contents() == old(os.Contents()) + CompactSize(n)
  {
    hide LittleEndian;
    if n < 253 {
      os.Write([n]);
    } else if n <= 0xffff {
      os.Write([253]);
      os.Write(LittleEndian(n, 2));
    } else if n <= 0xffff_ffff {
      os.Write([254]);
      os.Write(LittleEndian(n, 4));
    } else {
      os.Write([255]);
      os.Write(LittleEndian(n, 8));
    }
  }

  method ReadCompactSize(ins: DataStream) returns (r: Option<nat>)
    requires ins.Valid()
    modifies ins
    ensures ins.Valid()
    ensures r.Some? <==> ParseCompactSize(old(ins.Contents())).Some?
    ensures r.Some? ==> ParseCompactSize(old(ins.Contents())) == Some((r.value, ins.Contents()))
  {
    var first := ins.Read(1);
    if first.None? {
      return None;
    }
    var size: nat := first.value[0];
    if size >= 253 {
      var k := if size == 253 then 2 else if size == 254 then 4 else 8;
      var bytes := ins.Read(k);
      if bytes.None? {
        return None;
      }
      size := FromLittleEndian(bytes.value);
    }
    r := if size > MAX_SIZE then None else Some(size);
  }

  // Vectors

  function PrintMany<T>(v: seq<T>, encode: T -> seq<Byte>): seq<Byte> {
    if v == [] then [] else encode(v[0]) + PrintMany(v[1..], encode)
  }

  function PrintVector<T>(v: seq<T>, encode: T -> seq<Byte>): seq<Byte> {
    CompactSize(|v|) + PrintMany(v, encode)
  }

  function ParseMany<T>(s: seq<Byte>, n: nat, parse: Parser<T>): Option<(seq<T>, seq<Byte>)>
    decreases n
  {
    if n == 0 then Some(([], s))
    else
      match parse(s)
      case None => None
      case Some((x, s')) =>
        match ParseMany(s', n - 1, parse)
        case None => None
        case Some((xs, rest)) => Some(([x] + xs, rest))
  }

  function ParseVector<T>(s: seq<Byte>, parse: Parser<T>): Option<(seq<T>, seq<Byte>)> {
    match ParseCompactSize(s)
    case None => None
    case Some((n, s')) => ParseMany(s', n, parse)
  }

  ghost predicate RoundTrips<T(!new)>(x: T, encode: T -> seq<Byte>, parse: Parser<T>) {
    forall rest :: parse(encode(x) + rest) == Some((x, rest))
  }

  lemma {:induction false} ManyRoundTrip<T(!new)>(v: seq<T>, encode: T -> seq<Byte>, parse: Parser<T>, rest: seq<Byte>)
    requires forall i | 0 <= i < |v| :: RoundTrips(v[i], encode, parse)
    ensures ParseMany(PrintMany(v, encode) + rest, |v|, parse) == Some((v, rest))
  {
    if v != [] {
      var tail := PrintMany(v[1..], encode) + rest;
      assert PrintMany(v, encode) + rest == encode(v[0]) + tail;
      assert RoundTrips(v[0], encode, parse);
      assert forall i | 0 <= i < |v[1..]| :: v[1..][i] == v[i + 1];
      ManyRoundTrip(v[1..], encode, parse, rest);
      assert [v[0]] + v[1..] == v;
    } else {
      assert PrintMany(v, encode) + rest == rest;
    }
  }

  lemma VectorRoundTrip<T(!new)>(v: seq<T>, encode: T -> seq<Byte>, parse: Parser<T>, rest: seq<Byte>)
    requires |v| <= MAX_SIZE
    requires forall i | 0 <= i < |v| :: RoundTrips(v[i], encode, parse)
    ensures ParseVector(PrintVector(v, encode) + rest, parse) == Some((v, rest))
  {
    assert PrintVector(v, encode) + rest == CompactSize(|v|) + (PrintMany(v, encode) + rest);
    CompactSizeRoundTrip(|v|, PrintMany(v, encode) + rest);
    ManyRoundTrip(v, encode, parse, rest);
  }

  lemma {:induction false} PrintManySnoc<T>(v: seq<T>, x: T, encode: T -> seq<Byte>)
    ensures PrintMany(v + [x], encode) == PrintMany(v, encode) + encode(x)
  {
    if v == [] {
      assert PrintMany([x], encode) == encode(x) + PrintMany([x][1..], encode);
    } else {
      assert (v + [x])[1..] == v[1..] + [x];
      PrintManySnoc(v[1..], x, encode);
    }
  }

  /** A vector of non-fundamental elements: the count, then each element. */
  method WriteVector<T>(os: DataStream, v: seq<T>, encode: T -> seq<Byte>)
    requires os.Valid() && |v| < 0x1_0000_0000_0000_0000
    modifies os
    ensures os.Valid() && os.Contents() == old(os.Contents()) + PrintVector(v, encode)
  {
    WriteCompactSize(os, |v|);
    ghost var start := os.Contents();
    for i := 0 to |v|
      invariant os.Valid() && os.Contents() == start + PrintMany(v[..i], encode)
    {
      os.Write(encode(v[i]));
      PrintManySnoc(v[..i], v[i], encode);
      assert v[..i + 1] == v[..i] + [v[i]];
    }
    assert v[..|v|] == v;
  }

  ghost predicate IsSuffix(t: seq<Byte>, s: seq<Byte>) {
    |t| <= |s| && t == s[|s| - |t|..]
  }

  /** A parser consumes from the front and leaves the rest alone. */
  ghost predicate LeavesSuffix<T>(parse: Parser<T>) {
    forall s :: parse(s).Some? ==> IsSuffix(parse(s).value.1, s)
  }

  lemma {:induction false} ParseManySnoc<T>(s: seq<Byte>, n: nat, parse: Parser<T>)
    ensures ParseMany(s, n + 1, parse) ==
            match ParseMany(s, n, parse)
            case None => None
            case Some((xs, rest)) =>
              match parse(rest)
              case None => None
              case Some((x, rest')) => Some((xs + [x], rest'))
    decreases n
  {
    if n == 0 {
      assert ParseMany(s, 0, parse) == Some(([], s));
      if parse(s).Some? {
        var (x, s') := parse(s).value;
        assert ParseMany(s', 0, parse) == Some(([], s'));
        assert [x] + [] == [] + [x];
      }
    } else if parse(s).Some? {
      var (x, s') := parse(s).value;
      ParseManySnoc(s', n - 1, parse);
      if ParseMany(s', n - 1, parse).Some? {
        var (xs, rest) := ParseMany(s', n - 1, parse).value;
        if parse(rest).Some? {
          assert [x] + (xs + [parse(rest).value.0]) == [x] + xs + [parse(rest).value.0];
        }
      }
    }
  }

  lemma {:induction false} ParseManyFails<T>(s: seq<Byte>, i: nat, n: nat, parse: Parser<T>)
    requires i <= n && ParseMany(s, i, parse).None?
    ensures ParseMany(s, n, parse).None?
  {
    if i < n {
      ParseManyFails(s, i, n - 1, parse);
      ParseManySnoc(s, n - 1, parse);
    }
  }

  /** Reads elements until there are nMid of them. */
  method ReadElements<T>(ins: DataStream, parse: Parser<T>, v0: seq<T>, nMid: nat, ghost start: seq<Byte>)
    returns (r: Option<seq<T>>)
    requires ins.Valid() && LeavesSuffix(parse) && |v0| <= nMid
    requires ParseMany(start, |v0|, parse) == Some((v0, ins.Contents()))
    modifies ins
    ensures ins.Valid()
    ensures r.None? ==> ParseMany(start, nMid, parse).None?
    ensures r.Some? ==> |r.value| == nMid && ParseMany(start, nMid, parse) == Some((r.value, ins.Contents()))
  {
    hide ParseMany;
    var v := v0;
    while |v| < nMid
      invariant ins.Valid() && |v| <= nMid && ParseMany(start, |v|, parse) == Some((v, ins.Contents()))
      decreases nMid - |v|
    {
      ParseManySnoc(start, |v|, parse);
      var unread := ins.Contents();
      match parse(unread) {
        case None =>
          ParseManyFails(start, |v| + 1, nMid, parse);
          return None;
        case Some((x, rest)) =>
          assert IsSuffix(rest, unread);
          ins.EraseFront(|unread| - |rest|);
          v := v + [x];
      }
    }
    r := Some(v);
  }

  /**
   * A vector of non-fundamental elements. The source grows the vector in batches of a size set by the
   * element type, so that a bogus count cannot make it allocate everything at once.
   */
  method ReadVector<T>(ins: DataStream, parse: Parser<T>, batch: nat) returns (r: Option<seq<T>>)
    requires ins.Valid() && batch > 0 && LeavesSuffix(parse)
    modifies ins
    ensures ins.Valid()
    ensures r.Some? <==> ParseVector(old(ins.Contents()), parse).Some?
    ensures r.Some? ==> ParseVector(old(ins.Contents()), parse) == Some((r.value, ins.Contents()))
  {
    var n := ReadCompactSize(ins);
    if n.None? {
      return None;
    }
    ghost var start := ins.Contents();
    var v: seq<T> := [];
    var nMid: nat := 0;
    while nMid < n.value
      invariant ins.Valid() && nMid <= n.value
      invariant ParseMany(start, nMid, parse) == Some((v, ins.Contents())) && |v| == nMid
    {
      nMid := if nMid + batch > n.value then n.value else nMid + batch;
      var more := ReadElements(ins, parse, v, nMid, start);
      if more.None? {
        ParseManyFails(start, nMid, n.value, parse);
        return None;
      }
      v := more.value;
    }
    r := Some(v);
  }

  // Vectors of bytes

  function PrintBytes(v: seq<Byte>): seq<Byte> {
    CompactSize(|v|) + v
  }

  function ParseBytes(s: seq<Byte>): Option<(seq<Byte>, seq<Byte>)> {
    match ParseCompactSize(s)
    case None => None
    case Some((n, s')) => if n <= |s'| then Some((s'[..n], s'[n..])) else None
  }

  lemma BytesRoundTrip(v: seq<Byte>, rest: seq<Byte>)
    requires |v| < 0x1_0000_0000_0000_0000
    ensures ParseBytes(PrintBytes(v) + rest) == if |v| <= MAX_SIZE then Some((v, rest)) else None
  {
    assert PrintBytes(v) + rest == CompactSize(|v|) + (v + rest);
    CompactSizeRoundTrip(|v|, v + rest);
  }

  /** Reads the bytes in blocks of at most 5,000,000. */
  method ReadBytes(ins: DataStream) returns (r: Option<seq<Byte>>)
    requires ins.Valid()
    modifies ins
    ensures ins.Valid()
    ensures r.Some? <==> ParseBytes(old(ins.Contents())).Some?
    ensures r.Some? ==> ParseBytes(old(ins.Contents())) == Some((r.value, ins.Contents()))
  {
    var n := ReadCompactSize(ins);
    if n.None? {
      return None;
    }
    ghost var start := ins.Contents();
    var v: seq<Byte> := [];
    while |v| < n.value
      invariant ins.Valid() && |v| <= n.value && |v| <= |start|
      invariant v == start[..|v|] && ins.Contents() == start[|v|..]
      decreases n.value - |v|
    {
      var blk := if n.value - |v| < 5000000 then n.value - |v| else 5000000;
      var bytes := ins.Read(blk);
      if bytes.None? {
        return None;
      }
      v := v + bytes.value;
    }
    r := Some(v);
  }
}
