/** Transactions and blocks, their serialization, and where a transaction lies in a block file (src/main.h). */
module Transactions {
  import opened Wrappers
  import opened Bytes
  import opened Streams
  import opened Serialization

  const COIN := 100_000_000
  const MAX_MONEY := 10_000 * COIN

  predicate MoneyRange(value: int) {
    0 <= value <= MAX_MONEY
  }

  /** A uint256, as its 32 bytes in memory order. */
  datatype Hash = Hash(bytes: Bytes32)

  const NULL_HASH := Hash(Zeros(32))

  datatype OutPoint = OutPoint(hash: Hash, n: UInt32) {
    predicate IsNull() { hash == NULL_HASH && n == 0xffff_ffff }
  }
  datatype TxIn = TxIn(prevout: OutPoint, scriptSig: seq<Byte>, sequence: UInt32)
  datatype TxOut = TxOut(value: Int64, scriptPubKey: seq<Byte>)
  datatype Tx = Tx(version: Int32, vin: seq<TxIn>, vout: seq<TxOut>, lockTime: UInt32) {
    predicate IsCoinBase() { |vin| == 1 && vin[0].prevout.IsNull() }
  }
  datatype Block = Block(version: Int32, hashPrevBlock: Hash, hashMerkleRoot: Hash,
                         time: UInt32, bits: UInt32, nonce: UInt32, vtx: seq<Tx>)

  // Fixed-size fields: signed values are written in two's complement.

  function PrintInt32(x: Int32): (r: seq<Byte>) ensures |r| == 4 {
    LittleEndian(if x < 0 then x + 0x1_0000_0000 else x, 4)
  }

  function PrintInt64(x: Int64): (r: seq<Byte>) ensures |r| == 8 {
    LittleEndian(if x < 0 then x + 0x1_0000_0000_0000_0000 else x, 8)
  }

  function ParseInt32(s: seq<Byte>): Option<(Int32, seq<Byte>)> {
    if |s| < 4 then None
    else
      Pow256Values(); FromLittleEndianBound(s[..4]);
      var n := FromLittleEndian(s[..4]);
      Some((if n >= 0x8000_0000 then n - 0x1_0000_0000 else n, s[4..]))
  }

  function ParseInt64(s: seq<Byte>): Option<(Int64, seq<Byte>)> {
    if |s| < 8 then None
    else
      Pow256Values(); FromLittleEndianBound(s[..8]);
      var n := FromLittleEndian(s[..8]);
      Some((if n >= 0x8000_0000_0000_0000 then n - 0x1_0000_0000_0000_0000 else n, s[8..]))
  }

  function ParseUInt32(s: seq<Byte>): Option<(UInt32, seq<Byte>)> {
    if |s| < 4 then None
    else
      Pow256Values(); FromLittleEndianBound(s[..4]);
      Some((FromLittleEndian(s[..4]), s[4..]))
  }

  function ParseHash(s: seq<Byte>): Option<(Hash, seq<Byte>)> {
    if |s| < 32 then None else Some((Hash(s[..32]), s[32..]))
  }

  lemma Int32RoundTrip(x: Int32, rest: seq<Byte>)
    ensures ParseInt32(PrintInt32(x) + rest) == Some((x, rest))
  {
    Pow256Values();
    ParseIntRoundTrip(if x < 0 then x + 0x1_0000_0000 else x, 4, rest);
  }

  lemma Int64RoundTrip(x: Int64, rest: seq<Byte>)
    ensures ParseInt64(PrintInt64(x) + rest) == Some((x, rest))
  {
    Pow256Values();
    ParseIntRoundTrip(if x < 0 then x + 0x1_0000_0000_0000_0000 else x, 8, rest);
  }

  lemma UInt32RoundTrip(x: UInt32, rest: seq<Byte>)
    ensures ParseUInt32(LittleEndian(x, 4) + rest) == Some((x, rest))
  {
    Pow256Values();
    ParseIntRoundTrip(x, 4, rest);
  }

  lemma HashRoundTrip(h: Hash, rest: seq<Byte>)
    ensures ParseHash(h.bytes + rest) == Some((h, rest))
  {
    assert (h.bytes + rest)[..32] == h.bytes && (h.bytes + rest)[32..] == rest;
  }

  // Composite records, field by field in the order of the source's READWRITE lists

  function PrintTxIn(x: TxIn): seq<Byte> {
    x.prevout.hash.bytes + (LittleEndian(x.prevout.n, 4) + (PrintBytes(x.scriptSig) + LittleEndian(x.sequence, 4)))
  }

  function ParseTxIn(s: seq<Byte>): Option<(TxIn, seq<Byte>)> {
    match ParseHash(s)
    case None => None
    case Some((h, s1)) =>
      match ParseUInt32(s1)
      case None => None
      case Some((n, s2)) =>
        match ParseBytes(s2)
        case None => None
        case Some((sig, s3)) =>
          match ParseUInt32(s3)
          case None => None
          case Some((sequence, rest)) => Some((TxIn(OutPoint(h, n), sig, sequence), rest))
  }

  function PrintTxOut(x: TxOut): seq<Byte> {
    PrintInt64(x.value) + PrintBytes(x.scriptPubKey)
  }

  function ParseTxOut(s: seq<Byte>): Option<(TxOut, seq<Byte>)> {
    match ParseInt64(s)
    case None => None
    case Some((value, s1)) =>
      match ParseBytes(s1)
      case None => None
      case Some((script, rest)) => Some((TxOut(value, script), rest))
  }

  function PrintTx(tx: Tx): seq<Byte> {
    PrintInt32(tx.version) +
    (PrintVector(tx.vin, PrintTxIn) + (PrintVector(tx.vout, PrintTxOut) + LittleEndian(tx.lockTime, 4)))
  }

  function ParseTx(s: seq<Byte>): Option<(Tx, seq<Byte>)> {
    match ParseInt32(s)
    case None => None
    case Some((version, s1)) =>
      match ParseVector(s1, ParseTxIn)
      case None => None
      case Some((vin, s2)) =>
        match ParseVector(s2, ParseTxOut)
        case None => None
        case Some((vout, s3)) =>
          match ParseUInt32(s3)
          case None => None
          case Some((lockTime, rest)) => Some((Tx(version, vin, vout, lockTime), rest))
  }

  /** No count or script is longer than the reader accepts. */
  predicate Readable(tx: Tx) {
    && |tx.vin| <= MAX_SIZE && |tx.vout| <= MAX_SIZE
    && (forall i | 0 <= i < |tx.vin| :: |tx.vin[i].scriptSig| <= MAX_SIZE)
    && (forall i | 0 <= i < |tx.vout| :: |tx.vout[i].scriptPubKey| <= MAX_SIZE)
  }

  lemma TxInRoundTrip(x: TxIn)
    requires |x.scriptSig| <= MAX_SIZE
    ensures RoundTrips(x, PrintTxIn, ParseTxIn)
  {
    forall rest ensures ParseTxIn(PrintTxIn(x) + rest) == Some((x, rest)) {
      var s3 := LittleEndian(x.sequence, 4) + rest;
      var s2 := PrintBytes(x.scriptSig) + s3;
      var s1 := LittleEndian(x.prevout.n, 4) + s2;
      assert PrintTxIn(x) + rest == x.prevout.hash.bytes + s1;
      HashRoundTrip(x.prevout.hash, s1);
      UInt32RoundTrip(x.prevout.n, s2);
      BytesRoundTrip(x.scriptSig, s3);
      UInt32RoundTrip(x.sequence, rest);
    }
  }

  lemma TxOutRoundTrip(x: TxOut)
    requires |x.scriptPubKey| <= MAX_SIZE
    ensures RoundTrips(x, PrintTxOut, ParseTxOut)
  {
    forall rest ensures ParseTxOut(PrintTxOut(x) + rest) == Some((x, rest)) {
      var s1 := PrintBytes(x.scriptPubKey) + rest;
      assert PrintTxOut(x) + rest == PrintInt64(x.value) + s1;
      Int64RoundTrip(x.value, s1);
      BytesRoundTrip(x.scriptPubKey, rest);
    }
  }

  /** Parse after print is the identity, with the bytes that follow left over. */
  lemma TxRoundTrip(tx: Tx, rest: seq<Byte>)
    requires Readable(tx)
    ensures ParseTx(PrintTx(tx) + rest) == Some((tx, rest))
  {
    var s3 := LittleEndian(tx.lockTime, 4) + rest;
    var s2 := PrintVector(tx.vout, PrintTxOut) + s3;
    var s1 := PrintVector(tx.vin, PrintTxIn) + s2;
    assert PrintTx(tx) + rest == PrintInt32(tx.version) + s1;
    Int32RoundTrip(tx.version, s1);
    forall i | 0 <= i < |tx.vin| ensures RoundTrips(tx.vin[i], PrintTxIn, ParseTxIn) {
      TxInRoundTrip(tx.vin[i]);
    }
    VectorRoundTrip(tx.vin, PrintTxIn, ParseTxIn, s2);
    forall i | 0 <= i < |tx.vout| ensures RoundTrips(tx.vout[i], PrintTxOut, ParseTxOut) {
      TxOutRoundTrip(tx.vout[i]);
    }
    VectorRoundTrip(tx.vout, PrintTxOut, ParseTxOut, s3);
    UInt32RoundTrip(tx.lockTime, rest);
  }

  // GetSerializeSize

  function SumSizes<T>(v: seq<T>, size: T -> nat): nat {
    if v == [] then 0 else size(v[0]) + SumSizes(v[1..], size)
  }

  lemma {:induction false} SumSizesSnoc<T>(v: seq<T>, x: T, size: T -> nat)
    ensures SumSizes(v + [x], size) == SumSizes(v, size) + size(x)
  {
    if v == [] {
      assert [x][1..] == [];
    } else {
      assert (v + [x])[1..] == v[1..] + [x];
      SumSizesSnoc(v[1..], x, size);
    }
  }

  lemma {:induction false} SizeOfMany<T(!new)>(v: seq<T>, encode: T -> seq<Byte>, size: T -> nat)
    requires forall x :: |encode(x)| == size(x)
    ensures |PrintMany(v, encode)| == SumSizes(v, size)
  {
    if v != [] {
      SizeOfMany(v[1..], encode, size);
    }
  }

  /** GetSerializeSize of a vector of non-fundamental elements. */
  method VectorSize<T>(v: seq<T>, size: T -> nat) returns (n: nat)
    ensures n == GetSizeOfCompactSize(|v|) + SumSizes(v, size)
  {
    n := GetSizeOfCompactSize(|v|);
    for i := 0 to |v|
      invariant n == GetSizeOfCompactSize(|v|) + SumSizes(v[..i], size)
    {
      n := n + size(v[i]);
      SumSizesSnoc(v[..i], v[i], size);
      assert v[..i + 1] == v[..i] + [v[i]];
    }
    assert v[..|v|] == v;
  }

  function TxInSize(x: TxIn): nat {
    36 + GetSizeOfCompactSize(|x.scriptSig|) + |x.scriptSig| + 4
  }

  function TxOutSize(x: TxOut): nat {
    8 + GetSizeOfCompactSize(|x.scriptPubKey|) + |x.scriptPubKey|
  }

  /** ::GetSerializeSize(tx, SER_DISK, CLIENT_VERSION), computed without printing. */
  function TxSize(tx: Tx): nat {
    4 + (GetSizeOfCompactSize(|tx.vin|) + SumSizes(tx.vin, TxInSize))
      + (GetSizeOfCompactSize(|tx.vout|) + SumSizes(tx.vout, TxOutSize)) + 4
  }

  lemma TxSizeIsPrintedLength(tx: Tx)
    ensures |PrintTx(tx)| == TxSize(tx)
  {
    SizeOfMany(tx.vin, PrintTxIn, TxInSize);
    SizeOfMany(tx.vout, PrintTxOut, TxOutSize);
  }

  // Blocks

  const HEADER_SIZE := 80

  function PrintHeader(b: Block): (r: seq<Byte>)
    ensures |r| == HEADER_SIZE
  {
    PrintInt32(b.version) + b.hashPrevBlock.bytes + b.hashMerkleRoot.bytes +
    LittleEndian(b.time, 4) + LittleEndian(b.bits, 4) + LittleEndian(b.nonce, 4)
  }

  /** The transactions come last: ConnectBlock depends on it. */
  function PrintBlock(b: Block): seq<Byte> {
    PrintHeader(b) + PrintVector(b.vtx, PrintTx)
  }

  function SizeOfCount(b: Block): nat {
    GetSizeOfCompactSize(|b.vtx|)
  }

  /**
   * The position ConnectBlock records for transaction i of a block stored at blockPos:
   * GetSerializeSize(CBlock()) is the header plus one byte for the empty vector's count.
   */
  function TxOffset(b: Block, blockPos: nat, i: nat): nat
    requires i <= |b.vtx|
  {
    blockPos + (HEADER_SIZE + 1) - 1 + SizeOfCount(b) + SumSizes(b.vtx[..i], TxSize)
  }

  lemma NextOffset(b: Block, blockPos: nat, i: nat)
    requires i < |b.vtx|
    ensures TxOffset(b, blockPos, i + 1) == TxOffset(b, blockPos, i) + TxSize(b.vtx[i])
  {
    assert b.vtx[..i + 1] == b.vtx[..i] + [b.vtx[i]];
    SumSizesSnoc(b.vtx[..i], b.vtx[i], TxSize);
  }

  lemma {:induction false} PrintManyAt<T(!new)>(v: seq<T>, encode: T -> seq<Byte>, size: T -> nat, i: nat)
    requires i < |v|
    requires forall x :: |encode(x)| == size(x)
    ensures SumSizes(v[..i], size) <= |PrintMany(v, encode)|
    ensures PrintMany(v, encode)[SumSizes(v[..i], size)..] == encode(v[i]) + PrintMany(v[i + 1..], encode)
  {
    if i > 0 {
      PrintManyAt(v[1..], encode, size, i - 1);
      assert v[1..][..i - 1] == v[..i][1..];
      assert v[1..][i..] == v[i + 1..];
      var k := SumSizes(v[1..][..i - 1], size);
      assert SumSizes(v[..i], size) == size(v[0]) + k;
      assert PrintMany(v, encode)[size(v[0]) + k..] == PrintMany(v[1..], encode)[k..];
    }
  }

  /** Reading a transaction at a file offset (CTransaction::ReadFromDisk). */
  function ReadTxAt(file: seq<Byte>, offset: nat): Option<Tx> {
    if offset > |file| then None
    else match ParseTx(file[offset..]) case None => None case Some((tx, _)) => Some(tx)
  }

  ghost predicate HoldsAt(file: seq<Byte>, pos: nat, bytes: seq<Byte>) {
    pos + |bytes| <= |file| && file[pos..pos + |bytes|] == bytes
  }

  lemma SliceOfBlock(file: seq<Byte>, blockPos: nat, before: seq<Byte>, all: seq<Byte>, k: nat)
    requires HoldsAt(file, blockPos, before + all) && k <= |all|
    ensures file[blockPos + |before| + k..] == all[k..] + file[blockPos + |before| + |all|..]
  {
    var offset := blockPos + |before| + k;
    var stop := blockPos + |before| + |all|;
    assert file[offset..] == file[offset..stop] + file[stop..];
    assert file[offset..stop] == file[blockPos..stop][|before| + k..];
    assert (before + all)[|before| + k..] == all[k..];
  }

  /** The bytes at the i-th element of a vector stored after some leading bytes. */
  lemma ElementBytesAt<T(!new)>(file: seq<Byte>, pos: nat, before: seq<Byte>, v: seq<T>,
                                encode: T -> seq<Byte>, size: T -> nat, i: nat) returns (rest: seq<Byte>)
    requires HoldsAt(file, pos, before + PrintMany(v, encode))
    requires i < |v| && forall x :: |encode(x)| == size(x)
    ensures var offset := pos + |before| + SumSizes(v[..i], size);
      && offset + size(v[i]) <= pos + |before + PrintMany(v, encode)|
      && file[offset..] == encode(v[i]) + rest
  {
    PrintManyAt(v, encode, size, i);
    var k := SumSizes(v[..i], size);
    var all := PrintMany(v, encode);
    SliceOfBlock(file, pos, before, all, k);
    var after := PrintMany(v[i + 1..], encode);
    var tail := file[pos + |before| + |all|..];
    rest := after + tail;
    assert encode(v[i]) + after + tail == encode(v[i]) + rest;
  }

  lemma AllTxSizes()
    ensures forall tx :: |PrintTx(tx)| == TxSize(tx)
  {
    forall tx ensures |PrintTx(tx)| == TxSize(tx) { TxSizeIsPrintedLength(tx); }
  }

  function BeforeVtx(b: Block): (r: seq<Byte>)
    ensures |r| == HEADER_SIZE + GetSizeOfCompactSize(|b.vtx|)
  {
    PrintHeader(b) + CompactSize(|b.vtx|)
  }

  lemma BlockBytes(b: Block)
    ensures PrintBlock(b) == BeforeVtx(b) + PrintMany(b.vtx, PrintTx)
  {
  }

  lemma TxBytesAt(file: seq<Byte>, b: Block, blockPos: nat, i: nat) returns (rest: seq<Byte>)
    requires HoldsAt(file, blockPos, PrintBlock(b)) && i < |b.vtx|
    ensures TxOffset(b, blockPos, i) + TxSize(b.vtx[i]) <= blockPos + |PrintBlock(b)|
    ensures file[TxOffset(b, blockPos, i)..] == PrintTx(b.vtx[i]) + rest
  {
    AllTxSizes();
    BlockBytes(b);
    rest := ElementBytesAt(file, blockPos, BeforeVtx(b), b.vtx, PrintTx, TxSize, i);
  }

  /** The recorded offset is where block serialization wrote the transaction, so reading there returns it. */
  lemma RecordedOffsetReadsTx(file: seq<Byte>, b: Block, blockPos: nat, i: nat)
    requires HoldsAt(file, blockPos, PrintBlock(b))
    requires i < |b.vtx| && Readable(b.vtx[i])
    ensures ReadTxAt(file, TxOffset(b, blockPos, i)) == Some(b.vtx[i])
    ensures TxOffset(b, blockPos, i) + TxSize(b.vtx[i]) <= blockPos + |PrintBlock(b)|
  {
    var rest := TxBytesAt(file, b, blockPos, i);
    TxRoundTrip(b.vtx[i], rest);
  }

  // The recorded ranges of two transactions of a block do not overlap, so their positions differ.
  lemma OffsetsIncrease(b: Block, blockPos: nat, i: nat, j: nat)
    requires i < j <= |b.vtx|
    ensures TxOffset(b, blockPos, i) + TxSize(b.vtx[i]) <= TxOffset(b, blockPos, j)
    decreases j
  {
    NextOffset(b, blockPos, j - 1);
    if i < j - 1 {
      OffsetsIncrease(b, blockPos, i, j - 1);
    }
  }
}
