/** Base-58 text (src/base58.h). */
module Base58 {
  import opened Sequences
  import opened Wrappers
  import opened Bytes
  import opened Bignum

  // The alphabet: 123456789ABCDEFGHJKLMNPQRSTUVWXYZabcdefghijkmnopqrstuvwxyz

  function DigitChar(d: nat): char
    requires d < 58
  {
    if d < 9 then '1' + d as char
    else if d < 17 then 'A' + (d - 9) as char
    else if d < 22 then 'J' + (d - 17) as char
    else if d < 33 then 'P' + (d - 22) as char
    else if d < 44 then 'a' + (d - 33) as char
    else 'm' + (d - 44) as char
  }

  /** strchr in the alphabet. */
  function Digit(c: char): (d: Option<nat>)
    ensures d.Some? ==> d.value < 58
  {
    if '1' <= c <= '9' then Some((c - '1') as nat)
    else if 'A' <= c <= 'H' then Some(9 + (c - 'A') as nat)
    else if 'J' <= c <= 'N' then Some(17 + (c - 'J') as nat)
    else if 'P' <= c <= 'Z' then Some(22 + (c - 'P') as nat)
    else if 'a' <= c <= 'k' then Some(33 + (c - 'a') as nat)
    else if 'm' <= c <= 'z' then Some(44 + (c - 'm') as nat)
    else None
  }

  lemma DigitsInvert(d: nat, c: char)
    ensures d < 58 ==> Digit(DigitChar(d)) == Some(d)
    ensures Digit(c).Some? ==> DigitChar(Digit(c).value) == c
  {
  }

  /** isspace */
  predicate IsSpace(c: char) {
    c == ' ' || '\t' <= c <= '\r'
  }

  // Numbers in base 58, most significant digit first

  predicate AllDigits(s: string) {
    forall i | 0 <= i < |s| :: Digit(s[i]).Some?
  }

  function Digits(n: nat): (s: string)
    ensures AllDigits(s)
  {
    if n == 0 then ""
    else
      DigitsInvert(n % 58, '1');
      Digits(n / 58) + [DigitChar(n % 58)]
  }

  function Value(s: string): nat
    requires AllDigits(s)
  {
    if s == [] then 0 else Value(s[..|s| - 1]) * 58 + Digit(s[|s| - 1]).value
  }

  lemma {:induction false} ValueOfDigits(n: nat)
    ensures Value(Digits(n)) == n && (n > 0 ==> Digits(n) != [] && Digits(n)[0] != '1')
  {
    if n > 0 {
      var rest := Digits(n / 58);
      ValueOfDigits(n / 58);
      DigitsInvert(n % 58, '1');
      assert (rest + [DigitChar(n % 58)])[..|rest|] == rest;
      if n / 58 == 0 {
        assert Digits(0) == "";
        DigitsInvert(0, '1');
      }
    }
  }

  /** A text without leading 1s is the only one for its value. */
  lemma {:induction false} DigitsUnique(s: string)
    requires AllDigits(s) && (s != [] ==> s[0] != '1')
    ensures Digits(Value(s)) == s && (s != [] ==> Value(s) > 0)
  {
    if s != [] {
      var init, last := s[..|s| - 1], s[|s| - 1];
      DigitsUnique(init);
      DigitsInvert(0, last);
      var n := Value(s);
      assert n / 58 == Value(init) && n % 58 == Digit(last).value;
      assert s == init + [last];
      if init == [] {
        assert Digit(last).value > 0;
      }
    }
  }

  function Ones(k: nat): (s: string)
    ensures |s| == k && forall i | 0 <= i < k :: s[i] == '1'
  {
    if k == 0 then "" else "1" + Ones(k - 1)
  }

  lemma {:induction false} OnesInFront(k: nat, s: string)
    requires AllDigits(s)
    ensures AllDigits(Ones(k) + s) && Value(Ones(k) + s) == Value(s)
    decreases |s| + k
  {
    var t := Ones(k) + s;
    assert AllDigits(t);
    if s != [] {
      OnesInFront(k, s[..|s| - 1]);
      assert t[..|t| - 1] == Ones(k) + s[..|s| - 1];
    } else if k > 0 {
      OnesInFront(k - 1, s);
      assert t[..|t| - 1] == Ones(k - 1) + s;
    }
  }

  // Byte strings, most significant byte first

  function Leading<T(==)>(s: seq<T>, x: T): (k: nat)
    ensures k <= |s| && (forall i | 0 <= i < k :: s[i] == x) && (k < |s| ==> s[k] != x)
  {
    if s == [] || s[0] != x then 0 else 1 + Leading(s[1..], x)
  }

  function BytesOf(n: nat): seq<Byte> {
    Reversed(Magnitude(n))
  }

  function NumberOf(v: seq<Byte>): nat {
    FromLittleEndian(Reversed(v))
  }

  function Encode(v: seq<Byte>): string {
    Ones(Leading(v, 0)) + Digits(NumberOf(v))
  }

  /** What is read of a text: the part without leading white space, up to a zero character. */
  function Text(s: string): string {
    CString(s)[LeadingSpaces(CString(s))..]
  }

  function CString(s: string): string {
    if s == [] || s[0] == '\0' then "" else [s[0]] + CString(s[1..])
  }

  function LeadingSpaces(s: string): (k: nat)
    ensures k <= |s|
  {
    if s == [] || !IsSpace(s[0]) then 0 else 1 + LeadingSpaces(s[1..])
  }

  /** The digits in front. */
  function DigitPart(t: string): (k: nat)
    ensures k <= |t| && AllDigits(t[..k]) && (k < |t| ==> Digit(t[k]).None?)
  {
    if t == [] || Digit(t[0]).None? then 0
    else
      var k := DigitPart(t[1..]);
      assert t[..k + 1] == [t[0]] + t[1..][..k];
      k + 1
  }

  function Decode(s: string): Option<seq<Byte>> {
    var t := Text(s);
    var k := DigitPart(t);
    if k + LeadingSpaces(t[k..]) < |t| then None
    else Some(Zeros(Leading(t, '1')) + BytesOf(Value(t[..k])))
  }

  // Round trips

  lemma {:induction false} ZerosOnTop(w: seq<Byte>, k: nat)
    ensures FromLittleEndian(w + Zeros(k)) == FromLittleEndian(w)
  {
    if k == 0 {
      assert w + Zeros(k) == w;
    } else {
      assert w + Zeros(k) == w + Zeros(k - 1) + [0] by {
        ZerosSnoc(k - 1);
      }
      TrailingZero(w + Zeros(k - 1));
      ZerosOnTop(w, k - 1);
    }
  }

  lemma {:induction false} ZerosSnoc(k: nat)
    ensures Zeros(k + 1) == Zeros(k) + [0]
  {
  }

  lemma LeadingZeros(v: seq<Byte>, k: nat)
    requires k <= |v| && forall i | 0 <= i < k :: v[i] == 0
    ensures v == Zeros(k) + v[k..] && Reversed(v) == Reversed(v[k..]) + Zeros(k)
  {
    hide Reversed, Zeros;
    assert v == Zeros(k) + v[k..];
    var r := Reversed(v[k..]) + Zeros(k);
    forall i | 0 <= i < |v| ensures Reversed(v)[i] == r[i] {
      assert Reversed(v)[i] == v[|v| - 1 - i];
    }
  }

  lemma LastOfReversed(w: seq<Byte>)
    ensures w != [] ==> Reversed(w) != [] && Reversed(w)[|w| - 1] == w[0]
  {
  }

  /** Leading zero bytes do not count, and the rest is the shortest form of its number. */
  lemma BytesSplit(v: seq<Byte>)
    ensures v == Zeros(Leading(v, 0)) + BytesOf(NumberOf(v))
  {
    var k := Leading(v, 0);
    var w := v[k..];
    LeadingZeros(v, k);
    LastOfReversed(w);
    hide Reversed, Leading, Zeros, FromLittleEndian;
    ZerosOnTop(Reversed(w), k);
    MagnitudeUnique(Reversed(w));
    ReversedTwice(w);
  }

  lemma SplitText(k: nat, d: string)
    requires AllDigits(d) && (d != [] ==> d[0] != '1')
    ensures var s := Ones(k) + d; AllDigits(s) && Leading(s, '1') == k && Value(s) == Value(d)
  {
    OnesInFront(k, d);
    LeadingIs(Ones(k) + d, '1', k);
  }

  lemma {:induction false} LeadingIs<T>(s: seq<T>, x: T, k: nat)
    requires k <= |s| && (forall i | 0 <= i < k :: s[i] == x) && (k < |s| ==> s[k] != x)
    ensures Leading(s, x) == k
  {
  }

  /** A text of digits is read whole. */
  lemma {:induction false} CStringOfDigits(s: string)
    requires AllDigits(s)
    ensures CString(s) == s && DigitPart(s) == |s| && LeadingSpaces(s) == 0
  {
    if s != [] {
      CStringOfDigits(s[1..]);
      assert [s[0]] + s[1..] == s;
    }
  }

  lemma DecodeDigits(s: string)
    requires AllDigits(s)
    ensures Decode(s) == Some(Zeros(Leading(s, '1')) + BytesOf(Value(s)))
  {
    CStringOfDigits(s);
    assert s[0..] == s && s[..|s|] == s;
  }

  /** Every byte vector is read back. */
  lemma EncodeRoundTrip(v: seq<Byte>)
    ensures Decode(Encode(v)) == Some(v)
  {
    var d := Digits(NumberOf(v));
    ValueOfDigits(NumberOf(v));
    if NumberOf(v) == 0 {
      assert d == "";
    }
    SplitText(Leading(v, 0), d);
    DecodeDigits(Encode(v));
    BytesSplit(v);
  }

  lemma NumberOfBytes(n: nat, k: nat)
    ensures NumberOf(Zeros(k) + BytesOf(n)) == n && Leading(Zeros(k) + BytesOf(n), 0) == k
  {
    var v := Zeros(k) + BytesOf(n);
    assert Reversed(v) == Magnitude(n) + Zeros(k);
    ZerosOnTop(Magnitude(n), k);
    MagnitudeValue(n);
    if n > 0 {
      assert v[k] == Magnitude(n)[|Magnitude(n)| - 1];
    } else {
      assert Magnitude(0) == [];
    }
    LeadingIs(v, 0, k);
  }

  /** Encoding what was decoded gives back a text of digits. */
  lemma DecodeRoundTrip(s: string)
    requires AllDigits(s)
    ensures Decode(s).Some? && Encode(Decode(s).value) == s
  {
    var k := Leading(s, '1');
    var d := s[k..];
    assert s == Ones(k) + d;
    OnesInFront(k, d);
    DecodeDigits(s);
    NumberOfBytes(Value(s), k);
    DigitsUnique(d);
  }

  /** So no two byte vectors share a text, and no two texts of digits a byte vector. */
  lemma EncodeInjective(v: seq<Byte>, w: seq<Byte>)
    requires Encode(v) == Encode(w)
    ensures v == w
  {
    EncodeRoundTrip(v);
    EncodeRoundTrip(w);
  }

  // The source's loops

  /** The digits of a number, least significant first. */
  method DigitsBackward(n: nat) returns (rev: string)
    ensures Reversed(rev) == Digits(n)
  {
    rev := "";
    var bn := n;
    assert Digits(n) + Reversed(rev) == Digits(n);
    while bn > 0
      invariant Digits(n) == Digits(bn) + Reversed(rev)
    {
      var dv, rem := bn / 58, bn % 58;
      NextDigit(bn, rev);
      bn := dv;
      rev := rev + [DigitChar(rem)];
    }
    assert Digits(0) + Reversed(rev) == Reversed(rev);
  }

  lemma NextDigit(n: nat, rev: string)
    requires n > 0
    ensures Digits(n) + Reversed(rev) == Digits(n / 58) + Reversed(rev + [DigitChar(n % 58)])
  {
    ReversedSnoc(rev, DigitChar(n % 58));
    assert Digits(n / 58) + [DigitChar(n % 58)] + Reversed(rev) == Digits(n / 58) + ([DigitChar(n % 58)] + Reversed(rev));
  }

  lemma NoOnes(digits: string)
    ensures Ones(0) + digits == digits
  {
  }

  lemma NextOne(rev: string, p: nat, digits: string)
    requires Reversed(rev) == Ones(p) + digits
    ensures Reversed(rev + [DigitChar(0)]) == Ones(p + 1) + digits
  {
    ReversedSnoc(rev, DigitChar(0));
    assert ['1'] + (Ones(p) + digits) == Ones(p + 1) + digits;
  }

  method EncodeBase58(v: seq<Byte>) returns (str: string)
    ensures str == Encode(v)
  {
    hide Digits, Ones, Reversed;
    var vchTmp := Reversed(v) + [0];
    var bn := SetVch(vchTmp);
    SetVchExtended(Reversed(v), false);
    hide SetVch, FromLittleEndian;
    var rev := DigitsBackward(bn);
    var p := 0;
    ghost var digits := Reversed(rev);
    NoOnes(digits);
    while p < |v| && v[p] == 0
      invariant p <= Leading(v, 0) && Reversed(rev) == Ones(p) + digits
    {
      NextOne(rev, p, digits);
      rev := rev + [DigitChar(0)];
      p := p + 1;
    }
    str := Reversed(rev);
  }

  /** The character at p; a C string ends in a zero character. */
  function At(s: string, p: nat): char
    requires p <= |s|
  {
    if p < |s| then s[p] else '\0'
  }

  /** getvch, with the byte that only holds the sign trimmed off. */
  method Trimmed(bn: nat) returns (vchTmp: seq<Byte>)
    ensures vchTmp == Magnitude(bn)
  {
    vchTmp := GetVch(bn);
    if |vchTmp| >= 2 && vchTmp[|vchTmp| - 1] == 0 && vchTmp[|vchTmp| - 2] >= 0x80 {
      vchTmp := vchTmp[..|vchTmp| - 1];
    }
  }

  method SkipSpaces(s: string, start: nat) returns (p: nat)
    requires start <= |s|
    ensures p == start + LeadingSpaces(s[start..]) <= |s|
  {
    p := start;
    while IsSpace(At(s, p))
      invariant start <= p <= |s| && start + LeadingSpaces(s[start..]) == p + LeadingSpaces(s[p..])
      decreases |s| - p
    {
      assert s[p..][1..] == s[p + 1..];
      p := p + 1;
    }
  }

  /** The digits from start on, and their value. */
  method ReadDigits(s: string, start: nat) returns (p: nat, bn: nat)
    requires start <= |s|
    ensures p == start + DigitPart(s[start..]) <= |s| && bn == Value(s[start..][..p - start])
  {
    p, bn := start, 0;
    ghost var t := s[start..];
    while At(s, p) != '\0' && Digit(At(s, p)).Some?
      invariant start <= p <= |s| && AllDigits(t[..p - start]) && bn == Value(t[..p - start])
      decreases |s| - p
    {
      assert t[..p + 1 - start][..p - start] == t[..p - start] && t[p - start] == s[p];
      bn := bn * 58 + Digit(At(s, p)).value;
      p := p + 1;
    }
    DigitPartIs(t, p - start);
  }

  lemma {:induction false} DigitPartIs(t: string, k: nat)
    requires k <= |t| && AllDigits(t[..k]) && (k < |t| ==> Digit(t[k]).None?)
    ensures DigitPart(t) == k
  {
    if k > 0 {
      assert t[..k][0] == t[0] && t[1..][..k - 1] == t[..k][1..];
      DigitPartIs(t[1..], k - 1);
    }
  }

  method CountOnes(s: string, psz: nat) returns (n: nat)
    requires psz <= |s|
    ensures n == Leading(s[psz..], '1')
  {
    n := 0;
    ghost var t := s[psz..];
    while At(s, psz + n) == '1'
      invariant psz + n <= |s| && forall i | 0 <= i < n :: t[i] == '1'
      decreases |s| - n
    {
      n := n + 1;
    }
    LeadingIs(t, '1', n);
  }

  method DecodeBase58(str: string) returns (ok: bool, vchRet: seq<Byte>)
    ensures ok <==> Decode(str).Some?
    ensures vchRet == if ok then Decode(str).value else []
  {
    hide Digit, DigitPart, LeadingSpaces, Value, CString, Leading, Magnitude, IsSpace;
    var s := CString(str);
    NoZeros(str);
    var psz := SkipSpaces(s, 0);
    assert s[0..] == s;
    ghost var t := s[psz..];
    var p, bn := ReadDigits(s, psz);
    var q := SkipSpaces(s, p);
    assert t[p - psz..] == s[p..];
    if At(s, q) != '\0' {
      return false, [];
    }
    var vchTmp := Trimmed(bn);
    var nLeadingZeros := CountOnes(s, psz);
    ok, vchRet := true, Zeros(nLeadingZeros) + Reversed(vchTmp);
  }

  lemma {:induction false} NoZeros(s: string)
    ensures forall i | 0 <= i < |CString(s)| :: CString(s)[i] != '\0'
  {
    if s != [] && s[0] != '\0' {
      NoZeros(s[1..]);
    }
  }

  // With a checksum

  type Bytes4 = v: seq<Byte> | |v| == 4 witness Zeros(4)

  /** The bytes with a checksum, which is the start of their hash. */
  function EncodeCheck(hash4: seq<Byte> -> Bytes4, v: seq<Byte>): string {
    Encode(v + hash4(v))
  }

  function DecodeCheck(hash4: seq<Byte> -> Bytes4, str: string): Option<seq<Byte>> {
    match Decode(str)
    case None => None
    case Some(all) =>
      var n := |all| - 4;
      if n >= 0 && hash4(all[..n]) == all[n..] then Some(all[..n]) else None
  }

  method EncodeBase58Check(hash4: seq<Byte> -> Bytes4, v: seq<Byte>) returns (str: string)
    ensures str == EncodeCheck(hash4, v)
  {
    str := EncodeBase58(v + hash4(v));
  }

  lemma SplitChecked(v: seq<Byte>, c: Bytes4)
    ensures var all := v + c; all[..|all| - 4] == v && all[|all| - 4..] == c
  {
  }

  method DecodeBase58Check(hash4: seq<Byte> -> Bytes4, str: string) returns (ok: bool, vchRet: seq<Byte>)
    ensures ok <==> DecodeCheck(hash4, str).Some?
    ensures vchRet == if ok then DecodeCheck(hash4, str).value else []
  {
    ok, vchRet := DecodeBase58(str);
    if !ok {
      return;
    }
    if |vchRet| < 4 {
      return false, [];
    }
    var n := |vchRet| - 4;
    if hash4(vchRet[..n]) != vchRet[n..] {
      return false, [];
    }
    vchRet := vchRet[..n];
  }

  /** A text is accepted exactly if it decodes to some bytes followed by their checksum. */
  lemma CheckAccepts(hash4: seq<Byte> -> Bytes4, str: string, v: seq<Byte>)
    ensures DecodeCheck(hash4, str) == Some(v) <==> Decode(str) == Some(v + hash4(v))
  {
    SplitChecked(v, hash4(v));
    if DecodeCheck(hash4, str).Some? {
      var all := Decode(str).value;
      assert all == all[..|all| - 4] + all[|all| - 4..];
    }
  }

  /** Whatever the hash, bytes with their checksum are read back. */
  lemma CheckRoundTrip(hash4: seq<Byte> -> Bytes4, v: seq<Byte>)
    ensures DecodeCheck(hash4, EncodeCheck(hash4, v)) == Some(v)
  {
    EncodeRoundTrip(v + hash4(v));
    CheckAccepts(hash4, EncodeCheck(hash4, v), v);
  }
}
