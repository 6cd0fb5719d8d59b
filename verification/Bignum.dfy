/** Sign-magnitude byte forms of big integers (src/bignum.h, getvch and setvch). */
module Bignum {
  import opened Bytes

  /** The bytes of n, least significant first, without trailing zero bytes. */
  function Magnitude(n: nat): (r: seq<Byte>)
    ensures n > 0 ==> |r| > 0 && r[|r| - 1] > 0
  {
    if n == 0 then [] else [n % 0x100] + Magnitude(n / 0x100)
  }

  /** getvch: the top bit of the last byte is the sign; a byte is added when the magnitude needs that bit. */
  function GetVch(n: int): seq<Byte> {
    var m := Magnitude(if n < 0 then -n else n);
    if n == 0 then []
    else
      var last := m[|m| - 1];
      if last >= 0x80 then m + [if n < 0 then 0x80 else 0]
      else if n < 0 then m[..|m| - 1] + [last + 0x80]
      else m
  }

  /** setvch */
  function SetVch(v: seq<Byte>): int {
    if v == [] then 0
    else
      var init, last := v[..|v| - 1], v[|v| - 1];
      if last >= 0x80 then -(FromLittleEndian(init + [last - 0x80]) as int) else FromLittleEndian(v)
  }

  lemma {:induction false} MagnitudeValue(n: nat)
    ensures FromLittleEndian(Magnitude(n)) == n
  {
    if n > 0 {
      MagnitudeValue(n / 0x100);
      assert Magnitude(n)[1..] == Magnitude(n / 0x100);
    }
  }

  lemma {:induction false} MagnitudeLength(n: nat, k: nat)
    requires n < Pow256(k)
    ensures |Magnitude(n)| <= k
  {
    if n > 0 {
      MagnitudeLength(n / 0x100, k - 1);
    }
  }

  /** Magnitude is the only form without a trailing zero byte. */
  lemma {:induction false} MagnitudeUnique(v: seq<Byte>)
    requires v != [] ==> v[|v| - 1] > 0
    ensures Magnitude(FromLittleEndian(v)) == v
  {
    if v != [] {
      MagnitudeUnique(v[1..]);
      var n := FromLittleEndian(v);
      assert n % 0x100 == v[0] && n / 0x100 == FromLittleEndian(v[1..]);
      if n == 0 {
        NonzeroValue(v);
      }
      assert v == [v[0]] + v[1..];
    }
  }

  lemma {:induction false} NonzeroValue(v: seq<Byte>)
    requires v != [] && v[|v| - 1] > 0
    ensures FromLittleEndian(v) > 0
  {
    if |v| > 1 {
      NonzeroValue(v[1..]);
    }
  }

  lemma {:induction false} TrailingZero(s: seq<Byte>)
    ensures FromLittleEndian(s + [0]) == FromLittleEndian(s)
  {
    if s == [] {
      assert (s + [0])[1..] == [];
    } else {
      TrailingZero(s[1..]);
      assert (s + [0])[1..] == s[1..] + [0];
    }
  }

  /** The sign bit in a byte of its own. */
  lemma SetVchExtended(m: seq<Byte>, sign: bool)
    ensures SetVch(m + [if sign then 0x80 else 0]) == if sign then -(FromLittleEndian(m) as int) else FromLittleEndian(m)
  {
    var v := m + [if sign then 0x80 else 0];
    assert v[..|v| - 1] == m;
    TrailingZero(m);
  }

  /** The sign bit on top of the last byte. */
  lemma SetVchMarked(m: seq<Byte>, sign: bool)
    requires m != [] && m[|m| - 1] < 0x80
    ensures SetVch(if sign then m[..|m| - 1] + [m[|m| - 1] + 0x80] else m)
            == if sign then -(FromLittleEndian(m) as int) else FromLittleEndian(m)
  {
    if sign {
      var v := m[..|m| - 1] + [m[|m| - 1] + 0x80];
      assert v[..|v| - 1] + [v[|v| - 1] - 0x80] == m;
    }
  }

  lemma SetVchEmpty()
    ensures SetVch([]) == 0
  {
  }

  /** setvch inverts getvch on every integer. */
  lemma VchRoundTrip(n: int)
    ensures SetVch(GetVch(n)) == n
  {
    var a := if n < 0 then -n else n;
    MagnitudeValue(a);
    hide SetVch, FromLittleEndian, Magnitude;
    if n == 0 {
      SetVchEmpty();
    } else {
      if Magnitude(a)[|Magnitude(a)| - 1] >= 0x80 {
        SetVchExtended(Magnitude(a), n < 0);
      } else {
        SetVchMarked(Magnitude(a), n < 0);
      }
    }
  }

  lemma GetVchLength(n: int, k: nat)
    requires -(Pow256(k) as int) < n < Pow256(k)
    ensures |GetVch(n)| <= k + 1
  {
    MagnitudeLength(if n < 0 then -n else n, k);
  }

  /** A value of at most k bytes is smaller than 256 to the k. */
  lemma SetVchBound(v: seq<Byte>)
    ensures -(Pow256(|v|) as int) < SetVch(v) < Pow256(|v|)
  {
    if v != [] {
      var init, last := v[..|v| - 1], v[|v| - 1];
      FromLittleEndianBound(v);
      if last >= 0x80 {
        FromLittleEndianBound(init + [last - 0x80]);
      }
    }
  }
}
