/** The byte buffer that messages and disk records are read from and written to (src/serialize.h, CDataStream). */
module Streams {
  import opened Wrappers
  import opened Bytes

  /** A vector with a read position. Erasing or reading at the front only advances the position. */
  class DataStream {
    var vch: seq<Byte>
    var nReadPos: nat

    ghost predicate Valid()
      reads this
    {
      nReadPos <= |vch|
    }

    /** The unread bytes. */
    function Contents(): (s: seq<Byte>)
      requires Valid()
      reads this
    {
      vch[nReadPos..]
    }

    constructor (bytes: seq<Byte>)
      ensures Valid() && Contents() == bytes
    {
      vch, nReadPos := bytes, 0;
    }

    /** Takes n bytes from the front; running past the end throws, here None, before anything changes. */
    method Read(n: nat) returns (r: Option<seq<Byte>>)
      requires Valid()
      modifies this
      ensures Valid()
      ensures r.Some? <==> n <= |old(Contents())|
      ensures r.Some? ==> r.value == old(Contents())[..n] && Contents() == old(Contents())[n..]
      ensures r.None? ==> Contents() == old(Contents())
    {
      var next := nReadPos + n;
      if next >= |vch| {
        if next > |vch| {
          return None;
        }
        r := Some(vch[nReadPos..]);
        vch, nReadPos := [], 0;
        return;
      }
      r := Some(vch[nReadPos..next]);
      nReadPos := next;
    }

    method Ignore(n: nat) returns (ok: bool)
      requires Valid()
      modifies this
      ensures Valid()
      ensures ok <==> n <= |old(Contents())|
      ensures Contents() == if ok then old(Contents())[n..] else old(Contents())
    {
      var next := nReadPos + n;
      if next >= |vch| {
        if next > |vch| {
          return false;
        }
        vch, nReadPos := [], 0;
        return true;
      }
      nReadPos := next;
      ok := true;
    }

    method Write(bytes: seq<Byte>)
      requires Valid()
      modifies this
      ensures Valid() && Contents() == old(Contents()) + bytes
    {
      vch := vch + bytes;
    }

    /** erase(begin(), begin() + n) */
    method EraseFront(n: nat)
      requires Valid() && n <= |Contents()|
      modifies this
      ensures Valid() && Contents() == old(Contents())[n..]
    {
      if nReadPos + n == |vch| {
        vch, nReadPos := [], 0;
      } else {
        nReadPos := nReadPos + n;
      }
    }

    /** insert(begin(), ...): the room left by earlier reads is used when it suffices. */
    method InsertFront(bytes: seq<Byte>)
      requires Valid()
      modifies this
      ensures Valid() && Contents() == bytes + old(Contents())
    {
      if |bytes| <= nReadPos {
        var start := nReadPos - |bytes|;
        vch := vch[..start] + bytes + vch[nReadPos..];
        nReadPos := start;
      } else {
        vch := vch[..nReadPos] + bytes + vch[nReadPos..];
      }
    }

    method Compact()
      requires Valid()
      modifies this
      ensures Valid() && nReadPos == 0 && Contents() == old(Contents())
    {
      vch, nReadPos := vch[nReadPos..], 0;
    }
  }
}
