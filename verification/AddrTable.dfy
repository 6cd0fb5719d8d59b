/** The tables of the address manager as values, and what keeps them consistent (src/addrman.h, src/addrman.cpp). */
module AddrTable {
  import opened Sequences

  datatype NetAddr = NetAddr(ip: seq<int>)

  datatype Service = Service(host: NetAddr, port: int)

  /** An address as it is gossiped; services are the bits of nServices. */
  datatype Address = Address(service: Service, services: set<nat>, time: int)

  datatype AddrInfo = AddrInfo(
    service: Service, services: set<nat>, time: int,
    source: NetAddr, lastSuccess: int, lastTry: int, attempts: int,
    refCount: int, inTried: bool, randomPos: int)

  const TRIED_BUCKETS: nat := 64
  const TRIED_BUCKET_SIZE := 64
  const NEW_BUCKETS: nat := 256
  const NEW_BUCKET_SIZE := 64
  const TRIED_BUCKETS_PER_GROUP: nat := 4
  const NEW_BUCKETS_PER_SOURCE: nat := 32
  const NEW_BUCKETS_PER_ADDRESS := 4

  /** The hashes under the secret key, and the address group. */
  datatype Secret = Secret(
    group: NetAddr -> int,
    serviceHash: Service -> nat,
    triedHash: (int, nat) -> nat,
    pairHash: (int, int) -> nat,
    newHash: (int, nat) -> nat)

  /** GetTriedBucket */
  function TriedBucket(secret: Secret, a: Service): (b: nat)
    ensures b < TRIED_BUCKETS
  {
    secret.triedHash(secret.group(a.host), secret.serviceHash(a) % TRIED_BUCKETS_PER_GROUP) % TRIED_BUCKETS
  }

  /** GetNewBucket */
  function NewBucket(secret: Secret, a: Service, src: NetAddr): (b: nat)
    ensures b < NEW_BUCKETS
  {
    secret.newHash(secret.group(src), secret.pairHash(secret.group(a.host), secret.group(src)) % NEW_BUCKETS_PER_SOURCE)
      % NEW_BUCKETS
  }

  datatype Table = Table(
    idCount: int, info: map<int, AddrInfo>, byAddr: map<NetAddr, int>, random: seq<int>,
    nTried: int, tried: seq<seq<int>>, nNew: int, news: seq<set<int>>)

  // Consistency

  ghost predicate RandomOk(info: map<int, AddrInfo>, random: seq<int>) {
    && (forall id | id in info :: 0 <= info[id].randomPos < |random| && random[info[id].randomPos] == id)
    && (forall k | 0 <= k < |random| :: random[k] in info && info[random[k]].randomPos == k)
  }

  ghost predicate AddrOk(info: map<int, AddrInfo>, byAddr: map<NetAddr, int>) {
    && (forall id | id in info :: info[id].service.host in byAddr && byAddr[info[id].service.host] == id)
    && (forall a | a in byAddr :: byAddr[a] in info && info[byAddr[a]].service.host == a)
  }

  ghost predicate TriedOk(secret: Secret, info: map<int, AddrInfo>, tried: seq<seq<int>>) {
    && |tried| == TRIED_BUCKETS
    && (forall b | 0 <= b < TRIED_BUCKETS :: |tried[b]| <= TRIED_BUCKET_SIZE && NoRepeats(tried[b]))
    && (forall b, id | 0 <= b < TRIED_BUCKETS && id in tried[b] ::
          id in info && info[id].inTried && TriedBucket(secret, info[id].service) == b)
    && (forall id | id in info && info[id].inTried :: id in tried[TriedBucket(secret, info[id].service)])
  }

  /** The number of buckets that hold id. */
  function Refs(news: seq<set<int>>, id: int): nat {
    if news == [] then 0 else (if id in news[0] then 1 else 0) + Refs(news[1..], id)
  }

  /** The id pending, if any, is counted for a bucket it is about to enter. */
  ghost predicate NewOk(info: map<int, AddrInfo>, news: seq<set<int>>, pending: int) {
    && |news| == NEW_BUCKETS
    && (forall b | 0 <= b < NEW_BUCKETS :: |news[b]| <= NEW_BUCKET_SIZE)
    && (forall b, id | 0 <= b < NEW_BUCKETS && id in news[b] :: id in info)
    && (forall id | id in info ::
          && info[id].refCount == Refs(news, id) + (if id == pending then 1 else 0)
          && info[id].refCount <= NEW_BUCKETS_PER_ADDRESS
          && (info[id].inTried <==> info[id].refCount == 0))
  }

  ghost function TriedIds(info: map<int, AddrInfo>): set<int> {
    set id | id in info && info[id].inTried
  }

  ghost function NewIds(info: map<int, AddrInfo>): set<int> {
    set id | id in info && !info[id].inTried
  }

  ghost predicate IdsOk(t: Table) {
    forall id | id in t.info :: 0 <= id < t.idCount
  }

  ghost predicate CountOk(t: Table) {
    t.nTried == |TriedIds(t.info)| && t.nNew == |NewIds(t.info)|
  }

  const NONE := -1

  ghost predicate OkWith(secret: Secret, t: Table, pending: int) {
    && RandomOk(t.info, t.random) && AddrOk(t.info, t.byAddr) && TriedOk(secret, t.info, t.tried)
    && NewOk(t.info, t.news, pending) && CountOk(t) && IdsOk(t) && t.idCount >= 0
  }

  ghost predicate Ok(secret: Secret, t: Table) {
    OkWith(secret, t, NONE)
  }

  /** What Check_ asks of the times on record. */
  ghost predicate TimesOk(info: map<int, AddrInfo>) {
    forall id | id in info ::
      info[id].lastTry >= 0 && info[id].lastSuccess >= 0 && (info[id].inTried ==> info[id].lastSuccess != 0)
  }

  // Walking sets of ids

  lemma NonEmpty(s: set<int>)
    requires s != {}
    ensures exists x :: x in s
  {
    assert (forall x :: x !in s) ==> s == {};
  }

  predicate IsLeast(s: set<int>, least: int) {
    least in s && forall x | x in s :: least <= x
  }

  lemma {:induction false} LeastExists(s: set<int>)
    requires s != {}
    ensures exists least :: IsLeast(s, least)
    decreases |s|
  {
    NonEmpty(s);
    var first: int :| first in s;
    var rest := s - {first};
    if rest == {} {
      assert s == {first};
      assert IsLeast(s, first);
    } else {
      LeastExists(rest);
      var other :| IsLeast(rest, other);
      assert forall x | x in s :: x in rest || x == first;
      assert IsLeast(s, if other < first then other else first);
    }
  }

  /** The sets of ids are walked in ascending order. */
  method Least(s: set<int>) returns (least: int)
    requires s != {}
    ensures IsLeast(s, least)
  {
    LeastExists(s);
    least :| least in s && IsLeast(s, least);
  }

  function Below(s: set<int>, x: int): set<int> {
    set y | y in s && y < x
  }

  /** The nI least elements of s have been walked and the rest is still to come. */
  ghost predicate Walking(s: set<int>, walked: set<int>, rest: set<int>, nI: nat) {
    rest <= s && walked == s - rest && nI == |s| - |rest| && forall x, y | x in rest && y in walked :: y < x
  }

  /** What comes next in ascending order has just the others below it. */
  lemma WalkOn(s: set<int>, walked: set<int>, rest: set<int>, nI: nat, it: int)
    requires Walking(s, walked, rest, nI) && IsLeast(rest, it)
    ensures |Below(s, it)| == nI
    ensures Walking(s, walked + {it}, rest - {it}, nI + 1)
    ensures it !in walked && forall y | y in walked :: y < it
  {
    forall y ensures y in Below(s, it) <==> y in walked {
    }
    assert Below(s, it) == walked && s == walked + rest;
    assert s - (rest - {it}) == walked + {it};
  }

  predicate IsDrawn(s: set<int>, drawn: seq<nat>, x: int) {
    |Below(s, x)| in drawn
  }

  /** Of the ids whose ranks were drawn, id is the one seen longest ago, the least such id if there are several. */
  ghost predicate IsOldestDrawn(info: map<int, AddrInfo>, s: set<int>, drawn: seq<nat>, id: int) {
    IsOldestOf(info, s, s, drawn, id)
  }

  /** The same of the ids in the part of s that has been walked; -1 while none has been drawn. */
  ghost predicate IsOldestOf(info: map<int, AddrInfo>, s: set<int>, walked: set<int>, drawn: seq<nat>, id: int) {
    && id in walked && id in info && IsDrawn(s, drawn, id)
    && forall x | x in walked && IsDrawn(s, drawn, x) :: x in info && NotNewer(info, id, x)
  }

  ghost predicate OldestSoFar(info: map<int, AddrInfo>, s: set<int>, walked: set<int>, drawn: seq<nat>, id: int) {
    if id == -1 then forall x | x in walked :: !IsDrawn(s, drawn, x) else IsOldestOf(info, s, walked, drawn, id)
  }

  predicate NotNewer(info: map<int, AddrInfo>, id: int, x: int)
    requires id in info && x in info
  {
    info[id].time < info[x].time || (info[id].time == info[x].time && id <= x)
  }

  lemma OldestAtFirst(info: map<int, AddrInfo>, s: set<int>, drawn: seq<nat>)
    ensures Walking(s, {}, s, 0) && OldestSoFar(info, s, {}, drawn, -1)
  {
  }

  lemma OldestAtLast(info: map<int, AddrInfo>, s: set<int>, walked: set<int>, nI: nat, drawn: seq<nat>, id: int)
    requires Walking(s, walked, {}, nI) && OldestSoFar(info, s, walked, drawn, id) && id != -1
    ensures IsOldestDrawn(info, s, drawn, id)
  {
    assert walked == s;
  }

  lemma OldestStep(info: map<int, AddrInfo>, s: set<int>, walked: set<int>, rest: set<int>, nI: nat,
                   drawn: seq<nat>, id: int, it: int)
    requires Walking(s, walked, rest, nI) && IsLeast(rest, it) && it in info && it != -1
    requires OldestSoFar(info, s, walked, drawn, id)
    ensures it in s && Walking(s, walked + {it}, rest - {it}, nI + 1) && |rest - {it}| == |rest| - 1
    ensures nI !in drawn ==> OldestSoFar(info, s, walked + {it}, drawn, id)
    ensures nI in drawn && (id == -1 || (id in info && info[it].time < info[id].time))
            ==> OldestSoFar(info, s, walked + {it}, drawn, it)
    ensures nI in drawn && id != -1 && id in info && info[it].time >= info[id].time
            ==> OldestSoFar(info, s, walked + {it}, drawn, id)
  {
    WalkOn(s, walked, rest, nI, it);
    assert IsDrawn(s, drawn, it) <==> nI in drawn;
    hide IsDrawn, Walking, IsLeast;
  }

  // Counting buckets

  lemma {:induction false} RefsUpdate(news: seq<set<int>>, b: nat, s: set<int>, id: int)
    requires b < |news|
    ensures Refs(news[b := s], id) + (if id in news[b] then 1 else 0) == Refs(news, id) + (if id in s then 1 else 0)
  {
    if b > 0 {
      RefsUpdate(news[1..], b - 1, s, id);
      assert news[b := s][1..] == news[1..][b - 1 := s];
    } else {
      assert news[b := s][1..] == news[1..];
    }
  }

  lemma {:induction false} RefsPositive(news: seq<set<int>>, b: nat, id: int)
    requires b < |news| && id in news[b]
    ensures Refs(news, id) > 0
  {
    if b > 0 {
      RefsPositive(news[1..], b - 1, id);
    }
  }

  lemma {:induction false} RefsNone(news: seq<set<int>>, id: int)
    requires forall b | 0 <= b < |news| :: id !in news[b]
    ensures Refs(news, id) == 0
  {
    if news != [] {
      RefsNone(news[1..], id);
    }
  }

  lemma {:induction false} RefsSome(news: seq<set<int>>, id: int) returns (b: nat)
    requires Refs(news, id) > 0
    ensures b < |news| && id in news[b]
  {
    if id in news[0] {
      b := 0;
    } else {
      b := RefsSome(news[1..], id);
      b := b + 1;
    }
  }

  lemma {:induction false} RefsAppend(news: seq<set<int>>, s: set<int>, id: int)
    ensures Refs(news + [s], id) == Refs(news, id) + (if id in s then 1 else 0)
  {
    if news == [] {
      assert news + [s] == [s];
    } else {
      RefsAppend(news[1..], s, id);
      assert (news + [s])[1..] == news[1..] + [s];
    }
  }

  lemma RefsGrow(news: seq<set<int>>, more: seq<set<int>>, id: int)
    ensures Refs(news + more, id) >= Refs(news, id)
    decreases |news|
  {
    if news == [] {
      assert news + more == more;
    } else {
      RefsGrow(news[1..], more, id);
      assert (news + more)[1..] == news[1..] + more;
    }
  }

  // The operations

  function Swapped(t: Table, p1: nat, p2: nat): Table
    requires p1 < |t.random| && p2 < |t.random| && t.random[p1] in t.info && t.random[p2] in t.info
  {
    if p1 == p2 then t
    else
      var id1, id2 := t.random[p1], t.random[p2];
      var info1 := t.info[id1 := t.info[id1].(randomPos := p2)];
      t.(info := info1[id2 := info1[id2].(randomPos := p1)], random := t.random[p1 := id2][p2 := id1])
  }

  /** Forgets an entry that no bucket holds any more. */
  function Erased(t: Table, id: int): Table
    requires id in t.info && 0 <= t.info[id].randomPos < |t.random|
    requires t.random[t.info[id].randomPos] in t.info && t.random[|t.random| - 1] in t.info
  {
    Popped(Swapped(t, t.info[id].randomPos, |t.random| - 1), id)
  }

  function Popped(s: Table, id: int): Table
    requires id in s.info && s.random != []
  {
    s.(random := s.random[..|s.random| - 1], byAddr := s.byAddr - {s.info[id].service.host}, info := s.info - {id},
       nNew := s.nNew - 1)
  }

  /** Takes id out of new bucket b, and forgets it if that was the last one. */
  function Unref(t: Table, b: nat, id: int): Table
    requires b < |t.news| && CanUnref(t, id)
  {
    var t1 := t.(info := t.info[id := t.info[id].(refCount := t.info[id].refCount - 1)]);
    var t2 := if t1.info[id].refCount == 0 then Erased(t1, id) else t1;
    t2.(news := t2.news[b := t2.news[b] - {id}])
  }

  function NewInfo(addr: Address, source: NetAddr, randomPos: int): AddrInfo {
    AddrInfo(addr.service, addr.services, addr.time, source, 0, 0, 0, 0, false, randomPos)
  }

  function Created(t: Table, addr: Address, source: NetAddr): Table {
    t.(idCount := t.idCount + 1, info := t.info[t.idCount := NewInfo(addr, source, |t.random|)],
       byAddr := t.byAddr[addr.service.host := t.idCount], random := t.random + [t.idCount])
  }

  function Ref(t: Table, id: int): Table
    requires id in t.info
  {
    t.(info := t.info[id := t.info[id].(refCount := t.info[id].refCount + 1)])
  }

  function Placed(t: Table, b: nat, id: int): Table
    requires b < |t.news|
  {
    t.(news := t.news[b := t.news[b] + {id}])
  }

  function Without(news: seq<set<int>>, id: int): (r: seq<set<int>>)
    ensures |r| == |news| && forall b | 0 <= b < |news| :: r[b] == news[b] - {id}
  {
    if news == [] then [] else Without(news[..|news| - 1], id) + [news[|news| - 1] - {id}]
  }

  // What the operations keep

  ghost predicate SameEntries(info: map<int, AddrInfo>, info': map<int, AddrInfo>) {
    && (forall id :: id in info <==> id in info')
    && forall id | id in info :: info[id].service == info'[id].service && info[id].inTried == info'[id].inTried
  }

  /** The entries agree on what the tables, other than the random order, depend on. */
  ghost predicate SameFacts(info: map<int, AddrInfo>, info': map<int, AddrInfo>) {
    SameEntries(info, info') && forall id | id in info :: info[id].refCount == info'[id].refCount
  }

  lemma SameRandom(t: Table, info': map<int, AddrInfo>)
    requires RandomOk(t.info, t.random) && (forall id :: id in t.info <==> id in info')
    requires forall id | id in t.info :: t.info[id].randomPos == info'[id].randomPos
    ensures RandomOk(info', t.random)
  {
    forall k | 0 <= k < |t.random| ensures t.random[k] in info' && info'[t.random[k]].randomPos == k {
      var id := t.random[k];
      assert id in t.info && info'[id].randomPos == t.info[id].randomPos;
    }
  }

  lemma SameServices(info: map<int, AddrInfo>, info': map<int, AddrInfo>, byAddr: map<NetAddr, int>)
    requires AddrOk(info, byAddr) && (forall id :: id in info <==> id in info')
    requires forall id | id in info :: info[id].service == info'[id].service
    ensures AddrOk(info', byAddr)
  {
    forall a | a in byAddr ensures byAddr[a] in info' && info'[byAddr[a]].service.host == a {
      var id := byAddr[a];
      assert id in info && info'[id].service == info[id].service;
    }
  }

  lemma SameIds(info: map<int, AddrInfo>, info': map<int, AddrInfo>)
    requires SameEntries(info, info')
    ensures TriedIds(info) == TriedIds(info') && NewIds(info) == NewIds(info')
  {
    forall id ensures id in TriedIds(info) <==> id in TriedIds(info')
              ensures id in NewIds(info) <==> id in NewIds(info') {
    }
  }

  lemma SameTriedOk(secret: Secret, info: map<int, AddrInfo>, info': map<int, AddrInfo>, tried: seq<seq<int>>)
    requires TriedOk(secret, info, tried) && SameEntries(info, info')
    ensures TriedOk(secret, info', tried)
  {
  }

  /** Statistics and the random order may change freely. */
  lemma SameFactsOk(secret: Secret, t: Table, s: Table, pending: int)
    requires OkWith(secret, t, pending) && SameFacts(t.info, s.info) && RandomOk(s.info, s.random)
    requires s == t.(info := s.info, random := s.random)
    ensures OkWith(secret, s, pending)
  {
    SameIds(t.info, s.info);
    SameServices(t.info, s.info, t.byAddr);
    SameTriedOk(secret, t.info, s.info, s.tried);
    assert NewOk(s.info, s.news, pending);
  }

  /** The entries agree except for positions in the random order. */
  ghost predicate SameButOrder(info: map<int, AddrInfo>, info': map<int, AddrInfo>) {
    && (forall id :: id in info <==> id in info')
    && forall id | id in info :: info[id] == info'[id].(randomPos := info[id].randomPos)
  }

  lemma SwappedRandomOk(t: Table, p1: nat, p2: nat)
    requires RandomOk(t.info, t.random) && p1 < |t.random| && p2 < |t.random|
    ensures var s := Swapped(t, p1, p2);
      && RandomOk(s.info, s.random) && SameButOrder(t.info, s.info)
      && s.random == t.random[p1 := t.random[p2]][p2 := t.random[p1]] && s == t.(info := s.info, random := s.random)
  {
    if p1 != p2 {
      var id1, id2 := t.random[p1], t.random[p2];
      assert id1 != id2;
    }
  }

  lemma SwappedOk(secret: Secret, t: Table, p1: nat, p2: nat, pending: int)
    requires OkWith(secret, t, pending) && p1 < |t.random| && p2 < |t.random|
    ensures OkWith(secret, Swapped(t, p1, p2), pending) && SameButOrder(t.info, Swapped(t, p1, p2).info)
  {
    SwappedRandomOk(t, p1, p2);
    SameFactsOk(secret, t, Swapped(t, p1, p2), pending);
  }

  // Dropping an entry

  lemma DropLast(info: map<int, AddrInfo>, random: seq<int>)
    requires RandomOk(info, random) && random != []
    ensures RandomOk(info - {random[|random| - 1]}, random[..|random| - 1])
  {
    var id, last := random[|random| - 1], |random| - 1;
    forall i | i in info && i != id ensures info[i].randomPos < last {
      assert random[info[i].randomPos] == i;
    }
  }

  lemma ErasedRandomOk(t: Table, id: int)
    requires RandomOk(t.info, t.random) && id in t.info
    ensures var s := Erased(t, id);
      && RandomOk(s.info, s.random)
      && (forall i :: i in s.info <==> i in t.info && i != id)
      && (forall i | i in s.info :: t.info[i] == s.info[i].(randomPos := t.info[i].randomPos))
      && |s.random| == |t.random| - 1
      && s == t.(info := s.info, random := s.random, byAddr := t.byAddr - {t.info[id].service.host}, nNew := t.nNew - 1)
  {
    var p, last := t.info[id].randomPos, |t.random| - 1;
    assert t.random[p] == id && last >= 0;
    hide RandomOk, Swapped;
    SwappedRandomOk(t, p, last);
    var s := Swapped(t, p, last);
    assert s.random[last] == id;
    DropLast(s.info, s.random);
  }

  /** What is left of the entries when id has gone. */
  ghost predicate IsRest(info: map<int, AddrInfo>, id: int, info': map<int, AddrInfo>) {
    && (forall i :: i in info' <==> i in info && i != id)
    && forall i | i in info' ::
         && info[i].service == info'[i].service && info[i].refCount == info'[i].refCount
         && info[i].inTried == info'[i].inTried
  }

  lemma RestAddrOk(info: map<int, AddrInfo>, id: int, info': map<int, AddrInfo>, byAddr: map<NetAddr, int>)
    requires AddrOk(info, byAddr) && id in info && IsRest(info, id, info')
    ensures AddrOk(info', byAddr - {info[id].service.host})
  {
    var byAddr' := byAddr - {info[id].service.host};
    forall a | a in byAddr' ensures byAddr'[a] in info' && info'[byAddr'[a]].service.host == a {
      var i := byAddr[a];
      assert i in info && i != id;
    }
  }

  lemma RestTriedOk(secret: Secret, info: map<int, AddrInfo>, id: int, info': map<int, AddrInfo>, tried: seq<seq<int>>)
    requires TriedOk(secret, info, tried) && id in info && !info[id].inTried && IsRest(info, id, info')
    ensures TriedOk(secret, info', tried)
  {
  }

  lemma RestCounts(info: map<int, AddrInfo>, id: int, info': map<int, AddrInfo>)
    requires id in info && !info[id].inTried && IsRest(info, id, info')
    ensures |TriedIds(info')| == |TriedIds(info)| && |NewIds(info')| == |NewIds(info)| - 1
  {
    forall i ensures i in TriedIds(info') <==> i in TriedIds(info)
             ensures i in NewIds(info') <==> i in NewIds(info) - {id} {
    }
    assert TriedIds(info') == TriedIds(info) && NewIds(info') == NewIds(info) - {id};
  }

  lemma SizeOfRemoval(s: set<int>, id: int)
    ensures |s - {id}| == |s| - (if id in s then 1 else 0)
  {
    if id !in s {
      assert s - {id} == s;
    }
  }

  /** One reference fewer, and either none is left and the entry goes, or its count says so. */
  lemma UnrefNewOk(info: map<int, AddrInfo>, news: seq<set<int>>, pending: int, b: nat, id: int, info': map<int, AddrInfo>)
    requires NewOk(info, news, pending) && b < |news| && id in news[b] && id != pending
    requires
      if info[id].refCount == 1 then IsRest(info, id, info')
      else SameFacts(info[id := info[id].(refCount := info[id].refCount - 1)], info')
    ensures NewOk(info', news[b := news[b] - {id}], pending)
  {
    var news' := news[b := news[b] - {id}];
    SizeOfRemoval(news[b], id);
    forall i | i in info ensures Refs(news', i) == Refs(news, i) - (if i == id then 1 else 0) {
      RefsUpdate(news, b, news[b] - {id}, i);
    }
    forall c, i | 0 <= c < |news| && i in news'[c] ensures i in info' {
      assert i in news[c] && i in info;
      RefsPositive(news', c, i);
    }
  }

  /** What taking the last reference changes. */
  lemma Forgotten(t: Table, b: nat, id: int)
    requires RandomOk(t.info, t.random) && b < |t.news| && id in t.info && t.info[id].refCount == 1
    ensures var t' := Unref(t, b, id);
      && RandomOk(t'.info, t'.random) && IsRest(t.info, id, t'.info) && |t'.random| == |t.random| - 1
      && t' == t.(info := t'.info, random := t'.random, byAddr := t.byAddr - {t.info[id].service.host},
                  news := t.news[b := t.news[b] - {id}], nNew := t.nNew - 1)
  {
    var t1 := t.(info := t.info[id := t.info[id].(refCount := 0)]);
    SameRandom(t, t1.info);
    ErasedRandomOk(t1, id);
    hide RandomOk, Erased;
    assert IsRest(t.info, id, Erased(t1, id).info);
  }

  lemma UnrefForgets(secret: Secret, t: Table, b: nat, id: int, pending: int)
    requires OkWith(secret, t, pending) && b < NEW_BUCKETS && id in t.news[b] && id != pending && t.info[id].refCount == 1
    ensures OkWith(secret, Unref(t, b, id), pending)
  {
    Forgotten(t, b, id);
    var t' := Unref(t, b, id);
    hide RandomOk, AddrOk, TriedOk, NewOk, Erased, Unref;
    RestAddrOk(t.info, id, t'.info, t.byAddr);
    RestTriedOk(secret, t.info, id, t'.info, t.tried);
    RestCounts(t.info, id, t'.info);
    UnrefNewOk(t.info, t.news, pending, b, id, t'.info);
  }

  lemma BucketsOk(secret: Secret, t: Table, pending: int)
    requires OkWith(secret, t, pending)
    ensures |t.tried| == TRIED_BUCKETS && |t.news| == NEW_BUCKETS && NONE !in t.info && CountOk(t)
    ensures forall b, id | 0 <= b < NEW_BUCKETS && id in t.news[b] :: id in t.info
    ensures forall b, id | 0 <= b < TRIED_BUCKETS && id in t.tried[b] :: id in t.info
  {
  }

  lemma UnrefKeeps(secret: Secret, t: Table, b: nat, id: int, pending: int)
    requires OkWith(secret, t, pending) && b < NEW_BUCKETS && id in t.news[b] && id != pending && t.info[id].refCount > 1
    ensures OkWith(secret, Unref(t, b, id), pending)
  {
    hide RandomOk, AddrOk, TriedOk, NewOk;
    BucketsOk(secret, t, pending);
    var info' := t.info[id := t.info[id].(refCount := t.info[id].refCount - 1)];
    SameRandom(t, info');
    SameServices(t.info, info', t.byAddr);
    SameIds(t.info, info');
    SameTriedOk(secret, t.info, info', t.tried);
    UnrefNewOk(t.info, t.news, pending, b, id, info');
  }

  lemma UnrefOk(secret: Secret, t: Table, b: nat, id: int, pending: int)
    requires OkWith(secret, t, pending) && b < NEW_BUCKETS && id in t.news[b] && id != pending
    ensures OkWith(secret, Unref(t, b, id), pending)
  {
    RefsPositive(t.news, b, id);
    if t.info[id].refCount == 1 {
      UnrefForgets(secret, t, b, id, pending);
    } else {
      UnrefKeeps(secret, t, b, id, pending);
    }
  }

  // Adding an entry

  lemma RefNewOk(info: map<int, AddrInfo>, news: seq<set<int>>, id: int)
    requires NewOk(info, news, NONE) && NONE !in info && id in info
    requires !info[id].inTried && info[id].refCount < NEW_BUCKETS_PER_ADDRESS
    ensures NewOk(info[id := info[id].(refCount := info[id].refCount + 1)], news, id)
  {
  }

  lemma RefPendingOk(secret: Secret, t: Table, id: int)
    requires Ok(secret, t) && id in t.info && !t.info[id].inTried && t.info[id].refCount < NEW_BUCKETS_PER_ADDRESS
    ensures OkWith(secret, Ref(t, id), id)
  {
    hide RandomOk, AddrOk, NewOk, TriedOk;
    var t' := Ref(t, id);
    assert NONE !in t.info;
    RefNewOk(t.info, t.news, id);
    SameIds(t.info, t'.info);
    SameServices(t.info, t'.info, t.byAddr);
    SameRandom(t, t'.info);
    SameTriedOk(secret, t.info, t'.info, t.tried);
  }

  /** A new entry, counted for the bucket it is about to enter. */
  function Entered(t: Table, addr: Address, source: NetAddr): Table {
    Ref(Created(t, addr, source).(nNew := t.nNew + 1), t.idCount)
  }

  lemma EnteredRandomOk(info: map<int, AddrInfo>, random: seq<int>, id: int, x: AddrInfo)
    requires RandomOk(info, random) && id !in info && x.randomPos == |random|
    ensures RandomOk(info[id := x], random + [id])
  {
  }

  lemma EnteredAddrOk(info: map<int, AddrInfo>, byAddr: map<NetAddr, int>, id: int, x: AddrInfo)
    requires AddrOk(info, byAddr) && id !in info && x.service.host !in byAddr
    ensures AddrOk(info[id := x], byAddr[x.service.host := id])
  {
    var byAddr' := byAddr[x.service.host := id];
    forall a | a in byAddr' ensures byAddr'[a] in info[id := x] && info[id := x][byAddr'[a]].service.host == a {
      var i := byAddr'[a];
      if a != x.service.host {
        assert a in byAddr && byAddr[a] == i && i in info;
      }
    }
  }

  lemma EnteredTriedOk(secret: Secret, info: map<int, AddrInfo>, tried: seq<seq<int>>, id: int, x: AddrInfo)
    requires TriedOk(secret, info, tried) && id !in info && !x.inTried
    ensures TriedOk(secret, info[id := x], tried)
  {
  }

  lemma EnteredNewOk(info: map<int, AddrInfo>, news: seq<set<int>>, id: int, x: AddrInfo)
    requires NewOk(info, news, NONE) && id !in info && !x.inTried && x.refCount == 1 && id != NONE
    ensures NewOk(info[id := x], news, id)
    requires NONE !in info
  {
    forall b | 0 <= b < |news| ensures id !in news[b] {
    }
    RefsNone(news, id);
  }

  lemma EnteredCounts(info: map<int, AddrInfo>, id: int, x: AddrInfo)
    requires id !in info && !x.inTried
    ensures |TriedIds(info[id := x])| == |TriedIds(info)| && |NewIds(info[id := x])| == |NewIds(info)| + 1
  {
    forall i ensures i in TriedIds(info[id := x]) <==> i in TriedIds(info)
             ensures i in NewIds(info[id := x]) <==> i in NewIds(info) + {id} {
    }
    assert TriedIds(info[id := x]) == TriedIds(info) && NewIds(info[id := x]) == NewIds(info) + {id};
  }

  lemma EnteredOk(secret: Secret, t: Table, addr: Address, source: NetAddr)
    requires Ok(secret, t) && addr.service.host !in t.byAddr
    ensures OkWith(secret, Entered(t, addr, source), t.idCount)
  {
    var t', id, x := Entered(t, addr, source), t.idCount, NewInfo(addr, source, |t.random|).(refCount := 1);
    assert id !in t.info && NONE !in t.info;
    assert t'.info == t.info[id := x];
    EnteredRandomOk(t.info, t.random, id, x);
    EnteredAddrOk(t.info, t.byAddr, id, x);
    EnteredTriedOk(secret, t.info, t.tried, id, x);
    EnteredNewOk(t.info, t.news, id, x);
    EnteredCounts(t.info, id, x);
    hide RandomOk, AddrOk, TriedOk, NewOk;
  }

  /** The pending entry reaches its bucket. */
  lemma PlacedOk(secret: Secret, t: Table, b: nat, id: int)
    requires OkWith(secret, t, id) && id in t.info && b < NEW_BUCKETS && id !in t.news[b] && |t.news[b]| < NEW_BUCKET_SIZE
    ensures Ok(secret, Placed(t, b, id))
  {
    assert id >= 0;
    forall i | i in t.info
      ensures Refs(Placed(t, b, id).news, i) == Refs(t.news, i) + (if i == id then 1 else 0)
    {
      RefsUpdate(t.news, b, t.news[b] + {id}, i);
    }
    assert NewOk(t.info, Placed(t, b, id).news, NONE);
  }

  // Moving an entry to the tried table

  /** id leaves the new table and takes a place in its tried bucket; NewOk holds but for the entry that is evicted. */
  function Promoted(secret: Secret, t: Table, id: int, origin: nat, shuffled: seq<int>, pos: nat): Table
    requires id in t.info && |t.tried| == TRIED_BUCKETS && |t.news| == NEW_BUCKETS && origin < NEW_BUCKETS
    requires |shuffled| >= TRIED_BUCKET_SIZE ==> pos < |shuffled| && shuffled[pos] in t.info
  {
    var news := Without(t.news, id);
    var b := TriedBucket(secret, t.info[id].service);
    var info := t.info[id := t.info[id].(refCount := t.info[id].refCount - Refs(t.news, id), inTried := true)];
    if |shuffled| < TRIED_BUCKET_SIZE then
      t.(info := info, news := news, nNew := t.nNew - 1, nTried := t.nTried + 1, tried := t.tried[b := shuffled + [id]])
    else
      var out := shuffled[pos];
      var home := NewBucket(secret, t.info[out].service, t.info[out].source);
      var c := if |news[home]| < NEW_BUCKET_SIZE then home else origin;
      t.(info := t.info[out := t.info[out].(inTried := false, refCount := 1)][id := info[id]],
         news := news[c := news[c] + {out}], tried := t.tried[b := shuffled[pos := id]])
  }

  /** The same ids in another order. */
  ghost predicate IsShuffle(s: seq<int>, r: seq<int>) {
    multiset(s) == multiset(r)
  }

  lemma ShuffleFacts(s: seq<int>, r: seq<int>)
    requires IsShuffle(s, r)
    ensures |s| == |r| && (forall x :: x in s <==> x in r) && (NoRepeats(s) ==> NoRepeats(r))
  {
    assert |multiset(s)| == |s| && |multiset(r)| == |r|;
    forall x ensures x in s <==> x in r {
      assert x in s <==> x in multiset(s);
      assert x in r <==> x in multiset(r);
    }
    if NoRepeats(s) {
      NoRepeatsCounts(s);
      CountsNoRepeats(r);
    }
  }

  lemma {:induction false} CountsNoRepeats(s: seq<int>)
    requires forall x :: multiset(s)[x] <= 1
    ensures NoRepeats(s)
  {
    if s != [] {
      assert s == [s[0]] + s[1..];
      assert forall x :: multiset(s[1..])[x] <= multiset(s)[x];
      CountsNoRepeats(s[1..]);
      assert s[0] !in multiset(s[1..]);
      assert forall j | 1 <= j < |s| :: s[j] == s[1..][j - 1] && s[j] in multiset(s[1..]);
    }
  }

  lemma {:induction false} NoRepeatsCounts(s: seq<int>)
    requires NoRepeats(s)
    ensures forall x :: multiset(s)[x] <= 1
  {
    if s != [] {
      NoRepeatsCounts(s[1..]);
      assert s == [s[0]] + s[1..];
      assert s[0] !in s[1..];
    }
  }

  // Which tried entry gives way

  const TRIED_ENTRIES_INSPECT_ON_EVICT := 4

  /** The i-th place drawn is the i-th or a later one. */
  predicate DrawsOk(s: seq<int>, draws: seq<nat>) {
    |draws| <= |s| && forall i | 0 <= i < |draws| :: i <= draws[i] < |s|
  }

  /** The ids with the drawn places swapped to the front, one after the other. */
  function DrawnForward(s: seq<int>, draws: seq<nat>): (r: seq<int>)
    requires DrawsOk(s, draws)
    ensures |r| == |s|
  {
    if draws == [] then s
    else
      var i := |draws| - 1;
      var r := DrawnForward(s, draws[..i]);
      r[draws[i] := r[i]][i := r[draws[i]]]
  }

  /** Of the first k entries the one at this place is the first with the oldest success. */
  predicate IsOldest(info: map<int, AddrInfo>, r: seq<int>, k: nat, at: nat) {
    && at < k <= |r| && (forall i | 0 <= i < k :: r[i] in info)
    && (forall i | 0 <= i < k :: info[r[at]].lastSuccess <= info[r[i]].lastSuccess)
    && (forall i | 0 <= i < at :: info[r[at]].lastSuccess < info[r[i]].lastSuccess)
  }

  /** pos is where the oldest of the entries drawn from s stood when it was drawn. */
  ghost predicate Selected(info: map<int, AddrInfo>, s: seq<int>, draws: seq<nat>, at: nat, r: seq<int>, pos: nat) {
    && DrawsOk(s, draws) && |draws| == Min(TRIED_ENTRIES_INSPECT_ON_EVICT, |s|) && r == DrawnForward(s, draws)
    && IsOldest(info, r, |draws|, at) && pos == draws[at]
  }

  ghost predicate IsSelection(info: map<int, AddrInfo>, s: seq<int>, r: seq<int>, pos: nat) {
    exists draws, at :: Selected(info, s, draws, at, r, pos)
  }

  lemma DrawnNext(s: seq<int>, draws: seq<nat>, pos: nat)
    requires DrawsOk(s, draws) && |draws| <= pos < |s|
    ensures DrawsOk(s, draws + [pos])
    ensures var (i, r) := (|draws|, DrawnForward(s, draws)); DrawnForward(s, draws + [pos]) == r[pos := r[i]][i := r[pos]]
  {
    assert (draws + [pos])[..|draws|] == draws;
  }

  /** One more entry is compared with the oldest so far. */
  lemma OldestNext(info: map<int, AddrInfo>, r: seq<int>, r': seq<int>, k: nat, at: nat)
    requires k < |r| == |r'| && (forall i | 0 <= i < k :: r'[i] == r[i]) && r'[k] in info
    requires k > 0 ==> IsOldest(info, r, k, at)
    ensures IsOldest(info, r', k + 1,
                     if k == 0 || info[r'[k]].lastSuccess < info[r[at]].lastSuccess then k else at)
  {
  }

  lemma {:induction false} DrawnShuffles(s: seq<int>, draws: seq<nat>)
    requires DrawsOk(s, draws)
    ensures IsShuffle(s, DrawnForward(s, draws))
  {
    if draws != [] {
      DrawnShuffles(s, draws[..|draws| - 1]);
    }
  }

  lemma SelectionShuffles(info: map<int, AddrInfo>, s: seq<int>, r: seq<int>, pos: nat)
    requires IsSelection(info, s, r, pos)
    ensures IsShuffle(s, r) && |r| == |s| && pos < |r|
  {
    var draws: seq<nat>, at: nat :| Selected(info, s, draws, at, r, pos);
    DrawnShuffles(s, draws);
  }

  lemma OldestSame(info: map<int, AddrInfo>, info': map<int, AddrInfo>, r: seq<int>, k: nat, at: nat)
    requires IsOldest(info, r, k, at)
    requires forall id | id in info :: id in info' && info'[id].lastSuccess == info[id].lastSuccess
    ensures IsOldest(info', r, k, at)
  {
    forall i | 0 <= i < k ensures r[i] in info' && info'[r[i]].lastSuccess == info[r[i]].lastSuccess {
      var id := r[i];
      assert id in info;
    }
  }

  /** Only the times of the last success matter. */
  lemma SelectionSame(info: map<int, AddrInfo>, info': map<int, AddrInfo>, s: seq<int>, r: seq<int>, pos: nat)
    requires IsSelection(info, s, r, pos)
    requires forall id | id in info :: id in info' && info'[id].lastSuccess == info[id].lastSuccess
    ensures IsSelection(info', s, r, pos)
  {
    var draws: seq<nat>, at: nat :| Selected(info, s, draws, at, r, pos);
    OldestSame(info, info', r, |draws|, at);
    assert Selected(info', s, draws, at, r, pos);
  }

  /** The entry that gives way is the oldest of those drawn exactly if that one was drawn from its own place. */
  lemma EvictsOldest(info: map<int, AddrInfo>, s: seq<int>, draws: seq<nat>, at: nat, r: seq<int>, pos: nat)
    requires NoRepeats(s) && Selected(info, s, draws, at, r, pos)
    ensures r[pos] == r[at] <==> draws[at] == at
  {
    DrawnShuffles(s, draws);
    ShuffleFacts(s, r);
  }

  /** So in a full bucket the entry that succeeded last of the four inspected ones may have to go. */
  lemma EvictsNewest(info: map<int, AddrInfo>, s: seq<int>)
    requires |s| == TRIED_BUCKET_SIZE && forall i | 0 <= i < 4 :: s[i] in info
    requires forall i | 0 <= i < 4 :: info[s[1]].lastSuccess <= info[s[i]].lastSuccess <= info[s[0]].lastSuccess
    ensures var r := s[0 := s[1]][1 := s[0]];
      Selected(info, s, [1, 1, 2, 3], 0, r, 1) && r[1] == s[0]
  {
    var r := s[0 := s[1]][1 := s[0]];
    DrawnNext(s, [], 1);
    assert [] + [1] == [1];
    assert DrawnForward(s, []) == s;
    assert DrawnForward(s, [1]) == r;
    DrawnInPlace(s, [1]);
    assert [1] + [1] == [1, 1];
    DrawnInPlace(s, [1, 1]);
    assert [1, 1] + [2] == [1, 1, 2];
    DrawnInPlace(s, [1, 1, 2]);
    assert [1, 1, 2] + [3] == [1, 1, 2, 3];
    FirstFour(info, s, r);
  }

  lemma FirstFour(info: map<int, AddrInfo>, s: seq<int>, r: seq<int>)
    requires |s| >= 4 && r == s[0 := s[1]][1 := s[0]] && forall i | 0 <= i < 4 :: s[i] in info
    requires forall i | 0 <= i < 4 :: info[s[1]].lastSuccess <= info[s[i]].lastSuccess
    ensures IsOldest(info, r, 4, 0)
  {
    forall i | 0 <= i < 4 ensures r[i] in info && info[r[0]].lastSuccess <= info[r[i]].lastSuccess {
      var j := if i == 0 then 1 else if i == 1 then 0 else i;
      assert r[i] == s[j] && r[0] == s[1];
    }
  }

  lemma DrawnInPlace(s: seq<int>, draws: seq<nat>)
    requires DrawsOk(s, draws) && |draws| < |s|
    ensures DrawsOk(s, draws + [|draws|]) && DrawnForward(s, draws + [|draws|]) == DrawnForward(s, draws)
  {
    DrawnNext(s, draws, |draws|);
    PutBack(DrawnForward(s, draws), |draws|);
    hide DrawnForward, DrawsOk;
  }

  lemma PutBack(r: seq<int>, i: nat)
    requires i < |r|
    ensures r[i := r[i]][i := r[i]] == r
  {
  }

  lemma {:induction false} RefsWithout(news: seq<set<int>>, id: int, i: int)
    ensures Refs(Without(news, id), i) == if i == id then 0 else Refs(news, i)
  {
    if news != [] {
      var init, last := news[..|news| - 1], news[|news| - 1];
      RefsWithout(init, id, i);
      RefsAppend(init, last, i);
      RefsAppend(Without(init, id), last - {id}, i);
      assert init + [last] == news;
    }
  }

  // Room in the tried bucket

  lemma JoinedTriedOk(secret: Secret, info: map<int, AddrInfo>, tried: seq<seq<int>>, id: int, info': map<int, AddrInfo>)
    requires TriedOk(secret, info, tried) && id in info && !info[id].inTried
    requires |tried[TriedBucket(secret, info[id].service)]| < TRIED_BUCKET_SIZE
    requires id in info' && info' == info[id := info'[id]] && info'[id].inTried && info'[id].service == info[id].service
    ensures var b := TriedBucket(secret, info[id].service); TriedOk(secret, info', tried[b := tried[b] + [id]])
  {
  }

  lemma JoinedCounts(info: map<int, AddrInfo>, id: int, info': map<int, AddrInfo>)
    requires id in info && !info[id].inTried && id in info' && info' == info[id := info'[id]] && info'[id].inTried
    ensures |TriedIds(info')| == |TriedIds(info)| + 1 && |NewIds(info')| == |NewIds(info)| - 1
  {
    forall i ensures i in TriedIds(info') <==> i in TriedIds(info) + {id}
             ensures i in NewIds(info') <==> i in NewIds(info) - {id} {
    }
    assert TriedIds(info') == TriedIds(info) + {id} && NewIds(info') == NewIds(info) - {id};
  }

  lemma LeftNewOk(info: map<int, AddrInfo>, news: seq<set<int>>, id: int, info': map<int, AddrInfo>)
    requires NewOk(info, news, NONE) && id in info && id in info' && info' == info[id := info'[id]] && NONE !in info
    requires info'[id].inTried && info'[id].refCount == 0
    ensures NewOk(info', Without(news, id), NONE)
  {
    forall b | 0 <= b < |news| ensures |Without(news, id)[b]| <= NEW_BUCKET_SIZE {
      SizeOfRemoval(news[b], id);
    }
    forall i | i in info ensures Refs(Without(news, id), i) == if i == id then 0 else Refs(news, i) {
      RefsWithout(news, id, i);
    }
  }

  lemma PromotedWithRoomOk(secret: Secret, t: Table, id: int, origin: nat)
    requires Ok(secret, t) && id in t.info && !t.info[id].inTried && origin < NEW_BUCKETS
    requires var b := TriedBucket(secret, t.info[id].service); |t.tried[b]| < TRIED_BUCKET_SIZE
    ensures Ok(secret, Promoted(secret, t, id, origin, t.tried[TriedBucket(secret, t.info[id].service)], 0))
  {
    var b := TriedBucket(secret, t.info[id].service);
    var t' := Promoted(secret, t, id, origin, t.tried[b], 0);
    assert t'.info[id].refCount == 0;
    hide RandomOk, AddrOk, TriedOk, NewOk;
    SameRandom(t, t'.info);
    SameServices(t.info, t'.info, t.byAddr);
    JoinedTriedOk(secret, t.info, t.tried, id, t'.info);
    JoinedCounts(t.info, id, t'.info);
    LeftNewOk(t.info, t.news, id, t'.info);
  }

  // No room: another entry is evicted

  lemma ReplacedTriedOk(secret: Secret, info: map<int, AddrInfo>, tried: seq<seq<int>>, id: int, b: nat,
                        shuffled: seq<int>, pos: nat, info': map<int, AddrInfo>)
    requires TriedOk(secret, info, tried) && id in info && !info[id].inTried
    requires b == TriedBucket(secret, info[id].service) && IsShuffle(tried[b], shuffled) && pos < |shuffled|
    requires shuffled[pos] in info && id in info' && shuffled[pos] in info' && shuffled[pos] != id
    requires info' == info[shuffled[pos] := info'[shuffled[pos]]][id := info'[id]]
    requires info'[id].inTried && info'[id].service == info[id].service && !info'[shuffled[pos]].inTried
    ensures TriedOk(secret, info', tried[b := shuffled[pos := id]])
  {
    ShuffleFacts(tried[b], shuffled);
    hide IsShuffle;
    var bucket' := shuffled[pos := id];
    assert id !in shuffled;
    forall x ensures x in bucket' <==> x == id || (x in shuffled && x != shuffled[pos]) {
      ReplaceMembers(shuffled, pos, id, x);
    }
  }

  lemma ReplaceMembers(s: seq<int>, pos: nat, id: int, x: int)
    requires NoRepeats(s) && pos < |s| && id !in s
    ensures x in s[pos := id] <==> x == id || (x in s && x != s[pos])
  {
    if x in s && x != s[pos] {
      var k :| 0 <= k < |s| && s[k] == x;
      assert s[pos := id][k] == x;
    }
    assert s[pos := id][pos] == id;
  }

  lemma ReplacedCounts(info: map<int, AddrInfo>, id: int, out: int, info': map<int, AddrInfo>)
    requires id in info && !info[id].inTried && out in info && info[out].inTried && id in info' && out in info'
    requires info' == info[out := info'[out]][id := info'[id]] && info'[id].inTried && !info'[out].inTried
    ensures |TriedIds(info')| == |TriedIds(info)| && |NewIds(info')| == |NewIds(info)|
  {
    forall i ensures i in TriedIds(info') <==> i in TriedIds(info) - {out} + {id}
             ensures i in NewIds(info') <==> i in NewIds(info) - {id} + {out} {
    }
    assert TriedIds(info') == TriedIds(info) - {out} + {id} && NewIds(info') == NewIds(info) - {id} + {out};
  }

  lemma ReturnedNewOk(info: map<int, AddrInfo>, news: seq<set<int>>, c: nat, out: int, info': map<int, AddrInfo>)
    requires NewOk(info, news, NONE) && NONE !in info && out in info && info[out].inTried && c < |news|
    requires |news[c]| < NEW_BUCKET_SIZE && out in info' && info' == info[out := info'[out]]
    requires !info'[out].inTried && info'[out].refCount == 1
    ensures NewOk(info', news[c := news[c] + {out}], NONE)
  {
    forall i | i in info ensures Refs(news[c := news[c] + {out}], i) == Refs(news, i) + (if i == out then 1 else 0) {
      if i == out && out in news[c] {
        RefsPositive(news, c, out);
      }
      RefsUpdate(news, c, news[c] + {out}, i);
    }
  }

  /** What eviction changes. */
  lemma EvictionShape(secret: Secret, t: Table, id: int, origin: nat, shuffled: seq<int>, pos: nat)
    returns (c: nat)
    requires Ok(secret, t) && id in t.info && !t.info[id].inTried && origin < NEW_BUCKETS && id in t.news[origin]
    requires |shuffled| == TRIED_BUCKET_SIZE && pos < |shuffled| && shuffled[pos] in t.info && t.info[shuffled[pos]].inTried
    ensures c < NEW_BUCKETS && (|t.news[c] - {id}| < NEW_BUCKET_SIZE || c == origin)
    ensures var (t', out) := (Promoted(secret, t, id, origin, shuffled, pos), shuffled[pos]);
      && t' == t.(info := t'.info, news := Without(t.news, id)[c := Without(t.news, id)[c] + {out}],
                  tried := t.tried[TriedBucket(secret, t.info[id].service) := shuffled[pos := id]])
      && id in t'.info && out in t'.info && t'.info == t.info[out := t'.info[out]][id := t'.info[id]]
      && t'.info[id] == t.info[id].(inTried := true, refCount := 0)
      && t'.info[out] == t.info[out].(inTried := false, refCount := 1)
  {
    var out := shuffled[pos];
    var home := NewBucket(secret, t.info[out].service, t.info[out].source);
    c := if |Without(t.news, id)[home]| < NEW_BUCKET_SIZE then home else origin;
    assert id >= 0;
    hide RandomOk, AddrOk, TriedOk, CountOk;
  }

  /** The evicted entry fits into its own new bucket or into the one that id came from. */
  lemma PromotedEvictingOk(secret: Secret, t: Table, id: int, origin: nat, shuffled: seq<int>, pos: nat)
    requires Ok(secret, t) && id in t.info && !t.info[id].inTried && origin < NEW_BUCKETS && id in t.news[origin]
    requires IsShuffle(t.tried[TriedBucket(secret, t.info[id].service)], shuffled)
    requires |shuffled| == TRIED_BUCKET_SIZE && pos < |shuffled| && shuffled[pos] in t.info && t.info[shuffled[pos]].inTried
    ensures Ok(secret, Promoted(secret, t, id, origin, shuffled, pos))
  {
    hide RandomOk, AddrOk, IsShuffle, NewOk, TriedOk, Promoted;
    BucketsOk(secret, t, NONE);
    var b, out := TriedBucket(secret, t.info[id].service), shuffled[pos];
    var t' := Promoted(secret, t, id, origin, shuffled, pos);
    var c := EvictionShape(secret, t, id, origin, shuffled, pos);
    SameRandom(t, t'.info);
    SameServices(t.info, t'.info, t.byAddr);
    assert NONE !in t.info;
    ReplacedTriedOk(secret, t.info, t.tried, id, b, shuffled, pos, t'.info);
    ReplacedCounts(t.info, id, out, t'.info);
    EvictedNewOk(t.info, t.news, id, origin, c, out, t'.info);
  }

  lemma EvictedNewOk(info: map<int, AddrInfo>, news: seq<set<int>>, id: int, origin: nat, c: nat, out: int,
                     info': map<int, AddrInfo>)
    requires NewOk(info, news, NONE) && NONE !in info && id in info && out in info && info[out].inTried && !info[id].inTried
    requires origin < |news| && id in news[origin] && c < |news| && (|news[c] - {id}| < NEW_BUCKET_SIZE || c == origin)
    requires id in info' && out in info' && info' == info[out := info'[out]][id := info'[id]]
    requires info'[id].inTried && info'[id].refCount == 0 && !info'[out].inTried && info'[out].refCount == 1
    ensures NewOk(info', Without(news, id)[c := Without(news, id)[c] + {out}], NONE)
  {
    var mid := info[id := info'[id]];
    LeftNewOk(info, news, id, mid);
    SizeOfRemoval(news[origin], id);
    assert info' == mid[out := info'[out]];
    hide NewOk;
    ReturnedNewOk(mid, Without(news, id), c, out, info');
  }

  // How much the tables can hold

  ghost predicate InSome(x: int, buckets: seq<set<int>>) {
    exists b :: 0 <= b < |buckets| && x in buckets[b]
  }

  lemma {:induction false} CoveredByBuckets(s: set<int>, buckets: seq<set<int>>, size: nat)
    requires forall b | 0 <= b < |buckets| :: |buckets[b]| <= size
    requires forall x | x in s :: InSome(x, buckets)
    ensures |s| <= size * |buckets|
    decreases |buckets|
  {
    if buckets == [] {
      if s != {} {
        NonEmpty(s);
        assert false;
      }
    } else {
      var init, last := buckets[..|buckets| - 1], buckets[|buckets| - 1];
      forall x | x in s - last ensures InSome(x, init) {
        InSomeEarlier(x, buckets);
      }
      CoveredByBuckets(s - last, init, size);
      SplitSize(s, last);
      assert size * |buckets| == size * |init| + size;
    }
  }

  lemma InSomeEarlier(x: int, buckets: seq<set<int>>)
    requires buckets != [] && InSome(x, buckets) && x !in buckets[|buckets| - 1]
    ensures InSome(x, buckets[..|buckets| - 1])
  {
    var b :| 0 <= b < |buckets| && x in buckets[b];
    assert x in buckets[..|buckets| - 1][b];
  }

  lemma SplitSize(s: set<int>, part: set<int>)
    ensures |s| <= |s - part| + |part|
  {
    SubsetSize(s * part, part);
    assert s == (s - part) + (s * part);
  }

  lemma {:induction false} SubsetSize(a: set<int>, b: set<int>)
    requires a <= b
    ensures |a| <= |b|
  {
    if a != {} {
      NonEmpty(a);
      var x :| x in a;
      SubsetSize(a - {x}, b - {x});
    }
  }

  ghost function Members(s: seq<int>): set<int> {
    set x | x in s
  }

  lemma {:induction false} MembersSize(s: seq<int>)
    ensures |Members(s)| <= |s|
  {
    if s != [] {
      MembersSize(s[1..]);
      assert Members(s) == {s[0]} + Members(s[1..]);
    }
  }

  /** However many addresses are offered, only so many are kept. */
  lemma SizeBound(secret: Secret, t: Table)
    requires Ok(secret, t)
    ensures t.nTried <= TRIED_BUCKETS * TRIED_BUCKET_SIZE && t.nNew <= NEW_BUCKETS * NEW_BUCKET_SIZE
    ensures |t.random| == t.nTried + t.nNew
  {
    var buckets := seq(TRIED_BUCKETS, b requires 0 <= b < |t.tried| => Members(t.tried[b]));
    forall b | 0 <= b < |buckets| ensures |buckets[b]| <= TRIED_BUCKET_SIZE {
      MembersSize(t.tried[b]);
    }
    forall x | x in TriedIds(t.info) ensures InSome(x, buckets) {
      assert x in buckets[TriedBucket(secret, t.info[x].service)];
    }
    CoveredByBuckets(TriedIds(t.info), buckets, TRIED_BUCKET_SIZE);
    forall x | x in NewIds(t.info) ensures InSome(x, t.news) {
      var b := RefsSome(t.news, x);
      assert x in t.news[b];
    }
    CoveredByBuckets(NewIds(t.info), t.news, NEW_BUCKET_SIZE);
    RandomSize(t);
  }

  lemma RandomSize(t: Table)
    requires RandomOk(t.info, t.random)
    ensures |t.random| == |TriedIds(t.info)| + |NewIds(t.info)|
  {
    forall i, j | 0 <= i < j < |t.random| ensures t.random[i] != t.random[j] {
      assert t.info[t.random[i]].randomPos == i;
    }
    DistinctSize(t.random);
    forall x ensures x in Members(t.random) <==> x in TriedIds(t.info) + NewIds(t.info) {
      if x in t.info {
        assert t.random[t.info[x].randomPos] == x;
      }
    }
    assert Members(t.random) == TriedIds(t.info) + NewIds(t.info);
    assert TriedIds(t.info) !! NewIds(t.info);
  }

  lemma {:induction false} DistinctSize(s: seq<int>)
    requires NoRepeats(s)
    ensures |Members(s)| == |s|
  {
    if s != [] {
      DistinctSize(s[1..]);
      assert Members(s) == {s[0]} + Members(s[1..]);
    }
  }

  /** One address range cannot take more than four of the tried buckets. */
  lemma GroupBound(secret: Secret, t: Table, group: int)
    requires Ok(secret, t)
    ensures |set id | id in t.info && t.info[id].inTried && secret.group(t.info[id].service.host) == group|
            <= TRIED_BUCKETS_PER_GROUP * TRIED_BUCKET_SIZE
  {
    var ids := set id | id in t.info && t.info[id].inTried && secret.group(t.info[id].service.host) == group;
    var buckets := seq(TRIED_BUCKETS_PER_GROUP, k requires 0 <= k < TRIED_BUCKETS_PER_GROUP && |t.tried| == TRIED_BUCKETS =>
      Members(t.tried[secret.triedHash(group, k) % TRIED_BUCKETS]));
    forall b | 0 <= b < |buckets| ensures |buckets[b]| <= TRIED_BUCKET_SIZE {
      MembersSize(t.tried[secret.triedHash(group, b) % TRIED_BUCKETS]);
    }
    forall x | x in ids ensures InSome(x, buckets) {
      assert x in buckets[secret.serviceHash(t.info[x].service) % TRIED_BUCKETS_PER_GROUP];
    }
    CoveredByBuckets(ids, buckets, TRIED_BUCKET_SIZE);
  }

  // Hearing about an address again

  const HOUR := 3600
  const DAY := 86400

  function Max(a: int, b: int): int {
    if a > b then a else b
  }

  function Refreshed(x: AddrInfo, addr: Address, penalty: int, now: int): AddrInfo {
    var interval := if now - addr.time < DAY then HOUR else DAY;
    var time :=
      if addr.time != 0 && (x.time == 0 || x.time < addr.time - interval - penalty) then Max(0, addr.time - penalty)
      else x.time;
    x.(time := time, services := x.services + addr.services)
  }

  /** Whether hearing of a known address can put it into one more bucket; lucky is the outcome of the draw. */
  predicate Promising(x: AddrInfo, addr: Address, lucky: bool) {
    && addr.time != 0 && (x.time == 0 || addr.time > x.time)
    && !x.inTried && x.refCount != NEW_BUCKETS_PER_ADDRESS && (x.refCount <= 0 || lucky)
  }

  /** The entry goes into bucket b, for which the victim makes room if need be. */
  function Bucketed(t: Table, b: nat, id: int, victim: int): Table
    requires b < |t.news| && id in t.info
    requires |t.news[b]| == NEW_BUCKET_SIZE && id !in t.news[b] ==> CanUnref(Ref(t, id), victim)
  {
    if id in t.news[b] then t
    else Placed(if |t.news[b]| == NEW_BUCKET_SIZE then Unref(Ref(t, id), b, victim) else Ref(t, id), b, id)
  }

  predicate CanUnref(t: Table, id: int) {
    && id in t.info && 0 <= t.info[id].randomPos < |t.random|
    && t.random[t.info[id].randomPos] in t.info && t.random[|t.random| - 1] in t.info
  }

  /** A victim in bucket b is forgotten or loses a reference; nothing else in the table is lost. */
  ghost predicate LosesAtMost(t: Table, t': Table, victim: int) {
    && t'.tried == t.tried && t'.nTried == t.nTried
    && (forall i | i in t.info && i !in t'.info :: i == victim && !t.info[i].inTried)
    && (forall i | i in t.info && i in t'.info :: SameOrigin(t.info[i], t'.info[i]))
  }

  predicate SameOrigin(x: AddrInfo, y: AddrInfo) {
    x.service == y.service && x.source == y.source && x.inTried == y.inTried
  }

  lemma BucketedOk(secret: Secret, t: Table, b: nat, id: int, victim: int)
    requires b < NEW_BUCKETS && |t.news| == NEW_BUCKETS && id in t.info
    requires id in t.news[b] ==> Ok(secret, t)
    requires id !in t.news[b] ==> OkWith(secret, Ref(t, id), id)
    requires id !in t.news[b] && |t.news[b]| == NEW_BUCKET_SIZE ==> victim in t.news[b]
    ensures id !in t.news[b] && |t.news[b]| == NEW_BUCKET_SIZE ==> CanUnref(Ref(t, id), victim)
    ensures Ok(secret, Bucketed(t, b, id, victim))
  {
    if id !in t.news[b] {
      var r := Ref(t, id);
      if |t.news[b]| == NEW_BUCKET_SIZE {
        CanUnrefOk(secret, r, b, victim, id);
        UnrefOk(secret, r, b, victim, id);
        SizeOfRemoval(t.news[b], victim);
        UnrefNews(r, b, victim);
        hide RandomOk, AddrOk, TriedOk, NewOk, Unref;
        PlacedOk(secret, Unref(r, b, victim), b, id);
      } else {
        assert |r.news[b]| < NEW_BUCKET_SIZE;
        PlacedOk(secret, r, b, id);
      }
    }
  }

  lemma CanUnrefOk(secret: Secret, t: Table, b: nat, id: int, pending: int)
    requires OkWith(secret, t, pending) && b < NEW_BUCKETS && id in t.news[b]
    ensures CanUnref(t, id)
  {
    assert t.random[t.info[id].randomPos] == id;
  }

  lemma UnrefNews(t: Table, b: nat, id: int)
    requires b < |t.news| && CanUnref(t, id)
    ensures var t' := Unref(t, b, id);
      && t'.news == t.news[b := t.news[b] - {id}] && t'.tried == t.tried && t'.nTried == t.nTried
      && (forall i :: i in t'.info ==> i in t.info)
      && (forall i | i in t.info && i != id :: i in t'.info && t'.info[i] == t.info[i].(randomPos := t'.info[i].randomPos))
      && (id in t'.info ==> SameOrigin(t.info[id], t'.info[id]))
  {
  }

  lemma LosesAtMostTrans(t: Table, n: Table, t': Table, victim: int)
    requires LosesAtMost(t, n, victim) && (forall i | i in t.info :: i in n.info) && LosesAtMost(n, t', victim)
    ensures LosesAtMost(t, t', victim)
  {
  }

  lemma RefLoses(t: Table, id: int, victim: int)
    requires id in t.info
    ensures LosesAtMost(t, Ref(t, id), victim) && forall i | i in t.info :: i in Ref(t, id).info
  {
  }

  lemma UnrefLoses(t: Table, b: nat, id: int)
    requires b < |t.news| && CanUnref(t, id) && !t.info[id].inTried
    ensures LosesAtMost(t, Unref(t, b, id), id) && (forall i | i in t.info && i != id :: i in Unref(t, b, id).info)
  {
    UnrefNews(t, b, id);
    hide Unref;
  }

  lemma BucketedLoses(secret: Secret, t: Table, b: nat, id: int, victim: int)
    requires b < |t.news| && id in t.info
    requires |t.news[b]| == NEW_BUCKET_SIZE && id !in t.news[b] ==>
      CanUnref(Ref(t, id), victim) && !t.info[victim].inTried && victim != id
    ensures LosesAtMost(t, Bucketed(t, b, id, victim), victim) && id in Bucketed(t, b, id, victim).info
  {
    var r := Ref(t, id);
    RefLoses(t, id, victim);
    if id !in t.news[b] && |t.news[b]| == NEW_BUCKET_SIZE {
      assert !r.info[victim].inTried;
      UnrefNews(r, b, victim);
      UnrefLoses(r, b, victim);
      hide Unref, Ref, CanUnref, LosesAtMost;
      var u := Unref(r, b, victim);
      LosesAtMostTrans(t, r, u, victim);
      LosesSame(t, u, Placed(u, b, id), victim);
    }
  }

  lemma LosesSame(t: Table, t': Table, t'': Table, victim: int)
    requires LosesAtMost(t, t', victim) && t''.info == t'.info && t''.tried == t'.tried && t''.nTried == t'.nTried
    ensures LosesAtMost(t, t'', victim)
  {
  }

  /** The id of the entry for an address, new or old. */
  function NotedId(t: Table, addr: Address): int {
    if addr.service.host in t.byAddr then t.byAddr[addr.service.host] else t.idCount
  }

  /** The table with the entry for a known address, or with a new one that no bucket holds yet. */
  function Noted(t: Table, addr: Address, source: NetAddr, penalty: int, now: int): (r: Table)
    requires addr.service.host in t.byAddr ==> t.byAddr[addr.service.host] in t.info
    ensures NotedId(t, addr) in r.info && r.news == t.news
  {
    var id := NotedId(t, addr);
    if addr.service.host in t.byAddr then t.(info := t.info[id := Refreshed(t.info[id], addr, penalty, now)])
    else Created(t, addr.(time := Max(0, addr.time - penalty)), source).(nNew := t.nNew + 1)
  }

  /** Whether the entry is up for (another) new bucket. */
  predicate GoesOn(t: Table, addr: Address, penalty: int, now: int, lucky: bool)
    requires addr.service.host in t.byAddr ==> t.byAddr[addr.service.host] in t.info
  {
    addr.service.host in t.byAddr ==>
      Promising(Refreshed(t.info[t.byAddr[addr.service.host]], addr, penalty, now), addr, lucky)
  }

  ghost predicate VictimOk(secret: Secret, t: Table, addr: Address, source: NetAddr, penalty: int, now: int,
                           lucky: bool, victim: int)
    requires addr.service.host in t.byAddr ==> t.byAddr[addr.service.host] in t.info
  {
    var n, id := Noted(t, addr, source, penalty, now), NotedId(t, addr);
    var b := NewBucket(secret, n.info[id].service, source);
    GoesOn(t, addr, penalty, now, lucky) && b < |n.news| && id !in n.news[b] && |n.news[b]| == NEW_BUCKET_SIZE ==>
      victim in n.news[b] && CanUnref(Ref(n, id), victim)
  }

  /** What hearing of a routable address makes of the table. */
  ghost function Added(secret: Secret, t: Table, addr: Address, source: NetAddr, penalty: int, now: int,
                       lucky: bool, victim: int): Table
    requires addr.service.host in t.byAddr ==> t.byAddr[addr.service.host] in t.info
    requires |t.news| == NEW_BUCKETS && VictimOk(secret, t, addr, source, penalty, now, lucky, victim)
  {
    var n, id := Noted(t, addr, source, penalty, now), NotedId(t, addr);
    if GoesOn(t, addr, penalty, now, lucky) then Bucketed(n, NewBucket(secret, n.info[id].service, source), id, victim)
    else n
  }

  lemma RefreshedOk(secret: Secret, t: Table, id: int, x: AddrInfo)
    requires Ok(secret, t) && id in t.info
    requires x == t.info[id].(services := x.services, time := x.time, lastSuccess := x.lastSuccess, lastTry := x.lastTry,
                              attempts := x.attempts)
    ensures Ok(secret, t.(info := t.info[id := x]))
  {
    var t' := t.(info := t.info[id := x]);
    SameRandom(t, t'.info);
    hide RandomOk;
    SameFactsOk(secret, t, t', NONE);
  }

  /** Hearing of an address keeps the tables consistent and drops at most one other entry, never a tried one. */
  lemma AddedOk(secret: Secret, t: Table, addr: Address, source: NetAddr, penalty: int, now: int, lucky: bool, victim: int)
    requires Ok(secret, t)
    requires addr.service.host in t.byAddr ==> t.byAddr[addr.service.host] in t.info
    requires VictimOk(secret, t, addr, source, penalty, now, lucky, victim)
    ensures Ok(secret, Added(secret, t, addr, source, penalty, now, lucky, victim))
  {
    var n, id := Noted(t, addr, source, penalty, now), NotedId(t, addr);
    var b := NewBucket(secret, n.info[id].service, source);
    if addr.service.host in t.byAddr {
      RefreshedOk(secret, t, id, n.info[id]);
      if GoesOn(t, addr, penalty, now, lucky) {
        if id !in n.news[b] {
          RefPendingOk(secret, n, id);
        }
        hide OkWith;
        BucketedOk(secret, n, b, id, victim);
      }
    } else {
      var addr' := addr.(time := Max(0, addr.time - penalty));
      EnteredOk(secret, t, addr', source);
      assert id !in n.news[b] && GoesOn(t, addr, penalty, now, lucky);
      hide OkWith;
      BucketedOk(secret, n, b, id, victim);
    }
  }

  /** Finding or creating the entry loses none. */
  lemma NotedLoses(secret: Secret, t: Table, addr: Address, source: NetAddr, penalty: int, now: int, victim: int)
    requires Ok(secret, t)
    requires addr.service.host in t.byAddr ==> t.byAddr[addr.service.host] in t.info
    ensures var n, id := Noted(t, addr, source, penalty, now), NotedId(t, addr);
      && LosesAtMost(t, n, victim) && (forall i | i in t.info :: i in n.info)
      && n.info[id].service.host == addr.service.host && (id !in t.info ==> forall b | 0 <= b < |t.news| :: id !in t.news[b])
      && (forall i | i in t.info :: n.info[i].inTried == t.info[i].inTried)
  {
    hide RandomOk, TriedOk;
  }

  lemma AddedLoses(secret: Secret, t: Table, addr: Address, source: NetAddr, penalty: int, now: int, lucky: bool, victim: int)
    requires Ok(secret, t)
    requires addr.service.host in t.byAddr ==> t.byAddr[addr.service.host] in t.info
    requires VictimOk(secret, t, addr, source, penalty, now, lucky, victim)
    ensures LosesAtMost(t, Added(secret, t, addr, source, penalty, now, lucky, victim), victim)
    ensures var n, id := Noted(t, addr, source, penalty, now), NotedId(t, addr);
      && id in Added(secret, t, addr, source, penalty, now, lucky, victim).info
      && Added(secret, t, addr, source, penalty, now, lucky, victim).info[id].service.host == addr.service.host
  {
    var n, id := Noted(t, addr, source, penalty, now), NotedId(t, addr);
    var b := NewBucket(secret, n.info[id].service, source);
    NotedLoses(secret, t, addr, source, penalty, now, victim);
    VictimIsNew(secret, t, victim);
    BucketsOk(secret, t, NONE);
    hide OkWith, Bucketed, Noted, NotedId, Unref, Ref, CanUnref, RandomOk;
    if GoesOn(t, addr, penalty, now, lucky) {
      BucketedLoses(secret, n, b, id, victim);
      LosesAtMostTrans(t, n, Bucketed(n, b, id, victim), victim);
    }
  }

  lemma VictimIsNew(secret: Secret, t: Table, id: int)
    requires Ok(secret, t)
    ensures forall b | 0 <= b < NEW_BUCKETS && id in t.news[b] :: id in t.info && !t.info[id].inTried
  {
    forall b | 0 <= b < NEW_BUCKETS && id in t.news[b] ensures id in t.info && !t.info[id].inTried {
      RefsPositive(t.news, b, id);
    }
  }

  /** Where promotion finds its material: a bucket the entry is in and, if its tried bucket is full, who gives way. */
  ghost predicate CanPromote(secret: Secret, t: Table, id: int, origin: nat, shuffled: seq<int>, pos: nat) {
    && id in t.info && !t.info[id].inTried && |t.tried| == TRIED_BUCKETS && |t.news| == NEW_BUCKETS
    && origin < NEW_BUCKETS && id in t.news[origin]
    && (var bucket := t.tried[TriedBucket(secret, t.info[id].service)];
        if |bucket| < TRIED_BUCKET_SIZE then shuffled == bucket && pos == 0
        else
          && IsSelection(t.info, bucket, shuffled, pos) && |shuffled| == TRIED_BUCKET_SIZE && pos < |shuffled|
          && shuffled[pos] in t.info && t.info[shuffled[pos]].inTried)
  }

  lemma PromotedOk(secret: Secret, t: Table, id: int, origin: nat, shuffled: seq<int>, pos: nat)
    requires Ok(secret, t) && CanPromote(secret, t, id, origin, shuffled, pos)
    ensures Ok(secret, Promoted(secret, t, id, origin, shuffled, pos))
  {
    hide OkWith, Promoted;
    if |t.tried[TriedBucket(secret, t.info[id].service)]| < TRIED_BUCKET_SIZE {
      PromotedWithRoomOk(secret, t, id, origin);
    } else {
      SelectionShuffles(t.info, t.tried[TriedBucket(secret, t.info[id].service)], shuffled, pos);
      PromotedEvictingOk(secret, t, id, origin, shuffled, pos);
    }
  }

  lemma TriedMembers(secret: Secret, t: Table)
    requires Ok(secret, t)
    ensures forall b, id | 0 <= b < |t.tried| && id in t.tried[b] :: id in t.info && t.info[id].inTried
    ensures |t.tried| == TRIED_BUCKETS && |t.news| == NEW_BUCKETS && NONE !in t.info
    ensures forall b | 0 <= b < |t.tried| :: |t.tried[b]| <= TRIED_BUCKET_SIZE
  {
  }

  /** Moving an entry to the tried table forgets no address. */
  lemma PromotedKeeps(secret: Secret, t: Table, id: int, origin: nat, shuffled: seq<int>, pos: nat)
    requires id in t.info && |t.tried| == TRIED_BUCKETS && |t.news| == NEW_BUCKETS && origin < NEW_BUCKETS
    requires |shuffled| >= TRIED_BUCKET_SIZE ==> pos < |shuffled| && shuffled[pos] in t.info && shuffled[pos] != id
    ensures var t' := Promoted(secret, t, id, origin, shuffled, pos);
      && t'.byAddr == t.byAddr && (forall i :: i in t'.info <==> i in t.info) && t'.info[id].inTried
      && forall i | i in t.info :: t'.info[i] == t.info[i].(inTried := t'.info[i].inTried, refCount := t'.info[i].refCount)
  {
  }

  // Single entries

  /** The host is on record with just this port. */
  predicate Knows(t: Table, a: Service) {
    a.host in t.byAddr && t.byAddr[a.host] in t.info && t.info[t.byAddr[a.host]].service == a
  }

  function WithInfo(t: Table, id: int, x: AddrInfo): Table {
    t.(info := t.info[id := x])
  }

  function GoodInfo(x: AddrInfo, time: int): AddrInfo {
    x.(lastSuccess := time, lastTry := time, time := time, attempts := 0)
  }

  function AttemptedInfo(x: AddrInfo, time: int): AddrInfo {
    x.(lastTry := time, attempts := x.attempts + 1)
  }

  function ConnectedInfo(x: AddrInfo, time: int): AddrInfo {
    if time - x.time > 1200 then x.(time := time) else x
  }

  /** What a good connection makes of the table. */
  ghost predicate IsMadeGood(secret: Secret, t: Table, t': Table, a: Service, time: int,
                             origin: nat, shuffled: seq<int>, pos: nat)
  {
    if !Knows(t, a) then t' == t
    else
      var id := t.byAddr[a.host];
      var t1 := WithInfo(t, id, GoodInfo(t.info[id], time));
      if t1.info[id].inTried then t' == t1
      else CanPromote(secret, t1, id, origin, shuffled, pos) && t' == Promoted(secret, t1, id, origin, shuffled, pos)
  }

  /** The tables stay consistent, no address is lost, and an address on record is now a tried one. */
  lemma MadeGoodOk(secret: Secret, t: Table, t': Table, a: Service, time: int, origin: nat, shuffled: seq<int>, pos: nat)
    requires Ok(secret, t) && IsMadeGood(secret, t, t', a, time, origin, shuffled, pos)
    ensures Ok(secret, t') && t'.byAddr == t.byAddr && forall i :: i in t'.info <==> i in t.info
    ensures Knows(t, a) ==> t'.info[t.byAddr[a.host]].inTried
    ensures TimesOk(t.info) && time > 0 ==> TimesOk(t'.info)
  {
    if Knows(t, a) {
      var id := t.byAddr[a.host];
      var t1 := WithInfo(t, id, GoodInfo(t.info[id], time));
      RefreshedOk(secret, t, id, t1.info[id]);
      if !t1.info[id].inTried {
        PromotedOk(secret, t1, id, origin, shuffled, pos);
        PromotedKeeps(secret, t1, id, origin, shuffled, pos);
        hide Ok, CanPromote;
        if TimesOk(t.info) && time > 0 {
          PromotedTimes(secret, t1, id, origin, shuffled, pos);
        }
      }
    }
  }

  lemma PromotedTimes(secret: Secret, t: Table, id: int, origin: nat, shuffled: seq<int>, pos: nat)
    requires CanPromote(secret, t, id, origin, shuffled, pos) && TimesOk(t.info) && t.info[id].lastSuccess != 0
    ensures TimesOk(Promoted(secret, t, id, origin, shuffled, pos).info)
  {
  }

  lemma UnrefTimes(t: Table, b: nat, id: int)
    requires b < |t.news| && CanUnref(t, id) && TimesOk(t.info)
    ensures TimesOk(Unref(t, b, id).info)
  {
  }

  lemma AddedTimes(secret: Secret, t: Table, addr: Address, source: NetAddr, penalty: int, now: int, lucky: bool, victim: int)
    requires addr.service.host in t.byAddr ==> t.byAddr[addr.service.host] in t.info
    requires |t.news| == NEW_BUCKETS && VictimOk(secret, t, addr, source, penalty, now, lucky, victim) && TimesOk(t.info)
    ensures TimesOk(Added(secret, t, addr, source, penalty, now, lucky, victim).info)
  {
    var n, id := Noted(t, addr, source, penalty, now), NotedId(t, addr);
    var b := NewBucket(secret, n.info[id].service, source);
    assert TimesOk(n.info) && TimesOk(Ref(n, id).info);
    if GoesOn(t, addr, penalty, now, lucky) && id !in n.news[b] && |n.news[b]| == NEW_BUCKET_SIZE {
      UnrefTimes(Ref(n, id), b, victim);
      hide Unref;
    }
  }

  lemma StatsOk(secret: Secret, t: Table, id: int, x: AddrInfo, time: int)
    requires Ok(secret, t) && id in t.info && (x == AttemptedInfo(t.info[id], time) || x == ConnectedInfo(t.info[id], time))
    ensures Ok(secret, WithInfo(t, id, x)) && (TimesOk(t.info) && time >= 0 ==> TimesOk(WithInfo(t, id, x).info))
  {
    RefreshedOk(secret, t, id, x);
    hide Ok;
  }

  /** An entry that is up for a bucket it is not in can be counted for it. */
  lemma ReadyForBucket(secret: Secret, t: Table, addr: Address, source: NetAddr, penalty: int, now: int, lucky: bool)
    requires Ok(secret, t)
    requires addr.service.host in t.byAddr ==> t.byAddr[addr.service.host] in t.info
    requires GoesOn(t, addr, penalty, now, lucky)
    ensures var n, id := Noted(t, addr, source, penalty, now), NotedId(t, addr);
      OkWith(secret, Ref(n, id), id)
  {
    var n, id := Noted(t, addr, source, penalty, now), NotedId(t, addr);
    if addr.service.host in t.byAddr {
      RefreshedOk(secret, t, id, n.info[id]);
      RefBound(secret, n, id);
      hide OkWith;
      RefPendingOk(secret, n, id);
    } else {
      hide OkWith;
      EnteredOk(secret, t, addr.(time := Max(0, addr.time - penalty)), source);
    }
  }

  lemma RefBound(secret: Secret, t: Table, id: int)
    requires Ok(secret, t) && id in t.info
    ensures t.info[id].refCount <= NEW_BUCKETS_PER_ADDRESS
  {
  }

  function AddressOf(x: AddrInfo): Address {
    Address(x.service, x.services, x.time)
  }
}
