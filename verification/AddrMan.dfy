/** The address manager (src/addrman.cpp, CAddrMan). */
module AddrMan {
  import opened Sequences
  import opened AddrTable
  import opened AddrDisk

  /** IsTerrible */
  predicate Terrible(x: AddrInfo, now: int) {
    if x.lastTry != 0 && x.lastTry >= now - 60 then false
    else
      || x.time > now + 600
      || x.time == 0 || now - x.time > 30 * DAY
      || (x.lastSuccess == 0 && x.attempts >= 3)
      || (now - x.lastSuccess > 7 * DAY && x.attempts >= 10)
  }

  function Power2(n: int): (r: nat)
    ensures r >= 1
  {
    if n <= 0 then 1 else 2 * Power2(n - 1)
  }

  /** An arbitrary number below nMax. */
  method GetRandInt(nMax: nat) returns (r: nat)
    ensures if nMax == 0 then r == 0 else r < nMax
  {
    if nMax == 0 {
      return 0;
    }
    r :| 0 <= r < nMax;
  }

  class AddrMan {
    const nKey: Secret
    var nIdCount: int
    var mapInfo: map<int, AddrInfo>
    var mapAddr: map<NetAddr, int>
    var vRandom: seq<int>
    var nTried: int
    var vvTried: seq<seq<int>>
    var nNew: int
    var vvNew: seq<set<int>>

    ghost function T(): Table
      reads this
    {
      Table(nIdCount, mapInfo, mapAddr, vRandom, nTried, vvTried, nNew, vvNew)
    }

    ghost predicate Valid()
      reads this
    {
      Ok(nKey, T())
    }

    constructor (key: Secret)
      ensures Valid() && TimesOk(mapInfo) && nKey == key && mapInfo == map[]
    {
      nKey := key;
      nIdCount, nTried, nNew := 0, 0, 0;
      mapInfo, mapAddr, vRandom := map[], map[], [];
      vvTried := seq(TRIED_BUCKETS, _ => []);
      vvNew := seq(NEW_BUCKETS, _ => {});
      new;
      assert TriedIds(map[]) == {} && NewIds(map[]) == {};
    }

    method Find(addr: NetAddr) returns (found: bool, nId: int)
      ensures found <==> addr in mapAddr && mapAddr[addr] in mapInfo
      ensures found ==> nId == mapAddr[addr]
    {
      if addr !in mapAddr {
        return false, -1;
      }
      nId := mapAddr[addr];
      found := nId in mapInfo;
    }

    method Create(addr: Address, addrSource: NetAddr) returns (nId: int)
      modifies this
      ensures T() == Created(old(T()), addr, addrSource) && nId == old(nIdCount)
    {
      nId := nIdCount;
      nIdCount := nIdCount + 1;
      mapInfo := mapInfo[nId := NewInfo(addr, addrSource, -1)];
      mapAddr := mapAddr[addr.service.host := nId];
      mapInfo := mapInfo[nId := mapInfo[nId].(randomPos := |vRandom|)];
      vRandom := vRandom + [nId];
    }

    method SwapRandom(nRndPos1: nat, nRndPos2: nat)
      requires nRndPos1 < |vRandom| && nRndPos2 < |vRandom|
      requires vRandom[nRndPos1] in mapInfo && vRandom[nRndPos2] in mapInfo
      modifies `vRandom, `mapInfo
      ensures T() == Swapped(old(T()), nRndPos1, nRndPos2)
    {
      if nRndPos1 == nRndPos2 {
        return;
      }
      var nId1, nId2 := vRandom[nRndPos1], vRandom[nRndPos2];
      mapInfo := mapInfo[nId1 := mapInfo[nId1].(randomPos := nRndPos2)];
      mapInfo := mapInfo[nId2 := mapInfo[nId2].(randomPos := nRndPos1)];
      vRandom := vRandom[nRndPos1 := nId2];
      vRandom := vRandom[nRndPos2 := nId1];
    }

    /** Shuffles the bucket. The position returned is where the oldest of the inspected entries stood before its swap. */
    method SelectTried(nKBucket: nat) returns (nOldestPos: nat)
      requires nKBucket < |vvTried| && vvTried[nKBucket] != []
      requires forall id | id in vvTried[nKBucket] :: id in mapInfo && id != NONE
      modifies `vvTried
      ensures |vvTried| == |old(vvTried)| && vvTried == old(vvTried)[nKBucket := vvTried[nKBucket]]
      ensures IsSelection(mapInfo, old(vvTried)[nKBucket], vvTried[nKBucket], nOldestPos)
    {
      hide IsShuffle, IsOldest, DrawnForward;
      var vTried := vvTried[nKBucket];
      ghost var s, draws: seq<nat>, at: nat := vTried, [], 0;
      NoneDrawn(s);
      var nOldest, pos := -1, -1;
      var i: nat := 0;
      while i < TRIED_ENTRIES_INSPECT_ON_EVICT && i < |vTried|
        invariant vvTried == old(vvTried) && |draws| == i <= Min(TRIED_ENTRIES_INSPECT_ON_EVICT, |s|)
        invariant DrawsOk(s, draws) && vTried == DrawnForward(s, draws)
        invariant i > 0 ==> IsOldest(mapInfo, vTried, i, at)
        invariant if i == 0 then nOldest == -1 else at < i && nOldest == vTried[at] && nOldest in s && pos == draws[at]
      {
        var nPos := GetRandInt(|vTried| - i);
        nPos := nPos + i;
        var nTemp := vTried[nPos];
        DrawnShuffles(s, draws);
        ShuffleFacts(s, vTried);
        assert nTemp in s;
        ghost var r := vTried;
        vTried := vTried[nPos := vTried[i]][i := nTemp];
        DrawnNext(s, draws, nPos);
        OldestNext(mapInfo, r, vTried, i, at);
        draws := draws + [nPos];
        if nOldest == -1 || mapInfo[nTemp].lastSuccess < mapInfo[nOldest].lastSuccess {
          nOldest, pos := nTemp, nPos;
          at := i;
        }
        i := i + 1;
      }
      nOldestPos := pos;
      vvTried := vvTried[nKBucket := vTried];
      assert Selected(mapInfo, s, draws, at, vTried, nOldestPos);
    }

    static lemma NoneDrawn(s: seq<int>)
      ensures DrawnForward(s, []) == s
    {
    }

    /** Removes id, which no bucket holds any more, from the indexes. */
    method Forget(id: int)
      requires CanUnref(T(), id)
      modifies `vRandom, `mapInfo, `mapAddr, `nNew
      ensures T() == Erased(old(T()), id)
    {
      var host := mapInfo[id].service.host;
      SwapRandom(mapInfo[id].randomPos, |vRandom| - 1);
      vRandom := vRandom[..|vRandom| - 1];
      mapAddr := mapAddr - {host};
      mapInfo := mapInfo - {id};
      nNew := nNew - 1;
    }

    /** Takes id out of bucket b. */
    method DropFrom(b: nat, id: int)
      requires b < |vvNew| && CanUnref(T(), id)
      modifies `vRandom, `mapInfo, `mapAddr, `nNew, `vvNew
      ensures T() == Unref(old(T()), b, id)
    {
      mapInfo := mapInfo[id := mapInfo[id].(refCount := mapInfo[id].refCount - 1)];
      if mapInfo[id].refCount == 0 {
        Forget(id);
      }
      vvNew := vvNew[b := vvNew[b] - {id}];
    }

    /** The first terrible entry of the bucket, if any. */
    method FindTerrible(nUBucket: nat, now: int) returns (found: bool, id: int)
      requires nUBucket < |vvNew| && forall x | x in vvNew[nUBucket] :: x in mapInfo
      ensures found ==> id in vvNew[nUBucket] && Terrible(mapInfo[id], now)
      ensures forall x | x in vvNew[nUBucket] && Terrible(mapInfo[x], now) :: found && id <= x
    {
      var rest := vvNew[nUBucket];
      while rest != {}
        invariant rest <= vvNew[nUBucket]
        invariant forall x | x in vvNew[nUBucket] && x !in rest :: !Terrible(mapInfo[x], now)
        decreases |rest|
      {
        var it := Least(rest);
        if Terrible(mapInfo[it], now) {
          return true, it;
        }
        rest := rest - {it};
      }
      return false, -1;
    }

    /** The least recently seen of up to four entries drawn at random by their rank. */
    method FindOldest(nUBucket: nat) returns (nOldest: int, ghost drawn: seq<nat>)
      requires nUBucket < |vvNew| && vvNew[nUBucket] != {}
      requires forall x | x in vvNew[nUBucket] :: x in mapInfo && x != -1
      ensures |drawn| == 4 && forall i | 0 <= i < 4 :: drawn[i] < |vvNew[nUBucket]|
      ensures IsOldestDrawn(mapInfo, vvNew[nUBucket], drawn, nOldest)
    {
      hide IsOldestDrawn;
      var n0 := GetRandInt(|vvNew[nUBucket]|);
      var n1 := GetRandInt(|vvNew[nUBucket]|);
      var n2 := GetRandInt(|vvNew[nUBucket]|);
      var n3 := GetRandInt(|vvNew[nUBucket]|);
      drawn := [n0, n1, n2, n3];
      nOldest := OldestOfRanks(vvNew[nUBucket], [n0, n1, n2, n3]);
    }

    /** Walks the bucket in order and keeps the least recently seen of the entries with the ranks in n. */
    method OldestOfRanks(s: set<int>, n: seq<nat>) returns (nOldest: int)
      requires n != [] && n[0] < |s| && forall x | x in s :: x in mapInfo && x != -1
      ensures IsOldestDrawn(mapInfo, s, n, nOldest)
    {
      var nI, rest := 0, s;
      nOldest := -1;
      ghost var walked := {};
      OldestAtFirst(mapInfo, s, n);
      hide Walking, OldestSoFar, IsOldestDrawn;
      while rest != {}
        invariant nI + |rest| == |s| && rest <= s && Walking(s, walked, rest, nI)
        invariant (nOldest == -1 && nI <= n[0]) || nOldest in s
        invariant OldestSoFar(mapInfo, s, walked, n, nOldest)
        decreases |rest|
      {
        var it := Least(rest);
        OldestStep(mapInfo, s, walked, rest, nI, n, nOldest, it);
        if nI in n {
          if nOldest == -1 || mapInfo[it].time < mapInfo[nOldest].time {
            nOldest := it;
          }
        }
        nI, rest, walked := nI + 1, rest - {it}, walked + {it};
      }
      OldestAtLast(mapInfo, s, walked, nI, n, nOldest);
    }

    /**
     * Removes one entry from a bucket: the first terrible one, or else the least recently seen of a few. This is the
     * only place where entries are forgotten.
     */
    method ShrinkNew(nUBucket: nat, now: int, ghost pending: int)
      returns (r: int, ghost victim: int, ghost drawn: seq<nat>)
      requires OkWith(nKey, T(), pending) && nUBucket < NEW_BUCKETS && vvNew[nUBucket] != {} && pending !in vvNew[nUBucket]
      modifies `vRandom, `mapInfo, `mapAddr, `nNew, `vvNew
      ensures victim in old(vvNew)[nUBucket] && CanUnref(old(T()), victim) && T() == Unref(old(T()), nUBucket, victim)
      ensures OkWith(nKey, T(), pending)
      ensures r == 0 <==> exists x :: x in old(vvNew)[nUBucket] && Terrible(old(mapInfo)[x], now)
      ensures r == 0 ==> Terrible(old(mapInfo)[victim], now)
      ensures r == 0 ==> forall x | x in old(vvNew)[nUBucket] && Terrible(old(mapInfo)[x], now) :: victim <= x
      ensures r != 0 ==>
        && r == 1 && |drawn| == 4 && (forall i | 0 <= i < 4 :: drawn[i] < |old(vvNew)[nUBucket]|)
        && IsOldestDrawn(old(mapInfo), old(vvNew)[nUBucket], drawn, victim)
    {
      BucketsOk(nKey, T(), pending);
      hide OkWith, IsOldestDrawn;
      drawn := [];
      var found, id := FindTerrible(nUBucket, now);
      if found {
        r := 0;
      } else {
        id, drawn := FindOldest(nUBucket);
        r := 1;
      }
      victim := id;
      CanUnrefOk(nKey, T(), nUBucket, id, pending);
      UnrefOk(nKey, T(), nUBucket, id, pending);
      DropFrom(nUBucket, id);
    }

    /** Takes the entry out of every new bucket. */
    method EraseFromNew(nId: int)
      requires nId in mapInfo
      modifies `mapInfo, `vvNew
      ensures vvNew == Without(old(vvNew), nId)
      ensures mapInfo == old(mapInfo)[nId := old(mapInfo)[nId].(refCount := old(mapInfo)[nId].refCount - Refs(old(vvNew), nId))]
    {
      ghost var news, info := vvNew, mapInfo;
      ghost var refs: nat := 0;
      assert news[..0] == [];
      for i := 0 to |vvNew|
        invariant |vvNew| == |news| && forall b | 0 <= b < |news| :: vvNew[b] == if b < i then news[b] - {nId} else news[b]
        invariant refs == Refs(news[..i], nId)
        invariant mapInfo == info[nId := info[nId].(refCount := info[nId].refCount - refs)]
      {
        RefsNext(news, i, nId);
        if nId in vvNew[i] {
          vvNew := vvNew[i := vvNew[i] - {nId}];
          mapInfo := mapInfo[nId := mapInfo[nId].(refCount := mapInfo[nId].refCount - 1)];
          refs := refs + 1;
        }
      }
      assert news[..|news|] == news;
      assert vvNew == Without(news, nId);
    }

    static lemma RefsNext(news: seq<set<int>>, i: nat, id: int)
      requires i < |news|
      ensures Refs(news[..i + 1], id) == Refs(news[..i], id) + (if id in news[i] then 1 else 0)
    {
      assert news[..i + 1] == news[..i] + [news[i]];
      RefsAppend(news[..i], news[i], id);
    }

    /** Selects an entry of the full bucket, sends it back to a new bucket, and puts nId in its place. */
    method Evict(nId: int, nOrigin: nat, nKBucket: nat) returns (ghost shuffled: seq<int>, nPos: nat)
      requires nKBucket < |vvTried| && vvTried[nKBucket] != [] && |vvNew| == NEW_BUCKETS && nOrigin < NEW_BUCKETS
      requires nId in mapInfo && forall id | id in vvTried[nKBucket] :: id in mapInfo && id != NONE
      modifies `mapInfo, `vvNew, `vvTried, `nNew
      ensures IsSelection(old(mapInfo), old(vvTried)[nKBucket], shuffled, nPos)
      ensures nPos < |shuffled| == |old(vvTried)[nKBucket]| && shuffled[nPos] in old(vvTried)[nKBucket]
      ensures var out := shuffled[nPos];
        var home := NewBucket(nKey, old(mapInfo)[out].service, old(mapInfo)[out].source);
        var c := if |old(vvNew)[home]| < NEW_BUCKET_SIZE then home else nOrigin;
        var info := old(mapInfo)[out := old(mapInfo)[out].(inTried := false, refCount := 1)];
        && mapInfo == info[nId := info[nId].(inTried := true)] && nNew == old(nNew) + 1
        && vvNew == old(vvNew)[c := old(vvNew)[c] + {out}]
        && vvTried == old(vvTried)[nKBucket := shuffled[nPos := nId]]
    {
      hide IsSelection, IsShuffle;
      nPos := SelectTried(nKBucket);
      shuffled := vvTried[nKBucket];
      SelectionShuffles(mapInfo, old(vvTried)[nKBucket], shuffled, nPos);
      ShuffleFacts(old(vvTried)[nKBucket], shuffled);
      var out := vvTried[nKBucket][nPos];
      assert out in shuffled;
      var nUBucket := NewBucket(nKey, mapInfo[out].service, mapInfo[out].source);
      mapInfo := mapInfo[out := mapInfo[out].(inTried := false, refCount := 1)];
      var c := if |vvNew[nUBucket]| < NEW_BUCKET_SIZE then nUBucket else nOrigin;
      vvNew := vvNew[c := vvNew[c] + {out}];
      nNew := nNew + 1;
      vvTried := vvTried[nKBucket := vvTried[nKBucket][nPos := nId]];
      mapInfo := mapInfo[nId := mapInfo[nId].(inTried := true)];
    }

    /** Moves an entry from the new table to the tried table, where it may send another one back. */
    method MakeTried(nId: int, nOrigin: nat) returns (ghost shuffled: seq<int>, ghost pos: nat)
      requires Valid() && nId in mapInfo && nOrigin < NEW_BUCKETS && nId in vvNew[nOrigin]
      modifies `mapInfo, `vvNew, `vvTried, `nNew, `nTried
      ensures CanPromote(nKey, old(T()), nId, nOrigin, shuffled, pos)
      ensures T() == Promoted(nKey, old(T()), nId, nOrigin, shuffled, pos)
    {
      ghost var t := T();
      VictimIsNew(nKey, t, nId);
      TriedMembers(nKey, t);
      hide Ok, Promoted, Without, Refs, IsShuffle, IsSelection, CanPromote;
      EraseFromNew(nId);
      ghost var x := mapInfo[nId];
      nNew := nNew - 1;
      var nKBucket := TriedBucket(nKey, mapInfo[nId].service);
      pos, shuffled := 0, vvTried[nKBucket];
      if |vvTried[nKBucket]| < TRIED_BUCKET_SIZE {
        vvTried := vvTried[nKBucket := vvTried[nKBucket] + [nId]];
        nTried := nTried + 1;
        mapInfo := mapInfo[nId := mapInfo[nId].(inTried := true)];
        JoinedIs(nKey, t, T(), nId, nOrigin);
        return;
      }
      shuffled, pos := Evict(nId, nOrigin, nKBucket);
      SelectionSame(t.info[nId := x], t.info, t.tried[nKBucket], shuffled, pos);
      assert shuffled[pos] in t.info;
      ReplacedIs(nKey, t, T(), nId, nOrigin, shuffled, pos);
    }

    static lemma JoinedIs(secret: Secret, t: Table, t': Table, id: int, origin: nat)
      requires id in t.info && |t.tried| == TRIED_BUCKETS && |t.news| == NEW_BUCKETS && origin < NEW_BUCKETS
      requires var b := TriedBucket(secret, t.info[id].service);
        && |t.tried[b]| < TRIED_BUCKET_SIZE
        && t' == t.(info := t.info[id := t.info[id].(refCount := t.info[id].refCount - Refs(t.news, id), inTried := true)],
                    news := Without(t.news, id), nNew := t.nNew - 1, nTried := t.nTried + 1,
                    tried := t.tried[b := t.tried[b] + [id]])
      requires !t.info[id].inTried && id in t.news[origin]
      ensures t' == Promoted(secret, t, id, origin, t.tried[TriedBucket(secret, t.info[id].service)], 0)
      ensures CanPromote(secret, t, id, origin, t.tried[TriedBucket(secret, t.info[id].service)], 0)
    {
    }

    static lemma ReplacedIs(secret: Secret, t: Table, t': Table, id: int, origin: nat, shuffled: seq<int>, pos: nat)
      requires id in t.info && |t.tried| == TRIED_BUCKETS && |t.news| == NEW_BUCKETS && origin < NEW_BUCKETS
      requires TRIED_BUCKET_SIZE <= |shuffled| && pos < |shuffled| && shuffled[pos] in t.info && shuffled[pos] != id
      requires var b, out := TriedBucket(secret, t.info[id].service), shuffled[pos];
        var news, home := Without(t.news, id), NewBucket(secret, t.info[out].service, t.info[out].source);
        var c := if |news[home]| < NEW_BUCKET_SIZE then home else origin;
        var x := t.info[id].(refCount := t.info[id].refCount - Refs(t.news, id));
        t' == t.(info := t.info[id := x][out := t.info[out].(inTried := false, refCount := 1)][id := x.(inTried := true)],
                 news := news[c := news[c] + {out}], tried := t.tried[b := shuffled[pos := id]])
      requires !t.info[id].inTried && id in t.news[origin] && |shuffled| == TRIED_BUCKET_SIZE
      requires IsSelection(t.info, t.tried[TriedBucket(secret, t.info[id].service)], shuffled, pos)
      requires t.info[shuffled[pos]].inTried
      requires |t.tried[TriedBucket(secret, t.info[id].service)]| >= TRIED_BUCKET_SIZE
      ensures t' == Promoted(secret, t, id, origin, shuffled, pos)
      ensures CanPromote(secret, t, id, origin, shuffled, pos)
    {
    }

    /** Bucket b is among the first n from nRnd on, going round. */
    static predicate Visited(b: nat, nRnd: nat, n: nat) {
      (if b >= nRnd then b - nRnd else b + NEW_BUCKETS - nRnd) < n
    }

    /** A bucket that holds nId, looked for from a random one on. */
    method FindBucket(nId: int) returns (nUBucket: int)
      requires |vvNew| == NEW_BUCKETS
      ensures -1 <= nUBucket < NEW_BUCKETS
      ensures if nUBucket == -1 then forall b | 0 <= b < NEW_BUCKETS :: nId !in vvNew[b] else nId in vvNew[nUBucket]
    {
      var nRnd := GetRandInt(|vvNew|);
      for n := 0 to |vvNew|
        invariant forall b | 0 <= b < NEW_BUCKETS && Visited(b, nRnd, n) :: nId !in vvNew[b]
      {
        var nB := (n + nRnd) % |vvNew|;
        if nId in vvNew[nB] {
          return nB;
        }
      }
      assert forall b | 0 <= b < NEW_BUCKETS :: Visited(b, nRnd, NEW_BUCKETS);
      nUBucket := -1;
    }

    /** Marks an address as good, which moves it to the tried table. */
    method Good_(addr: Service, nTime: int) returns (ghost origin: nat, ghost shuffled: seq<int>, ghost pos: nat)
      requires Valid()
      modifies this
      ensures IsMadeGood(nKey, old(T()), T(), addr, nTime, origin, shuffled, pos)
      ensures Valid() && mapAddr == old(mapAddr)
      ensures Knows(old(T()), addr) ==> mapInfo[mapAddr[addr.host]].inTried
      ensures TimesOk(old(mapInfo)) && nTime > 0 ==> TimesOk(mapInfo)
    {
      hide Ok, TimesOk;
      ghost var t := T();
      origin, shuffled, pos := 0, [], 0;
      var found, nId := Find(addr.host);
      if !found || mapInfo[nId].service != addr {
        return;
      }
      mapInfo := mapInfo[nId := GoodInfo(mapInfo[nId], nTime)];
      ghost var t1 := T();
      RefreshedOk(nKey, t, nId, mapInfo[nId]);
      if !mapInfo[nId].inTried {
        TriedMembers(nKey, t1);
        var nUBucket := FindBucket(nId);
        NewHasBucket(nKey, t1, nId);
        if nUBucket == -1 {
          return;
        }
        origin := nUBucket;
        shuffled, pos := MakeTried(nId, nUBucket);
      }
      MadeGoodOk(nKey, t, T(), addr, nTime, origin, shuffled, pos);
    }

    static lemma NewHasBucket(secret: Secret, t: Table, id: int)
      requires Ok(secret, t) && id in t.info && !t.info[id].inTried
      ensures exists b :: 0 <= b < NEW_BUCKETS && id in t.news[b]
    {
      var b := RefsSome(t.news, id);
    }

    /** Finds or creates the entry for an address. */
    method Note(addr: Address, source: NetAddr, nTimePenalty: int, now: int) returns (fNew: bool, nId: int)
      requires Valid()
      modifies this
      ensures T() == Noted(old(T()), addr, source, nTimePenalty, now) && nId == NotedId(old(T()), addr)
      ensures fNew <==> addr.service.host !in old(mapAddr)
    {
      HostOnRecord(nKey, T(), addr.service.host);
      hide Ok;
      var found;
      found, nId := Find(addr.service.host);
      fNew := !found;
      if found {
        var x := mapInfo[nId];
        var fCurrentlyOnline := now - addr.time < DAY;
        var nUpdateInterval := if fCurrentlyOnline then HOUR else DAY;
        if addr.time != 0 && (x.time == 0 || x.time < addr.time - nUpdateInterval - nTimePenalty) {
          mapInfo := mapInfo[nId := mapInfo[nId].(time := Max(0, addr.time - nTimePenalty))];
        }
        mapInfo := mapInfo[nId := mapInfo[nId].(services := mapInfo[nId].services + addr.services)];
        assert mapInfo == old(mapInfo)[nId := Refreshed(x, addr, nTimePenalty, now)];
      } else {
        nId := Create(addr, source);
        mapInfo := mapInfo[nId := mapInfo[nId].(time := Max(0, mapInfo[nId].time - nTimePenalty))];
        nNew := nNew + 1;
        assert mapInfo ==
               old(mapInfo)[nId := NewInfo(addr.(time := Max(0, addr.time - nTimePenalty)), source, |old(vRandom)|)];
      }
    }

    static lemma OnRecord(secret: Secret, t: Table, id: int)
      requires Ok(secret, t) && id in t.info
      ensures t.info[id].service.host in t.byAddr
    {
    }

    static lemma HostOnRecord(secret: Secret, t: Table, host: NetAddr)
      requires Ok(secret, t)
      ensures host in t.byAddr ==> t.byAddr[host] in t.info
    {
    }

    /** Whether a known entry should be in one more bucket: each one it is in halves the odds. */
    method Draw(addr: Address, nId: int) returns (goOn: bool, ghost lucky: bool, ghost drawn: nat)
      requires nId in mapInfo
      ensures Promising(mapInfo[nId], addr, true) && mapInfo[nId].refCount > 0 ==>
        drawn < Power2(mapInfo[nId].refCount) && (lucky <==> drawn == 0)
      ensures goOn == Promising(mapInfo[nId], addr, lucky)
      ensures goOn ==> Promising(mapInfo[nId], addr, true)
      ensures !goOn ==> !Promising(mapInfo[nId], addr, false)
    {
      var x := mapInfo[nId];
      lucky, drawn := false, 0;
      if addr.time == 0 || (x.time != 0 && addr.time <= x.time) {
        return false, lucky, drawn;
      }
      if x.inTried {
        return false, lucky, drawn;
      }
      if x.refCount == NEW_BUCKETS_PER_ADDRESS {
        return false, lucky, drawn;
      }
      var nFactor: nat, n := 1, 0;
      while n < x.refCount
        invariant nFactor == Power2(n) && (n > 0 ==> nFactor > 1) && (n == 0 || n <= x.refCount)
      {
        nFactor := nFactor * 2;
        n := n + 1;
      }
      if nFactor > 1 {
        var nRnd := GetRandInt(nFactor);
        lucky, drawn := nRnd == 0, nRnd;
        if nRnd != 0 {
          return false, lucky, drawn;
        }
      }
      goOn := true;
    }

    /** Puts the entry into bucket nUBucket. */
    method PutInBucket(nUBucket: nat, nId: int, now: int) returns (ghost victim: int)
      requires |vvNew| == NEW_BUCKETS && nUBucket < NEW_BUCKETS && nId in mapInfo
      requires nId !in vvNew[nUBucket] ==> OkWith(nKey, Ref(T(), nId), nId)
      modifies this
      ensures nId !in old(vvNew)[nUBucket] && |old(vvNew)[nUBucket]| == NEW_BUCKET_SIZE ==>
        victim in old(vvNew)[nUBucket] && CanUnref(Ref(old(T()), nId), victim)
      ensures T() == Bucketed(old(T()), nUBucket, nId, victim)
    {
      hide OkWith;
      victim := -1;
      if nId !in vvNew[nUBucket] {
        mapInfo := mapInfo[nId := mapInfo[nId].(refCount := mapInfo[nId].refCount + 1)];
        if |vvNew[nUBucket]| == NEW_BUCKET_SIZE {
          var r;
          ghost var drawn;
          r, victim, drawn := ShrinkNew(nUBucket, now, nId);
        }
        vvNew := vvNew[nUBucket := vvNew[nUBucket] + {nId}];
      }
    }

    /** Hears of an address. Unroutable addresses are ignored. */
    method Add_(addr: Address, routable: bool, source: NetAddr, nTimePenalty: int, now: int)
      returns (fNew: bool, ghost lucky: bool, ghost victim: int)
      requires Valid()
      modifies this
      ensures Valid() && (TimesOk(old(mapInfo)) ==> TimesOk(mapInfo))
      ensures !routable ==> T() == old(T())
      ensures addr.service.host in old(mapAddr) ==> old(mapAddr)[addr.service.host] in old(mapInfo)
      ensures routable ==> VictimOk(nKey, old(T()), addr, source, nTimePenalty, now, lucky, victim)
      ensures routable ==> T() == Added(nKey, old(T()), addr, source, nTimePenalty, now, lucky, victim)
      ensures LosesAtMost(old(T()), T(), victim) && (routable ==> addr.service.host in mapAddr)
      ensures fNew <==> routable && addr.service.host !in old(mapAddr)
    {
      ghost var t := T();
      HostOnRecord(nKey, t, addr.service.host);
      BucketsOk(nKey, t, NONE);
      victim, lucky := -1, true;
      if !routable {
        return false, lucky, victim;
      }
      hide TimesOk, OkWith, LosesAtMost, Added, VictimOk;
      var nId;
      fNew, nId := Note(addr, source, nTimePenalty, now);
      ghost var n := T();
      var goOn := true;
      if !fNew {
        ghost var drawn;
        goOn, lucky, drawn := Draw(addr, nId);
      }
      if goOn {
        var nUBucket := NewBucket(nKey, mapInfo[nId].service, source);
        ReadyForBucket(nKey, t, addr, source, nTimePenalty, now, lucky);
        victim := PutInBucket(nUBucket, nId, now);
      }
      AddedOk(nKey, t, addr, source, nTimePenalty, now, lucky, victim);
      AddedLoses(nKey, t, addr, source, nTimePenalty, now, lucky, victim);
      OnRecord(nKey, T(), nId);
      if TimesOk(t.info) {
        AddedTimes(nKey, t, addr, source, nTimePenalty, now, lucky, victim);
      }
    }

    /** Notes an attempt to connect. */
    method Attempt_(addr: Service, nTime: int)
      requires Valid()
      modifies `mapInfo
      ensures Valid() && (TimesOk(old(mapInfo)) && nTime >= 0 ==> TimesOk(mapInfo))
      ensures !Knows(old(T()), addr) ==> mapInfo == old(mapInfo)
      ensures Knows(old(T()), addr) ==>
        mapInfo == old(mapInfo)[mapAddr[addr.host] := AttemptedInfo(old(mapInfo)[mapAddr[addr.host]], nTime)]
    {
      ghost var t := T();
      hide Ok, TimesOk;
      var found, nId := Find(addr.host);
      if !found || mapInfo[nId].service != addr {
        return;
      }
      mapInfo := mapInfo[nId := mapInfo[nId].(lastTry := nTime)];
      mapInfo := mapInfo[nId := mapInfo[nId].(attempts := mapInfo[nId].attempts + 1)];
      StatsOk(nKey, t, nId, mapInfo[nId], nTime);
      assert mapInfo == t.info[nId := AttemptedInfo(t.info[nId], nTime)];
    }

    /** Notes that we are connected to an address. */
    method Connected_(addr: Service, nTime: int)
      requires Valid()
      modifies `mapInfo
      ensures Valid() && (TimesOk(old(mapInfo)) && nTime >= 0 ==> TimesOk(mapInfo))
      ensures !Knows(old(T()), addr) ==> mapInfo == old(mapInfo)
      ensures Knows(old(T()), addr) ==>
        mapInfo == old(mapInfo)[mapAddr[addr.host] := ConnectedInfo(old(mapInfo)[mapAddr[addr.host]], nTime)]
    {
      ghost var t := T();
      hide Ok, TimesOk;
      var found, nId := Find(addr.host);
      if !found || mapInfo[nId].service != addr {
        return;
      }
      var nUpdateInterval := 20 * 60;
      if nTime - mapInfo[nId].time > nUpdateInterval {
        mapInfo := mapInfo[nId := mapInfo[nId].(time := nTime)];
      }
      assert mapInfo == t.info[nId := ConnectedInfo(t.info[nId], nTime)];
      StatsOk(nKey, t, nId, mapInfo[nId], nTime);
    }

    /** A random choice of addresses, no host twice. Only the random order changes. */
    method GetAddr_() returns (vAddr: seq<Address>)
      requires Valid()
      modifies `vRandom, `mapInfo
      ensures Valid() && SameButOrder(old(mapInfo), mapInfo)
      ensures |vAddr| == if 23 * |vRandom| / 100 > 2500 then 2500 else 23 * |vRandom| / 100
      ensures Drawn(T(), vAddr)
      ensures forall j, k | 0 <= j < k < |vAddr| :: vAddr[j].service.host != vAddr[k].service.host
    {
      vAddr := [];
      ghost var t := T();
      var nNodes := 23 * |vRandom| / 100;
      if nNodes > 2500 {
        nNodes := 2500;
      }
      hide Ok, Swapped, AddressOf, Drawn, SameButOrder;
      NothingDrawn(t);
      for n := 0 to nNodes
        invariant Valid() && SameButOrder(t.info, mapInfo) && |vRandom| == |t.random|
        invariant Drawn(T(), vAddr) && |vAddr| == n
      {
        ghost var before := T();
        RandomMembers(nKey, before);
        var nRndPos := GetRandInt(|vRandom| - n);
        nRndPos := nRndPos + n;
        SwappedOk(nKey, before, n, nRndPos, NONE);
        SwapRandom(n, nRndPos);
        SameOrderTrans(t.info, before.info, mapInfo);
        DrawNext(nKey, before, vAddr, nRndPos);
        vAddr := vAddr + [AddressOf(mapInfo[vRandom[n]])];
      }
      DrawnDistinct(nKey, T(), vAddr);
    }

    static lemma NothingDrawn(t: Table)
      ensures Drawn(t, []) && SameButOrder(t.info, t.info)
    {
    }

    static lemma SameOrderTrans(a: map<int, AddrInfo>, b: map<int, AddrInfo>, c: map<int, AddrInfo>)
      requires SameButOrder(a, b) && SameButOrder(b, c)
      ensures SameButOrder(a, c)
    {
    }

    static lemma DrawnDistinct(secret: Secret, t: Table, vAddr: seq<Address>)
      requires Ok(secret, t) && Drawn(t, vAddr)
      ensures forall j, k | 0 <= j < k < |vAddr| :: vAddr[j].service.host != vAddr[k].service.host
    {
      DistinctHosts(secret, t);
    }

    /** The addresses drawn so far are those in front of the random order. */
    static ghost predicate Drawn(t: Table, vAddr: seq<Address>) {
      && |vAddr| <= |t.random|
      && forall k | 0 <= k < |vAddr| ::
           && t.random[k] in t.info
           && var x := t.info[t.random[k]]; vAddr[k] == Address(x.service, x.services, x.time)
    }

    static lemma DrawNext(secret: Secret, t: Table, vAddr: seq<Address>, p: nat)
      requires Ok(secret, t) && Drawn(t, vAddr) && |vAddr| <= p < |t.random|
      ensures var s := Swapped(t, |vAddr|, p);
        && s.random[|vAddr|] in s.info && Drawn(s, vAddr + [AddressOf(s.info[s.random[|vAddr|]])])
        && |s.random| == |t.random|
    {
      RandomMembers(secret, t);
    }

    static lemma RandomMembers(secret: Secret, t: Table)
      requires Ok(secret, t)
      ensures forall k | 0 <= k < |t.random| :: t.random[k] in t.info
    {
    }

    static lemma DistinctHosts(secret: Secret, t: Table)
      requires Ok(secret, t)
      ensures forall j, k | 0 <= j < k < |t.random| ::
        t.random[j] in t.info && t.random[k] in t.info && t.info[t.random[j]].service.host != t.info[t.random[k]].service.host
    {
      forall j, k | 0 <= j < k < |t.random|
        ensures t.random[j] in t.info && t.random[k] in t.info
        ensures t.info[t.random[j]].service.host != t.info[t.random[k]].service.host
      {
        var a, b := t.random[j], t.random[k];
        assert t.info[a].randomPos == j && t.info[b].randomPos == k;
        assert t.byAddr[t.info[a].service.host] == a && t.byAddr[t.info[b].service.host] == b;
      }
    }

    // The stored form

    /** ids are the (new or tried) entries that stand in front of rest, ascending, and records what is stored of them. */
    static ghost predicate Collected(info: map<int, AddrInfo>, rest: set<int>, ids: seq<int>, tried: bool, records: seq<Record>) {
      && rest <= info.Keys && Ascending(ids) && StoredAs(info, ids, records)
      && (forall id | id in ids :: id in info && info[id].inTried == tried && forall x | x in rest :: id < x)
      && (forall id | id in info && info[id].inTried == tried :: id in ids || id in rest)
    }

    static ghost predicate StoredAs(info: map<int, AddrInfo>, ids: seq<int>, records: seq<Record>) {
      |records| == |ids| && forall k | 0 <= k < |ids| :: ids[k] in info && records[k] == Stored(info[ids[k]])
    }

    static lemma NoneCollected(info: map<int, AddrInfo>, tried: bool)
      ensures Collected(info, info.Keys, [], tried, [])
    {
    }

    static lemma CollectNext(info: map<int, AddrInfo>, rest: set<int>, ids: seq<int>, tried: bool, records: seq<Record>, it: int)
      requires Collected(info, rest, ids, tried, records) && IsLeast(rest, it)
      ensures it in info
      ensures if info[it].inTried == tried
        then Collected(info, rest - {it}, ids + [it], tried, records + [Stored(info[it])])
        else Collected(info, rest - {it}, ids, tried, records)
    {
    }

    static lemma AllCollected(info: map<int, AddrInfo>, rest: set<int>, ids: seq<int>, tried: bool, records: seq<Record>)
      requires Collected(info, rest, ids, tried, records)
      requires rest == {} || |ids| == |if tried then TriedIds(info) else NewIds(info)|
      ensures Lists(ids, if tried then TriedIds(info) else NewIds(info)) && Ascending(ids) && StoredAs(info, ids, records)
    {
      AllListed(ids, if tried then TriedIds(info) else NewIds(info));
    }

    /** The entries that some new bucket holds, in ascending order, and their places in that order. */
    method CollectNew() returns (news: seq<Record>, mapUnkIds: map<int, int>, ghost newIds: seq<int>)
      requires Valid()
      ensures Lists(newIds, NewIds(mapInfo)) && Ascending(newIds) && StoredAs(mapInfo, newIds, news)
      ensures forall k | 0 <= k < |newIds| :: newIds[k] in mapUnkIds && mapUnkIds[newIds[k]] == k
    {
      RefsTell(nKey, T());
      hide Ok, Collected, StoredAs, Lists, Ascending;
      news, mapUnkIds, newIds := [], map[], [];
      var nIds, rest := 0, mapInfo.Keys;
      NoneCollected(mapInfo, false);
      while rest != {}
        invariant nIds == |newIds| && Collected(mapInfo, rest, newIds, false, news)
        invariant forall k | 0 <= k < |newIds| :: newIds[k] !in rest && newIds[k] in mapUnkIds && mapUnkIds[newIds[k]] == k
        decreases |rest|
      {
        if nIds == nNew {
          break;
        }
        var it := Least(rest);
        CollectNext(mapInfo, rest, newIds, false, news, it);
        mapUnkIds := mapUnkIds[it := nIds];
        if mapInfo[it].refCount != 0 {
          news := news + [Stored(mapInfo[it])];
          newIds := newIds + [it];
          nIds := nIds + 1;
        }
        rest := rest - {it};
      }
      AllCollected(mapInfo, rest, newIds, false, news);
    }

    method CollectTried() returns (tried: seq<Record>, ghost triedIds: seq<int>)
      requires Valid()
      ensures Lists(triedIds, TriedIds(mapInfo)) && Ascending(triedIds) && StoredAs(mapInfo, triedIds, tried)
    {
      RefsTell(nKey, T());
      hide Ok, Collected, StoredAs, Lists, Ascending;
      tried, triedIds := [], [];
      var nIds, rest := 0, mapInfo.Keys;
      NoneCollected(mapInfo, true);
      while rest != {}
        invariant nIds == |triedIds| && Collected(mapInfo, rest, triedIds, true, tried)
        decreases |rest|
      {
        if nIds == nTried {
          break;
        }
        var it := Least(rest);
        CollectNext(mapInfo, rest, triedIds, true, tried, it);
        if mapInfo[it].inTried {
          tried := tried + [Stored(mapInfo[it])];
          triedIds := triedIds + [it];
          nIds := nIds + 1;
        }
        rest := rest - {it};
      }
      AllCollected(mapInfo, rest, triedIds, true, tried);
    }

    static lemma RefsTell(secret: Secret, t: Table)
      requires Ok(secret, t)
      ensures forall id | id in t.info :: t.info[id].refCount != 0 <==> !t.info[id].inTried
      ensures CountOk(t)
    {
    }

    /** An ascending list of members is complete if it is as long as the set or has all of its members. */
    static lemma AllListed(ids: seq<int>, s: set<int>)
      requires Ascending(ids) && (forall id | id in ids :: id in s) && (|ids| == |s| || forall id | id in s :: id in ids)
      ensures Lists(ids, s)
    {
      DistinctSize(ids);
      assert Members(ids) <= s;
      if |ids| == |s| {
        FullSubset(Members(ids), s);
      } else {
        forall x ensures x in Members(ids) <==> x in s {
        }
      }
    }

    static lemma FullSubset(a: set<int>, b: set<int>)
      requires a <= b && |a| == |b|
      ensures a == b
    {
      assert b == a + (b - a);
      assert |b - a| == 0;
    }

    /** The places of the entries of one bucket. */
    method CollectBucket(bucket: set<int>, mapUnkIds: map<int, int>, ghost newIds: seq<int>) returns (places: seq<int>)
      requires forall k | 0 <= k < |newIds| :: newIds[k] in mapUnkIds && mapUnkIds[newIds[k]] == k
      requires forall id | id in bucket :: id in newIds
      ensures IsSavedBucket(bucket, places, newIds)
    {
      places := [];
      var rest := bucket;
      while rest != {}
        invariant rest <= bucket && |places| + |rest| == |bucket| && NoRepeats(places)
        invariant forall k | k in places :: 0 <= k < |newIds| && newIds[k] in bucket && newIds[k] !in rest
        invariant forall k | 0 <= k < |newIds| && newIds[k] in bucket && newIds[k] !in rest :: k in places
        decreases |rest|
      {
        var it := Least(rest);
        ghost var k :| 0 <= k < |newIds| && newIds[k] == it;
        places := places + [mapUnkIds[it]];
        rest := rest - {it};
      }
    }

    method Write() returns (d: Disk)
      requires Valid()
      ensures SavedForm(T(), d)
    {
      var news, mapUnkIds;
      ghost var newIds, triedIds;
      news, mapUnkIds, newIds := CollectNew();
      var tried;
      tried, triedIds := CollectTried();
      VictimsAreNew(nKey, T());
      hide Ok;
      var buckets := [];
      for b := 0 to |vvNew|
        invariant |buckets| == b && forall c | 0 <= c < b :: IsSavedBucket(vvNew[c], buckets[c], newIds)
      {
        forall id | id in vvNew[b] ensures id in newIds {
          assert id in NewIds(mapInfo) && id in Members(newIds);
        }
        var places := CollectBucket(vvNew[b], mapUnkIds, newIds);
        buckets := buckets + [places];
      }
      d := Disk(news, tried, buckets);
      assert IsSaved(T(), d, newIds, triedIds);
    }

    /** Rebuilds the tables and every index from disk. */
    constructor Read(key: Secret, d: Disk)
      requires Readable(d)
      ensures nKey == key && T() == Load(key, d)
    {
      nKey := key;
      nIdCount, nTried, nNew := 0, |d.tried|, |d.news|;
      mapInfo, mapAddr, vRandom := map[], map[], [];
      vvTried := seq(TRIED_BUCKETS, _ => []);
      vvNew := seq(NEW_BUCKETS, _ => {});
      new;
      ReadEntries(d);
      for b := 0 to |d.buckets|
        invariant T() == ReadBuckets(nKey, d, b) && nKey == key
      {
        ReadOneBucket(b, d.buckets[b], Rehash(d));
      }
    }

    method ReadOneNew(n: nat, r: Record, rehash: bool)
      requires |vvNew| == NEW_BUCKETS
      modifies `mapInfo, `mapAddr, `vRandom, `vvNew
      ensures T() == ReadNewOne(nKey, old(T()), n, r, rehash)
    {
      mapInfo := mapInfo[n := Restored(r, 0, false, -1)];
      mapAddr := mapAddr[r.service.host := n];
      mapInfo := mapInfo[n := mapInfo[n].(randomPos := |vRandom|)];
      vRandom := vRandom + [n];
      if rehash {
        var b := NewBucket(nKey, r.service, r.source);
        vvNew := vvNew[b := vvNew[b] + {n}];
        mapInfo := mapInfo[n := mapInfo[n].(refCount := mapInfo[n].refCount + 1)];
      }
    }

    /** The source counts the lost entries and takes them off nTried at the end. */
    method ReadOneTried(r: Record)
      requires |vvTried| == TRIED_BUCKETS
      modifies this
      ensures T() == ReadTriedOne(nKey, old(T()), r)
    {
      var b := TriedBucket(nKey, r.service);
      if |vvTried[b]| < TRIED_BUCKET_SIZE {
        vRandom := vRandom + [nIdCount];
        mapInfo := mapInfo[nIdCount := Restored(r, 0, true, |vRandom| - 1)];
        mapAddr := mapAddr[r.service.host := nIdCount];
        vvTried := vvTried[b := vvTried[b] + [nIdCount]];
        nIdCount := nIdCount + 1;
      } else {
        nTried := nTried - 1;
      }
    }

    method ReadEntries(d: Disk)
      requires T() == ReadNews(nKey, d, 0)
      modifies this
      ensures T() == ReadTrieds(nKey, d, |d.tried|)
    {
      hide ReadNewOne, ReadTriedOne;
      for n := 0 to |d.news|
        invariant T() == ReadNews(nKey, d, n)
      {
        ReadOneNew(n, d.news[n], Rehash(d));
      }
      nIdCount := |d.news|;
      for n := 0 to |d.tried|
        invariant T() == ReadTrieds(nKey, d, n)
      {
        ReadOneTried(d.tried[n]);
      }
    }

    method ReadOneBucket(b: nat, places: seq<int>, rehash: bool)
      requires b < |vvNew|
      modifies `mapInfo, `vvNew
      ensures T() == ReadBucket(old(T()), b, places, rehash)
    {
      assert places[..0] == [];
      for j := 0 to |places|
        invariant b < |vvNew| && T() == ReadBucket(old(T()), b, places[..j], rehash)
      {
        assert places[..j + 1][..j] == places[..j] && places[j] in places;
        ReadOneIndex(b, places[j], rehash);
      }
      assert places[..|places|] == places;
    }

    method ReadOneIndex(b: nat, nIndex: int, rehash: bool)
      requires b < |vvNew|
      modifies `mapInfo, `vvNew
      ensures T() == ReadIndex(old(T()), b, nIndex, rehash)
    {
      if nIndex !in mapInfo {
        mapInfo := mapInfo[nIndex := DefaultInfo()];
      }
      if !rehash && mapInfo[nIndex].refCount < NEW_BUCKETS_PER_ADDRESS {
        mapInfo := mapInfo[nIndex := mapInfo[nIndex].(refCount := mapInfo[nIndex].refCount + 1)];
        vvNew := vvNew[b := vvNew[b] + {nIndex}];
      }
    }
  }
}
