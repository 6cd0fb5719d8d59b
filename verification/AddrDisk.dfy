/** The stored form of the address manager, from which the indexes are rebuilt (src/addrman.h, IMPLEMENT_SERIALIZE). */
module AddrDisk {
  import opened Sequences
  import opened AddrTable

  /** What is stored of an entry. The time of the last try is not. */
  datatype Record = Record(service: Service, services: set<nat>, time: int, source: NetAddr, lastSuccess: int, attempts: int)

  /** The fields in the order they are written; nNew and nTried are the lengths of the two lists. */
  datatype Disk = Disk(news: seq<Record>, tried: seq<Record>, buckets: seq<seq<int>>)

  function Stored(x: AddrInfo): Record {
    Record(x.service, x.services, x.time, x.source, x.lastSuccess, x.attempts)
  }

  function Restored(r: Record, refCount: int, inTried: bool, randomPos: int): AddrInfo {
    AddrInfo(r.service, r.services, r.time, r.source, r.lastSuccess, 0, r.attempts, refCount, inTried, randomPos)
  }

  // Reading

  /** There is a place for every stored bucket. */
  predicate Readable(d: Disk) {
    |d.buckets| <= NEW_BUCKETS
  }

  /** With another number of buckets on disk the entries are hashed anew. */
  predicate Rehash(d: Disk) {
    |d.buckets| != NEW_BUCKETS
  }

  function Blank(): Table {
    Table(0, map[], map[], [], 0, seq(TRIED_BUCKETS, _ => []), 0, seq(NEW_BUCKETS, _ => {}))
  }

  function ReadNewOne(secret: Secret, t: Table, n: nat, r: Record, rehash: bool): Table
    requires |t.news| == NEW_BUCKETS
  {
    var b := NewBucket(secret, r.service, r.source);
    t.(info := t.info[n := Restored(r, if rehash then 1 else 0, false, |t.random|)],
       byAddr := t.byAddr[r.service.host := n], random := t.random + [n],
       news := if rehash then t.news[b := t.news[b] + {n}] else t.news)
  }

  function ReadNews(secret: Secret, d: Disk, n: nat): (t: Table)
    requires n <= |d.news|
    ensures |t.news| == NEW_BUCKETS && |t.tried| == TRIED_BUCKETS && (forall k | 0 <= k < n :: k in t.info)
  {
    if n == 0 then Blank().(nNew := |d.news|, nTried := |d.tried|)
    else ReadNewOne(secret, ReadNews(secret, d, n - 1), n - 1, d.news[n - 1], Rehash(d))
  }

  function ReadTriedOne(secret: Secret, t: Table, r: Record): Table
    requires |t.tried| == TRIED_BUCKETS
  {
    var b := TriedBucket(secret, r.service);
    if |t.tried[b]| < TRIED_BUCKET_SIZE then
      t.(info := t.info[t.idCount := Restored(r, 0, true, |t.random|)],
         byAddr := t.byAddr[r.service.host := t.idCount], random := t.random + [t.idCount],
         tried := t.tried[b := t.tried[b] + [t.idCount]], idCount := t.idCount + 1)
    else t.(nTried := t.nTried - 1)
  }

  function ReadTrieds(secret: Secret, d: Disk, n: nat): (t: Table)
    requires n <= |d.tried|
    ensures |t.news| == NEW_BUCKETS && |t.tried| == TRIED_BUCKETS && t.idCount >= |d.news|
    ensures forall k | 0 <= k < |d.news| :: k in t.info
  {
    if n == 0 then ReadNews(secret, d, |d.news|).(idCount := |d.news|)
    else ReadTriedOne(secret, ReadTrieds(secret, d, n - 1), d.tried[n - 1])
  }

  /** A CAddrInfo that nothing is known of. */
  function DefaultInfo(): AddrInfo {
    AddrInfo(Service(NetAddr(seq(16, _ => 0)), 0), {0}, 100_000_000, NetAddr(seq(16, _ => 0)), 0, 0, 0, 0, false, -1)
  }

  /** Looking up an id that no entry has makes an entry. */
  function LookedUp(t: Table, id: int): (r: Table)
    ensures id in r.info && r == t.(info := r.info)
  {
    if id in t.info then t else t.(info := t.info[id := DefaultInfo()])
  }

  /** A reference to an entry, honoured unless it has enough already. */
  function ReadIndex(t: Table, b: nat, id: int, rehash: bool): Table
    requires b < |t.news|
  {
    var l := LookedUp(t, id);
    if !rehash && l.info[id].refCount < NEW_BUCKETS_PER_ADDRESS then
      l.(info := l.info[id := l.info[id].(refCount := l.info[id].refCount + 1)], news := l.news[b := l.news[b] + {id}])
    else l
  }

  function ReadBucket(t: Table, b: nat, ids: seq<int>, rehash: bool): (r: Table)
    requires b < |t.news|
    ensures |r.news| == |t.news| && forall id :: id in r.info <==> id in t.info || id in ids
  {
    if ids == [] then t
    else ReadIndex(ReadBucket(t, b, ids[..|ids| - 1], rehash), b, ids[|ids| - 1], rehash)
  }

  function ReadBuckets(secret: Secret, d: Disk, n: nat): (t: Table)
    requires Readable(d) && n <= |d.buckets|
    ensures |t.news| == NEW_BUCKETS && forall k | 0 <= k < |d.news| :: k in t.info
  {
    if n == 0 then ReadTrieds(secret, d, |d.tried|)
    else ReadBucket(ReadBuckets(secret, d, n - 1), n - 1, d.buckets[n - 1], Rehash(d))
  }

  /** The table rebuilt from disk. */
  function Load(secret: Secret, d: Disk): Table
    requires Readable(d)
  {
    ReadBuckets(secret, d, |d.buckets|)
  }

  // Writing

  /** ids is a listing of s without repetition. */
  ghost predicate Lists(ids: seq<int>, s: set<int>) {
    NoRepeats(ids) && Members(ids) == s
  }

  ghost predicate Ascending(ids: seq<int>) {
    forall i, j | 0 <= i < j < |ids| :: ids[i] < ids[j]
  }

  /** d holds the entries in the order of newIds and triedIds, and for each bucket the places of its entries. */
  ghost predicate IsSaved(t: Table, d: Disk, newIds: seq<int>, triedIds: seq<int>) {
    && Lists(newIds, NewIds(t.info)) && Lists(triedIds, TriedIds(t.info))
    && |d.news| == |newIds| && (forall k | 0 <= k < |newIds| :: newIds[k] in t.info && d.news[k] == Stored(t.info[newIds[k]]))
    && |d.tried| == |triedIds|
    && (forall k | 0 <= k < |triedIds| :: triedIds[k] in t.info && d.tried[k] == Stored(t.info[triedIds[k]]))
    && |d.buckets| == |t.news| && forall b | 0 <= b < |t.news| :: IsSavedBucket(t.news[b], d.buckets[b], newIds)
  }

  /** d is a stored form of t: both lists in ascending order of the ids. */
  ghost predicate SavedForm(t: Table, d: Disk) {
    exists newIds, triedIds :: IsSaved(t, d, newIds, triedIds) && Ascending(newIds) && Ascending(triedIds)
  }

  ghost predicate IsSavedBucket(bucket: set<int>, places: seq<int>, newIds: seq<int>) {
    && NoRepeats(places) && |places| == |bucket|
    && (forall k | k in places :: 0 <= k < |newIds| && newIds[k] in bucket)
    && (forall k | 0 <= k < |newIds| && newIds[k] in bucket :: k in places)
  }

  // Reading back what was written

  /** L holds the entries of t under new ids: the k-th in the listing has id k. */
  ghost predicate Renumbered(t: Table, l: Table, ids: seq<int>) {
    && Lists(ids, t.info.Keys)
    && (forall k :: k in l.info <==> 0 <= k < |ids|)
    && (forall k | 0 <= k < |ids| :: ids[k] in t.info && l.info[k] == Again(t.info[ids[k]], k))
    && l.nTried == t.nTried && l.nNew == t.nNew && l.idCount == |ids|
    && |l.news| == |t.news| && |l.tried| == |t.tried|
    && (forall b, k | 0 <= b < |t.news| :: k in l.news[b] <==> OldIn(t, ids, b, k))
    && (forall b, k | 0 <= b < |t.tried| :: k in l.tried[b] <==> OldTried(t, ids, b, k))
  }

  /** The entry that has id k now was in new bucket b. */
  predicate OldIn(t: Table, ids: seq<int>, b: nat, k: int) {
    b < |t.news| && 0 <= k < |ids| && ids[k] in t.news[b]
  }

  /** The entry that has id k now was in tried bucket b. */
  predicate OldTried(t: Table, ids: seq<int>, b: nat, k: int) {
    b < |t.tried| && 0 <= k < |ids| && ids[k] in t.tried[b]
  }

  /** The same entry, but for the time of the last try and the place in the random order. */
  function Again(x: AddrInfo, randomPos: int): AddrInfo {
    x.(lastTry := 0, randomPos := randomPos)
  }

  // After c entries; bucket references are still to come.

  ghost predicate InfoRead(t: Table, info: map<int, AddrInfo>, ids: seq<int>, n: nat, c: nat) {
    && c <= |ids| && (forall k :: k in info <==> 0 <= k < c)
    && (forall k | 0 <= k < c :: ids[k] in t.info && info[k] == Again(t.info[ids[k]], k).(refCount := 0, inTried := k >= n))
  }

  ghost predicate RandomRead(random: seq<int>, c: nat) {
    |random| == c && forall k | 0 <= k < c :: random[k] == k
  }

  ghost predicate TriedRead(secret: Secret, t: Table, tried: seq<seq<int>>, ids: seq<int>, n: nat, c: nat) {
    && |tried| == TRIED_BUCKETS && (forall b | 0 <= b < TRIED_BUCKETS :: NoRepeats(tried[b]))
    && (forall b, k | 0 <= b < TRIED_BUCKETS :: k in tried[b] <==> GoesTo(secret, t, ids, n, c, b, k))
  }

  ghost predicate GoesTo(secret: Secret, t: Table, ids: seq<int>, n: nat, c: nat, b: nat, k: int) {
    n <= k < c <= |ids| && ids[k] in t.info && TriedBucket(secret, t.info[ids[k]].service) == b
  }

  ghost predicate EntriesRead(secret: Secret, t: Table, l: Table, ids: seq<int>, n: nat, c: nat) {
    && InfoRead(t, l.info, ids, n, c) && RandomRead(l.random, c) && AddrOk(l.info, l.byAddr)
    && TriedRead(secret, t, l.tried, ids, n, c)
    && |l.news| == NEW_BUCKETS && (forall b | 0 <= b < NEW_BUCKETS :: l.news[b] == {})
  }

  lemma HostsDiffer(t: Table)
    requires AddrOk(t.info, t.byAddr)
    ensures forall i, j | i in t.info && j in t.info && i != j :: t.info[i].service.host != t.info[j].service.host
  {
  }

  lemma NextAddr(t: Table, info: map<int, AddrInfo>, byAddr: map<NetAddr, int>, ids: seq<int>, n: nat, c: nat, x: AddrInfo)
    requires AddrOk(t.info, t.byAddr) && AddrOk(info, byAddr) && NoRepeats(ids) && c < |ids|
    requires InfoRead(t, info, ids, n, c) && ids[c] in t.info && x.service == t.info[ids[c]].service
    ensures AddrOk(info[c := x], byAddr[x.service.host := c])
  {
    HostsDiffer(t);
    forall k | 0 <= k < c ensures info[k].service.host != x.service.host {
      assert ids[k] != ids[c];
    }
    assert x.service.host !in byAddr;
    EnteredAddrOk(info, byAddr, c, x);
  }

  lemma NextInfo(t: Table, info: map<int, AddrInfo>, ids: seq<int>, n: nat, c: nat, x: AddrInfo)
    requires InfoRead(t, info, ids, n, c) && c < |ids| && ids[c] in t.info
    requires x == Again(t.info[ids[c]], c).(refCount := 0, inTried := c >= n)
    ensures InfoRead(t, info[c := x], ids, n, c + 1)
  {
  }

  lemma NextRandom(random: seq<int>, c: nat)
    requires RandomRead(random, c)
    ensures RandomRead(random + [c], c + 1)
  {
  }

  lemma NextNotTried(secret: Secret, t: Table, tried: seq<seq<int>>, ids: seq<int>, n: nat, c: nat)
    requires TriedRead(secret, t, tried, ids, n, c) && c < n && c < |ids|
    ensures TriedRead(secret, t, tried, ids, n, c + 1)
  {
  }

  lemma NextTried(secret: Secret, t: Table, tried: seq<seq<int>>, ids: seq<int>, n: nat, c: nat, b: nat)
    requires TriedRead(secret, t, tried, ids, n, c) && n <= c < |ids| && ids[c] in t.info
    requires b == TriedBucket(secret, t.info[ids[c]].service)
    ensures TriedRead(secret, t, tried[b := tried[b] + [c]], ids, n, c + 1)
  {
    assert !GoesTo(secret, t, ids, n, c, b, c);
    assert c !in tried[b];
    var tried' := tried[b := tried[b] + [c]];
    forall d, k | 0 <= d < TRIED_BUCKETS ensures k in tried'[d] <==> GoesTo(secret, t, ids, n, c + 1, d, k) {
      assert k in tried[d] <==> GoesTo(secret, t, ids, n, c, d, k);
    }
  }

  lemma NewOneRead(secret: Secret, t: Table, l: Table, ids: seq<int>, n: nat, c: nat, r: Record)
    requires Ok(secret, t) && EntriesRead(secret, t, l, ids, n, c) && c < n && c < |ids| && NoRepeats(ids)
    requires ids[c] in t.info && r == Stored(t.info[ids[c]])
    ensures EntriesRead(secret, t, ReadNewOne(secret, l, c, r, false), ids, n, c + 1)
  {
    hide InfoRead, RandomRead, TriedRead, AddrOk, RandomOk, TriedOk, NewOk;
    var x := Restored(r, 0, false, |l.random|);
    NextLength(l.random, c);
    NextAddr(t, l.info, l.byAddr, ids, n, c, x);
    NextInfo(t, l.info, ids, n, c, x);
    NextRandom(l.random, c);
    NextNotTried(secret, t, l.tried, ids, n, c);
  }

  lemma NextLength(random: seq<int>, c: nat)
    requires RandomRead(random, c)
    ensures |random| == c
  {
  }

  /** Distinct ids that all stand in one list are no more than the list is long. */
  lemma FitsIn(ks: seq<int>, ids: seq<int>, list: seq<int>)
    requires NoRepeats(ks) && NoRepeats(ids) && forall i | 0 <= i < |ks| :: 0 <= ks[i] < |ids| && ids[ks[i]] in list
    ensures |ks| <= |list|
  {
    var image := seq(|ks|, i requires 0 <= i < |ks| => if 0 <= ks[i] < |ids| then ids[ks[i]] else 0);
    forall i, j | 0 <= i < j < |image| ensures image[i] != image[j] {
      assert ks[i] != ks[j];
      assert ks[i] < ks[j] || ks[j] < ks[i];
    }
    DistinctSize(image);
    MembersSize(list);
    SubsetSize(Members(image), Members(list));
  }

  lemma InItsBucket(secret: Secret, t: Table, id: int)
    requires Ok(secret, t) && id in t.info && t.info[id].inTried
    ensures id in t.tried[TriedBucket(secret, t.info[id].service)]
  {
  }

  lemma RoomInBucket(secret: Secret, t: Table, tried: seq<seq<int>>, ids: seq<int>, n: nat, c: nat)
    requires Ok(secret, t) && TriedRead(secret, t, tried, ids, n, c) && n <= c < |ids| && NoRepeats(ids)
    requires forall k | n <= k < |ids| :: ids[k] in t.info && t.info[ids[k]].inTried
    ensures |tried[TriedBucket(secret, t.info[ids[c]].service)]| < TRIED_BUCKET_SIZE
  {
    var b := TriedBucket(secret, t.info[ids[c]].service);
    var ks := tried[b] + [c];
    assert !GoesTo(secret, t, ids, n, c, b, c);
    assert c !in tried[b];
    forall i | 0 <= i < |ks| ensures 0 <= ks[i] < |ids| && ids[ks[i]] in t.tried[b] {
      var k := ks[i];
      if i < |tried[b]| {
        assert k in tried[b] && GoesTo(secret, t, ids, n, c, b, k);
      }
      InItsBucket(secret, t, ids[k]);
    }
    FitsIn(ks, ids, t.tried[b]);
  }

  lemma TriedOneRead(secret: Secret, t: Table, l: Table, ids: seq<int>, n: nat, c: nat, r: Record)
    requires Ok(secret, t) && EntriesRead(secret, t, l, ids, n, c) && n <= c < |ids| && NoRepeats(ids) && l.idCount == c
    requires forall k | n <= k < |ids| :: ids[k] in t.info && t.info[ids[k]].inTried
    requires r == Stored(t.info[ids[c]]) && |l.tried| == TRIED_BUCKETS
    ensures EntriesRead(secret, t, ReadTriedOne(secret, l, r), ids, n, c + 1)
    ensures ReadTriedOne(secret, l, r) == ReadTriedOne(secret, l, r).(idCount := c + 1, nTried := l.nTried, nNew := l.nNew)
  {
    hide InfoRead, RandomRead, TriedRead, AddrOk, RandomOk, TriedOk, NewOk;
    RoomInBucket(secret, t, l.tried, ids, n, c);
    var x := Restored(r, 0, true, |l.random|);
    NextLength(l.random, c);
    NextAddr(t, l.info, l.byAddr, ids, n, c, x);
    NextInfo(t, l.info, ids, n, c, x);
    NextRandom(l.random, c);
    NextTried(secret, t, l.tried, ids, n, c, TriedBucket(secret, r.service));
  }

  lemma {:induction false} NewsRead(secret: Secret, t: Table, d: Disk, newIds: seq<int>, triedIds: seq<int>, c: nat)
    requires Ok(secret, t) && IsSaved(t, d, newIds, triedIds) && c <= |newIds| && NoRepeats(newIds + triedIds)
    ensures EntriesRead(secret, t, ReadNews(secret, d, c), newIds + triedIds, |newIds|, c)
    ensures var l := ReadNews(secret, d, c); l.nNew == |newIds| && l.nTried == |triedIds|
  {
    if c > 0 {
      NewsRead(secret, t, d, newIds, triedIds, c - 1);
      assert (newIds + triedIds)[c - 1] == newIds[c - 1];
      hide EntriesRead, OkWith, ReadNewOne;
      assert |t.news| == NEW_BUCKETS ==> !Rehash(d);
      BucketsOk(secret, t, NONE);
      NewOneRead(secret, t, ReadNews(secret, d, c - 1), newIds + triedIds, |newIds|, c - 1, d.news[c - 1]);
      ReadNewOneCounts(secret, ReadNews(secret, d, c - 1), c - 1, d.news[c - 1]);
    }
  }

  lemma ReadNewOneCounts(secret: Secret, l: Table, n: nat, r: Record)
    requires |l.news| == NEW_BUCKETS
    ensures var l' := ReadNewOne(secret, l, n, r, false); l'.nNew == l.nNew && l'.nTried == l.nTried
  {
  }

  lemma {:induction false} TriedsRead(secret: Secret, t: Table, d: Disk, newIds: seq<int>, triedIds: seq<int>, c: nat)
    requires Ok(secret, t) && IsSaved(t, d, newIds, triedIds) && c <= |triedIds| && NoRepeats(newIds + triedIds)
    requires |d.news| == |newIds| && |d.tried| == |triedIds|
    ensures var l := ReadTrieds(secret, d, c);
      && EntriesRead(secret, t, l, newIds + triedIds, |newIds|, |newIds| + c)
      && l.nNew == |newIds| && l.nTried == |triedIds| && l.idCount == |newIds| + c
  {
    hide OkWith, IsSaved, ReadTriedOne, NoRepeats, InfoRead, RandomRead, TriedRead, AddrOk;
    if c == 0 {
      NewsRead(secret, t, d, newIds, triedIds, |newIds|);
    } else {
      hide EntriesRead;
      TriedsRead(secret, t, d, newIds, triedIds, c - 1);
      TriedPart(t, d, newIds, triedIds);
      var ids := newIds + triedIds;
      assert d.tried[c - 1] == Stored(t.info[ids[|newIds| + c - 1]]);
      TriedOneRead(secret, t, ReadTrieds(secret, d, c - 1), ids, |newIds|, |newIds| + c - 1, d.tried[c - 1]);
    }
  }

  lemma TriedPart(t: Table, d: Disk, newIds: seq<int>, triedIds: seq<int>)
    requires IsSaved(t, d, newIds, triedIds)
    ensures var ids := newIds + triedIds;
      && (forall k | |newIds| <= k < |ids| :: ids[k] in t.info && t.info[ids[k]].inTried && d.tried[k - |newIds|] == Stored(t.info[ids[k]]))
  {
    var ids := newIds + triedIds;
    forall k | |newIds| <= k < |ids| ensures ids[k] in t.info && t.info[ids[k]].inTried {
      assert ids[k] == triedIds[k - |newIds|] && ids[k] in Members(triedIds);
    }
  }

  // After b buckets and the ids seen of the next one

  ghost predicate RefsRead(t: Table, info: map<int, AddrInfo>, ids: seq<int>, n: nat, b: nat, seen: set<int>) {
    && b <= |t.news| && (forall k :: k in info <==> 0 <= k < |ids|)
    && forall k | 0 <= k < |ids| :: ids[k] in t.info && info[k] == Counted(t, ids, n, b, seen, k)
  }

  ghost function Counted(t: Table, ids: seq<int>, n: nat, b: nat, seen: set<int>, k: nat): AddrInfo
    requires b <= |t.news| && k < |ids| && ids[k] in t.info
  {
    Again(t.info[ids[k]], k).(refCount := Refs(t.news[..b], ids[k]) + (if k in seen then 1 else 0), inTried := k >= n)
  }

  ghost predicate NewsTo(t: Table, news: seq<set<int>>, ids: seq<int>, b: nat, seen: set<int>) {
    && |news| == |t.news| && b <= |t.news|
    && (forall c, k | 0 <= c < b :: k in news[c] <==> OldIn(t, ids, c, k))
    && (forall c | 0 <= c < b :: |news[c]| <= |t.news[c]|)
    && (forall c | b <= c < |news| :: news[c] == if c == b then seen else {})
  }

  lemma RoomForRef(secret: Secret, t: Table, id: int, b: nat)
    requires Ok(secret, t) && id in t.info && b < |t.news| && id in t.news[b]
    ensures Refs(t.news[..b], id) < NEW_BUCKETS_PER_ADDRESS
  {
    assert t.news == t.news[..b + 1] + t.news[b + 1..] && t.news[..b + 1] == t.news[..b] + [t.news[b]];
    RefsGrow(t.news[..b + 1], t.news[b + 1..], id);
    RefsAppend(t.news[..b], t.news[b], id);
  }

  lemma OneRef(secret: Secret, t: Table, l: Table, ids: seq<int>, n: nat, b: nat, seen: set<int>, k: int)
    requires Ok(secret, t) && RefsRead(t, l.info, ids, n, b, seen) && NewsTo(t, l.news, ids, b, seen)
    requires OldIn(t, ids, b, k) && k !in seen
    ensures var l' := ReadIndex(l, b, k, false);
      && RefsRead(t, l'.info, ids, n, b, seen + {k}) && NewsTo(t, l'.news, ids, b, seen + {k})
      && l' == l.(info := l'.info, news := l'.news)
  {
    RoomForRef(secret, t, ids[k], b);
    hide OkWith;
  }

  lemma {:induction false} PlacesRead(secret: Secret, t: Table, l: Table, ids: seq<int>, n: nat, b: nat, places: seq<int>)
    requires Ok(secret, t) && RefsRead(t, l.info, ids, n, b, {}) && NewsTo(t, l.news, ids, b, {})
    requires b < |t.news| && NoRepeats(places) && forall k | k in places :: OldIn(t, ids, b, k) && k in l.info
    ensures var l' := ReadBucket(l, b, places, false);
      && RefsRead(t, l'.info, ids, n, b, Members(places)) && NewsTo(t, l'.news, ids, b, Members(places))
      && l' == l.(info := l'.info, news := l'.news)
  {
    if places == [] {
      assert Members(places) == {};
    } else {
      var init, last := places[..|places| - 1], places[|places| - 1];
      assert places == init + [last] && last in places;
      assert forall k | k in init :: k in places;
      assert last !in init;
      assert Members(places) == Members(init) + {last};
      hide OkWith, RefsRead, NewsTo, ReadIndex;
      PlacesRead(secret, t, l, ids, n, b, init);
      OneRef(secret, t, ReadBucket(l, b, init, false), ids, n, b, Members(init), last);
    }
  }

  lemma BucketDone(t: Table, l: Table, ids: seq<int>, n: nat, b: nat, places: seq<int>)
    requires RefsRead(t, l.info, ids, n, b, Members(places)) && NewsTo(t, l.news, ids, b, Members(places))
    requires b < |t.news| && |places| == |t.news[b]| && forall k :: k in places <==> OldIn(t, ids, b, k)
    ensures RefsRead(t, l.info, ids, n, b + 1, {}) && NewsTo(t, l.news, ids, b + 1, {})
  {
    MembersSize(places);
    forall k | 0 <= k < |ids| ensures Counted(t, ids, n, b + 1, {}, k) == Counted(t, ids, n, b, Members(places), k) {
      assert t.news[..b + 1] == t.news[..b] + [t.news[b]];
      RefsAppend(t.news[..b], t.news[b], ids[k]);
      assert k in places <==> OldIn(t, ids, b, k);
    }
  }

  /** A saved bucket lists the new ids of its entries. */
  lemma PlacesAreOld(secret: Secret, t: Table, d: Disk, newIds: seq<int>, triedIds: seq<int>, b: nat)
    requires Ok(secret, t) && IsSaved(t, d, newIds, triedIds) && b < |t.news|
    ensures |d.buckets| == |t.news| && NoRepeats(d.buckets[b]) && |d.buckets[b]| == |t.news[b]|
    ensures forall k :: k in d.buckets[b] <==> OldIn(t, newIds + triedIds, b, k)
  {
    var ids := newIds + triedIds;
    assert IsSavedBucket(t.news[b], d.buckets[b], newIds);
    VictimsAreNew(secret, t);
    forall k ensures k in d.buckets[b] <==> OldIn(t, ids, b, k) {
      if 0 <= k < |newIds| {
        assert ids[k] == newIds[k];
      } else if 0 <= k < |ids| {
        assert ids[k] == triedIds[k - |newIds|] && ids[k] in Members(triedIds);
      }
    }
  }

  lemma VictimsAreNew(secret: Secret, t: Table)
    requires Ok(secret, t)
    ensures forall b, id | 0 <= b < |t.news| && id in t.news[b] :: id in t.info && !t.info[id].inTried
  {
    forall b, id | 0 <= b < |t.news| && id in t.news[b] ensures id in t.info && !t.info[id].inTried {
      RefsPositive(t.news, b, id);
    }
  }

  lemma {:induction false} BucketsRead(secret: Secret, t: Table, d: Disk, newIds: seq<int>, triedIds: seq<int>, b: nat)
    requires Ok(secret, t) && IsSaved(t, d, newIds, triedIds) && NoRepeats(newIds + triedIds)
    requires Readable(d) && |d.news| == |newIds| && |d.tried| == |triedIds| && b <= |d.buckets| == |t.news| == NEW_BUCKETS
    ensures var l, l0 := ReadBuckets(secret, d, b), ReadTrieds(secret, d, |d.tried|);
      && RefsRead(t, l.info, newIds + triedIds, |newIds|, b, {}) && NewsTo(t, l.news, newIds + triedIds, b, {})
      && l == l0.(info := l.info, news := l.news)
  {
    var ids := newIds + triedIds;
    if b == 0 {
      hide OkWith, IsSaved, NoRepeats;
      TriedsRead(secret, t, d, newIds, triedIds, |triedIds|);
      NoRefsYet(secret, t, ReadTrieds(secret, d, |triedIds|), ids, |newIds|);
    } else {
      hide OkWith, IsSaved, NoRepeats, RefsRead, NewsTo, OldIn, ReadTrieds;
      BucketsRead(secret, t, d, newIds, triedIds, b - 1);
      PlacesAreOld(secret, t, d, newIds, triedIds, b - 1);
      var l := ReadBuckets(secret, d, b - 1);
      PlacesRead(secret, t, l, ids, |newIds|, b - 1, d.buckets[b - 1]);
      BucketDone(t, ReadBuckets(secret, d, b), ids, |newIds|, b - 1, d.buckets[b - 1]);
    }
  }

  lemma NoRefsYet(secret: Secret, t: Table, l: Table, ids: seq<int>, n: nat)
    requires EntriesRead(secret, t, l, ids, n, |ids|) && |t.news| == NEW_BUCKETS
    ensures RefsRead(t, l.info, ids, n, 0, {}) && NewsTo(t, l.news, ids, 0, {})
  {
    assert t.news[..0] == [];
  }

  // The result

  lemma {:induction false} RefsSame(a: seq<set<int>>, i: int, b: seq<set<int>>, j: int)
    requires |a| == |b| && forall c | 0 <= c < |a| :: i in a[c] <==> j in b[c]
    ensures Refs(a, i) == Refs(b, j)
  {
    if a != [] {
      assert forall c | 0 <= c < |a| - 1 :: a[1..][c] == a[c + 1] && b[1..][c] == b[c + 1];
      RefsSame(a[1..], i, b[1..], j);
    }
  }

  lemma ListsBoth(t: Table, newIds: seq<int>, triedIds: seq<int>)
    requires Lists(newIds, NewIds(t.info)) && Lists(triedIds, TriedIds(t.info))
    ensures Lists(newIds + triedIds, t.info.Keys) && |newIds| == |NewIds(t.info)| && |triedIds| == |TriedIds(t.info)|
  {
    var ids := newIds + triedIds;
    DistinctSize(newIds);
    DistinctSize(triedIds);
    forall i, j | 0 <= i < j < |ids| ensures ids[i] != ids[j] {
      assert ids[i] == if i < |newIds| then newIds[i] else triedIds[i - |newIds|];
      assert ids[j] == if j < |newIds| then newIds[j] else triedIds[j - |newIds|];
      assert i < |newIds| ==> ids[i] in Members(newIds);
      assert j >= |newIds| ==> ids[j] in Members(triedIds);
    }
    forall id ensures id in Members(ids) <==> id in t.info.Keys {
      assert id in ids <==> id in newIds || id in triedIds;
      assert id in Members(newIds) <==> id in NewIds(t.info);
      assert id in Members(triedIds) <==> id in TriedIds(t.info);
    }
    assert Members(ids) == t.info.Keys;
  }

  /** Which listed ids are tried. */
  lemma ListOrder(t: Table, newIds: seq<int>, triedIds: seq<int>)
    requires Lists(newIds, NewIds(t.info)) && Lists(triedIds, TriedIds(t.info))
    ensures var ids := newIds + triedIds;
      forall k | 0 <= k < |ids| :: ids[k] in t.info && (t.info[ids[k]].inTried <==> k >= |newIds|)
  {
    var ids := newIds + triedIds;
    forall k | 0 <= k < |ids| ensures ids[k] in t.info && (t.info[ids[k]].inTried <==> k >= |newIds|) {
      if k < |newIds| {
        assert ids[k] == newIds[k] && ids[k] in Members(newIds);
      } else {
        assert ids[k] == triedIds[k - |newIds|] && ids[k] in Members(triedIds);
      }
    }
  }

  lemma TriedMember(secret: Secret, t: Table, b: nat, id: int)
    requires Ok(secret, t) && b < |t.tried| && id in t.tried[b]
    ensures id in t.info && t.info[id].inTried && TriedBucket(secret, t.info[id].service) == b
  {
  }

  lemma TriedSame(secret: Secret, t: Table, tried: seq<seq<int>>, ids: seq<int>, n: nat)
    requires Ok(secret, t) && TriedRead(secret, t, tried, ids, n, |ids|)
    requires forall k | 0 <= k < |ids| :: ids[k] in t.info && (t.info[ids[k]].inTried <==> k >= n)
    ensures |tried| == |t.tried| && forall b, k | 0 <= b < |t.tried| :: k in tried[b] <==> OldTried(t, ids, b, k)
  {
    forall b, k | 0 <= b < |t.tried| ensures k in tried[b] <==> OldTried(t, ids, b, k) {
      assert k in tried[b] <==> GoesTo(secret, t, ids, n, |ids|, b, k);
      if GoesTo(secret, t, ids, n, |ids|, b, k) {
        InItsBucket(secret, t, ids[k]);
      }
      if OldTried(t, ids, b, k) {
        TriedMember(secret, t, b, ids[k]);
      }
    }
  }

  lemma SavedIsReadable(secret: Secret, t: Table, d: Disk, newIds: seq<int>, triedIds: seq<int>)
    requires IsSaved(t, d, newIds, triedIds) && |t.news| == NEW_BUCKETS
    ensures Readable(d) && |d.buckets| == NEW_BUCKETS && |d.news| == |newIds| && |d.tried| == |triedIds|
  {
    forall b, k | 0 <= b < |d.buckets| && k in d.buckets[b] ensures 0 <= k < |d.news| {
      assert IsSavedBucket(t.news[b], d.buckets[b], newIds);
    }
  }

  lemma RefsComplete(secret: Secret, t: Table, l: Table, ids: seq<int>, n: nat)
    requires Ok(secret, t) && RefsRead(t, l.info, ids, n, NEW_BUCKETS, {})
    requires forall k | 0 <= k < |ids| :: ids[k] in t.info && (t.info[ids[k]].inTried <==> k >= n)
    ensures forall k | 0 <= k < |ids| :: l.info[k] == Again(t.info[ids[k]], k)
  {
    assert t.news[..NEW_BUCKETS] == t.news;
    forall k | 0 <= k < |ids| ensures l.info[k] == Again(t.info[ids[k]], k) {
      assert l.info[k] == Counted(t, ids, n, NEW_BUCKETS, {}, k);
      assert t.info[ids[k]].refCount == Refs(t.news, ids[k]);
    }
  }

  lemma {:induction false} RangeSize(lo: nat, hi: nat) returns (s: set<int>)
    requires lo <= hi
    ensures |s| == hi - lo && forall k :: k in s <==> lo <= k < hi
  {
    if lo == hi {
      s := {};
    } else {
      s := RangeSize(lo, hi - 1);
      s := s + {hi - 1};
    }
  }

  lemma CountsSame(secret: Secret, t: Table, l: Table, ids: seq<int>, n: nat)
    requires CountOk(t) && Renumbered(t, l, ids) && n <= |ids|
    requires n == |NewIds(t.info)| && |ids| - n == |TriedIds(t.info)|
    requires forall k | 0 <= k < |ids| :: ids[k] in t.info && (t.info[ids[k]].inTried <==> k >= n)
    ensures CountOk(l)
  {
    var news := RangeSize(0, n);
    var tried := RangeSize(n, |ids|);
    forall k ensures k in NewIds(l.info) <==> k in news
             ensures k in TriedIds(l.info) <==> k in tried {
    }
    assert NewIds(l.info) == news && TriedIds(l.info) == tried;
  }

  lemma NewSame(secret: Secret, t: Table, l: Table, ids: seq<int>)
    requires Ok(secret, t) && Renumbered(t, l, ids) && forall b | 0 <= b < |l.news| :: |l.news[b]| <= |t.news[b]|
    ensures NewOk(l.info, l.news, NONE)
  {
    forall k | 0 <= k < |ids| ensures Refs(l.news, k) == Refs(t.news, ids[k]) {
      forall b | 0 <= b < |t.news| ensures k in l.news[b] <==> ids[k] in t.news[b] {
        assert k in l.news[b] <==> OldIn(t, ids, b, k);
      }
      RefsSame(l.news, k, t.news, ids[k]);
    }
  }

  lemma TriedTablesSame(secret: Secret, t: Table, l: Table, ids: seq<int>)
    requires Ok(secret, t) && Renumbered(t, l, ids) && forall b | 0 <= b < |l.tried| :: NoRepeats(l.tried[b])
    ensures TriedOk(secret, l.info, l.tried)
  {
    forall b | 0 <= b < TRIED_BUCKETS ensures |l.tried[b]| <= TRIED_BUCKET_SIZE {
      forall i | 0 <= i < |l.tried[b]| ensures 0 <= l.tried[b][i] < |ids| && ids[l.tried[b][i]] in t.tried[b] {
        var k := l.tried[b][i];
        assert k in l.tried[b] && OldTried(t, ids, b, k);
      }
      FitsIn(l.tried[b], ids, t.tried[b]);
    }
    forall b, k | 0 <= b < TRIED_BUCKETS && k in l.tried[b]
      ensures k in l.info && l.info[k].inTried && TriedBucket(secret, l.info[k].service) == b
    {
      assert OldTried(t, ids, b, k);
      TriedMember(secret, t, b, ids[k]);
    }
    forall k | k in l.info && l.info[k].inTried ensures k in l.tried[TriedBucket(secret, l.info[k].service)] {
      InItsBucket(secret, t, ids[k]);
      assert OldTried(t, ids, TriedBucket(secret, l.info[k].service), k);
    }
  }

  lemma RandomSame(t: Table, l: Table, ids: seq<int>)
    requires Renumbered(t, l, ids) && RandomRead(l.random, |ids|)
    ensures RandomOk(l.info, l.random)
  {
  }

  /** What is known once everything has been read. */
  ghost predicate AllRead(secret: Secret, t: Table, l0: Table, l: Table, ids: seq<int>, n: nat) {
    && n <= |ids| && EntriesRead(secret, t, l0, ids, n, |ids|) && l0.nNew == n && l0.nTried == |ids| - n && l0.idCount == |ids|
    && RefsRead(t, l.info, ids, n, NEW_BUCKETS, {}) && NewsTo(t, l.news, ids, NEW_BUCKETS, {})
    && l == l0.(info := l.info, news := l.news)
  }

  lemma LoadReadsAll(secret: Secret, t: Table, d: Disk, newIds: seq<int>, triedIds: seq<int>)
    requires Ok(secret, t) && IsSaved(t, d, newIds, triedIds) && NoRepeats(newIds + triedIds)
    requires Readable(d) && |d.buckets| == |t.news| == NEW_BUCKETS && |d.news| == |newIds| && |d.tried| == |triedIds|
    ensures AllRead(secret, t, ReadTrieds(secret, d, |d.tried|), Load(secret, d), newIds + triedIds, |newIds|)
  {
    hide IsSaved, OkWith, NoRepeats, RefsRead, NewsTo, EntriesRead, ReadBuckets, ReadTrieds, Readable;
    TriedsRead(secret, t, d, newIds, triedIds, |triedIds|);
    BucketsRead(secret, t, d, newIds, triedIds, NEW_BUCKETS);
  }

  ghost predicate InOrder(t: Table, ids: seq<int>, n: nat) {
    && Lists(ids, t.info.Keys) && n == |NewIds(t.info)| && |ids| - n == |TriedIds(t.info)|
    && forall k | 0 <= k < |ids| :: ids[k] in t.info && (t.info[ids[k]].inTried <==> k >= n)
  }

  lemma AllReadRenumbers(secret: Secret, t: Table, l0: Table, l: Table, ids: seq<int>, n: nat)
    requires Ok(secret, t) && InOrder(t, ids, n) && AllRead(secret, t, l0, l, ids, n)
    ensures Renumbered(t, l, ids)
  {
    hide OkWith, RandomRead, RefsRead, NewsTo, InfoRead, Lists, OldIn, OldTried, TriedRead, AddrOk;
    BucketsOk(secret, t, NONE);
    EntriesKept(secret, t, l0, l, ids, n);
    RefsComplete(secret, t, l, ids, n);
    TriedSame(secret, t, l0.tried, ids, n);
  }

  /** Reading what was written loses nothing: the same entries under new ids, in the same buckets. */
  lemma LoadSaved(secret: Secret, t: Table, d: Disk, newIds: seq<int>, triedIds: seq<int>)
    requires Ok(secret, t) && IsSaved(t, d, newIds, triedIds)
    ensures Readable(d) && Renumbered(t, Load(secret, d), newIds + triedIds)
    ensures Ok(secret, Load(secret, d))
  {
    hide IsSaved, AllRead, OkWith, Renumbered, Load, InOrder, NoRepeats, Readable;
    SavedInOrder(t, d, newIds, triedIds);
    BucketsOk(secret, t, NONE);
    SavedIsReadable(secret, t, d, newIds, triedIds);
    LoadReadsAll(secret, t, d, newIds, triedIds);
    var ids, l := newIds + triedIds, Load(secret, d);
    AllReadRenumbers(secret, t, ReadTrieds(secret, d, |d.tried|), l, ids, |newIds|);
    AllReadOk(secret, t, ReadTrieds(secret, d, |d.tried|), l, ids, |newIds|);
  }

  lemma SavedFormLoads(secret: Secret, t: Table, d: Disk)
    requires Ok(secret, t) && SavedForm(t, d)
    ensures Readable(d) && Ok(secret, Load(secret, d)) && exists ids :: Renumbered(t, Load(secret, d), ids)
  {
    hide Ok, IsSaved, Renumbered, Load, Readable;
    var newIds, triedIds :| IsSaved(t, d, newIds, triedIds) && Ascending(newIds) && Ascending(triedIds);
    LoadSaved(secret, t, d, newIds, triedIds);
  }

  lemma SavedInOrder(t: Table, d: Disk, newIds: seq<int>, triedIds: seq<int>)
    requires IsSaved(t, d, newIds, triedIds)
    ensures InOrder(t, newIds + triedIds, |newIds|) && NoRepeats(newIds + triedIds)
  {
    ListsBoth(t, newIds, triedIds);
    ListOrder(t, newIds, triedIds);
  }

  lemma AllReadOk(secret: Secret, t: Table, l0: Table, l: Table, ids: seq<int>, n: nat)
    requires Ok(secret, t) && InOrder(t, ids, n) && AllRead(secret, t, l0, l, ids, n) && Renumbered(t, l, ids)
    ensures Ok(secret, l)
  {
    hide RandomOk, AddrOk, TriedOk, NewOk, RandomRead, RefsRead, NewsTo, InfoRead, Lists, OldIn, OldTried, TriedRead;
    BucketsOk(secret, t, NONE);
    EntriesKept(secret, t, l0, l, ids, n);
    RandomSame(t, l, ids);
    CountsSame(secret, t, l, ids, n);
    NewSame(secret, t, l, ids);
    TriedTablesSame(secret, t, l, ids);
  }

  lemma EntriesKept(secret: Secret, t: Table, l0: Table, l: Table, ids: seq<int>, n: nat)
    requires EntriesRead(secret, t, l0, ids, n, |ids|) && RefsRead(t, l.info, ids, n, NEW_BUCKETS, {})
    requires NewsTo(t, l.news, ids, NEW_BUCKETS, {}) && |t.news| == NEW_BUCKETS
    requires l == l0.(info := l.info, news := l.news)
    ensures AddrOk(l.info, l.byAddr) && RandomRead(l.random, |ids|) && |l.tried| == TRIED_BUCKETS
    ensures forall b | 0 <= b < |l.tried| :: NoRepeats(l.tried[b])
    ensures (forall k :: k in l.info <==> 0 <= k < |ids|) && |l.news| == |t.news|
    ensures forall b | 0 <= b < |l.news| :: |l.news[b]| <= |t.news[b]|
    ensures forall b, k | 0 <= b < |t.news| :: k in l.news[b] <==> OldIn(t, ids, b, k)
  {
    SameServices(l0.info, l.info, l0.byAddr);
  }
}
