/** Reading a stored form with another number of buckets, which hashes the entries anew (src/addrman.h). */
module AddrRehash {
  import opened AddrTable
  import opened AddrDisk

  /** The k-th record, those of the tried table last. */
  function RecordAt(d: Disk, k: nat): Record
    requires k < |d.news| + |d.tried|
  {
    if k < |d.news| then d.news[k] else d.tried[k - |d.news|]
  }

  predicate HostsDistinct(d: Disk) {
    forall i, j | 0 <= i < j < |d.news| + |d.tried| :: RecordAt(d, i).service.host != RecordAt(d, j).service.host
  }

  function BucketOf(secret: Secret, d: Disk, k: nat): nat
    requires k < |d.news|
  {
    NewBucket(secret, d.news[k].service, d.news[k].source)
  }

  /** The first n records that go to new bucket b. */
  function HashedTo(secret: Secret, d: Disk, b: nat, n: nat): set<int>
    requires n <= |d.news|
  {
    set k: int | 0 <= k < n && BucketOf(secret, d, k) == b
  }

  /** How many entries are read; tried ones that find their bucket full are not among them. */
  function Entries(secret: Secret, d: Disk): int {
    ReadTrieds(secret, d, |d.tried|).idCount
  }

  /** What NewOk asks for, without the size of a bucket. */
  ghost predicate AnySize(info: map<int, AddrInfo>, news: seq<set<int>>) {
    && |news| == NEW_BUCKETS
    && (forall b, id | 0 <= b < NEW_BUCKETS && id in news[b] :: id in info)
    && (forall id | id in info ::
          && info[id].refCount == Refs(news, id) && info[id].refCount <= NEW_BUCKETS_PER_ADDRESS
          && (info[id].inTried <==> info[id].refCount == 0))
  }

  ghost predicate HostsSeen(d: Disk, byAddr: map<NetAddr, int>, c: nat)
    requires c <= |d.news| + |d.tried|
  {
    forall a | a in byAddr :: exists k: nat | k < c :: RecordAt(d, k).service.host == a
  }

  ghost predicate IdsAre(d: Disk, info: map<int, AddrInfo>, e: int) {
    && (forall id :: id in info <==> 0 <= id < e)
    && (forall id | id in info :: info[id].inTried <==> id >= |d.news|)
  }

  /** After c records, of which e became entries. */
  ghost predicate Reading(secret: Secret, d: Disk, t: Table, c: nat, e: int)
    requires c <= |d.news| + |d.tried|
  {
    && RandomOk(t.info, t.random) && AddrOk(t.info, t.byAddr) && TriedOk(secret, t.info, t.tried)
    && AnySize(t.info, t.news) && HostsSeen(d, t.byAddr, c) && IdsAre(d, t.info, e)
  }

  lemma NewHost(d: Disk, byAddr: map<NetAddr, int>, c: nat, id: int)
    requires c < |d.news| + |d.tried| && HostsDistinct(d) && HostsSeen(d, byAddr, c)
    ensures RecordAt(d, c).service.host !in byAddr
    ensures HostsSeen(d, byAddr, c + 1) && HostsSeen(d, byAddr[RecordAt(d, c).service.host := id], c + 1)
  {
  }

  lemma AnySizeEntered(info: map<int, AddrInfo>, news: seq<set<int>>, id: int, x: AddrInfo, b: nat)
    requires AnySize(info, news) && id !in info && x.refCount == 1 && !x.inTried && b < NEW_BUCKETS
    ensures AnySize(info[id := x], news[b := news[b] + {id}])
  {
    forall c | 0 <= c < |news| ensures id !in news[c] {
    }
    RefsNone(news, id);
    forall i ensures Refs(news[b := news[b] + {id}], i) == Refs(news, i) + (if i == id then 1 else 0) {
      RefsUpdate(news, b, news[b] + {id}, i);
    }
  }

  lemma AnySizeTried(info: map<int, AddrInfo>, news: seq<set<int>>, id: int, x: AddrInfo)
    requires AnySize(info, news) && id !in info && x.refCount == 0 && x.inTried
    ensures AnySize(info[id := x], news)
  {
    forall c | 0 <= c < |news| ensures id !in news[c] {
    }
    RefsNone(news, id);
  }

  lemma TriedEntered(secret: Secret, info: map<int, AddrInfo>, tried: seq<seq<int>>, id: int, x: AddrInfo, b: nat)
    requires TriedOk(secret, info, tried) && id !in info && x.inTried && b == TriedBucket(secret, x.service)
    requires |tried[b]| < TRIED_BUCKET_SIZE
    ensures TriedOk(secret, info[id := x], tried[b := tried[b] + [id]])
  {
    assert id !in tried[b];
  }

  lemma NewRehashed(secret: Secret, d: Disk, t: Table, c: nat)
    requires c < |d.news| && HostsDistinct(d) && Reading(secret, d, t, c, c) && |t.news| == NEW_BUCKETS
    ensures Reading(secret, d, ReadNewOne(secret, t, c, d.news[c], true), c + 1, c + 1)
  {
    var x, b := Restored(d.news[c], 1, false, |t.random|), BucketOf(secret, d, c);
    NewHost(d, t.byAddr, c, c);
    EnteredRandomOk(t.info, t.random, c, x);
    EnteredAddrOk(t.info, t.byAddr, c, x);
    EnteredTriedOk(secret, t.info, t.tried, c, x);
    AnySizeEntered(t.info, t.news, c, x, b);
    hide RandomOk, AddrOk, TriedOk, AnySize, HostsSeen;
  }

  lemma TriedRehashed(secret: Secret, d: Disk, t: Table, c: nat)
    requires |d.news| <= c < |d.news| + |d.tried| && HostsDistinct(d)
    requires Reading(secret, d, t, c, t.idCount) && t.idCount >= |d.news| && |t.tried| == TRIED_BUCKETS
    ensures var l := ReadTriedOne(secret, t, d.tried[c - |d.news|]);
      && Reading(secret, d, l, c + 1, l.idCount) && l.idCount >= |d.news| && l.nNew == t.nNew && l.news == t.news
      && l.nTried - l.idCount == t.nTried - t.idCount - 1
  {
    var r := d.tried[c - |d.news|];
    var id, x, b := t.idCount, Restored(r, 0, true, |t.random|), TriedBucket(secret, r.service);
    NewHost(d, t.byAddr, c, id);
    if |t.tried[b]| < TRIED_BUCKET_SIZE {
      EnteredRandomOk(t.info, t.random, id, x);
      EnteredAddrOk(t.info, t.byAddr, id, x);
      TriedEntered(secret, t.info, t.tried, id, x, b);
      AnySizeTried(t.info, t.news, id, x);
    }
    hide RandomOk, AddrOk, TriedOk, AnySize, HostsSeen;
  }

  lemma NothingRead(secret: Secret, d: Disk)
    ensures Reading(secret, d, ReadNews(secret, d, 0), 0, 0)
  {
    var t := ReadNews(secret, d, 0);
    assert t.info == map[] && t.news == seq(NEW_BUCKETS, _ => {});
  }

  /** After c new records. */
  ghost predicate NewsReading(secret: Secret, d: Disk, t: Table, c: nat)
    requires c <= |d.news|
  {
    && Reading(secret, d, t, c, c) && t.nNew == |d.news| && t.nTried == |d.tried|
    && |t.news| == NEW_BUCKETS && forall b | 0 <= b < NEW_BUCKETS :: t.news[b] == HashedTo(secret, d, b, c)
  }

  lemma NextHashed(secret: Secret, d: Disk, b: nat, c: nat)
    requires c < |d.news|
    ensures HashedTo(secret, d, b, c + 1) == HashedTo(secret, d, b, c) + if BucketOf(secret, d, c) == b then {c} else {}
  {
  }

  lemma NextNewRehashed(secret: Secret, d: Disk, t: Table, c: nat)
    requires c < |d.news| && HostsDistinct(d) && NewsReading(secret, d, t, c)
    ensures NewsReading(secret, d, ReadNewOne(secret, t, c, d.news[c], true), c + 1)
  {
    hide Reading, HashedTo;
    NewRehashed(secret, d, t, c);
    forall b | 0 <= b < NEW_BUCKETS
      ensures HashedTo(secret, d, b, c + 1) == HashedTo(secret, d, b, c) + if BucketOf(secret, d, c) == b then {c} else {}
    {
      NextHashed(secret, d, b, c);
    }
  }

  lemma {:induction false} NewsRehashed(secret: Secret, d: Disk, c: nat)
    requires c <= |d.news| && HostsDistinct(d) && Rehash(d)
    ensures NewsReading(secret, d, ReadNews(secret, d, c), c)
  {
    if c == 0 {
      NothingRead(secret, d);
      hide Reading;
    } else {
      NewsRehashed(secret, d, c - 1);
      hide NewsReading, ReadNewOne;
      NextNewRehashed(secret, d, ReadNews(secret, d, c - 1), c - 1);
    }
  }

  /** After all the new records and c tried ones. */
  ghost predicate TriedsReading(secret: Secret, d: Disk, t: Table, c: nat)
    requires c <= |d.tried|
  {
    && Reading(secret, d, t, |d.news| + c, t.idCount) && t.idCount >= |d.news| && t.nNew == |d.news|
    && t.nTried - t.idCount == |d.tried| - |d.news| - c
    && |t.news| == NEW_BUCKETS && |t.tried| == TRIED_BUCKETS
    && forall b | 0 <= b < NEW_BUCKETS :: t.news[b] == HashedTo(secret, d, b, |d.news|)
  }

  lemma NextTriedRehashed(secret: Secret, d: Disk, t: Table, c: nat)
    requires c < |d.tried| && HostsDistinct(d) && TriedsReading(secret, d, t, c)
    ensures TriedsReading(secret, d, ReadTriedOne(secret, t, d.tried[c]), c + 1)
  {
    hide Reading, HashedTo;
    TriedRehashed(secret, d, t, |d.news| + c);
  }

  lemma FirstTried(secret: Secret, d: Disk)
    requires HostsDistinct(d) && Rehash(d)
    ensures TriedsReading(secret, d, ReadTrieds(secret, d, 0), 0)
  {
    hide HashedTo, Reading, ReadNews;
    NewsRehashed(secret, d, |d.news|);
    SameReading(secret, d, ReadNews(secret, d, |d.news|), ReadTrieds(secret, d, 0), |d.news|, |d.news|);
  }

  lemma {:induction false} TriedsRehashed(secret: Secret, d: Disk, c: nat)
    requires c <= |d.tried| && HostsDistinct(d) && Rehash(d)
    ensures TriedsReading(secret, d, ReadTrieds(secret, d, c), c)
  {
    hide TriedsReading, ReadTriedOne;
    if c == 0 {
      FirstTried(secret, d);
    } else {
      TriedsRehashed(secret, d, c - 1);
      NextTriedRehashed(secret, d, ReadTrieds(secret, d, c - 1), c - 1);
    }
  }

  lemma SameReading(secret: Secret, d: Disk, t: Table, t': Table, c: nat, e: int)
    requires c <= |d.news| + |d.tried| && Reading(secret, d, t, c, e) && t' == t.(idCount := t'.idCount)
    ensures Reading(secret, d, t', c, e)
  {
    hide RandomOk, AddrOk, TriedOk, AnySize, HostsSeen, IdsAre;
  }

  lemma EntriesCounted(d: Disk, info: map<int, AddrInfo>, e: int)
    requires IdsAre(d, info, e) && e >= |d.news|
    ensures |NewIds(info)| == |d.news| && |TriedIds(info)| == e - |d.news|
  {
    var news := RangeSize(0, |d.news|);
    var trieds := RangeSize(|d.news|, e);
    forall id ensures id in NewIds(info) <==> id in news
              ensures id in TriedIds(info) <==> id in trieds {
    }
    assert NewIds(info) == news && TriedIds(info) == trieds;
  }

  // The buckets that are stored are passed over

  /** Some entry was made for an id that no record has. */
  ghost predicate Foreign(info: map<int, AddrInfo>) {
    exists id :: id in info && info[id].randomPos == -1
  }

  lemma ForeignStays(t: Table, b: nat, id: int)
    requires b < |t.news| && Foreign(t.info)
    ensures Foreign(ReadIndex(t, b, id, true).info)
  {
    var i :| i in t.info && t.info[i].randomPos == -1;
    assert i in ReadIndex(t, b, id, true).info;
  }

  lemma {:induction false} BucketPassed(t: Table, b: nat, ids: seq<int>)
    requires b < |t.news|
    ensures Foreign(t.info) ==> Foreign(ReadBucket(t, b, ids, true).info)
    ensures if forall id | id in ids :: id in t.info then ReadBucket(t, b, ids, true) == t
            else Foreign(ReadBucket(t, b, ids, true).info)
  {
    if ids != [] {
      var init, last := ids[..|ids| - 1], ids[|ids| - 1];
      BucketPassed(t, b, init);
      var l := ReadBucket(t, b, init, true);
      assert ids == init + [last];
      if Foreign(l.info) {
        ForeignStays(l, b, last);
      } else if last !in l.info {
        assert last in ReadIndex(l, b, last, true).info;
      }
    }
  }

  /** The indexes of the first n stored buckets are ids of entries. */
  ghost predicate AllNamed(secret: Secret, d: Disk, n: nat)
    requires n <= |d.buckets|
  {
    forall b, id | 0 <= b < n && id in d.buckets[b] :: 0 <= id < Entries(secret, d)
  }

  lemma {:induction false} BucketsPassed(secret: Secret, d: Disk, n: nat)
    requires Readable(d) && Rehash(d) && n <= |d.buckets|
    requires IdsAre(d, ReadTrieds(secret, d, |d.tried|).info, Entries(secret, d))
    ensures if AllNamed(secret, d, n) then ReadBuckets(secret, d, n) == ReadTrieds(secret, d, |d.tried|)
            else Foreign(ReadBuckets(secret, d, n).info)
  {
    if n > 0 {
      BucketsPassed(secret, d, n - 1);
      BucketPassed(ReadBuckets(secret, d, n - 1), n - 1, d.buckets[n - 1]);
    }
  }

  /**
   * Hashed anew, distinct entries give a consistent manager exactly if no more than 64 records go to one new bucket
   * and the stored buckets name only entries that were read.
   */
  lemma RehashedOkExactlyWhen(secret: Secret, d: Disk)
    requires Readable(d) && Rehash(d) && HostsDistinct(d)
    ensures Ok(secret, Load(secret, d)) <==>
            AllNamed(secret, d, |d.buckets|)
            && forall b | 0 <= b < NEW_BUCKETS :: |HashedTo(secret, d, b, |d.news|)| <= NEW_BUCKET_SIZE
  {
    hide HashedTo;
    TriedsRehashed(secret, d, |d.tried|);
    var t := ReadTrieds(secret, d, |d.tried|);
    BucketsPassed(secret, d, |d.buckets|);
    if AllNamed(secret, d, |d.buckets|) {
      EntriesCounted(d, t.info, t.idCount);
      hide RandomOk, AddrOk, TriedOk, HostsSeen, AllNamed, Load, ReadTrieds;
      assert NewOk(t.info, t.news, NONE) <==> forall b | 0 <= b < NEW_BUCKETS :: |t.news[b]| <= NEW_BUCKET_SIZE;
    }
  }

  /** Sixty-five records that one secret sends to one bucket, and no stored buckets. */
  lemma BucketOverfilled(secret: Secret, d: Disk)
    requires |d.buckets| == 0 && HostsDistinct(d) && |d.news| == 65
    requires forall k | 0 <= k < 65 :: BucketOf(secret, d, k) == BucketOf(secret, d, 0)
    ensures Readable(d) && !Ok(secret, Load(secret, d))
  {
    RehashedOkExactlyWhen(secret, d);
    var all := RangeSize(0, 65);
    assert HashedTo(secret, d, BucketOf(secret, d, 0), 65) == all;
  }
}
