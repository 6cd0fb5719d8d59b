/** The consistency check that the source builds in when debugging (src/addrman.cpp, Check_). */
module AddrCheck {
  import opened Sequences
  import opened AddrTable

  // What the check asks

  predicate EntryOk(t: Table, id: int)
    requires id in t.info
  {
    var x := t.info[id];
    && (if x.inTried then x.lastSuccess != 0 && x.refCount == 0 else 1 <= x.refCount <= NEW_BUCKETS_PER_ADDRESS)
    && LookUp(t.byAddr, x.service.host) == id
    && 0 <= x.randomPos < |t.random| && t.random[x.randomPos] == id
    && x.lastTry >= 0 && x.lastSuccess >= 0
  }

  /** Looking up an unknown key in the source's map gives 0. */
  function LookUp(byAddr: map<NetAddr, int>, host: NetAddr): int {
    if host in byAddr then byAddr[host] else 0
  }

  function Flatten(buckets: seq<seq<int>>): seq<int> {
    if buckets == [] then [] else Flatten(buckets[..|buckets| - 1]) + buckets[|buckets| - 1]
  }

  ghost predicate CheckOk(t: Table) {
    && |t.random| == t.nTried + t.nNew
    && (forall id | id in t.info :: EntryOk(t, id))
    && |TriedIds(t.info)| == t.nTried && |NewIds(t.info)| == t.nNew
    && TriedListed(t.tried, TriedIds(t.info))
    && NewListed(t.news, RefCounts(t.info))
  }

  /** The tried buckets together list each of the ids exactly once. */
  ghost predicate TriedListed(tried: seq<seq<int>>, ids: set<int>) {
    NoRepeats(Flatten(tried)) && Members(Flatten(tried)) == ids
  }

  /** The new buckets hold each id just as often as counts say. */
  ghost predicate NewListed(news: seq<set<int>>, counts: map<int, int>) {
    forall id :: Refs(news, id) == CountOf(counts, id)
  }

  function CountOf(counts: map<int, int>, id: int): int {
    if id in counts then counts[id] else 0
  }

  function RefCounts(info: map<int, AddrInfo>): map<int, int> {
    map id | id in info && !info[id].inTried :: info[id].refCount
  }

  // Walking the tried buckets

  lemma NoRepeatsSnoc(s: seq<int>, x: int)
    ensures NoRepeats(s + [x]) <==> NoRepeats(s) && x !in s
  {
    var r := s + [x];
    if NoRepeats(r) {
      assert forall i | 0 <= i < |s| :: r[i] == s[i];
      forall i | 0 <= i < |s| ensures s[i] != x {
        assert r[i] != r[|s|];
      }
    }
  }

  lemma NoRepeatsPrefix(s: seq<int>, r: seq<int>)
    requires NoRepeats(s + r)
    ensures NoRepeats(s)
  {
    assert forall i | 0 <= i < |s| :: (s + r)[i] == s[i];
  }

  lemma MembersSnoc(s: seq<int>, x: int)
    ensures Members(s + [x]) == Members(s) + {x}
  {
  }

  lemma MembersPrefix(s: seq<int>, r: seq<int>)
    ensures Members(s) <= Members(s + r)
  {
    forall x | x in Members(s) ensures x in Members(s + r) {
      var i :| 0 <= i < |s| && s[i] == x;
      assert (s + r)[i] == x;
    }
  }

  /** Strikes the ids of one list off the set, if it can. */
  method StrikeAll(ids: set<int>, before: set<int>, ghost seen: seq<int>, bucket: seq<int>) returns (ok: bool, rest: set<int>)
    requires before == ids - Members(seen) && NoRepeats(seen) && Members(seen) <= ids
    ensures ok <==> NoRepeats(seen + bucket) && Members(seen + bucket) <= ids
    ensures ok ==> rest == ids - Members(seen + bucket)
  {
    rest := before;
    assert seen + bucket[..0] == seen;
    for i := 0 to |bucket|
      invariant rest == ids - Members(seen + bucket[..i])
      invariant NoRepeats(seen + bucket[..i]) && Members(seen + bucket[..i]) <= ids
    {
      ghost var s := seen + bucket[..i];
      assert seen + bucket[..i + 1] == s + [bucket[i]];
      assert seen + bucket == seen + bucket[..i + 1] + bucket[i + 1..];
      NoRepeatsSnoc(s, bucket[i]);
      MembersSnoc(s, bucket[i]);
      if bucket[i] !in rest {
        MembersPrefix(s + [bucket[i]], bucket[i + 1..]);
        if NoRepeats(seen + bucket) {
          NoRepeatsPrefix(s + [bucket[i]], bucket[i + 1..]);
        }
        return false, rest;
      }
      rest := rest - {bucket[i]};
    }
    assert bucket[..|bucket|] == bucket;
    ok := true;
  }

  lemma {:induction false} FlattenSplit(tried: seq<seq<int>>, i: nat) returns (later: seq<int>)
    requires i <= |tried|
    ensures Flatten(tried) == Flatten(tried[..i]) + later
    decreases |tried| - i
  {
    if i == |tried| {
      assert tried[..i] == tried;
      later := [];
    } else {
      later := FlattenSplit(tried, i + 1);
      assert tried[..i + 1][..i] == tried[..i];
      later := tried[i] + later;
    }
  }

  method CheckTried(setTried: set<int>, vvTried: seq<seq<int>>) returns (ok: bool)
    ensures ok <==> TriedListed(vvTried, setTried)
  {
    var rest := setTried;
    ghost var seen: seq<int> := [];
    for n := 0 to |vvTried|
      invariant seen == Flatten(vvTried[..n]) && rest == setTried - Members(seen)
      invariant NoRepeats(seen) && Members(seen) <= setTried
    {
      assert vvTried[..n + 1][..n] == vvTried[..n];
      ghost var later := FlattenSplit(vvTried, n + 1);
      ok, rest := StrikeAll(setTried, rest, seen, vvTried[n]);
      if !ok {
        MembersPrefix(seen + vvTried[n], later);
        if NoRepeats(Flatten(vvTried)) {
          NoRepeatsPrefix(seen + vvTried[n], later);
        }
        return;
      }
      seen := seen + vvTried[n];
    }
    assert vvTried[..|vvTried|] == vvTried;
    if rest == {} {
      forall x ensures x in setTried <==> x in Members(seen) {
        assert x !in rest;
      }
    }
    ok := rest == {};
  }

  // Walking the new buckets

  /** What is left to find of each count when the buckets in front and the ids in hand have been seen. */
  ghost predicate Remaining(counts: map<int, int>, news: seq<set<int>>, hand: set<int>, left: map<int, int>) {
    && (forall id :: CountOf(left, id) == CountOf(counts, id) - Refs(news + [hand], id))
    && (forall id :: id in left ==> left[id] > 0)
  }

  /** Counts the ids of one bucket off, if it can. */
  method CountOffAll(ghost counts: map<int, int>, ghost news: seq<set<int>>, mapNew: map<int, int>, bucket: set<int>)
    returns (ok: bool, left: map<int, int>)
    requires Remaining(counts, news, {}, mapNew)
    ensures ok ==> Remaining(counts, news + [bucket], {}, left)
    ensures !ok ==> exists id :: Refs(news + [bucket], id) > CountOf(counts, id)
  {
    left := mapNew;
    var rest := bucket;
    assert bucket - rest == {};
    while rest != {}
      invariant rest <= bucket && Remaining(counts, news, bucket - rest, left)
      decreases |rest|
    {
      var id := Least(rest);
      ghost var hand := bucket - rest;
      if id !in left {
        NotLeft(counts, news, hand, left, bucket, id);
        return false, left;
      }
      CountOff(counts, news, hand, left, id);
      left := if left[id] == 1 then left - {id} else left[id := left[id] - 1];
      rest := rest - {id};
      assert bucket - rest == hand + {id};
    }
    assert bucket - rest == bucket;
    NextBucket(counts, news, bucket, left);
    ok := true;
  }

  lemma NotLeft(counts: map<int, int>, news: seq<set<int>>, hand: set<int>, left: map<int, int>, bucket: set<int>, id: int)
    requires Remaining(counts, news, hand, left) && id !in left && id in bucket && id !in hand
    ensures Refs(news + [bucket], id) > CountOf(counts, id)
  {
    RefsAppend(news, hand, id);
    RefsAppend(news, bucket, id);
    assert CountOf(left, id) == 0;
  }

  lemma CountOff(counts: map<int, int>, news: seq<set<int>>, hand: set<int>, left: map<int, int>, id: int)
    requires Remaining(counts, news, hand, left) && id in left && id !in hand
    ensures Remaining(counts, news, hand + {id}, if left[id] == 1 then left - {id} else left[id := left[id] - 1])
  {
    var left' := if left[id] == 1 then left - {id} else left[id := left[id] - 1];
    forall i ensures CountOf(left', i) == CountOf(counts, i) - Refs(news + [hand + {id}], i) {
      RefsAppend(news, hand, i);
      RefsAppend(news, hand + {id}, i);
      assert CountOf(left, i) == CountOf(counts, i) - Refs(news + [hand], i);
    }
  }

  lemma NextBucket(counts: map<int, int>, news: seq<set<int>>, bucket: set<int>, left: map<int, int>)
    requires Remaining(counts, news, bucket, left)
    ensures Remaining(counts, news + [bucket], {}, left)
  {
    forall id ensures Refs(news + [bucket] + [{}], id) == Refs(news + [bucket], id) {
      RefsAppend(news + [bucket], {}, id);
    }
  }

  method CheckNew(mapNew: map<int, int>, vvNew: seq<set<int>>) returns (ok: bool)
    requires forall id | id in mapNew :: mapNew[id] > 0
    ensures ok <==> NewListed(vvNew, mapNew)
  {
    var left := mapNew;
    assert Remaining(mapNew, [], {}, left) by {
      var none: seq<set<int>> := [];
      assert none + [{}] == [{}] && forall id :: Refs([{}], id) == 0;
    }
    assert vvNew[..0] == [];
    for n := 0 to |vvNew|
      invariant Remaining(mapNew, vvNew[..n], {}, left)
    {
      assert vvNew[..n + 1] == vvNew[..n] + [vvNew[n]];
      ok, left := CountOffAll(mapNew, vvNew[..n], left, vvNew[n]);
      if !ok {
        var id :| Refs(vvNew[..n + 1], id) > CountOf(mapNew, id);
        RefsGrow(vvNew[..n + 1], vvNew[n + 1..], id);
        assert vvNew == vvNew[..n + 1] + vvNew[n + 1..];
        return;
      }
    }
    assert vvNew[..|vvNew|] == vvNew;
    NothingLeft(mapNew, vvNew, left);
    ok := left == map[];
  }

  lemma NothingLeft(counts: map<int, int>, news: seq<set<int>>, left: map<int, int>)
    requires Remaining(counts, news, {}, left)
    ensures left == map[] <==> NewListed(news, counts)
  {
    forall id ensures Refs(news + [{}], id) == Refs(news, id) {
      RefsAppend(news, {}, id);
    }
    if NewListed(news, counts) {
      forall id ensures id !in left {
        assert CountOf(left, id) == CountOf(counts, id) - Refs(news + [{}], id);
      }
      assert left == map[];
    }
    if left == map[] {
      forall id ensures Refs(news, id) == CountOf(counts, id) {
        assert CountOf(left, id) == CountOf(counts, id) - Refs(news + [{}], id);
      }
    }
  }

  // The check

  /** The first loop: every entry in turn, sorted into tried ids and counts of new ids. */
  method CheckEntries(t: Table) returns (ok: bool, setTried: set<int>, mapNew: map<int, int>)
    ensures ok <==> forall id | id in t.info :: EntryOk(t, id)
    ensures ok ==> setTried == TriedIds(t.info) && mapNew == RefCounts(t.info)
    ensures ok ==> mapNew.Keys == NewIds(t.info)
  {
    var rest := t.info.Keys;
    setTried, mapNew := {}, map[];
    while rest != {}
      invariant rest <= t.info.Keys
      invariant forall id | id in t.info && id !in rest :: EntryOk(t, id)
      invariant setTried == set id | id in t.info && t.info[id].inTried && id !in rest
      invariant mapNew == map id | id in t.info && !t.info[id].inTried && id !in rest :: t.info[id].refCount
      decreases |rest|
    {
      var n := Least(rest);
      var info := t.info[n];
      if !EntryOk(t, n) {
        return false, setTried, mapNew;
      }
      if info.inTried {
        setTried := setTried + {n};
      } else {
        mapNew := mapNew[n := info.refCount];
      }
      rest := rest - {n};
    }
    ok := true;
  }

  method Check(t: Table) returns (ok: bool)
    ensures ok <==> CheckOk(t)
  {
    if |t.random| != t.nTried + t.nNew {
      return false;
    }
    var setTried, mapNew;
    ok, setTried, mapNew := CheckEntries(t);
    if !ok {
      return;
    }
    if |setTried| != t.nTried || |mapNew| != t.nNew {
      assert |mapNew| == |mapNew.Keys|;
      return false;
    }
    assert |mapNew| == |mapNew.Keys|;
    ok := CheckTried(setTried, t.tried);
    if !ok {
      return;
    }
    assert forall id | id in mapNew :: EntryOk(t, id);
    ok := CheckNew(mapNew, t.news);
  }

  // Consistent tables pass

  lemma {:induction false} FlattenMembers(tried: seq<seq<int>>, x: int)
    ensures x in Flatten(tried) <==> exists b :: 0 <= b < |tried| && x in tried[b]
  {
    if tried != [] {
      var init, last := tried[..|tried| - 1], tried[|tried| - 1];
      FlattenMembers(init, x);
      assert forall b | 0 <= b < |init| :: init[b] == tried[b];
      if x in Flatten(init) {
        var b :| 0 <= b < |init| && x in init[b];
        assert x in tried[b];
      }
      if x in last {
        assert x in tried[|tried| - 1];
      }
    }
  }

  /** Each id lists in one bucket only. */
  ghost predicate OwnBuckets(secret: Secret, info: map<int, AddrInfo>, tried: seq<seq<int>>) {
    forall b, id | 0 <= b < |tried| && id in tried[b] :: id in info && TriedBucket(secret, info[id].service) == b
  }

  lemma {:induction false} FlattenDistinct(secret: Secret, info: map<int, AddrInfo>, tried: seq<seq<int>>)
    requires OwnBuckets(secret, info, tried) && forall b | 0 <= b < |tried| :: NoRepeats(tried[b])
    ensures NoRepeats(Flatten(tried))
  {
    if tried != [] {
      var init, last := tried[..|tried| - 1], tried[|tried| - 1];
      assert forall b | 0 <= b < |init| :: init[b] == tried[b];
      FlattenDistinct(secret, info, init);
      forall x | x in last ensures x !in Flatten(init) {
        FlattenMembers(init, x);
        assert x in tried[|tried| - 1] && TriedBucket(secret, info[x].service) == |tried| - 1;
        assert forall b | 0 <= b < |init| :: init[b] == tried[b] && b != |tried| - 1;
      }
      DistinctConcat(Flatten(init), last);
    }
  }

  lemma DistinctConcat(s: seq<int>, r: seq<int>)
    requires NoRepeats(s) && NoRepeats(r) && forall x | x in r :: x !in s
    ensures NoRepeats(s + r)
  {
    var c := s + r;
    forall i, j | 0 <= i < j < |c| ensures c[i] != c[j] {
      if j >= |s| {
        assert c[j] == r[j - |s|];
        assert c[j] !in s;
      }
    }
  }

  /** A consistent table with sensible times passes the check. */
  lemma OkPassesCheck(secret: Secret, t: Table)
    requires Ok(secret, t) && TimesOk(t.info)
    ensures CheckOk(t)
  {
    SizeBound(secret, t);
    FlattenDistinct(secret, t.info, t.tried);
    forall x ensures x in Members(Flatten(t.tried)) <==> x in TriedIds(t.info) {
      FlattenMembers(t.tried, x);
    }
    forall id ensures Refs(t.news, id) == CountOf(RefCounts(t.info), id) {
      if id !in t.info {
        RefsNone(t.news, id);
      }
    }
    forall id | id in t.info ensures EntryOk(t, id) {
      assert id != NONE;
    }
  }
}
