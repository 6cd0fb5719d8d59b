/** What becomes of an entry of the address manager as it is heard of, tried and reached (src/addrman.cpp). */
module AddrLife {
  import opened Sequences
  import opened AddrTable
  import opened AddrMan

  // When an entry is given up

  /** One only heard of is terrible exactly if its time is missing, over thirty days old, or over ten minutes ahead. */
  lemma HeardTerribleExactlyWhen(addr: Address, source: NetAddr, pos: int, now: int)
    ensures Terrible(NewInfo(addr, source, pos), now) <==>
            addr.time == 0 || now - addr.time > 2_592_000 || addr.time - now > 600
  {
  }

  /** One that was reached is terrible exactly if that is over thirty days ago, whatever happened before. */
  lemma ReachedTerribleExactlyWhen(x: AddrInfo, time: int, now: int)
    requires time > 0
    ensures Terrible(GoodInfo(x, time), now) <==> now - time > 2_592_000
  {
  }

  /** Attempts to connect at these times, one after the other. */
  function Attempted(x: AddrInfo, times: seq<int>): AddrInfo {
    if times == [] then x else AttemptedInfo(Attempted(x, times[..|times| - 1]), times[|times| - 1])
  }

  lemma {:induction false} AttemptsCount(x: AddrInfo, times: seq<int>)
    ensures Attempted(x, times)
            == x.(attempts := x.attempts + |times|, lastTry := if times == [] then x.lastTry else times[|times| - 1])
  {
    if times != [] {
      AttemptsCount(x, times[..|times| - 1]);
    }
  }

  /**
   * An entry that was never reached, heard of in good time, is terrible after three attempts, but not within a minute of
   * the last one.
   */
  lemma UnreachedTerribleExactlyWhen(addr: Address, source: NetAddr, pos: int, times: seq<int>, now: int)
    requires !Terrible(NewInfo(addr, source, pos), now) && times != [] && times[|times| - 1] != 0
    ensures Terrible(Attempted(NewInfo(addr, source, pos), times), now) <==> now - times[|times| - 1] > 60 && |times| >= 3
  {
    AttemptsCount(NewInfo(addr, source, pos), times);
  }

  /** One that was reached is given up after ten attempts in vain, a week after that, or after thirty days in any case. */
  lemma LostTerribleExactlyWhen(x: AddrInfo, time: int, times: seq<int>, now: int)
    requires time > 0 && time <= now && times != [] && times[|times| - 1] != 0
    ensures Terrible(Attempted(GoodInfo(x, time), times), now) <==>
      && now - times[|times| - 1] > 60
      && (now - time > 2_592_000 || (now - time > 604_800 && |times| >= 10))
  {
    AttemptsCount(GoodInfo(x, time), times);
  }

  // How an entry is kept up to date

  /**
   * Hearing of an entry again adds services and may bring its time forward, never back: to the time heard less the
   * penalty, exactly if it lags behind that by over an hour, or over a day for an address last seen a day ago or more.
   */
  lemma RefreshedExactlyWhen(x: AddrInfo, addr: Address, penalty: int, now: int)
    requires x.time > 0 && addr.time > 0
    ensures var y, lag := Refreshed(x, addr, penalty, now), addr.time - penalty - x.time;
      && y == x.(time := y.time, services := x.services + addr.services)
      && y.time >= x.time
      && y.time == (if lag > (if now - addr.time < 86400 then 3600 else 86400) then addr.time - penalty else x.time)
  {
  }

  /** Hearing the same twice is hearing it once. */
  lemma RefreshedTwice(x: AddrInfo, addr: Address, penalty: int, now: int)
    ensures Refreshed(Refreshed(x, addr, penalty, now), addr, penalty, now) == Refreshed(x, addr, penalty, now)
  {
    var y := Refreshed(x, addr, penalty, now);
    assert y.services + addr.services == y.services;
  }

  /** While we are connected, the time on record stays within twenty minutes. */
  lemma ConnectedKeepsTime(x: AddrInfo, time: int)
    ensures var y := ConnectedInfo(x, time);
      && y == x.(time := y.time) && time - 1200 <= y.time && (y.time != x.time ==> y.time == time && time - x.time > 1200)
  {
  }

  /**
   * Hearing of a known address again may put it into one more bucket exactly if it is not tried, in fewer than four, lucky
   * if in any, and still newer than the record once that has been brought forward: which, if it was, takes a penalty.
   */
  lemma GoesOnExactlyWhen(t: Table, addr: Address, penalty: int, now: int, lucky: bool)
    requires addr.service.host in t.byAddr && t.byAddr[addr.service.host] in t.info
    requires addr.time > 0 && t.info[t.byAddr[addr.service.host]].time > 0
    ensures var x := t.info[t.byAddr[addr.service.host]];
      var lag := addr.time - penalty - x.time;
      GoesOn(t, addr, penalty, now, lucky) <==>
        && !x.inTried && x.refCount != 4 && (x.refCount > 0 ==> lucky)
        && (if lag > (if now - addr.time < 86400 then 3600 else 86400) then penalty > 0 else addr.time > x.time)
  {
    RefreshedExactlyWhen(t.info[t.byAddr[addr.service.host]], addr, penalty, now);
  }

  // Where an entry is filed

  /**
   * Where hearing of an address puts it: a new one, or one for which the draw is lucky, is in the bucket for its group and
   * the group of the source afterwards, and only a full bucket gives up another entry for it.
   */
  lemma AddedIsFiled(secret: Secret, t: Table, addr: Address, source: NetAddr, penalty: int, now: int, lucky: bool, victim: int)
    requires Ok(secret, t)
    requires addr.service.host in t.byAddr ==> t.byAddr[addr.service.host] in t.info
    requires VictimOk(secret, t, addr, source, penalty, now, lucky, victim)
    requires GoesOn(t, addr, penalty, now, lucky)
    ensures var t', id := Added(secret, t, addr, source, penalty, now, lucky, victim), NotedId(t, addr);
      && id in t'.info
      && var b := NewBucket(secret, t'.info[id].service, source);
         t'.news == t.news[b := (if |t.news[b]| == 64 && id !in t.news[b] then t.news[b] - {victim} else t.news[b]) + {id}]
  {
    var n, id := Noted(t, addr, source, penalty, now), NotedId(t, addr);
    var b := NewBucket(secret, n.info[id].service, source);
    HeardEntry(secret, t, addr, source, penalty, now);
    VictimIsOther(secret, t, addr, source, penalty, now, lucky, victim);
    hide OkWith, Noted, NotedId, GoesOn, NewBucket;
    BucketedPlace(n, b, id, victim);
  }

  lemma HeardEntry(secret: Secret, t: Table, addr: Address, source: NetAddr, penalty: int, now: int)
    requires Ok(secret, t)
    requires addr.service.host in t.byAddr ==> t.byAddr[addr.service.host] in t.info
    ensures var n, id := Noted(t, addr, source, penalty, now), NotedId(t, addr); id in n.info && n.news == t.news && |t.news| == 256
  {
  }

  lemma VictimIsOther(secret: Secret, t: Table, addr: Address, source: NetAddr, penalty: int, now: int, lucky: bool, victim: int)
    requires Ok(secret, t)
    requires addr.service.host in t.byAddr ==> t.byAddr[addr.service.host] in t.info
    requires VictimOk(secret, t, addr, source, penalty, now, lucky, victim) && GoesOn(t, addr, penalty, now, lucky)
    ensures var n, id := Noted(t, addr, source, penalty, now), NotedId(t, addr);
      var b := NewBucket(secret, n.info[id].service, source);
      id !in n.news[b] && |n.news[b]| == 64 ==> victim != id && CanUnref(Ref(n, id), victim)
  {
    HeardEntry(secret, t, addr, source, penalty, now);
    hide OkWith, Noted, NotedId, GoesOn;
  }

  lemma BucketedPlace(n: Table, b: nat, id: int, victim: int)
    requires b < |n.news| && id in n.info
    requires |n.news[b]| == 64 && id !in n.news[b] ==> victim != id && CanUnref(Ref(n, id), victim)
    ensures var t' := Bucketed(n, b, id, victim);
      && id in t'.info && t'.info[id].service == n.info[id].service
      && t'.news == n.news[b := (if |n.news[b]| == 64 && id !in n.news[b] then n.news[b] - {victim} else n.news[b]) + {id}]
  {
    if id in n.news[b] {
      assert n.news[b] + {id} == n.news[b];
    }
  }

  /** A new entry as it was heard, in one bucket and never tried. */
  lemma AddedNewEntry(secret: Secret, t: Table, addr: Address, source: NetAddr, penalty: int, now: int, lucky: bool, victim: int)
    requires Ok(secret, t) && addr.service.host !in t.byAddr
    requires VictimOk(secret, t, addr, source, penalty, now, lucky, victim)
    ensures var t', id := Added(secret, t, addr, source, penalty, now, lucky, victim), NotedId(t, addr);
      && id in t'.info && t'.byAddr[addr.service.host] == id
      && t'.info[id].service == addr.service && t'.info[id].services == addr.services && t'.info[id].source == source
      && t'.info[id].time == (if addr.time > penalty then addr.time - penalty else 0)
      && t'.info[id].refCount == 1 && !t'.info[id].inTried && t'.info[id].attempts == 0
      && t'.info[id].lastTry == 0 && t'.info[id].lastSuccess == 0
  {
    var n, id := Noted(t, addr, source, penalty, now), NotedId(t, addr);
    var b := NewBucket(secret, n.info[id].service, source);
    NewIsNowhere(secret, t, b);
    AddedOk(secret, t, addr, source, penalty, now, lucky, victim);
    var t' := Added(secret, t, addr, source, penalty, now, lucky, victim);
    if |n.news[b]| == 64 {
      var r := Ref(n, id);
      assert victim != id && r.info[id] == n.info[id].(refCount := 1);
      hide OkWith;
      UnrefKeepsOther(r, b, victim, id);
      HostKept(secret, t', id);
    }
  }

  /** A known entry is brought up to date, and counted for one more bucket if it enters one. */
  lemma AddedKnownEntry(secret: Secret, t: Table, addr: Address, source: NetAddr, penalty: int, now: int, lucky: bool, victim: int)
    requires Ok(secret, t) && addr.service.host in t.byAddr && t.byAddr[addr.service.host] in t.info
    requires VictimOk(secret, t, addr, source, penalty, now, lucky, victim)
    ensures var t', id := Added(secret, t, addr, source, penalty, now, lucky, victim), t.byAddr[addr.service.host];
      var x, b := t.info[id], NewBucket(secret, t.info[id].service, source);
      var enters := GoesOn(t, addr, penalty, now, lucky) && id !in t.news[b];
      && id in t'.info
      && t'.info[id] == Refreshed(x, addr, penalty, now).(refCount := x.refCount + if enters then 1 else 0,
                                                          randomPos := t'.info[id].randomPos)
  {
    var n, id := Noted(t, addr, source, penalty, now), NotedId(t, addr);
    var b := NewBucket(secret, n.info[id].service, source);
    HeardEntry(secret, t, addr, source, penalty, now);
    if GoesOn(t, addr, penalty, now, lucky) && id !in n.news[b] && |n.news[b]| == 64 {
      VictimIsOther(secret, t, addr, source, penalty, now, lucky, victim);
      hide OkWith;
      UnrefKeepsOther(Ref(n, id), b, victim, id);
    }
  }

  /** After a good connection the record says so, whichever table the entry was in. */
  lemma MadeGoodEntry(secret: Secret, t: Table, t': Table, a: Service, time: int, origin: nat, shuffled: seq<int>, pos: nat)
    requires Ok(secret, t) && IsMadeGood(secret, t, t', a, time, origin, shuffled, pos) && Knows(t, a)
    ensures var id := t.byAddr[a.host];
      && id in t'.info && t'.info[id].lastSuccess == time && t'.info[id].lastTry == time && t'.info[id].time == time
      && t'.info[id].attempts == 0 && t'.info[id].service == t.info[id].service && t'.info[id].services == t.info[id].services
  {
    hide OkWith, IsSelection, Refs, Without;
  }

  lemma HostKept(secret: Secret, t: Table, id: int)
    requires Ok(secret, t) && id in t.info
    ensures t.info[id].service.host in t.byAddr && t.byAddr[t.info[id].service.host] == id
  {
  }

  lemma NewIsNowhere(secret: Secret, t: Table, b: nat)
    requires Ok(secret, t) && b < 256
    ensures |t.news| == 256 && t.idCount !in t.info && t.idCount !in t.news[b]
  {
  }

  lemma UnrefKeepsOther(t: Table, b: nat, victim: int, id: int)
    requires b < |t.news| && CanUnref(t, victim) && id in t.info && id != victim
    ensures var t' := Unref(t, b, victim); id in t'.info && t'.info[id] == t.info[id].(randomPos := t'.info[id].randomPos)
  {
  }

  /** An evicted entry goes back to the bucket for the source it came from, or to origin if that is full. */
  function BackTo(secret: Secret, t: Table, out: int, id: int, origin: nat): nat
    requires out in t.info && |t.news| == 256
  {
    var home := NewBucket(secret, t.info[out].service, t.info[out].source);
    if |t.news[home] - {id}| < 64 then home else origin
  }

  /** With room in its tried bucket, the entry is the last one there, and in no new bucket. */
  lemma PromotedWithRoom(secret: Secret, t: Table, id: int, origin: nat, shuffled: seq<int>, pos: nat)
    requires CanPromote(secret, t, id, origin, shuffled, pos)
    requires |t.tried[TriedBucket(secret, t.info[id].service)]| < 64
    ensures var t', b := Promoted(secret, t, id, origin, shuffled, pos), TriedBucket(secret, t.info[id].service);
      && t'.tried == t.tried[b := t.tried[b] + [id]] && t'.info[id].inTried
      && |t'.news| == |t.news| && forall c | 0 <= c < |t.news| :: t'.news[c] == t.news[c] - {id}
  {
    hide Refs, Without;
  }

  /**
   * In a full tried bucket it takes the place of the selected entry, which returns to the new table, into the bucket for
   * the source it came from if there is room.
   */
  lemma PromotedEvicting(secret: Secret, t: Table, id: int, origin: nat, shuffled: seq<int>, pos: nat)
    requires Ok(secret, t) && CanPromote(secret, t, id, origin, shuffled, pos)
    requires |t.tried[TriedBucket(secret, t.info[id].service)]| >= 64
    ensures var t', b, out := Promoted(secret, t, id, origin, shuffled, pos), TriedBucket(secret, t.info[id].service), shuffled[pos];
      && t'.tried == t.tried[b := shuffled[pos := id]] && out != id && out !in t'.tried[b]
      && t'.info[id].inTried && !t'.info[out].inTried && t'.info[out].refCount == 1 && |t'.news| == |t.news|
      && forall c | 0 <= c < |t.news| ::
           t'.news[c] == if c == BackTo(secret, t, out, id, origin) then t.news[c] - {id} + {out} else t.news[c] - {id}
  {
    var b := TriedBucket(secret, t.info[id].service);
    OutOnce(secret, t, b, id, shuffled, pos);
    hide Refs, Without, OkWith, IsSelection;
  }

  lemma OutOnce(secret: Secret, t: Table, b: nat, id: int, shuffled: seq<int>, pos: nat)
    requires Ok(secret, t) && b < |t.tried| && IsSelection(t.info, t.tried[b], shuffled, pos) && pos < |shuffled|
    requires id in t.info && !t.info[id].inTried && shuffled[pos] in t.info && t.info[shuffled[pos]].inTried
    ensures shuffled[pos] != id && shuffled[pos] !in shuffled[pos := id]
  {
    NoRepeatsIn(secret, t, b);
    SelectionShuffles(t.info, t.tried[b], shuffled, pos);
    ShuffleFacts(t.tried[b], shuffled);
  }

  lemma NoRepeatsIn(secret: Secret, t: Table, b: nat)
    requires Ok(secret, t) && b < 64
    ensures |t.tried| == 64 && NoRepeats(t.tried[b])
  {
  }

  // How far one group reaches

  /** The new buckets that the sources of one group can fill. */
  function FilledFrom(secret: Secret, group: int, n: nat): (r: set<nat>)
    ensures |r| <= n
  {
    if n == 0 then {} else FilledFrom(secret, group, n - 1) + {secret.newHash(group, n - 1) % 256}
  }

  lemma {:induction false} FilledFromHas(secret: Secret, group: int, n: nat, k: nat)
    requires k < n
    ensures secret.newHash(group, k) % 256 in FilledFrom(secret, group, n)
  {
    if k < n - 1 {
      FilledFromHas(secret, group, n - 1, k);
    }
  }

  /**
   * Sources of one group fill at most 32 of the 256 new buckets, whatever addresses they send; which one of them an address
   * goes to depends on its own group only, and the hash decides between all of them.
   */
  lemma SourceBound(secret: Secret, a: Service, b: Service, src: NetAddr, k: nat)
    ensures |FilledFrom(secret, secret.group(src), 32)| <= 32
    ensures NewBucket(secret, a, src) in FilledFrom(secret, secret.group(src), 32)
    ensures secret.group(a.host) == secret.group(b.host) ==> NewBucket(secret, a, src) == NewBucket(secret, b, src)
    ensures k < 32 ==> NewBucket(secret.(pairHash := (x, y) => k), a, src) == secret.newHash(secret.group(src), k) % 256
  {
    FilledFromHas(secret, secret.group(src), 32, secret.pairHash(secret.group(a.host), secret.group(src)) % 32);
  }
}
