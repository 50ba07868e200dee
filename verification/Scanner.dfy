/**
  The discovery scanner of `src/scanner.rs`: the cache with expiry and the de-duplicating result stream.
  Times are milliseconds.
 */
module Scanner {
  import opened Bytes
  import opened Payloads

  const GLOBAL_SCAN_COOLDOWN := 1_800_000
  const SCAN_THROTTLE_INTERVAL := 60_000
  const CACHE_TTL := 86_400_000

  datatype Found = Found(id: string, ip: string, version: Option<Version>, productKey: Option<string>, at: nat)

  type Cache = map<string, Found>

  function Elapsed(now: nat, at: nat): nat {
    if at <= now then now - at else 0
  }

  /** No scan is known, or the last known one is at least `gap` back. */
  predicate Waited(now: nat, last: Option<nat>, gap: nat) {
    last == None || Elapsed(now, last.value) >= gap
  }

  function Gap(force: bool): nat {
    if force then 0 else SCAN_THROTTLE_INTERVAL
  }

  /** Every entry is stored under its own id. */
  ghost predicate OwnIds(cache: Cache) {
    forall k | k in cache :: cache[k].id == k
  }

  // ---------------------------------------------------------------- the cache

  /** A packet parsed as `found` is handled at time `now`; or a caller invalidates an entry. */
  datatype CacheEvent = Hear(found: Found, now: nat) | Forget(id: string)

  function Unexpired(cache: Cache, now: nat): Cache {
    map k | k in cache && Elapsed(now, cache[k].at) < CACHE_TTL :: cache[k]
  }

  function Apply(cache: Cache, e: CacheEvent): Cache {
    match e
    case Hear(found, now) => Unexpired(cache, now)[found.id := found]
    case Forget(id) => cache - {id}
  }

  function CacheAfter(history: seq<CacheEvent>): Cache {
    if history == [] then map[] else Apply(CacheAfter(history[..|history| - 1]), history[|history| - 1])
  }

  /** The event replaces or removes what is known about `k`. */
  predicate Concerns(e: CacheEvent, k: string) {
    match e
    case Hear(found, _) => found.id == k
    case Forget(id) => id == k
  }

  /** The event leaves `f` in place: it is about another device, and if it is a packet it comes before `f` expires. */
  predicate Spares(e: CacheEvent, f: Found) {
    !Concerns(e, f.id) && (e.Hear? ==> e.now < f.at + 86_400_000)
  }

  /** `f` was heard at position `i` and nothing since then displaced it. */
  predicate RememberedSince(history: seq<CacheEvent>, f: Found, i: int) {
    0 <= i < |history| && history[i].Hear? && history[i].found == f && forall j | i < j < |history| ::
        Spares(history[j], f)
  }

  lemma RememberedStep(history: seq<CacheEvent>, e: CacheEvent, f: Found)
    ensures (exists i :: RememberedSince(history + [e], f, i))
            <==> ((e.Hear? && e.found == f) || (Spares(e, f) && exists i :: RememberedSince(history, f, i)))
  {
    var longer := history + [e];
    if e.Hear? && e.found == f {
      assert RememberedSince(longer, f, |history|);
    } else {
      forall i ensures RememberedSince(longer, f, i) <==> RememberedSince(history, f, i) && Spares(e, f) {
        if 0 <= i < |history| {
          assert longer[|history|] == e;
          assert forall j | i < j < |history| :: longer[j] == history[j];
        } else if i == |history| {
          assert longer[i] == e;
        }
      }
      if exists i :: RememberedSince(history, f, i) && Spares(e, f) {
        var i :| RememberedSince(history, f, i) && Spares(e, f);
        assert RememberedSince(longer, f, i);
      }
    }
  }

  /**
    The cache over any history of packets and invalidations holds exactly, under its own id, the last thing heard of
    each device that was not invalidated since and had not expired by any later packet.
   */
  lemma {:induction false} CacheIsTheLatestWord(history: seq<CacheEvent>, k: string, f: Found)
    ensures k in CacheAfter(history) && CacheAfter(history)[k] == f
            <==> f.id == k && exists i :: RememberedSince(history, f, i)
    decreases |history|
  {
    if history != [] {
      var before, e := history[..|history| - 1], history[|history| - 1];
      assert history == before + [e];
      RememberedStep(before, e, f);
      CacheIsTheLatestWord(before, k, f);
      match e
      case Hear(found, _) =>
        if found.id == k {
          assert CacheAfter(history)[k] == found;
        }
      case Forget(_) =>
    }
  }

  lemma CacheOwnsItsIds(history: seq<CacheEvent>)
    ensures OwnIds(CacheAfter(history))
  {
    forall k | k in CacheAfter(history) ensures CacheAfter(history)[k].id == k {
      CacheIsTheLatestWord(history, k, CacheAfter(history)[k]);
    }
  }

  /** The shared scanner state that the passive listener and the callers update. */
  class ScannerState {
    var cache: Cache
    var activeScanning: bool
    var lastScanTime: Option<nat>

    /** Nothing heard and nothing scanned yet. */
    constructor ()
      ensures cache == CacheAfter([]) && !activeScanning && lastScanTime == None
    {
      cache := map[];
      activeScanning := false;
      lastScanTime := None;
    }

    /** The passive listener: drop what has expired, then store the device under its id. */
    method OnPacket(found: Found, now: nat)
      modifies this`cache
      ensures cache == Apply(old(cache), Hear(found, now))
      ensures found.id in cache && cache[found.id] == found
      ensures forall k | k != found.id :: k in cache <==> k in old(cache) && now < old(cache)[k].at + 86_400_000
      ensures forall k | k in cache && k != found.id :: cache[k] == old(cache)[k]
    {
      cache := map k | k in cache && Elapsed(now, cache[k].at) < CACHE_TTL :: cache[k];
      cache := cache[found.id := found];
    }

    method InvalidateCache(id: string) returns (removed: bool)
      modifies this`cache
      ensures cache == Apply(old(cache), Forget(id)) && (removed <==> id in old(cache))
    {
      removed := id in cache;
      cache := map k | k in cache && k != id :: cache[k];
    }

    /**
      A cached device is returned without scanning exactly when the call is not forced and either the entry or the last
      scan is younger than the cooldown.
     */
    method CheckCacheAndCooldown(id: string, force: bool, now: nat) returns (r: Option<Found>)
      ensures r.Some? <==> id in cache && !force
                           && (now < cache[id].at + 1_800_000
                               || (lastScanTime.Some? && now < lastScanTime.value + 1_800_000))
      ensures r.Some? ==> r.value == cache[id]
    {
      if id in cache {
        var res := cache[id];
        if !force && Elapsed(now, res.at) < GLOBAL_SCAN_COOLDOWN {
          return Some(res);
        }
      }
      if !force && lastScanTime.Some? && Elapsed(now, lastScanTime.value) < GLOBAL_SCAN_COOLDOWN && id in cache {
        return Some(cache[id]);
      }
      return None;
    }

    /**
      A call that nobody interrupts starts a scan exactly when none runs and the throttle interval has passed or is
      overridden.
     */
    method EnsureScanStarted(force: bool, now: nat) returns (started: bool)
      modifies this`activeScanning, this`lastScanTime
      ensures started <==> !old(activeScanning)
                           && (force || old(lastScanTime).None? || old(lastScanTime).value + 60_000 <= now)
      ensures activeScanning == (old(activeScanning) || started)
      ensures lastScanTime == if started then Some(now) else old(lastScanTime)
    {
      if lastScanTime.Some? && !force && Elapsed(now, lastScanTime.value) < SCAN_THROTTLE_INTERVAL {
        started := false;
      } else {
        var was := activeScanning;
        activeScanning := true;
        started := !was;
      }
      if started {
        lastScanTime := Some(now);
      }
    }
  }

  /**
    One turn of the waiting loop: what the cache has been through when looked at, then the deadline and the flag, and
    what it has been through on giving up.
   */
  datatype Look = Look(history: seq<CacheEvent>, expired: bool, scanning: bool, last: seq<CacheEvent>)

  /** The wait ends at this look. */
  predicate EndsAt(id: string, look: Look) {
    id in CacheAfter(look.history) || look.expired || !look.scanning
  }

  /** The last word on the device at the moment that decides. */
  function LastWord(id: string, look: Look): Option<Found> {
    var cache := if id in CacheAfter(look.history) then CacheAfter(look.history) else CacheAfter(look.last);
    if id in cache then Some(cache[id]) else None
  }

  /**
    `wait_for_cache_result` ends at the first look that finds the device, meets the deadline or finds no scan running;
    it answers with the device asked for, or with nothing if that is not known even then.
   */
  method WaitForCacheResult(id: string, looks: seq<Look>) returns (r: Option<Found>, used: nat)
    ensures used <= |looks| && forall i | 0 <= i < used :: !EndsAt(id, looks[i])
    ensures used < |looks| ==> EndsAt(id, looks[used]) && r == LastWord(id, looks[used])
    ensures r.Some? ==> r.value.id == id
  {
    used := 0;
    while used < |looks|
      invariant used <= |looks| && forall i | 0 <= i < used :: !EndsAt(id, looks[i])
    {
      var look := looks[used];
      var cache := CacheAfter(look.history);
      CacheOwnsItsIds(look.history);
      if id in cache {
        return Some(cache[id]), used;
      }
      if look.expired || !look.scanning {
        var last := CacheAfter(look.last);
        CacheOwnsItsIds(look.last);
        return if id in last then Some(last[id]) else None, used;
      }
      used := used + 1;
    }
    r := None;
  }

  // ---------------------------------------------------------------- the result stream

  predicate DistinctIds(items: seq<Found>) {
    forall i, j | 0 <= i < j < |items| :: items[i].id != items[j].id
  }

  function IdsOf(items: seq<Found>): set<string> {
    set i | 0 <= i < |items| :: items[i].id
  }

  /** `cache.values()` in some order. */
  predicate Lists(cache: Cache, order: seq<string>, items: seq<Found>) {
    && |order| == |items|
    && (forall i | 0 <= i < |order| :: order[i] in cache && items[i] == cache[order[i]])
    && (forall i, j | 0 <= i < j < |order| :: order[i] != order[j])
    && (forall k | k in cache :: k in order)
  }

  /** A listing of a cache that owns its ids names each device once, and names them all. */
  lemma ListingIsDistinct(cache: Cache, order: seq<string>, items: seq<Found>)
    requires OwnIds(cache) && Lists(cache, order, items)
    ensures DistinctIds(items) && IdsOf(items) == cache.Keys
  {
    forall i | 0 <= i < |items| ensures items[i].id == order[i] {
    }
    forall k | k in cache ensures k in IdsOf(items) {
      var i :| 0 <= i < |order| && order[i] == k;
      assert items[i].id == k;
    }
  }

  /**
    The cache as it is listed at some moment: what it has been through, and the order in which it happens to list its
    entries.
   */
  datatype Snapshot = Snapshot(history: seq<CacheEvent>, order: seq<string>, items: seq<Found>)

  /** The items are a listing of the cache at that moment. */
  ghost predicate Listed(s: Snapshot) {
    Lists(CacheAfter(s.history), s.order, s.items)
  }

  /** The devices known at that moment. */
  function Known(s: Snapshot): set<string> {
    CacheAfter(s.history).Keys
  }

  /** Because the cache stores each entry under its own id, a snapshot names each known device once. */
  lemma SnapshotIsDistinct(s: Snapshot)
    requires Listed(s)
    ensures DistinctIds(s.items) && IdsOf(s.items) == Known(s)
  {
    CacheOwnsItsIds(s.history);
    ListingIsDistinct(CacheAfter(s.history), s.order, s.items);
  }

  /** One turn of the stream's loop: the timeout, or a notification with the snapshots read then. */
  datatype Turn = TimedOut | Notified(snapshot: Snapshot, scanning: bool, last: Snapshot)

  lemma IdsOfAppend(items: seq<Found>, f: Found)
    ensures IdsOf(items + [f]) == IdsOf(items) + {f.id}
  {
    var longer := items + [f];
    assert longer[|items|] == f;
    forall x | x in IdsOf(items) ensures x in IdsOf(longer) {
      var i :| 0 <= i < |items| && items[i].id == x;
      assert longer[i].id == x;
    }
  }

  /** The items whose id was not yielded yet. */
  method Unseen(items: seq<Found>, seen: set<string>) returns (r: seq<Found>)
    requires DistinctIds(items)
    ensures DistinctIds(r) && IdsOf(r) == IdsOf(items) - seen
    ensures forall f | f in r :: f in items
  {
    r := [];
    for i := 0 to |items|
      invariant DistinctIds(r) && IdsOf(r) == IdsOf(items[..i]) - seen
      invariant forall f | f in r :: f in items
    {
      assert IdsOf(items[..i + 1]) == IdsOf(items[..i]) + {items[i].id} by {
        IdsOfAppend(items[..i], items[i]);
        assert items[..i + 1] == items[..i] + [items[i]];
      }
      if items[i].id !in seen {
        assert items[i].id !in IdsOf(items[..i]);
        IdsOfAppend(r, items[i]);
        forall j | 0 <= j < |r| ensures r[j].id != items[i].id {
          assert r[j].id in IdsOf(r);
        }
        r := r + [items[i]];
      }
    }
    assert items[..|items|] == items;
  }

  lemma IdsOfConcat(a: seq<Found>, b: seq<Found>)
    ensures IdsOf(a + b) == IdsOf(a) + IdsOf(b)
  {
    var c := a + b;
    forall x | x in IdsOf(a) ensures x in IdsOf(c) {
      var i :| 0 <= i < |a| && a[i].id == x;
      assert c[i].id == x;
    }
    forall x | x in IdsOf(b) ensures x in IdsOf(c) {
      var i :| 0 <= i < |b| && b[i].id == x;
      assert c[|a| + i].id == x;
    }
  }

  lemma DistinctConcat(a: seq<Found>, b: seq<Found>)
    requires DistinctIds(a) && DistinctIds(b) && IdsOf(a) !! IdsOf(b)
    ensures DistinctIds(a + b)
  {
    forall i, j | 0 <= i < j < |a + b| ensures (a + b)[i].id != (a + b)[j].id {
      if i < |a| <= j {
        assert a[i].id in IdsOf(a) && b[j - |a|].id in IdsOf(b);
      }
    }
  }

  /** The items are yielded one by one and their ids remembered. */
  method YieldAll(yielded: seq<Found>, seen: set<string>, items: seq<Found>) returns (now: seq<Found>, ids: set<string>)
    ensures now == yielded + items && ids == seen + IdsOf(items)
  {
    now, ids := yielded, seen;
    for i := 0 to |items|
      invariant now == yielded + items[..i] && ids == seen + IdsOf(items[..i])
    {
      assert items[..i + 1] == items[..i] + [items[i]];
      IdsOfAppend(items[..i], items[i]);
      now := now + [items[i]];
      ids := ids + {items[i].id};
    }
    assert items[..|items|] == items;
  }

  ghost predicate TurnListed(t: Turn) {
    t.Notified? ==> Listed(t.snapshot) && Listed(t.last)
  }

  /** All devices known in a turn have been yielded. */
  ghost predicate Covered(t: Turn, ids: set<string>) {
    t.Notified? ==> Known(t.snapshot) <= ids && (!t.scanning ==> Known(t.last) <= ids)
  }

  /** The device stands in the snapshot read first or in one of these turns. */
  predicate Seen(f: Found, initial: Snapshot, turns: seq<Turn>) {
    f in initial.items || exists i | 0 <= i < |turns| && turns[i].Notified? ::
        f in turns[i].snapshot.items || f in turns[i].last.items
  }

  lemma SeenLater(initial: Snapshot, turns: seq<Turn>, n: nat)
    requires n < |turns| && turns[n].Notified?
    ensures forall f | Seen(f, initial, turns[..n]) :: Seen(f, initial, turns[..n + 1])
    ensures forall f | f in turns[n].snapshot.items || f in turns[n].last.items :: Seen(f, initial, turns[..n + 1])
  {
    var longer := turns[..n + 1];
    assert longer[n] == turns[n];
    forall f | Seen(f, initial, turns[..n]) ensures Seen(f, initial, longer) {
      if f !in initial.items {
        var i :| 0 <= i < n && turns[..n][i].Notified? && (f in turns[..n][i].snapshot.items
            || f in turns[..n][i].last.items);
        assert longer[i] == turns[..n][i];
      }
    }
  }

  /**
    `scan_stream`: whatever happens to the cache, no device is yielded twice; all devices known at every look are
    yielded; and when the stream ends because scanning finished, that includes those known at the very last look.
   */
  method ScanStream(initial: Snapshot, turns: seq<Turn>) returns (yielded: seq<Found>, used: nat, finished: bool)
    requires Listed(initial) && forall i | 0 <= i < |turns| :: TurnListed(turns[i])
    ensures DistinctIds(yielded)
    ensures used <= |turns| && Known(initial) <= IdsOf(yielded)
    ensures forall i | 0 <= i < used :: Covered(turns[i], IdsOf(yielded))
    ensures finished ==> used > 0 && turns[used - 1].Notified? && !turns[used - 1].scanning
    ensures !finished ==> used == |turns| || turns[used] == TimedOut
    ensures forall f | f in yielded :: Seen(f, initial, turns[..used])
  {
    var seen;
    SnapshotIsDistinct(initial);
    yielded, seen := YieldAll([], {}, initial.items);
    assert [] + initial.items == initial.items;
    used := 0;
    finished := false;
    while used < |turns| && turns[used].Notified?
      invariant used <= |turns| && DistinctIds(yielded) && IdsOf(yielded) == seen && Known(initial) <= seen
      invariant forall i | 0 <= i < used :: Covered(turns[i], seen)
      invariant forall f | f in yielded :: Seen(f, initial, turns[..used])
    {
      var turn := turns[used];
      assert TurnListed(turn);
      SnapshotIsDistinct(turn.snapshot);
      SnapshotIsDistinct(turn.last);
      SeenLater(initial, turns, used);
      var news := Unseen(turn.snapshot.items, seen);
      DistinctConcat(yielded, news);
      IdsOfConcat(yielded, news);
      yielded, seen := YieldAll(yielded, seen, news);
      used := used + 1;
      if !turn.scanning {
        var rest := Unseen(turn.last.items, seen);
        DistinctConcat(yielded, rest);
        IdsOfConcat(yielded, rest);
        yielded := yielded + rest;
        finished := true;
        return;
      }
    }
  }
}
