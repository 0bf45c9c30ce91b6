/** The short-lived write cache over an informer's lister (pkg/store/store.go). */
module CacheLayer {
  import opened Common

  datatype Key = Key(namespace: string, name: string)

  /** `created` is 0 for the zero time; `version` is 0 when the resource version is empty or no number. */
  datatype Object = Object(key: Key, created: nat, version: int, body: string)

  datatype Cached = Cached(obj: Object, existing: bool, deadline: int)

  type Lister = map<Key, Object>
  type Cache = map<Key, Cached>

  // ---------- What a read returns ----------

  predicate Expired(co: Cached, now: int) {
    now > co.deadline
  }

  function CreatedOf(o: Option<Object>): nat {
    if o.Some? then o.value.created else 0
  }

  function VersionOf(o: Option<Object>): int {
    if o.Some? then o.value.version else 0
  }

  /** An unexpired entry that is strictly newer than the lister's object in both respects. */
  predicate Wins(co: Cached, current: Option<Object>, now: int) {
    !Expired(co, now) && CreatedOf(current) < co.obj.created && VersionOf(current) < co.obj.version
  }

  /** An unexpired entry that does not win is dropped when it is looked at. */
  predicate Dropped(co: Cached, current: Option<Object>, now: int) {
    !Expired(co, now) && !Wins(co, current, now)
  }

  function Selected(current: Option<Object>, co: Cached, now: int): Option<Object> {
    if Wins(co, current, now) then (if co.existing then Some(co.obj) else None) else current
  }

  /** What Get finds under a key. */
  function Seen(lister: Lister, cache: Cache, k: Key, now: int): Option<Object> {
    if k in cache then Selected(Lookup(lister, k), cache[k], now) else Lookup(lister, k)
  }

  function AfterGet(lister: Lister, cache: Cache, k: Key, now: int): Cache {
    if k in cache && Dropped(cache[k], Lookup(lister, k), now) then cache - {k} else cache
  }

  /** Entries are filed under the keys of their objects. */
  ghost predicate Filed(cache: Cache) {
    forall k | k in cache :: cache[k].obj.key == k
  }

  ghost predicate FiledLister(lister: Lister) {
    forall k | k in lister :: lister[k].key == k
  }

  // ---------- Listings ----------

  /** None lists all namespaces. */
  predicate InScope(scope: Option<string>, k: Key) {
    scope.None? || k.namespace == scope.value
  }

  function Scoped(cache: Cache, scope: Option<string>): Cache {
    map k | k in cache && InScope(scope, k) :: cache[k]
  }

  ghost predicate UniqueKeys(objs: seq<Object>) {
    forall i, j | 0 <= i < j < |objs| :: objs[i].key != objs[j].key
  }

  /** The lister's answer: its objects in scope, each key once. */
  ghost predicate Lists(objs: seq<Object>, lister: Lister, scope: Option<string>) {
    && UniqueKeys(objs)
    && forall o :: o in objs <==> o.key in lister && lister[o.key] == o && InScope(scope, o.key)
  }

  /** The cache's answer: one object for each cached key on which Get finds something, the same one. */
  ghost predicate ListsCached(objs: seq<Object>, lister: Lister, cache: Cache, scope: Option<string>, now: int) {
    && UniqueKeys(objs)
    && forall o :: o in objs <==> o.key in Scoped(cache, scope) && Seen(lister, cache, o.key, now) == Some(o)
  }

  function AfterList(lister: Lister, cache: Cache, scope: Option<string>, now: int): Cache {
    map k | k in cache && !(InScope(scope, k) && Dropped(cache[k], Lookup(lister, k), now)) :: cache[k]
  }

  class Layer {
    var cache: Cache
    const ttl: int

    constructor (ttl: int)
      ensures cache == map[] && this.ttl == ttl && Valid()
    {
      cache := map[];
      this.ttl := ttl;
    }

    ghost predicate Valid()
      reads this
    {
      Filed(cache)
    }

    /** Created and Updated record with existing set, Deleted without. */
    method Add(o: Object, existing: bool, now: int)
      requires Valid()
      modifies this`cache
      ensures Valid() && cache == old(cache)[o.key := Cached(o, existing, now + ttl)]
    {
      cache := cache[o.key := Cached(o, existing, now + ttl)];
    }

    method Remove(o: Object)
      requires Valid()
      modifies this`cache
      ensures Valid() && cache == old(cache) - {o.key}
    {
      if o.key in cache {
        cache := cache - {o.key};
      }
    }

    /** selectObject, with its side effect on the cache. */
    method SelectObject(current: Option<Object>, co: Cached, now: int) returns (r: Option<Object>)
      requires Valid()
      modifies this`cache
      ensures Valid() && r == Selected(current, co, now)
      ensures cache == if Dropped(co, current, now) then old(cache) - {co.obj.key} else old(cache)
    {
      if now > co.deadline {
        return current;
      }
      var created, version := 0, 0;
      if current.Some? {
        created, version := current.value.created, current.value.version;
      }
      if !(created < co.obj.created) || version >= co.obj.version {
        Remove(co.obj);
        return current;
      }
      return if co.existing then Some(co.obj) else None;
    }

    method Get(k: Key, lister: Lister, now: int) returns (r: Option<Object>)
      requires Valid()
      modifies this`cache
      ensures Valid() && r == Seen(lister, old(cache), k, now)
      ensures cache == AfterGet(lister, old(cache), k, now)
    {
      var current := Lookup(lister, k);
      if k !in cache {
        return current;
      }
      r := SelectObject(current, cache[k], now);
    }

    /**
     listBySelector. A selector that matches everything lists the cached keys only, as Get sees
     them, once anything is cached in scope. Any other selector needs labels, which cached entries
     do not expose: listing the cache fails, and the lister's answer is returned as it is.
     */
    method List(matchesAll: bool, scope: Option<string>, listed: seq<Object>, ghost lister: Lister, now: int)
      returns (objs: seq<Object>)
      requires Valid() && FiledLister(lister) && Lists(listed, lister, scope)
      modifies this`cache
      ensures Valid()
      ensures Scoped(old(cache), scope) == map[] || !matchesAll ==> objs == listed && cache == old(cache)
      ensures Scoped(old(cache), scope) != map[] && matchesAll ==>
                && ListsCached(objs, lister, old(cache), scope, now)
                && cache == AfterList(lister, old(cache), scope, now)
    {
      var cached := Scoped(cache, scope);
      if cached == map[] || !matchesAll {
        return listed;
      }
      var results := new Object[|listed|](i requires 0 <= i < |listed| => listed[i]);
      assert results[..] == listed;
      var objs0, rest := MergeListed(results, cached, scope, lister, now);
      objs := MergeRest(objs0, rest, listed, cached, scope, lister, old(cache), now);
      MergedIsListing(objs, cache, lister, old(cache), scope, now);
    }

    /** The loop over the lister's objects, which overwrites them in place and shrinks the map of cached ones. */
    method MergeListed(results: array<Object>, cached: Cache, scope: Option<string>, ghost lister: Lister, now: int)
      returns (objs: seq<Object>, rest: Cache)
      requires Valid() && FiledLister(lister) && Lists(results[..], lister, scope) && cached == Scoped(cache, scope)
      modifies this`cache, results
      ensures Valid() && rest == cached - KeysOf(old(results[..]))
      ensures Merged(objs, cache, lister, old(cache), cached.Keys * KeysOf(old(results[..])), now)
    {
      ghost var listed, before := results[..], cache;
      ghost var done: set<Key> := {};
      rest := cached;
      var count := 0;
      MetNone(cached, listed);
      for i := 0 to results.Length
        invariant Valid() && 0 <= count <= i && results[i..] == listed[i..]
        invariant Met(cached, listed, i, done, rest)
        invariant Merged(results[..count], cache, lister, before, done, now)
      {
        var current := results[i];
        assert current == listed[i] && results[i + 1..] == listed[i + 1..];
        var k := current.key;
        MetOneMore(cached, listed, i, done, rest, scope, lister, before);
        if k in rest {
          count := MergeOne(results, i, count, rest[k], lister, before, done, now);
          rest, done := rest - {k}, done + {k};
        }
      }
      assert listed[..|listed|] == listed;
      objs := results[..count];
    }

    /** One object of the lister with a cached twin. */
    method MergeOne(results: array<Object>, i: nat, count: nat, twin: Cached, ghost lister: Lister, ghost before: Cache,
                    ghost done: set<Key>, now: int) returns (next: nat)
      requires Valid() && FiledLister(lister) && Filed(before) && count <= i < results.Length
      requires var k := results[i].key;
               Lookup(lister, k) == Some(results[i]) && Lookup(before, k) == Some(twin) && k !in done
      requires Merged(results[..count], cache, lister, before, done, now)
      modifies this`cache, results
      ensures Valid() && count <= next <= i + 1
      ensures results[i + 1..] == old(results[i + 1..])
      ensures Merged(results[..next], cache, lister, before, done + {old(results[i]).key}, now)
    {
      ghost var kept := results[..count];
      MergedOneMore(kept, cache, lister, before, done, now, results[i].key);
      var chosen := SelectObject(Some(results[i]), twin, now);
      next := count;
      if chosen.Some? {
        results[count] := chosen.value;
        next := count + 1;
        assert results[..next] == kept + [chosen.value];
      } else {
        assert results[..next] == kept + [];
      }
    }

    /** The loop over the cached objects that the lister did not show. */
    method MergeRest(merged: seq<Object>, unlisted: Cache, ghost listed: seq<Object>, ghost cached: Cache,
                     ghost scope: Option<string>, ghost lister: Lister, ghost before: Cache, now: int)
      returns (objs: seq<Object>)
      requires Valid() && FiledLister(lister) && Lists(listed, lister, scope)
      requires Filed(before) && cached == Scoped(before, scope) && unlisted == cached - KeysOf(listed)
      requires Merged(merged, cache, lister, before, cached.Keys * KeysOf(listed), now)
      modifies this`cache
      ensures Valid() && Merged(objs, cache, lister, before, cached.Keys, now)
    {
      objs := merged;
      var rest := unlisted;
      ghost var done := cached.Keys * KeysOf(listed);
      while rest != map[]
        invariant Valid() && LeftOver(cached, unlisted, done, rest)
        invariant Merged(objs, cache, lister, before, done, now)
        decreases rest.Keys
      {
        var k := AnyKey(rest);
        LeftOverOneLess(cached, unlisted, done, rest, k);
        UnlistedIsAbsent(listed, lister, scope, k);
        MergedOneMore(objs, cache, lister, before, done, now, k);
        var chosen := SelectObject(None, rest[k], now);
        objs := objs + if chosen.Some? then [chosen.value] else [];
        rest := rest - {k};
        done := done + {k};
      }
      NothingLeftOver(cached, unlisted, done, rest);
    }
  }

  /** Of the cached keys some are dealt with; the rest are left as they were, all of them unlisted. */
  ghost predicate LeftOver(cached: Cache, unlisted: Cache, done: set<Key>, rest: Cache) {
    && done <= cached.Keys && rest == cached - done && rest.Keys <= unlisted.Keys
  }

  lemma LeftOverOneLess(cached: Cache, unlisted: Cache, done: set<Key>, rest: Cache, k: Key)
    requires LeftOver(cached, unlisted, done, rest) && k in rest
    ensures LeftOver(cached, unlisted, done + {k}, rest - {k})
    ensures k !in done && k in cached && k in unlisted && rest[k] == cached[k]
  {
    SameMaps(rest - {k}, cached - (done + {k}));
  }

  lemma NothingLeftOver(cached: Cache, unlisted: Cache, done: set<Key>, rest: Cache)
    requires LeftOver(cached, unlisted, done, rest) && rest == map[]
    ensures done == cached.Keys
  {
    forall k | k in cached ensures k in done {
      assert k !in rest;
    }
  }

  method AnyKey(cache: Cache) returns (k: Key)
    requires cache != map[]
    ensures k in cache
  {
    k :| k in cache;
  }

  function KeysOf(objs: seq<Object>): set<Key> {
    set o | o in objs :: o.key
  }

  lemma KeysOfOneMore(objs: seq<Object>, i: nat)
    requires i < |objs| && UniqueKeys(objs)
    ensures KeysOf(objs[..i + 1]) == KeysOf(objs[..i]) + {objs[i].key} && objs[i].key !in KeysOf(objs[..i])
  {
    assert objs[..i + 1] == objs[..i] + [objs[i]];
  }

  /** After i listed objects these cached keys are met, and those are left. */
  ghost predicate Met(cached: Cache, listed: seq<Object>, i: nat, done: set<Key>, rest: Cache) {
    && i <= |listed| && done == cached.Keys * KeysOf(listed[..i]) && rest == cached - KeysOf(listed[..i])
  }

  lemma MetNone(cached: Cache, listed: seq<Object>)
    ensures Met(cached, listed, 0, {}, cached)
  {
    assert KeysOf(listed[..0]) == {};
  }

  lemma MetOneMore(cached: Cache, listed: seq<Object>, i: nat, done: set<Key>, rest: Cache, scope: Option<string>,
                   lister: Lister, before: Cache)
    requires i < |listed| && Lists(listed, lister, scope) && FiledLister(lister) && cached == Scoped(before, scope)
    requires Met(cached, listed, i, done, rest)
    ensures var k := listed[i].key;
            && Lookup(lister, k) == Some(listed[i]) && k !in done
            && (k in rest ==> Lookup(before, k) == Some(rest[k])
                              && Met(cached, listed, i + 1, done + {k}, rest - {k}))
            && (k !in rest ==> Met(cached, listed, i + 1, done, rest))
  {
    var k, met := listed[i].key, KeysOf(listed[..i]);
    KeysOfOneMore(listed, i);
    assert listed[i] in listed;
    assert cached - KeysOf(listed[..i + 1]) == rest - {k};
    if k in rest {
      assert cached.Keys * KeysOf(listed[..i + 1]) == done + {k};
    } else {
      assert k !in cached && cached.Keys * KeysOf(listed[..i + 1]) == done;
      SameMaps(rest - {k}, rest);
    }
  }

  lemma UnlistedIsAbsent(listed: seq<Object>, lister: Lister, scope: Option<string>, k: Key)
    requires Lists(listed, lister, scope) && FiledLister(lister) && InScope(scope, k)
    ensures k in lister ==> k in KeysOf(listed)
  {
    if k in lister {
      assert lister[k].key == k;
      assert lister[k] in listed;
    }
  }

  /** The in-place merge after dealing with some cached keys: what it kept and what it dropped. */
  ghost predicate Merged(objs: seq<Object>, cacheNow: Cache, lister: Lister, before: Cache, done: set<Key>, now: int) {
    && UniqueKeys(objs)
    && (forall o :: o in objs <==> o.key in done && Seen(lister, before, o.key, now) == Some(o))
    && cacheNow == Left(before, lister, done, now)
  }

  function Left(before: Cache, lister: Lister, done: set<Key>, now: int): Cache {
    map k | k in before && !(k in done && Dropped(before[k], Lookup(lister, k), now)) :: before[k]
  }

  lemma MergedIsListing(objs: seq<Object>, cacheNow: Cache, lister: Lister, before: Cache,
                        scope: Option<string>, now: int)
    requires Merged(objs, cacheNow, lister, before, Scoped(before, scope).Keys, now)
    ensures ListsCached(objs, lister, before, scope, now) && cacheNow == AfterList(lister, before, scope, now)
  {
  }

  lemma MergedOneMore(objs: seq<Object>, cacheNow: Cache, lister: Lister, before: Cache, done: set<Key>,
                      now: int, k: Key)
    requires Merged(objs, cacheNow, lister, before, done, now) && Filed(before) && FiledLister(lister)
    requires k in before && k !in done
    ensures var chosen := Seen(lister, before, k, now);
            Merged(objs + (if chosen.Some? then [chosen.value] else []),
              if Dropped(before[k], Lookup(lister, k), now) then cacheNow - {k} else cacheNow,
              lister, before, done + {k}, now)
  {
    var chosen := Seen(lister, before, k, now);
    if chosen.Some? {
      assert chosen.value.key == k;
      assert forall j | 0 <= j < |objs| :: objs[j] in objs;
    }
  }

  // ---------- Properties of reads ----------

  /** A read returns the lister's view or an unexpired cached object that is strictly newer in both respects. */
  lemma GetIsListerOrNewer(lister: Lister, cache: Cache, k: Key, now: int)
    ensures var r := Seen(lister, cache, k, now);
            || r == Lookup(lister, k)
            || (k in cache && Wins(cache[k], Lookup(lister, k), now)
                && r == if cache[k].existing then Some(cache[k].obj) else None)
    ensures k in cache && Wins(cache[k], Lookup(lister, k), now) && cache[k].existing ==>
              Seen(lister, cache, k, now) == Some(cache[k].obj)
  {
  }

  /** A record of the same incarnation, be it an update or a deletion, yields to any copy the lister has. */
  lemma SameIncarnationYields(lister: Lister, cache: Cache, k: Key, now: int)
    requires k in cache && k in lister && lister[k].created == cache[k].obj.created
    ensures Seen(lister, cache, k, now) == Some(lister[k])
    ensures !Expired(cache[k], now) ==> AfterGet(lister, cache, k, now) == cache - {k}
  {
  }

  /** A record without timestamp or version, as the release storage makes for histories, never shows. */
  lemma LocalRecordNeverShows(lister: Lister, cache: Cache, k: Key, now: int)
    requires k in cache && (cache[k].obj.created == 0 || cache[k].obj.version <= 0)
    requires forall o | o in lister.Values :: o.version >= 0
    ensures Seen(lister, cache, k, now) == Lookup(lister, k)
  {
  }

  // ---------- Runs ----------

  datatype State = State(cache: Cache, lister: Lister, now: int)

  datatype Action =
    | Write(o: Object, existing: bool)
    | Read(k: Key)
    | ReadAll(scope: Option<string>)
    | Advance(lister: Lister)
    | Tick(seconds: nat)

  function Next(s: State, a: Action, ttl: int): State {
    match a
    case Write(o, existing) => s.(cache := s.cache[o.key := Cached(o, existing, s.now + ttl)])
    case Read(k) => s.(cache := AfterGet(s.lister, s.cache, k, s.now))
    case ReadAll(scope) => s.(cache := AfterList(s.lister, s.cache, scope, s.now))
    case Advance(lister) => s.(lister := lister)
    case Tick(seconds) => s.(now := s.now + seconds)
  }

  ghost predicate IsRun(trace: seq<State>, actions: seq<Action>, ttl: int) {
    |trace| == |actions| + 1 && forall i | 0 <= i < |actions| :: trace[i + 1] == Next(trace[i], actions[i], ttl)
  }

  predicate Writes(a: Action, k: Key) {
    a.Write? && a.o.key == k
  }

  function SeenIn(s: State, k: Key): Option<Object> {
    Seen(s.lister, s.cache, k, s.now)
  }

  /** The lister shows nothing under the key, or something older in both respects. */
  predicate ShowsOlder(s: State, o: Object) {
    o.key in s.lister ==> s.lister[o.key].created < o.created && s.lister[o.key].version < o.version
  }

  lemma {:induction false} RecordStays(trace: seq<State>, actions: seq<Action>, ttl: int, i: nat, j: nat)
    requires IsRun(trace, actions, ttl) && i < j < |trace| && actions[i].Write?
    requires actions[i].o.created > 0 && actions[i].o.version > 0
    requires forall t | i < t < j :: !Writes(actions[t], actions[i].o.key)
    requires forall t | i < t <= j :: ShowsOlder(trace[t], actions[i].o)
    requires trace[j].now <= trace[i].now + ttl
    ensures trace[i].now <= trace[j].now
    ensures actions[i].o.key in trace[j].cache
    ensures trace[j].cache[actions[i].o.key] == Cached(actions[i].o, actions[i].existing, trace[i].now + ttl)
    decreases j - i
  {
    if i + 1 < j {
      assert trace[j - 1].now <= trace[j].now;
      RecordStays(trace, actions, ttl, i, j - 1);
    }
  }

  /**
   Read your writes: a creation recorded with a timestamp and a positive version is read back
   until it expires, is overwritten, or the lister shows something not older in one respect; a
   recorded deletion hides the key for as long.
   */
  lemma RecordIsReadBack(trace: seq<State>, actions: seq<Action>, ttl: int, i: nat, j: nat)
    requires IsRun(trace, actions, ttl) && i < j < |trace| && actions[i].Write?
    requires actions[i].o.created > 0 && actions[i].o.version > 0
    requires forall t | i < t < j :: !Writes(actions[t], actions[i].o.key)
    requires forall t | i < t <= j :: ShowsOlder(trace[t], actions[i].o)
    requires trace[j].now <= trace[i].now + ttl
    ensures SeenIn(trace[j], actions[i].o.key) == if actions[i].existing then Some(actions[i].o) else None
  {
    RecordStays(trace, actions, ttl, i, j);
    assert ShowsOlder(trace[j], actions[i].o);
  }

  /** Once a key is not cached, it follows the lister until it is written again. */
  lemma {:induction false} EvictedKeyFollowsLister(trace: seq<State>, actions: seq<Action>, ttl: int, i: nat,
                                                   j: nat, k: Key)
    requires IsRun(trace, actions, ttl) && i <= j < |trace| && k !in trace[i].cache
    requires forall t | i <= t < j :: !Writes(actions[t], k)
    ensures k !in trace[j].cache && SeenIn(trace[j], k) == Lookup(trace[j].lister, k)
    decreases j - i
  {
    if i < j {
      EvictedKeyFollowsLister(trace, actions, ttl, i, j - 1, k);
    }
  }

  /** An expired record never shows again, whatever is read or listed. */
  lemma {:induction false} ExpiredRecordIsDead(trace: seq<State>, actions: seq<Action>, ttl: int, i: nat,
                                               j: nat, k: Key)
    requires IsRun(trace, actions, ttl) && i <= j < |trace|
    requires k in trace[i].cache && Expired(trace[i].cache[k], trace[i].now)
    requires forall t | i <= t < j :: !Writes(actions[t], k)
    ensures trace[i].now <= trace[j].now && (k in trace[j].cache ==> trace[j].cache[k] == trace[i].cache[k])
    ensures SeenIn(trace[j], k) == Lookup(trace[j].lister, k)
    decreases j - i
  {
    if i < j {
      ExpiredRecordIsDead(trace, actions, ttl, i, j - 1, k);
    }
  }

  /** A record never shows once its time to live is over, however often it is read or listed. */
  lemma RecordExpires(trace: seq<State>, actions: seq<Action>, ttl: int, i: nat, j: nat)
    requires IsRun(trace, actions, ttl) && i < j < |trace| && actions[i].Write?
    requires forall t | i < t < j :: !Writes(actions[t], actions[i].o.key)
    requires trace[j].now > trace[i].now + ttl
    ensures SeenIn(trace[j], actions[i].o.key) == Lookup(trace[j].lister, actions[i].o.key)
  {
    RecordOrNone(trace, actions, ttl, i, j);
  }

  lemma {:induction false} RecordOrNone(trace: seq<State>, actions: seq<Action>, ttl: int, i: nat, j: nat)
    requires IsRun(trace, actions, ttl) && i < j < |trace| && actions[i].Write?
    requires forall t | i < t < j :: !Writes(actions[t], actions[i].o.key)
    ensures var k := actions[i].o.key;
            k in trace[j].cache ==>
              trace[j].cache[k] == Cached(actions[i].o, actions[i].existing, trace[i].now + ttl)
    decreases j - i
  {
    if i + 1 < j {
      RecordOrNone(trace, actions, ttl, i, j - 1);
    }
  }

  /** The lister has a copy that is not older than what is cached, in one respect at least. */
  predicate Overtaken(s: State, k: Key) {
    && k in s.cache && k in s.lister
    && (s.lister[k].created >= s.cache[k].obj.created || s.lister[k].version >= s.cache[k].obj.version)
  }

  predicate Reads(a: Action, k: Key) {
    a == Read(k) || (a.ReadAll? && InScope(a.scope, k))
  }

  /**
   A record that was read, or listed, while the lister had overtaken it is done with: from then on
   the key follows the lister, also after that copy has gone, until it is written again. The record
   need not be of the incarnation that the lister has.
   */
  lemma OvertakenRecordIsGone(trace: seq<State>, actions: seq<Action>, ttl: int, i: nat, j: nat, k: Key)
    requires IsRun(trace, actions, ttl) && i < j < |trace| && Overtaken(trace[i], k) && Reads(actions[i], k)
    requires forall t | i <= t < j :: !Writes(actions[t], k)
    ensures SeenIn(trace[i], k) == Lookup(trace[i].lister, k)
    ensures SeenIn(trace[j], k) == Lookup(trace[j].lister, k)
  {
    if Expired(trace[i].cache[k], trace[i].now) {
      ExpiredRecordIsDead(trace, actions, ttl, i, j, k);
    } else {
      EvictedKeyFollowsLister(trace, actions, ttl, i + 1, j, k);
    }
  }

  // ---------- Listings against reads ----------

  /** A listing shows everything that single reads show. */
  ghost predicate Complete(objs: seq<Object>, lister: Lister, cache: Cache, scope: Option<string>, now: int) {
    forall k | InScope(scope, k) && Seen(lister, cache, k, now).Some? :: Seen(lister, cache, k, now).value in objs
  }

  /**
   The merged listing is the union that one would expect exactly when every object of the lister
   has a cached twin; any other object of the lister is dropped.
   */
  lemma MergedListingIsCompleteIff(objs: seq<Object>, lister: Lister, cache: Cache, scope: Option<string>, now: int)
    requires ListsCached(objs, lister, cache, scope, now) && FiledLister(lister) && Filed(cache)
    ensures Complete(objs, lister, cache, scope, now) <==> forall k | k in lister && InScope(scope, k) :: k in cache
  {
    if k: Key :| k in lister && InScope(scope, k) && k !in cache {
      assert Seen(lister, cache, k, now) == Some(lister[k]);
      assert lister[k] !in objs;
    }
    forall k | InScope(scope, k) && Seen(lister, cache, k, now).Some? && k in cache
      ensures Seen(lister, cache, k, now).value in objs
    {
      assert Seen(lister, cache, k, now).value.key == k;
    }
  }
}
