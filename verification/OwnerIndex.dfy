/**
 The collector's index from releases to the objects they own (releaseResources in
 pkg/controller/gc/controller.go), fed by informer events.
 */
module OwnerIndex {
  import opened Common
  import opened Histories
  import opened Cluster

  /** One release and its resources by uid. */
  datatype Entry = Entry(name: string, uid: string, resources: map<Uid, Object>)

  type Index = map<string, Entry>

  /** The release that solely owns an object: exactly one reference, and to a release. */
  function SoleOwner(o: Object): Option<OwnerRef> {
    if |o.owners| == 1 && o.owners[0].apiVersion == API_VERSION && o.owners[0].kind == "Release"
    then Some(o.owners[0]) else None
  }

  predicate SolelyOwnedBy(o: Object, release: string) {
    SoleOwner(o).Some? && SoleOwner(o).value.uid == release
  }

  /** Solely owned means that the one reference is the one that the storage and the client write for a release. */
  lemma SolelyOwnedIff(o: Object, release: string)
    ensures SolelyOwnedBy(o, release) <==> exists name :: o.owners == [ReleaseRef(name, release)]
  {
    if SolelyOwnedBy(o, release) {
      assert o.owners == [ReleaseRef(o.owners[0].name, release)];
    }
  }

  function AfterSet(index: Index, ignored: set<Gvk>, o: Object): Index {
    if o.gvk in ignored || SoleOwner(o).None? then index
    else
      var owner := SoleOwner(o).value;
      var entry := if owner.uid in index then index[owner.uid] else Entry(owner.name, owner.uid, map[]);
      index[owner.uid := entry.(resources := entry.resources[o.uid := o])]
  }

  function AfterRemove(index: Index, o: Object): Index {
    if SoleOwner(o).None? || SoleOwner(o).value.uid !in index then index
    else
      var uid := SoleOwner(o).value.uid;
      var left := index[uid].resources - {o.uid};
      if left == map[] then index - {index[uid].uid} else index[uid := index[uid].(resources := left)]
  }

  /** Entries are filed under their own uid and hold something, under the holders' uids. */
  ghost predicate WellFormed(index: Index) {
    forall r | r in index :: index[r].uid == r && index[r].resources != map[] && ResourcesFit(index[r], r)
  }

  ghost predicate ResourcesFit(e: Entry, release: string) {
    forall u | u in e.resources :: e.resources[u].uid == u && SolelyOwnedBy(e.resources[u], release)
  }

  /** What the index holds for an object under a release. */
  function Held(index: Index, release: string, uid: Uid): Option<Object> {
    if release in index then Lookup(index[release].resources, uid) else None
  }

  class ReleaseResources {
    var releases: Index
    const ignored: set<Gvk>

    constructor (ignored: set<Gvk>)
      ensures releases == map[] && this.ignored == ignored
    {
      releases := map[];
      this.ignored := ignored;
    }

    ghost predicate Valid()
      reads this
    {
      WellFormed(releases)
    }

    method Set(o: Object)
      requires Valid()
      modifies this`releases
      ensures Valid() && releases == AfterSet(old(releases), ignored, o)
    {
      SetKeepsWellFormed(releases, ignored, o);
      if o.gvk in ignored {
        return;
      }
      if |o.owners| <= 0 || |o.owners| >= 2 {
        return;
      }
      var owner := o.owners[0];
      if !(owner.apiVersion == API_VERSION && owner.kind == "Release") {
        return;
      }
      var entry := Entry(owner.name, owner.uid, map[]);
      if owner.uid in releases {
        entry := releases[owner.uid];
      }
      entry := entry.(resources := entry.resources[o.uid := o]);
      releases := releases[owner.uid := entry];
    }

    method Remove(o: Object)
      requires Valid()
      modifies this`releases
      ensures Valid() && releases == AfterRemove(old(releases), o)
    {
      RemoveKeepsWellFormed(releases, o);
      if |o.owners| <= 0 || |o.owners| >= 2 {
        return;
      }
      var owner := o.owners[0];
      if !(owner.apiVersion == API_VERSION && owner.kind == "Release") {
        return;
      }
      if owner.uid !in releases {
        return;
      }
      var entry := releases[owner.uid];
      entry := entry.(resources := entry.resources - {o.uid});
      if entry.resources == map[] {
        releases := releases - {entry.uid};
      } else {
        releases := releases[owner.uid := entry];
      }
    }

    /** A copy of what is held for a release, each object once, in no particular order. */
    method Resources(uid: string) returns (rs: seq<Object>)
      requires Valid()
      ensures Distinct(rs)
      ensures forall o :: o in rs <==> Held(releases, uid, o.uid) == Some(o)
    {
      rs := [];
      if uid !in releases {
        return;
      }
      var entry := releases[uid];
      var rest := entry.resources.Keys;
      assert ResourcesFit(entry, uid);
      while rest != {}
        invariant rest <= entry.resources.Keys && Distinct(rs)
        invariant forall o :: o in rs <==> o.uid in entry.resources && entry.resources[o.uid] == o && o.uid !in rest
        decreases rest
      {
        var u :| u in rest;
        rest := rest - {u};
        rs := rs + [entry.resources[u]];
      }
    }
  }

  lemma SetKeepsWellFormed(index: Index, ignored: set<Gvk>, o: Object)
    requires WellFormed(index)
    ensures WellFormed(AfterSet(index, ignored, o))
  {
    if o.gvk !in ignored && SoleOwner(o).Some? {
      var index' := AfterSet(index, ignored, o);
      assert o.uid in index'[SoleOwner(o).value.uid].resources;
    }
  }

  lemma RemoveKeepsWellFormed(index: Index, o: Object)
    requires WellFormed(index)
    ensures WellFormed(AfterRemove(index, o))
  {
  }

  // ---------- Event sequences ----------

  datatype Event = SetEvent(o: Object) | RemoveEvent(o: Object)

  function AfterEvent(index: Index, ignored: set<Gvk>, e: Event): Index {
    match e
    case SetEvent(o) => AfterSet(index, ignored, o)
    case RemoveEvent(o) => AfterRemove(index, o)
  }

  function AfterEvents(ignored: set<Gvk>, events: seq<Event>): Index {
    if events == [] then map[]
    else AfterEvent(AfterEvents(ignored, events[..|events| - 1]), ignored, events[|events| - 1])
  }

  /** An event that says something about the object under the release, as the event shows it. */
  predicate Concerns(e: Event, ignored: set<Gvk>, release: string, uid: Uid) {
    e.o.uid == uid && SolelyOwnedBy(e.o, release) && (e.SetEvent? ==> e.o.gvk !in ignored)
  }

  /** The verdict of the latest event that concerns the pair. */
  function LastWord(events: seq<Event>, ignored: set<Gvk>, release: string, uid: Uid): Option<Object> {
    if events == [] then None
    else
      var e := events[|events| - 1];
      if Concerns(e, ignored, release, uid) then (if e.SetEvent? then Some(e.o) else None)
      else LastWord(events[..|events| - 1], ignored, release, uid)
  }

  lemma SetHeld(index: Index, ignored: set<Gvk>, o: Object, release: string, uid: Uid)
    ensures Held(AfterSet(index, ignored, o), release, uid)
         == if Concerns(SetEvent(o), ignored, release, uid) then Some(o) else Held(index, release, uid)
  {
  }

  lemma RemoveHeld(index: Index, ignored: set<Gvk>, o: Object, release: string, uid: Uid)
    requires WellFormed(index)
    ensures Held(AfterRemove(index, o), release, uid)
         == if Concerns(RemoveEvent(o), ignored, release, uid) then None else Held(index, release, uid)
  {
    if SoleOwner(o).Some? && SoleOwner(o).value.uid in index {
      var owner := SoleOwner(o).value.uid;
      var left := index[owner].resources - {o.uid};
      if left == map[] && release == owner && uid != o.uid {
        assert uid !in left;
      }
    }
  }

  /**
   For every event sequence: no entry is ever empty, and the index holds under a release exactly
   the objects whose last concerning event was a set, as that event showed them.
   */
  lemma {:induction false} IndexIsTheLastWord(events: seq<Event>, ignored: set<Gvk>, release: string, uid: Uid)
    ensures WellFormed(AfterEvents(ignored, events))
    ensures Held(AfterEvents(ignored, events), release, uid) == LastWord(events, ignored, release, uid)
  {
    if events != [] {
      var e := events[|events| - 1];
      IndexIsTheLastWord(events[..|events| - 1], ignored, release, uid);
      var before := AfterEvents(ignored, events[..|events| - 1]);
      match e
      case SetEvent(o) =>
        SetKeepsWellFormed(before, ignored, o);
        SetHeld(before, ignored, o, release, uid);
      case RemoveEvent(o) =>
        RemoveKeepsWellFormed(before, o);
        RemoveHeld(before, ignored, o, release, uid);
    }
  }

  /** Owner references and kind of every object stay the same throughout. */
  ghost predicate Steady(events: seq<Event>) {
    forall i, j | 0 <= i < |events| && 0 <= j < |events| && events[i].o.uid == events[j].o.uid ::
      events[i].o.owners == events[j].o.owners && events[i].o.gvk == events[j].o.gvk
  }

  /** The last event about an object, whoever owns it. */
  function LastEvent(events: seq<Event>, uid: Uid): Option<Event> {
    if events == [] then None
    else if events[|events| - 1].o.uid == uid then Some(events[|events| - 1])
    else LastEvent(events[..|events| - 1], uid)
  }

  lemma {:induction false} SteadyLastWord(events: seq<Event>, ignored: set<Gvk>, release: string, uid: Uid)
    requires Steady(events)
    ensures LastEvent(events, uid).Some? ==> LastEvent(events, uid).value in events
    ensures LastWord(events, ignored, release, uid).Some? <==>
              && LastEvent(events, uid).Some? && LastEvent(events, uid).value.SetEvent?
              && SolelyOwnedBy(LastEvent(events, uid).value.o, release)
              && LastEvent(events, uid).value.o.gvk !in ignored
    ensures LastWord(events, ignored, release, uid).Some? ==>
              LastWord(events, ignored, release, uid).value == LastEvent(events, uid).value.o
  {
    if events != [] {
      var e := events[|events| - 1];
      var rest := events[..|events| - 1];
      SteadyLastWord(rest, ignored, release, uid);
      if e.o.uid == uid && !Concerns(e, ignored, release, uid) && LastEvent(rest, uid).Some? {
        var f := LastEvent(rest, uid).value;
        assert f in events;
        var i :| 0 <= i < |events| && events[i] == f;
        assert f.o.owners == e.o.owners && f.o.gvk == e.o.gvk by {
          LastEventUid(rest, uid);
        }
      }
    }
  }

  lemma {:induction false} LastEventUid(events: seq<Event>, uid: Uid)
    ensures LastEvent(events, uid).Some? ==> LastEvent(events, uid).value.o.uid == uid
  {
    if events != [] {
      LastEventUid(events[..|events| - 1], uid);
    }
  }

  /**
   When owners never change, an object is listed under a release exactly when its last event was a
   set, the release is its sole owner and its kind is not ignored.
   */
  lemma SteadyIndexIff(events: seq<Event>, ignored: set<Gvk>, release: string, uid: Uid)
    requires Steady(events)
    ensures Held(AfterEvents(ignored, events), release, uid).Some? <==>
              && LastEvent(events, uid).Some? && LastEvent(events, uid).value.SetEvent?
              && SolelyOwnedBy(LastEvent(events, uid).value.o, release)
              && LastEvent(events, uid).value.o.gvk !in ignored
  {
    IndexIsTheLastWord(events, ignored, release, uid);
    SteadyLastWord(events, ignored, release, uid);
  }

  /** When an object changes hands, the index keeps listing it under its former owner too. */
  lemma ReownedObjectStaysListed(o: Object, former: string, latter: string, ignored: set<Gvk>)
    requires SolelyOwnedBy(o, former) && o.gvk !in ignored && former != latter
    ensures var moved := o.(owners := [o.owners[0].(uid := latter)]);
            var index := AfterEvents(ignored, [SetEvent(o), SetEvent(moved)]);
            Held(index, former, o.uid) == Some(o) && Held(index, latter, o.uid) == Some(moved)
  {
    var moved := o.(owners := [o.owners[0].(uid := latter)]);
    var events := [SetEvent(o), SetEvent(moved)];
    assert events[..1] == [SetEvent(o)] && [SetEvent(o)][..0] == [];
    IndexIsTheLastWord(events, ignored, former, o.uid);
    IndexIsTheLastWord(events, ignored, latter, o.uid);
    assert LastWord([SetEvent(o)], ignored, former, o.uid) == Some(o);
  }
}
