/** The garbage collector (pkg/controller/gc/controller.go): one pass over the resources of a release. */
module Collector {
  import opened Common
  import opened ReleaseDoc
  import opened Histories
  import opened Cluster
  import opened OwnerIndex
  import opened HistoryNames
  import ReleaseProtocol

  const HISTORY := Gvk("release.caicloud.io", "v1alpha1", "ReleaseHistory")

  /** Resources of at most this age are left alone. */
  const GRACE_SECONDS := 3

  /** What a pass knows: the release it judges by, whether that is the live one, and the wanted keys. */
  datatype View = View(rel: Release, alive: bool, desired: set<Key>)

  function ManifestKeys(objs: seq<Object>): set<Key> {
    set o | o in objs :: KeyOf(o)
  }

  function HistoryVerdict(v: View, limit: int, res: Object): Verdict {
    IfRetainHistory(v.rel.name, v.rel.status.version, limit, res.name)
  }

  predicate Old(res: Object, now: int) {
    now - res.created > GRACE_SECONDS
  }

  /** A pass removes a resource: old enough, and an expired history or not in the manifest. */
  predicate Doomed(res: Object, v: View, limit: int, now: int) {
    Old(res, now) &&
    if res.gvk == HISTORY then !(v.alive && HistoryVerdict(v, limit, res) == Retain)
    else KeyOf(res) !in v.desired
  }

  /** A pass stops with an error at a history whose name it cannot read. */
  predicate Unreadable(res: Object, v: View, limit: int, now: int) {
    && Old(res, now) && res.gvk == HISTORY
    && HistoryVerdict(v, limit, res) != Retain && HistoryVerdict(v, limit, res) != Discard
  }

  /** The server would refuse to delete a resource: its key names another object by now. */
  predicate Refused(res: Object, objects: map<Key, Object>) {
    KeyOf(res) in objects && objects[KeyOf(res)].uid != res.uid
  }

  /** What stops a pass at a resource. */
  predicate Stops(res: Object, v: View, limit: int, now: int, objects: map<Key, Object>) {
    Unreadable(res, v, limit, now) || (Doomed(res, v, limit, now) && Refused(res, objects))
  }

  ghost function HeldObjects(index: Index, uid: string): set<Object> {
    if uid in index then index[uid].resources.Values else {}
  }

  ghost function DoomedKeys(rs: set<Object>, v: View, limit: int, now: int): set<Key> {
    set o | o in rs && Doomed(o, v, limit, now) :: KeyOf(o)
  }

  ghost function Elements(rs: seq<Object>): set<Object> {
    set o | o in rs
  }

  lemma HeldIsInValues(index: Index, uid: string)
    requires WellFormed(index)
    ensures forall o :: o in HeldObjects(index, uid) <==> Held(index, uid, o.uid) == Some(o)
  {
    if uid in index {
      assert ResourcesFit(index[uid], uid);
      forall o ensures o in index[uid].resources.Values <==> Held(index, uid, o.uid) == Some(o) {
        if o in index[uid].resources.Values {
          var u :| u in index[uid].resources && index[uid].resources[u] == o;
        }
      }
    }
  }

  class GarbageCollector {
    const cluster: ApiCluster
    const index: ReleaseResources
    const historyLimit: int

    constructor (cluster: ApiCluster, index: ReleaseResources, historyLimit: int)
      ensures this.cluster == cluster && this.index == index && this.historyLimit == historyLimit
    {
      this.cluster, this.index, this.historyLimit := cluster, index, historyLimit;
    }

    method DesiredKeys(objs: seq<Object>) returns (desired: set<Key>)
      ensures desired == ManifestKeys(objs)
    {
      desired := {};
      for i := 0 to |objs|
        invariant desired == ManifestKeys(objs[..i])
      {
        desired := desired + {KeyOf(objs[i])};
        assert objs[..i + 1] == objs[..i] + [objs[i]];
      }
      assert objs[..|objs|] == objs;
    }

    /**
     One pass. `listed` is what the release lister shows under the name, `decode` the codec. It
     does nothing for a live release without manifest, and fails without effect when the manifest
     cannot be decoded. Otherwise it deals with the held resources in some order: it succeeds
     exactly when nothing stops it on the way, and deletes and forgets exactly the doomed ones it
     came to.
     */
    method Collect(queued: Release, listed: Option<Release>, decode: string -> Option<seq<Object>>)
      returns (ok: bool, ghost v: View, ghost order: seq<Object>, ghost done: nat)
      requires index.Valid()
      modifies cluster`objects, index`releases
      ensures index.Valid()
      ensures Alive(queued, listed) && listed.value.status.manifest == "" ==>
                ok && cluster.State() == old(cluster.State()) && index.releases == old(index.releases)
      ensures Alive(queued, listed) && listed.value.status.manifest != ""
              && decode(listed.value.status.manifest).None? ==>
                !ok && cluster.State() == old(cluster.State()) && index.releases == old(index.releases)
      ensures Sees(queued, listed, decode).Some? ==>
                && v == Sees(queued, listed, decode).value
                && Lists(order, HeldObjects(old(index.releases), queued.uid))
                && Passed(old(cluster.State()), order, done, ok, v, historyLimit, cluster.State())
                && Forgotten(old(index.releases), queued.uid,
                     DoomedOf(Elements(order[..done]), v, historyLimit, old(cluster.State()).now), index.releases)
    {
      var rel, desired := queued, {};
      var alive := false;
      v, order, done := View(queued, false, {}), [], 0;
      if listed.Some? && queued.uid == listed.value.uid {
        rel := listed.value;
        if rel.status.manifest == "" {
          return true, v, order, done;
        }
        var objs := decode(rel.status.manifest);
        if objs.None? {
          return false, v, order, done;
        }
        desired := DesiredKeys(objs.value);
        alive := true;
        v := View(rel, true, desired);
      }
      ok, order, done := Sweep(queued.uid, rel, alive, desired, v);
    }

    /** The loop body of a pass: nothing happens, or the resource is deleted and forgotten, or the pass stops. */
    method Consider(res: Object, now: int, rel: Release, alive: bool, desired: set<Key>, ghost v: View)
      returns (ok: bool)
      requires index.Valid() && v == View(rel, alive, desired)
      modifies cluster`objects, index`releases
      ensures index.Valid()
      ensures ok <==> !Stops(res, v, historyLimit, now, old(cluster.objects))
      ensures cluster.State() == if ok && Doomed(res, v, historyLimit, now)
                                 then Deleted(old(cluster.State()), {KeyOf(res)}) else old(cluster.State())
      ensures index.releases == if ok && Doomed(res, v, historyLimit, now) then AfterRemove(old(index.releases), res)
                                else old(index.releases)
    {
      if now - res.created <= GRACE_SECONDS {
        return true;
      }
      if res.gvk == HISTORY {
        var verdict := IfRetainHistory(rel.name, rel.status.version, historyLimit, res.name);
        if verdict != Retain && verdict != Discard {
          return false;
        }
        if alive && verdict == Retain {
          return true;
        }
      } else if KeyOf(res) in desired {
        return true;
      }
      ok := cluster.DeleteExact(KeyOf(res), res.uid);
      if ok {
        index.Remove(res);
      }
    }

    /** The loop of a pass, over the held resources in the order of a map. */
    method Sweep(uid: string, rel: Release, alive: bool, desired: set<Key>, ghost v: View)
      returns (ok: bool, ghost order: seq<Object>, ghost done: nat)
      requires index.Valid() && v == View(rel, alive, desired)
      modifies cluster`objects, index`releases
      ensures index.Valid() && Lists(order, HeldObjects(old(index.releases), uid))
      ensures Passed(old(cluster.State()), order, done, ok, v, historyLimit, cluster.State())
      ensures Forgotten(old(index.releases), uid,
                DoomedOf(Elements(order[..done]), v, historyLimit, old(cluster.State()).now), index.releases)
    {
      ghost var c, held, index0 := cluster.State(), HeldObjects(index.releases, uid), index.releases;
      HeldIsInValues(index.releases, uid);
      var now := cluster.now;
      var resources := index.Resources(uid);
      order, done := resources, 0;
      assert Elements(resources) == held;
      for i := 0 to |resources|
        invariant index.Valid() && cluster.now == now && done == i
        invariant Reached(c, resources, i, v, historyLimit, cluster.State())
        invariant Forgotten(index0, uid, DoomedOf(Elements(resources[..i]), v, historyLimit, now), index.releases)
      {
        ghost var before, indexBefore := cluster.State(), index.releases;
        ok := Consider(resources[i], now, rel, alive, desired, v);
        if !ok {
          return;
        }
        done := i + 1;
        ReachedOneMore(c, resources, i, v, historyLimit, before);
        assert resources[i] in held;
        ForgetStep(index0, uid, resources, i, v, historyLimit, now, indexBefore);
      }
      return true, order, done;
    }
  }

  predicate Alive(queued: Release, listed: Option<Release>) {
    listed.Some? && listed.value.uid == queued.uid
  }

  /** What a pass judges by, if it gets as far as looking at resources. */
  function Sees(queued: Release, listed: Option<Release>, decode: string -> Option<seq<Object>>): Option<View> {
    if !Alive(queued, listed) then Some(View(queued, false, {}))
    else if listed.value.status.manifest == "" then None
    else match decode(listed.value.status.manifest)
         case None => None
         case Some(objs) => Some(View(listed.value, true, ManifestKeys(objs)))
  }

  /** Each resource once. */
  ghost predicate Lists(order: seq<Object>, held: set<Object>) {
    Distinct(order) && Elements(order) == held
  }

  /** The first i resources are dealt with, and none of them stopped the pass. */
  ghost predicate Reached(c: Namespace, order: seq<Object>, i: nat, v: View, limit: int, c': Namespace)
    requires i <= |order|
  {
    && c' == Deleted(c, DoomedKeys(Elements(order[..i]), v, limit, c.now))
    && forall j | 0 <= j < i :: !StopsAt(c, order, j, v, limit)
  }

  /** Whether the pass stops at a resource when its turn comes, after the doomed ones before it are gone. */
  ghost predicate StopsAt(c: Namespace, order: seq<Object>, j: nat, v: View, limit: int)
    requires j < |order|
  {
    Stops(order[j], v, limit, c.now, c.objects - DoomedKeys(Elements(order[..j]), v, limit, c.now))
  }

  /** The outcome of a pass over resources in this order. */
  ghost predicate Passed(c: Namespace, order: seq<Object>, done: nat, ok: bool, v: View, limit: int, c': Namespace) {
    && done <= |order| && Reached(c, order, done, v, limit, c')
    && if ok then done == |order| else done < |order| && StopsAt(c, order, done, v, limit)
  }

  lemma ReachedOneMore(c: Namespace, order: seq<Object>, i: nat, v: View, limit: int, c1: Namespace)
    requires i < |order| && Reached(c, order, i, v, limit, c1) && !Stops(order[i], v, limit, c.now, c1.objects)
    ensures Reached(c, order, i + 1, v, limit,
              if Doomed(order[i], v, limit, c.now) then Deleted(c1, {KeyOf(order[i])}) else c1)
  {
    MoreDoomed(order, i, v, limit, c.now);
    if Doomed(order[i], v, limit, c.now) {
      assert Deleted(c1, {KeyOf(order[i])}).objects
          == c.objects - DoomedKeys(Elements(order[..i + 1]), v, limit, c.now);
    }
  }

  /**
   When a pass succeeds. If the server would refuse no doomed resource, it succeeds exactly when
   the names of all old histories can be read, in whatever order; then exactly the doomed keys are
   gone.
   */
  lemma {:induction false} PassSucceedsIff(c: Namespace, order: seq<Object>, done: nat, ok: bool, v: View,
                                           limit: int, c': Namespace)
    requires Passed(c, order, done, ok, v, limit, c')
    requires forall o | o in order && Doomed(o, v, limit, c.now) :: !Refused(o, c.objects)
    ensures ok <==> forall o | o in order :: !Unreadable(o, v, limit, c.now)
    ensures ok ==> c' == Deleted(c, DoomedKeys(Elements(order), v, limit, c.now))
  {
    assert order[..|order|] == order;
    if ok {
      forall o | o in order ensures !Unreadable(o, v, limit, c.now) {
        var j :| 0 <= j < |order| && order[j] == o;
        assert !StopsAt(c, order, j, v, limit);
      }
    } else {
      assert order[done] in order && StopsAt(c, order, done, v, limit);
    }
  }

  /**
   In general a resource that the server would refuse stops the pass, unless another doomed one
   with the same key comes before it; no two held resources with distinct keys get in each
   other's way.
   */
  lemma {:induction false} PassOfDistinctKeysIff(c: Namespace, order: seq<Object>, done: nat, ok: bool,
                                                 v: View, limit: int, c': Namespace)
    requires Passed(c, order, done, ok, v, limit, c')
    requires forall i, j | 0 <= i < j < |order| :: KeyOf(order[i]) != KeyOf(order[j])
    ensures ok <==> forall o | o in order :: !Stops(o, v, limit, c.now, c.objects)
  {
    forall j | 0 <= j < |order|
      ensures StopsAt(c, order, j, v, limit) <==> Stops(order[j], v, limit, c.now, c.objects)
    {
      assert KeyOf(order[j]) !in DoomedKeys(Elements(order[..j]), v, limit, c.now);
    }
    if ok {
      forall o | o in order ensures !Stops(o, v, limit, c.now, c.objects) {
        var j :| 0 <= j < |order| && order[j] == o;
        assert !StopsAt(c, order, j, v, limit);
      }
    } else {
      assert order[done] in order && StopsAt(c, order, done, v, limit);
    }
  }

  ghost function DoomedOf(rs: set<Object>, v: View, limit: int, now: int): set<Object> {
    set o | o in rs && Doomed(o, v, limit, now)
  }

  /** The index no longer lists these objects of the release, and is otherwise as before. */
  ghost predicate Forgotten(index: Index, release: string, gone: set<Object>, index': Index) {
    forall r: string, u: Uid ::
      Held(index', r, u) == if r == release && Held(index, r, u).Some? && Held(index, r, u).value in gone then None
                            else Held(index, r, u)
  }

  lemma {:induction false} ForgetOne(index: Index, release: string, gone: set<Object>, res: Object, index1: Index)
    requires WellFormed(index) && WellFormed(index1) && Forgotten(index, release, gone, index1)
    requires Held(index, release, res.uid) == Some(res)
    ensures Forgotten(index, release, gone + {res}, AfterRemove(index1, res))
  {
    assert ResourcesFit(index[release], release);
    forall r: string, u: Uid
      ensures Held(AfterRemove(index1, res), r, u)
           == if r == release && Held(index, r, u).Some? && Held(index, r, u).value in gone + {res} then None
              else Held(index, r, u)
    {
      RemoveHeld(index1, {}, res, r, u);
    }
  }

  lemma {:induction false} ForgetStep(index: Index, release: string, rs: seq<Object>, i: nat,
                                      v: View, limit: int, now: int, index1: Index)
    requires i < |rs| && WellFormed(index) && WellFormed(index1)
    requires Held(index, release, rs[i].uid) == Some(rs[i])
    requires Forgotten(index, release, DoomedOf(Elements(rs[..i]), v, limit, now), index1)
    ensures Forgotten(index, release, DoomedOf(Elements(rs[..i + 1]), v, limit, now),
              if Doomed(rs[i], v, limit, now) then AfterRemove(index1, rs[i]) else index1)
  {
    MoreDoomedOf(rs, i, v, limit, now);
    if Doomed(rs[i], v, limit, now) {
      ForgetOne(index, release, DoomedOf(Elements(rs[..i]), v, limit, now), rs[i], index1);
    }
  }

  lemma MoreDoomedOf(rs: seq<Object>, i: nat, v: View, limit: int, now: int)
    requires i < |rs|
    ensures DoomedOf(Elements(rs[..i + 1]), v, limit, now)
         == DoomedOf(Elements(rs[..i]), v, limit, now) + (if Doomed(rs[i], v, limit, now) then {rs[i]} else {})
  {
    assert rs[..i + 1] == rs[..i] + [rs[i]];
  }

  lemma MoreDoomed(rs: seq<Object>, i: nat, v: View, limit: int, now: int)
    requires i < |rs|
    ensures DoomedKeys(Elements(rs[..i + 1]), v, limit, now)
         == DoomedKeys(Elements(rs[..i]), v, limit, now) + (if Doomed(rs[i], v, limit, now) then {KeyOf(rs[i])} else {})
  {
    assert rs[..i + 1] == rs[..i] + [rs[i]];
  }

  /** On names the storage generates, the collector's rule is the retention window of the protocol. */
  lemma VerdictIsRetention(v: View, limit: int, now: int, res: Object, version: int)
    requires 0 < version < 0x8000_0000 && -0x8000_0000 <= limit < 0x8000_0000
    requires res.name == Name(v.rel.name, version)
    ensures HistoryVerdict(v, limit, res) == Retain <==> ReleaseProtocol.Retained(version, limit, v.rel)
    ensures !Unreadable(res, v, limit, now)
  {
    RetentionIsAWindow(v.rel.name, version, v.rel.status.version, limit);
  }
}
