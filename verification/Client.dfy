/**
 The resource client (pkg/kube/client.go) without cache layers, on decoded objects: applying a
 manifest, and creating, updating and deleting lists of resources.
 */
module Client {
  import opened Common
  import opened Histories
  import opened SpecifiedIPs
  import opened Cluster

  /**
   What is foreign or left abstract: defaulting and comparing jobs, keeping immutable fields on
   update, strategic merge patches, the sort ranks of kinds, and the address library.
   */
  datatype Policy = Policy(
    jobEqual: (string, string) -> bool,
    fix: (Gvk, string, string) -> string,
    merge: (string, string, string) -> string,
    rank: string -> int,
    lib: Library)

  /** `owners` is None for a nil slice; `ignored` are the kinds the checker exempts from ownership. */
  datatype Options = Options(owners: Option<seq<OwnerRef>>, ignored: set<Gvk>)

  predicate Exempt(o: Object, opts: Options) {
    o.gvk in opts.ignored
  }

  /** own: every wanted reference is among the object's. */
  predicate OwnedBy(refs: Option<seq<OwnerRef>>, o: Object) {
    refs.None? || forall r | r in refs.value :: r in o.owners
  }

  method Own(refs: Option<seq<OwnerRef>>, o: Object) returns (owned: bool)
    ensures owned == OwnedBy(refs, o)
  {
    if refs.None? {
      return true;
    }
    for i := 0 to |refs.value|
      invariant forall j | 0 <= j < i :: refs.value[j] in o.owners
    {
      var ref, found := refs.value[i], false;
      for j := 0 to |o.owners|
        invariant found ==> ref in o.owners
        invariant !found ==> forall k | 0 <= k < j :: o.owners[k] != ref
      {
        if o.owners[j] == ref {
          found := true;
          break;
        }
      }
      if !found {
        assert ref in refs.value;
        return false;
      }
    }
    return true;
  }

  // ---------- Sorting ----------

  ghost predicate Ranked(objs: seq<Object>, rank: string -> int) {
    forall i, j | 0 <= i < j < |objs| :: rank(objs[i].gvk.kind) <= rank(objs[j].gvk.kind)
  }

  function InsertRanked(o: Object, objs: seq<Object>, rank: string -> int): seq<Object> {
    if objs == [] || rank(o.gvk.kind) <= rank(objs[0].gvk.kind) then [o] + objs
    else [objs[0]] + InsertRanked(o, objs[1..], rank)
  }

  /** SortOrder.Sort: some order by rank; which one among equals is not specified by the source. */
  function ByRank(objs: seq<Object>, rank: string -> int): seq<Object> {
    if objs == [] then [] else InsertRanked(objs[0], ByRank(objs[1..], rank), rank)
  }

  lemma {:induction false} InsertRankedElements(o: Object, objs: seq<Object>, rank: string -> int)
    ensures multiset(InsertRanked(o, objs, rank)) == multiset(objs) + multiset{o}
  {
    if objs != [] && rank(o.gvk.kind) > rank(objs[0].gvk.kind) {
      InsertRankedElements(o, objs[1..], rank);
      assert objs == [objs[0]] + objs[1..];
    }
  }

  lemma {:induction false} InsertRankedOrder(o: Object, objs: seq<Object>, rank: string -> int)
    requires Ranked(objs, rank)
    ensures Ranked(InsertRanked(o, objs, rank), rank)
    ensures InsertRanked(o, objs, rank)[0] == o || (objs != [] && InsertRanked(o, objs, rank)[0] == objs[0])
  {
    if objs != [] && rank(o.gvk.kind) > rank(objs[0].gvk.kind) {
      InsertRankedOrder(o, objs[1..], rank);
      var rest := InsertRanked(o, objs[1..], rank);
      assert rank(objs[0].gvk.kind) <= rank(rest[0].gvk.kind);
    }
  }

  lemma {:induction false} ByRankFacts(objs: seq<Object>, rank: string -> int)
    ensures multiset(ByRank(objs, rank)) == multiset(objs) && Ranked(ByRank(objs, rank), rank)
  {
    if objs != [] {
      ByRankFacts(objs[1..], rank);
      InsertRankedElements(objs[0], ByRank(objs[1..], rank), rank);
      InsertRankedOrder(objs[0], ByRank(objs[1..], rank), rank);
      assert objs == [objs[0]] + objs[1..];
    }
  }

  lemma ByRankSameElements(objs: seq<Object>, rank: string -> int)
    ensures forall o :: o in ByRank(objs, rank) <==> o in objs
  {
    ByRankFacts(objs, rank);
    forall o ensures o in ByRank(objs, rank) <==> o in objs {
      assert o in multiset(ByRank(objs, rank)) <==> o in multiset(objs);
    }
  }

  // ---------- Apply ----------

  /** The object to be written: with the release's references, unless its kind is exempt. */
  function Adopted(o: Object, opts: Options): Object {
    if opts.owners.Some? && !Exempt(o, opts) then o.(owners := o.owners + opts.owners.value) else o
  }

  predicate IsWorkload(o: Object) {
    o.gvk.kind == "Deployment" || o.gvk.kind == "StatefulSet"
  }

  /** Pods that a shrink to this list deletes. */
  ghost function StrayPods(c: Namespace, release: string, addresses: set<string>): set<Key> {
    set k | k in PodsOf(c, release) && c.objects[k].podIP != "" && c.objects[k].podIP !in addresses
  }

  /** applyIPSpecDecreasing: list and marker first, then the pods; false when it gives up on the way. */
  ghost function Shrunk(c: Namespace, o: Object, lib: Library): (r: (Namespace, bool))
    requires KeyOf(o) in c.objects && IsWorkload(o)
    ensures KeyOf(o) in r.0.objects
  {
    var raw := Get(o.annotations, SPECIFIED_IPS).0;
    if Parse(raw, lib).Err? then (c, false)
    else
      var existing := c.objects[KeyOf(o)];
      var marked := c.(objects := c.objects[KeyOf(o) :=
                         existing.(annotations := MarkedAnnotations(existing.annotations, raw))]);
      var release := Get(o.labels, RELEASE_LABEL).0;
      if release == "" then (marked, false)
      else (Deleted(marked, StrayPods(marked, release, Addresses(raw, lib))), true)
  }

  /** One object of a manifest: created, adopted in place, or refused. */
  ghost function AppliedOne(c: Namespace, given: Object, opts: Options, p: Policy): (Namespace, bool) {
    var o := Adopted(given, opts);
    if KeyOf(o) !in c.objects then (Created(c, o), true)
    else
      var existing := c.objects[KeyOf(o)];
      if !OwnedBy(opts.owners, existing) && !Exempt(o, opts) then (c, false)
      else if o.gvk.kind == "Job" then
        if p.jobEqual(o.body, existing.body) then (c, true)
        else (Created(Deleted(c, {KeyOf(o)}), o), true)
      else
        var written := o.(body := p.fix(o.gvk, existing.body, o.body));
        if !IsWorkload(o) then (Updated(c, written), true)
        else match Judge(o.annotations, existing.annotations, p.lib)
             case Err(_) => (c, false)
             case Ok(false) => (Updated(c, written), true)
             case Ok(true) =>
               var (shrunk, ok) := Shrunk(c, o, p.lib);
               if ok then (Updated(shrunk, written), true) else (shrunk, false)
  }

  ghost function AppliedAll(c: Namespace, objs: seq<Object>, opts: Options, p: Policy): (Namespace, bool)
    decreases objs
  {
    if objs == [] then (c, true)
    else
      var (c1, ok) := AppliedOne(c, objs[0], opts, p);
      if ok then AppliedAll(c1, objs[1..], opts, p) else (c1, false)
  }

  /** The stray ones among the first listed pods. */
  ghost function StraysOf(c: Namespace, pods: seq<Key>, addresses: set<string>): set<Key> {
    set k | k in pods && k in c.objects && c.objects[k].podIP != "" && c.objects[k].podIP !in addresses
  }

  /**
   Deletes the listed pods of the release whose address is not granted any more. The outcome is
   that of the last deletion, so that a pod missing there fails the whole call; none is missing
   unless somebody deletes a pod after it was listed.
   */
  method DeletePodsNotInList(cluster: ApiCluster, release: string, addresses: set<string>) returns (ok: bool)
    modifies cluster`objects
    ensures ok && cluster.State() == Deleted(old(cluster.State()), StrayPods(old(cluster.State()), release, addresses))
  {
    ghost var c := cluster.State();
    var pods := cluster.ListPods(release);
    ok := true;
    for i := 0 to |pods|
      invariant ok && cluster.State() == Deleted(c, StraysOf(c, pods[..i], addresses))
    {
      var k := pods[i];
      assert k in PodsOf(c, release) && k !in pods[..i];
      assert pods[..i + 1] == pods[..i] + [k];
      var ip := cluster.objects[k].podIP;
      if ip != "" && ip !in addresses {
        ok := cluster.Delete(k);
      }
      assert StraysOf(c, pods[..i + 1], addresses)
          == StraysOf(c, pods[..i], addresses) + if ip != "" && ip !in addresses then {k} else {};
    }
    assert pods[..|pods|] == pods;
    assert StraysOf(c, pods, addresses) == StrayPods(c, release, addresses);
  }

  method ApplyIPSpecDecreasing(cluster: ApiCluster, o: Object, existing: Object, lib: Library) returns (ok: bool)
    requires KeyOf(o) in cluster.objects && existing == cluster.objects[KeyOf(o)] && KeyOf(existing) == KeyOf(o)
    requires IsWorkload(o)
    modifies cluster`objects
    ensures (cluster.State(), ok) == Shrunk(old(cluster.State()), o, lib)
  {
    var (raw, _) := Get(o.annotations, SPECIFIED_IPS);
    var sets := ParseSets(raw, lib);
    if sets.Err? {
      return false;
    }
    var (withList, _) := SpecifiedIPs.Set(existing.annotations, SPECIFIED_IPS, raw);
    var (withMarker, _) := SpecifiedIPs.Set(withList, DECREASING, "");
    var _ := cluster.Update(existing.(annotations := withMarker));
    var (release, _) := Get(o.labels, RELEASE_LABEL);
    if |release| == 0 {
      return false;
    }
    var addresses := AddressMap(sets.value);
    ok := DeletePodsNotInList(cluster, release, addresses);
  }

  method ApplyOne(cluster: ApiCluster, given: Object, opts: Options, p: Policy) returns (ok: bool)
    requires Valid(cluster.State())
    modifies cluster
    ensures (cluster.State(), ok) == AppliedOne(old(cluster.State()), given, opts, p)
  {
    var o := given;
    if opts.owners.Some? && !Exempt(given, opts) {
      o := given.(owners := given.owners + opts.owners.value);
    }
    var found := cluster.Get(KeyOf(o));
    if found.None? {
      ok := cluster.Create(o);
      return;
    }
    var existing := found.value;
    var owned := Own(opts.owners, existing);
    if !owned && !Exempt(o, opts) {
      return false;
    }
    if o.gvk.kind == "Job" {
      if p.jobEqual(o.body, existing.body) {
        return true;
      }
      var _ := cluster.Delete(KeyOf(o));
      ok := cluster.Create(o);
      return;
    }
    if IsWorkload(o) {
      var decreasing := JudgeDecreasing(o.annotations, existing.annotations, p.lib);
      if decreasing.Err? {
        return false;
      }
      if decreasing.value {
        ok := ApplyIPSpecDecreasing(cluster, o, existing, p.lib);
        if !ok {
          return;
        }
      }
    }
    ok := cluster.Update(o.(body := p.fix(o.gvk, existing.body, o.body)));
  }

  /** Apply: one object after the other, in install order, until one is refused. */
  method Apply(cluster: ApiCluster, objs: seq<Object>, opts: Options, p: Policy) returns (ok: bool)
    requires Valid(cluster.State())
    modifies cluster
    ensures (cluster.State(), ok) == AppliedAll(old(cluster.State()), ByRank(objs, p.rank), opts, p)
    ensures Valid(cluster.State())
  {
    var sorted := ByRank(objs, p.rank);
    ghost var c := cluster.State();
    for i := 0 to |sorted|
      invariant Valid(cluster.State())
      invariant AppliedAll(c, sorted, opts, p) == AppliedAll(cluster.State(), sorted[i..], opts, p)
    {
      assert sorted[i..][0] == sorted[i] && sorted[i..][1..] == sorted[i + 1..];
      AppliedOneKeepsValid(cluster.State(), sorted[i], opts, p);
      ok := ApplyOne(cluster, sorted[i], opts, p);
      if !ok {
        return;
      }
    }
    return true;
  }

  lemma ShrunkKeepsValid(c: Namespace, o: Object, lib: Library)
    requires Valid(c) && KeyOf(o) in c.objects && IsWorkload(o)
    ensures Valid(Shrunk(c, o, lib).0)
  {
    var raw, existing := Get(o.annotations, SPECIFIED_IPS).0, c.objects[KeyOf(o)];
    var marked := existing.(annotations := MarkedAnnotations(existing.annotations, raw));
    RequestsKeepValid(c, marked, {});
    var release := Get(o.labels, RELEASE_LABEL).0;
    RequestsKeepValid(Updated(c, marked), o, StrayPods(Updated(c, marked), release, Addresses(raw, lib)));
  }

  lemma AppliedOneKeepsValid(c: Namespace, given: Object, opts: Options, p: Policy)
    requires Valid(c)
    ensures Valid(AppliedOne(c, given, opts, p).0)
  {
    var o := Adopted(given, opts);
    RequestsKeepValid(c, o, {KeyOf(o)});
    if KeyOf(o) in c.objects {
      if o.gvk.kind == "Job" {
        RequestsKeepValid(Deleted(c, {KeyOf(o)}), o, {});
      } else {
        var written := o.(body := p.fix(o.gvk, c.objects[KeyOf(o)].body, o.body));
        RequestsKeepValid(c, written, {});
        if IsWorkload(o) {
          ShrunkKeepsValid(c, o, p.lib);
          RequestsKeepValid(Shrunk(c, o, p.lib).0, written, {});
        }
      }
    }
  }
}
