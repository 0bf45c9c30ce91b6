/** Creating, updating and deleting lists of resources (pkg/kube/client.go). */
module ClientUpdate {
  import opened Common
  import opened Histories
  import opened Cluster
  import opened Client

  /** The key by which Update pairs resources; unlike the server's, it includes the version. */
  datatype PairKey = PairKey(gvk: Gvk, name: string)

  function KeyFor(o: Object): PairKey {
    PairKey(o.gvk, o.name)
  }

  datatype Pair = Pair(origin: Object, target: Object)

  ghost predicate DistinctKeys(objs: seq<Object>) {
    forall i, j | 0 <= i < j < |objs| :: KeyFor(objs[i]) != KeyFor(objs[j])
  }

  // ---------- Classification ----------

  /** A partition of the two lists: what to create, what to update, what to delete. */
  datatype Plan = Plan(toCreate: seq<Object>, toUpdate: seq<Pair>, toDelete: seq<Object>)

  ghost predicate Partitions(plan: Plan, originals: seq<Object>, targets: seq<Object>) {
    && DistinctKeys(plan.toCreate) && DistinctKeys(plan.toDelete)
    && (forall i, j | 0 <= i < j < |plan.toUpdate| ::
          KeyFor(plan.toUpdate[i].target) != KeyFor(plan.toUpdate[j].target))
    && (forall t :: t in plan.toCreate <==> t in targets && forall o | o in originals :: KeyFor(o) != KeyFor(t))
    && (forall o :: o in plan.toDelete <==> o in originals && forall t | t in targets :: KeyFor(o) != KeyFor(t))
    && (forall o, t :: Pair(o, t) in plan.toUpdate <==> o in originals && t in targets && KeyFor(o) == KeyFor(t))
  }

  method IndexByKey(originals: seq<Object>) returns (infos: map<PairKey, Object>)
    requires DistinctKeys(originals)
    ensures forall o :: o in originals <==> KeyFor(o) in infos && infos[KeyFor(o)] == o
    ensures forall k | k in infos :: KeyFor(infos[k]) == k
  {
    infos := map[];
    for i := 0 to |originals|
      invariant forall k | k in infos :: infos[k] in originals[..i] && KeyFor(infos[k]) == k
      invariant forall j | 0 <= j < i :: KeyFor(originals[j]) in infos && infos[KeyFor(originals[j])] == originals[j]
    {
      infos := infos[KeyFor(originals[i]) := originals[i]];
      assert originals[..i + 1] == originals[..i] + [originals[i]];
    }
    assert originals[..|originals|] == originals;
  }

  /** Where the matching loop stands after some targets: created, paired, and originals left. */
  ghost predicate Matched(all: map<PairKey, Object>, done: seq<Object>, infos: map<PairKey, Object>, plan: Plan) {
    && DistinctKeys(plan.toCreate)
    && (forall i, j | 0 <= i < j < |plan.toUpdate| ::
          KeyFor(plan.toUpdate[i].target) != KeyFor(plan.toUpdate[j].target))
    && (forall t :: t in plan.toCreate <==> t in done && KeyFor(t) !in all)
    && (forall u :: u in plan.toUpdate <==>
          u.target in done && KeyFor(u.target) in all && all[KeyFor(u.target)] == u.origin)
    && (forall k :: k in infos <==> k in all && forall t | t in done :: KeyFor(t) != k)
    && (forall k | k in infos :: infos[k] == all[k])
  }

  lemma MatchedNew(all: map<PairKey, Object>, done: seq<Object>, infos: map<PairKey, Object>, plan: Plan, t: Object)
    requires Matched(all, done, infos, plan) && KeyFor(t) !in infos && forall s | s in done :: KeyFor(s) != KeyFor(t)
    ensures Matched(all, done + [t], infos, plan.(toCreate := plan.toCreate + [t]))
  {
    assert forall j | 0 <= j < |plan.toCreate| :: plan.toCreate[j] in plan.toCreate;
  }

  lemma MatchedPair(all: map<PairKey, Object>, done: seq<Object>, infos: map<PairKey, Object>, plan: Plan, t: Object)
    requires Matched(all, done, infos, plan) && KeyFor(t) in infos && forall s | s in done :: KeyFor(s) != KeyFor(t)
    ensures Matched(all, done + [t], infos - {KeyFor(t)},
              plan.(toUpdate := plan.toUpdate + [Pair(infos[KeyFor(t)], t)]))
  {
    assert forall j | 0 <= j < |plan.toUpdate| :: plan.toUpdate[j] in plan.toUpdate;
  }

  /** The map of originals and the two loops that consume it. */
  method Classify(originals: seq<Object>, targets: seq<Object>) returns (plan: Plan)
    requires DistinctKeys(originals) && DistinctKeys(targets)
    ensures Partitions(plan, originals, targets)
  {
    var infos := IndexByKey(originals);
    ghost var all := infos;
    var toCreate: seq<Object>, toUpdate: seq<Pair> := [], [];
    for i := 0 to |targets|
      invariant Matched(all, targets[..i], infos, Plan(toCreate, toUpdate, []))
    {
      var t := targets[i];
      assert targets[..i + 1] == targets[..i] + [t];
      if KeyFor(t) !in infos {
        MatchedNew(all, targets[..i], infos, Plan(toCreate, toUpdate, []), t);
        toCreate := toCreate + [t];
      } else {
        MatchedPair(all, targets[..i], infos, Plan(toCreate, toUpdate, []), t);
        toUpdate := toUpdate + [Pair(infos[KeyFor(t)], t)];
        infos := infos - {KeyFor(t)};
      }
    }
    assert targets[..|targets|] == targets;
    var toDelete := Rest(infos);
    plan := Plan(toCreate, toUpdate, toDelete);
    MatchedIsPartition(originals, targets, all, infos, plan);
  }

  lemma MatchedIsPartition(originals: seq<Object>, targets: seq<Object>, all: map<PairKey, Object>,
                           infos: map<PairKey, Object>, plan: Plan)
    requires forall o :: o in originals <==> KeyFor(o) in all && all[KeyFor(o)] == o
    requires forall k | k in all :: KeyFor(all[k]) == k
    requires Matched(all, targets, infos, plan.(toDelete := [])) && DistinctKeys(plan.toDelete)
    requires forall o :: o in plan.toDelete <==> KeyFor(o) in infos && infos[KeyFor(o)] == o
    ensures Partitions(plan, originals, targets)
  {
    forall t ensures t in plan.toCreate <==> t in targets && forall o | o in originals :: KeyFor(o) != KeyFor(t) {
      if KeyFor(t) in all {
        assert all[KeyFor(t)] in originals;
      }
    }
    forall o ensures o in plan.toDelete <==> o in originals && forall t | t in targets :: KeyFor(o) != KeyFor(t) {
    }
    forall o, t ensures Pair(o, t) in plan.toUpdate <==> o in originals && t in targets && KeyFor(o) == KeyFor(t) {
      assert Pair(o, t).origin == o && Pair(o, t).target == t;
    }
  }

  /** The originals left over, in the unspecified order of a map. */
  method Rest(infos: map<PairKey, Object>) returns (rest: seq<Object>)
    requires forall k | k in infos :: KeyFor(infos[k]) == k
    ensures DistinctKeys(rest)
    ensures forall o :: o in rest <==> KeyFor(o) in infos && infos[KeyFor(o)] == o
  {
    rest := [];
    var keys := infos.Keys;
    while keys != {}
      invariant keys <= infos.Keys && DistinctKeys(rest)
      invariant forall o :: o in rest <==> KeyFor(o) in infos && infos[KeyFor(o)] == o && KeyFor(o) !in keys
      decreases keys
    {
      var k :| k in keys;
      keys := keys - {k};
      assert forall j | 0 <= j < |rest| :: rest[j] in rest;
      rest := rest + [infos[k]];
    }
  }

  // ---------- The three requests ----------

  ghost function CreatedOne(c: Namespace, o: Object, owners: Option<seq<OwnerRef>>): (Namespace, bool) {
    var adopted := if owners.Some? then o.(owners := o.owners + owners.value) else o;
    if KeyOf(o) !in c.objects then (Created(c, adopted), true)
    else if OwnedBy(owners, c.objects[KeyOf(o)]) then (c, true)
    else (c, false)
  }

  ghost function CreatedAll(c: Namespace, objs: seq<Object>, owners: Option<seq<OwnerRef>>): (Namespace, bool)
    decreases objs
  {
    if objs == [] then (c, true)
    else
      var (c1, ok) := CreatedOne(c, objs[0], owners);
      if ok then CreatedAll(c1, objs[1..], owners) else (c1, false)
  }

  ghost function PatchedOne(c: Namespace, u: Pair, owners: Option<seq<OwnerRef>>, p: Policy): (Namespace, bool) {
    var k := KeyOf(u.target).(name := u.origin.name);
    if k !in c.objects || !OwnedBy(owners, c.objects[k]) then (c, false)
    else if u.origin == u.target then (c, true)
    else
      var merged := c.objects[k].(body := p.merge(u.origin.body, u.target.body, c.objects[k].body));
      (c.(objects := c.objects[k := merged]), true)
  }

  ghost function PatchedAll(c: Namespace, us: seq<Pair>, owners: Option<seq<OwnerRef>>, p: Policy): (Namespace, bool)
    decreases us
  {
    if us == [] then (c, true)
    else
      var (c1, ok) := PatchedOne(c, us[0], owners, p);
      if ok then PatchedAll(c1, us[1..], owners, p) else (c1, false)
  }

  /** Deleting skips what the filter keeps, what is missing, and what somebody else owns. */
  ghost function Removable(c: Namespace, objs: seq<Object>, owners: Option<seq<OwnerRef>>,
                           kept: Object -> bool): set<Key> {
    set o | o in objs && !kept(o) && KeyOf(o) in c.objects && OwnedBy(owners, c.objects[KeyOf(o)]) :: KeyOf(o)
  }

  method Create(cluster: ApiCluster, objs: seq<Object>, owners: Option<seq<OwnerRef>>, p: Policy) returns (ok: bool)
    modifies cluster
    ensures (cluster.State(), ok) == CreatedAll(old(cluster.State()), ByRank(objs, p.rank), owners)
  {
    var sorted := ByRank(objs, p.rank);
    ghost var c := cluster.State();
    for i := 0 to |sorted|
      invariant CreatedAll(c, sorted, owners) == CreatedAll(cluster.State(), sorted[i..], owners)
    {
      var o := sorted[i];
      assert sorted[i..][0] == o && sorted[i..][1..] == sorted[i + 1..];
      var found := cluster.Get(KeyOf(o));
      if found.Some? {
        var owned := Client.Own(owners, found.value);
        if owned {
          continue;
        }
      }
      ok := cluster.Create(if owners.Some? then o.(owners := o.owners + owners.value) else o);
      if !ok {
        return;
      }
    }
    return true;
  }

  method Patch(cluster: ApiCluster, us: seq<Pair>, owners: Option<seq<OwnerRef>>, p: Policy) returns (ok: bool)
    modifies cluster`objects
    ensures (cluster.State(), ok) == PatchedAll(old(cluster.State()), us, owners, p)
  {
    ghost var c := cluster.State();
    for i := 0 to |us|
      invariant PatchedAll(c, us, owners, p) == PatchedAll(cluster.State(), us[i..], owners, p)
    {
      var u := us[i];
      assert us[i..][0] == u && us[i..][1..] == us[i + 1..];
      var k := KeyOf(u.target).(name := u.origin.name);
      var current := cluster.Get(k);
      if current.None? {
        return false;
      }
      var owned := Client.Own(owners, current.value);
      if !owned {
        return false;
      }
      if u.origin == u.target {
        continue;
      }
      var merged := current.value.(body := p.merge(u.origin.body, u.target.body, current.value.body));
      cluster.objects := cluster.objects[k := merged];
    }
    return true;
  }

  method Delete(cluster: ApiCluster, objs: seq<Object>, owners: Option<seq<OwnerRef>>, kept: Object -> bool, p: Policy)
    modifies cluster`objects
    ensures cluster.State() == Deleted(old(cluster.State()), Removable(old(cluster.State()), objs, owners, kept))
  {
    var sorted := ByRank(objs, p.rank);
    ByRankSameElements(objs, p.rank);
    ghost var c := cluster.State();
    for i := 0 to |sorted|
      invariant cluster.State() == Deleted(c, Removable(c, sorted[..i], owners, kept))
    {
      RemovableOneMore(c, sorted, i, owners, kept);
      RemovableAfter(c, Removable(c, sorted[..i], owners, kept), sorted[i], owners, kept);
      DeleteOne(cluster, sorted[i], owners, kept);
    }
    assert sorted[..|sorted|] == sorted;
    assert Removable(c, sorted, owners, kept) == Removable(c, objs, owners, kept);
  }

  /** The loop body. */
  method DeleteOne(cluster: ApiCluster, o: Object, owners: Option<seq<OwnerRef>>, kept: Object -> bool)
    modifies cluster`objects
    ensures cluster.State() == Deleted(old(cluster.State()), Removable(old(cluster.State()), [o], owners, kept))
  {
    assert Removable(cluster.State(), [o], owners, kept)
        == if !kept(o) && KeyOf(o) in cluster.objects && OwnedBy(owners, cluster.objects[KeyOf(o)])
           then {KeyOf(o)} else {};
    if kept(o) {
      return;
    }
    var found := cluster.Get(KeyOf(o));
    if found.None? {
      return;
    }
    var owned := Client.Own(owners, found.value);
    if owned {
      var _ := cluster.Delete(KeyOf(o));
    }
  }

  lemma RemovableAfter(c: Namespace, gone: set<Key>, o: Object, owners: Option<seq<OwnerRef>>, kept: Object -> bool)
    ensures Deleted(Deleted(c, gone), Removable(Deleted(c, gone), [o], owners, kept))
         == Deleted(c, gone + Removable(c, [o], owners, kept))
  {
  }

  lemma RemovableOneMore(c: Namespace, objs: seq<Object>, i: nat, owners: Option<seq<OwnerRef>>, kept: Object -> bool)
    requires i < |objs|
    ensures Removable(c, objs[..i + 1], owners, kept)
         == Removable(c, objs[..i], owners, kept) + Removable(c, [objs[i]], owners, kept)
  {
    assert objs[..i + 1] == objs[..i] + [objs[i]];
  }

  /** Update: classify, then create, patch and delete. */
  method Update(cluster: ApiCluster, originals: seq<Object>, targets: seq<Object>,
                owners: Option<seq<OwnerRef>>, kept: Object -> bool, p: Policy) returns (ok: bool, plan: Plan)
    requires DistinctKeys(originals) && DistinctKeys(targets)
    modifies cluster
    ensures Partitions(plan, originals, targets)
    ensures (cluster.State(), ok) == UpdatedAll(old(cluster.State()), plan, owners, kept, p)
  {
    plan := Classify(originals, targets);
    ok := Carry(cluster, plan, owners, kept, p);
  }

  /** The requests of a plan, in this order, until one of them fails. */
  method Carry(cluster: ApiCluster, plan: Plan, owners: Option<seq<OwnerRef>>, kept: Object -> bool, p: Policy)
    returns (ok: bool)
    modifies cluster
    ensures (cluster.State(), ok) == UpdatedAll(old(cluster.State()), plan, owners, kept, p)
  {
    ok := true;
    if |plan.toCreate| > 0 {
      ok := Create(cluster, plan.toCreate, owners, p);
      if !ok {
        return;
      }
    }
    if |plan.toUpdate| > 0 {
      ok := Patch(cluster, plan.toUpdate, owners, p);
      if !ok {
        return;
      }
    }
    if |plan.toDelete| > 0 {
      Delete(cluster, plan.toDelete, owners, kept, p);
    }
    assert plan.toDelete == [] ==>
      Deleted(cluster.State(), Removable(cluster.State(), [], owners, kept)) == cluster.State();
  }

  ghost function UpdatedAll(c: Namespace, plan: Plan, owners: Option<seq<OwnerRef>>, kept: Object -> bool, p: Policy)
    : (Namespace, bool)
  {
    var (created, ok) := CreatedAll(c, ByRank(plan.toCreate, p.rank), owners);
    if !ok then (created, false)
    else
      var (patched, fine) := PatchedAll(created, plan.toUpdate, owners, p);
      if !fine then (patched, false)
      else (Deleted(patched, Removable(patched, plan.toDelete, owners, kept)), true)
  }

  // ---------- What an update achieves ----------

  ghost function KeysOf(objs: seq<Object>): set<Key> {
    set o | o in objs :: KeyOf(o)
  }

  lemma {:induction false} CreatedAllEffect(c: Namespace, objs: seq<Object>, owners: Option<seq<OwnerRef>>)
    requires CreatedAll(c, objs, owners).1
    ensures var c' := CreatedAll(c, objs, owners).0;
            && (forall k | k in c.objects :: k in c'.objects && c'.objects[k] == c.objects[k])
            && (forall k :: k in c'.objects <==> k in c.objects || k in KeysOf(objs))
            && (forall k | k in KeysOf(objs) :: OwnedBy(owners, c'.objects[k]))
    decreases objs
  {
    if objs != [] {
      var (c1, _) := CreatedOne(c, objs[0], owners);
      CreatedOneEffect(c, objs[0], owners);
      CreatedAllEffect(c1, objs[1..], owners);
      assert objs == [objs[0]] + objs[1..];
      assert KeysOf(objs) == {KeyOf(objs[0])} + KeysOf(objs[1..]);
    }
  }

  lemma CreatedOneEffect(c: Namespace, o: Object, owners: Option<seq<OwnerRef>>)
    requires CreatedOne(c, o, owners).1
    ensures var c', k := CreatedOne(c, o, owners).0, KeyOf(o);
            && k in c'.objects && OwnedBy(owners, c'.objects[k]) && (k !in c.objects ==> c'.objects[k].body == o.body)
            && c.objects.Keys + {k} == c'.objects.Keys
            && forall j | j in c.objects :: c'.objects[j] == c.objects[j]
  {
  }

  /** Patches keep keys and owners, and what they are not for. */
  ghost predicate PatchesKeep(c: Namespace, us: seq<Pair>, c': Namespace) {
    && c'.objects.Keys == c.objects.Keys
    && (forall k | k in c.objects :: c'.objects[k].owners == c.objects[k].owners)
    && (forall k | k in c.objects && (forall u | u in us :: KeyOf(u.target) != k) :: c'.objects[k] == c.objects[k])
    && (forall u | u in us :: KeyOf(u.target) in c.objects)
  }

  /** What a successful patch asks for: every pair's object is there and owned. */
  ghost predicate PairsOwned(c: Namespace, us: seq<Pair>, owners: Option<seq<OwnerRef>>) {
    forall u | u in us :: KeyOf(u.target) in c.objects && OwnedBy(owners, c.objects[KeyOf(u.target)])
  }

  lemma {:induction false} PatchedAreOwned(c: Namespace, us: seq<Pair>, owners: Option<seq<OwnerRef>>, p: Policy)
    requires PatchedAll(c, us, owners, p).1
    requires forall u | u in us :: KeyFor(u.origin) == KeyFor(u.target)
    ensures PairsOwned(c, us, owners)
    decreases us
  {
    if us != [] {
      var u, rest := us[0], us[1..];
      assert u in us && us == [u] + rest && forall v | v in rest :: v in us;
      var (c1, _) := PatchedOne(c, u, owners, p);
      PatchedOneEffect(c, u, owners, p);
      PatchedAreOwned(c1, rest, owners, p);
      assert KeyOf(u.target).(name := u.origin.name) == KeyOf(u.target);
    }
  }

  lemma PatchedOneEffect(c: Namespace, u: Pair, owners: Option<seq<OwnerRef>>, p: Policy)
    requires PatchedOne(c, u, owners, p).1 && KeyFor(u.origin) == KeyFor(u.target)
    ensures PatchesKeep(c, [u], PatchedOne(c, u, owners, p).0)
  {
    assert u.origin.name == u.target.name && u in [u];
    assert KeyOf(u.target).(name := u.origin.name) == KeyOf(u.target);
  }

  lemma PatchesKeepJoin(c: Namespace, u: Pair, c1: Namespace, rest: seq<Pair>, c': Namespace)
    requires PatchesKeep(c, [u], c1) && PatchesKeep(c1, rest, c')
    ensures PatchesKeep(c, [u] + rest, c')
  {
    var us := [u] + rest;
    assert u in us && u in [u] && forall v | v in rest :: v in us;
  }

  lemma {:induction false} PatchedAllEffect(c: Namespace, us: seq<Pair>, owners: Option<seq<OwnerRef>>, p: Policy)
    requires PatchedAll(c, us, owners, p).1
    requires forall u | u in us :: KeyFor(u.origin) == KeyFor(u.target)
    ensures PatchesKeep(c, us, PatchedAll(c, us, owners, p).0)
    decreases us
  {
    if us != [] {
      var u, rest := us[0], us[1..];
      assert u in us && us == [u] + rest && forall v | v in rest :: v in us;
      var (c1, _) := PatchedOne(c, u, owners, p);
      PatchedOneEffect(c, u, owners, p);
      PatchedAllEffect(c1, rest, owners, p);
      PatchesKeepJoin(c, u, c1, rest, PatchedAll(c, us, owners, p).0);
    }
  }

  /** Some target has exactly this original's key, version included, so that the two make a pair. */
  ghost predicate Paired(o: Object, targets: seq<Object>) {
    exists t :: t in targets && KeyFor(t) == KeyFor(o)
  }

  /** Every original that is the same object to the server has a target of its own, or is kept by the filter. */
  ghost predicate Survives(originals: seq<Object>, targets: seq<Object>, kept: Object -> bool, t: Object) {
    forall o | o in originals && KeyOf(o) == KeyOf(t) :: Paired(o, targets) || kept(o)
  }

  /** Some original with this server key is not kept by the filter. */
  ghost predicate ToGo(originals: seq<Object>, kept: Object -> bool, k: Key) {
    exists o :: o in originals && KeyOf(o) == k && !kept(o)
  }

  /** What an update makes of an object that no target shares the server key of. */
  ghost function Untargeted(c: Namespace, originals: seq<Object>, owners: Option<seq<OwnerRef>>,
                            kept: Object -> bool, k: Key): Option<Object> {
    if k in c.objects && OwnedBy(owners, c.objects[k]) && ToGo(originals, kept, k) then None
    else Lookup(c.objects, k)
  }

  /**
   What a successful update leaves, whatever its filter. A target is there exactly when it survives,
   so that all targets are there exactly when all survive; of the other objects exactly the owned
   originals that the filter does not keep are gone, and the rest is untouched.
   */
  lemma UpdateReplaces(c: Namespace, plan: Plan, originals: seq<Object>, targets: seq<Object>,
                       owners: Option<seq<OwnerRef>>, kept: Object -> bool, p: Policy)
    requires Partitions(plan, originals, targets) && UpdatedAll(c, plan, owners, kept, p).1
    ensures var c' := UpdatedAll(c, plan, owners, kept, p).0;
            && (forall t | t in targets :: KeyOf(t) in c'.objects <==> Survives(originals, targets, kept, t))
            && (forall k | k !in KeysOf(targets) ::
                  Lookup(c'.objects, k) == Untargeted(c, originals, owners, kept, k))
  {
    forall t | t in targets
      ensures KeyOf(t) in UpdatedAll(c, plan, owners, kept, p).0.objects <==> Survives(originals, targets, kept, t)
    {
      TargetSurvivesIff(c, plan, originals, targets, owners, kept, p, t);
    }
    forall k | k !in KeysOf(targets)
      ensures Lookup(UpdatedAll(c, plan, owners, kept, p).0.objects, k) == Untargeted(c, originals, owners, kept, k)
    {
      UntargetedGoesIff(c, plan, originals, targets, owners, kept, p, k);
    }
  }

  /** The pairs of a plan pair equal keys, and their targets are targets. */
  lemma PlanPairs(plan: Plan, originals: seq<Object>, targets: seq<Object>)
    requires Partitions(plan, originals, targets)
    ensures forall u | u in plan.toUpdate :: u.target in targets && KeyFor(u.origin) == KeyFor(u.target)
    ensures forall u, k | u in plan.toUpdate && k !in KeysOf(targets) :: KeyOf(u.target) != k
  {
    forall u | u in plan.toUpdate ensures u.target in targets && KeyFor(u.origin) == KeyFor(u.target) {
      assert Pair(u.origin, u.target) in plan.toUpdate;
    }
  }

  /** Each target is to be created or in a pair. */
  lemma PlanTargets(plan: Plan, originals: seq<Object>, targets: seq<Object>, t: Object)
    requires Partitions(plan, originals, targets) && t in targets
    ensures t in plan.toCreate || exists u :: u in plan.toUpdate && u.target == t
  {
    if t !in plan.toCreate {
      var o :| o in originals && KeyFor(o) == KeyFor(t);
      assert Pair(o, t) in plan.toUpdate;
    }
  }

  /** The namespace between the patches and the deletions of a successful update: every target is there and owned. */
  lemma BeforeDeletions(c: Namespace, plan: Plan, originals: seq<Object>, targets: seq<Object>,
                        owners: Option<seq<OwnerRef>>, kept: Object -> bool, p: Policy) returns (patched: Namespace)
    requires Partitions(plan, originals, targets) && UpdatedAll(c, plan, owners, kept, p).1
    ensures UpdatedAll(c, plan, owners, kept, p).0 == Deleted(patched, Removable(patched, plan.toDelete, owners, kept))
    ensures forall k :: k in patched.objects <==> k in c.objects || k in KeysOf(plan.toCreate)
    ensures forall k | k in c.objects :: patched.objects[k].owners == c.objects[k].owners
    ensures forall k | k in c.objects && k !in KeysOf(targets) :: patched.objects[k] == c.objects[k]
    ensures forall t | t in targets :: KeyOf(t) in patched.objects && OwnedBy(owners, patched.objects[KeyOf(t)])
  {
    var sorted := ByRank(plan.toCreate, p.rank);
    ByRankSameElements(plan.toCreate, p.rank);
    CreatedAllEffect(c, sorted, owners);
    var created := CreatedAll(c, sorted, owners).0;
    PlanPairs(plan, originals, targets);
    PatchedAllEffect(created, plan.toUpdate, owners, p);
    PatchedAreOwned(created, plan.toUpdate, owners, p);
    patched := PatchedAll(created, plan.toUpdate, owners, p).0;
    SameKeys(sorted, plan.toCreate);
    TargetsOwned(created, plan, originals, targets, owners);
  }

  lemma SameKeys(a: seq<Object>, b: seq<Object>)
    requires forall o :: o in a <==> o in b
    ensures KeysOf(a) == KeysOf(b)
  {
  }

  lemma TargetsOwned(created: Namespace, plan: Plan, originals: seq<Object>, targets: seq<Object>,
                     owners: Option<seq<OwnerRef>>)
    requires Partitions(plan, originals, targets) && PairsOwned(created, plan.toUpdate, owners)
    requires forall k | k in KeysOf(plan.toCreate) :: k in created.objects && OwnedBy(owners, created.objects[k])
    ensures forall t | t in targets :: KeyOf(t) in created.objects && OwnedBy(owners, created.objects[KeyOf(t)])
  {
    forall t | t in targets ensures KeyOf(t) in created.objects && OwnedBy(owners, created.objects[KeyOf(t)]) {
      PlanTargets(plan, originals, targets, t);
      if t in plan.toCreate {
        assert KeyOf(t) in KeysOf(plan.toCreate);
      }
    }
  }

  lemma PlanKeys(plan: Plan, originals: seq<Object>, targets: seq<Object>)
    requires Partitions(plan, originals, targets)
    ensures KeysOf(plan.toCreate) <= KeysOf(targets) && KeysOf(plan.toDelete) <= KeysOf(originals)
  {
    assert forall t | t in plan.toCreate :: t in targets;
    assert forall o | o in plan.toDelete :: o in originals;
  }

  /** Without a target with its key, an object goes exactly when it is owned and an original that is not kept. */
  lemma {:induction false} UntargetedGoesIff(c: Namespace, plan: Plan, originals: seq<Object>, targets: seq<Object>,
                                             owners: Option<seq<OwnerRef>>, kept: Object -> bool, p: Policy, k: Key)
    requires Partitions(plan, originals, targets) && UpdatedAll(c, plan, owners, kept, p).1
    requires k !in KeysOf(targets)
    ensures Lookup(UpdatedAll(c, plan, owners, kept, p).0.objects, k) == Untargeted(c, originals, owners, kept, k)
  {
    var patched := BeforeDeletions(c, plan, originals, targets, owners, kept, p);
    PlanKeys(plan, originals, targets);
    assert Lookup(patched.objects, k) == Lookup(c.objects, k);
    RemovableIff(c, patched, plan, originals, targets, owners, kept, k);
  }

  lemma {:induction false} RemovableIff(c: Namespace, patched: Namespace, plan: Plan, originals: seq<Object>,
                                        targets: seq<Object>, owners: Option<seq<OwnerRef>>, kept: Object -> bool,
                                        k: Key)
    requires Partitions(plan, originals, targets) && k !in KeysOf(targets)
    requires Lookup(patched.objects, k) == Lookup(c.objects, k)
    ensures k in Removable(patched, plan.toDelete, owners, kept)
            <==> k in c.objects && OwnedBy(owners, c.objects[k]) && ToGo(originals, kept, k)
  {
    UnpairedKeys(plan, originals, targets, k);
    if k in Removable(patched, plan.toDelete, owners, kept) {
      var o :| o in plan.toDelete && !kept(o) && KeyOf(o) == k;
      assert o in originals;
    }
  }

  lemma UnpairedKeys(plan: Plan, originals: seq<Object>, targets: seq<Object>, k: Key)
    requires Partitions(plan, originals, targets) && k !in KeysOf(targets)
    ensures forall o | o in originals && KeyOf(o) == k :: o in plan.toDelete
  {
    assert forall t | t in targets :: KeyOf(t) in KeysOf(targets);
  }

  /** A target is there afterwards exactly when every original with its server key has one of its own, or is kept. */
  lemma TargetSurvivesIff(c: Namespace, plan: Plan, originals: seq<Object>, targets: seq<Object>,
                          owners: Option<seq<OwnerRef>>, kept: Object -> bool, p: Policy, t: Object)
    requires Partitions(plan, originals, targets) && t in targets && UpdatedAll(c, plan, owners, kept, p).1
    ensures KeyOf(t) in UpdatedAll(c, plan, owners, kept, p).0.objects <==> Survives(originals, targets, kept, t)
  {
    var patched := BeforeDeletions(c, plan, originals, targets, owners, kept, p);
    forall o | o in originals ensures o in plan.toDelete <==> !Paired(o, targets) {
    }
    assert forall o | o in plan.toDelete :: o in originals;
  }

  // ---------- When an update succeeds ----------

  /** The key is taken by an object that lacks a wanted reference. */
  ghost predicate Conflicts(c: Namespace, owners: Option<seq<OwnerRef>>, k: Key) {
    k in c.objects && owners.Some? && exists r :: r in owners.value && r !in c.objects[k].owners
  }

  lemma ConflictsIff(c: Namespace, owners: Option<seq<OwnerRef>>, k: Key)
    ensures Conflicts(c, owners, k) <==> k in c.objects && !OwnedBy(owners, c.objects[k])
  {
  }

  lemma {:induction false} CreatedAllIff(c: Namespace, objs: seq<Object>, owners: Option<seq<OwnerRef>>)
    ensures CreatedAll(c, objs, owners).1
            <==> forall o | o in objs && KeyOf(o) in c.objects :: OwnedBy(owners, c.objects[KeyOf(o)])
    decreases objs
  {
    if objs != [] {
      var first, rest := objs[0], objs[1..];
      assert first in objs && objs == [first] + rest;
      var (c1, ok) := CreatedOne(c, first, owners);
      if ok {
        CreatedOneEffect(c, first, owners);
        CreatedAllIff(c1, rest, owners);
        assert forall o | o in objs :: o == first || o in rest;
        assert forall o | o in rest :: o in objs;
        assert forall k | k in c1.objects && k !in c.objects :: OwnedBy(owners, c1.objects[k]);
      }
    }
  }

  lemma PatchedOneIff(c: Namespace, u: Pair, owners: Option<seq<OwnerRef>>, p: Policy)
    requires KeyFor(u.origin) == KeyFor(u.target)
    ensures PatchedOne(c, u, owners, p).1
            <==> KeyOf(u.target) in c.objects && OwnedBy(owners, c.objects[KeyOf(u.target)])
  {
    assert KeyOf(u.target).(name := u.origin.name) == KeyOf(u.target);
  }

  lemma PairsOwnedAfter(c: Namespace, u: Pair, c1: Namespace, rest: seq<Pair>, owners: Option<seq<OwnerRef>>)
    requires PatchesKeep(c, [u], c1)
    ensures PairsOwned(c1, rest, owners) <==> PairsOwned(c, rest, owners)
  {
    forall k ensures k in c1.objects && OwnedBy(owners, c1.objects[k])
                <==> k in c.objects && OwnedBy(owners, c.objects[k])
    {
    }
  }

  lemma {:induction false} PatchedAllIff(c: Namespace, us: seq<Pair>, owners: Option<seq<OwnerRef>>, p: Policy)
    requires forall u | u in us :: KeyFor(u.origin) == KeyFor(u.target)
    ensures PatchedAll(c, us, owners, p).1 <==> PairsOwned(c, us, owners)
    decreases us
  {
    if us != [] {
      var u, rest := us[0], us[1..];
      assert u in us && us == [u] + rest && forall v | v in rest :: v in us;
      PatchedOneIff(c, u, owners, p);
      if PatchedOne(c, u, owners, p).1 {
        var c1 := PatchedOne(c, u, owners, p).0;
        PatchedOneEffect(c, u, owners, p);
        PatchedAllIff(c1, rest, owners, p);
        PairsOwnedAfter(c, u, c1, rest, owners);
        assert forall v | v in us :: v == u || v in rest;
      }
    }
  }

  /** Some target with this server key has no original of its own, so that it is there to be created. */
  ghost predicate SomeUnpaired(originals: seq<Object>, targets: seq<Object>, k: Key) {
    exists t :: t in targets && KeyOf(t) == k && forall o | o in originals :: KeyFor(o) != KeyFor(t)
  }

  lemma SomeUnpairedIff(plan: Plan, originals: seq<Object>, targets: seq<Object>, k: Key)
    requires Partitions(plan, originals, targets)
    ensures SomeUnpaired(originals, targets, k) <==> k in KeysOf(plan.toCreate)
  {
    if k in KeysOf(plan.toCreate) {
      var t :| t in plan.toCreate && KeyOf(t) == k;
      assert t in targets && forall o | o in originals :: KeyFor(o) != KeyFor(t);
    }
    if SomeUnpaired(originals, targets, k) {
      var t :| t in targets && KeyOf(t) == k && forall o | o in originals :: KeyFor(o) != KeyFor(t);
      assert t in plan.toCreate;
    }
  }

  /**
   When an update succeeds, from the namespace it starts in: exactly when no target's key is taken
   by an object of another owner, and each key that is free belongs to some target without an
   original of its own, which is created under it.
   */
  lemma {:induction false} UpdateSucceedsIff(c: Namespace, plan: Plan, originals: seq<Object>, targets: seq<Object>,
                                             owners: Option<seq<OwnerRef>>, kept: Object -> bool, p: Policy)
    requires Partitions(plan, originals, targets)
    ensures UpdatedAll(c, plan, owners, kept, p).1 <==>
              && (forall t | t in targets :: !Conflicts(c, owners, KeyOf(t)))
              && (forall t | t in targets && KeyOf(t) !in c.objects :: SomeUnpaired(originals, targets, KeyOf(t)))
  {
    var sorted := ByRank(plan.toCreate, p.rank);
    ByRankSameElements(plan.toCreate, p.rank);
    CreatedAllIff(c, sorted, owners);
    PlanPairs(plan, originals, targets);
    forall t | t in targets
      ensures Conflicts(c, owners, KeyOf(t)) <==> KeyOf(t) in c.objects && !OwnedBy(owners, c.objects[KeyOf(t)])
      ensures SomeUnpaired(originals, targets, KeyOf(t)) <==> KeyOf(t) in KeysOf(plan.toCreate)
    {
      ConflictsIff(c, owners, KeyOf(t));
      SomeUnpairedIff(plan, originals, targets, KeyOf(t));
    }
    assert forall t | t in plan.toCreate :: t in targets;
    if CreatedAll(c, sorted, owners).1 {
      var created := CreatedAll(c, sorted, owners).0;
      CreatedAllEffect(c, sorted, owners);
      SameKeys(sorted, plan.toCreate);
      PatchedAllIff(created, plan.toUpdate, owners, p);
      PairsOwnedIff(c, created, plan, originals, targets, owners);
    }
  }

  lemma {:induction false} PairsOwnedIff(c: Namespace, created: Namespace, plan: Plan, originals: seq<Object>,
                                         targets: seq<Object>, owners: Option<seq<OwnerRef>>)
    requires Partitions(plan, originals, targets)
    requires forall k | k in c.objects :: k in created.objects && created.objects[k] == c.objects[k]
    requires forall k :: k in created.objects <==> k in c.objects || k in KeysOf(plan.toCreate)
    requires forall k | k in KeysOf(plan.toCreate) :: OwnedBy(owners, created.objects[k])
    ensures PairsOwned(created, plan.toUpdate, owners) <==>
              && (forall t | t in targets && KeyOf(t) in c.objects :: OwnedBy(owners, c.objects[KeyOf(t)]))
              && (forall t | t in targets && KeyOf(t) !in c.objects :: KeyOf(t) in KeysOf(plan.toCreate))
  {
    PlanPairs(plan, originals, targets);
    forall t | t in targets
      ensures t in plan.toCreate || exists u :: u in plan.toUpdate && u.target == t
    {
      PlanTargets(plan, originals, targets, t);
    }
    forall t | t in plan.toCreate ensures KeyOf(t) in KeysOf(plan.toCreate) {
    }
  }

  lemma {:induction false} CreatedAllKeeps(c: Namespace, objs: seq<Object>, owners: Option<seq<OwnerRef>>, k: Key)
    requires k in c.objects
    ensures Lookup(CreatedAll(c, objs, owners).0.objects, k) == Some(c.objects[k])
    decreases objs
  {
    if objs != [] {
      CreatedAllKeeps(CreatedOne(c, objs[0], owners).0, objs[1..], owners, k);
    }
  }

  lemma {:induction false} PatchedAllKeepsForeign(c: Namespace, us: seq<Pair>, owners: Option<seq<OwnerRef>>,
                                                  p: Policy, k: Key)
    requires k in c.objects && !OwnedBy(owners, c.objects[k])
    ensures Lookup(PatchedAll(c, us, owners, p).0.objects, k) == Some(c.objects[k])
    decreases us
  {
    if us != [] {
      PatchedAllKeepsForeign(PatchedOne(c, us[0], owners, p).0, us[1..], owners, p, k);
    }
  }

  /** An update, successful or not, leaves every object of another owner as it is. */
  lemma {:induction false} UpdateKeepsForeign(c: Namespace, plan: Plan, owners: Option<seq<OwnerRef>>,
                                              kept: Object -> bool, p: Policy, k: Key)
    requires Conflicts(c, owners, k)
    ensures Lookup(UpdatedAll(c, plan, owners, kept, p).0.objects, k) == Some(c.objects[k])
  {
    ConflictsIff(c, owners, k);
    var (created, ok) := CreatedAll(c, ByRank(plan.toCreate, p.rank), owners);
    CreatedAllKeeps(c, ByRank(plan.toCreate, p.rank), owners, k);
    PatchedAllKeepsForeign(created, plan.toUpdate, owners, p, k);
  }

  // ---------- What an update writes ----------

  /** What an object says after the patch of a pair; equal resources make an empty patch. */
  function PatchedBody(u: Pair, current: string, p: Policy): string {
    if u.origin == u.target then current else p.merge(u.origin.body, u.target.body, current)
  }

  /** The pairs with a server key patch its object one after the other. */
  function PatchedThrough(us: seq<Pair>, k: Key, body: string, p: Policy): string
    decreases |us|
  {
    if us == [] then body
    else PatchedThrough(us[1..], k, if KeyOf(us[0].target) == k then PatchedBody(us[0], body, p) else body, p)
  }

  /** The first object with a key. */
  function FirstWith(objs: seq<Object>, k: Key): Option<Object>
    decreases |objs|
  {
    if objs == [] then None else if KeyOf(objs[0]) == k then Some(objs[0]) else FirstWith(objs[1..], k)
  }

  /** What patches find under a key: the stored object, or else the first one created. */
  function Before(c: Namespace, created: seq<Object>, k: Key): string {
    if k in c.objects then c.objects[k].body
    else match FirstWith(created, k)
         case None => ""
         case Some(o) => o.body
  }

  lemma {:induction false} PatchWrites(c: Namespace, us: seq<Pair>, owners: Option<seq<OwnerRef>>, p: Policy, k: Key)
    requires PatchedAll(c, us, owners, p).1 && k in c.objects
    requires forall u | u in us :: KeyFor(u.origin) == KeyFor(u.target)
    ensures var c' := PatchedAll(c, us, owners, p).0;
            k in c'.objects && c'.objects[k].body == PatchedThrough(us, k, c.objects[k].body, p)
    decreases |us|
  {
    if us != [] {
      var u := us[0];
      assert u in us && forall v | v in us[1..] :: v in us;
      var (c1, _) := PatchedOne(c, u, owners, p);
      assert KeyOf(u.target).(name := u.origin.name) == KeyOf(u.target);
      PatchWrites(c1, us[1..], owners, p, k);
    }
  }

  lemma {:induction false} CreateWrites(c: Namespace, objs: seq<Object>, owners: Option<seq<OwnerRef>>, k: Key)
    requires CreatedAll(c, objs, owners).1 && (k in c.objects || k in KeysOf(objs))
    ensures var c' := CreatedAll(c, objs, owners).0; k in c'.objects && c'.objects[k].body == Before(c, objs, k)
    decreases |objs|
  {
    if objs != [] {
      assert objs == [objs[0]] + objs[1..];
      CreatedOneEffect(c, objs[0], owners);
      CreateWrites(CreatedOne(c, objs[0], owners).0, objs[1..], owners, k);
    }
  }

  /**
   The content of a target that survives, for all lists: what was stored under its server key, or
   else what was created there first, patched by every pair with that key in turn.
   */
  lemma {:induction false} UpdateWrites(c: Namespace, plan: Plan, originals: seq<Object>, targets: seq<Object>,
                                        owners: Option<seq<OwnerRef>>, kept: Object -> bool, p: Policy, t: Object)
    requires Partitions(plan, originals, targets) && UpdatedAll(c, plan, owners, kept, p).1
    requires t in targets && Survives(originals, targets, kept, t)
    ensures var c', k := UpdatedAll(c, plan, owners, kept, p).0, KeyOf(t);
            && k in c'.objects
            && c'.objects[k].body
               == PatchedThrough(plan.toUpdate, k, Before(c, ByRank(plan.toCreate, p.rank), k), p)
  {
    TargetSurvivesIff(c, plan, originals, targets, owners, kept, p, t);
    var sorted, k := ByRank(plan.toCreate, p.rank), KeyOf(t);
    ByRankSameElements(plan.toCreate, p.rank);
    CreatedAllEffect(c, sorted, owners);
    PlanPairs(plan, originals, targets);
    PlanTargets(plan, originals, targets, t);
    var created := CreatedAll(c, sorted, owners).0;
    PatchedAreOwned(created, plan.toUpdate, owners, p);
    if t in plan.toCreate {
      assert t in sorted && k in KeysOf(sorted);
    }
    assert k in created.objects;
    CreateWrites(c, sorted, owners, k);
    PatchWrites(created, plan.toUpdate, owners, p, k);
  }

  lemma {:induction false} ThroughNone(us: seq<Pair>, k: Key, body: string, p: Policy)
    requires forall u | u in us :: KeyOf(u.target) != k
    ensures PatchedThrough(us, k, body, p) == body
    decreases |us|
  {
    if us != [] {
      assert us[0] in us && forall v | v in us[1..] :: v in us;
      ThroughNone(us[1..], k, body, p);
    }
  }

  lemma {:induction false} ThroughOne(us: seq<Pair>, u: Pair, body: string, p: Policy)
    requires u in us && forall i, j | 0 <= i < j < |us| :: KeyFor(us[i].target) != KeyFor(us[j].target)
    requires forall v | v in us && KeyOf(v.target) == KeyOf(u.target) :: v == u
    ensures PatchedThrough(us, KeyOf(u.target), body, p) == PatchedBody(u, body, p)
    decreases |us|
  {
    var rest := us[1..];
    assert us[0] in us && forall v | v in rest :: v in us;
    if us[0] == u {
      forall v | v in rest ensures KeyOf(v.target) != KeyOf(u.target) {
        var j :| 0 <= j < |rest| && rest[j] == v;
        assert us[j + 1] == v;
      }
      ThroughNone(rest, KeyOf(u.target), PatchedBody(u, body, p), p);
    } else {
      ThroughOne(rest, u, body, p);
    }
  }

  /** The usual case: a pair whose server key no other target has leaves the stored object patched by it alone. */
  lemma {:induction false} LonePairWrites(c: Namespace, plan: Plan, originals: seq<Object>, targets: seq<Object>,
                                          owners: Option<seq<OwnerRef>>, kept: Object -> bool, p: Policy,
                                          o: Object, t: Object)
    requires Partitions(plan, originals, targets) && UpdatedAll(c, plan, owners, kept, p).1
    requires o in originals && t in targets && KeyFor(o) == KeyFor(t) && Survives(originals, targets, kept, t)
    requires forall s | s in targets && KeyOf(s) == KeyOf(t) :: s == t
    ensures var c', k := UpdatedAll(c, plan, owners, kept, p).0, KeyOf(t);
            k in c.objects && k in c'.objects && c'.objects[k].body == PatchedBody(Pair(o, t), c.objects[k].body, p)
  {
    UpdateWrites(c, plan, originals, targets, owners, kept, p, t);
    PlanPairs(plan, originals, targets);
    LonePair(plan, originals, targets, o, t);
    var u, sorted := Pair(o, t), ByRank(plan.toCreate, p.rank);
    ByRankSameElements(plan.toCreate, p.rank);
    CreatedAllEffect(c, sorted, owners);
    PatchedAreOwned(CreatedAll(c, sorted, owners).0, plan.toUpdate, owners, p);
    assert KeyOf(t) !in KeysOf(sorted);
    ThroughOne(plan.toUpdate, u, c.objects[KeyOf(t)].body, p);
  }

  lemma LonePair(plan: Plan, originals: seq<Object>, targets: seq<Object>, o: Object, t: Object)
    requires Partitions(plan, originals, targets) && o in originals && t in targets && KeyFor(o) == KeyFor(t)
    requires forall s | s in targets && KeyOf(s) == KeyOf(t) :: s == t
    ensures Pair(o, t) in plan.toUpdate && forall s | s in plan.toCreate :: KeyOf(s) != KeyOf(t)
    ensures forall v | v in plan.toUpdate && KeyOf(v.target) == KeyOf(t) :: v == Pair(o, t)
  {
    PlanPairs(plan, originals, targets);
    var u := Pair(o, t);
    assert u in plan.toUpdate;
    forall v | v in plan.toUpdate && KeyOf(v.target) == KeyOf(t) ensures v == u {
      var i :| 0 <= i < |plan.toUpdate| && plan.toUpdate[i] == v;
      var j :| 0 <= j < |plan.toUpdate| && plan.toUpdate[j] == u;
    }
    assert forall s | s in plan.toCreate :: s in targets;
  }

  /**
   The smallest case of a target that does not survive: one that only changes the API version of a
   present, owned object is first found to exist and then deleted as an original, unless that is kept.
   */
  lemma VersionChangeDeletesTheObject(c: Namespace, o: Object, t: Object, owners: Option<seq<OwnerRef>>,
                                      kept: Object -> bool, p: Policy)
    requires t.gvk == o.gvk.(version := t.gvk.version) && t.gvk.version != o.gvk.version && t.name == o.name
    requires KeyOf(o) in c.objects && OwnedBy(owners, c.objects[KeyOf(o)])
    ensures var plan := Plan([t], [], [o]);
            && Partitions(plan, [o], [t])
            && UpdatedAll(c, plan, owners, kept, p).1
            && (KeyOf(t) !in UpdatedAll(c, plan, owners, kept, p).0.objects <==> !kept(o))
  {
    assert ByRank([t], p.rank) == [t] by {
      assert [t][1..] == [];
    }
    assert [t][1..] == [];
    assert CreatedAll(c, [t], owners) == (c, true);
    assert KeyOf(o) in Removable(c, [o], owners, kept) <==> !kept(o);
  }
}
