/**
 When applying a manifest succeeds, told from the namespace it starts in; what it does to objects that
 others own; and when it shrinks a workload (pkg/kube/client.go, pkg/kube/specified_ip.go).
 */
module ApplyOutcome {
  import opened Common
  import opened SpecifiedIPs
  import opened Cluster
  import opened Client
  import opened Collector
  import opened Convergence
  import opened ShrinkRuns

  // ---------- The install order ----------

  const INSTALL_ORDER: seq<string> := [
    "Namespace", "ResourceQuota", "LimitRange", "Secret", "ConfigMap", "PersistentVolume",
    "PersistentVolumeClaim", "ServiceAccount", "ClusterRole", "ClusterRoleBinding", "Role", "RoleBinding",
    "Service", "DaemonSet", "Pod", "ReplicationController", "ReplicaSet", "Deployment", "StatefulSet", "Job",
    "CronJob", "Ingress"]

  /** Kinds that are not listed come last. */
  function InstallRank(kind: string): int {
    RankFrom(kind, 0)
  }

  function RankFrom(kind: string, i: nat): int
    requires i <= |INSTALL_ORDER|
    decreases |INSTALL_ORDER| - i
  {
    if i == |INSTALL_ORDER| then 127
    else if INSTALL_ORDER[i] == kind then i
    else RankFrom(kind, i + 1)
  }

  /** Pods are applied before the workloads whose shrinking could delete them. */
  predicate PodsFirst(rank: string -> int) {
    rank("Pod") < rank("Deployment") && rank("Pod") < rank("StatefulSet")
  }

  lemma {:induction false} RankFromFacts(kind: string, i: nat)
    requires i <= |INSTALL_ORDER|
    ensures i <= RankFrom(kind, i)
    ensures RankFrom(kind, i) < |INSTALL_ORDER| ==> INSTALL_ORDER[RankFrom(kind, i)] == kind
    ensures forall m | i <= m < |INSTALL_ORDER| && INSTALL_ORDER[m] == kind :: RankFrom(kind, i) <= m
    decreases |INSTALL_ORDER| - i
  {
    if i < |INSTALL_ORDER| {
      RankFromFacts(kind, i + 1);
    }
  }

  /** What is written in another length or begins with another letter is another kind. */
  predicate Unlike(a: string, b: string) {
    |a| != |b| || (|a| > 0 && a[0] != b[0])
  }

  lemma WorkloadsComeLate(kind: string)
    requires kind == "Deployment" || kind == "StatefulSet"
    ensures forall m | 0 <= m <= 14 :: Unlike(INSTALL_ORDER[m], kind)
  {
    assert |kind| == 10 || |kind| == 11;
    assert kind[0] == 'D' || kind[0] == 'S';
    assert |INSTALL_ORDER[0]| == 9 && |INSTALL_ORDER[1]| == 13 && |INSTALL_ORDER[3]| == 6 && |INSTALL_ORDER[4]| == 9;
    assert |INSTALL_ORDER[5]| == 16 && |INSTALL_ORDER[6]| == 21 && |INSTALL_ORDER[7]| == 14;
    assert |INSTALL_ORDER[9]| == 18 && |INSTALL_ORDER[10]| == 4 && |INSTALL_ORDER[12]| == 7;
    assert |INSTALL_ORDER[13]| == 9 && |INSTALL_ORDER[14]| == 3;
    assert INSTALL_ORDER[2][0] == 'L' && INSTALL_ORDER[8][0] == 'C' && INSTALL_ORDER[11][0] == 'R';
  }

  lemma InstallOrderPutsPodsFirst()
    ensures PodsFirst(InstallRank)
  {
    RankFromFacts("Pod", 0);
    assert INSTALL_ORDER[14] == "Pod";
    RankFromFacts("Deployment", 0);
    WorkloadsComeLate("Deployment");
    RankFromFacts("StatefulSet", 0);
    WorkloadsComeLate("StatefulSet");
  }

  // ---------- What an object meets ----------

  /** Another owner's object has the key, and the kind is not exempt: a wanted reference is missing. */
  ghost predicate Foreign(c: Namespace, o: Object, opts: Options) {
    && KeyOf(o) in c.objects && o.gvk !in opts.ignored && opts.owners.Some?
    && exists r :: r in opts.owners.value && r !in c.objects[KeyOf(o)].owners
  }

  ghost predicate IsMarked(c: Namespace, o: Object) {
    KeyOf(o) in c.objects && Get(c.objects[KeyOf(o)].annotations, DECREASING).1
  }

  function WantedList(o: Object): string {
    Get(o.annotations, SPECIFIED_IPS).0
  }

  ghost function StoredList(c: Namespace, o: Object): string
    requires KeyOf(o) in c.objects
  {
    Get(c.objects[KeyOf(o)].annotations, SPECIFIED_IPS).0
  }

  /** The new list is another one, can be read, and takes some granted address away. */
  ghost predicate TakesAway(c: Namespace, o: Object, lib: Library)
    requires KeyOf(o) in c.objects
  {
    && WantedList(o) != StoredList(c, o) && Parse(WantedList(o), lib).Ok?
    && exists ip :: ip in Addresses(StoredList(c, o), lib) && ip !in Addresses(WantedList(o), lib)
  }

  /** The lists of a present workload let it be applied: readable where read, and labelled where pods must go. */
  ghost predicate ListsAccepted(c: Namespace, o: Object, lib: Library)
    requires KeyOf(o) in c.objects
  {
    && (IsMarked(c, o) || WantedList(o) != StoredList(c, o) ==> Parse(WantedList(o), lib).Ok?)
    && (IsMarked(c, o) || TakesAway(c, o, lib) ==> Get(o.labels, RELEASE_LABEL).0 != "")
  }

  ghost predicate Welcome(c: Namespace, o: Object, opts: Options, lib: Library) {
    !Foreign(c, o, opts) && (IsWorkload(o) && KeyOf(o) in c.objects ==> ListsAccepted(c, o, lib))
  }

  lemma ForeignIff(c: Namespace, o: Object, opts: Options)
    requires KeyOf(o) in c.objects
    ensures Foreign(c, o, opts) <==> !OwnedBy(opts.owners, c.objects[KeyOf(o)]) && !Exempt(o, opts)
  {
  }

  /** When a workload is judged to shrink: if it is marked, or the new list takes a granted address away. */
  lemma ShrinksIff(c: Namespace, o: Object, opts: Options, p: Policy)
    requires KeyOf(Adopted(o, opts)) in c.objects
    ensures Verdict(c, o, opts, p) == Ok(true) <==> IsMarked(c, o) || TakesAway(c, o, p.lib)
    ensures Verdict(c, o, opts, p).Err? <==>
              !IsMarked(c, o) && WantedList(o) != StoredList(c, o) && Parse(WantedList(o), p.lib).Err?
  {
    var granted, wanted := Addresses(StoredList(c, o), p.lib), Addresses(WantedList(o), p.lib);
    assert granted <= wanted <==> forall ip | ip in granted :: ip in wanted;
  }

  /** One object is applied exactly when it is welcome. */
  lemma AppliedOneIff(c: Namespace, o: Object, opts: Options, p: Policy)
    ensures AppliedOne(c, o, opts, p).1 <==> Welcome(c, o, opts, p.lib)
  {
    if KeyOf(o) in c.objects {
      assert KeyOf(Adopted(o, opts)) == KeyOf(o);
      ForeignIff(c, o, opts);
      ShrinksIff(c, o, opts, p);
    }
  }

  // ---------- What it does elsewhere ----------

  /** Applying an object, successfully or not, leaves others alone up to swept pods, and all but pods for a workload. */
  lemma AppliedOneElsewhere(c: Namespace, o: Object, opts: Options, p: Policy, k: Key)
    requires k != KeyOf(o)
    ensures LeavesAlone(c, AppliedOne(c, o, opts, p).0, k)
    ensures !IsWorkload(o) || !IsPod(k) ==> Lookup(AppliedOne(c, o, opts, p).0.objects, k) == Lookup(c.objects, k)
  {
    assert KeyOf(Adopted(o, opts)) == KeyOf(o);
  }

  lemma {:induction false} AppliedAllElsewhere(c: Namespace, objs: seq<Object>, opts: Options, p: Policy, k: Key)
    requires forall o | o in objs :: KeyOf(o) != k
    ensures LeavesAlone(c, AppliedAll(c, objs, opts, p).0, k)
    decreases objs
  {
    if objs != [] {
      assert objs[0] in objs && forall o | o in objs[1..] :: o in objs;
      AppliedOneElsewhere(c, objs[0], opts, p, k);
      AppliedAllElsewhere(AppliedOne(c, objs[0], opts, p).0, objs[1..], opts, p, k);
    }
  }

  /** In install order no pod comes after a workload. */
  lemma NoPodsAfterWorkloads(objs: seq<Object>, p: Policy, i: nat)
    requires 0 < i < |objs| && Ranked(objs, p.rank) && PodsFirst(p.rank) && IsWorkload(objs[0])
    ensures !IsPod(KeyOf(objs[i]))
  {
  }

  /** What comes later meets the namespace that the apply started in. */
  lemma LaterMeetTheSame(c: Namespace, objs: seq<Object>, opts: Options, p: Policy, i: nat)
    requires 0 < i < |objs| && Ranked(objs, p.rank) && PodsFirst(p.rank) && KeyOf(objs[i]) != KeyOf(objs[0])
    ensures Lookup(AppliedOne(c, objs[0], opts, p).0.objects, KeyOf(objs[i])) == Lookup(c.objects, KeyOf(objs[i]))
  {
    AppliedOneElsewhere(c, objs[0], opts, p, KeyOf(objs[i]));
    if IsWorkload(objs[0]) {
      NoPodsAfterWorkloads(objs, p, i);
    }
  }

  lemma WelcomeDependsOnItsKey(c: Namespace, c1: Namespace, o: Object, opts: Options, lib: Library)
    requires Lookup(c1.objects, KeyOf(o)) == Lookup(c.objects, KeyOf(o))
    ensures Welcome(c1, o, opts, lib) <==> Welcome(c, o, opts, lib)
  {
  }

  // ---------- Whole manifests ----------

  ghost predicate AllWelcome(c: Namespace, objs: seq<Object>, opts: Options, lib: Library) {
    forall i | 0 <= i < |objs| :: Welcome(c, objs[i], opts, lib)
  }

  lemma {:induction false} AppliedSortedIff(c: Namespace, objs: seq<Object>, opts: Options, p: Policy)
    requires Ranked(objs, p.rank) && PodsFirst(p.rank)
    requires forall i, j | 0 <= i < j < |objs| :: KeyOf(objs[i]) != KeyOf(objs[j])
    ensures AppliedAll(c, objs, opts, p).1 <==> AllWelcome(c, objs, opts, p.lib)
    decreases objs
  {
    if objs != [] {
      var first, rest := objs[0], objs[1..];
      AppliedOneIff(c, first, opts, p);
      var c1 := AppliedOne(c, first, opts, p).0;
      AppliedSortedIff(c1, rest, opts, p);
      forall i | 0 <= i < |rest| ensures Welcome(c1, rest[i], opts, p.lib) <==> Welcome(c, objs[i + 1], opts, p.lib) {
        LaterMeetTheSame(c, objs, opts, p, i + 1);
        WelcomeDependsOnItsKey(c, c1, rest[i], opts, p.lib);
      }
      if AllWelcome(c1, rest, opts, p.lib) && Welcome(c, first, opts, p.lib) {
        forall i | 0 <= i < |objs| ensures Welcome(c, objs[i], opts, p.lib) {
          assert i > 0 ==> Welcome(c1, rest[i - 1], opts, p.lib);
        }
      }
      if AllWelcome(c, objs, opts, p.lib) {
        forall i | 0 <= i < |rest| ensures Welcome(c1, rest[i], opts, p.lib) {
          assert Welcome(c, objs[i + 1], opts, p.lib);
        }
      }
    }
  }

  /**
   When an apply succeeds, for a manifest with distinct keys: exactly when every object of it is
   welcome in the namespace at the start. In particular a successful one met no object of another
   owner, of a kind that is not exempt.
   */
  lemma {:induction false} ApplySucceedsIff(c: Namespace, objs: seq<Object>, opts: Options, p: Policy)
    requires PodsFirst(p.rank)
    requires forall i, j | 0 <= i < j < |objs| :: KeyOf(objs[i]) != KeyOf(objs[j])
    ensures AppliedAll(c, ByRank(objs, p.rank), opts, p).1 <==> forall o | o in objs :: Welcome(c, o, opts, p.lib)
    ensures AppliedAll(c, ByRank(objs, p.rank), opts, p).1 ==> forall o | o in objs :: !Foreign(c, o, opts)
  {
    var sorted := ByRank(objs, p.rank);
    ByRankFacts(objs, p.rank);
    SortedManifest(objs, p.rank);
    AppliedSortedIff(c, sorted, opts, p);
    forall o ensures o in objs <==> o in sorted {
    }
    if AllWelcome(c, sorted, opts, p.lib) {
      forall o | o in objs ensures Welcome(c, o, opts, p.lib) {
        assert o in sorted;
      }
    }
    if forall o | o in objs :: Welcome(c, o, opts, p.lib) {
      forall i | 0 <= i < |sorted| ensures Welcome(c, sorted[i], opts, p.lib) {
        assert sorted[i] in objs;
      }
    }
  }

  lemma {:induction false} ForeignStaysSorted(c: Namespace, objs: seq<Object>, opts: Options, p: Policy, k: Key)
    requires Ranked(objs, p.rank) && PodsFirst(p.rank)
    requires forall o | o in objs && KeyOf(o) == k :: Foreign(c, o, opts)
    ensures LeavesAlone(c, AppliedAll(c, objs, opts, p).0, k)
    decreases objs
  {
    if objs != [] {
      var first, rest := objs[0], objs[1..];
      assert first in objs && forall o | o in rest :: o in objs;
      AppliedOneIff(c, first, opts, p);
      if KeyOf(first) == k {
        ForeignIff(c, first, opts);
      } else {
        AppliedOneElsewhere(c, first, opts, p, k);
        var c1 := AppliedOne(c, first, opts, p).0;
        if Lookup(c1.objects, k) == Lookup(c.objects, k) {
          ForeignStaysSorted(c1, rest, opts, p, k);
        } else {
          forall o | o in rest ensures KeyOf(o) != k {
            var i :| 0 <= i < |rest| && rest[i] == o;
            NoPodsAfterWorkloads(objs, p, i + 1);
          }
          AppliedAllElsewhere(c1, rest, opts, p, k);
        }
      }
    }
  }

  /**
   In any apply, successful or not, an object of another owner is as it was, pods that a shrinking
   workload can sweep aside; and so is what the manifest does not name.
   */
  lemma {:induction false} ForeignIsUntouched(c: Namespace, objs: seq<Object>, opts: Options, p: Policy, k: Key)
    requires PodsFirst(p.rank) && forall o | o in objs && KeyOf(o) == k :: Foreign(c, o, opts)
    ensures LeavesAlone(c, AppliedAll(c, ByRank(objs, p.rank), opts, p).0, k)
  {
    ByRankFacts(objs, p.rank);
    ByRankSameElements(objs, p.rank);
    ForeignStaysSorted(c, ByRank(objs, p.rank), opts, p, k);
  }

  // ---------- Where a failing apply stops ----------

  lemma {:induction false} AppliedUpTo(c: Namespace, objs: seq<Object>, opts: Options, p: Policy, i: nat)
    requires i < |objs| && AppliedAll(c, objs[..i], opts, p).1
    requires !AppliedOne(AppliedAll(c, objs[..i], opts, p).0, objs[i], opts, p).1
    ensures AppliedAll(c, objs, opts, p).0 == AppliedOne(AppliedAll(c, objs[..i], opts, p).0, objs[i], opts, p).0
    decreases i
  {
    if i > 0 {
      assert objs[..i][0] == objs[0] && objs[..i][1..] == objs[1..][..i - 1];
      AppliedUpTo(AppliedOne(c, objs[0], opts, p).0, objs[1..], opts, p, i - 1);
    } else {
      assert objs[..0] == [];
    }
  }

  /** Objects with other keys, and no workloads if the key is a pod's, leave a key alone. */
  lemma {:induction false} OthersLeaveKey(c: Namespace, objs: seq<Object>, opts: Options, p: Policy, k: Key)
    requires forall o | o in objs :: KeyOf(o) != k && (IsWorkload(o) ==> !IsPod(k))
    ensures Lookup(AppliedAll(c, objs, opts, p).0.objects, k) == Lookup(c.objects, k)
    decreases objs
  {
    if objs != [] {
      assert objs[0] in objs && forall o | o in objs[1..] :: o in objs;
      AppliedOneElsewhere(c, objs[0], opts, p, k);
      OthersLeaveKey(AppliedOne(c, objs[0], opts, p).0, objs[1..], opts, p, k);
    }
  }

  lemma PrefixMeetsTheSame(c: Namespace, objs: seq<Object>, opts: Options, p: Policy, i: nat, m: nat)
    requires m <= i < |objs| && Ranked(objs, p.rank) && PodsFirst(p.rank)
    requires forall j, k | 0 <= j < k < |objs| :: KeyOf(objs[j]) != KeyOf(objs[k])
    ensures Lookup(AppliedAll(c, objs[..m], opts, p).0.objects, KeyOf(objs[i])) == Lookup(c.objects, KeyOf(objs[i]))
  {
    forall o | o in objs[..m] ensures KeyOf(o) != KeyOf(objs[i]) && (IsWorkload(o) ==> !IsPod(KeyOf(objs[i]))) {
      var j :| 0 <= j < m && objs[j] == o;
      assert p.rank(objs[j].gvk.kind) <= p.rank(objs[i].gvk.kind);
    }
    OthersLeaveKey(c, objs[..m], opts, p, KeyOf(objs[i]));
  }

  lemma {:induction false} StopsThere(c: Namespace, objs: seq<Object>, opts: Options, p: Policy, i: nat)
    requires Ranked(objs, p.rank) && PodsFirst(p.rank) && i < |objs|
    requires forall j, k | 0 <= j < k < |objs| :: KeyOf(objs[j]) != KeyOf(objs[k])
    requires !Welcome(c, objs[i], opts, p.lib) && AllWelcome(c, objs[..i], opts, p.lib)
    ensures AppliedAll(c, objs[..i], opts, p).1
    ensures AppliedAll(c, objs, opts, p).0 == AppliedOne(AppliedAll(c, objs[..i], opts, p).0, objs[i], opts, p).0
  {
    var c1 := AppliedAll(c, objs[..i], opts, p).0;
    AppliedSortedIff(c, objs[..i], opts, p);
    PrefixMeetsTheSame(c, objs, opts, p, i, i);
    WelcomeDependsOnItsKey(c, c1, objs[i], opts, p.lib);
    AppliedOneIff(c1, objs[i], opts, p);
    AppliedUpTo(c, objs, opts, p, i);
  }

  /** What a successful prefix put into effect stays so when the next object is applied, successfully or not. */
  lemma {:induction false} PrefixInEffect(c: Namespace, objs: seq<Object>, opts: Options, p: Policy, next: Object,
                                          o: Object)
    requires Valid(c) && AppliedAll(c, objs, opts, p).1 && o in objs && !Sweepable(c, o)
    requires forall j, k | 0 <= j < k < |objs| :: KeyOf(objs[j]) != KeyOf(objs[k])
    requires var c1 := AppliedAll(c, objs, opts, p).0;
             Lookup(AppliedOne(c1, next, opts, p).0.objects, KeyOf(o)) == Lookup(c1.objects, KeyOf(o))
    ensures var c' := AppliedOne(AppliedAll(c, objs, opts, p).0, next, opts, p).0;
            InEffect(c', o, opts) && HasContent(c, c', o, opts, p)
  {
    AppliedAllEffect(c, objs, opts, p);
    AppliedContent(c, objs, opts, p, o);
  }

  /** An object that is refused sweeps nothing. */
  lemma RefusedSweepsNothing(c: Namespace, o: Object, opts: Options, p: Policy, k: Key)
    requires !AppliedOne(c, o, opts, p).1 && k != KeyOf(o)
    ensures Lookup(AppliedOne(c, o, opts, p).0.objects, k) == Lookup(c.objects, k)
  {
    assert KeyOf(Adopted(o, opts)) == KeyOf(o);
  }

  /**
   A failing apply stops at the first object that is not welcome: what comes before it in install
   order is in effect with its content, and what comes after it is untouched, sweepable pods aside.
   */
  lemma {:induction false} ApplyStopsAtTheFirst(c: Namespace, objs: seq<Object>, opts: Options, p: Policy, i: nat)
    requires Ranked(objs, p.rank) && PodsFirst(p.rank) && Valid(c) && i < |objs|
    requires forall j, k | 0 <= j < k < |objs| :: KeyOf(objs[j]) != KeyOf(objs[k])
    requires !Welcome(c, objs[i], opts, p.lib) && AllWelcome(c, objs[..i], opts, p.lib)
    ensures var c' := AppliedAll(c, objs, opts, p).0;
            && (forall j | 0 <= j < i && !Sweepable(c, objs[j]) ::
                  InEffect(c', objs[j], opts) && HasContent(c, c', objs[j], opts, p))
            && (forall j | i < j < |objs| :: LeavesAlone(c, c', KeyOf(objs[j])))
  {
    var c1 := AppliedAll(c, objs[..i], opts, p).0;
    StopsThere(c, objs, opts, p, i);
    PrefixMeetsTheSame(c, objs, opts, p, i, i);
    WelcomeDependsOnItsKey(c, c1, objs[i], opts, p.lib);
    AppliedOneIff(c1, objs[i], opts, p);
    forall j | 0 <= j < i && !Sweepable(c, objs[j])
      ensures InEffect(AppliedAll(c, objs, opts, p).0, objs[j], opts)
           && HasContent(c, AppliedAll(c, objs, opts, p).0, objs[j], opts, p)
    {
      assert objs[..i][j] == objs[j] && objs[j] in objs[..i];
      RefusedSweepsNothing(c1, objs[i], opts, p, KeyOf(objs[j]));
      PrefixInEffect(c, objs[..i], opts, p, objs[i], objs[j]);
    }
    forall j | i < j < |objs| ensures LeavesAlone(c, AppliedAll(c, objs, opts, p).0, KeyOf(objs[j])) {
      AppliedAllElsewhere(c, objs[..i], opts, p, KeyOf(objs[j]));
      RefusedSweepsNothing(c1, objs[i], opts, p, KeyOf(objs[j]));
    }
  }

  // ---------- When a workload shrinks ----------

  /**
   Growth is no shrink: an unmarked workload that is welcome, and whose granted addresses are all in
   the new list, is applied at once. It says what it is given, so that there is no marker unless
   that brings one, and every other object stays, pods included.
   */
  lemma GrowthDeletesNothing(c: Namespace, o: Object, opts: Options, p: Policy)
    requires IsWorkload(o) && KeyOf(o) in c.objects && !IsMarked(c, o) && !Foreign(c, o, opts)
    requires WantedList(o) == StoredList(c, o) || Parse(WantedList(o), p.lib).Ok?
    requires forall ip | ip in Addresses(StoredList(c, o), p.lib) :: ip in Addresses(WantedList(o), p.lib)
    ensures var (c', ok) := AppliedOne(c, o, opts, p);
            && ok && KeyOf(o) in c'.objects && c'.objects[KeyOf(o)].annotations == o.annotations
            && forall k | k != KeyOf(o) :: Lookup(c'.objects, k) == Lookup(c.objects, k)
  {
    assert KeyOf(Adopted(o, opts)) == KeyOf(o);
    ForeignIff(c, o, opts);
    ShrinksIff(c, o, opts, p);
  }

  /**
   When pods go: applying a present, unmarked workload that nobody else owns deletes a pod exactly
   when the new list takes some granted address away, the workload has a release label, and the pod
   is one of that release with an address outside the new list.
   */
  lemma PodGoesIff(c: Namespace, o: Object, opts: Options, p: Policy, pod: Key)
    requires IsWorkload(o) && KeyOf(o) in c.objects && !IsMarked(c, o) && !Foreign(c, o, opts)
    requires IsPod(pod) && pod in c.objects
    ensures pod !in AppliedOne(c, o, opts, p).0.objects <==>
              && TakesAway(c, o, p.lib) && Get(o.labels, RELEASE_LABEL).0 != ""
              && Get(c.objects[pod].labels, RELEASE_LABEL) == (Get(o.labels, RELEASE_LABEL).0, true)
              && c.objects[pod].podIP != "" && c.objects[pod].podIP !in Addresses(WantedList(o), p.lib)
  {
    assert KeyOf(Adopted(o, opts)) == KeyOf(o);
    ForeignIff(c, o, opts);
    ShrinksIff(c, o, opts, p);
    AppliedOneIff(c, o, opts, p);
    if AppliedOne(c, o, opts, p).1 {
      AppliedWorkload(c, o, opts, p);
    }
  }

  /**
   When a marker is written: applying such a workload without a release label leaves it marked, with
   the new list, exactly when the new list takes some granted address away.
   */
  lemma MarkedIff(c: Namespace, o: Object, opts: Options, p: Policy)
    requires IsWorkload(o) && KeyOf(o) in c.objects && !IsMarked(c, o) && !Foreign(c, o, opts)
    requires Get(o.labels, RELEASE_LABEL).0 == "" && !Get(o.annotations, DECREASING).1
    ensures IsMarked(AppliedOne(c, o, opts, p).0, o) <==> TakesAway(c, o, p.lib)
  {
    assert KeyOf(Adopted(o, opts)) == KeyOf(o);
    ForeignIff(c, o, opts);
    ShrinksIff(c, o, opts, p);
    if TakesAway(c, o, p.lib) {
      assert c.objects[KeyOf(o)].annotations.Some? by {
        assert Parse("", p.lib) == Ok([]);
      }
      MarkerIsWritten(c.objects[KeyOf(o)].annotations, WantedList(o));
    }
  }
}
