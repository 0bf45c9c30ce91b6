/**
 Apply never deletes and the collector never creates; together they bring a namespace to what a
 manifest says (pkg/kube/client.go and pkg/controller/gc/controller.go).
 */
module Convergence {
  import opened Common
  import opened ReleaseDoc
  import opened Histories
  import opened SpecifiedIPs
  import opened Cluster
  import opened Client
  import opened OwnerIndex
  import opened HistoryNames
  import opened Collector

  // ---------- One half: Apply ----------

  /** What applying an object does elsewhere: at most, pods of a shrinking workload go. */
  ghost predicate LeavesAlone(c: Namespace, c': Namespace, k: Key) {
    || Lookup(c'.objects, k) == Lookup(c.objects, k)
    || (MayBeSwept(c, k) && k !in c'.objects)
  }

  /** Pods that a shrinking workload could claim: labelled with a release and holding an address. */
  predicate MayBeSwept(c: Namespace, k: Key) {
    IsPod(k) && k in c.objects && c.objects[k].podIP != "" && Get(c.objects[k].labels, RELEASE_LABEL).1
  }

  /** A pod of the manifest that a shrinking workload could claim, before or after it is applied. */
  predicate Sweepable(c: Namespace, o: Object) {
    && IsPod(KeyOf(o)) && KeyOf(o) in c.objects && c.objects[KeyOf(o)].podIP != ""
    && (Get(c.objects[KeyOf(o)].labels, RELEASE_LABEL).1 || Get(o.labels, RELEASE_LABEL).1)
  }

  /** The object exists and carries the wanted references, unless its kind is exempt from them. */
  ghost predicate InEffect(c: Namespace, o: Object, opts: Options) {
    KeyOf(o) in c.objects && (Exempt(o, opts) || OwnedBy(opts.owners, c.objects[KeyOf(o)]))
  }

  /** What the object should say afterwards, given what was there before. */
  function Content(before: Option<Object>, o: Object, p: Policy): string {
    match before
    case None => o.body
    case Some(existing) =>
      if o.gvk.kind != "Job" then p.fix(o.gvk, existing.body, o.body)
      else if p.jobEqual(o.body, existing.body) then existing.body
      else o.body
  }

  /** When the object was created, as the server has it afterwards: only new ones and changed jobs are young. */
  function Birth(now: int, before: Option<Object>, o: Object, p: Policy): int {
    match before
    case None => now
    case Some(existing) =>
      if o.gvk.kind == "Job" && !p.jobEqual(o.body, existing.body) then now else existing.created
  }

  /** A job that did not change stays as it is. */
  predicate Unchanged(before: Option<Object>, o: Object, p: Policy) {
    before.Some? && o.gvk.kind == "Job" && p.jobEqual(o.body, before.value.body)
  }

  /** The rest of the object: what the manifest says, with the wanted references added; identity and address stay. */
  ghost predicate SaysTheRest(got: Object, before: Option<Object>, o: Object, opts: Options, p: Policy) {
    if Unchanged(before, o, p) then got == before.value
    else
      && got.gvk == o.gvk && got.name == o.name && got.labels == o.labels && got.annotations == o.annotations
      && got.owners == (if opts.owners.Some? && o.gvk !in opts.ignored then o.owners + opts.owners.value else o.owners)
      && (before.Some? && o.gvk.kind != "Job" ==> got.uid == before.value.uid && got.podIP == before.value.podIP)
  }

  /** The object is there with content, age and everything else as they should be. */
  ghost predicate HasContent(c: Namespace, c': Namespace, o: Object, opts: Options, p: Policy) {
    && KeyOf(o) in c'.objects && c'.objects[KeyOf(o)].body == Content(Lookup(c.objects, KeyOf(o)), o, p)
    && c'.objects[KeyOf(o)].created == Birth(c.now, Lookup(c.objects, KeyOf(o)), o, p)
    && SaysTheRest(c'.objects[KeyOf(o)], Lookup(c.objects, KeyOf(o)), o, opts, p)
  }

  lemma AppliedOneContent(c: Namespace, o: Object, opts: Options, p: Policy)
    requires AppliedOne(c, o, opts, p).1
    ensures HasContent(c, AppliedOne(c, o, opts, p).0, o, opts, p)
  {
    assert KeyOf(Adopted(o, opts)) == KeyOf(o);
  }

  lemma AppliedOneEffect(c: Namespace, o: Object, opts: Options, p: Policy)
    requires AppliedOne(c, o, opts, p).1
    ensures InEffect(AppliedOne(c, o, opts, p).0, o, opts)
    ensures HasContent(c, AppliedOne(c, o, opts, p).0, o, opts, p)
    ensures forall k | k != KeyOf(o) :: LeavesAlone(c, AppliedOne(c, o, opts, p).0, k)
    ensures !Sweepable(c, o) ==> !MayBeSwept(AppliedOne(c, o, opts, p).0, KeyOf(o))
    ensures AppliedOne(c, o, opts, p).0.now == c.now
  {
    var adopted := Adopted(o, opts);
    assert KeyOf(adopted) == KeyOf(o);
    AppliedOneContent(c, o, opts, p);
    assert !Exempt(o, opts) ==> OwnedBy(opts.owners, adopted);
  }

  /**
   What an apply writes for a release is what the collector attributes to it: an object given without
   owners, of a kind that is not exempt, and that is no unchanged job, is solely the release's.
   */
  lemma AppliedIsSolelyOwned(c: Namespace, c': Namespace, o: Object, opts: Options, p: Policy,
                             name: string, release: string)
    requires HasContent(c, c', o, opts, p) && o.owners == [] && o.gvk !in opts.ignored
    requires opts.owners == Some([ReleaseRef(name, release)]) && !Unchanged(Lookup(c.objects, KeyOf(o)), o, p)
    ensures SolelyOwnedBy(c'.objects[KeyOf(o)], release) && !Unrelated(c'.objects[KeyOf(o)], release, opts.ignored)
  {
    assert [] + [ReleaseRef(name, release)] == [ReleaseRef(name, release)];
    SolelyOwnedIff(c'.objects[KeyOf(o)], release);
  }

  lemma {:induction false} AppliedAllEffect(c: Namespace, objs: seq<Object>, opts: Options, p: Policy)
    requires AppliedAll(c, objs, opts, p).1
    requires Valid(c) && forall i, j | 0 <= i < j < |objs| :: KeyOf(objs[i]) != KeyOf(objs[j])
    ensures var c' := AppliedAll(c, objs, opts, p).0;
            && c'.now == c.now && Valid(c')
            && (forall o | o in objs && !Sweepable(c, o) :: InEffect(c', o, opts))
            && (forall k | k !in ManifestKeys(objs) :: LeavesAlone(c, c', k))
    decreases objs
  {
    if objs != [] {
      var first, rest := objs[0], objs[1..];
      AppliedOneEffect(c, first, opts, p);
      AppliedOneKeepsValid(c, first, opts, p);
      var c1 := AppliedOne(c, first, opts, p).0;
      AppliedAllEffect(c1, rest, opts, p);
      var c' := AppliedAll(c1, rest, opts, p).0;
      assert KeyOf(first) !in ManifestKeys(rest);
      assert LeavesAlone(c1, c', KeyOf(first));
      forall o | o in rest && !Sweepable(c, o) ensures !Sweepable(c1, o) {
        assert KeyOf(o) in ManifestKeys(rest) && LeavesAlone(c, c1, KeyOf(o));
      }
      forall k | k !in ManifestKeys(objs) ensures LeavesAlone(c, c', k) {
        assert first in objs && KeyOf(first) != k;
        assert k !in ManifestKeys(rest);
        assert LeavesAlone(c, c1, k) && LeavesAlone(c1, c', k);
      }
    }
  }

  lemma ContentPassesOn(c: Namespace, c1: Namespace, c': Namespace, o: Object, opts: Options, p: Policy)
    requires c1.now == c.now
    ensures LeavesAlone(c, c1, KeyOf(o)) && !MayBeSwept(c, KeyOf(o)) && HasContent(c1, c', o, opts, p) ==>
              HasContent(c, c', o, opts, p)
    ensures HasContent(c, c1, o, opts, p) && LeavesAlone(c1, c', KeyOf(o)) && !MayBeSwept(c1, KeyOf(o)) ==>
              HasContent(c, c', o, opts, p)
    ensures LeavesAlone(c, c1, KeyOf(o)) && !Sweepable(c, o) ==> !Sweepable(c1, o)
    ensures !Sweepable(c, o) && IsPod(KeyOf(o)) ==> !MayBeSwept(c, KeyOf(o))
  {
  }

  /** Every object of a successful apply, sweepable pods aside, ends up with the content it should have. */
  lemma {:induction false} AppliedContent(c: Namespace, objs: seq<Object>, opts: Options, p: Policy, o: Object)
    requires AppliedAll(c, objs, opts, p).1 && o in objs && !Sweepable(c, o)
    requires Valid(c) && forall i, j | 0 <= i < j < |objs| :: KeyOf(objs[i]) != KeyOf(objs[j])
    ensures HasContent(c, AppliedAll(c, objs, opts, p).0, o, opts, p)
    decreases objs
  {
    var first, rest := objs[0], objs[1..];
    assert objs == [first] + rest;
    AppliedOneEffect(c, first, opts, p);
    AppliedOneKeepsValid(c, first, opts, p);
    var c1 := AppliedOne(c, first, opts, p).0;
    ContentPassesOn(c, c1, AppliedAll(c1, rest, opts, p).0, o, opts, p);
    if o in rest {
      var j :| 0 <= j < |rest| && rest[j] == o;
      assert objs[j + 1] == o && KeyOf(o) != KeyOf(first);
      AppliedContent(c1, rest, opts, p, o);
    } else {
      AppliedAllEffect(c1, rest, opts, p);
      assert KeyOf(first) !in ManifestKeys(rest);
    }
  }

  /** The order among equal ranks does not matter for the keys of a manifest. */
  lemma SortedManifest(objs: seq<Object>, rank: string -> int)
    requires forall i, j | 0 <= i < j < |objs| :: KeyOf(objs[i]) != KeyOf(objs[j])
    ensures forall o :: o in ByRank(objs, rank) <==> o in objs
    ensures ManifestKeys(ByRank(objs, rank)) == ManifestKeys(objs)
    ensures forall i, j | 0 <= i < j < |objs| && |ByRank(objs, rank)| == |objs| ::
              KeyOf(ByRank(objs, rank)[i]) != KeyOf(ByRank(objs, rank)[j])
    ensures |ByRank(objs, rank)| == |objs|
  {
    ByRankSameElements(objs, rank);
    ByRankFacts(objs, rank);
    var sorted := ByRank(objs, rank);
    assert |multiset(sorted)| == |multiset(objs)|;
    forall i, j | 0 <= i < j < |sorted| ensures KeyOf(sorted[i]) != KeyOf(sorted[j]) {
      DistinctKeysInMultiset(objs, sorted[i]);
      if KeyOf(sorted[i]) == KeyOf(sorted[j]) {
        assert sorted[i] in objs && sorted[j] in objs;
        assert sorted[i] == sorted[j];
        TwiceInMultiset(sorted, i, j);
        assert false;
      }
    }
  }

  /** The first half, for a manifest in any order. */
  lemma {:induction false} AppliedManifest(c: Namespace, objs: seq<Object>, opts: Options, p: Policy)
    requires Valid(c) && AppliedAll(c, ByRank(objs, p.rank), opts, p).1
    requires forall i, j | 0 <= i < j < |objs| :: KeyOf(objs[i]) != KeyOf(objs[j])
    ensures var c' := AppliedAll(c, ByRank(objs, p.rank), opts, p).0;
            && c'.now == c.now && Valid(c')
            && (forall o | o in objs && !Sweepable(c, o) :: InEffect(c', o, opts) && HasContent(c, c', o, opts, p))
            && (forall k | k !in ManifestKeys(objs) :: LeavesAlone(c, c', k))
  {
    var sorted := ByRank(objs, p.rank);
    SortedManifest(objs, p.rank);
    AppliedAllEffect(c, sorted, opts, p);
    forall o | o in sorted && !Sweepable(c, o) ensures HasContent(c, AppliedAll(c, sorted, opts, p).0, o, opts, p) {
      AppliedContent(c, sorted, opts, p, o);
    }
  }

  lemma {:induction false} DistinctKeysInMultiset(objs: seq<Object>, o: Object)
    requires forall i, j | 0 <= i < j < |objs| :: KeyOf(objs[i]) != KeyOf(objs[j])
    ensures multiset(objs)[o] <= 1
  {
    if objs != [] {
      DistinctKeysInMultiset(objs[1..], o);
      assert objs == [objs[0]] + objs[1..];
      forall j | 0 <= j < |objs| - 1 ensures objs[1..][j] != objs[0] {
        assert KeyOf(objs[0]) != KeyOf(objs[j + 1]);
      }
      assert objs[0] == o ==> o !in multiset(objs[1..]);
    }
  }

  lemma TwiceInMultiset(s: seq<Object>, i: nat, j: nat)
    requires i < j < |s| && s[i] == s[j]
    ensures multiset(s)[s[i]] >= 2
  {
    assert s == s[..i] + [s[i]] + s[i + 1..j] + [s[j]] + s[j + 1..];
  }

  // ---------- Both halves ----------

  /** The index lists exactly the objects that the server attributes to a release. */
  ghost predicate InSync(index: Index, ignored: set<Gvk>, c: Namespace, release: string) {
    forall o :: o in HeldObjects(index, release) <==>
      KeyOf(o) in c.objects && c.objects[KeyOf(o)] == o && SolelyOwnedBy(o, release) && o.gvk !in ignored
  }

  /** An object the collector has no business with: not solely the release's, or of an ignored kind. */
  predicate Unrelated(o: Object, release: string, ignored: set<Gvk>) {
    !SolelyOwnedBy(o, release) || o.gvk in ignored
  }

  /** What the collector holds under InSync is what the server stores, so it is refused nothing. */
  lemma InSyncIsNeverRefused(index: Index, ignored: set<Gvk>, c: Namespace, release: string)
    requires InSync(index, ignored, c, release)
    ensures forall o | o in HeldObjects(index, release) :: !Refused(o, c.objects)
  {
  }

  /** Every informer has delivered the last state of every object there is, and the deletion of every other. */
  ghost predicate Delivered(events: seq<Event>, c: Namespace) {
    forall o: Object ::
      LastEvent(events, o.uid) == Some(SetEvent(o)) <==> KeyOf(o) in c.objects && c.objects[KeyOf(o)] == o
  }

  /** The index comes into step by itself: once all events are delivered, if objects kept their owners. */
  lemma {:induction false} DeliveredIsInSync(events: seq<Event>, ignored: set<Gvk>, c: Namespace, release: string)
    requires Steady(events) && Delivered(events, c)
    ensures InSync(AfterEvents(ignored, events), ignored, c, release)
  {
    var index := AfterEvents(ignored, events);
    forall o ensures o in HeldObjects(index, release) <==>
        KeyOf(o) in c.objects && c.objects[KeyOf(o)] == o && SolelyOwnedBy(o, release) && o.gvk !in ignored
    {
      IndexIsTheLastWord(events, ignored, release, o.uid);
      SteadyLastWord(events, ignored, release, o.uid);
      HeldIsInValues(index, release);
      assert Delivered(events, c);
      var last := LastEvent(events, o.uid);
      assert last == Some(SetEvent(o)) <==> last.Some? && last.value.SetEvent? && last.value.o == o;
    }
  }

  /** No old history has a name that the collector cannot read. */
  ghost predicate Readable(held: set<Object>, v: View, limit: int, now: int) {
    forall o | o in held :: !Unreadable(o, v, limit, now)
  }

  /**
   The convergence of one apply and one later collector pass for a manifest with distinct keys. The
   pass succeeds exactly when the names of all old histories can be read. Then every manifest object
   is there, in effect and with its content, sweepable pods aside; every other object that the
   release solely owns and that is old enough is gone, histories aside; histories in the window
   stay; and whatever neither belongs to the release nor to the manifest is untouched.
   */
  lemma {:induction false} ApplyThenCollectConverges(
      c: Namespace, objs: seq<Object>, opts: Options, p: Policy, later: int, index: Index, v: View, limit: int,
      order: seq<Object>, done: nat, ok: bool, c': Namespace)
    requires Valid(c) && AppliedAll(c, ByRank(objs, p.rank), opts, p).1
    requires forall i, j | 0 <= i < j < |objs| :: KeyOf(objs[i]) != KeyOf(objs[j])
    requires v.alive && v.desired == ManifestKeys(objs)
    requires var applied := AppliedAll(c, ByRank(objs, p.rank), opts, p).0.(now := later);
             && InSync(index, opts.ignored, applied, v.rel.uid) && Lists(order, HeldObjects(index, v.rel.uid))
             && Passed(applied, order, done, ok, v, limit, c')
    ensures ok <==> Readable(HeldObjects(index, v.rel.uid), v, limit, later)
    ensures ok ==> Converged(c, AppliedAll(c, ByRank(objs, p.rank), opts, p).0, objs, opts, p, later, v, limit, c')
  {
    AppliedManifest(c, objs, opts, p);
    var applied := AppliedAll(c, ByRank(objs, p.rank), opts, p).0.(now := later);
    var held := HeldObjects(index, v.rel.uid);
    InSyncIsNeverRefused(index, opts.ignored, applied, v.rel.uid);
    assert forall o :: o in order <==> o in Elements(order);
    PassSucceedsIff(applied, order, done, ok, v, limit, c');
    if ok {
      CollectedConverges(c, objs, opts, p, later, index, v, limit);
    }
  }

  /** What a pass that goes by another manifest does to an object of the one that was applied. */
  ghost predicate FallsVictim(c: Namespace, applied: Namespace, o: Object, opts: Options, p: Policy,
                              later: int, v: View)
    requires KeyOf(o) in applied.objects
  {
    && KeyOf(o) !in v.desired && !Unrelated(applied.objects[KeyOf(o)], v.rel.uid, opts.ignored)
    && later - Birth(c.now, Lookup(c.objects, KeyOf(o)), o, p) > GRACE_SECONDS
  }

  /**
   A pass between applying and publishing goes by the old manifest, or any other. It deletes an
   object of the new manifest exactly when the manifest it goes by lacks it, the release solely owns
   it, and it is past the grace period: objects that were there before are at once, new ones and
   re-created jobs some seconds after the apply.
   */
  lemma {:induction false} PassBeforePublishDeletesIff(
      c: Namespace, objs: seq<Object>, opts: Options, p: Policy, later: int, index: Index, v: View, limit: int,
      order: seq<Object>, done: nat, c': Namespace, o: Object)
    requires Valid(c) && AppliedAll(c, ByRank(objs, p.rank), opts, p).1
    requires forall i, j | 0 <= i < j < |objs| :: KeyOf(objs[i]) != KeyOf(objs[j])
    requires o in objs && !Sweepable(c, o) && !IsHistoryKey(KeyOf(o))
    requires var applied := AppliedAll(c, ByRank(objs, p.rank), opts, p).0.(now := later);
             && InSync(index, opts.ignored, applied, v.rel.uid) && Lists(order, HeldObjects(index, v.rel.uid))
             && Passed(applied, order, done, true, v, limit, c')
    ensures var applied := AppliedAll(c, ByRank(objs, p.rank), opts, p).0;
            && KeyOf(o) in applied.objects
            && (KeyOf(o) !in c'.objects <==> FallsVictim(c, applied, o, opts, p, later, v))
  {
    AppliedManifest(c, objs, opts, p);
    var applied := AppliedAll(c, ByRank(objs, p.rank), opts, p).0.(now := later);
    var held, k := HeldObjects(index, v.rel.uid), KeyOf(o);
    InSyncIsNeverRefused(index, opts.ignored, applied, v.rel.uid);
    assert forall q :: q in order <==> q in Elements(order);
    PassSucceedsIff(applied, order, done, true, v, limit, c');
    GoneWereDoomed(index, opts.ignored, applied, v, limit, later);
    assert HasContent(c, applied, o, opts, p);
    var stored := applied.objects[k];
    assert KeyOf(stored) == k;
    assert !Unrelated(stored, v.rel.uid, opts.ignored) <==> stored in held;
    assert k in DoomedKeys(held, v, limit, later) <==> stored in held && Doomed(stored, v, limit, later);
  }

  /** What is true after a successful apply, which led to `applied`, and a successful pass. */
  ghost predicate Converged(c: Namespace, applied: Namespace, objs: seq<Object>, opts: Options, p: Policy,
                            later: int, v: View, limit: int, c': Namespace) {
    && (forall o | o in objs && !Sweepable(c, o) && !IsHistoryKey(KeyOf(o)) ::
          InEffect(c', o, opts) && HasContent(c, c', o, opts, p))
    && (forall k | k in applied.objects && k !in ManifestKeys(objs) && !IsHistoryKey(k)
          && !Unrelated(applied.objects[k], v.rel.uid, opts.ignored) && Old(applied.objects[k], later) ::
          k !in c'.objects)
    && (forall k | k in applied.objects && applied.objects[k].gvk == HISTORY
          && HistoryVerdict(v, limit, applied.objects[k]) == Retain ::
          k in c'.objects)
    && (forall k | k !in ManifestKeys(objs) && !MayBeSwept(c, k)
          && (k in c.objects ==> Unrelated(c.objects[k], v.rel.uid, opts.ignored)) ::
          Lookup(c'.objects, k) == Lookup(c.objects, k))
  }

  /** Under InSync a pass only ever removes old objects of the release. */
  lemma {:induction false} GoneWereDoomed(index: Index, ignored: set<Gvk>, c: Namespace, v: View, limit: int, now: int)
    requires InSync(index, ignored, c, v.rel.uid)
    ensures forall k | k in DoomedKeys(HeldObjects(index, v.rel.uid), v, limit, now) ::
              && k in c.objects && KeyOf(c.objects[k]) == k && Doomed(c.objects[k], v, limit, now)
              && !Unrelated(c.objects[k], v.rel.uid, ignored)
  {
  }

  /** An old object of the release that no manifest asks for, histories aside, is among the doomed. */
  lemma {:induction false} UnwantedAreDoomed(index: Index, ignored: set<Gvk>, c: Namespace, v: View, limit: int)
    requires Valid(c) && InSync(index, ignored, c, v.rel.uid)
    ensures forall k | k in c.objects && k !in v.desired && !IsHistoryKey(k)
              && !Unrelated(c.objects[k], v.rel.uid, ignored) && Old(c.objects[k], c.now) ::
              k in DoomedKeys(HeldObjects(index, v.rel.uid), v, limit, c.now)
  {
    forall k | k in c.objects && k !in v.desired && !IsHistoryKey(k)
      && !Unrelated(c.objects[k], v.rel.uid, ignored) && Old(c.objects[k], c.now)
      ensures k in DoomedKeys(HeldObjects(index, v.rel.uid), v, limit, c.now)
    {
      var o := c.objects[k];
      assert o in HeldObjects(index, v.rel.uid) && Doomed(o, v, limit, c.now) && KeyOf(o) == k;
    }
  }

  lemma {:induction false} CollectedConverges(
      c: Namespace, objs: seq<Object>, opts: Options, p: Policy, later: int, index: Index, v: View, limit: int)
    requires Valid(c) && AppliedAll(c, ByRank(objs, p.rank), opts, p).1
    requires forall i, j | 0 <= i < j < |objs| :: KeyOf(objs[i]) != KeyOf(objs[j])
    requires v.alive && v.desired == ManifestKeys(objs)
    requires InSync(index, opts.ignored, AppliedAll(c, ByRank(objs, p.rank), opts, p).0.(now := later), v.rel.uid)
    ensures var applied := AppliedAll(c, ByRank(objs, p.rank), opts, p).0;
            Converged(c, applied, objs, opts, p, later, v, limit,
              Deleted(applied.(now := later), DoomedKeys(HeldObjects(index, v.rel.uid), v, limit, later)))
  {
    AppliedManifest(c, objs, opts, p);
    var applied := AppliedAll(c, ByRank(objs, p.rank), opts, p).0.(now := later);
    var held := HeldObjects(index, v.rel.uid);
    var gone := DoomedKeys(held, v, limit, later);
    GoneWereDoomed(index, opts.ignored, applied, v, limit, later);
    forall o | o in objs && !Sweepable(c, o) && !IsHistoryKey(KeyOf(o)) ensures KeyOf(o) !in gone {
      assert InEffect(applied, o, opts);
      assert KeyOf(o) in v.desired;
    }
    UnwantedAreDoomed(index, opts.ignored, applied, v, limit);
    forall k | k !in ManifestKeys(objs) && !MayBeSwept(c, k)
      && (k in c.objects ==> Unrelated(c.objects[k], v.rel.uid, opts.ignored))
      ensures Lookup(Deleted(applied, gone).objects, k) == Lookup(c.objects, k)
    {
      assert LeavesAlone(c, applied, k);
    }
  }

  /** Keys of the history kind; the collector decides about those by version, not by manifest. */
  predicate IsHistoryKey(k: Key) {
    k.group == HISTORY.group && k.kind == HISTORY.kind
  }

  /**
   Once its release is gone, a pass succeeds exactly when the names of all old histories can be
   read, and then everything old enough that the release solely owned is removed and nothing else.
   */
  lemma {:induction false} DeletedReleaseIsCleanedUp(
      c: Namespace, index: Index, ignored: set<Gvk>, v: View, limit: int,
      order: seq<Object>, done: nat, ok: bool, c': Namespace)
    requires !v.alive && v.desired == {} && InSync(index, ignored, c, v.rel.uid) && Valid(c)
    requires Lists(order, HeldObjects(index, v.rel.uid)) && Passed(c, order, done, ok, v, limit, c')
    ensures ok <==> Readable(HeldObjects(index, v.rel.uid), v, limit, c.now)
    ensures ok ==> forall k | k in c.objects ::
              k !in c'.objects <==> !Unrelated(c.objects[k], v.rel.uid, ignored) && Old(c.objects[k], c.now)
  {
    var held := HeldObjects(index, v.rel.uid);
    InSyncIsNeverRefused(index, ignored, c, v.rel.uid);
    assert forall o :: o in order <==> o in Elements(order);
    PassSucceedsIff(c, order, done, ok, v, limit, c');
    var gone := DoomedKeys(held, v, limit, c.now);
    forall k | k in c.objects
      ensures k in gone <==> !Unrelated(c.objects[k], v.rel.uid, ignored) && Old(c.objects[k], c.now)
    {
      var o := c.objects[k];
      assert KeyOf(o) == k;
      if !Unrelated(o, v.rel.uid, ignored) && Old(o, c.now) {
        assert o in held && Doomed(o, v, limit, c.now);
      }
    }
  }

  // ---------- Histories of a live release ----------

  /** A stored history of the release under its generated name, which the collector may judge by its age. */
  ghost predicate OldHistory(c: Namespace, ignored: set<Gvk>, rel: Release, k: Key, n: int) {
    && k in c.objects && c.objects[k].gvk == HISTORY && c.objects[k].name == Name(rel.name, n)
    && c.now - c.objects[k].created > 3 && !Unrelated(c.objects[k], rel.uid, ignored)
  }

  /**
   The window in the namespace itself: a successful pass for a live release removes an old history
   exactly when its version plus the limit does not reach beyond the current version.
   */
  lemma {:induction false} HistoryGoesIff(
      c: Namespace, index: Index, ignored: set<Gvk>, v: View, limit: Int32,
      order: seq<Object>, done: nat, c': Namespace, k: Key, n: Int32)
    requires v.alive && InSync(index, ignored, c, v.rel.uid) && Valid(c)
    requires Lists(order, HeldObjects(index, v.rel.uid)) && Passed(c, order, done, true, v, limit, c')
    requires OldHistory(c, ignored, v.rel, k, n)
    ensures n > 0
    ensures k !in c'.objects <==> n + limit <= v.rel.status.version
    ensures k in c'.objects ==> c'.objects[k] == c.objects[k]
  {
    var held, o := HeldObjects(index, v.rel.uid), c.objects[k];
    InSyncIsNeverRefused(index, ignored, c, v.rel.uid);
    assert forall q :: q in order <==> q in Elements(order);
    PassSucceedsIff(c, order, done, true, v, limit, c');
    RetentionIsAWindow(v.rel.name, n, v.rel.status.version, limit);
    assert KeyOf(o) == k && o in held && !Unreadable(o, v, limit, c.now);
    GoneWereDoomed(index, ignored, c, v, limit, c.now);
    assert k in DoomedKeys(held, v, limit, c.now) <==> Doomed(o, v, limit, c.now);
  }

  /** So at most `limit` old histories up to the current version are left, however many there were. */
  lemma {:induction false} AtMostLimitLeft(
      c: Namespace, index: Index, ignored: set<Gvk>, v: View, limit: Int32,
      order: seq<Object>, done: nat, c': Namespace, left: set<int>)
    requires v.alive && InSync(index, ignored, c, v.rel.uid) && Valid(c) && limit >= 0
    requires Lists(order, HeldObjects(index, v.rel.uid)) && Passed(c, order, done, true, v, limit, c')
    requires forall n | n in left ::
               var k := Key(HISTORY.group, HISTORY.kind, Name(v.rel.name, n));
               MIN_INT32 <= n <= v.rel.status.version && OldHistory(c, ignored, v.rel, k, n) && k in c'.objects
    ensures |left| <= limit
  {
    var current := v.rel.status.version;
    forall n | n in left ensures current - limit < n <= current {
      var k := Key(HISTORY.group, HISTORY.kind, Name(v.rel.name, n));
      HistoryGoesIff(c, index, ignored, v, limit, order, done, c', k, n);
    }
    WindowSize(current - limit, current, left);
  }
}
