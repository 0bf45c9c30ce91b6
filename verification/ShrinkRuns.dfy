/**
 What the client does when it applies a workload (pkg/kube/client.go, pkg/kube/specified_ip.go) is an
 uninterrupted run of the shrinking protocol.
 */
module ShrinkRuns {
  import opened Common
  import opened SpecifiedIPs
  import opened Cluster
  import opened Client
  import opened IpShrink

  function PodKey(name: string): Key {
    Key("", "Pod", name)
  }

  ghost function PodNames(c: Namespace, release: string): set<string> {
    set k | k in PodsOf(c, release) :: k.name
  }

  lemma PodNamed(c: Namespace, release: string, name: string)
    ensures name in PodNames(c, release) <==> PodKey(name) in PodsOf(c, release)
  {
    if PodKey(name) in PodsOf(c, release) {
      assert PodKey(name).name == name;
    }
  }

  ghost function PodAddresses(c: Namespace, release: string): map<string, string> {
    map n | n in PodNames(c, release) :: if PodKey(n) in c.objects then c.objects[PodKey(n)].podIP else ""
  }

  /** What the protocol looks at: the annotations of the workload and the addresses of the release's pods. */
  ghost function View(c: Namespace, workload: Key, release: string): State
    requires workload in c.objects
  {
    State(c.objects[workload].annotations, PodAddresses(c, release), Idle)
  }

  /** Writing an object that is no pod does not touch pods. */
  lemma PodsUntouched(c: Namespace, c': Namespace, release: string, gone: set<Key>)
    requires forall k | IsPod(k) :: Lookup(c'.objects, k) == if k in gone then None else Lookup(c.objects, k)
    ensures PodAddresses(c', release)
         == PodAddresses(c, release) - set n | n in PodNames(c, release) && PodKey(n) in gone
  {
    forall n ensures n in PodNames(c', release) <==> n in PodNames(c, release) && PodKey(n) !in gone {
      PodNamed(c, release, n);
      PodNamed(c', release, n);
      assert IsPod(PodKey(n));
      assert PodKey(n) in PodsOf(c', release) <==> PodKey(n) in PodsOf(c, release) && PodKey(n) !in gone;
    }
    forall n | n in PodNames(c', release) ensures PodAddresses(c', release)[n] == PodAddresses(c, release)[n] {
      PodNamed(c', release, n);
      assert IsPod(PodKey(n));
    }
    SameMaps(PodAddresses(c', release),
      PodAddresses(c, release) - set n | n in PodNames(c, release) && PodKey(n) in gone);
  }

  lemma StraysAreOutside(c: Namespace, release: string, addresses: set<string>)
    ensures (set n | n in PodNames(c, release) && PodKey(n) in StrayPods(c, release, addresses))
         == Outside(PodAddresses(c, release), addresses)
  {
    forall n | n in PodNames(c, release)
      ensures PodKey(n) in StrayPods(c, release, addresses) <==> n in Outside(PodAddresses(c, release), addresses)
    {
      PodNamed(c, release, n);
    }
  }

  /** What the client finds out about a workload that exists before it writes anything. */
  ghost function Verdict(c: Namespace, given: Object, opts: Options, p: Policy): Result<bool, ()>
    requires KeyOf(Adopted(given, opts)) in c.objects
  {
    var o := Adopted(given, opts);
    Judge(o.annotations, c.objects[KeyOf(o)].annotations, p.lib)
  }

  /** The list that the object to be applied asks for. */
  ghost function Target(given: Object, opts: Options): string {
    Get(Adopted(given, opts).annotations, SPECIFIED_IPS).0
  }

  /** The pods that a successful apply of a workload deletes. */
  ghost function Swept(c: Namespace, given: Object, opts: Options, p: Policy): set<Key>
    requires KeyOf(Adopted(given, opts)) in c.objects
  {
    if Verdict(c, given, opts, p) == Ok(true)
    then StrayPods(c, Get(Adopted(given, opts).labels, RELEASE_LABEL).0, Addresses(Target(given, opts), p.lib))
    else {}
  }

  lemma WriteKeepsStrays(c: Namespace, k: Key, o: Object, release: string, addresses: set<string>)
    requires k in c.objects && !IsPod(k)
    ensures StrayPods(c.(objects := c.objects[k := o]), release, addresses) == StrayPods(c, release, addresses)
  {
    assert PodsOf(c.(objects := c.objects[k := o]), release) == PodsOf(c, release);
  }

  /** The objects after a successful apply of a workload, as far as pods and the workload go. */
  lemma AppliedWorkload(c: Namespace, given: Object, opts: Options, p: Policy)
    requires IsWorkload(Adopted(given, opts)) && KeyOf(Adopted(given, opts)) in c.objects
    requires AppliedOne(c, given, opts, p).1
    ensures var o, c' := Adopted(given, opts), AppliedOne(c, given, opts, p).0;
            && Verdict(c, given, opts, p).Ok? && KeyOf(o) in c'.objects
            && c'.objects[KeyOf(o)].annotations == o.annotations
            && (Verdict(c, given, opts, p) == Ok(true) ==> Parse(Target(given, opts), p.lib).Ok?)
            && forall k | k != KeyOf(o) ::
                 Lookup(c'.objects, k) == if k in Swept(c, given, opts, p) then None else Lookup(c.objects, k)
  {
    var o, raw := Adopted(given, opts), Target(given, opts);
    var marked := c.objects[KeyOf(o)].(annotations := MarkedAnnotations(c.objects[KeyOf(o)].annotations, raw));
    assert !IsPod(KeyOf(o));
    WriteKeepsStrays(c, KeyOf(o), marked, Get(o.labels, RELEASE_LABEL).0, Addresses(raw, p.lib));
  }

  /** The protocol and the client judge alike. */
  lemma SameVerdict(c: Namespace, given: Object, opts: Options, p: Policy)
    requires KeyOf(Adopted(given, opts)) in c.objects
    ensures Judge(Wanted(Target(given, opts)), c.objects[KeyOf(Adopted(given, opts))].annotations, p.lib)
         == Verdict(c, given, opts, p)
  {
    assert Get(Wanted(Target(given, opts)), SPECIFIED_IPS).0 == Target(given, opts);
  }

  /**
   Applying a workload that exists is a run of the protocol from start to finish: of a shrinking
   attempt with mark, sweep and final write, or of a direct one.
   */
  lemma {:induction false} ApplyIsARun(c: Namespace, given: Object, opts: Options, p: Policy, release: string)
    returns (trace: seq<State>, actions: seq<IpShrink.Action>)
    requires IsWorkload(Adopted(given, opts)) && KeyOf(Adopted(given, opts)) in c.objects
    requires AppliedOne(c, given, opts, p).1
    requires Verdict(c, given, opts, p) == Ok(true) ==> release == Get(Adopted(given, opts).labels, RELEASE_LABEL).0
    ensures var o, c' := Adopted(given, opts), AppliedOne(c, given, opts, p).0;
            && IsRun(trace, actions, p.lib) && KeyOf(o) in c'.objects
            && trace[0] == View(c, KeyOf(o), release) && trace[|actions|] == View(c', KeyOf(o), release)
            && |actions| >= 2 && actions[0] == Start(Target(given, opts))
            && actions[|actions| - 1] == Finish(o.annotations)
  {
    var o, c' := Adopted(given, opts), AppliedOne(c, given, opts, p).0;
    var raw := Target(given, opts);
    AppliedWorkload(c, given, opts, p);
    SameVerdict(c, given, opts, p);
    assert !IsPod(KeyOf(o));
    PodsUntouched(c, c', release, Swept(c, given, opts, p));
    trace, actions := [View(c, KeyOf(o), release)], [];
    trace, actions := Extend(trace, actions, Start(raw), p.lib);
    if Verdict(c, given, opts, p) == Ok(true) {
      trace, actions := Extend(trace, actions, Mark, p.lib);
      trace, actions := Extend(trace, actions, ListPods, p.lib);
      trace, actions := SweepOut(trace, actions, p.lib);
      StraysAreOutside(c, release, Addresses(raw, p.lib));
    } else {
      assert PodAddresses(c', release) == PodAddresses(c, release);
    }
    trace, actions := Extend(trace, actions, Finish(o.annotations), p.lib);
  }

  /**
   The client gives up on a workload that exists when somebody else owns it or the new list cannot
   be read, before it starts, or when a shrink finds the list unreadable or no release label.
   */
  ghost function Abandoned(c: Namespace, given: Object, opts: Options, p: Policy): seq<IpShrink.Action>
    requires KeyOf(Adopted(given, opts)) in c.objects
  {
    var o := Adopted(given, opts);
    if !OwnedBy(opts.owners, c.objects[KeyOf(o)]) && !Exempt(o, opts) then []
    else if Verdict(c, given, opts, p).Err? then []
    else if Parse(Target(given, opts), p.lib).Err? then [Start(Target(given, opts)), Stop]
    else [Start(Target(given, opts)), Mark, Stop]
  }

  lemma {:induction false} GiveUp(s: State, target: string, unreadable: bool, lib: Library)
    returns (trace: seq<State>, actions: seq<IpShrink.Action>)
    requires s.attempt.Idle? && Judge(Wanted(target), s.annotations, lib) == Ok(true)
    requires !unreadable ==> Parse(target, lib).Ok?
    ensures actions == if unreadable then [Start(target), Stop] else [Start(target), Mark, Stop]
    ensures IsRun(trace, actions, lib) && trace[0] == s
    ensures trace[|actions|]
         == if unreadable then s else s.(annotations := MarkedAnnotations(s.annotations, target))
  {
    trace, actions := Extend([s], [], Start(target), lib);
    if !unreadable {
      trace, actions := Extend(trace, actions, Mark, lib);
    }
    trace, actions := Extend(trace, actions, Stop, lib);
  }

  /** An apply that fails is a run as well, stopped exactly where the client gives up. */
  lemma {:induction false} FailedApplyIsARun(c: Namespace, given: Object, opts: Options, p: Policy, release: string)
    returns (trace: seq<State>)
    requires IsWorkload(Adopted(given, opts)) && KeyOf(Adopted(given, opts)) in c.objects
    requires !AppliedOne(c, given, opts, p).1
    ensures var o, c', actions := Adopted(given, opts), AppliedOne(c, given, opts, p).0, Abandoned(c, given, opts, p);
            && IsRun(trace, actions, p.lib) && KeyOf(o) in c'.objects
            && trace[0] == View(c, KeyOf(o), release) && trace[|actions|] == View(c', KeyOf(o), release)
  {
    var o, c' := Adopted(given, opts), AppliedOne(c, given, opts, p).0;
    SameVerdict(c, given, opts, p);
    assert !IsPod(KeyOf(o));
    PodsUntouched(c, c', release, {});
    assert PodAddresses(c', release) == PodAddresses(c, release);
    trace := [View(c, KeyOf(o), release)];
    if Abandoned(c, given, opts, p) != [] {
      var raw, actions := Target(given, opts), [];
      trace, actions := GiveUp(View(c, KeyOf(o), release), raw, Parse(raw, p.lib).Err?, p.lib);
    }
  }

  // ---------- Other workloads of the release ----------

  /** A shrink selects pods by the release label alone, whichever workload they belong to. */
  lemma SweepIsByLabelAlone(c: Namespace, given: Object, opts: Options, p: Policy, pod: Key)
    requires IsWorkload(Adopted(given, opts)) && KeyOf(Adopted(given, opts)) in c.objects
    requires AppliedOne(c, given, opts, p).1 && Verdict(c, given, opts, p) == Ok(true)
    requires IsPod(pod) && pod in c.objects
    ensures var o, c' := Adopted(given, opts), AppliedOne(c, given, opts, p).0;
            pod !in c'.objects <==>
              && Get(c.objects[pod].labels, RELEASE_LABEL) == (Get(o.labels, RELEASE_LABEL).0, true)
              && c.objects[pod].podIP != "" && c.objects[pod].podIP !in Addresses(Target(given, opts), p.lib)
  {
    AppliedWorkload(c, given, opts, p);
  }

  /**
   So shrinking one workload deletes the addressed pods of every other workload of the release
   outside its list, also those inside that workload's own list, whose annotations stay as they were.
   */
  lemma OtherWorkloadsLosePods(c: Namespace, given: Object, opts: Options, p: Policy, other: Key)
    requires IsWorkload(Adopted(given, opts)) && KeyOf(Adopted(given, opts)) in c.objects
    requires AppliedOne(c, given, opts, p).1 && Verdict(c, given, opts, p) == Ok(true)
    requires other in c.objects && other != KeyOf(Adopted(given, opts)) && !IsPod(other)
    ensures var c', release := AppliedOne(c, given, opts, p).0, Get(Adopted(given, opts).labels, RELEASE_LABEL).0;
            && other in c'.objects && c'.objects[other] == c.objects[other]
            && var pods := View(c, other, release).pods;
               View(c', other, release)
               == View(c, other, release).(pods := pods - Outside(pods, Addresses(Target(given, opts), p.lib)))
  {
    var c', release := AppliedOne(c, given, opts, p).0, Get(Adopted(given, opts).labels, RELEASE_LABEL).0;
    AppliedWorkload(c, given, opts, p);
    assert !IsPod(KeyOf(Adopted(given, opts)));
    assert Lookup(c'.objects, other) == Lookup(c.objects, other);
    PodsUntouched(c, c', release, Swept(c, given, opts, p));
    StraysAreOutside(c, release, Addresses(Target(given, opts), p.lib));
  }
}
