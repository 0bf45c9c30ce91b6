/**
 Shrinking a workload's address list (pkg/kube/specified_ip.go, called from pkg/kube/client.go), as
 interleaved steps: the client judges, writes list and marker, lists and deletes pods, and writes the
 final object; it may stop after any step and later start over with another target. Meanwhile pods
 appear, get addresses from the list in force, and vanish.
 */
module IpShrink {
  import opened Common
  import opened SpecifiedIPs

  datatype Attempt =
    | Idle
    | Direct(target: string)                       // judged not to shrink
    | Shrinking(target: string)                    // judged to shrink; nothing written yet
    | Marked(target: string)                       // list and marker written
    | Sweeping(target: string, todo: set<string>)  // pods listed; these remain to be deleted

  /** `annotations` are the workload's; `pods` maps the release's pods to their addresses, "" for none. */
  datatype State = State(annotations: StringMap, pods: map<string, string>, attempt: Attempt)

  datatype Action =
    | Start(target: string)
    | Mark
    | ListPods
    | DeletePod(pod: string)
    | Finish(annotations: StringMap)
    | Stop
    | PodAppears(pod: string)
    | PodGetsAddress(pod: string, ip: string)
    | PodVanishes(pod: string)

  function ListText(s: State): string {
    Get(s.annotations, SPECIFIED_IPS).0
  }

  predicate HasMarker(s: State) {
    Get(s.annotations, DECREASING).1
  }

  ghost function Granted(s: State, lib: Library): set<string> {
    Addresses(ListText(s), lib)
  }

  /** The annotations of the object to be applied, as far as they matter here. */
  function Wanted(target: string): StringMap {
    Some(map[SPECIFIED_IPS := target])
  }

  ghost predicate Enabled(s: State, a: Action, lib: Library) {
    match a
    case Start(target) => s.attempt.Idle? && Judge(Wanted(target), s.annotations, lib).Ok?
    case Mark => s.attempt.Shrinking? && Parse(s.attempt.target, lib).Ok?
    case ListPods => s.attempt.Marked?
    case DeletePod(pod) => s.attempt.Sweeping? && pod in s.attempt.todo
    case Finish(annotations) =>
      && (s.attempt.Direct? || (s.attempt.Sweeping? && s.attempt.todo == {}))
      && Get(annotations, SPECIFIED_IPS).0 == s.attempt.target
    case Stop => true
    case PodAppears(pod) => pod !in s.pods
    case PodGetsAddress(pod, ip) => pod in s.pods && (ip in Granted(s, lib) || Granted(s, lib) == {})
    case PodVanishes(_) => true
  }

  ghost function Next(s: State, a: Action, lib: Library): State {
    match a
    case Start(target) =>
      s.(attempt := if Judge(Wanted(target), s.annotations, lib) == Ok(true) then Shrinking(target) else Direct(target))
    case Mark =>
      if s.attempt.Shrinking?
      then s.(annotations := MarkedAnnotations(s.annotations, s.attempt.target), attempt := Marked(s.attempt.target))
      else s
    case ListPods =>
      if s.attempt.Marked?
      then s.(attempt := Sweeping(s.attempt.target, Outside(s.pods, Addresses(s.attempt.target, lib))))
      else s
    case DeletePod(pod) =>
      if s.attempt.Sweeping?
      then s.(pods := s.pods - {pod}, attempt := Sweeping(s.attempt.target, s.attempt.todo - {pod}))
      else s
    case Finish(annotations) => s.(annotations := annotations, attempt := Idle)
    case Stop => s.(attempt := Idle)
    case PodAppears(pod) => s.(pods := s.pods[pod := ""])
    case PodGetsAddress(pod, ip) => s.(pods := s.pods[pod := ip])
    case PodVanishes(pod) => s.(pods := s.pods - {pod})
  }

  /** The pods that a sweep with these addresses deletes. */
  function Outside(pods: map<string, string>, addresses: set<string>): set<string> {
    set p | p in pods && pods[p] != "" && pods[p] !in addresses
  }

  /** The promise: without a marker, every pod that has an address has one of the list. */
  ghost predicate Consistent(s: State, lib: Library) {
    !HasMarker(s) ==> Outside(s.pods, Granted(s, lib)) == {}
  }

  /** A target that the client can use and that grants nothing. */
  ghost predicate EmptyTarget(target: string, lib: Library) {
    Parse(target, lib).Ok? && Addresses(target, lib) == {}
  }

  /** Attempts are for targets that grant something, or that the client refuses. */
  ghost predicate NonEmptyTargets(a: Action, lib: Library) {
    a.Start? ==> !EmptyTarget(a.target, lib)
  }

  ghost predicate Inv(s: State, lib: Library) {
    && Granted(s, lib) != {} && Consistent(s, lib)
    && match s.attempt
       case Idle => true
       case Direct(target) =>
         Addresses(target, lib) != {} && !HasMarker(s) && Granted(s, lib) <= Addresses(target, lib)
       case Shrinking(target) => !EmptyTarget(target, lib)
       case Marked(target) => HasMarker(s) && ListText(s) == target
       case Sweeping(target, todo) =>
         HasMarker(s) && ListText(s) == target && Outside(s.pods, Granted(s, lib)) <= todo
  }

  /** A list that grants something lives in an annotation map, so the writes are not lost. */
  lemma GrantedHasAnnotations(s: State, lib: Library)
    requires Granted(s, lib) != {}
    ensures s.annotations.Some?
  {
    assert Parse("", lib) == Ok([]);
  }

  lemma StartKeepsInv(s: State, a: Action, lib: Library)
    requires Inv(s, lib) && a.Start? && Enabled(s, a, lib) && NonEmptyTargets(a, lib)
    ensures Inv(Next(s, a, lib), lib)
  {
    assert Get(Wanted(a.target), SPECIFIED_IPS).0 == a.target;
  }

  /** Every step keeps the promise and what carries it across stops. */
  lemma StepKeepsInv(s: State, a: Action, lib: Library)
    requires Inv(s, lib) && Enabled(s, a, lib) && NonEmptyTargets(a, lib)
    ensures Inv(Next(s, a, lib), lib)
  {
    var s' := Next(s, a, lib);
    match a
    case Start(_) => StartKeepsInv(s, a, lib);
    case Mark =>
      GrantedHasAnnotations(s, lib);
      MarkerIsWritten(s.annotations, s.attempt.target);
    case Finish(annotations) =>
      assert Granted(s', lib) == Addresses(s.attempt.target, lib);
      assert Outside(s'.pods, Granted(s', lib)) <= Outside(s.pods, Granted(s, lib));
    case DeletePod(pod) =>
      assert Granted(s', lib) == Granted(s, lib);
      assert Outside(s'.pods, Granted(s', lib)) == Outside(s.pods, Granted(s, lib)) - {pod};
    case PodAppears(_) =>
      assert Outside(s'.pods, Granted(s', lib)) == Outside(s.pods, Granted(s, lib));
    case PodGetsAddress(pod, ip) =>
      assert Outside(s'.pods, Granted(s', lib)) == Outside(s.pods, Granted(s, lib)) - {pod};
    case PodVanishes(pod) =>
      assert Outside(s'.pods, Granted(s', lib)) == Outside(s.pods, Granted(s, lib)) - {pod};
    case _ =>
  }

  ghost predicate IsRun(trace: seq<State>, actions: seq<Action>, lib: Library) {
    && |trace| == |actions| + 1
    && forall i | 0 <= i < |actions| ::
         Enabled(trace[i], actions[i], lib) && trace[i + 1] == Next(trace[i], actions[i], lib)
  }

  ghost predicate IsProtectedRun(trace: seq<State>, actions: seq<Action>, lib: Library) {
    && IsRun(trace, actions, lib)
    && trace[0].attempt.Idle? && Granted(trace[0], lib) != {} && Consistent(trace[0], lib)
    && forall i | 0 <= i < |actions| :: NonEmptyTargets(actions[i], lib)
  }

  /**
   In every run that starts inside a non-empty list and never asks for an empty one, whenever the
   marker is absent all pods with an address are inside the list; stops and changes of target
   included.
   */
  lemma {:induction false} UnmarkedListsAreHonest(trace: seq<State>, actions: seq<Action>, lib: Library, i: nat)
    requires IsProtectedRun(trace, actions, lib) && i < |trace|
    ensures !HasMarker(trace[i]) ==>
              forall p | p in trace[i].pods && trace[i].pods[p] != "" :: trace[i].pods[p] in Granted(trace[i], lib)
    ensures Inv(trace[i], lib)
    decreases i
  {
    if i > 0 {
      UnmarkedListsAreHonest(trace, actions, lib, i - 1);
      StepKeepsInv(trace[i - 1], actions[i - 1], lib);
    }
    forall p | p in trace[i].pods && trace[i].pods[p] != "" && !HasMarker(trace[i])
      ensures trace[i].pods[p] in Granted(trace[i], lib)
    {
      assert p !in Outside(trace[i].pods, Granted(trace[i], lib));
    }
  }

  // ---------- Whole attempts ----------

  /** Steps that belong to the attempt going on, or to pods. */
  predicate Within(a: Action) {
    !a.Start? && !a.Finish? && !a.Stop?
  }

  /** The attempt on a target, somewhere on its way; what it has achieved so far if it shrinks. */
  ghost predicate OnItsWay(s: State, target: string, lib: Library) {
    match s.attempt
    case Idle => false
    case Direct(t) => t == target
    case Shrinking(t) => t == target && s.annotations.Some?
    case Marked(t) => t == target && ListText(s) == target
    case Sweeping(t, todo) =>
      t == target && ListText(s) == target && Outside(s.pods, Addresses(target, lib)) <= todo
  }

  lemma StepStaysOnItsWay(s: State, a: Action, target: string, lib: Library)
    requires OnItsWay(s, target, lib) && Addresses(target, lib) != {} && Enabled(s, a, lib) && Within(a)
    ensures OnItsWay(Next(s, a, lib), target, lib) && (Next(s, a, lib).attempt.Direct? <==> s.attempt.Direct?)
  {
    if a.Mark? {
      MarkerIsWritten(s.annotations, target);
    }
  }

  lemma {:induction false} StaysOnItsWay(trace: seq<State>, actions: seq<Action>, lib: Library, i: nat, j: nat,
                                         target: string)
    requires IsRun(trace, actions, lib) && i <= j < |trace| && OnItsWay(trace[i], target, lib)
    requires Addresses(target, lib) != {} && forall k | i <= k < j :: Within(actions[k])
    ensures OnItsWay(trace[j], target, lib) && (trace[j].attempt.Direct? <==> trace[i].attempt.Direct?)
    decreases j - i
  {
    if i < j {
      StaysOnItsWay(trace, actions, lib, i, j - 1, target);
      StepStaysOnItsWay(trace[j - 1], actions[j - 1], target, lib);
    }
  }

  /**
   A completed attempt that shrinks repairs the promise from any state whatever: begun with a
   non-empty target and not stopped, it ends with every addressed pod inside the target's list,
   even if none was at the start and whatever pods came, went and got addresses on the way.
   */
  lemma CompletedShrinkRepairs(trace: seq<State>, actions: seq<Action>, lib: Library, i: nat, j: nat)
    requires IsRun(trace, actions, lib) && i < j < |actions| && actions[i].Start? && actions[j].Finish?
    requires forall k | i < k < j :: Within(actions[k])
    requires Addresses(actions[i].target, lib) != {}
    requires Judge(Wanted(actions[i].target), trace[i].annotations, lib) == Ok(true)
    ensures ListText(trace[j + 1]) == actions[i].target
    ensures HasMarker(trace[j + 1]) <==> Get(actions[j].annotations, DECREASING).1
    ensures Outside(trace[j + 1].pods, Granted(trace[j + 1], lib)) == {}
    ensures Judge(Wanted(actions[i].target), trace[j + 1].annotations, lib) == Ok(HasMarker(trace[j + 1]))
  {
    var target := actions[i].target;
    ShrinkHasAnnotations(trace[i].annotations, target, lib);
    StaysOnItsWay(trace, actions, lib, i + 1, j, target);
    assert Get(Wanted(target), SPECIFIED_IPS).0 == target;
  }

  /** Whatever is judged to shrink has an annotation map, so its writes are not lost. */
  lemma ShrinkHasAnnotations(annotations: StringMap, target: string, lib: Library)
    requires Judge(Wanted(target), annotations, lib) == Ok(true)
    ensures annotations.Some?
  {
    assert Parse("", lib) == Ok([]);
  }

  lemma Extend(trace: seq<State>, actions: seq<Action>, a: Action, lib: Library)
    returns (longer: seq<State>, more: seq<Action>)
    requires IsRun(trace, actions, lib) && Enabled(trace[|actions|], a, lib)
    ensures IsRun(longer, more, lib) && more == actions + [a] && longer[0] == trace[0]
    ensures longer[|more|] == Next(trace[|actions|], a, lib)
  {
    longer, more := trace + [Next(trace[|actions|], a, lib)], actions + [a];
  }

  // ---------- Why targets must stay non-empty ----------

  /** The actions after the first start of an attempt with a non-empty target at most. */
  ghost predicate LaterNonEmpty(actions: seq<Action>, lib: Library) {
    forall i | 1 <= i < |actions| :: NonEmptyTargets(actions[i], lib)
  }

  /** The pods to be deleted go one by one. */
  lemma {:induction false} SweepOut(trace: seq<State>, actions: seq<Action>, lib: Library)
    returns (longer: seq<State>, more: seq<Action>)
    requires IsRun(trace, actions, lib) && actions != [] && LaterNonEmpty(actions, lib)
    requires trace[|actions|].attempt.Sweeping?
    ensures IsRun(longer, more, lib) && more != [] && longer[0] == trace[0] && more[0] == actions[0]
    ensures LaterNonEmpty(more, lib)
    ensures var s, s' := trace[|actions|], longer[|more|];
            s' == State(s.annotations, s.pods - s.attempt.todo, Sweeping(s.attempt.target, {}))
    decreases trace[|actions|].attempt.todo
  {
    var s := trace[|actions|];
    if s.attempt.todo == {} {
      longer, more := trace, actions;
      assert s.pods - {} == s.pods;
    } else {
      var pod :| pod in s.attempt.todo;
      longer, more := Extend(trace, actions, DeletePod(pod), lib);
      assert s.pods - {pod} - (s.attempt.todo - {pod}) == s.pods - s.attempt.todo;
      longer, more := SweepOut(longer, more, lib);
    }
  }

  function Listed(raw: string): map<string, string> {
    map[SPECIFIED_IPS := raw]
  }

  lemma ListedText(raw: string)
    ensures Get(Some(Listed(raw)), SPECIFIED_IPS) == (raw, true) && DECREASING !in Listed(raw)
  {
    assert |SPECIFIED_IPS| != |DECREASING|;
  }

  /** From any idle state with a non-empty list, an accepted empty target can be carried through. */
  lemma {:induction false} ShrinkToEmpty(s: State, target: string, lib: Library)
    returns (trace: seq<State>, actions: seq<Action>)
    requires s.attempt.Idle? && Granted(s, lib) != {}
    requires Enabled(s, Start(target), lib) && EmptyTarget(target, lib)
    ensures IsRun(trace, actions, lib) && actions != [] && trace[0] == s && actions[0] == Start(target)
    ensures LaterNonEmpty(actions, lib)
    ensures var s' := trace[|actions|];
            && s'.annotations == Some(Listed(target)) && s'.attempt == Idle
            && s'.pods == s.pods - Outside(s.pods, {})
  {
    trace, actions := [s], [];
    assert Get(Wanted(target), SPECIFIED_IPS).0 == target;
    assert Judge(Wanted(target), s.annotations, lib) == Ok(true);
    trace, actions := Extend(trace, actions, Start(target), lib);
    trace, actions := Extend(trace, actions, Mark, lib);
    trace, actions := Extend(trace, actions, ListPods, lib);
    assert trace[|actions|].pods == s.pods;
    trace, actions := SweepOut(trace, actions, lib);
    ListedText(target);
    trace, actions := Extend(trace, actions, Finish(Some(Listed(target))), lib);
  }

  /** Then any address may be given to a pod, new or not. */
  lemma {:induction false} StrayAppears(s: State, target: string, lib: Library, pod: string, stray: string)
    returns (trace: seq<State>, actions: seq<Action>)
    requires s.attempt.Idle? && Granted(s, lib) != {} && stray != ""
    requires Enabled(s, Start(target), lib) && EmptyTarget(target, lib)
    ensures IsRun(trace, actions, lib) && actions != [] && trace[0] == s && actions[0] == Start(target)
    ensures LaterNonEmpty(actions, lib)
    ensures var s' := trace[|actions|];
            && s'.annotations == Some(Listed(target)) && s'.attempt == Idle
            && pod in s'.pods && s'.pods[pod] == stray
  {
    trace, actions := ShrinkToEmpty(s, target, lib);
    ListedText(target);
    if pod !in trace[|actions|].pods {
      trace, actions := Extend(trace, actions, PodAppears(pod), lib);
    }
    trace, actions := Extend(trace, actions, PodGetsAddress(pod, stray), lib);
  }

  /**
   An empty target breaks the promise for good. From every idle state with a non-empty list, every
   accepted empty target has a run on which a pod gets an address, and then any non-empty target
   without that address is judged not to shrink: the run ends with that list, unmarked, and the
   pod outside it.
   */
  lemma {:induction false} EmptyTargetBreaksThePromise(s: State, target: string, next: string, lib: Library,
                                                       stray: string)
    returns (trace: seq<State>, actions: seq<Action>)
    requires s.attempt.Idle? && Granted(s, lib) != {}
    requires Enabled(s, Start(target), lib) && EmptyTarget(target, lib)
    requires Parse(next, lib).Ok? && Addresses(next, lib) != {} && stray != "" && stray !in Addresses(next, lib)
    ensures IsRun(trace, actions, lib) && actions != [] && trace[0] == s && actions[0] == Start(target)
    ensures LaterNonEmpty(actions, lib)
    ensures var s' := trace[|actions|];
            ListText(s') == next && s'.attempt.Idle? && !HasMarker(s') && !Consistent(s', lib)
  {
    trace, actions := StrayAppears(s, target, lib, "p", stray);
    ListedText(target);
    ListedText(next);
    assert Get(Wanted(next), SPECIFIED_IPS).0 == next;
    trace, actions := Extend(trace, actions, Start(next), lib);
    assert trace[|actions|].attempt == Direct(next);
    trace, actions := Extend(trace, actions, Finish(Some(Listed(next))), lib);
    assert "p" in Outside(trace[|actions|].pods, Granted(trace[|actions|], lib));
  }

  lemma UnusedAddress(used: set<string>) returns (ip: string)
    ensures ip != "" && forall u | u in used :: |u| < |ip|
  {
    ip := "x";
    if used != {} {
      var u := Inhabitant(used);
      var longer := UnusedAddress(used - {u});
      ip := longer + u;
    }
  }

  /**
   A target keeps the promise when every run that starts with it, and stays non-empty afterwards,
   does wherever a list is in force; an empty one restricts nothing.
   */
  ghost predicate KeepsPromise(s: State, target: string, lib: Library) {
    forall trace: seq<State>, actions: seq<Action> |
      && IsRun(trace, actions, lib) && actions != [] && trace[0] == s && actions[0] == Start(target)
      && LaterNonEmpty(actions, lib) && Granted(trace[|actions|], lib) != {} ::
      Consistent(trace[|actions|], lib)
  }

  /** Empty targets are exactly those that break it, for every idle consistent state with a non-empty list. */
  lemma {:induction false} NonEmptyTargetsAreExact(s: State, target: string, lib: Library)
    requires s.attempt.Idle? && Granted(s, lib) != {} && Consistent(s, lib)
    requires Enabled(s, Start(target), lib)
    ensures KeepsPromise(s, target, lib) <==> !EmptyTarget(target, lib)
  {
    if !EmptyTarget(target, lib) {
      forall trace: seq<State>, actions: seq<Action> |
        && IsRun(trace, actions, lib) && actions != [] && trace[0] == s && actions[0] == Start(target)
        && LaterNonEmpty(actions, lib)
        ensures Consistent(trace[|actions|], lib)
      {
        assert IsProtectedRun(trace, actions, lib);
        UnmarkedListsAreHonest(trace, actions, lib, |actions|);
      }
    } else {
      var stray := UnusedAddress(Granted(s, lib));
      var trace, actions := EmptyTargetBreaksThePromise(s, target, ListText(s), lib, stray);
      assert Granted(trace[|actions|], lib) == Granted(s, lib);
    }
  }
}
