/** Counting the phases of the resources of a release (pkg/controller/status/controller.go). */
module StatusCounters {
  import opened Common
  import opened Paths
  import opened TreeContents
  import Executor
  import Carrier

  type Counter = map<string, nat>

  const FAILED := "Failed"

  datatype Pods = Pods(outdated: Counter, updated: Counter)

  /** The verdict on one resource; decoding or looking it up may also fail. */
  datatype Judgement = Judgement(kind: string, phase: string, reason: string, message: string, pods: Option<Pods>)

  type Judge = string -> Option<Judgement>

  datatype Detail = Detail(path: string, resources: map<string, Counter>, reason: string, message: string)

  // ---------- Counters ----------

  function Count(counter: Counter, k: string): nat {
    if k in counter then counter[k] else 0
  }

  function CountOf(d: Detail, kind: string, phase: string): nat {
    if kind in d.resources then Count(d.resources[kind], phase) else 0
  }

  /** The loop that adds one counter map into another. */
  function Plus(a: Counter, b: Counter): (r: Counter)
    ensures forall k :: Count(r, k) == Count(a, k) + Count(b, k)
  {
    map k | k in a.Keys + b.Keys :: Count(a, k) + Count(b, k)
  }

  /** The sum of the values of a map, in any order. */
  ghost function Sum<K(!new)>(m: map<K, nat>): nat {
    if m == map[] then 0 else var k :| k in m; m[k] + Sum(m - {k})
  }

  lemma {:induction false} SumWithout<K(!new)>(m: map<K, nat>, k: K)
    requires k in m
    ensures Sum(m) == m[k] + Sum(m - {k})
    decreases |m|
  {
    var c :| c in m && Sum(m) == m[c] + Sum(m - {c});
    if c != k {
      SumWithout(m - {c}, k);
      SumWithout(m - {k}, c);
      assert (m - {c}) - {k} == (m - {k}) - {c};
    }
  }

  lemma SumUpdated<K(!new)>(m: map<K, nat>, k: K, v: nat)
    ensures Sum(m[k := v]) + (if k in m then m[k] else 0) == Sum(m) + v
  {
    SumWithout(m[k := v], k);
    if k in m {
      SumWithout(m, k);
      assert m[k := v] - {k} == m - {k};
    } else {
      assert m[k := v] - {k} == m;
    }
  }

  // ---------- One node ----------

  /** The loop body of the handler, as far as the detail goes. */
  function Noted(d: Detail, j: Judgement): Detail {
    var counter := if j.kind in d.resources then d.resources[j.kind] else map[];
    var next := d.(resources := d.resources[j.kind := counter[j.phase := Count(counter, j.phase) + 1]]);
    if j.phase == FAILED then next.(reason := j.reason, message := j.message) else next
  }

  function NodeDetail(judge: Judge, path: string, rs: seq<string>): Option<Detail> {
    if rs == [] then
      Some(Detail(path, map[], "", ""))
    else
      var before, j := NodeDetail(judge, path, rs[..|rs| - 1]), judge(rs[|rs| - 1]);
      if before.Some? && j.Some? then Some(Noted(before.value, j.value)) else None
  }

  function PodsAfter(pods: Pods, j: Option<Judgement>): Pods {
    if j.Some? && j.value.pods.Some? then
      Pods(Plus(pods.outdated, j.value.pods.value.outdated), Plus(pods.updated, j.value.pods.value.updated))
    else
      pods
  }

  predicate Judged(judge: Judge, rs: seq<string>) {
    forall r | r in rs :: judge(r).Some?
  }

  /** Pods are counted up to the first resource that cannot be judged. */
  function PodsOf(pods: Pods, judge: Judge, rs: seq<string>): Pods {
    if rs == [] then pods
    else if !Judged(judge, rs[..|rs| - 1]) then PodsOf(pods, judge, rs[..|rs| - 1])
    else PodsAfter(PodsOf(pods, judge, rs[..|rs| - 1]), judge(rs[|rs| - 1]))
  }

  /** How many resources of a kind are in a phase. */
  function Occurrences(judge: Judge, rs: seq<string>, kind: string, phase: string): nat {
    if rs == [] then
      0
    else
      var j := judge(rs[|rs| - 1]);
      Occurrences(judge, rs[..|rs| - 1], kind, phase)
      + if j.Some? && j.value.kind == kind && j.value.phase == phase then 1 else 0
  }

  /** The last resource that failed, whose reason and message the node shows. */
  function LastFailure(judge: Judge, rs: seq<string>): Option<Judgement> {
    if rs == [] then
      None
    else
      var j := judge(rs[|rs| - 1]);
      if j.Some? && j.value.phase == FAILED then j else LastFailure(judge, rs[..|rs| - 1])
  }

  /** The pods in a phase that the resources report, outdated or updated. */
  function ReportedPods(judge: Judge, rs: seq<string>, outdated: bool, phase: string): nat {
    if rs == [] then
      0
    else
      var j := judge(rs[|rs| - 1]);
      ReportedPods(judge, rs[..|rs| - 1], outdated, phase)
      + if j.Some? && j.value.pods.Some?
        then Count(if outdated then j.value.pods.value.outdated else j.value.pods.value.updated, phase) else 0
  }

  /** Pod statistics accumulate phase by phase, the two kinds apart. */
  lemma {:induction false} PodsAddUp(pods: Pods, judge: Judge, rs: seq<string>, phase: string)
    requires Judged(judge, rs)
    ensures Count(PodsOf(pods, judge, rs).outdated, phase)
         == Count(pods.outdated, phase) + ReportedPods(judge, rs, true, phase)
    ensures Count(PodsOf(pods, judge, rs).updated, phase)
         == Count(pods.updated, phase) + ReportedPods(judge, rs, false, phase)
  {
    if rs != [] {
      assert forall r | r in rs[..|rs| - 1] :: r in rs;
      PodsAddUp(pods, judge, rs[..|rs| - 1], phase);
    }
  }

  ghost function KindTotals(resources: map<string, Counter>): map<string, nat> {
    map k | k in resources :: Sum(resources[k])
  }

  ghost function Total(d: Detail): nat {
    Sum(KindTotals(d.resources))
  }

  lemma KindUpdated(resources: map<string, Counter>, kind: string, next: Counter)
    ensures Sum(KindTotals(resources[kind := next])) + (if kind in resources then Sum(resources[kind]) else 0)
            == Sum(KindTotals(resources)) + Sum(next)
  {
    assert KindTotals(resources[kind := next]) == KindTotals(resources)[kind := Sum(next)];
    SumUpdated(KindTotals(resources), kind, Sum(next));
  }

  lemma OneMoreInPhase(counter: Counter, phase: string)
    ensures Sum(counter[phase := Count(counter, phase) + 1]) == Sum(counter) + 1
  {
    SumUpdated(counter, phase, Count(counter, phase) + 1);
  }

  lemma NotedTotal(d: Detail, j: Judgement)
    ensures Total(Noted(d, j)) == Total(d) + 1
  {
    var counter: Counter := if j.kind in d.resources then d.resources[j.kind] else map[];
    var next: Counter := counter[j.phase := Count(counter, j.phase) + 1];
    assert Noted(d, j).resources == d.resources[j.kind := next];
    OneMoreInPhase(counter, j.phase);
    KindUpdated(d.resources, j.kind, next);
  }

  /** The counters of a node are the numbers of its resources by kind and phase, and add up to all of them. */
  lemma {:induction false} CountersAreCounts(judge: Judge, path: string, rs: seq<string>)
    ensures NodeDetail(judge, path, rs).Some? <==> Judged(judge, rs)
    ensures var d := NodeDetail(judge, path, rs);
            d.Some? ==>
              && d.value.path == path && Total(d.value) == |rs|
              && forall kind, phase :: CountOf(d.value, kind, phase) == Occurrences(judge, rs, kind, phase)
  {
    if rs != [] {
      var init, last := rs[..|rs| - 1], rs[|rs| - 1];
      CountersAreCounts(judge, path, init);
      assert rs == init + [last];
      var before := NodeDetail(judge, path, init);
      if before.Some? && judge(last).Some? {
        NotedTotal(before.value, judge(last).value);
      }
    }
  }

  /** The reason and the message of a node are those of its last failed resource. */
  lemma {:induction false} FailureShows(judge: Judge, path: string, rs: seq<string>)
    requires NodeDetail(judge, path, rs).Some?
    ensures var d, failure := NodeDetail(judge, path, rs).value, LastFailure(judge, rs);
            && d.reason == (if failure.Some? then failure.value.reason else "")
            && d.message == (if failure.Some? then failure.value.message else "")
  {
    if rs != [] {
      FailureShows(judge, path, rs[..|rs| - 1]);
    }
  }

  // ---------- All nodes ----------

  ghost function PathOf(root: string, p: Position): string {
    Join([root] + p)
  }

  /** What the handlers leave in the shared map, run one after the other. */
  ghost function DetailsOf(judge: Judge, root: string, t: Contents, order: seq<Position>): map<string, Detail> {
    if order == [] then
      map[]
    else
      var p := order[|order| - 1];
      var before := DetailsOf(judge, root, t, order[..|order| - 1]);
      var d := NodeDetail(judge, PathOf(root, p), ResourcesAt(t, p));
      if d.Some? then before[PathOf(root, p) := d.value] else before
  }

  ghost function NodeTotals(details: map<string, Detail>): map<string, nat> {
    map p | p in details :: Total(details[p])
  }

  ghost function GrandTotal(details: map<string, Detail>): nat {
    Sum(NodeTotals(details))
  }

  ghost predicate SlashFreeNodes(root: string, order: seq<Position>) {
    forall p | p in order :: Segments([root] + p)
  }

  lemma PathsAreDistinct(root: string, p: Position, q: Position)
    requires Segments([root] + p) && Segments([root] + q) && PathOf(root, p) == PathOf(root, q)
    ensures p == q
  {
    SplitUndoesJoin([root] + p);
    SplitUndoesJoin([root] + q);
    assert ([root] + p)[1..] == p && ([root] + q)[1..] == q;
  }

  ghost function NodePaths(root: string, order: seq<Position>): set<string> {
    set p | p in order :: PathOf(root, p)
  }

  /** One detail for every node, no other, each with the counts of that node. */
  ghost predicate DetailsFit(details: map<string, Detail>, judge: Judge, root: string, t: Contents,
                             order: seq<Position>)
  {
    && details.Keys == NodePaths(root, order)
    && forall p | p in order ::
         Lookup(details, PathOf(root, p)) == NodeDetail(judge, PathOf(root, p), ResourcesAt(t, p))
  }

  lemma DetailsFitOneMore(details: map<string, Detail>, judge: Judge, root: string, t: Contents,
                          init: seq<Position>, p: Position)
    requires DetailsFit(details, judge, root, t, init) && SlashFreeNodes(root, init + [p]) && p !in init
    requires NodeDetail(judge, PathOf(root, p), ResourcesAt(t, p)).Some?
    ensures var d := NodeDetail(judge, PathOf(root, p), ResourcesAt(t, p)).value;
            && PathOf(root, p) !in details
            && DetailsFit(details[PathOf(root, p) := d], judge, root, t, init + [p])
  {
    var order := init + [p];
    assert p in order && Segments([root] + p);
    forall q | q in init ensures PathOf(root, q) != PathOf(root, p) {
      assert q in order && Segments([root] + q);
      if PathOf(root, q) == PathOf(root, p) {
        PathsAreDistinct(root, p, q);
      }
    }
    assert NodePaths(root, order) == NodePaths(root, init) + {PathOf(root, p)};
  }

  /** The details of the nodes handled total their resources. */
  lemma {:induction false} DetailsTotalTheNodes(judge: Judge, root: string, t: Contents, order: seq<Position>)
    requires AllJudged(judge, root, t, order)
    ensures DetailsFit(DetailsOf(judge, root, t, order), judge, root, t, order)
    ensures GrandTotal(DetailsOf(judge, root, t, order)) == |Gather(t, order)|
  {
    if order == [] {
      NothingTotals();
    } else {
      var init, p := order[..|order| - 1], order[|order| - 1];
      JudgedButLast(judge, root, t, order);
      DetailsTotalTheNodes(judge, root, t, init);
      TotalOneMore(judge, root, t, init, p, DetailsOf(judge, root, t, init));
    }
  }

  /** Distinct nodes, all of whose resources can be judged. */
  ghost predicate AllJudged(judge: Judge, root: string, t: Contents, order: seq<Position>) {
    Distinct(order) && SlashFreeNodes(root, order) && forall p | p in order :: Judged(judge, ResourcesAt(t, p))
  }

  lemma JudgedButLast(judge: Judge, root: string, t: Contents, order: seq<Position>)
    requires order != [] && AllJudged(judge, root, t, order)
    ensures var init, p := order[..|order| - 1], order[|order| - 1];
            && AllJudged(judge, root, t, init) && order == init + [p]
            && p !in init && Judged(judge, ResourcesAt(t, p))
  {
    Carrier.NotBefore(order);
    assert forall q | q in order[..|order| - 1] :: q in order;
    assert order[|order| - 1] in order;
  }

  lemma NothingTotals()
    ensures GrandTotal(map[]) == 0
  {
    assert NodeTotals(map[]) == map[];
  }

  lemma TotalOneMore(judge: Judge, root: string, t: Contents, init: seq<Position>, p: Position,
                     details: map<string, Detail>)
    requires DetailsFit(details, judge, root, t, init) && SlashFreeNodes(root, init + [p]) && p !in init
    requires Judged(judge, ResourcesAt(t, p)) && GrandTotal(details) == |Gather(t, init)|
    ensures var d := NodeDetail(judge, PathOf(root, p), ResourcesAt(t, p));
            && d.Some? && DetailsFit(details[PathOf(root, p) := d.value], judge, root, t, init + [p])
            && GrandTotal(details[PathOf(root, p) := d.value]) == |Gather(t, init + [p])|
  {
    CountersAreCounts(judge, PathOf(root, p), ResourcesAt(t, p));
    var d := NodeDetail(judge, PathOf(root, p), ResourcesAt(t, p)).value;
    DetailsFitOneMore(details, judge, root, t, init, p);
    GrandTotalOneMore(details, PathOf(root, p), d);
    GatherOneMore(t, init, p);
  }

  lemma GrandTotalOneMore(details: map<string, Detail>, path: string, d: Detail)
    requires path !in details
    ensures GrandTotal(details[path := d]) == GrandTotal(details) + Total(d)
  {
    assert NodeTotals(details[path := d]) == NodeTotals(details)[path := Total(d)];
    SumUpdated(NodeTotals(details), path, Total(d));
  }

  class Detector {
    var details: map<string, Detail>
    var pods: Pods

    constructor ()
      ensures details == map[] && pods == Pods(map[], map[])
    {
      details, pods := map[], Pods(map[], map[]);
    }

    /** The handler that detect runs over the tree; its body is taken as atomic. */
    method Handle(judge: Judge, path: string, resources: seq<string>) returns (ok: bool)
      modifies this
      ensures ok <==> NodeDetail(judge, path, resources).Some?
      ensures details == if ok then old(details)[path := NodeDetail(judge, path, resources).value] else old(details)
      ensures pods == PodsOf(old(pods), judge, resources)
    {
      var detail := Detail(path, map[], "", "");
      for i := 0 to |resources|
        invariant NodeDetail(judge, path, resources[..i]) == Some(detail)
        invariant Judged(judge, resources[..i]) && details == old(details)
        invariant pods == PodsOf(old(pods), judge, resources[..i])
      {
        Judging(judge, resources, i);
        var judgement := judge(resources[i]);
        if judgement.None? {
          Unjudged(old(pods), judge, path, resources, i);
          return false;
        }
        var j := judgement.value;
        if j.pods.Some? {
          pods := Pods(Plus(pods.outdated, j.pods.value.outdated), Plus(pods.updated, j.pods.value.updated));
        }
        detail := Note(detail, j);
      }
      assert resources[..|resources|] == resources;
      details := details[path := detail];
      ok := true;
    }
  }

  lemma Judging(judge: Judge, rs: seq<string>, i: nat)
    requires i < |rs|
    ensures rs[..i + 1][..i] == rs[..i] && rs[..i + 1][i] == rs[i]
    ensures Judged(judge, rs[..i + 1]) <==> Judged(judge, rs[..i]) && judge(rs[i]).Some?
  {
    assert rs[..i + 1] == rs[..i] + [rs[i]];
  }

  /** The part of the loop body that counts. */
  method Note(detail: Detail, j: Judgement) returns (next: Detail)
    ensures next == Noted(detail, j)
  {
    next := detail;
    var counter: Counter := if j.kind in next.resources then next.resources[j.kind] else map[];
    if j.phase in counter {
      counter := counter[j.phase := counter[j.phase] + 1];
    } else {
      counter := counter[j.phase := 1];
    }
    if j.phase == FAILED {
      next := next.(reason := j.reason, message := j.message);
    }
    next := next.(resources := next.resources[j.kind := counter]);
  }

  /** Whatever follows a resource that cannot be judged is not looked at. */
  lemma {:induction false} Unjudged(pods: Pods, judge: Judge, path: string, rs: seq<string>, i: nat)
    requires i < |rs| && judge(rs[i]).None? && Judged(judge, rs[..i])
    ensures NodeDetail(judge, path, rs).None? && PodsOf(pods, judge, rs) == PodsOf(pods, judge, rs[..i])
    decreases |rs|
  {
    var n := |rs| - 1;
    if i < n {
      assert rs[..n][..i] == rs[..i] && rs[..n][i] == rs[i] && rs[i] in rs[..n];
      Unjudged(pods, judge, path, rs[..n], i);
    }
  }

  // ---------- From the manifest to the counters ----------

  /** The tree rebuilt from a manifest. */
  function TreeOf(decode: string -> Carrier.Doc, resources: seq<string>): Contents {
    match Carrier.Rebuilt(decode, resources)
    case Ok(b) => Built(b.adds)
    case Err(_) => Built([])
  }

  /** Every node has the counters of the resources with its path, and all counters total the resources. */
  ghost predicate CountsManifest(details: map<string, Detail>, decode: string -> Carrier.Doc, judge: Judge,
                                 resources: seq<string>, root: string) {
    && GrandTotal(details) == |resources|
    && forall p | p in TreeOf(decode, resources) ::
         Lookup(details, PathOf(root, p)) ==
           NodeDetail(judge, PathOf(root, p), Carrier.WithPath(decode, resources, PathOf(root, p)))
  }

  lemma {:induction false} WalkCountsManifest(decode: string -> Carrier.Doc, judge: Judge, resources: seq<string>,
                                              root: string, order: seq<Position>)
    requires Carrier.AllNamed(decode, resources, root) && SlashFree(root) && Judged(judge, resources)
    requires Visits(order, TreeOf(decode, resources))
    ensures CountsManifest(DetailsOf(judge, root, TreeOf(decode, resources), order), decode, judge, resources, root)
  {
    var t := TreeOf(decode, resources);
    Carrier.NamedResourcesAreFiledOnce(decode, resources, root);
    Carrier.PositionsAreSlashFree(decode, resources, root);
    forall p | p in t ensures Judged(judge, ResourcesAt(t, p)) {
      WithPathIsPart(decode, resources, PathOf(root, p));
    }
    DetailsTotalTheNodes(judge, root, t, order);
    WalkFindsEverything(Carrier.Rebuilt(decode, resources).value.adds, order);
    assert |multiset(Gather(t, order))| == |multiset(resources)|;
  }

  /**
   The map that the handlers share, carried along the steps of the executor: a handler does all its
   work in the step in which it returns, and writes its node's detail if it can judge everything.
   */
  ghost function Shared(judge: Judge, root: string, t: Contents, actions: seq<Executor.Action>): map<string, Detail> {
    if actions == [] then
      map[]
    else
      var a, before := actions[|actions| - 1], Shared(judge, root, t, actions[..|actions| - 1]);
      if !a.HandlerReturns? then before
      else match NodeDetail(judge, PathOf(root, a.n), ResourcesAt(t, a.n))
           case None => before
           case Some(d) => before[PathOf(root, a.n) := d]
  }

  lemma {:induction false} SharedIsDetails(judge: Judge, root: string, t: Contents, actions: seq<Executor.Action>)
    ensures Shared(judge, root, t, actions) == DetailsOf(judge, root, t, Executor.Ended(actions))
  {
    if actions != [] {
      var init, a := actions[..|actions| - 1], actions[|actions| - 1];
      SharedIsDetails(judge, root, t, init);
      if a.HandlerReturns? {
        assert (Executor.Ended(init) + [a.n])[..|Executor.Ended(init)|] == Executor.Ended(init);
      } else {
        assert Executor.Ended(init) + [] == Executor.Ended(init);
      }
    }
  }

  /** A handler returns nil exactly when it can judge all resources of its node. */
  ghost predicate HandlersJudge(judge: Judge, t: Contents, actions: seq<Executor.Action>) {
    forall i | 0 <= i < |actions| && actions[i].HandlerReturns? ::
      actions[i].ok == Judged(judge, ResourcesAt(t, actions[i].n))
  }

  /** The context of detect is never cancelled, and then a handler fails only if it returns an error. */
  lemma {:induction false} AllJudgedAllSucceed(judge: Judge, t: Contents, trace: seq<Executor.State>,
                                               actions: seq<Executor.Action>, i: nat)
    requires Executor.IsRun(Executor.Positive, t.Keys, trace, actions) && i < |trace|
    requires HandlersJudge(judge, t, actions) && forall a | a in actions :: !a.Cancel?
    requires forall p :: Judged(judge, ResourcesAt(t, p))
    ensures trace[i].live && !Executor.SomeHandlerFailed(trace[i])
  {
    if i > 0 {
      AllJudgedAllSucceed(judge, t, trace, actions, i - 1);
      assert actions[i - 1] in actions;
      forall d ensures !Executor.HandlerFailed(trace[i], d) {
        assert !Executor.HandlerFailed(trace[i - 1], d);
      }
    }
  }

  /**
   For a manifest whose resources name their paths below one root and can all be judged: whatever
   the schedule of the positive executor, once it has returned the shared map counts the manifest.
   */
  lemma {:induction false} DetectCountsTheManifest(decode: string -> Carrier.Doc, judge: Judge, resources: seq<string>,
                                                   root: string, trace: seq<Executor.State>,
                                                   actions: seq<Executor.Action>)
    requires Carrier.AllNamed(decode, resources, root) && SlashFree(root) && Judged(judge, resources)
    requires Executor.IsRun(Executor.Positive, TreeOf(decode, resources).Keys, trace, actions)
    requires Executor.RunReturned(trace[|actions|]) && forall a | a in actions :: !a.Cancel?
    requires HandlersJudge(judge, TreeOf(decode, resources), actions)
    ensures CountsManifest(Shared(judge, root, TreeOf(decode, resources), actions), decode, judge, resources, root)
  {
    var t := TreeOf(decode, resources);
    Carrier.NamedResourcesAreFiledOnce(decode, resources, root);
    Carrier.PositionsAreSlashFree(decode, resources, root);
    forall p ensures Judged(judge, ResourcesAt(t, p)) {
      if p in t {
        WithPathIsPart(decode, resources, PathOf(root, p));
      }
    }
    AllJudgedAllSucceed(judge, t, trace, actions, |actions|);
    Executor.ErrorFreeRunEndsEachOnce(Executor.Positive, t.Keys, trace, actions);
    WalkCountsManifest(decode, judge, resources, root, Executor.Ended(actions));
    SharedIsDetails(judge, root, t, actions);
  }

  lemma {:induction false} WithPathIsPart(decode: string -> Carrier.Doc, resources: seq<string>, path: string)
    ensures forall r | r in Carrier.WithPath(decode, resources, path) :: r in resources
  {
    if resources != [] {
      WithPathIsPart(decode, resources[..|resources| - 1], path);
    }
  }
}
