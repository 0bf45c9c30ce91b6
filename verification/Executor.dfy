/**
 The two concurrent executors of a tree (pkg/render/tree.go): every node has a goroutine, and any
 interleaving of their steps is a run.
 */
module Executor {
  import opened Common
  import opened TreeContents

  datatype Order = Positive | Reversed

  /**
   What the goroutine of a node is doing: it waits for its children, runs the handler, returns from
   the executor, has called wg.Done, or has also appended its error to the parent's list.
   */
  datatype Phase =
    | Idle
    | Waiting
    | Handling
    | Returning(failed: bool)
    | Signalled(failed: bool)
    | Finished(failed: bool)
  {
    predicate Returned() {
      Returning? || Signalled? || Finished?
    }

    predicate Done() {
      Signalled? || Finished?
    }

    predicate Failed() {
      Returned() && failed
    }
  }

  /**
   `reported` has the nodes whose error is in the list of their parent; `started` logs the starts
   of handlers; `results` says of each handler that ended whether it counts as a success.
   */
  datatype State = State(
    phases: map<Position, Phase>,
    reported: set<Position>,
    started: seq<Position>,
    results: map<Position, bool>,
    live: bool)

  datatype Action =
    | Start(n: Position)
    | Proceed(n: Position)
    | HandlerReturns(n: Position, ok: bool)
    | Signal(n: Position)
    | Report(n: Position)
    | Cancel

  ghost function Init(all: set<Position>): State {
    State(map p | p in all :: Idle, {}, [], map[], true)
  }

  predicate In(s: State, n: Position) {
    n in s.phases
  }

  ghost predicate ChildrenDone(s: State, n: Position) {
    forall c | Child(n, c) in s.phases :: s.phases[Child(n, c)].Done()
  }

  ghost predicate HasReports(s: State, n: Position) {
    exists c :: Child(n, c) in s.reported
  }

  /** The root starts by itself, any other node once its parent has spawned its children. */
  predicate MayStart(s: State, n: Position) {
    n == [] || (n[..|n| - 1] in s.phases && s.phases[n[..|n| - 1]].Waiting?)
  }

  ghost predicate Enabled(s: State, a: Action) {
    match a
    case Start(n) => In(s, n) && s.phases[n].Idle? && MayStart(s, n)
    case Proceed(n) => In(s, n) && s.phases[n].Waiting? && ChildrenDone(s, n)
    case HandlerReturns(n, _) => In(s, n) && s.phases[n].Handling?
    case Signal(n) => In(s, n) && s.phases[n].Returning?
    case Report(n) => In(s, n) && s.phases[n].Signalled?
    case Cancel => true
  }

  ghost function Next(order: Order, s: State, a: Action): State
    requires Enabled(s, a)
  {
    match a
    case Start(n) => if order.Positive? then To(s, n, Waiting) else StartHandler(s, n)
    case Proceed(n) =>
      if order.Reversed? || HasReports(s, n) then To(s, n, Returning(HasReports(s, n))) else StartHandler(s, n)
    case HandlerReturns(n, ok) =>
      var good := ok && s.live;
      To(s, n, if order.Reversed? && good then Waiting else Returning(!good)).(results := s.results[n := good])
    case Signal(n) => To(s, n, Signalled(s.phases[n].failed))
    case Report(n) =>
      To(s, n, Finished(s.phases[n].failed)).(reported := if s.phases[n].failed then s.reported + {n} else s.reported)
    case Cancel => s.(live := false)
  }

  function To(s: State, n: Position, ph: Phase): State {
    s.(phases := s.phases[n := ph])
  }

  function StartHandler(s: State, n: Position): State {
    To(s, n, Handling).(started := s.started + [n])
  }

  ghost predicate IsRun(order: Order, all: set<Position>, trace: seq<State>, actions: seq<Action>) {
    && PrefixClosed(all) && |trace| == |actions| + 1 && trace[0] == Init(all)
    && forall i | 0 <= i < |actions| ::
         Enabled(trace[i], actions[i]) && trace[i + 1] == Next(order, trace[i], actions[i])
  }

  // ---------- What every schedule keeps ----------

  /** The node has read the list of its children's errors. */
  predicate Read(order: Order, s: State, n: Position) {
    In(s, n) && if order.Positive? then s.phases[n].Handling? || s.phases[n].Returned()
                else s.phases[n].Returned() && Succeeded(s, n)
  }

  predicate Succeeded(s: State, n: Position) {
    n in s.results && s.results[n]
  }

  predicate HandlerFailed(s: State, n: Position) {
    n in s.results && !s.results[n]
  }

  /** The node has spawned its children. */
  predicate Spawned(order: Order, s: State, n: Position) {
    In(s, n) && (s.phases[n].Waiting? || Read(order, s, n))
  }

  /** What the phase of a node says about its handler. */
  ghost predicate Consistent(order: Order, s: State, n: Position)
    requires In(s, n)
  {
    && (n in s.reported <==> s.phases[n] == Finished(true))
    && match s.phases[n]
       case Idle => n !in s.started && n !in s.results
       case Handling => n in s.started && n !in s.results
       case Waiting => if order.Positive? then n !in s.started && n !in s.results else n in s.started && Succeeded(s, n)
       case _ =>
         if order.Positive? then
           if n in s.started then n in s.results && s.phases[n].failed == !s.results[n]
           else n !in s.results && s.phases[n].failed && HasReports(s, n)
         else
           && n in s.started && n in s.results && (!s.results[n] ==> s.phases[n].failed)
           && (s.results[n] && s.phases[n].failed ==> HasReports(s, n))
  }

  /** Children are idle before they are spawned, and done once their parent has read its list. */
  ghost predicate Linked(order: Order, s: State) {
    && (forall n, c | Child(n, c) in s.phases && !Spawned(order, s, n) :: s.phases[Child(n, c)].Idle?)
    && (forall n, c | Child(n, c) in s.phases && Read(order, s, n) :: s.phases[Child(n, c)].Done())
  }

  ghost predicate AllConsistent(order: Order, s: State) {
    && (forall n | In(s, n) :: Consistent(order, s, n))
    && (forall n | n in s.reported || n in s.started || n in s.results :: In(s, n))
    && Distinct(s.started)
  }

  ghost predicate Inv(order: Order, s: State) {
    PrefixClosed(s.phases.Keys) && AllConsistent(order, s) && Linked(order, s)
  }

  lemma StepKeepsConsistent(order: Order, s: State, a: Action)
    requires AllConsistent(order, s) && Enabled(s, a)
    ensures AllConsistent(order, Next(order, s, a))
  {
    var t := Next(order, s, a);
    forall n | In(t, n) ensures Consistent(order, t, n) {
      StaysConsistent(order, s, a, n);
    }
  }

  lemma StaysConsistent(order: Order, s: State, a: Action, n: Position)
    requires AllConsistent(order, s) && Enabled(s, a) && In(s, n)
    ensures Consistent(order, Next(order, s, a), n)
  {
    assert Consistent(order, s, n);
    if HasReports(s, n) {
      var c :| Child(n, c) in s.reported;
      assert Child(n, c) in Next(order, s, a).reported;
    }
    if a.Cancel? || a.n != n {
      OthersKeepTheirs(order, s, a, n);
    }
  }

  lemma OthersKeepTheirs(order: Order, s: State, a: Action, n: Position)
    requires Enabled(s, a) && In(s, n) && (a.Cancel? || a.n != n)
    ensures var t := Next(order, s, a);
            && t.phases[n] == s.phases[n] && (n in t.started <==> n in s.started)
            && Lookup(t.results, n) == Lookup(s.results, n) && (n in t.reported <==> n in s.reported)
  {
  }

  lemma StepKeepsLinked(order: Order, s: State, a: Action)
    requires Inv(order, s) && Enabled(s, a)
    ensures Linked(order, Next(order, s, a))
  {
    forall n, c | Child(n, c) in s.phases
      ensures var t := Next(order, s, a);
              && (!Spawned(order, t, n) ==> t.phases[Child(n, c)].Idle?)
              && (Read(order, t, n) ==> t.phases[Child(n, c)].Done())
    {
      StepKeepsLink(order, s, a, n, c);
    }
  }

  lemma StepKeepsLink(order: Order, s: State, a: Action, n: Position, c: string)
    requires Inv(order, s) && Enabled(s, a) && Child(n, c) in s.phases
    ensures var t := Next(order, s, a);
            && (!Spawned(order, t, n) ==> t.phases[Child(n, c)].Idle?)
            && (Read(order, t, n) ==> t.phases[Child(n, c)].Done())
  {
    assert Child(n, c)[..|Child(n, c)| - 1] == n;
    assert Consistent(order, s, n);
  }

  lemma StepKeepsInv(order: Order, s: State, a: Action)
    requires Inv(order, s) && Enabled(s, a)
    ensures Inv(order, Next(order, s, a)) && Next(order, s, a).phases.Keys == s.phases.Keys
  {
    StepKeepsConsistent(order, s, a);
    StepKeepsLinked(order, s, a);
    assert Next(order, s, a).phases.Keys == s.phases.Keys;
  }

  lemma {:induction false} InvHolds(order: Order, all: set<Position>, trace: seq<State>, actions: seq<Action>, i: nat)
    requires IsRun(order, all, trace, actions) && i < |trace|
    ensures Inv(order, trace[i]) && trace[i].phases.Keys == all
  {
    if i > 0 {
      InvHolds(order, all, trace, actions, i - 1);
      StepKeepsInv(order, trace[i - 1], actions[i - 1]);
    }
  }

  // ---------- The order of handlers, in every schedule ----------

  predicate Below(p: Position, q: Position) {
    |p| < |q| && p == q[..|p|]
  }

  lemma Parent(p: Position, q: Position)
    requires Below(p, q)
    ensures var r := q[..|q| - 1]; q == Child(r, q[|q| - 1]) && (r == p || Below(p, r))
  {
  }

  lemma {:induction false} DescendantsDone(s: State, n: Position, d: Position)
    requires Inv(Positive, s) && Read(Positive, s, n) && In(s, d) && Below(n, d)
    ensures s.phases[d].Done()
    decreases |d|
  {
    Parent(n, d);
    var r := d[..|d| - 1];
    if r != n {
      DescendantsDone(s, n, r);
    }
    assert Read(Positive, s, r);
  }

  /** In the positive order a handler runs only after the executors of all nodes below have returned. */
  lemma PositiveOrder(all: set<Position>, trace: seq<State>, actions: seq<Action>, i: nat, n: Position, d: Position)
    requires IsRun(Positive, all, trace, actions) && i < |trace|
    requires n in trace[i].started && d in all && Below(n, d)
    ensures d in trace[i].phases && trace[i].phases[d].Done()
  {
    InvHolds(Positive, all, trace, actions, i);
    assert Consistent(Positive, trace[i], n);
    DescendantsDone(trace[i], n, d);
  }

  lemma {:induction false} AncestorsSucceeded(s: State, n: Position, d: Position)
    requires Inv(Reversed, s) && In(s, d) && !s.phases[d].Idle? && Below(n, d)
    ensures Succeeded(s, n)
    decreases |d|
  {
    Parent(n, d);
    var r := d[..|d| - 1];
    assert Spawned(Reversed, s, r) && Consistent(Reversed, s, r);
    if r != n {
      AncestorsSucceeded(s, n, r);
    }
  }

  /** In the reversed order a handler runs only after all handlers above returned nil with the context live. */
  lemma ReversedOrder(all: set<Position>, trace: seq<State>, actions: seq<Action>, i: nat, n: Position, d: Position)
    requires IsRun(Reversed, all, trace, actions) && i < |trace|
    requires d in trace[i].started && n in all && Below(n, d)
    ensures Succeeded(trace[i], n)
  {
    InvHolds(Reversed, all, trace, actions, i);
    assert Consistent(Reversed, trace[i], d);
    AncestorsSucceeded(trace[i], n, d);
  }

  // ---------- What Run returns, in every schedule ----------

  ghost predicate SomeHandlerFailed(s: State) {
    exists d :: HandlerFailed(s, d)
  }

  /** The nodes below a node get fewer on every step down. */
  function AllBelow(all: set<Position>, n: Position): set<Position> {
    set p | p in all && Below(n, p)
  }

  lemma FewerBelow(all: set<Position>, n: Position, c: string)
    requires Child(n, c) in all
    ensures Below(n, Child(n, c)) && AllBelow(all, Child(n, c)) < AllBelow(all, n)
  {
    var child := Child(n, c);
    assert child[..|n|] == n;
    assert child in AllBelow(all, n) && child !in AllBelow(all, child);
    assert forall p | Below(child, p) :: p[..|n|] == child[..|n|];
  }

  /** The executor of a node fails only when its handler or one below failed. */
  lemma {:induction false} FailureHasCause(order: Order, s: State, n: Position) returns (d: Position)
    requires Inv(order, s) && In(s, n) && s.phases[n].Failed()
    ensures HandlerFailed(s, d) && (d == n || Below(n, d))
    decreases AllBelow(s.phases.Keys, n)
  {
    assert Consistent(order, s, n);
    if HandlerFailed(s, n) {
      d := n;
    } else {
      var c :| Child(n, c) in s.reported;
      assert Consistent(order, s, Child(n, c));
      FewerBelow(s.phases.Keys, n, c);
      d := FailureHasCause(order, s, Child(n, c));
      assert d == Child(n, c) || d[..|n|] == Child(n, c)[..|n|];
    }
  }

  predicate RunReturned(s: State) {
    In(s, []) && s.phases[[]].Returned()
  }

  /** Run never reports an error that no handler had, the context being cancelled counted as one. */
  lemma NoFalseAlarm(order: Order, all: set<Position>, trace: seq<State>, actions: seq<Action>, i: nat)
    requires IsRun(order, all, trace, actions) && i < |trace|
    requires RunReturned(trace[i]) && trace[i].phases[[]].failed
    ensures SomeHandlerFailed(trace[i])
  {
    InvHolds(order, all, trace, actions, i);
    var d := FailureHasCause(order, trace[i], []);
  }

  lemma {:induction false} AllHandled(order: Order, s: State, n: Position)
    requires Inv(order, s) && !SomeHandlerFailed(s)
    requires RunReturned(s) && In(s, n)
    ensures s.phases[n].Returned() && n in s.started
    decreases |n|
  {
    if n != [] {
      var p := n[..|n| - 1];
      assert n == Child(p, n[|n| - 1]);
      AllHandled(order, s, p);
      assert Consistent(order, s, p) && !HandlerFailed(s, p) && Read(order, s, p);
    }
    assert Consistent(order, s, n);
    if s.phases[n].Failed() {
      var d := FailureHasCause(order, s, n);
    }
  }

  /** When Run has returned and no handler failed, it returned nil and every node was handled exactly once. */
  lemma ErrorFreeRunHandlesEachOnce(order: Order, all: set<Position>, trace: seq<State>, actions: seq<Action>, i: nat)
    requires IsRun(order, all, trace, actions) && i < |trace|
    requires RunReturned(trace[i]) && !SomeHandlerFailed(trace[i])
    ensures !trace[i].phases[[]].failed && Distinct(trace[i].started)
    ensures forall n :: n in trace[i].started <==> n in all
  {
    var s := trace[i];
    InvHolds(order, all, trace, actions, i);
    forall n | n in all ensures n in s.started {
      AllHandled(order, s, n);
    }
    if s.phases[[]].failed {
      var d := FailureHasCause(order, s, []);
    }
  }

  /** The nodes whose handlers have returned, in this order. */
  function Ended(actions: seq<Action>): seq<Position> {
    if actions == [] then
      []
    else
      var a := actions[|actions| - 1];
      Ended(actions[..|actions| - 1]) + if a.HandlerReturns? then [a.n] else []
  }

  /** Each handler returns once, and the results are those of the handlers that returned. */
  lemma {:induction false} EndedOnce(order: Order, all: set<Position>, trace: seq<State>, actions: seq<Action>, i: nat)
    requires IsRun(order, all, trace, actions) && i < |trace|
    ensures Distinct(Ended(actions[..i]))
    ensures forall n :: n in Ended(actions[..i]) <==> n in trace[i].results
  {
    if i > 0 {
      EndedOnce(order, all, trace, actions, i - 1);
      InvHolds(order, all, trace, actions, i - 1);
      assert actions[..i][..i - 1] == actions[..i - 1];
      if actions[i - 1].HandlerReturns? {
        assert Consistent(order, trace[i - 1], actions[i - 1].n);
      }
    }
  }

  /** An error-free run that has returned has run every handler to its end. */
  lemma ErrorFreeRunEndsEachOnce(order: Order, all: set<Position>, trace: seq<State>, actions: seq<Action>)
    requires IsRun(order, all, trace, actions)
    requires RunReturned(trace[|actions|]) && !SomeHandlerFailed(trace[|actions|])
    ensures Distinct(Ended(actions)) && forall n :: n in Ended(actions) <==> n in all
  {
    var s := trace[|actions|];
    EndedOnce(order, all, trace, actions, |actions|);
    assert actions[..|actions|] == actions;
    InvHolds(order, all, trace, actions, |actions|);
    forall n | n in all ensures n in s.results {
      AllHandled(order, s, n);
      assert Consistent(order, s, n);
    }
  }

  /** A failing handler cancels nothing: what other goroutines could do they still can, and the context stays live. */
  lemma FailureCancelsNothing(order: Order, s: State, n: Position, b: Action)
    requires Inv(order, s) && Enabled(s, HandlerReturns(n, false)) && Enabled(s, b) && (b.Cancel? || b.n != n)
    ensures Enabled(Next(order, s, HandlerReturns(n, false)), b)
    ensures Next(order, s, HandlerReturns(n, false)).live == s.live
  {
  }

  // ---------- Schedules in which every error is appended before its parent reads ----------

  ghost predicate ChildrenFinished(s: State, n: Position) {
    forall c | Child(n, c) in s.phases :: s.phases[Child(n, c)].Finished?
  }

  /** No parent goes on while the error of a child is still on its way. */
  ghost predicate Prompt(trace: seq<State>, actions: seq<Action>)
    requires |trace| == |actions| + 1
  {
    forall i | 0 <= i < |actions| && actions[i].Proceed? :: ChildrenFinished(trace[i], actions[i].n)
  }

  ghost predicate ChildFailed(s: State, n: Position) {
    exists c :: Child(n, c) in s.phases && s.phases[Child(n, c)] == Finished(true)
  }

  /** A node that has read its list knows whether a child failed, and acted on it. */
  ghost predicate Informed(order: Order, s: State, n: Position)
    requires In(s, n)
  {
    && ChildrenFinished(s, n)
    && if order.Positive? then n in s.started <==> !ChildFailed(s, n)
       else s.phases[n].Failed() <==> ChildFailed(s, n)
  }

  ghost predicate PromptInv(order: Order, s: State) {
    Inv(order, s) && forall n | Read(order, s, n) :: Informed(order, s, n)
  }

  lemma ReportsAreFailures(order: Order, s: State, n: Position)
    requires Inv(order, s) && ChildrenFinished(s, n)
    ensures HasReports(s, n) <==> ChildFailed(s, n)
  {
    forall c | Child(n, c) in s.phases ensures Child(n, c) in s.reported <==> s.phases[Child(n, c)] == Finished(true) {
      assert Consistent(order, s, Child(n, c));
    }
  }

  lemma StepKeepsPromptInv(order: Order, s: State, a: Action)
    requires PromptInv(order, s) && Enabled(s, a) && (a.Proceed? ==> ChildrenFinished(s, a.n))
    ensures PromptInv(order, Next(order, s, a))
  {
    StepKeepsInv(order, s, a);
    forall n | Read(order, Next(order, s, a), n) ensures Informed(order, Next(order, s, a), n) {
      StaysInformed(order, s, a, n);
    }
  }

  /** Finished children stay as they are. */
  lemma FinishedChildrenStay(order: Order, s: State, a: Action, n: Position)
    requires Inv(order, s) && Enabled(s, a) && ChildrenFinished(s, n)
    ensures ChildrenFinished(Next(order, s, a), n) && (ChildFailed(Next(order, s, a), n) <==> ChildFailed(s, n))
  {
    forall c ensures Child(n, c) in Next(order, s, a).phases <==> Child(n, c) in s.phases {
    }
    forall c | Child(n, c) in s.phases ensures Next(order, s, a).phases[Child(n, c)] == s.phases[Child(n, c)] {
    }
  }

  lemma StaysInformed(order: Order, s: State, a: Action, n: Position)
    requires PromptInv(order, s) && Enabled(s, a) && (a.Proceed? ==> ChildrenFinished(s, a.n))
    requires Read(order, Next(order, s, a), n)
    ensures Informed(order, Next(order, s, a), n)
  {
    assert Consistent(order, s, n);
    if a == Proceed(n) {
      ReportsAreFailures(order, s, n);
    } else {
      assert Read(order, s, n);
    }
    FinishedChildrenStay(order, s, a, n);
  }

  lemma {:induction false} PromptInvHolds(order: Order, all: set<Position>, trace: seq<State>,
                                          actions: seq<Action>, i: nat)
    requires IsRun(order, all, trace, actions) && Prompt(trace, actions) && i < |trace|
    ensures PromptInv(order, trace[i]) && trace[i].phases.Keys == all
  {
    InvHolds(order, all, trace, actions, i);
    if i > 0 {
      PromptInvHolds(order, all, trace, actions, i - 1);
      StepKeepsPromptInv(order, trace[i - 1], actions[i - 1]);
    }
  }

  lemma {:induction false} DescendantsSucceeded(s: State, n: Position, d: Position)
    requires PromptInv(Positive, s) && Read(Positive, s, n) && n in s.started && In(s, d) && Below(n, d)
    ensures s.phases[d] == Finished(false) && Succeeded(s, d)
    decreases |d|
  {
    Parent(n, d);
    var r := d[..|d| - 1];
    if r != n {
      DescendantsSucceeded(s, n, r);
      assert Consistent(Positive, s, r);
    }
    assert Informed(Positive, s, r) && Consistent(Positive, s, d);
  }

  /** Then, in the positive order, a node is handled only if everything below it succeeded. */
  lemma PromptPositiveOrder(all: set<Position>, trace: seq<State>, actions: seq<Action>, i: nat, n: Position,
                            d: Position)
    requires IsRun(Positive, all, trace, actions) && Prompt(trace, actions) && i < |trace|
    requires n in trace[i].started && d in all && Below(n, d)
    ensures d in trace[i].phases && trace[i].phases[d] == Finished(false) && Succeeded(trace[i], d)
  {
    PromptInvHolds(Positive, all, trace, actions, i);
    assert Consistent(Positive, trace[i], n);
    DescendantsSucceeded(trace[i], n, d);
  }

  lemma {:induction false} FailureClimbs(order: Order, s: State, n: Position, d: Position)
    requires PromptInv(order, s) && In(s, n) && s.phases[n].Returned()
    requires HandlerFailed(s, d) && (d == n || Below(n, d))
    ensures s.phases[n].failed
    decreases |d| - |n|
  {
    assert Consistent(order, s, n) && Consistent(order, s, d);
    if d != n {
      PrefixesIn(s.phases.Keys, d);
      var c := d[|n|];
      var child := Child(n, c);
      assert child == d[..|n| + 1] && (child == d || Below(child, d));
      if Read(order, s, n) {
        assert Informed(order, s, n) && s.phases[child].Finished?;
        FailureClimbs(order, s, child, d);
      }
    }
  }

  /** And, in both orders, Run reports an error exactly when some handler failed. */
  lemma PromptRunReportsEveryFailure(order: Order, all: set<Position>, trace: seq<State>, actions: seq<Action>, i: nat)
    requires IsRun(order, all, trace, actions) && Prompt(trace, actions) && i < |trace|
    requires RunReturned(trace[i])
    ensures trace[i].phases[[]].failed <==> SomeHandlerFailed(trace[i])
  {
    PromptInvHolds(order, all, trace, actions, i);
    if SomeHandlerFailed(trace[i]) {
      var d :| HandlerFailed(trace[i], d);
      FailureClimbs(order, trace[i], [], d);
    }
    if trace[i].phases[[]].failed {
      NoFalseAlarm(order, all, trace, actions, i);
    }
  }

  // ---------- Schedules that lose an error ----------

  /**
   When a parent goes on, it overlooks a failed child exactly when the errors of all its failed
   children are still on their way: each has called wg.Done and none has appended yet.
   */
  lemma OverlooksFailureIff(order: Order, s: State, n: Position)
    requires Inv(order, s) && Enabled(s, Proceed(n))
    requires exists c :: Child(n, c) in s.phases && s.phases[Child(n, c)].Failed()
    ensures !Next(order, s, Proceed(n)).phases[n].Failed() <==>
              forall c | Child(n, c) in s.phases && s.phases[Child(n, c)].Failed() :: s.phases[Child(n, c)].Signalled?
  {
    forall c | Child(n, c) in s.phases ensures Child(n, c) in s.reported <==> s.phases[Child(n, c)] == Finished(true) {
      assert Consistent(order, s, Child(n, c));
    }
  }

  /** A run with one more step. */
  lemma Extend(order: Order, all: set<Position>, trace: seq<State>, actions: seq<Action>, a: Action)
    returns (trace': seq<State>, actions': seq<Action>)
    requires IsRun(order, all, trace, actions) && Enabled(trace[|trace| - 1], a)
    ensures IsRun(order, all, trace', actions') && |trace'| == |trace| + 1
    ensures trace'[|trace|] == Next(order, trace[|trace| - 1], a)
  {
    trace', actions' := trace + [Next(order, trace[|trace| - 1], a)], actions + [a];
  }

  /** Of a tree of two nodes: both phases, and nothing reported. */
  ghost predicate Pair(s: State, child: Position, rootPhase: Phase, childPhase: Phase) {
    && s.phases.Keys == {[], child} && s.phases[[]] == rootPhase && s.phases[child] == childPhase
    && s.reported == {} && s.live
  }

  lemma OnlyChild(name: string)
    ensures var all, child := {[], [name]}, [name];
            && PrefixClosed(all) && Child([], name) == child && child[..0] == []
            && (forall p, c | Child(p, c) in all :: p == [] && c == name)
  {
    ChildIsInjective();
    assert Child([], name) == [name];
  }

  lemma ChildFails(name: string) returns (trace: seq<State>, actions: seq<Action>)
    ensures IsRun(Positive, {[], [name]}, trace, actions)
    ensures var s := trace[|trace| - 1];
            Pair(s, [name], Waiting, Signalled(true)) && s.started == [[name]] && s.results == map[[name] := false]
  {
    OnlyChild(name);
    var all: set<Position> := {[], [name]};
    var child := [name];
    trace, actions := [Init(all)], [];
    trace, actions := Extend(Positive, all, trace, actions, Start([]));
    assert Pair(trace[1], child, Waiting, Idle);
    trace, actions := Extend(Positive, all, trace, actions, Start(child));
    assert Pair(trace[2], child, Waiting, Waiting);
    trace, actions := Extend(Positive, all, trace, actions, Proceed(child));
    assert Pair(trace[3], child, Waiting, Handling) && trace[3].started == [child];
    trace, actions := Extend(Positive, all, trace, actions, HandlerReturns(child, false));
    assert Pair(trace[4], child, Waiting, Returning(true)) && trace[4].results == map[child := false];
    trace, actions := Extend(Positive, all, trace, actions, Signal(child));
  }

  /**
   The smallest such schedule: the only child of the root fails and calls wg.Done; the root reads
   an empty list before the error is appended, is handled itself, and Run returns nil.
   */
  lemma LostError(name: string) returns (trace: seq<State>, actions: seq<Action>)
    ensures IsRun(Positive, {[], [name]}, trace, actions)
    ensures var s := trace[|trace| - 1];
            && RunReturned(s) && !s.phases[[]].failed && [] in s.started
            && HandlerFailed(s, [name])
  {
    OnlyChild(name);
    var all: set<Position> := {[], [name]};
    trace, actions := ChildFails(name);
    var n := |trace|;
    trace, actions := Extend(Positive, all, trace, actions, Proceed([]));
    assert Pair(trace[n], [name], Handling, Signalled(true)) && trace[n].started == [[name], []];
    trace, actions := Extend(Positive, all, trace, actions, HandlerReturns([], true));
  }

  // ---------- Progress ----------

  predicate RunOver(s: State) {
    In(s, []) && s.phases[[]].Finished?
  }

  /** Until Run is over, some goroutine at or below any node that has begun and not finished can take a step. */
  lemma {:induction false} SomeStepBelow(order: Order, s: State, n: Position) returns (a: Action)
    requires Inv(order, s) && In(s, n) && !s.phases[n].Idle? && !s.phases[n].Finished?
    ensures Enabled(s, a) && !a.Cancel?
    decreases AllBelow(s.phases.Keys, n)
  {
    match s.phases[n]
    case Handling => a := HandlerReturns(n, true);
    case Returning(_) => a := Signal(n);
    case Signalled(_) => a := Report(n);
    case Waiting =>
      if ChildrenDone(s, n) {
        a := Proceed(n);
      } else {
        var c :| Child(n, c) in s.phases && !s.phases[Child(n, c)].Done();
        if s.phases[Child(n, c)].Idle? {
          assert Child(n, c)[..|Child(n, c)| - 1] == n;
          a := Start(Child(n, c));
        } else {
          FewerBelow(s.phases.Keys, n, c);
          a := SomeStepBelow(order, s, Child(n, c));
        }
      }
    case _ =>
  }

  /** No schedule deadlocks, given that handlers return. */
  lemma NoDeadlock(order: Order, all: set<Position>, trace: seq<State>, actions: seq<Action>, i: nat)
    requires IsRun(order, all, trace, actions) && i < |trace| && !RunOver(trace[i])
    ensures exists a :: Enabled(trace[i], a) && !a.Cancel?
  {
    InvHolds(order, all, trace, actions, i);
    if trace[i].phases[[]].Idle? {
      assert Enabled(trace[i], Start([]));
    } else {
      var a := SomeStepBelow(order, trace[i], []);
    }
  }

  /** How far a goroutine has come, in either order. */
  function Rank(order: Order, ph: Phase): nat
    ensures Rank(order, ph) <= 5
  {
    match ph
    case Idle => 0
    case Waiting => if order.Positive? then 1 else 2
    case Handling => if order.Positive? then 2 else 1
    case Returning(_) => 3
    case Signalled(_) => 4
    case Finished(_) => 5
  }

  /** The ranks that the nodes have climbed so far. */
  function Climbed(order: Order, s: State): set<(Position, nat)> {
    set n, k | n in s.phases && 0 <= k < Rank(order, s.phases[n]) :: (n, k)
  }

  function Ladder(all: set<Position>): set<(Position, nat)> {
    set n, k | n in all && 0 <= k < 5 :: (n, k)
  }

  function Rungs(n: Position): (r: set<(Position, nat)>)
    ensures |r| == 5
    ensures forall m, k :: (m, k) in r <==> m == n && 0 <= k < 5
  {
    {(n, 0), (n, 1), (n, 2), (n, 3), (n, 4)}
  }

  lemma {:induction false} LadderSize(all: set<Position>)
    ensures |Ladder(all)| == 5 * |all|
  {
    if all != {} {
      var n :| n in all;
      var rest := all - {n};
      LadderSize(rest);
      var rungs := Rungs(n);
      assert Ladder(all) == Ladder(rest) + rungs && Ladder(rest) !! rungs;
    } else {
      assert Ladder(all) == {};
    }
  }

  lemma StepsGoUp(order: Order, s: State, a: Action)
    requires Enabled(s, a)
    ensures forall n | In(s, n) :: In(Next(order, s, a), n)
                                && Rank(order, s.phases[n]) <= Rank(order, Next(order, s, a).phases[n])
    ensures !a.Cancel? ==> In(s, a.n) && Rank(order, s.phases[a.n]) < Rank(order, Next(order, s, a).phases[a.n])
  {
  }

  lemma StepClimbs(order: Order, s: State, a: Action)
    requires Enabled(s, a)
    ensures Climbed(order, s) <= Climbed(order, Next(order, s, a))
    ensures !a.Cancel? ==> |Climbed(order, s)| < |Climbed(order, Next(order, s, a))|
  {
    var t := Next(order, s, a);
    StepsGoUp(order, s, a);
    if !a.Cancel? {
      var rung := (a.n, Rank(order, s.phases[a.n]));
      assert rung in Climbed(order, t) && rung !in Climbed(order, s);
      FewerElements(Climbed(order, s), Climbed(order, t));
    }
  }

  lemma FewerElements<T>(a: set<T>, b: set<T>)
    requires a <= b
    ensures |a| <= |b| && (a != b ==> |a| < |b|)
  {
    assert b == a + (b - a);
  }

  function Steps(actions: seq<Action>): nat {
    if actions == [] then 0 else Steps(actions[..|actions| - 1]) + if actions[|actions| - 1].Cancel? then 0 else 1
  }

  lemma {:induction false} StepsAreClimbs(order: Order, all: set<Position>, trace: seq<State>,
                                          actions: seq<Action>, i: nat)
    requires IsRun(order, all, trace, actions) && i < |trace|
    ensures Steps(actions[..i]) <= |Climbed(order, trace[i])|
  {
    if i > 0 {
      StepsAreClimbs(order, all, trace, actions, i - 1);
      StepClimbs(order, trace[i - 1], actions[i - 1]);
      FewerElements(Climbed(order, trace[i - 1]), Climbed(order, trace[i]));
      assert actions[..i][..i - 1] == actions[..i - 1];
    }
  }

  /** Nor does any go on forever: five steps of each node are the most there can be. */
  lemma RunsAreBounded(order: Order, all: set<Position>, trace: seq<State>, actions: seq<Action>)
    requires IsRun(order, all, trace, actions)
    ensures Steps(actions) <= 5 * |all|
  {
    var last := |actions|;
    InvHolds(order, all, trace, actions, last);
    StepsAreClimbs(order, all, trace, actions, last);
    assert actions[..last] == actions;
    LadderSize(all);
    FewerElements(Climbed(order, trace[last]), Ladder(all));
  }
}
