/** The handler of one release: which updates it takes up, and how it retries them (pkg/release/handler.go). */
module RetryLoop {
  import opened Common
  import opened ReleaseDoc

  const MAX_RETRIES := 3

  predicate NormalCondition(rel: Release) {
    rel.status.conditions != [] && rel.status.conditions[0].reason != Failure
  }

  /** What the resources of a release are rendered from. */
  predicate SameInput(a: Release, b: Release) {
    a.spec.config == b.spec.config && a.spec.suspend == b.spec.suspend && a.spec.template == b.spec.template
  }

  predicate Skips(target: Option<Release>, rel: Release) {
    target.Some? && rel.spec.rollbackTo.None? && SameInput(target.value, rel) && NormalCondition(rel)
  }

  /**
   The rate limited queue, of which the handler uses one item only. `delayed` counts the retries
   whose time has not come.
   */
  datatype Queue = Queue(dirty: bool, processing: bool, delayed: nat, requeues: nat)
  {
    function Pending(): nat {
      (if dirty then 1 else 0) + (if processing then 1 else 0) + delayed
    }

    /** An attempt runs, or one is bound to come. */
    predicate Busy() {
      Pending() > 0
    }
  }

  /** `attempted` is the release of the last attempt, `succeeded` whether the last one that ended did. */
  datatype State = State(target: Option<Release>, queue: Queue, attempted: Option<Release>, succeeded: bool)

  const START := State(None, Queue(false, false, 0, 0), None, false)

  datatype Action =
    | Receive(rel: Release)
    | Fire
    | Take
    | Finish(ok: bool)

  predicate Enabled(s: State, a: Action) {
    match a
    case Receive(_) => true
    case Fire => s.queue.delayed > 0
    case Take => s.queue.dirty && !s.queue.processing
    case Finish(_) => s.queue.processing
  }

  function Next(s: State, a: Action): State
    requires Enabled(s, a)
  {
    match a
    case Receive(rel) =>
      if Skips(s.target, rel) then s else s.(target := Some(rel), queue := s.queue.(requeues := 0, dirty := true))
    case Fire => s.(queue := s.queue.(delayed := s.queue.delayed - 1, dirty := true))
    case Take => s.(queue := s.queue.(dirty := false, processing := true), attempted := s.target)
    case Finish(ok) => s.(queue := Finished(s.queue, ok), succeeded := ok)
  }

  /** Success forgets the failures; a failure is retried later unless the retries are used up. */
  function Finished(q: Queue, ok: bool): Queue
    requires q.processing
  {
    if ok then q.(processing := false, requeues := 0)
    else if q.requeues < MAX_RETRIES then q.(processing := false, requeues := q.requeues + 1, delayed := q.delayed + 1)
    else q.(processing := false)
  }

  ghost predicate IsRun(trace: seq<State>, actions: seq<Action>) {
    && |trace| == |actions| + 1 && trace[0] == START
    && forall i | 0 <= i < |actions| :: Enabled(trace[i], actions[i]) && trace[i + 1] == Next(trace[i], actions[i])
  }

  // ---------- No update is missed ----------

  function LastReceived(actions: seq<Action>): Option<Release> {
    if actions == [] then None
    else if actions[|actions| - 1].Receive? then Some(actions[|actions| - 1].rel)
    else LastReceived(actions[..|actions| - 1])
  }

  /** The target stands for the last update: same input, and the very update if that asks for a rollback or failed. */
  predicate StandsFor(target: Option<Release>, last: Option<Release>) {
    && (target.Some? <==> last.Some?)
    && (target.Some? ==>
          && SameInput(target.value, last.value)
          && (target == last || (last.value.spec.rollbackTo.None? && NormalCondition(last.value))))
  }

  ghost predicate Inv(s: State) {
    && s.queue.requeues <= MAX_RETRIES
    && (s.target.Some? ==> s.queue.dirty || s.attempted == s.target)
    && (s.target.None? ==> !s.queue.Busy() && s.attempted.None?)
    && (s.target.Some? && !s.queue.Busy() ==> s.succeeded || s.queue.requeues == MAX_RETRIES)
  }

  lemma StepKeepsInv(s: State, a: Action)
    requires Inv(s) && Enabled(s, a)
    ensures Inv(Next(s, a))
  {
  }

  lemma {:induction false} InvHolds(trace: seq<State>, actions: seq<Action>, i: nat)
    requires IsRun(trace, actions) && i < |trace|
    ensures Inv(trace[i]) && StandsFor(trace[i].target, LastReceived(actions[..i]))
  {
    if i > 0 {
      InvHolds(trace, actions, i - 1);
      assert actions[..i][..i - 1] == actions[..i - 1];
    }
  }

  /**
   Whenever the handler is quiet, the last update has had its attempt: the last attempt was made
   for the target that stands for it, and either succeeded or used up the retries.
   */
  lemma QuietMeansSettled(trace: seq<State>, actions: seq<Action>, i: nat)
    requires IsRun(trace, actions) && i < |trace| && !trace[i].queue.Busy()
    requires LastReceived(actions[..i]).Some?
    ensures StandsFor(trace[i].attempted, LastReceived(actions[..i]))
    ensures trace[i].succeeded || trace[i].queue.requeues == MAX_RETRIES
  {
    InvHolds(trace, actions, i);
  }

  /**
   Which updates are taken up. One that asks for no rollback, has the target's config, template and
   suspension and a first condition other than a failure leaves the handler as it is; any other one
   becomes the target, is queued, and starts with no failures counted.
   */
  lemma UpdateIsTakenUpUnlessSettled(s: State, rel: Release)
    ensures var s' := Next(s, Receive(rel));
            if && s.target.Some? && rel.spec.rollbackTo.None?
               && rel.spec.config == s.target.value.spec.config && rel.spec.template == s.target.value.spec.template
               && rel.spec.suspend == s.target.value.spec.suspend
               && rel.status.conditions != [] && rel.status.conditions[0].reason != Failure
            then s' == s
            else s'.target == Some(rel) && s'.queue == Queue(true, s.queue.processing, s.queue.delayed, 0)
                 && s'.attempted == s.attempted && s'.succeeded == s.succeeded
  {
  }

  // ---------- Retries end ----------

  /** The attempts that can still end before the next update. */
  function AttemptsLeft(q: Queue): int {
    if q.Pending() == 0 then 0 else MAX_RETRIES + 1 - q.requeues + (MAX_RETRIES + 1) * (q.Pending() - 1)
  }

  /** The steps that can still be taken before the next update. */
  function StepsLeft(q: Queue): int {
    3 * AttemptsLeft(q) + 2 * q.delayed + if q.dirty then 1 else 0
  }

  lemma StepsGetFewer(s: State, a: Action)
    requires Inv(s) && Enabled(s, a) && !a.Receive?
    ensures 0 <= AttemptsLeft(Next(s, a).queue) <= AttemptsLeft(s.queue) - if a.Finish? then 1 else 0
    ensures 0 <= StepsLeft(Next(s, a).queue) < StepsLeft(s.queue)
  {
  }

  function Attempts(actions: seq<Action>): nat {
    if actions == [] then 0 else Attempts(actions[..|actions| - 1]) + if actions[|actions| - 1].Finish? then 1 else 0
  }

  /** Between updates, however retries and attempts interleave, the loop comes to rest within these bounds. */
  lemma {:induction false} RetriesEnd(trace: seq<State>, actions: seq<Action>, i: nat, j: nat)
    requires IsRun(trace, actions) && i <= j < |trace|
    requires forall t | i <= t < j :: !actions[t].Receive?
    ensures 0 <= AttemptsLeft(trace[j].queue) <= AttemptsLeft(trace[i].queue) - Attempts(actions[i..j])
    ensures 0 <= StepsLeft(trace[j].queue) <= StepsLeft(trace[i].queue) - (j - i)
    decreases j - i
  {
    if i < j {
      RetriesEnd(trace, actions, i, j - 1);
      InvHolds(trace, actions, j - 1);
      StepsGetFewer(trace[j - 1], actions[j - 1]);
      assert actions[i..j][..j - 1 - i] == actions[i..j - 1];
    } else {
      InvHolds(trace, actions, i);
      assert actions[i..j] == [];
    }
  }

  /** An update that finds the handler quiet gets four attempts at most. */
  lemma AtMostFourAttempts(trace: seq<State>, actions: seq<Action>, i: nat, j: nat)
    requires IsRun(trace, actions) && i < j < |trace| && actions[i].Receive? && !trace[i].queue.Busy()
    requires forall t | i < t < j :: !actions[t].Receive?
    ensures Attempts(actions[i + 1..j]) <= 4
    ensures Skips(trace[i].target, actions[i].rel) ==> j == i + 1
  {
    RetriesEnd(trace, actions, i + 1, j);
  }

  /** The goroutine on a fresh queue, with no update coming in: it stops at the first success or after four failures. */
  method Retry(outcome: nat -> bool) returns (attempts: nat, ok: bool)
    ensures 1 <= attempts <= 4
    ensures ok <==> outcome(attempts - 1)
    ensures forall i | 0 <= i < attempts - 1 :: !outcome(i)
    ensures !ok ==> attempts == 4
  {
    var q := Queue(true, false, 0, 0);
    attempts, ok := 0, false;
    while q.Busy()
      invariant !q.processing && q.Pending() <= 1 && q.requeues <= MAX_RETRIES
      invariant q.Busy() ==> attempts == q.requeues && forall i | 0 <= i < attempts :: !outcome(i)
      invariant !q.Busy() ==>
                  && 1 <= attempts <= MAX_RETRIES + 1 && (ok <==> outcome(attempts - 1))
                  && (forall i | 0 <= i < attempts - 1 :: !outcome(i)) && (!ok ==> attempts == MAX_RETRIES + 1)
      decreases StepsLeft(q)
    {
      if q.dirty {
        q := q.(dirty := false, processing := true);
        ok := outcome(attempts);
        attempts := attempts + 1;
        q := Finished(q, ok);
      } else {
        q := q.(delayed := q.delayed - 1, dirty := true);
      }
    }
  }

  /**
   The bound holds between updates only. A failed attempt records a failure condition on the
   release, the update this causes is never skipped, and so a release that cannot be applied is
   tried any number of times.
   */
  lemma {:induction false} FailuresRearm(rel: Release, n: nat) returns (trace: seq<State>, actions: seq<Action>)
    requires !NormalCondition(rel)
    ensures IsRun(trace, actions) && Attempts(actions) == n && !trace[|trace| - 1].queue.processing
    ensures forall a | a in actions :: a == Receive(rel) || a == Take || a == Finish(false)
  {
    if n == 0 {
      trace, actions := [START], [];
    } else {
      trace, actions := FailuresRearm(rel, n - 1);
      trace, actions := Extend(trace, actions, Receive(rel));
      trace, actions := Extend(trace, actions, Take);
      trace, actions := Extend(trace, actions, Finish(false));
    }
  }

  lemma Extend(trace: seq<State>, actions: seq<Action>, a: Action) returns (trace': seq<State>, actions': seq<Action>)
    requires IsRun(trace, actions) && Enabled(trace[|trace| - 1], a)
    ensures IsRun(trace', actions') && |trace'| == |trace| + 1 && actions' == actions + [a]
    ensures trace'[|trace|] == Next(trace[|trace| - 1], a)
    ensures Attempts(actions') == Attempts(actions) + if a.Finish? then 1 else 0
  {
    trace', actions' := trace + [Next(trace[|trace| - 1], a)], actions + [a];
    assert actions'[..|actions|] == actions;
  }
}
