/**
 What an attempt leaves behind for the handler that made it (pkg/release/apply.go and
 pkg/release/handler.go): a failure on record brings the release back, a success is skipped.
 */
module Rearming {
  import opened Common
  import opened ReleaseDoc
  import opened Histories
  import opened ReleaseProtocol
  import opened ReleaseStorage
  import opened ReleaseApply
  import FreshRuns
  import Rendering
  import RetryLoop

  /** Steps that leave server and copy as they are: an attempt before it patches anything. */
  predicate PatchesNothing(a: Action) {
    a.Plan? || a.Record? || a.Abort? || a.ReadHistory?
  }

  lemma {:induction false} NothingPatched(s: State, actions: seq<Action>)
    requires forall a | a in actions :: PatchesNothing(a)
    ensures Execute(s, actions).server == s.server && Execute(s, actions).copy == s.copy
    decreases |actions|
  {
    if actions != [] {
      assert actions[0] in actions && forall a | a in actions[1..] :: a in actions;
      NothingPatched(Next(s, actions[0]), actions[1..]);
    }
  }

  lemma {:induction false} ExecuteAppended(s: State, before: seq<Action>, after: seq<Action>)
    ensures Execute(s, before + after) == Execute(Execute(s, before), after)
    decreases |before|
  {
    if before == [] {
      assert before + after == after;
    } else {
      assert (before + after)[0] == before[0] && (before + after)[1..] == before[1..] + after;
      ExecuteAppended(Next(s, before[0]), before[1..], after);
    }
  }

  /** Recording an error from a current copy makes the failure the one condition of the release. */
  lemma ErrorOnRecord(s: State, steps: seq<Action>, error: Error, env: Env)
    requires forall a | a in steps :: PatchesNothing(a)
    requires s.copy == s.server && FlushFailure !in env.faults
    ensures var s1 := Execute(s, steps);
            && Failing(s1, steps, error, env) == (Err(error), steps + [Flush([FailureCondition(env)])])
            && Execute(s, steps + [Flush([FailureCondition(env)])]).server
               == s.server.(status := s.server.status.(conditions := [Condition(Failure, "apply failed", env.now)]))
  {
    var s1, flush := Execute(s, steps), Flush([FailureCondition(env)]);
    NothingPatched(s, steps);
    ExecuteAppended(s, steps, [flush]);
    Rendering.FirstStep(s1, [flush]);
    assert [flush][1..] == [];
    FreshRuns.PatchKeepsCopyCurrent(s1, FlushTarget(s1.copy, [FailureCondition(env)]));
  }

  /** What made an attempt fail, if anything before it had published. */
  ghost predicate FailsEarly(s: State, rel: Release, env: Env) {
    || ListHistories in env.faults || Carried(s, rel, env).None? || ApplyResources in env.faults
    || !Updates(s, Carried(s, rel, env).value, env)
  }

  /**
   An attempt that fails before it published leaves the release as it was on the server, but for a
   single condition that says so, if that can be written; it reports the error then.
   */
  lemma FailureIsRecorded(s: State, rel: Release, env: Env)
    requires s.worker.Idle? && s.copy == s.server && FailsEarly(s, rel, env) && FlushFailure !in env.faults
    ensures var (r, actions) := AttemptSteps(s, rel, env);
            && r.Err?
            && Execute(s, actions).server
               == s.server.(status := s.server.status.(conditions := [Condition(Failure, "apply failed", env.now)]))
  {
    if ListHistories in env.faults {
      ErrorOnRecord(s, [], Unavailable, env);
    } else if Carried(s, rel, env).None? {
      ErrorOnRecord(s, [], RenderFailed, env);
    } else if ApplyResources in env.faults {
      ErrorOnRecord(s, [], ApplyFailed, env);
    } else {
      var carried := Carried(s, rel, env).value;
      var plan := Plan(rel, carried.status.manifest);
      PlannedIsCarried(s, rel, env);
      var (updated, steps) := UpdateSteps(Next(s, plan), carried, env);
      assert updated.Err? && forall a | a in [plan] + steps :: PatchesNothing(a);
      Rendering.FirstStep(s, [plan] + steps);
      assert ([plan] + steps)[1..] == steps;
      ErrorOnRecord(s, [plan] + steps, updated.error, env);
    }
  }

  lemma RollbackStepsEnd(s: State, version: Int32, rel: Release, env: Env)
    requires s.worker.Idle? && RollsBack(s, version, env) && rel.spec.rollbackTo == Some(version)
    ensures var (r, steps) := RollbackSteps(s, version, rel, env);
            r.Ok? && Execute(s, steps) == RolledBack(s, version, env)
  {
    var steps := RollbackSteps(s, version, rel, env).1;
    Rendering.FirstStep(s, steps);
    if version in Mine(s) {
      assert steps[1..] == [Restore(RestoredManifest(s, version, env), env.now)];
      Rendering.FirstStep(Next(s, steps[0]), steps[1..]);
      assert steps[1..][1..] == [];
    } else {
      assert steps[1..] == [];
    }
  }

  /**
   The same for a rollback that fails, or whose manifest cannot be applied: the release is as it was,
   or rolled back, with the failure as its one condition.
   */
  lemma FailedRollbackIsRecorded(s: State, version: Int32, rel: Release, env: Env)
    requires s.worker.Idle? && s.copy == s.server && rel.spec.rollbackTo == Some(version)
    requires FlushFailure !in env.faults && (!RollsBack(s, version, env) || ApplyResources in env.faults)
    ensures var (r, actions) := RollbackAttemptSteps(s, rel, version, env);
            var before := if RollsBack(s, version, env) then RolledBack(s, version, env).server else s.server;
            && r.Err?
            && Execute(s, actions).server
               == before.(status := before.status.(conditions := [Condition(Failure, "apply failed", env.now)]))
  {
    var (rolled, steps) := RollbackSteps(s, version, rel, env);
    if RollsBack(s, version, env) {
      RollbackStepsEnd(s, version, rel, env);
      var s1 := RolledBack(s, version, env);
      assert s1.copy == s1.server by {
        FreshRuns.PatchKeepsCopyCurrent(s, RollbackGoal(s, version, env));
      }
      ErrorOnRecord(s1, [], ApplyFailed, env);
      assert [] + [Flush([FailureCondition(env)])] == [Flush([FailureCondition(env)])];
      ExecuteAppended(s, steps, [Flush([FailureCondition(env)])]);
    } else {
      ErrorOnRecord(s, steps, rolled.error, env);
    }
  }

  /**
   A rollback attempt that succeeds from a current copy ends with the history's description, template
   and config, the request cleared, the suspension kept, at its version, and available.
   */
  lemma RollbackEndsAvailable(s: State, version: Int32, rel: Release, env: Env, top: nat)
    requires Inv(s, top) && s.worker.Idle? && s.copy == s.server && env.now != 0 && version in Mine(s)
    requires rel.spec.rollbackTo == Some(version) && Restores(s, version, env)
    ensures var (r, actions) := RollbackAttemptSteps(s, rel, version, env);
            var server, h := Execute(s, actions).server, Mine(s)[version].spec;
            && r.Ok?
            && server.spec == Spec(h.description, h.template, h.config, s.server.spec.suspend, None)
            && server.status.version == version && server.status.conditions == [Condition(Available, "", env.now)]
            && server.status.lastUpdate == env.now
  {
    var steps := RollbackSteps(s, version, rel, env).1;
    RollbackStepsEnd(s, version, rel, env);
    PatchedAndFlushed(s, RollbackGoal(s, version, env), AvailableConditions(env));
    ExecuteAppended(s, steps, [Flush(AvailableConditions(env))]);
    assert Mine(s)[version].spec.version == version;
  }

  lemma PatchedAndFlushed(s: State, target: Release, conditions: seq<Condition>)
    requires s.copy == s.server && target.name == s.copy.name && target.uid == s.copy.uid
    ensures Execute(Patched(s, target), [Flush(conditions)]).server
         == target.(status := target.status.(conditions := conditions))
  {
    var s1 := Patched(s, target);
    FreshRuns.PatchKeepsCopyCurrent(s, target);
    FreshRuns.PatchKeepsCopyCurrent(s1, FlushTarget(s1.copy, conditions));
    Rendering.FirstStep(s1, [Flush(conditions)]);
    assert [Flush(conditions)][1..] == [];
  }

  lemma PlannedIsCarried(s: State, rel: Release, env: Env)
    requires Carried(s, rel, env).Some?
    ensures var carried := Carried(s, rel, env).value;
            Next(s, Plan(rel, carried.status.manifest)) == s.(worker := Applying(carried))
  {
  }

  /**
   So a failed attempt is never the last one: the update that its condition causes is taken up by
   the handler, whatever that handled before.
   */
  lemma FailureRearms(s: State, rel: Release, env: Env, t: RetryLoop.State)
    requires s.worker.Idle? && s.copy == s.server && FailsEarly(s, rel, env) && FlushFailure !in env.faults
    ensures var server := Execute(s, AttemptSteps(s, rel, env).1).server;
            var t' := RetryLoop.Next(t, RetryLoop.Receive(server));
            t'.target == Some(server) && t'.queue.dirty && t'.queue.requeues == 0
  {
    FailureIsRecorded(s, rel, env);
    RetryLoop.UpdateIsTakenUpUnlessSettled(t, Execute(s, AttemptSteps(s, rel, env).1).server);
  }

  /**
   And a successful one comes to rest: from a current copy the update that it causes, if the user
   asks for nothing else, leaves the handler of that target as it is.
   */
  lemma SuccessIsSkipped(s: State, rel: Release, env: Env, top: nat, t: RetryLoop.State)
    requires Inv(s, top) && s.worker.Idle? && s.copy == s.server && env.now != 0 && Applies(s, rel, env)
    requires rel in s.log && rel.spec.rollbackTo.None? && (Mine(s) != map[] ==> Latest(Mine(s)) != MAX_INT32)
    requires t.target == Some(rel) && s.server.spec == rel.spec
    ensures var server := Execute(s, AttemptSteps(s, rel, env).1).server;
            && server.spec == rel.spec && server.status.conditions == [Condition(Available, "", env.now)]
            && RetryLoop.Next(t, RetryLoop.Receive(server)) == t
  {
    PlannedIsCarried(s, rel, env);
    Rendering.AttemptPublishesItsOwnConfig(s, rel, env, top);
    RetryLoop.UpdateIsTakenUpUnlessSettled(t, Execute(s, AttemptSteps(s, rel, env).1).server);
  }
}
