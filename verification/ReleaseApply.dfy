/** One attempt to bring a release into effect (pkg/release/apply.go). */
module ReleaseApply {
  import opened Common
  import opened ReleaseDoc
  import opened Histories
  import opened ReleaseProtocol
  import opened ReleaseStorage
  import Manifest

  /** Chooses the version from the listed histories, scanning for the one the release records. */
  method NextVersion(histories: seq<History>, rel: Release, ghost owned: map<Int32, History>) returns (version: Int32)
    requires Lists(histories, owned)
    ensures version == Planned(owned, rel.status.version, SpecContent(rel.spec))
    ensures owned != map[] && HistoryContent(owned[Latest(owned)]) == SpecContent(rel.spec) ==>
              (version == Latest(owned) <==> rel.status.version !in owned || rel.status.version == Latest(owned))
  {
    ListedNothing(histories, owned);
    if |histories| == 0 {
      return 1;
    }
    var latest := histories[0];
    assert latest in histories && owned != map[];
    ListedLatest(histories, owned);
    var current := latest;
    for i := 0 to |histories|
      invariant current == latest
      invariant forall j | 0 <= j < i :: histories[j].spec.version != rel.status.version
    {
      if histories[i].spec.version == rel.status.version {
        current := histories[i];
        assert current in histories;
        break;
      }
    }
    var changed := rel.spec.config != current.spec.config || rel.spec.template != current.spec.template;
    assert rel.status.version in owned ==> owned[rel.status.version] in histories;
    return if !changed then current.spec.version else Succ(latest.spec.version);
  }

  lemma ListedNothing(histories: seq<History>, owned: map<Int32, History>)
    requires Lists(histories, owned)
    ensures histories == [] <==> owned == map[]
  {
    if owned.Keys != {} {
      var v := Inhabitant(owned.Keys);
      assert owned[v] in histories;
    } else {
      SameMaps(owned, map[]);
    }
    if histories != [] {
      assert histories[0] in histories;
    }
  }

  lemma ListedLatest(histories: seq<History>, owned: map<Int32, History>)
    requires Lists(histories, owned) && histories != [] && owned != map[]
    ensures Latest(owned) == histories[0].spec.version
  {
    var v := Latest(owned);
    assert owned[v] in histories && histories[0] in histories;
    var i :| 0 <= i < |histories| && histories[i] == owned[v];
  }

  function FailureCondition(env: Env): Condition {
    Condition(Failure, "apply failed", env.now)
  }

  /** The failure can be recorded: the patch is empty or goes through. */
  ghost predicate CanRecord(s: State, env: Env) {
    FlushTarget(s.copy, [FailureCondition(env)]) == s.copy || FlushFailure !in env.faults
  }

  /** Records the error on the release and reports it, or reports that this failed. */
  method RecordError(backend: Storage, error: Error, env: Env, ghost s: State)
    returns (reported: Error, ghost actions: seq<Action>)
    requires backend.Valid() && backend.At(s) && s.worker.Idle?
    modifies backend`release, backend.server`release
    ensures backend.Valid()
    ensures backend.At(Execute(s, actions)) && Possible(s, actions, 0)
    ensures actions == if CanRecord(s, env) then [Flush([FailureCondition(env)])] else []
    ensures reported == if CanRecord(s, env) then error else Unavailable
    ensures Execute(s, actions).worker.Idle? && Execute(s, actions).store == s.store
  {
    var flushed := backend.FlushConditions([FailureCondition(env)], FlushFailure in env.faults, s);
    ExecuteOne(s, Flush([FailureCondition(env)]), 0);
    if flushed.Ok? {
      return error, [Flush([FailureCondition(env)])];
    }
    return flushed.error, [];
  }

  /** What an error comes to: it is recorded and reported, or reported as a failure of that. */
  ghost function Failing(s: State, steps: seq<Action>, error: Error, env: Env): (Result<(), Error>, seq<Action>) {
    if CanRecord(s, env) then (Err(error), steps + [Flush([FailureCondition(env)])]) else (Err(Unavailable), steps)
  }

  /** RecordError after some steps ends so. */
  lemma FailingIs(s: State, steps: seq<Action>, error: Error, env: Env, reported: Error, failed: seq<Action>)
    requires failed == if CanRecord(s, env) then [Flush([FailureCondition(env)])] else []
    requires reported == if CanRecord(s, env) then error else Unavailable
    ensures Failing(s, steps, error, env) == (Err(reported), steps + failed)
    ensures steps == [] ==> steps + failed == failed
  {
    assert steps + [] == steps;
  }

  /** The document an attempt carries once version and manifest are chosen. */
  ghost function Carried(s: State, rel: Release, env: Env): Option<Release> {
    var version := Planned(Mine(s), rel.status.version, SpecContent(rel.spec));
    match env.render(RenderOptions(rel.name, version, rel.spec.template, rel.spec.config, rel.spec.suspend))
    case None => None
    case Some(resources) =>
      Some(rel.(status := rel.status.(version := version, manifest := Manifest.MergeResources(resources))))
  }

  function AvailableConditions(env: Env): seq<Condition> {
    [Condition(Available, "", env.now)]
  }

  /** The last step of an attempt: marking the release available after version and manifest are published. */
  ghost predicate CanFlushAvailable(s: State, plan: Action, env: Env) {
    var published := Execute(s, [plan, Record, Publish(env.now)]);
    FlushAvailable !in env.faults || FlushTarget(published.copy, AvailableConditions(env)) == published.copy
  }

  /** What an attempt on an unrolled release needs from its surroundings to succeed. */
  ghost predicate Applies(s: State, rel: Release, env: Env) {
    && ListHistories !in env.faults && ApplyResources !in env.faults
    && Carried(s, rel, env).Some? && Updates(s, Carried(s, rel, env).value, env)
    && CanFlushAvailable(s, Plan(rel, Carried(s, rel, env).value.status.manifest), env)
  }

  /** The outcome of an attempt after the manifest was applied, and its steps, whatever fails. */
  ghost function PublishSteps(s: State, plan: Action, carried: Release, env: Env): (Result<(), Error>, seq<Action>)
  {
    var (updated, steps) := UpdateSteps(Next(s, plan), carried, env);
    if updated.Err? then Failing(Execute(Next(s, plan), steps), [plan] + steps, updated.error, env)
    else if CanFlushAvailable(s, plan, env) then
      (Ok(()), [plan, Record, Publish(env.now), Flush(AvailableConditions(env))])
    else (Err(Unavailable), [plan, Record, Publish(env.now)])
  }

  /** The outcome of an attempt without rollback and its steps, whatever fails. */
  ghost function AttemptSteps(s: State, rel: Release, env: Env): (Result<(), Error>, seq<Action>) {
    if ListHistories in env.faults then Failing(s, [], Unavailable, env)
    else if Carried(s, rel, env).None? then Failing(s, [], RenderFailed, env)
    else if ApplyResources in env.faults then Failing(s, [], ApplyFailed, env)
    else
      var carried := Carried(s, rel, env).value;
      PublishSteps(s, Plan(rel, carried.status.manifest), carried, env)
  }

  /**
   An attempt on a release that asks for no rollback. Whatever happens on the way, storage and
   server end where some possible protocol steps lead; it succeeds exactly when nothing it needs
   fails, and then it planned, recorded and published in this order.
   */
  method ApplySpec(backend: Storage, rel: Release, env: Env, ghost s: State)
    returns (r: Result<(), Error>, applied: seq<string>, ghost actions: seq<Action>)
    requires backend.Valid() && backend.At(s) && s.worker.Idle? && env.now != 0
    requires rel in s.log && rel.name == backend.release.name && rel.uid == backend.release.uid
    requires rel.spec.rollbackTo.None?
    requires Mine(s) != map[] ==> Latest(Mine(s)) != MAX_INT32
    modifies backend`release, backend.server
    ensures backend.Valid()
    ensures backend.At(Execute(s, actions)) && Possible(s, actions, 0)
    ensures (r, actions) == AttemptSteps(s, rel, env)
    ensures r.Ok? <==> Applies(s, rel, env)
    ensures r.Ok? ==>
              var carried := Carried(s, rel, env).value;
              && actions == [Plan(rel, carried.status.manifest), Record, Publish(env.now),
                             Flush(AvailableConditions(env))]
              && carried.status.manifest == Manifest.MergeResources(applied)
  {
    applied := [];
    var listed := backend.Histories(ListHistories in env.faults);
    if listed.Err? {
      var e, failed := RecordError(backend, listed.error, env, s);
      FailingIs(s, [], listed.error, env, e, failed);
      return Err(e), applied, failed;
    }
    var version := NextVersion(listed.value, rel, backend.OwnedHere());
    var rendered := env.render(RenderOptions(rel.name, version, rel.spec.template, rel.spec.config, rel.spec.suspend));
    if rendered.None? {
      var e, failed := RecordError(backend, RenderFailed, env, s);
      FailingIs(s, [], RenderFailed, env, e, failed);
      return Err(e), applied, failed;
    }
    applied := rendered.value;
    var manifest := Manifest.MergeResources(applied);
    var carried := rel.(status := rel.status.(version := version, manifest := manifest));
    if ApplyResources in env.faults {
      var e, failed := RecordError(backend, ApplyFailed, env, s);
      FailingIs(s, [], ApplyFailed, env, e, failed);
      return Err(e), applied, failed;
    }
    r, actions := PublishApplied(backend, rel, carried, env, s);
  }

  /** A plan, the steps of an update and those of recording its error, in one. */
  lemma PlannedAndFailed(s: State, plan: Action, steps: seq<Action>, failed: seq<Action>)
    requires Enabled(s, plan, 0) && Possible(Next(s, plan), steps, 0)
    requires Possible(Execute(Next(s, plan), steps), failed, 0)
    ensures Possible(s, [plan] + steps + failed, 0)
    ensures Execute(s, [plan] + steps + failed) == Execute(Execute(Next(s, plan), steps), failed)
  {
    ExecuteJoin(Next(s, plan), steps, failed, 0);
    ExecuteFirst(s, plan, steps + failed, 0);
    assert [plan] + (steps + failed) == [plan] + steps + failed;
  }

  /** The part of an attempt after the manifest was applied. */
  method PublishApplied(backend: Storage, rel: Release, carried: Release, env: Env, ghost s: State)
    returns (r: Result<(), Error>, ghost actions: seq<Action>)
    requires backend.Valid() && backend.At(s) && s.worker.Idle? && env.now != 0
    requires carried.name == backend.release.name && carried.uid == backend.release.uid
    requires var plan := Plan(rel, carried.status.manifest);
             Enabled(s, plan, 0) && Next(s, plan) == s.(worker := Applying(carried))
    modifies backend`release, backend.server
    ensures backend.Valid()
    ensures backend.At(Execute(s, actions)) && Possible(s, actions, 0)
    ensures (r, actions) == PublishSteps(s, Plan(rel, carried.status.manifest), carried, env)
    ensures r.Ok? <==> Updates(s, carried, env) && CanFlushAvailable(s, Plan(rel, carried.status.manifest), env)
    ensures r.Ok? ==>
              actions == [Plan(rel, carried.status.manifest), Record, Publish(env.now), Flush(AvailableConditions(env))]
  {
    ghost var plan := Plan(rel, carried.status.manifest);
    ghost var s1 := Next(s, plan);
    assert backend.At(s1);
    var updated, steps := backend.Update(carried, env, s1);
    ghost var s2 := Execute(s1, steps);
    if updated.Err? {
      var e, failed := RecordError(backend, updated.error, env, s2);
      FailingIs(s2, [plan] + steps, updated.error, env, e, failed);
      PlannedAndFailed(s, plan, steps, failed);
      return Err(e), [plan] + steps + failed;
    }
    ExecuteFirst(s, plan, steps, 0);
    assert [plan] + steps == [plan, Record, Publish(env.now)];
    r := backend.FlushConditions(AvailableConditions(env), FlushAvailable in env.faults, s2);
    actions := [plan, Record, Publish(env.now)];
    if r.Ok? {
      ExecuteOneMore(s, actions, Flush(AvailableConditions(env)), 0);
      actions := actions + [Flush(AvailableConditions(env))];
      assert actions == [plan, Record, Publish(env.now), Flush(AvailableConditions(env))];
    }
  }

  /** What an attempt at a rollback needs from its surroundings to succeed. */
  ghost predicate Restores(s: State, version: Int32, env: Env)
    requires s.worker.Idle?
  {
    && RollsBack(s, version, env) && ApplyResources !in env.faults
    && var rolled := RolledBack(s, version, env);
       (FlushAvailable !in env.faults || FlushTarget(rolled.copy, AvailableConditions(env)) == rolled.copy)
  }

  /**
   The outcome of a successful attempt at a rollback: the history was read and restored, or the
   missing version noted; the manifest then on record was applied; the release is available.
   */
  ghost predicate RollbackOutcome(s: State, version: Int32, env: Env, applied: seq<string>, actions: seq<Action>)
    requires s.worker.Idle?
  {
    && Execute(s, actions) == Next(RolledBack(s, version, env), Flush(AvailableConditions(env)))
    && applied == Manifest.ManifestResources(RolledBack(s, version, env).copy.status.manifest)
    && if version in Mine(s) then
         && |actions| == 3 && actions[0].ReadHistory?
         && actions[1] == Restore(RestoredManifest(s, version, env), env.now)
         && actions[2] == Flush(AvailableConditions(env))
       else
         actions == [Flush(MissingConditions(env)), Flush(AvailableConditions(env))]
  }

  /** The outcome of an attempt at a rollback and its steps, whatever fails. */
  ghost function RollbackAttemptSteps(s: State, rel: Release, version: Int32, env: Env)
    : (Result<(), Error>, seq<Action>)
    requires s.worker.Idle?
  {
    var (rolled, steps) := RollbackSteps(s, version, rel, env);
    var s1 := Execute(s, steps);
    if rolled.Err? then Failing(s1, steps, rolled.error, env)
    else if ApplyResources in env.faults then Failing(s1, steps, ApplyFailed, env)
    else if FlushAvailable !in env.faults || FlushTarget(s1.copy, AvailableConditions(env)) == s1.copy then
      (Ok(()), steps + [Flush(AvailableConditions(env))])
    else (Err(Unavailable), steps)
  }

  /** The steps of a rollback attempt say when it succeeds, and with what outcome. */
  lemma RollbackAttemptIff(s: State, rel: Release, version: Int32, env: Env)
    requires s.worker.Idle? && rel in s.log && rel.spec.rollbackTo == Some(version) && env.now != 0
    requires var (rolled, steps) := RollbackSteps(s, version, rel, env);
             && (rolled.Ok? <==> RollsBack(s, version, env)) && Possible(s, steps, 0)
             && (rolled.Ok? ==> Execute(s, steps) == RolledBack(s, version, env))
    ensures var (r, actions) := RollbackAttemptSteps(s, rel, version, env);
            && (r.Ok? <==> Restores(s, version, env))
            && (r.Ok? ==> RollbackOutcome(s, version, env,
                            Manifest.ManifestResources(RolledBack(s, version, env).copy.status.manifest), actions))
  {
    var (rolled, steps) := RollbackSteps(s, version, rel, env);
    if rolled.Ok? {
      ExecuteOneMore(s, steps, Flush(AvailableConditions(env)), 0);
    }
  }

  /**
   An attempt on a release that asks for a rollback. It succeeds exactly when nothing it needs
   fails; that the version is missing is no failure: then it re-applies the current manifest and
   marks the release available, with the request still standing.
   */
  method ApplyRollback(backend: Storage, rel: Release, env: Env, ghost s: State)
    returns (r: Result<(), Error>, applied: seq<string>, ghost actions: seq<Action>)
    requires backend.Valid() && backend.At(s) && s.worker.Idle? && env.now != 0
    requires rel in s.log && rel.name == backend.release.name && rel.uid == backend.release.uid
    requires rel.spec.rollbackTo.Some?
    modifies backend`release, backend.server`release
    ensures backend.Valid()
    ensures backend.At(Execute(s, actions)) && Possible(s, actions, 0)
    ensures (r, actions) == RollbackAttemptSteps(s, rel, rel.spec.rollbackTo.value, env)
    ensures r.Ok? <==> Restores(s, rel.spec.rollbackTo.value, env)
    ensures r.Ok? ==> RollbackOutcome(s, rel.spec.rollbackTo.value, env, applied, actions)
  {
    applied := [];
    var version := rel.spec.rollbackTo.value;
    var rolled, steps := backend.Rollback(version, env, rel, s);
    ghost var s1 := Execute(s, steps);
    RollbackAttemptIff(s, rel, version, env);
    if rolled.Err? {
      var e, failed := RecordError(backend, rolled.error, env, s1);
      FailingIs(s1, steps, rolled.error, env, e, failed);
      ExecuteJoin(s, steps, failed, 0);
      return Err(e), applied, steps + failed;
    }
    applied := Manifest.SplitManifest(backend.release.status.manifest);
    if ApplyResources in env.faults {
      var e, failed := RecordError(backend, ApplyFailed, env, s1);
      FailingIs(s1, steps, ApplyFailed, env, e, failed);
      ExecuteJoin(s, steps, failed, 0);
      return Err(e), applied, steps + failed;
    }
    r := backend.FlushConditions(AvailableConditions(env), FlushAvailable in env.faults, s1);
    actions := steps;
    if r.Ok? {
      ExecuteOneMore(s, steps, Flush(AvailableConditions(env)), 0);
      actions := steps + [Flush(AvailableConditions(env))];
    }
  }

  /** The dispatch at the head of an attempt, with what either branch promises. */
  method ApplyRelease(backend: Storage, rel: Release, env: Env, ghost s: State)
    returns (r: Result<(), Error>, applied: seq<string>, ghost actions: seq<Action>)
    requires backend.Valid() && backend.At(s) && s.worker.Idle? && env.now != 0
    requires rel in s.log && rel.name == backend.release.name && rel.uid == backend.release.uid
    requires Mine(s) != map[] ==> Latest(Mine(s)) != MAX_INT32
    modifies backend`release, backend.server
    ensures backend.Valid()
    ensures backend.At(Execute(s, actions)) && Possible(s, actions, 0)
    ensures (r, actions) == if rel.spec.rollbackTo.None? then AttemptSteps(s, rel, env)
                            else RollbackAttemptSteps(s, rel, rel.spec.rollbackTo.value, env)
    ensures rel.spec.rollbackTo.None? ==> (r.Ok? <==> Applies(s, rel, env))
    ensures rel.spec.rollbackTo.None? && r.Ok? ==>
              var carried := Carried(s, rel, env).value;
              && actions == [Plan(rel, carried.status.manifest), Record, Publish(env.now),
                             Flush(AvailableConditions(env))]
              && carried.status.manifest == Manifest.MergeResources(applied)
    ensures rel.spec.rollbackTo.Some? ==> (r.Ok? <==> Restores(s, rel.spec.rollbackTo.value, env))
    ensures rel.spec.rollbackTo.Some? && r.Ok? ==>
              RollbackOutcome(s, rel.spec.rollbackTo.value, env, applied, actions)
  {
    if rel.spec.rollbackTo.Some? {
      r, applied, actions := ApplyRollback(backend, rel, env, s);
    } else {
      r, applied, actions := ApplySpec(backend, rel, env, s);
    }
  }

  /**
   The outcome for a missing version, in terms of the document: whatever the storage's copy was, the
   release is marked available and everything else on the server, the unfulfilled request included,
   is as before.
   */
  lemma MissingRollbackLooksAvailable(s: State, now: int, later: int)
    requires s.worker.Idle? && s.copy.name == s.server.name && s.copy.uid == s.server.uid
    ensures var s' := Execute(s, [Flush([Condition(Failure, "not found", now)]),
                                  Flush([Condition(Available, "", later)])]);
            && s'.server == s.server.(status := s.server.status.(conditions := [Condition(Available, "", later)]))
            && s'.copy == s'.server && s'.store == s.store
  {
    var failed, available := [Condition(Failure, "not found", now)], [Condition(Available, "", later)];
    assert failed[0] != available[0];
    ExecuteTwo(s, Flush(failed), Flush(available), 0);
  }
}
