/**
 What is rendered: the options that attempts and rollbacks hand to the renderer, told from outside by
 what renderers that know or repeat only one thing make of them, and that both render alike.
 */
module Rendering {
  import opened Common
  import opened ReleaseDoc
  import opened Histories
  import opened ReleaseProtocol
  import opened ReleaseStorage
  import opened ReleaseApply
  import FreshRuns
  import Manifest

  /** A renderer that knows one set of options and fails for all others. */
  function OnlyFor(e: RenderOptions): RenderOptions -> Option<seq<string>> {
    (o: RenderOptions) => if o == e then Some(["known"]) else None
  }

  /** Renderers that repeat one option. */
  function EchoConfig(): RenderOptions -> Option<seq<string>> {
    (o: RenderOptions) => Some([o.config])
  }

  function EchoTemplate(): RenderOptions -> Option<seq<string>> {
    (o: RenderOptions) => Some([o.template])
  }

  // ---------- Rollbacks ----------

  /**
   A rollback with no failing call and a renderer that knows one set of options succeeds exactly when
   these are the name of the release, number, template and config of the history, and whether the
   release is suspended now.
   */
  lemma RollbackRendersTheHistory(s: State, version: int, env: Env, e: RenderOptions)
    requires s.worker.Idle? && version in Mine(s) && env.faults == {} && env.render == OnlyFor(e)
    ensures RollsBack(s, version, env) <==>
              var h := Mine(s)[version];
              && e.release == s.copy.name && e.version == h.spec.version
              && e.template == h.spec.template && e.config == h.spec.config && e.suspend == s.copy.spec.suspend
  {
    var h := Mine(s)[version];
    var o := OptionsOf(s.copy, h);
    assert env.render(o).Some? <==> o == e;
  }

  /** After a rollback from a current copy the published manifest is rendered from the document as it then is. */
  lemma RollbackPublishesItsOwnConfig(s: State, version: int, env: Env)
    requires s.worker.Idle? && s.copy == s.server && version in Mine(s) && env.now != 0
    requires RollsBack(s, version, env)
    ensures var server := RolledBack(s, version, env).server;
            && server.spec.config == Mine(s)[version].spec.config
            && server.spec.template == Mine(s)[version].spec.template
            && (env.render == EchoConfig() ==> server.status.manifest == server.spec.config)
            && (env.render == EchoTemplate() ==> server.status.manifest == server.spec.template)
  {
    FreshRuns.PatchKeepsCopyCurrent(s, RollbackGoal(s, version, env));
  }

  /**
   A rollback from a current copy publishes what an attempt on the rolled-back document would: same
   version, same manifest, for every renderer.
   */
  lemma RollbackIsAReapply(s: State, version: int, env: Env, top: nat)
    requires Inv(s, top) && s.worker.Idle? && s.copy == s.server && version in Mine(s) && env.now != 0
    requires RollsBack(s, version, env)
    ensures var s' := RolledBack(s, version, env);
            Carried(s', s'.server, env) == Some(s'.server)
  {
    var s' := RolledBack(s, version, env);
    FreshRuns.PatchKeepsCopyCurrent(s, RollbackGoal(s, version, env));
    assert Mine(s') == Mine(s);
    assert Mine(s)[version].spec.version == version;
    UnchangedIsKept(Mine(s'), version, SpecContent(s'.server.spec));
    assert version > 0 by {
      assert Known(s, version, HistoryContent(Mine(s)[version]));
    }
  }

  /**
   A history re-renders to its own manifest: if an attempt recorded it, a rollback to it restores the
   manifest that was recorded, as long as name and suspension are the same, for every renderer.
   */
  lemma RollbackRerendersTheRecord(s0: State, rel: Release, env: Env, s: State, version: int)
    requires Carried(s0, rel, env).Some? && s.copy.name == rel.name && s.copy.spec.suspend == rel.spec.suspend
    requires var carried := Carried(s0, rel, env).value;
             version == carried.status.version && version in Mine(s)
             && Mine(s)[version] == Construct(carried, carried.status.version)
    ensures RestoredManifest(s, version, env) == Mine(s)[version].spec.manifest
  {
  }

  // ---------- Attempts ----------

  /**
   An attempt with no failing call and a renderer that knows one set of options succeeds exactly when
   these are name, template, config and suspension of its target with the planned version, and no
   foreign object has the name of that version's history.
   */
  lemma AttemptRendersItsTarget(s: State, rel: Release, env: Env, e: RenderOptions)
    requires s.worker.Idle? && env.faults == {} && env.render == OnlyFor(e)
    ensures Applies(s, rel, env) <==>
              && e.release == rel.name
              && e.version == Planned(Mine(s), rel.status.version, SpecContent(rel.spec))
              && e.template == rel.spec.template && e.config == rel.spec.config && e.suspend == rel.spec.suspend
              && (e.version in s.store ==> e.version in Mine(s))
  {
    var version := Planned(Mine(s), rel.status.version, SpecContent(rel.spec));
    var o := RenderOptions(rel.name, version, rel.spec.template, rel.spec.config, rel.spec.suspend);
    assert env.render(o).Some? <==> o == e;
  }

  /** What an attempt records and publishes from a current copy is rendered from its target's config and template. */
  lemma AttemptPublishesItsOwnConfig(s: State, rel: Release, env: Env, top: nat)
    requires Inv(s, top) && s.worker.Idle? && s.copy == s.server && env.now != 0 && Applies(s, rel, env)
    requires rel in s.log && rel.spec.rollbackTo.None? && (Mine(s) != map[] ==> Latest(Mine(s)) != MAX_INT32)
    ensures var plan := Plan(rel, Carried(s, rel, env).value.status.manifest);
            var s' := Execute(s, [plan, Record, Publish(env.now), Flush(AvailableConditions(env))]);
            var v := s'.server.status.version;
            && s'.server.spec == s.server.spec && s'.server.status.conditions == [Condition(Available, "", env.now)]
            && v in Mine(s')
            && HistoryContent(Mine(s')[v]) == SpecContent(rel.spec)
            && (v !in Mine(s) ==> Mine(s')[v].spec.manifest == s'.server.status.manifest)
            && (env.render == EchoConfig() ==> s'.server.status.manifest == rel.spec.config)
            && (env.render == EchoTemplate() ==> s'.server.status.manifest == rel.spec.template)
  {
    var carried := Carried(s, rel, env).value;
    var plan, conditions := Plan(rel, carried.status.manifest), AvailableConditions(env);
    FourSteps(s, plan, env.now, conditions);
    var s1 := Next(s, plan);
    var s2 := Next(s1, Record);
    assert s1.worker == Applying(carried) && Mine(s1) == Mine(s);
    PlanKeepsInv(s, plan, 0, top);
    var top' := RecordKeepsInv(s1, 0, top);
    RecordedHistory(s1, top');
    PublishedAndFlushed(s2, carried, env.now, conditions);
  }

  lemma FourSteps(s: State, plan: Action, now: int, conditions: seq<Condition>)
    ensures Execute(s, [plan, Record, Publish(now), Flush(conditions)])
         == Next(Next(Next(Next(s, plan), Record), Publish(now)), Flush(conditions))
  {
    var all := [plan, Record, Publish(now), Flush(conditions)];
    FirstStep(s, all);
    assert all[1..] == [Record, Publish(now), Flush(conditions)];
    FirstStep(Next(s, plan), all[1..]);
    assert all[1..][1..] == [Publish(now), Flush(conditions)];
    FirstStep(Next(Next(s, plan), Record), all[1..][1..]);
    assert all[1..][1..][1..] == [Flush(conditions)];
    FirstStep(Next(Next(Next(s, plan), Record), Publish(now)), [Flush(conditions)]);
    assert [Flush(conditions)][1..] == [];
  }

  lemma FirstStep(s: State, actions: seq<Action>)
    requires actions != []
    ensures Execute(s, actions) == Execute(Next(s, actions[0]), actions[1..])
  {
  }

  lemma PublishedAndFlushed(s: State, rel: Release, now: int, conditions: seq<Condition>)
    requires s.worker == Recorded(rel) && s.copy == s.server
    ensures var s' := Next(Next(s, Publish(now)), Flush(conditions));
            && s'.server.status == Status(rel.status.version, rel.status.manifest, now, conditions)
            && s'.server.spec == s.server.spec && Mine(s') == Mine(s)
  {
    var published := Next(s, Publish(now));
    FreshRuns.PatchKeepsCopyCurrent(s, UpdateTarget(s.copy, rel, now));
    FreshRuns.PatchKeepsCopyCurrent(published, FlushTarget(published.copy, conditions));
  }

  /** After recording, the version has a history with the carried content, and with the manifest if it is new. */
  lemma RecordedHistory(s: State, top': nat)
    requires s.worker.Applying? && Inv(Next(s, Record), top') && Next(s, Record).worker.Recorded?
    ensures var rel, s' := s.worker.rel, Next(s, Record);
            var v := rel.status.version;
            && v in Mine(s') && HistoryContent(Mine(s')[v]) == SpecContent(rel.spec)
            && (v !in Mine(s) ==> Mine(s')[v] == Construct(rel, v))
  {
    var rel, s' := s.worker.rel, Next(s, Record);
    var v := rel.status.version;
    if v !in Mine(s) {
      assert Own(Construct(rel, v), s'.server.name, s'.server.uid);
    }
    assert Known(s', v, HistoryContent(Mine(s')[v]));
  }
}
