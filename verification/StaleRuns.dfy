/** Concrete runs that show why the protocol's guarantees need their conditions. */
module StaleRuns {
  import opened Common
  import opened ReleaseDoc
  import opened Histories
  import opened ReleaseProtocol

  function Configured(config: string): Spec {
    Spec("", "t", config, None, None)
  }

  function Fresh0(): State {
    var r := Release("r", "u", Configured("a"), Status(0, "", 0, []));
    State(r, map[], r, Idle, {r}, map[], [])
  }

  /** The first attempt: version 1 is planned, recorded and published. */
  lemma FirstVersion(limit: int) returns (trace: seq<State>, actions: seq<Action>)
    ensures IsFreshRun(trace, actions, limit)
    ensures var s := trace[|actions|];
            var r := Release("r", "u", Configured("a"), Status(1, "m", 1, [Condition(Updating, "", 1)]));
            && s.server == r && s.copy == r && s.worker == Idle && r in s.log
            && s.store == map[1 := Construct(r, 1)] && s.born == [1]
            && s.ledger == map[1 := Content("a", "t")]
  {
    var s0 := Fresh0();
    actions := [Plan(s0.server, "m"), Record, Publish(1)];
    assert Mine(s0) == map[];
    var s1 := Next(s0, actions[0]);
    assert Mine(s1) == map[];
    var s2 := Next(s1, actions[1]);
    assert Mine(s2) == map[1 := Construct(s1.worker.rel, 1)];
    var s3 := Next(s2, actions[2]);
    trace := [s0, s1, s2, s3];
    forall i | 0 <= i < |actions|
      ensures Enabled(trace[i], actions[i], limit) && Fresh(trace[i], actions[i])
           && trace[i + 1] == Next(trace[i], actions[i])
    {
      assert i == 0 || i == 1 || i == 2;
    }
  }

  lemma Extend(trace: seq<State>, actions: seq<Action>, a: Action, limit: int) returns (longer: seq<State>)
    requires IsRun(trace, actions, limit) && Enabled(trace[|actions|], a, limit)
    ensures longer == trace + [Next(trace[|actions|], a)]
    ensures IsRun(longer, actions + [a], limit)
    ensures IsFreshRun(trace, actions, limit) && Fresh(trace[|actions|], a) ==> IsFreshRun(longer, actions + [a], limit)
  {
    longer := trace + [Next(trace[|actions|], a)];
  }

  /** Without a window the collector removes the only history, and the user edits the release. */
  lemma NothingLeft(limit: int) returns (trace: seq<State>, actions: seq<Action>)
    requires limit <= 0
    ensures IsFreshRun(trace, actions, limit)
    ensures var s := trace[|actions|];
            && Mine(s) == map[] && s.store == map[] && s.worker == Idle && s.born == [1]
            && s.server.spec == Configured("b") && s.server in s.log && s.ledger == map[1 := Content("a", "t")]
  {
    trace, actions := FirstVersion(limit);
    var s3 := trace[|actions|];
    assert Mine(s3) == map[1 := Construct(s3.server, 1)];
    var a4 := Collect(1, s3.server);
    trace := Extend(trace, actions, a4, limit);
    actions := actions + [a4];
    var s4 := trace[|actions|];
    assert s4.store == map[];
    trace := Extend(trace, actions, Edit(Configured("b")), limit);
    actions := actions + [Edit(Configured("b"))];
    assert trace[|actions|].store == map[];
  }

  /**
   With a limit of zero or less even current caches do not help: the only history is collected,
   and the edited release gets version 1 again, now with another content.
   */
  lemma NonPositiveLimitReusesVersionOne(limit: int)
    requires limit <= 0
    ensures exists trace: seq<State>, actions: seq<Action> ::
      && IsFreshRun(trace, actions, limit)
      && trace[|actions|].born == [1, 1]
      && Known(trace[|actions|], 1, Content("b", "t"))
  {
    var trace, actions := NothingLeft(limit);
    var a := Plan(trace[|actions|].server, "m");
    trace := Extend(trace, actions, a, limit);
    actions := actions + [a];
    var s := trace[|actions|];
    assert s.worker.Applying? && s.worker.rel.status.version == 1 && Mine(s) == map[];
    trace := Extend(trace, actions, Record, limit);
    actions := actions + [Record];
    assert IsFreshRun(trace, actions, limit) && trace[|actions|].born == [1, 1];
  }

  /** The second attempt: the user edits, and version 2 is planned, recorded and published. */
  lemma SecondVersion() returns (trace: seq<State>, actions: seq<Action>, stale: Release)
    ensures IsRun(trace, actions, 1)
    ensures var s := trace[|actions|];
            && s.worker == Idle && s.born == [1, 2]
            && s.server.name == "r" && s.server.uid == "u"
            && s.server.status.version == 2 && s.server.status.manifest == "m"
            && stale in s.log && s.server in s.log
            && stale.name == "r" && stale.uid == "u" && stale.spec == Configured("a") && stale.status.version == 1
            && s.store.Keys == {1, 2} && s.store[1] == Construct(stale, 1)
            && Own(s.store[2], "r", "u")
  {
    trace, actions := FirstVersion(1);
    var s3 := trace[|actions|];
    stale := s3.server;
    assert Mine(s3) == map[1 := Construct(stale, 1)];

    var a4 := Edit(Configured("b"));
    trace := Extend(trace, actions, a4, 1);
    actions := actions + [a4];
    var s4 := Next(s3, a4);
    assert Mine(s4) == Mine(s3);

    var a5 := Plan(s4.server, "m");
    trace := Extend(trace, actions, a5, 1);
    actions := actions + [a5];
    var s5 := Next(s4, a5);
    assert "a"[0] != "b"[0];
    assert HistoryContent(Mine(s4)[1]) != SpecContent(s4.server.spec);
    assert Latest(Mine(s4)) == 1;
    assert s5.worker.rel.status.version == 2;

    trace := Extend(trace, actions, Record, 1);
    actions := actions + [Record];
    var s6 := Next(s5, Record);

    trace := Extend(trace, actions, Publish(2), 1);
    actions := actions + [Publish(2)];
  }

  /** Re-planned from the old document, version 1 loses its history to a collector that sees version 2. */
  lemma Undercut() returns (trace: seq<State>, actions: seq<Action>)
    ensures IsRun(trace, actions, 1)
    ensures var s := trace[|actions|];
            s.worker.Applying? && s.worker.rel.status.version == 1 && 1 !in s.store && s.born == [1, 2]
  {
    var stale;
    trace, actions, stale := SecondVersion();
    var s7 := trace[|actions|];
    assert 1 in Mine(s7) && 2 in Mine(s7) && forall v | v in Mine(s7) :: v <= 2;
    var a8 := Plan(stale, "m");
    trace := Extend(trace, actions, a8, 1);
    actions := actions + [a8];
    var s8 := trace[|actions|];
    assert s8.worker.rel.status.version == 1;
    var a9 := Collect(1, s8.server);
    trace := Extend(trace, actions, a9, 1);
    actions := actions + [a9];
  }

  /**
   A stale target is enough to create the same version twice at limit 1: the worker re-plans
   version 1 from an old document while the collector, seeing version 2, prunes its history.
   The content is the same both times, as it is in every run.
   */
  lemma StaleTargetRecreatesVersionOne()
    ensures exists trace: seq<State>, actions: seq<Action> ::
      IsRun(trace, actions, 1) && trace[|actions|].born == [1, 2, 1]
  {
    var trace, actions := Undercut();
    trace := Extend(trace, actions, Record, 1);
    actions := actions + [Record];
    assert IsRun(trace, actions, 1) && trace[|actions|].born == [1, 2, 1];
  }
}
