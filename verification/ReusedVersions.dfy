/**
 When a version number is given a history twice: exactly when the collector removes the history of
 an attempt between its planning and its recording. This holds of every run, however stale the
 documents that worker and collector act on.
 */
module ReusedVersions {
  import opened Common
  import opened ReleaseDoc
  import opened Histories
  import opened ReleaseProtocol
  import opened FreshRuns
  import StaleRuns

  /** The worker carries version v: it has planned it, or already recorded it. */
  predicate Carries(w: Worker, v: int) {
    (w.Applying? || w.Recorded?) && w.rel.status.version == v
  }

  /** At step k the collector removed version v from under the worker, who stands there still at j. */
  ghost predicate UndercutAt(trace: seq<State>, actions: seq<Action>, j: nat, v: int, k: nat)
    requires |trace| == |actions| + 1 && j < |trace|
  {
    && k < j && actions[k].Collect? && actions[k].version == v
    && forall t | k <= t <= j :: trace[t].worker == trace[j].worker
  }

  ghost predicate Undercut(trace: seq<State>, actions: seq<Action>, j: nat, v: int)
    requires |trace| == |actions| + 1 && j < |trace|
  {
    exists k: nat :: UndercutAt(trace, actions, j, v, k)
  }

  /** A worker who has just planned or recorded a known version has its history. */
  lemma FreshlyCarried(s: State, a: Action, limit: int, top: nat, v: int)
    requires Inv(s, top) && Enabled(s, a, limit) && limit >= 1
    requires Next(s, a).worker != s.worker && Carries(Next(s, a).worker, v) && v in Next(s, a).ledger
    ensures v in Mine(Next(s, a))
  {
    if a.Plan? {
      PlanKeepsInv(s, a, limit, top);
      assert Mine(Next(s, a)) == Mine(s);
      if Mine(s) != map[] {
        LatestIsTop(s, top);
      }
    } else if a.Record? && v !in s.store {
      assert Own(Construct(s.worker.rel, v), s.server.name, s.server.uid);
    }
  }

  /** While the worker stands, only the collector touches the histories of the release. */
  lemma StandingStill(s: State, a: Action, limit: int, top: nat, v: int)
    requires Inv(s, top) && Enabled(s, a, limit) && limit >= 1
    requires Next(s, a).worker == s.worker && Carries(s.worker, v)
    ensures Next(s, a).ledger == s.ledger && Next(s, a).born == s.born
    ensures v in Mine(Next(s, a)) <==> v in Mine(s) && !(a.Collect? && a.version == v)
    ensures a.Collect? && a.version == v ==> v in Mine(s)
  {
    if a.Collect? {
      assert Mine(Next(s, a)) == Mine(s) - {a.version};
    } else {
      assert a.Edit? || a.Foreign?;
      assert Mine(Next(s, a)) == Mine(s);
    }
  }

  lemma UndercutOneMore(trace: seq<State>, actions: seq<Action>, j: nat, v: int)
    requires |trace| == |actions| + 1 && 0 < j < |trace|
    ensures trace[j].worker != trace[j - 1].worker ==> !Undercut(trace, actions, j, v)
    ensures trace[j].worker == trace[j - 1].worker ==>
              (Undercut(trace, actions, j, v) <==>
               Undercut(trace, actions, j - 1, v) || (actions[j - 1].Collect? && actions[j - 1].version == v))
  {
    var i := j - 1;
    if k: nat :| UndercutAt(trace, actions, j, v, k) {
      assert trace[i].worker == trace[j].worker;
      assert k < i ==> UndercutAt(trace, actions, i, v, k);
    }
    if trace[j].worker == trace[i].worker {
      if k: nat :| UndercutAt(trace, actions, i, v, k) {
        assert UndercutAt(trace, actions, j, v, k);
      }
      if actions[i].Collect? && actions[i].version == v {
        assert UndercutAt(trace, actions, j, v, i);
      }
    }
  }

  lemma MissingStep(trace: seq<State>, actions: seq<Action>, limit: int, j: nat, v: int)
    requires IsRun(trace, actions, limit) && limit >= 1 && 0 < j < |trace|
    requires Carries(trace[j].worker, v) && v in trace[j].ledger
    ensures trace[j].worker != trace[j - 1].worker ==> v in Mine(trace[j]) && !Undercut(trace, actions, j, v)
    ensures trace[j].worker == trace[j - 1].worker ==>
              && v in trace[j - 1].ledger
              && ((v !in Mine(trace[j - 1]) <==> Undercut(trace, actions, j - 1, v)) ==>
                  (v !in Mine(trace[j]) <==> Undercut(trace, actions, j, v)))
  {
    var top := InvHolds(trace, actions, limit, j - 1);
    UndercutOneMore(trace, actions, j, v);
    if trace[j].worker == trace[j - 1].worker {
      StandingStill(trace[j - 1], actions[j - 1], limit, top, v);
    } else {
      FreshlyCarried(trace[j - 1], actions[j - 1], limit, top, v);
    }
  }

  /** The history of the version an attempt carries is missing exactly when the collector undercut the attempt. */
  lemma {:induction false} MissingIff(trace: seq<State>, actions: seq<Action>, limit: int, j: nat, v: int)
    requires IsRun(trace, actions, limit) && limit >= 1 && j < |trace|
    requires Carries(trace[j].worker, v) && v in trace[j].ledger
    ensures v !in Mine(trace[j]) <==> Undercut(trace, actions, j, v)
    decreases j
  {
    if j > 0 {
      MissingStep(trace, actions, limit, j, v);
      if trace[j].worker == trace[j - 1].worker {
        MissingIff(trace, actions, limit, j - 1, v);
      }
    }
  }

  lemma UndercutIsKnown(trace: seq<State>, actions: seq<Action>, limit: int, j: nat, v: int)
    requires IsRun(trace, actions, limit) && limit >= 1 && j < |trace| && Undercut(trace, actions, j, v)
    ensures v in trace[j].ledger
  {
    var k: nat :| UndercutAt(trace, actions, j, v, k);
    var top := InvHolds(trace, actions, limit, k);
    assert Known(trace[k], v, HistoryContent(Mine(trace[k])[v]));
    LedgerOnlyGrows(trace, actions, limit, k, j, v);
  }

  // ---------- Over whole runs ----------

  /** Step j creates a history, and for an attempt that was undercut. */
  ghost predicate Recreates(trace: seq<State>, actions: seq<Action>, j: nat)
    requires |trace| == |actions| + 1 && j < |actions|
  {
    && actions[j].Record? && trace[j].worker.Applying?
    && trace[j].worker.rel.status.version !in trace[j].store
    && Undercut(trace, actions, j, trace[j].worker.rel.status.version)
  }

  lemma BornOneMore(trace: seq<State>, actions: seq<Action>, limit: int, j: nat)
    requires IsRun(trace, actions, limit) && limit >= 1 && j < |actions|
    ensures trace[j + 1].born == trace[j].born
            || (actions[j].Record? && trace[j].worker.Applying?
                && trace[j + 1].born == trace[j].born + [trace[j].worker.rel.status.version])
    ensures Recreates(trace, actions, j) <==>
              trace[j + 1].born != trace[j].born && trace[j].worker.rel.status.version in trace[j].born
  {
    var top := InvHolds(trace, actions, limit, j);
    if actions[j].Record? {
      var v := trace[j].worker.rel.status.version;
      if v !in trace[j].store {
        if v in trace[j].ledger {
          MissingIff(trace, actions, limit, j, v);
        } else if Undercut(trace, actions, j, v) {
          UndercutIsKnown(trace, actions, limit, j, v);
        }
      }
    }
  }

  /**
   In every run with a positive limit: no number is given a history twice exactly when no attempt
   records a version after the collector removed its history from under the attempt.
   */
  lemma {:induction false} NumberedOnceIff(trace: seq<State>, actions: seq<Action>, limit: int, n: nat)
    requires IsRun(trace, actions, limit) && limit >= 1 && n < |trace|
    ensures Distinct(trace[n].born) <==> forall j: nat | j < n :: !Recreates(trace, actions, j)
    decreases n
  {
    if n > 0 {
      NumberedOnceIff(trace, actions, limit, n - 1);
      NumberedOnceStep(trace, actions, limit, n - 1);
    }
  }

  lemma NumberedOnceStep(trace: seq<State>, actions: seq<Action>, limit: int, j: nat)
    requires IsRun(trace, actions, limit) && limit >= 1 && j < |actions|
    ensures Distinct(trace[j + 1].born) <==> Distinct(trace[j].born) && !Recreates(trace, actions, j)
  {
    BornOneMore(trace, actions, limit, j);
    DistinctOneMore(trace[j].born, trace[j + 1].born);
  }

  lemma DistinctOneMore(before: seq<int>, after: seq<int>)
    requires after == before || (|after| == |before| + 1 && after[..|before|] == before)
    ensures Distinct(after) <==> Distinct(before) && (after == before || after[|before|] !in before)
  {
    if Distinct(after) && after != before {
      assert forall i | 0 <= i < |before| :: after[i] == before[i];
    }
    assert forall i | 0 <= i < |before| :: before[i] == after[i];
  }

  /**
   What a status patch publishes has its history, with the applied content, exactly when the attempt
   was not undercut after recording it.
   */
  lemma PublishedHistoryStandsIff(trace: seq<State>, actions: seq<Action>, limit: int, i: nat)
    requires IsRun(trace, actions, limit) && limit >= 1 && i < |actions| && actions[i].Publish?
    ensures var rel := trace[i].worker.rel;
            var v := rel.status.version;
            && (v in Mine(trace[i + 1]) <==> !Undercut(trace, actions, i, v))
            && (v in Mine(trace[i + 1]) ==> HistoryContent(Mine(trace[i + 1])[v]) == SpecContent(rel.spec))
  {
    var s := trace[i];
    var v := s.worker.rel.status.version;
    var top := InvHolds(trace, actions, limit, i);
    MissingIff(trace, actions, limit, i, v);
    PublishReachesServerIff(s, actions[i].now, top);
    PatchStepKeepsInv(s, UpdateTarget(s.copy, s.worker.rel, actions[i].now), top);
    assert Mine(trace[i + 1]) == Mine(s);
  }

  // ---------- What can still happen ----------

  /** The steps that others can take while an attempt stands. */
  predicate OfOthers(a: Action) {
    a.Edit? || a.Collect? || a.Foreign?
  }

  ghost predicate AllOfOthers(actions: seq<Action>) {
    forall a | a in actions :: OfOthers(a)
  }

  /** After these steps of others, recording the planned version v creates a history for it. */
  ghost predicate CreatesAgain(s: State, actions: seq<Action>, v: int, limit: int) {
    var s' := Execute(s, actions);
    AllOfOthers(actions) && Possible(s, actions, limit) && Next(s', Record).born == s'.born + [v]
  }

  /** A document by which a collector may remove version v. */
  predicate Condemns(seen: Release, v: int, limit: int) {
    seen.status.manifest != "" && !Retained(v, limit, seen)
  }

  ghost predicate Condemned(s: State, v: int, limit: int) {
    exists seen :: seen in s.log && Condemns(seen, v, limit)
  }

  lemma OthersKeepVersion(s: State, a: Action, v: int, limit: int)
    requires s.worker.Applying? && v in Mine(s) && Enabled(s, a, limit) && OfOthers(a)
    requires s.server in s.log && !Condemned(s, v, limit)
    ensures var s' := Next(s, a);
            s'.worker == s.worker && v in Mine(s') && s'.server in s'.log && !Condemned(s', v, limit)
  {
    var s' := Next(s, a);
    if a.Edit? {
      assert !Condemns(s.server, v, limit);
      forall seen | seen in s'.log ensures !Condemns(seen, v, limit) {
        assert seen in s.log || seen == s'.server;
      }
    } else if a.Collect? {
      assert Condemns(a.seen, a.version, limit);
      assert s'.log == s.log;
    } else {
      assert s'.log == s.log;
    }
    assert forall seen | seen in s'.log :: !Condemns(seen, v, limit);
  }

  lemma {:induction false} UncondemnedStays(s: State, actions: seq<Action>, v: int, limit: int)
    requires s.worker.Applying? && v in Mine(s) && s.server in s.log && !Condemned(s, v, limit)
    requires AllOfOthers(actions) && Possible(s, actions, limit)
    ensures Execute(s, actions).worker == s.worker && v in Mine(Execute(s, actions))
    decreases |actions|
  {
    if actions != [] {
      assert actions[0] in actions && forall a | a in actions[1..] :: a in actions;
      OthersKeepVersion(s, actions[0], v, limit);
      UncondemnedStays(Next(s, actions[0]), actions[1..], v, limit);
    }
  }

  /**
   An attempt that planned an existing version can still be made to create its history a second time
   exactly when some document that the server ever held, with a manifest, has a version that puts
   the planned one outside the window.
   */
  lemma CanBeCreatedAgainIff(s: State, limit: int, top: nat)
    requires Inv(s, top) && s.worker.Applying? && s.worker.rel.status.version in Mine(s)
    ensures var v := s.worker.rel.status.version;
            (exists actions :: CreatesAgain(s, actions, v, limit)) <==> Condemned(s, v, limit)
  {
    var v := s.worker.rel.status.version;
    if Condemned(s, v, limit) {
      var seen :| seen in s.log && Condemns(seen, v, limit);
      var a := Collect(v, seen);
      ExecuteOne(s, a, limit);
      assert CreatesAgain(s, [a], v, limit);
    }
    if actions :| CreatesAgain(s, actions, v, limit) {
      if !Condemned(s, v, limit) {
        UncondemnedStays(s, actions, v, limit);
      }
    }
  }

  /** Positive limits are exactly those under which current caches keep numbers from being reused. */
  ghost predicate NumbersOnce(limit: int) {
    forall trace: seq<State>, actions: seq<Action> | IsFreshRun(trace, actions, limit) ::
      Distinct(trace[|actions|].born)
  }

  lemma PositiveLimitsAreExact(limit: int)
    ensures NumbersOnce(limit) <==> limit >= 1
  {
    if limit >= 1 {
      forall trace: seq<State>, actions: seq<Action> | IsFreshRun(trace, actions, limit)
        ensures Distinct(trace[|actions|].born)
      {
        VersionsAreNumberedOnce(trace, actions, limit, |actions|);
      }
    } else {
      StaleRuns.NonPositiveLimitReusesVersionOne(limit);
      var trace: seq<State>, actions: seq<Action> :|
        && IsFreshRun(trace, actions, limit) && trace[|actions|].born == [1, 1]
        && Known(trace[|actions|], 1, Content("b", "t"));
      assert trace[|actions|].born[0] == trace[|actions|].born[1];
    }
  }
}
