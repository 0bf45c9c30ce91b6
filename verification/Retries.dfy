/**
 An attempt that stopped between recording a version and publishing it is taken up again: under the
 same version, and without a second history, exactly when the document it starts from shows no
 version that has a history of its own.
 */
module Retries {
  import opened Common
  import opened ReleaseDoc
  import opened Histories
  import opened ReleaseProtocol
  import opened ReusedVersions

  /** Step i creates the history of a version for the first time. */
  ghost predicate FirstRecords(trace: seq<State>, actions: seq<Action>, i: nat, v: int)
    requires |trace| == |actions| + 1 && i < |actions|
  {
    && actions[i].Record? && trace[i].worker.Applying? && trace[i].worker.rel.status.version == v
    && v !in trace[i].born && trace[i + 1].born == trace[i].born + [v]
  }

  /** As long as no history is created, a first recorded version is the latest, with its content. */
  lemma FirstRecordedIsLatest(trace: seq<State>, actions: seq<Action>, limit: int, i: nat, j: nat)
    requires IsRun(trace, actions, limit) && limit >= 1 && i < j < |trace| && trace[j].born == trace[i + 1].born
    requires actions[i].Record? && trace[i].worker.Applying?
    requires FirstRecords(trace, actions, i, trace[i].worker.rel.status.version)
    ensures var rel, mine := trace[i].worker.rel, Mine(trace[j]);
            && mine != map[] && Latest(mine) == rel.status.version
            && HistoryContent(mine[rel.status.version]) == SpecContent(rel.spec)
  {
    var rel := trace[i].worker.rel;
    var v := rel.status.version;
    var top0 := InvHolds(trace, actions, limit, i);
    var top := InvHolds(trace, actions, limit, j);
    assert v !in trace[i].ledger && v == top0 + 1;
    assert forall w :: w in trace[j].born <==> w in trace[i].born || w == v;
    assert top == v by {
      assert v in trace[j].born && v in trace[j].ledger;
      assert top in trace[j].ledger && top in trace[j].born;
    }
    LatestIsTop(trace[j], top);
    assert Known(trace[i + 1], v, SpecContent(rel.spec));
    LedgerOnlyGrows(trace, actions, limit, i + 1, j, v);
    assert Known(trace[j], v, HistoryContent(Mine(trace[j])[v]));
  }

  /** While an attempt stands, others neither take the latest history away nor create one. */
  lemma OthersKeepTop(s: State, a: Action, limit: int, top: nat)
    requires Inv(s, top) && Enabled(s, a, limit) && limit >= 1 && OfOthers(a)
    ensures Inv(Next(s, a), top) && Next(s, a).worker == s.worker && Next(s, a).born == s.born
  {
    if a.Collect? {
      CollectKeepsInv(s, a, limit, top);
    } else {
      LocalStepKeepsInv(s, a, limit, top);
    }
  }

  lemma {:induction false} TopStands(trace: seq<State>, actions: seq<Action>, limit: int, j: nat, k: nat, top: nat)
    requires IsRun(trace, actions, limit) && limit >= 1 && j <= k < |trace| && Inv(trace[j], top)
    requires forall t | j <= t < k :: OfOthers(actions[t])
    ensures Inv(trace[k], top) && trace[k].worker == trace[j].worker && trace[k].born == trace[j].born
    decreases k - j
  {
    if j < k {
      TopStands(trace, actions, limit, j, k - 1, top);
      OthersKeepTop(trace[k - 1], actions[k - 1], limit, top);
    }
  }

  /**
   The law of retries, over every run with a positive limit. Step i recorded a new version; no
   history was created since, so nothing else was recorded, whatever else happened. The attempt
   that step j plans for the same content gets this version, and step k, after whatever others do
   in between, records it without creating a history, exactly when the version that the target
   shows has no history or is this very one.
   */
  lemma RetryKeepsTheVersionIff(
      trace: seq<State>, actions: seq<Action>, limit: int, i: nat, j: nat, k: nat)
    requires IsRun(trace, actions, limit) && limit >= 1 && i < j < k < |actions|
    requires actions[i].Record? && trace[i].worker.Applying?
    requires FirstRecords(trace, actions, i, trace[i].worker.rel.status.version)
    requires trace[j].born == trace[i + 1].born && actions[j].Plan? && actions[k].Record?
    requires SpecContent(actions[j].target.spec) == SpecContent(trace[i].worker.rel.spec)
    requires forall t | j < t < k :: OfOthers(actions[t])
    ensures var v, shown := trace[i].worker.rel.status.version, actions[j].target.status.version;
            trace[k].worker.rel.status.version == v && trace[k + 1].born == trace[i + 1].born
            <==> shown !in Mine(trace[j]) || shown == v
  {
    var v, shown := trace[i].worker.rel.status.version, actions[j].target.status.version;
    FirstRecordedIsLatest(trace, actions, limit, i, j);
    UnchangedIsKept(Mine(trace[j]), shown, SpecContent(actions[j].target.spec));
    assert Mine(trace[j + 1]) == Mine(trace[j]);
    var top := InvHolds(trace, actions, limit, j + 1);
    TopStands(trace, actions, limit, j + 1, k, top);
    LatestIsTop(trace[j + 1], top);
  }

  /** So the very first attempt is retried as version 1: its target shows version 0, which never has a history. */
  lemma FirstAttemptStaysVersionOne(trace: seq<State>, actions: seq<Action>, limit: int, j: nat)
    requires IsRun(trace, actions, limit) && limit >= 1 && j < |actions| && trace[j].born == [1]
    requires actions[j].Plan? && actions[j].target.status.version == 0 && 1 in trace[j].ledger
    requires SpecContent(actions[j].target.spec) == trace[j].ledger[1]
    ensures trace[j + 1].worker.rel.status.version == 1
  {
    var top := InvHolds(trace, actions, limit, j);
    assert top in trace[j].ledger && top in trace[j].born;
    LatestIsTop(trace[j], top);
    assert 0 !in trace[j].ledger;
    assert 0 in Mine(trace[j]) ==> Known(trace[j], 0, HistoryContent(Mine(trace[j])[0]));
    assert Known(trace[j], 1, HistoryContent(Mine(trace[j])[1]));
    UnchangedIsKept(Mine(trace[j]), 0, SpecContent(actions[j].target.spec));
  }
}
