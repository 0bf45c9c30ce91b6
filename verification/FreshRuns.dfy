/**
 The protocol when caches are current as far as it matters: no attempt falls back to an older
 unchanged history, and the collector sees no version beyond the server's. Targets may be outdated
 otherwise, users still edit at any point, and any attempt may stop anywhere. Also: what a rollback
 comes to, from storage copies that need not be current.
 */
module FreshRuns {
  import opened Common
  import opened ReleaseDoc
  import opened Histories
  import opened ReleaseProtocol

  /** Versions are handed out as 1, 2, 3, ... */
  function UpTo(top: nat): seq<int> {
    seq(top, i => i + 1)
  }

  /** A version whose history no collector that sees the current document would remove. */
  ghost predicate Safe(s: State, v: int, top: nat) {
    v in Mine(s) && (v == top || v == s.server.status.version)
  }

  ghost predicate FreshInv(s: State, top: nat) {
    && Inv(s, top)
    && s.copy.status == s.server.status
    && s.born == UpTo(top)
    && match s.worker
       case Applying(rel) => Safe(s, rel.status.version, top) || rel.status.version == top + 1
       case Recorded(rel) => Safe(s, rel.status.version, top)
       case _ => true
  }

  lemma FreshPlan(s: State, a: Action, limit: int, top: nat)
    requires FreshInv(s, top) && a.Plan? && Enabled(s, a, limit) && Fresh(s, a)
    ensures FreshInv(Next(s, a), top)
  {
    PlanKeepsInv(s, a, limit, top);
    if Mine(s) != map[] {
      LatestIsTop(s, top);
    }
    assert Mine(Next(s, a)) == Mine(s);
  }

  lemma FreshRecord(s: State, limit: int, top: nat) returns (top': nat)
    requires FreshInv(s, top) && Enabled(s, Record, limit)
    ensures FreshInv(Next(s, Record), top') && top <= top'
  {
    top' := RecordKeepsInv(s, limit, top);
    var rel := s.worker.rel;
    var v: int := rel.status.version;
    var s' := Next(s, Record);
    if v in s.store {
      assert s'.ledger == s.ledger;
      SameTop(s, s', top, top');
    } else {
      assert v == top + 1;
      assert s'.ledger == s.ledger[v := SpecContent(rel.spec)];
      assert v in s'.ledger && (top' > v ==> v + 1 !in s.ledger && v + 1 in s'.ledger);
      assert s'.born == UpTo(top');
      assert Own(Construct(rel, v), s.server.name, s.server.uid);
      assert v in Mine(s');
    }
  }

  lemma SameTop(s: State, s': State, top: nat, top': nat)
    requires Inv(s, top) && Inv(s', top') && s.ledger == s'.ledger && top <= top'
    ensures top == top'
  {
    assert top + 1 in s.ledger <==> top + 1 in s'.ledger;
  }

  lemma FreshPatch(s: State, target: Release, top: nat)
    requires FreshInv(s, top) && 0 <= target.status.version <= top
    requires s.worker.Idle? || s.worker.Applying? ==> target.status.version == s.server.status.version
    ensures FreshInv(Patched(s, target).(worker := Idle), top)
    ensures s.worker.Idle? ==> FreshInv(Patched(s, target), top)
    ensures Patched(s, target).server.status == target.status
  {
    PatchStepKeepsInv(s, target, top);
    PatchKeepsInv(s, target, top);
  }

  lemma FreshCollect(s: State, a: Action, limit: int, top: nat)
    requires FreshInv(s, top) && a.Collect? && Enabled(s, a, limit) && Fresh(s, a) && limit >= 1
    ensures FreshInv(Next(s, a), top)
  {
    CollectKeepsInv(s, a, limit, top);
    assert Mine(Next(s, a)) == Mine(s) - {a.version};
  }

  lemma FreshLocal(s: State, a: Action, limit: int, top: nat)
    requires FreshInv(s, top) && Enabled(s, a, limit) && Fresh(s, a)
    requires a.Edit? || a.ReadHistory? || a.Abort? || a.Restart? || a.Foreign?
    ensures FreshInv(Next(s, a), top) && Mine(Next(s, a)) == Mine(s)
  {
    LocalStepKeepsInv(s, a, limit, top);
    assert Mine(Next(s, a)) == Mine(s);
  }

  lemma FreshStep(s: State, a: Action, limit: int, top: nat) returns (top': nat)
    requires FreshInv(s, top) && Enabled(s, a, limit) && Fresh(s, a) && limit >= 1
    ensures FreshInv(Next(s, a), top') && top <= top'
  {
    top' := top;
    match a
    case Plan(_, _) => FreshPlan(s, a, limit, top);
    case Record => top' := FreshRecord(s, limit, top);
    case Publish(now) => FreshPatch(s, UpdateTarget(s.copy, s.worker.rel, now), top);
    case Restore(manifest, now) => FreshPatch(s, RollbackTarget(s.copy, s.worker.h, manifest, now), top);
    case Flush(conditions) => FreshPatch(s, FlushTarget(s.copy, conditions), top);
    case Collect(_, _) => FreshCollect(s, a, limit, top);
    case _ => FreshLocal(s, a, limit, top);
  }

  lemma {:induction false} FreshHolds(trace: seq<State>, actions: seq<Action>, limit: int, i: nat) returns (top: nat)
    requires IsFreshRun(trace, actions, limit) && limit >= 1 && i < |trace|
    ensures FreshInv(trace[i], top)
    decreases i
  {
    if i == 0 {
      top := 0;
      assert UpTo(0) == [];
    } else {
      var before := FreshHolds(trace, actions, limit, i - 1);
      top := FreshStep(trace[i - 1], actions[i - 1], limit, before);
    }
  }

  /** No version number is ever given a history twice: the k-th history created has version k. */
  lemma VersionsAreNumberedOnce(trace: seq<State>, actions: seq<Action>, limit: int, i: nat)
    requires IsFreshRun(trace, actions, limit) && limit >= 1 && i < |trace|
    ensures forall k | 0 <= k < |trace[i].born| :: trace[i].born[k] == k + 1
  {
    var _ := FreshHolds(trace, actions, limit, i);
  }

  /** The status patch publishes a version whose history exists and holds the applied content. */
  lemma PublishedVersionHasItsHistory(trace: seq<State>, actions: seq<Action>, limit: int, i: nat)
    requires IsFreshRun(trace, actions, limit) && limit >= 1 && i < |actions| && actions[i].Publish?
    ensures var s, s' := trace[i], trace[i + 1];
            var rel := s.worker.rel;
            && s'.server.status.version == rel.status.version
            && s'.server.status.manifest == rel.status.manifest
            && rel.status.version in Mine(s')
            && HistoryContent(Mine(s')[rel.status.version]) == SpecContent(rel.spec)
  {
    var s := trace[i];
    var top := FreshHolds(trace, actions, limit, i);
    var target := UpdateTarget(s.copy, s.worker.rel, actions[i].now);
    FreshPatch(s, target, top);
    assert Mine(trace[i + 1]) == Mine(s);
  }

  /**
   Without freshness the published version may be missing from the patch. Exactly when the
   storage's copy already showed that version while the server did not; and whichever history
   stands under the version holds the applied content in every run.
   */
  lemma PublishReachesServerIff(s: State, now: int, top: nat)
    requires Inv(s, top) && s.worker.Recorded? && now != 0
    ensures var s' := Next(s, Publish(now));
            var v := s.worker.rel.status.version;
            && (s'.server.status.version == v <==> s.copy.status.version != v || s.server.status.version == v)
            && (v in Mine(s') ==> HistoryContent(Mine(s')[v]) == SpecContent(s.worker.rel.spec))
  {
    var s' := Next(s, Publish(now));
    var v := s.worker.rel.status.version;
    PatchStepKeepsInv(s, UpdateTarget(s.copy, s.worker.rel, now), top);
    if v in Mine(s') {
      assert Known(s', v, HistoryContent(Mine(s')[v]));
    }
  }

  // ---------- Rollback ----------

  /**
   What a version records, a rollback restores: the history built for a release belongs to it, and
   rolling a later document back to it brings description, template and config of that release
   back, keeps whether it is suspended, and clears the request.
   */
  lemma RollbackRestoresTheRecord(rel: Release, copy: Release, manifest: string, now: int)
    requires copy.name == rel.name && copy.uid == rel.uid
    ensures var h := Construct(rel, rel.status.version);
            var target := RollbackTarget(copy, h, manifest, now);
            && Own(h, copy.name, copy.uid) && h.selector == copy.name
            && target.spec == rel.spec.(suspend := copy.spec.suspend, rollbackTo := None)
            && target.status.version == rel.status.version && target.status.manifest == manifest
  {
  }

  /** The request for a rollback, if one stands, is for this version. */
  predicate AsksFor(spec: Spec, v: int) {
    spec.rollbackTo.None? || spec.rollbackTo == Some(v)
  }

  /**
   The release rests at version v: recorded, backed by its history, with the history's config and
   template on the server and in the storage's copy; a request for v itself may still stand, and
   the worker is idle, re-applying v or restoring v once more.
   */
  ghost predicate Settled(s: State, v: int, top: nat) {
    && FreshInv(s, top)
    && s.server.status.version == v && v in Mine(s)
    && AsksFor(s.server.spec, v)
    && SpecContent(s.server.spec) == HistoryContent(Mine(s)[v])
    && SpecContent(s.copy.spec) == SpecContent(s.server.spec)
    && match s.worker
       case Idle => true
       case Applying(rel) => rel.status.version == v
       case Recorded(rel) => rel.status.version == v
       case Restoring(h) => h.spec.version == v
  }

  /**
   Steps that ask for nothing else: edits leave config and template alone and request no other
   version, and an attempt starts from a target that shows v with the server's config and template,
   or that requests v, however old it is.
   */
  ghost predicate AsksNothingNew(s: State, a: Action, v: int) {
    match a
    case Edit(spec) => SpecContent(spec) == SpecContent(s.server.spec) && AsksFor(spec, v)
    case Plan(target, _) => target.status.version == v && SpecContent(target.spec) == SpecContent(s.server.spec)
    case ReadHistory(target) => target.spec.rollbackTo == Some(v)
    case Restart(copy) => SpecContent(copy.spec) == SpecContent(s.server.spec)
    case _ => true
  }

  lemma SettledPatch(s: State, target: Release, v: int, top: nat)
    requires Settled(s, v, top) && target.status.version == v
    requires SpecContent(target.spec) == SpecContent(s.copy.spec)
    requires target.spec.rollbackTo == s.copy.spec.rollbackTo || target.spec.rollbackTo.None?
    ensures Settled(Patched(s, target).(worker := Idle), v, top)
    ensures s.worker.Idle? ==> Settled(Patched(s, target), v, top)
  {
    FreshPatch(s, target, top);
    assert Mine(Patched(s, target)) == Mine(s);
    assert Mine(Patched(s, target).(worker := Idle)) == Mine(s);
  }

  lemma SettledContent(s: State, v: int, h: History, top: nat)
    requires Inv(s, top) && v in Mine(s) && h.spec.version == v && Known(s, v, HistoryContent(h))
    ensures HistoryContent(Mine(s)[v]) == HistoryContent(h)
  {
    assert Known(s, v, HistoryContent(Mine(s)[v]));
  }

  /** What SettledStays says of one step. */
  ghost predicate StaysSettled(s: State, s': State, v: int, top: nat)
    requires v in Mine(s)
  {
    Settled(s', v, top) && s'.born == s.born && Mine(s')[v] == Mine(s)[v]
  }

  lemma SettledApply(s: State, a: Action, v: int, limit: int, top: nat)
    requires Settled(s, v, top) && Enabled(s, a, limit) && Fresh(s, a) && limit >= 1 && AsksNothingNew(s, a, v)
    requires a.Plan? || a.Record?
    ensures StaysSettled(s, Next(s, a), v, top)
  {
    if a.Plan? {
      FreshPlan(s, a, limit, top);
    } else {
      var top' := FreshRecord(s, limit, top);
      assert |UpTo(top')| == |UpTo(top)|;
    }
    assert Mine(Next(s, a)) == Mine(s);
  }

  lemma SettledWrite(s: State, a: Action, v: int, limit: int, top: nat)
    requires Settled(s, v, top) && Enabled(s, a, limit)
    requires a.Publish? || a.Restore? || a.Flush?
    ensures StaysSettled(s, Next(s, a), v, top)
  {
    match a
    case Publish(now) => SettledPatch(s, UpdateTarget(s.copy, s.worker.rel, now), v, top);
    case Restore(manifest, now) =>
      SettledContent(s, v, s.worker.h, top);
      SettledPatch(s, RollbackTarget(s.copy, s.worker.h, manifest, now), v, top);
    case Flush(conditions) => SettledPatch(s, FlushTarget(s.copy, conditions), v, top);
    assert Mine(Next(s, a)) == Mine(s);
  }

  /** Every such step keeps the version and its history, and creates no history. */
  lemma SettledStays(s: State, a: Action, v: int, limit: int, top: nat)
    requires Settled(s, v, top) && Enabled(s, a, limit) && Fresh(s, a) && limit >= 1 && AsksNothingNew(s, a, v)
    ensures StaysSettled(s, Next(s, a), v, top)
  {
    if a.Plan? || a.Record? {
      SettledApply(s, a, v, limit, top);
    } else if a.Publish? || a.Restore? || a.Flush? {
      SettledWrite(s, a, v, limit, top);
    } else if a.Collect? {
      FreshCollect(s, a, limit, top);
      assert Mine(Next(s, a)) == Mine(s) - {a.version};
    } else {
      FreshLocal(s, a, limit, top);
    }
  }

  lemma {:induction false} SettledRun(
      trace: seq<State>, actions: seq<Action>, limit: int, v: int, i: nat, j: nat, top: nat)
    requires IsFreshRun(trace, actions, limit) && limit >= 1 && i <= j < |trace|
    requires Settled(trace[i], v, top)
    requires forall k | i <= k < j :: AsksNothingNew(trace[k], actions[k], v)
    ensures Settled(trace[j], v, top) && trace[j].born == trace[i].born
    decreases j - i
  {
    if i < j {
      SettledRun(trace, actions, limit, v, i, j - 1, top);
      SettledStays(trace[j - 1], actions[j - 1], v, limit, top);
    }
  }

  /** One field is the history's after the patch: it was already, or the copy differed and the patch carries it. */
  predicate Arrives<T(==)>(server: T, copy: T, wanted: T) {
    server == wanted || copy != wanted
  }

  /** What a rollback pass needs to find so that the server ends up with what it asks for. */
  predicate PassSuffices(server: Spec, copy: Spec, h: History) {
    && Arrives(server.config, copy.config, h.spec.config)
    && Arrives(server.template, copy.template, h.spec.template)
    && (copy.rollbackTo.Some? || AsksFor(server, h.spec.version))
  }

  /**
   A rollback pass to a version that is still there settles the release at that version exactly
   when every field of config and template arrives and no other version is requested meanwhile. The
   storage's copy need not be current: a user who only requests the rollback leaves config and
   template of copy and server equal, and then they arrive.
   */
  lemma RollbackSettlesIff(s: State, manifest: string, now: int, top: nat)
    requires FreshInv(s, top) && s.worker.Restoring? && now != 0 && s.worker.h.spec.version in Mine(s)
    ensures Settled(Next(s, Restore(manifest, now)), s.worker.h.spec.version, top)
            <==> PassSuffices(s.server.spec, s.copy.spec, s.worker.h)
    ensures SpecContent(s.copy.spec) == SpecContent(s.server.spec)
            && AsksFor(s.server.spec, s.worker.h.spec.version) ==>
              PassSuffices(s.server.spec, s.copy.spec, s.worker.h)
  {
    var h := s.worker.h;
    var target := RollbackTarget(s.copy, h, manifest, now);
    FreshPatch(s, target, top);
    var s' := Next(s, Restore(manifest, now));
    assert Mine(s') == Mine(s);
    SettledContent(s, h.spec.version, h, top);
  }

  /**
   After a rollback pass to a version that exists, first pass or not and however stale the storage's
   copy, every later state keeps that version, its history and its content and no history is
   created, for as long as nothing else is asked for; retries of the pass with the target that
   started it are among the steps that may follow.
   */
  lemma RolledBackForGood(trace: seq<State>, actions: seq<Action>, limit: int, i: nat, j: nat)
    requires IsFreshRun(trace, actions, limit) && limit >= 1 && i < j < |trace|
    requires actions[i].Restore? && trace[i].worker.h.spec.version in Mine(trace[i])
    requires PassSuffices(trace[i].server.spec, trace[i].copy.spec, trace[i].worker.h)
    requires forall k | i < k < j :: AsksNothingNew(trace[k], actions[k], trace[i].worker.h.spec.version)
    ensures var h := trace[i].worker.h;
            && trace[j].server.status.version == h.spec.version
            && h.spec.version in Mine(trace[j])
            && SpecContent(trace[j].server.spec) == HistoryContent(h)
            && AsksFor(trace[j].server.spec, h.spec.version)
            && trace[j].born == trace[i].born
  {
    var h := trace[i].worker.h;
    var top := FreshHolds(trace, actions, limit, i);
    RollbackSettlesIff(trace[i], actions[i].manifest, actions[i].now, top);
    SettledRun(trace, actions, limit, h.spec.version, i + 1, j, top);
    HistoryContentNeverChanges(trace, actions, limit, i, j, h.spec.version);
    SettledContent(trace[i], h.spec.version, h, top);
  }

  /** One non-empty patch makes the storage's copy current, whatever it was before. */
  lemma PatchRefreshesCopy(s: State, target: Release)
    requires target != s.copy
    ensures Patched(s, target).copy == Patched(s, target).server
  {
  }

  /**
   The rollback request may be unknown to the storage's copy. Then the patch cannot clear it, and
   the first pass leaves it set on the server; otherwise the first pass clears it.
   */
  lemma FirstPassClearsIff(s: State, manifest: string, now: int)
    requires s.worker.Restoring? && s.server.spec.rollbackTo.Some?
    ensures Next(s, Restore(manifest, now)).server.spec.rollbackTo.None? <==> s.copy.spec.rollbackTo.Some?
  {
  }

  /** Steps that leave the server to the storage: no edit, and a restart only from the current document. */
  predicate NoOtherWriter(s: State, a: Action) {
    !a.Edit? && (a.Restart? ==> a.copy == s.server)
  }

  lemma PatchKeepsCopyCurrent(s: State, target: Release)
    requires s.copy == s.server && target.name == s.copy.name && target.uid == s.copy.uid
    ensures Patched(s, target).copy == Patched(s, target).server == target
  {
    MergeOntoSelf(s.copy, target);
  }

  lemma CurrentStep(s: State, a: Action, limit: int)
    requires Enabled(s, a, limit) && s.copy == s.server && NoOtherWriter(s, a)
    ensures Next(s, a).copy == Next(s, a).server
  {
    match a
    case Publish(now) => PatchKeepsCopyCurrent(s, UpdateTarget(s.copy, s.worker.rel, now));
    case Restore(manifest, now) => PatchKeepsCopyCurrent(s, RollbackTarget(s.copy, s.worker.h, manifest, now));
    case Flush(conditions) => PatchKeepsCopyCurrent(s, FlushTarget(s.copy, conditions));
    case _ =>
  }

  /** Without another writer a current copy stays current. */
  lemma {:induction false} CopyStaysCurrent(trace: seq<State>, actions: seq<Action>, limit: int, i: nat, j: nat)
    requires IsRun(trace, actions, limit) && i <= j < |trace| && trace[i].copy == trace[i].server
    requires forall k | i <= k < j :: NoOtherWriter(trace[k], actions[k])
    ensures trace[j].copy == trace[j].server
    decreases j - i
  {
    if i < j {
      CopyStaysCurrent(trace, actions, limit, i, j - 1);
      CurrentStep(trace[j - 1], actions[j - 1], limit);
    }
  }

  /**
   Two passes suffice, in every run: after one non-empty rollback patch, and with no other writer
   from then on, whatever the storage and the collector do in between, any later rollback pass
   leaves the server with the history's description, template and config, the request cleared and
   everything else of the spec untouched, whatever the storage's copy was at the start.
   */
  lemma SecondPassCompletes(trace: seq<State>, actions: seq<Action>, limit: int, i: nat, j: nat)
    requires IsRun(trace, actions, limit) && i < j < |actions| && actions[i].Restore? && actions[j].Restore?
    requires RollbackTarget(trace[i].copy, trace[i].worker.h, actions[i].manifest, actions[i].now) != trace[i].copy
    requires forall k | i < k < j :: NoOtherWriter(trace[k], actions[k])
    ensures var s, s', h := trace[j], trace[j + 1], trace[j].worker.h;
            && s'.server.spec == s.server.spec.(description := h.spec.description, template := h.spec.template,
                                                config := h.spec.config, rollbackTo := None)
            && s'.server.status.version == h.spec.version && s'.copy == s'.server
  {
    var s := trace[i];
    PatchRefreshesCopy(s, RollbackTarget(s.copy, s.worker.h, actions[i].manifest, actions[i].now));
    CopyStaysCurrent(trace, actions, limit, i + 1, j);
    var t := trace[j];
    PatchKeepsCopyCurrent(t, RollbackTarget(t.copy, t.worker.h, actions[j].manifest, actions[j].now));
  }
}
