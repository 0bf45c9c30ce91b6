/**
 The version and history protocol of one live release, as interleaved steps of four parties: the
 user (edits the spec), the worker (applies and rolls back through its storage copy), the
 collector (prunes histories) and whoever owns other history objects in the namespace.

 The worker and the collector may act on any earlier version of the release document, as caches
 and informers serve them; `Fresh` picks out the steps whose view is recent enough to number
 versions once.
 */
module ReleaseProtocol {
  import opened Common
  import opened ReleaseDoc
  import opened Histories

  /** Where the worker stands inside one attempt. */
  datatype Worker =
    | Idle
    | Applying(rel: Release)   // version planned and manifest applied; nothing recorded yet
    | Recorded(rel: Release)   // a history exists; the status patch is outstanding
    | Restoring(h: History)    // rollback: the history was read; the patch is outstanding

  /**
   `copy` is the storage's own document, `log` every document the server ever held. `ledger` and
   `born` are bookkeeping: the content under which each version was recorded first, and the
   versions in the order in which histories were created.
   */
  datatype State = State(
    server: Release, store: map<Int32, History>, copy: Release, worker: Worker,
    log: set<Release>, ledger: map<int, Content>, born: seq<int>)

  datatype Action =
    | Edit(spec: Spec)
    | Plan(target: Release, manifest: string)
    | Record
    | Publish(now: int)
    | ReadHistory(target: Release)
    | Restore(manifest: string, now: int)
    | Flush(conditions: seq<Condition>)
    | Abort
    | Restart(copy: Release)
    | Collect(version: Int32, seen: Release)
    | Foreign(version: Int32, other: Option<History>)

  ghost function Mine(s: State): map<Int32, History> {
    Owned(s.store, s.server.name, s.server.uid)
  }

  // ---------- The storage's modifiers ----------

  function UpdateTarget(copy: Release, rel: Release, now: int): Release {
    copy.(status := Status(rel.status.version, rel.status.manifest, now, [Condition(Updating, "", now)]))
  }

  function RollbackTarget(copy: Release, h: History, manifest: string, now: int): Release {
    copy.(spec := copy.spec.(description := h.spec.description, template := h.spec.template,
                             config := h.spec.config, rollbackTo := None),
          status := Status(h.spec.version, manifest, now, [Condition(Rollbacking, "", now)]))
  }

  function FlushTarget(copy: Release, conditions: seq<Condition>): Release {
    copy.(status := copy.status.(conditions := conditions))
  }

  /** Storage patch: nothing is sent for an empty patch; otherwise the copy becomes the answer. */
  function Patched(s: State, target: Release): State {
    if target == s.copy then s
    else
      var answer := Merge(s.server, s.copy, target);
      s.(server := answer, copy := answer, log := s.log + {answer})
  }

  // ---------- Steps ----------

  /** The collector keeps histories in the window (seen - limit, ...). */
  predicate Retained(version: int, limit: int, seen: Release) {
    version + limit > seen.status.version
  }

  ghost predicate Enabled(s: State, a: Action, limit: int) {
    match a
    case Edit(_) => true
    case Plan(target, _) =>
      && s.worker.Idle? && target in s.log && target.spec.rollbackTo.None?
      && (Mine(s) != map[] ==> Latest(Mine(s)) != MAX_INT32)
    case Record => s.worker.Applying?
    case Publish(now) => s.worker.Recorded? && now != 0
    case ReadHistory(target) =>
      s.worker.Idle? && target in s.log && target.spec.rollbackTo.Some? && target.spec.rollbackTo.value in Mine(s)
    case Restore(_, now) => s.worker.Restoring? && now != 0
    case Flush(_) => s.worker.Idle?
    case Abort => true
    case Restart(copy) => copy in s.log
    case Collect(v, seen) =>
      v in Mine(s) && seen in s.log && seen.status.manifest != "" && !Retained(v, limit, seen)
    case Foreign(v, other) =>
      && v !in Mine(s)
      && (other.Some? ==> !Own(other.value, s.server.name, s.server.uid))
  }

  ghost function Next(s: State, a: Action): State {
    match a
    case Edit(spec) =>
      var edited := s.server.(spec := spec);
      s.(server := edited, log := s.log + {edited})
    case Plan(target, manifest) =>
      var version := Planned(Mine(s), target.status.version, SpecContent(target.spec));
      s.(worker := Applying(target.(status := target.status.(version := version, manifest := manifest))))
    case Record =>
      if !s.worker.Applying? then s
      else
        var rel := s.worker.rel;
        var v := rel.status.version;
        if v in Mine(s) then
          s.(worker := Recorded(rel))
        else if v in s.store then
          s.(worker := Idle)  // the name is taken: creation fails
        else
          s.(store := s.store[v := Construct(rel, v)], worker := Recorded(rel),
             born := s.born + [v], ledger := s.ledger[v := SpecContent(rel.spec)])
    case Publish(now) =>
      if !s.worker.Recorded? then s
      else Patched(s, UpdateTarget(s.copy, s.worker.rel, now)).(worker := Idle)
    case ReadHistory(target) =>
      if target.spec.rollbackTo.Some? && target.spec.rollbackTo.value in Mine(s)
      then s.(worker := Restoring(Mine(s)[target.spec.rollbackTo.value]))
      else s
    case Restore(manifest, now) =>
      if !s.worker.Restoring? then s
      else Patched(s, RollbackTarget(s.copy, s.worker.h, manifest, now)).(worker := Idle)
    case Flush(conditions) => Patched(s, FlushTarget(s.copy, conditions))
    case Abort => s.(worker := Idle)
    case Restart(copy) => s.(copy := copy, worker := Idle)
    case Collect(v, _) => s.(store := s.store - {v})
    case Foreign(v, other) =>
      s.(store := if other.Some? then s.store[v := other.value] else s.store - {v})
  }

  ghost function Execute(s: State, actions: seq<Action>): State
    decreases |actions|
  {
    if actions == [] then s else Execute(Next(s, actions[0]), actions[1..])
  }

  ghost predicate Possible(s: State, actions: seq<Action>, limit: int)
    decreases |actions|
  {
    actions != [] ==> Enabled(s, actions[0], limit) && Possible(Next(s, actions[0]), actions[1..], limit)
  }

  lemma {:induction false} ExecuteOneMore(s: State, actions: seq<Action>, a: Action, limit: int)
    requires Possible(s, actions, limit) && Enabled(Execute(s, actions), a, limit)
    ensures Possible(s, actions + [a], limit) && Execute(s, actions + [a]) == Next(Execute(s, actions), a)
    decreases |actions|
  {
    if actions == [] {
      assert [a][1..] == [];
    } else {
      assert (actions + [a])[1..] == actions[1..] + [a];
      ExecuteOneMore(Next(s, actions[0]), actions[1..], a, limit);
    }
  }

  lemma ExecuteOne(s: State, a: Action, limit: int)
    requires Enabled(s, a, limit)
    ensures Possible(s, [a], limit) && Execute(s, [a]) == Next(s, a)
  {
    ExecuteOneMore(s, [], a, limit);
    assert [] + [a] == [a];
  }

  lemma ExecuteTwo(s: State, a: Action, b: Action, limit: int)
    requires Enabled(s, a, limit) && Enabled(Next(s, a), b, limit)
    ensures Possible(s, [a, b], limit) && Execute(s, [a, b]) == Next(Next(s, a), b)
  {
    ExecuteOne(s, a, limit);
    ExecuteOneMore(s, [a], b, limit);
    assert [a] + [b] == [a, b];
  }

  lemma {:induction false} ExecuteJoin(s: State, before: seq<Action>, after: seq<Action>, limit: int)
    requires Possible(s, before, limit) && Possible(Execute(s, before), after, limit)
    ensures Possible(s, before + after, limit) && Execute(s, before + after) == Execute(Execute(s, before), after)
    decreases |before|
  {
    if before == [] {
      assert [] + after == after;
    } else {
      assert (before + after)[1..] == before[1..] + after;
      ExecuteJoin(Next(s, before[0]), before[1..], after, limit);
    }
  }

  lemma ExecuteFirst(s: State, a: Action, rest: seq<Action>, limit: int)
    requires Enabled(s, a, limit) && Possible(Next(s, a), rest, limit)
    ensures Possible(s, [a] + rest, limit) && Execute(s, [a] + rest) == Execute(Next(s, a), rest)
  {
    assert ([a] + rest)[1..] == rest;
  }

  /** The attempt would fall back, unchanged, to a history that is neither the latest nor the server's. */
  ghost predicate FallsBack(s: State, target: Release) {
    var v := target.status.version;
    && v in Mine(s) && HistoryContent(Mine(s)[v]) == SpecContent(target.spec)
    && v != s.server.status.version && v != Latest(Mine(s))
  }

  /**
   Steps whose caches are current as far as it matters. A target may have been edited, flushed or
   even published since it was delivered, as long as it does not make the attempt fall back; the
   collector sees no version beyond the server's; and a restarted worker has the server's status.
   */
  ghost predicate Fresh(s: State, a: Action) {
    match a
    case Plan(target, _) => !FallsBack(s, target)
    case Collect(_, seen) => seen.status.version <= s.server.status.version
    case Restart(copy) => copy.status == s.server.status
    case _ => true
  }

  ghost predicate Init(s: State) {
    && Mine(s) == map[] && s.worker.Idle?
    && s.server.status.version == 0 && s.copy == s.server && s.log == {s.server}
    && s.ledger == map[] && s.born == []
  }

  /** A run: states, and the actions between them, under a history limit. */
  ghost predicate IsRun(trace: seq<State>, actions: seq<Action>, limit: int) {
    && |trace| == |actions| + 1 && Init(trace[0])
    && forall i | 0 <= i < |actions| ::
         Enabled(trace[i], actions[i], limit) && trace[i + 1] == Next(trace[i], actions[i])
  }

  ghost predicate IsFreshRun(trace: seq<State>, actions: seq<Action>, limit: int) {
    && IsRun(trace, actions, limit)
    && forall i | 0 <= i < |actions| :: Fresh(trace[i], actions[i])
  }

  // ---------- What every run keeps ----------

  ghost predicate SameRelease(s: State, r: Release) {
    r.name == s.server.name && r.uid == s.server.uid
  }

  /** Version v was recorded, and with this content. */
  predicate Known(s: State, v: int, c: Content) {
    v in s.ledger && s.ledger[v] == c
  }

  ghost predicate Inv(s: State, top: nat) {
    && s.server in s.log && s.copy in s.log
    && (forall r | r in s.log :: SameRelease(s, r) && 0 <= r.status.version <= top)
    && (forall v :: v in s.ledger <==> 1 <= v <= top)
    && (forall v | v in Mine(s) :: Known(s, v, HistoryContent(Mine(s)[v])) && Mine(s)[v].spec.version == v)
    && (top > 0 ==> top in Mine(s))
    && (forall v :: v in s.born <==> v in s.ledger)
    && match s.worker
       case Idle => true
       case Applying(rel) =>
         SameRelease(s, rel)
         && (Known(s, rel.status.version, SpecContent(rel.spec)) || rel.status.version == top + 1)
       case Recorded(rel) =>
         SameRelease(s, rel) && Known(s, rel.status.version, SpecContent(rel.spec))
       case Restoring(h) => Known(s, h.spec.version, HistoryContent(h))
  }

  lemma LatestIsTop(s: State, top: nat)
    requires Inv(s, top) && Mine(s) != map[]
    ensures top > 0 && Latest(Mine(s)) == top
  {
    var v := Latest(Mine(s));
    assert v in Mine(s);
    assert Known(s, v, HistoryContent(Mine(s)[v]));
  }

  lemma PatchKeepsInv(s: State, target: Release, top: nat)
    requires Inv(s, top) && 0 <= target.status.version <= top
    ensures Inv(Patched(s, target), top)
  {
    var s' := Patched(s, target);
    if target != s.copy {
      assert Mine(s') == Mine(s);
      assert SameRelease(s, s'.server);
    }
  }

  lemma PlanKeepsInv(s: State, a: Action, limit: int, top: nat)
    requires Inv(s, top) && a.Plan? && Enabled(s, a, limit)
    ensures Inv(Next(s, a), top)
  {
    var content := SpecContent(a.target.spec);
    if Mine(s) == map[] {
      assert top == 0;
    } else {
      LatestIsTop(s, top);
      PlannedIsSameOrNew(Mine(s), a.target.status.version, content);
    }
    assert Mine(Next(s, a)) == Mine(s);
  }

  /** Recording a version whose name is taken, by a history of this release or by another object. */
  lemma RecordTaken(s: State, limit: int, top: nat)
    requires Inv(s, top) && Enabled(s, Record, limit) && s.worker.rel.status.version in s.store
    ensures Inv(Next(s, Record), top)
  {
    var v := s.worker.rel.status.version;
    assert Mine(Next(s, Record)) == Mine(s);
    if v in Mine(s) {
      assert Known(s, v, HistoryContent(Mine(s)[v]));
    }
  }

  lemma RecordNew(s: State, limit: int, top: nat) returns (top': nat)
    requires Inv(s, top) && Enabled(s, Record, limit) && s.worker.rel.status.version !in s.store
    ensures Inv(Next(s, Record), top') && top <= top'
  {
    var rel := s.worker.rel;
    var v := rel.status.version;
    top' := if v == top + 1 then v else top;
    RecordedIsOwned(s, limit, top);
    var s' := Next(s, Record);
    assert forall w | w in Mine(s) :: Known(s, w, HistoryContent(Mine(s)[w]));
    assert Known(s', v, HistoryContent(Construct(rel, v)));
  }

  lemma RecordedIsOwned(s: State, limit: int, top: nat)
    requires Inv(s, top) && Enabled(s, Record, limit) && s.worker.rel.status.version !in s.store
    ensures var rel := s.worker.rel;
            var v := rel.status.version;
            v !in Mine(s) && Mine(Next(s, Record)) == Mine(s)[v := Construct(rel, v)]
  {
    var rel := s.worker.rel;
    assert Own(Construct(rel, rel.status.version), s.server.name, s.server.uid);
  }

  lemma RecordKeepsInv(s: State, limit: int, top: nat) returns (top': nat)
    requires Inv(s, top) && Enabled(s, Record, limit)
    ensures Inv(Next(s, Record), top') && top <= top'
  {
    if s.worker.rel.status.version in s.store {
      RecordTaken(s, limit, top);
      top' := top;
    } else {
      top' := RecordNew(s, limit, top);
    }
  }

  lemma CollectKeepsInv(s: State, a: Action, limit: int, top: nat)
    requires Inv(s, top) && a.Collect? && Enabled(s, a, limit) && limit >= 1
    ensures a.version < top && Inv(Next(s, a), top)
  {
    assert a.seen in s.log;
    assert Mine(Next(s, a)) == Mine(s) - {a.version};
  }

  lemma PatchStepKeepsInv(s: State, target: Release, top: nat)
    requires Inv(s, top) && 0 <= target.status.version <= top
    ensures Inv(Patched(s, target).(worker := Idle), top)
  {
    PatchKeepsInv(s, target, top);
    assert Mine(Patched(s, target).(worker := Idle)) == Mine(Patched(s, target));
  }

  lemma LocalStepKeepsInv(s: State, a: Action, limit: int, top: nat)
    requires Inv(s, top) && Enabled(s, a, limit)
    requires a.Edit? || a.ReadHistory? || a.Abort? || a.Restart? || a.Foreign?
    ensures Inv(Next(s, a), top)
  {
    assert Mine(Next(s, a)) == Mine(s);
  }

  /** Every step keeps the invariant, and never lowers the number of versions handed out. */
  lemma StepKeepsInv(s: State, a: Action, limit: int, top: nat) returns (top': nat)
    requires Inv(s, top) && Enabled(s, a, limit) && limit >= 1
    ensures Inv(Next(s, a), top') && top <= top'
  {
    top' := top;
    match a
    case Plan(_, _) => PlanKeepsInv(s, a, limit, top);
    case Record => top' := RecordKeepsInv(s, limit, top);
    case Publish(now) => PatchStepKeepsInv(s, UpdateTarget(s.copy, s.worker.rel, now), top);
    case Restore(manifest, now) => PatchStepKeepsInv(s, RollbackTarget(s.copy, s.worker.h, manifest, now), top);
    case Flush(conditions) => PatchKeepsInv(s, FlushTarget(s.copy, conditions), top);
    case Collect(_, _) => CollectKeepsInv(s, a, limit, top);
    case _ => LocalStepKeepsInv(s, a, limit, top);
  }

  /** A recorded version keeps its content, even when its history is collected and made again. */
  lemma StepKeepsLedger(s: State, a: Action, limit: int, top: nat, v: int)
    requires Inv(s, top) && Enabled(s, a, limit) && v in s.ledger
    ensures v in Next(s, a).ledger && Next(s, a).ledger[v] == s.ledger[v]
  {
  }

  lemma {:induction false} InvHolds(trace: seq<State>, actions: seq<Action>, limit: int, i: nat) returns (top: nat)
    requires IsRun(trace, actions, limit) && limit >= 1 && i < |trace|
    ensures Inv(trace[i], top)
    decreases i
  {
    if i == 0 {
      top := 0;
    } else {
      var before := InvHolds(trace, actions, limit, i - 1);
      top := StepKeepsInv(trace[i - 1], actions[i - 1], limit, before);
    }
  }

  lemma {:induction false} LedgerOnlyGrows(trace: seq<State>, actions: seq<Action>, limit: int, i: nat, j: nat, v: int)
    requires IsRun(trace, actions, limit) && limit >= 1 && i <= j < |trace| && v in trace[i].ledger
    ensures v in trace[j].ledger && trace[j].ledger[v] == trace[i].ledger[v]
    decreases j - i
  {
    if i < j {
      LedgerOnlyGrows(trace, actions, limit, i, j - 1, v);
      var top := InvHolds(trace, actions, limit, j - 1);
      StepKeepsLedger(trace[j - 1], actions[j - 1], limit, top, v);
    }
  }

  // ---------- Main results over all runs ----------

  /** A version means one thing for ever: whenever it has a history, config and template agree. */
  lemma HistoryContentNeverChanges(
      trace: seq<State>, actions: seq<Action>, limit: int, i: nat, j: nat, v: int)
    requires IsRun(trace, actions, limit) && limit >= 1 && i <= j < |trace|
    requires v in Mine(trace[i]) && v in Mine(trace[j])
    ensures HistoryContent(Mine(trace[i])[v]) == HistoryContent(Mine(trace[j])[v])
    ensures Mine(trace[j])[v].spec.version == v
  {
    var _ := InvHolds(trace, actions, limit, i);
    var _ := InvHolds(trace, actions, limit, j);
    assert Known(trace[i], v, HistoryContent(Mine(trace[i])[v]));
    assert Known(trace[j], v, HistoryContent(Mine(trace[j])[v]));
    LedgerOnlyGrows(trace, actions, limit, i, j, v);
  }

  /** The highest history is never collected, so planning always starts from the true maximum. */
  lemma HighestHistorySurvives(trace: seq<State>, actions: seq<Action>, limit: int, i: nat)
    requires IsRun(trace, actions, limit) && limit >= 1 && i < |actions| && Mine(trace[i]) != map[]
    ensures Latest(Mine(trace[i])) in Mine(trace[i + 1])
    ensures Latest(Mine(trace[i])) <= Latest(Mine(trace[i + 1]))
    ensures Mine(trace[i + 1])[Latest(Mine(trace[i]))] == Mine(trace[i])[Latest(Mine(trace[i]))]
    ensures forall v | v in trace[i].ledger :: v <= Latest(Mine(trace[i]))
  {
    var top := InvHolds(trace, actions, limit, i);
    TopSurvives(trace[i], actions[i], limit, top);
  }

  lemma TopSurvives(s: State, a: Action, limit: int, top: nat)
    requires Inv(s, top) && Enabled(s, a, limit) && limit >= 1 && Mine(s) != map[]
    ensures var s', v := Next(s, a), Latest(Mine(s));
            && v in Mine(s') && v <= Latest(Mine(s')) && Mine(s')[v] == Mine(s)[v]
            && forall w | w in s.ledger :: w <= v
  {
    LatestIsTop(s, top);
    if a.Collect? {
      CollectKeepsInv(s, a, limit, top);
    }
    OthersStay(s, a, limit, top, Latest(Mine(s)));
    assert Latest(Mine(s)) in Mine(Next(s, a));
  }

  /** A history stays as it is unless the collector removes this very one. */
  lemma OthersStay(s: State, a: Action, limit: int, top: nat, v: int)
    requires Inv(s, top) && Enabled(s, a, limit) && v in Mine(s) && !(a.Collect? && a.version == v)
    ensures v in Mine(Next(s, a)) && Mine(Next(s, a))[v] == Mine(s)[v]
  {
    NextIsSameRelease(s, a, limit, top);
  }

  lemma NextIsSameRelease(s: State, a: Action, limit: int, top: nat)
    requires Inv(s, top) && Enabled(s, a, limit)
    ensures Next(s, a).server.name == s.server.name && Next(s, a).server.uid == s.server.uid
  {
    assert forall r | r in s.log :: SameRelease(s, r);
  }
}
