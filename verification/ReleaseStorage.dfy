/**
 The release storage (pkg/storage/release.go) over an API server, and the attempt that drives it
 (pkg/release/apply.go). Each method is tied to the steps of ReleaseProtocol, so that an attempt is
 one of the step sequences whose interleavings are studied there.
 */
module ReleaseStorage {
  import opened Common
  import opened MergePatch
  import opened ReleaseDoc
  import opened Histories
  import opened ReleaseProtocol
  import Manifest

  datatype Error = NotFound | AlreadyExists | Unavailable | RenderFailed | ApplyFailed

  /** The owned histories of a release are the ones the storage made: filed and labelled as such. */
  ghost predicate WellFiled(store: map<Int32, History>, name: string, uid: string) {
    forall v | v in Owned(store, name, uid) :: store[v].spec.version == v && store[v].selector == name
  }

  // ---------- The API server ----------

  class ApiServer {
    var release: Release
    var histories: map<Int32, History>

    constructor (release: Release, histories: map<Int32, History>)
      ensures this.release == release && this.histories == histories
    {
      this.release := release;
      this.histories := histories;
    }

    /** PATCH with a merge patch, on the document that the server holds now. */
    method PatchRelease(local: Release, target: Release)
      requires Modifies(local, target) && local.name == release.name && local.uid == release.uid
      modifies this`release
      ensures release == Merge(old(release), local, target)
      ensures Encode(release) == Apply(Encode(old(release)), CreatePatch(Encode(local), Encode(target)))
    {
      MergeIsMergePatch(release, local, target);
      release := Merge(release, local, target);
    }

    /** Creation fails on an existing name. */
    method CreateHistory(version: Int32, h: History) returns (created: bool)
      modifies this`histories
      ensures created <==> version !in old(histories)
      ensures histories == if created then old(histories)[version := h] else old(histories)
    {
      created := version !in histories;
      if created {
        histories := histories[version := h];
      }
    }

    /** Lists the histories with a release-name label, each once, in no particular order. */
    method ListHistories(selector: string) returns (items: seq<History>, ghost keys: seq<Int32>)
      ensures Distinct(keys) && |items| == |keys|
      ensures forall v :: v in keys <==> v in histories && histories[v].selector == selector
      ensures forall i | 0 <= i < |keys| :: keys[i] in histories && items[i] == histories[keys[i]]
    {
      items, keys := [], [];
      var rest := histories.Keys;
      while rest != {}
        invariant rest <= histories.Keys
        invariant Distinct(keys) && |items| == |keys|
        invariant forall v :: v in keys <==> v in histories && v !in rest && histories[v].selector == selector
        invariant forall i | 0 <= i < |keys| :: keys[i] in histories && items[i] == histories[keys[i]]
        decreases rest
      {
        ghost var some := Inhabitant(rest);
        var v: Int32 :| v in rest;
        rest := rest - {v};
        if histories[v].selector == selector {
          items, keys := items + [histories[v]], keys + [v];
        }
      }
    }
  }

  // ---------- Sorting ----------

  ghost predicate Descending(hs: seq<History>) {
    forall i, j | 0 <= i < j < |hs| :: hs[i].spec.version > hs[j].spec.version
  }

  function Insert(h: History, hs: seq<History>): seq<History> {
    if hs == [] || h.spec.version > hs[0].spec.version then [h] + hs
    else [hs[0]] + Insert(h, hs[1..])
  }

  /** sort.Slice, by version, highest first. */
  function SortDescending(hs: seq<History>): seq<History> {
    if hs == [] then [] else Insert(hs[0], SortDescending(hs[1..]))
  }

  lemma {:induction false} InsertSorts(h: History, hs: seq<History>)
    requires Descending(hs) && forall g | g in hs :: g.spec.version != h.spec.version
    ensures Descending(Insert(h, hs))
    ensures forall g :: g in Insert(h, hs) <==> g == h || g in hs
  {
    if hs != [] && h.spec.version < hs[0].spec.version {
      InsertSorts(h, hs[1..]);
      var rest := Insert(h, hs[1..]);
      forall i | 0 <= i < |rest| ensures rest[i].spec.version < hs[0].spec.version {
        assert rest[i] in rest;
      }
    }
  }

  lemma {:induction false} SortSorts(hs: seq<History>)
    requires forall i, j | 0 <= i < j < |hs| :: hs[i].spec.version != hs[j].spec.version
    ensures Descending(SortDescending(hs))
    ensures forall g :: g in SortDescending(hs) <==> g in hs
  {
    if hs != [] {
      SortSorts(hs[1..]);
      InsertSorts(hs[0], SortDescending(hs[1..]));
    }
  }

  /** `hs` is the listing of `owned`: all of it, nothing else, highest version first. */
  ghost predicate Lists(hs: seq<History>, owned: map<Int32, History>) {
    && Descending(hs)
    && (forall h | h in hs :: h.spec.version in owned && owned[h.spec.version] == h)
    && (forall v | v in owned :: owned[v] in hs && owned[v].spec.version == v)
  }

  /** These are the places, in order, of the owned ones among the first i entries. */
  ghost predicate Picks(items: seq<History>, i: nat, origin: seq<nat>, name: string, uid: string)
    requires i <= |items|
  {
    && (forall j, k | 0 <= j < k < |origin| :: origin[j] < origin[k])
    && (forall j | 0 <= j < |origin| :: origin[j] < i)
    && (forall j | 0 <= j < i :: j in origin <==> Own(items[j], name, uid))
  }

  lemma PicksOneMore(items: seq<History>, i: nat, origin: seq<nat>, name: string, uid: string)
    requires i < |items| && Picks(items, i, origin, name, uid)
    ensures Picks(items, i + 1, if Own(items[i], name, uid) then origin + [i] else origin, name, uid)
  {
    assert i !in origin;
  }

  /** The listing after i turns of the filter: what was picked in front, the rest as it was. */
  ghost predicate Moved(before: seq<History>, current: seq<History>, i: nat, origin: seq<nat>) {
    && |current| == |before| && |origin| <= i <= |before|
    && (forall j | i <= j < |before| :: current[j] == before[j])
    && (forall j | 0 <= j < |origin| :: origin[j] < |before| && current[j] == before[origin[j]])
  }

  lemma MovedOneMore(before: seq<History>, current: seq<History>, i: nat, origin: seq<nat>)
    requires i < |before| && Moved(before, current, i, origin)
    ensures Moved(before, current[|origin| := current[i]], i + 1, origin + [i])
    ensures Moved(before, current, i + 1, origin)
  {
  }

  ghost predicate Filtered(before: seq<History>, current: seq<History>, i: nat, origin: seq<nat>,
                           name: string, uid: string) {
    Moved(before, current, i, origin) && Picks(before, i, origin, name, uid)
  }

  lemma FilteredOneMore(before: seq<History>, current: seq<History>, i: nat, origin: seq<nat>,
                        name: string, uid: string)
    requires i < |before| && Filtered(before, current, i, origin, name, uid)
    ensures Own(current[i], name, uid) ==>
              Filtered(before, current[|origin| := current[i]], i + 1, origin + [i], name, uid)
    ensures !Own(current[i], name, uid) ==> Filtered(before, current, i + 1, origin, name, uid)
  {
    PicksOneMore(before, i, origin, name, uid);
    MovedOneMore(before, current, i, origin);
  }

  lemma FilteredEnd(before: seq<History>, current: seq<History>, origin: seq<nat>, name: string, uid: string)
    requires Filtered(before, current, |before|, origin, name, uid)
    ensures forall i, j | 0 <= i < j < |origin| :: origin[i] < origin[j]
    ensures forall j | 0 <= j < |origin| :: origin[j] < |before| && current[j] == before[origin[j]]
    ensures forall i | 0 <= i < |before| :: i in origin <==> Own(before[i], name, uid)
  {
  }

  // ---------- The storage ----------

  class Storage {
    const server: ApiServer
    var release: Release

    constructor (server: ApiServer, release: Release)
      ensures this.server == server && this.release == release
    {
      this.server := server;
      this.release := release;
    }

    ghost predicate Valid()
      reads this, server
    {
      && release.name == server.release.name && release.uid == server.release.uid
      && WellFiled(server.histories, release.name, release.uid)
    }

    ghost function OwnedHere(): map<Int32, History>
      reads this, server
    {
      Owned(server.histories, release.name, release.uid)
    }

    /** The storage and its server are where a protocol state says they are. */
    ghost predicate At(s: State)
      reads this, server
    {
      server.release == s.server && server.histories == s.store && release == s.copy
    }

    method History(version: Int32, down: bool) returns (r: Result<History, Error>)
      requires Valid()
      ensures r == if down then Err(Unavailable)
                   else if version in OwnedHere() then Ok(OwnedHere()[version]) else Err(NotFound)
    {
      if down {
        return Err(Unavailable);
      }
      if version !in server.histories {
        return Err(NotFound);
      }
      var h := server.histories[version];
      if !Own(h, release.name, release.uid) {
        return Err(NotFound);
      }
      return Ok(h);
    }

    /** Owned histories move to the front of the listing in place; then they are sorted. */
    method Histories(down: bool) returns (r: Result<seq<History>, Error>)
      requires Valid()
      ensures down ==> r == Err(Unavailable)
      ensures !down ==> r.Ok? && Lists(r.value, OwnedHere())
    {
      if down {
        return Err(Unavailable);
      }
      var items, keys := server.ListHistories(release.name);
      var results := new History[|items|](i requires 0 <= i < |items| => items[i]);
      assert results[..] == items;
      var count, origin := KeepOwned(results);
      var owned := results[..count];
      FilteredListing(items, keys, owned, origin);
      SortSorts(owned);
      return Ok(SortDescending(owned));
    }

    /** The filter loop: owned entries move to the front, in order; `origin` says from where. */
    method KeepOwned(results: array<History>) returns (count: nat, ghost origin: seq<nat>)
      modifies results
      ensures count == |origin| <= results.Length
      ensures forall i, j | 0 <= i < j < count :: origin[i] < origin[j]
      ensures forall j | 0 <= j < count :: origin[j] < results.Length && results[j] == old(results[..])[origin[j]]
      ensures forall i | 0 <= i < results.Length :: i in origin <==> Own(old(results[..])[i], release.name, release.uid)
    {
      ghost var before := results[..];
      count, origin := 0, [];
      for i := 0 to results.Length
        invariant count == |origin| && Filtered(before, results[..], i, origin, release.name, release.uid)
      {
        var history := results[i];
        ghost var current := results[..];
        FilteredOneMore(before, current, i, origin, release.name, release.uid);
        if Own(history, release.name, release.uid) {
          results[count] := history;
          assert results[..] == current[count := history];
          count, origin := count + 1, origin + [i];
        }
      }
      FilteredEnd(before, results[..], origin, release.name, release.uid);
    }

    lemma FilteredListing(items: seq<History>, keys: seq<Int32>, owned: seq<History>, origin: seq<nat>)
      requires Valid() && Distinct(keys) && |items| == |keys| && |owned| == |origin|
      requires forall v :: v in keys <==> v in server.histories && server.histories[v].selector == release.name
      requires forall i | 0 <= i < |keys| :: keys[i] in server.histories && items[i] == server.histories[keys[i]]
      requires forall i, j | 0 <= i < j < |origin| :: origin[i] < origin[j]
      requires forall j | 0 <= j < |origin| :: origin[j] < |items| && owned[j] == items[origin[j]]
      requires forall i | 0 <= i < |items| :: i in origin <==> Own(items[i], release.name, release.uid)
      ensures forall i, j | 0 <= i < j < |owned| :: owned[i].spec.version != owned[j].spec.version
      ensures forall h | h in owned :: h.spec.version in OwnedHere() && OwnedHere()[h.spec.version] == h
      ensures forall v | v in OwnedHere() :: OwnedHere()[v] in owned && OwnedHere()[v].spec.version == v
    {
      forall j | 0 <= j < |owned|
        ensures keys[origin[j]] in OwnedHere() && OwnedHere()[keys[origin[j]]] == owned[j]
        ensures owned[j].spec.version == keys[origin[j]]
      {
        assert origin[j] in origin;
      }
      forall v | v in OwnedHere() ensures OwnedHere()[v] in owned {
        assert v in keys;
        var i :| 0 <= i < |keys| && keys[i] == v;
        var j :| 0 <= j < |origin| && origin[j] == i;
        assert owned[j] == OwnedHere()[v];
      }
    }

    /**
     Sends the difference between the storage's copy and the target, unless it is empty, and keeps
     the server's answer as the new copy.
     */
    method Patch(target: Release, down: bool, ghost s: State) returns (r: Result<(), Error>)
      requires Valid() && At(s) && Modifies(release, target)
      modifies this`release, server`release
      ensures Valid()
      ensures r == if target != old(release) && down then Err(Unavailable) else Ok(())
      ensures At(if r.Ok? then Patched(s, target) else s)
    {
      EncodingsAreSafe(release);
      EncodingsAreSafe(target);
      EmptyPatchMeansEqual(Encode(release), Encode(target));
      if CreatePatch(Encode(release), Encode(target)) == Obj(map[]) {
        EncodeInjective(release, target);
        return Ok(());
      }
      if down {
        return Err(Unavailable);
      }
      server.PatchRelease(release, target);
      release := server.release;
      return Ok(());
    }

    method FlushConditions(conditions: seq<Condition>, down: bool, ghost s: State) returns (r: Result<(), Error>)
      requires Valid() && At(s)
      modifies this`release, server`release
      ensures Valid()
      ensures r == if FlushTarget(old(release), conditions) != old(release) && down then Err(Unavailable) else Ok(())
      ensures At(if r.Ok? then Next(s, Flush(conditions)) else s)
    {
      r := Patch(FlushTarget(release, conditions), down, s);
    }

    /** Makes sure that the version has a history, then publishes version and manifest. */
    method Update(rel: Release, env: Env, ghost s: State) returns (r: Result<(), Error>, ghost actions: seq<Action>)
      requires Valid() && At(s) && s.worker == Applying(rel) && env.now != 0
      requires rel.name == release.name && rel.uid == release.uid
      modifies this`release, server
      ensures Valid()
      ensures (r, actions) == UpdateSteps(s, rel, env)
      ensures r.Ok? <==> Updates(s, rel, env)
      ensures r.Ok? ==> actions == [Record, Publish(env.now)]
      ensures At(Execute(s, actions)) && Possible(s, actions, 0) && Execute(s, actions).worker.Idle?
    {
      var version := rel.status.version;
      var found := History(version, GetHistory in env.faults);
      if found.Err? && found.error != NotFound {
        ExecuteOne(s, Abort, 0);
        return Err(found.error), [Abort];
      }
      if found.Err? {
        if CreateHistory in env.faults {
          ExecuteOne(s, Abort, 0);
          return Err(Unavailable), [Abort];
        }
        var created := server.CreateHistory(version, Construct(rel, version));
        if !created {
          ExecuteOne(s, Record, 0);
          return Err(AlreadyExists), [Record];
        }
      }
      ghost var s1 := Next(s, Record);
      FilingKept(s, rel);
      assert At(s1) && s1.worker == Recorded(rel);
      r := Patch(UpdateTarget(release, rel, env.now), PatchRelease in env.faults, s1);
      actions := if r.Ok? then [Record, Publish(env.now)] else [Record, Abort];
      ExecuteTwo(s, actions[0], actions[1], 0);
    }

    /**
     Restores a version; a missing one only leaves a condition behind. It succeeds exactly when
     nothing it needs fails, and then the protocol ends in the state of the rollback.
     */
    method Rollback(version: Int32, env: Env, ghost target: Release, ghost s: State)
      returns (r: Result<(), Error>, ghost actions: seq<Action>)
      requires Valid() && At(s) && s.worker.Idle? && env.now != 0
      requires target in s.log && target.spec.rollbackTo == Some(version)
      modifies this`release, server`release
      ensures Valid()
      ensures At(Execute(s, actions)) && Possible(s, actions, 0) && Execute(s, actions).worker.Idle?
      ensures (r, actions) == RollbackSteps(s, version, target, env)
      ensures r.Ok? <==> RollsBack(s, version, env)
      ensures r.Ok? ==> Execute(s, actions) == RolledBack(s, version, env)
      ensures r.Ok? && version in Mine(s) ==>
                actions == [ReadHistory(target), Restore(RestoredManifest(s, version, env), env.now)]
      ensures r.Ok? && version !in Mine(s) ==> actions == [Flush(MissingConditions(env))]
    {
      var found := History(version, GetHistory in env.faults);
      if found.Err? && found.error != NotFound {
        return Err(found.error), [];
      }
      if found.Err? {
        var missing := MissingConditions(env);
        r := FlushConditions(missing, PatchRelease in env.faults, s);
        actions := if r.Ok? then [Flush(missing)] else [];
        assert r.Ok? ==> Execute(s, actions) == Next(s, Flush(missing));
        return;
      }
      var h := found.value;
      var resources := env.render(OptionsOf(release, h));
      if resources.None? {
        return Err(RenderFailed), [];
      }
      ghost var s1 := Next(s, ReadHistory(target));
      assert At(s1) && s1.worker == Restoring(h);
      var manifest := Manifest.MergeResources(resources.value);
      r := Patch(RollbackTarget(release, h, manifest, env.now), PatchRelease in env.faults, s1);
      actions := [ReadHistory(target), if r.Ok? then Restore(manifest, env.now) else Abort];
      ExecuteTwo(s, actions[0], actions[1], 0);
    }
  }

  lemma FilingKept(s: State, rel: Release)
    requires WellFiled(s.store, rel.name, rel.uid) && s.worker == Applying(rel)
    ensures WellFiled(Next(s, Record).store, rel.name, rel.uid)
  {
  }

  // ---------- The environment of an attempt ----------

  /** The calls of an attempt that can fail for reasons outside this model. */
  datatype Call =
    ListHistories | GetHistory | CreateHistory | PatchRelease | ApplyResources | FlushFailure | FlushAvailable

  datatype RenderOptions = RenderOptions(
    release: string, version: Int32, template: string, config: string, suspend: Option<bool>)

  /** Rendering is a foreign library: some function of the options that may fail. */
  datatype Env = Env(now: int, faults: set<Call>, render: RenderOptions -> Option<seq<string>>)

  function OptionsOf(copy: Release, h: History): RenderOptions {
    RenderOptions(copy.name, h.spec.version, h.spec.template, h.spec.config, copy.spec.suspend)
  }

  /** Nothing stops an update: the history is there or can be created, and the patch goes through. */
  ghost predicate Updates(s: State, rel: Release, env: Env) {
    && GetHistory !in env.faults
    && (rel.status.version in Mine(s) || (rel.status.version !in s.store && CreateHistory !in env.faults))
    && (UpdateTarget(s.copy, rel, env.now) == s.copy || PatchRelease !in env.faults)
  }

  /** The outcome of an update and the steps it takes, whatever fails. */
  ghost function UpdateSteps(s: State, rel: Release, env: Env): (Result<(), Error>, seq<Action>) {
    var v := rel.status.version;
    if GetHistory in env.faults || (v !in Mine(s) && CreateHistory in env.faults) then (Err(Unavailable), [Abort])
    else if v !in Mine(s) && v in s.store then (Err(AlreadyExists), [Record])
    else if UpdateTarget(s.copy, rel, env.now) != s.copy && PatchRelease in env.faults then
      (Err(Unavailable), [Record, Abort])
    else (Ok(()), [Record, Publish(env.now)])
  }

  // ---------- What a rollback comes to ----------

  function MissingConditions(env: Env): seq<Condition> {
    [Condition(Failure, "not found", env.now)]
  }

  /** The manifest rendered from the history of a version. */
  ghost function RestoredManifest(s: State, version: Int32, env: Env): string
    requires version in Mine(s)
  {
    match env.render(OptionsOf(s.copy, Mine(s)[version]))
    case None => ""
    case Some(resources) => Manifest.MergeResources(resources)
  }

  /** What the storage wants its document to be. */
  ghost function RollbackGoal(s: State, version: Int32, env: Env): Release {
    if version in Mine(s) then RollbackTarget(s.copy, Mine(s)[version], RestoredManifest(s, version, env), env.now)
    else FlushTarget(s.copy, MissingConditions(env))
  }

  /** The outcome of a rollback and the steps it takes, whatever fails. */
  ghost function RollbackSteps(s: State, version: Int32, target: Release, env: Env)
    : (Result<(), Error>, seq<Action>)
  {
    var sent := RollbackGoal(s, version, env) == s.copy || PatchRelease !in env.faults;
    if GetHistory in env.faults then (Err(Unavailable), [])
    else if version !in Mine(s) then
      if sent then (Ok(()), [Flush(MissingConditions(env))]) else (Err(Unavailable), [])
    else if env.render(OptionsOf(s.copy, Mine(s)[version])).None? then (Err(RenderFailed), [])
    else if sent then
      (Ok(()), [ReadHistory(target), Restore(RestoredManifest(s, version, env), env.now)])
    else (Err(Unavailable), [ReadHistory(target), Abort])
  }

  ghost function RolledBack(s: State, version: Int32, env: Env): State
    requires s.worker.Idle?
  {
    Patched(s, RollbackGoal(s, version, env))
  }

  /** Nothing stops a rollback: the history can be looked up and rendered, and the patch goes through. */
  ghost predicate RollsBack(s: State, version: Int32, env: Env) {
    && GetHistory !in env.faults
    && (version in Mine(s) ==> env.render(OptionsOf(s.copy, Mine(s)[version])).Some?)
    && (RollbackGoal(s, version, env) == s.copy || PatchRelease !in env.faults)
  }
}
