/**
 The Release document: its fields, its JSON encoding, and what a merge patch computed from one
 copy does to another copy.
 */
module ReleaseDoc {
  import opened Common
  import opened MergePatch

  type Int32 = n: int | -0x8000_0000 <= n <= 0x7fff_ffff

  datatype Reason = Available | Failure | Creating | Updating | Rollbacking

  datatype Condition = Condition(reason: Reason, message: string, at: int)

  datatype Spec = Spec(
    description: string, template: string, config: string,
    suspend: Option<bool>, rollbackTo: Option<Int32>)

  /** `lastUpdate` is 0 for the zero time, which encodes as null. */
  datatype Status = Status(version: Int32, manifest: string, lastUpdate: int, conditions: seq<Condition>)

  datatype Release = Release(name: string, uid: string, spec: Spec, status: Status)

  // ---------- Encoding ----------

  function Text(s: string): Option<Json> {
    if s == "" then None else Some(Str(s))
  }

  function ReasonText(r: Reason): string {
    match r
    case Available => "Available"
    case Failure => "Failure"
    case Creating => "Creating"
    case Updating => "Updating"
    case Rollbacking => "Rollbacking"
  }

  function EncodeCondition(c: Condition): Json {
    Obj(map["reason" := Str(ReasonText(c.reason)), "message" := Str(c.message), "lastTransitionTime" := Time(c.at)])
  }

  function EncodeConditions(cs: seq<Condition>): seq<Json> {
    seq(|cs|, i requires 0 <= i < |cs| => EncodeCondition(cs[i]))
  }

  function EncodeRollback(version: Int32): Json {
    Obj(if version == 0 then map[] else map["version" := Num(version)])
  }

  function SpecMember(s: Spec, k: string): Option<Json> {
    if k == "description" then Text(s.description)
    else if k == "template" then Text(s.template)
    else if k == "config" then Text(s.config)
    else if k == "suspend" then (match s.suspend case None => None case Some(b) => Some(Bool(b)))
    else if k == "rollbackTo" then
      (match s.rollbackTo
       case None => None
       case Some(v) => Some(EncodeRollback(v)))
    else None
  }

  function StatusMember(s: Status, k: string): Option<Json> {
    if k == "version" then (if s.version == 0 then None else Some(Num(s.version)))
    else if k == "manifest" then Text(s.manifest)
    else if k == "lastUpdateTime" then Some(if s.lastUpdate == 0 then Null else Time(s.lastUpdate))
    else if k == "conditions" then
      (if s.conditions == [] then None else Some(Arr(EncodeConditions(s.conditions))))
    else None
  }

  function EncodeSpec(s: Spec): Json {
    Obj(map k | k in {"description", "template", "config", "suspend", "rollbackTo"} && SpecMember(s, k).Some? ::
          SpecMember(s, k).value)
  }

  function EncodeStatus(s: Status): Json {
    Obj(map k | k in {"version", "manifest", "lastUpdateTime", "conditions"} && StatusMember(s, k).Some? ::
          StatusMember(s, k).value)
  }

  function EncodeMeta(r: Release): Json {
    Obj(map["name" := Str(r.name), "uid" := Str(r.uid)])
  }

  function Encode(r: Release): Json {
    Obj(map["metadata" := EncodeMeta(r), "spec" := EncodeSpec(r.spec), "status" := EncodeStatus(r.status)])
  }

  lemma SpecLookup(s: Spec, k: string)
    ensures Lookup(EncodeSpec(s).fields, k) == SpecMember(s, k)
  {
  }

  lemma StatusLookup(s: Status, k: string)
    ensures Lookup(EncodeStatus(s).fields, k) == StatusMember(s, k)
  {
  }

  lemma ReasonTextInjective(a: Reason, b: Reason)
    requires ReasonText(a) == ReasonText(b)
    ensures a == b
  {
    var first := ReasonText(a)[0];
    assert first == ReasonText(b)[0];
  }

  lemma ConditionsInjective(a: seq<Condition>, b: seq<Condition>)
    requires EncodeConditions(a) == EncodeConditions(b)
    ensures a == b
  {
    assert |a| == |EncodeConditions(a)| == |b|;
    forall i | 0 <= i < |a| ensures a[i] == b[i] {
      assert EncodeConditions(a)[i] == EncodeConditions(b)[i];
      var x, y := EncodeCondition(a[i]).fields, EncodeCondition(b[i]).fields;
      assert x["reason"] == y["reason"] && x["message"] == y["message"];
      assert x["lastTransitionTime"] == y["lastTransitionTime"];
      ReasonTextInjective(a[i].reason, b[i].reason);
    }
  }

  lemma ConditionsAreNullFree(cs: seq<Condition>)
    ensures NullFree(Arr(EncodeConditions(cs)))
  {
    forall i | 0 <= i < |cs| ensures NullFree(EncodeConditions(cs)[i]) {
      assert EncodeConditions(cs)[i] == EncodeCondition(cs[i]);
    }
  }

  lemma SpecIsSafe(s: Spec)
    ensures Exact(EncodeSpec(s)) && NullFreeArrays(EncodeSpec(s))
  {
    forall k | k in EncodeSpec(s).fields
      ensures Exact(EncodeSpec(s).fields[k]) && NullFreeArrays(EncodeSpec(s).fields[k])
    {
      SpecLookup(s, k);
    }
  }

  lemma StatusIsSafe(s: Status)
    ensures Exact(EncodeStatus(s)) && NullFreeArrays(EncodeStatus(s))
  {
    ConditionsAreNullFree(s.conditions);
    forall k | k in EncodeStatus(s).fields
      ensures Exact(EncodeStatus(s).fields[k]) && NullFreeArrays(EncodeStatus(s).fields[k])
    {
      StatusLookup(s, k);
    }
  }

  /** Encodings stay clear of what the patch builder loses: no null inside arrays, no number beyond int32. */
  lemma EncodingsAreSafe(r: Release)
    ensures Exact(Encode(r)) && NullFreeArrays(Encode(r))
  {
    SpecIsSafe(r.spec);
    StatusIsSafe(r.status);
  }

  // ---------- Merging ----------

  /** One field of `server` after a patch from `local` to `target`. */
  function Pick<T(==)>(server: T, local: T, target: T): T {
    if local == target then server else target
  }

  function MergeSpec(server: Spec, local: Spec, target: Spec): Spec {
    Spec(
      Pick(server.description, local.description, target.description),
      Pick(server.template, local.template, target.template),
      Pick(server.config, local.config, target.config),
      Pick(server.suspend, local.suspend, target.suspend),
      Pick(server.rollbackTo, local.rollbackTo, target.rollbackTo))
  }

  function MergeStatus(server: Status, local: Status, target: Status): Status {
    Status(
      Pick(server.version, local.version, target.version),
      Pick(server.manifest, local.manifest, target.manifest),
      Pick(server.lastUpdate, local.lastUpdate, target.lastUpdate),
      Pick(server.conditions, local.conditions, target.conditions))
  }

  /** The server's document after a patch computed from `local` to `target`. */
  function Merge(server: Release, local: Release, target: Release): Release {
    Release(server.name, server.uid,
      MergeSpec(server.spec, local.spec, target.spec),
      MergeStatus(server.status, local.status, target.status))
  }

  /**
   What every modifier in the storage respects: it keeps the identity, keeps or clears the
   rollback request, and never resets the update time.
   */
  predicate Modifies(local: Release, target: Release) {
    && target.name == local.name && target.uid == local.uid
    && (target.spec.rollbackTo == None || target.spec.rollbackTo == local.spec.rollbackTo)
    && (target.status.lastUpdate == local.status.lastUpdate || target.status.lastUpdate != 0)
  }

  lemma RollbackInjective(a: Int32, b: Int32)
    requires EncodeRollback(a) == EncodeRollback(b)
    ensures a == b
  {
    assert Lookup(EncodeRollback(a).fields, "version") == Lookup(EncodeRollback(b).fields, "version");
  }

  /** Member by member, merging picks the server's encoding or the target's. */
  lemma MergedSpecMember(server: Spec, local: Spec, target: Spec, k: string)
    ensures SpecMember(MergeSpec(server, local, target), k)
         == Pick(SpecMember(server, k), SpecMember(local, k), SpecMember(target, k))
  {
    if k == "rollbackTo" && SpecMember(local, k) == SpecMember(target, k) && local.rollbackTo.Some? {
      RollbackInjective(local.rollbackTo.value, target.rollbackTo.value);
    }
  }

  lemma MergedStatusMember(server: Status, local: Status, target: Status, k: string)
    ensures StatusMember(MergeStatus(server, local, target), k)
         == Pick(StatusMember(server, k), StatusMember(local, k), StatusMember(target, k))
  {
    if k == "conditions" && EncodeConditions(local.conditions) == EncodeConditions(target.conditions) {
      ConditionsInjective(local.conditions, target.conditions);
    }
  }

  lemma {:induction false} PatchedSpec(server: Spec, local: Spec, target: Spec)
    requires target.rollbackTo == None || target.rollbackTo == local.rollbackTo
    ensures Apply(EncodeSpec(server), Diff(EncodeSpec(local), EncodeSpec(target)))
         == EncodeSpec(MergeSpec(server, local, target))
  {
    var s, l, t := EncodeSpec(server), EncodeSpec(local), EncodeSpec(target);
    var merged := MergeSpec(server, local, target);
    forall k ensures Lookup(Apply(s, Diff(l, t)).fields, k) == Lookup(EncodeSpec(merged).fields, k) {
      SpecLookup(server, k);
      SpecLookup(local, k);
      SpecLookup(target, k);
      SpecLookup(merged, k);
      MergedSpecMember(server, local, target, k);
      PatchedPlainMember(s, l, t, k);
    }
    SameLookups(Apply(s, Diff(l, t)).fields, EncodeSpec(merged).fields);
  }

  lemma PatchedStatus(server: Status, local: Status, target: Status)
    requires target.lastUpdate == local.lastUpdate || target.lastUpdate != 0
    ensures Apply(EncodeStatus(server), Diff(EncodeStatus(local), EncodeStatus(target)))
         == EncodeStatus(MergeStatus(server, local, target))
  {
    var s, l, t := EncodeStatus(server), EncodeStatus(local), EncodeStatus(target);
    var merged := MergeStatus(server, local, target);
    forall k ensures Lookup(Apply(s, Diff(l, t)).fields, k) == Lookup(EncodeStatus(merged).fields, k) {
      StatusLookup(server, k);
      StatusLookup(local, k);
      StatusLookup(target, k);
      StatusLookup(merged, k);
      ConditionsAreNullFree(local.conditions);
      ConditionsAreNullFree(target.conditions);
      MergedStatusMember(server, local, target, k);
      PatchedPlainMember(s, l, t, k);
    }
    SameLookups(Apply(s, Diff(l, t)).fields, EncodeStatus(merged).fields);
  }

  /**
   Field-wise merging is what the wire protocol does: building the merge patch between two
   encodings and applying it to a third gives the encoding of the merge.
   */
  lemma MergeIsMergePatch(server: Release, local: Release, target: Release)
    requires Modifies(local, target) && local.name == server.name && local.uid == server.uid
    ensures Apply(Encode(server), CreatePatch(Encode(local), Encode(target))) == Encode(Merge(server, local, target))
  {
    EncodingsAreSafe(local);
    EncodingsAreSafe(target);
    ExactIsDecodedAsIs(Encode(local));
    ExactIsDecodedAsIs(Encode(target));
    var patched := Apply(Encode(server), Diff(Encode(local), Encode(target))).fields;
    var merged := Encode(Merge(server, local, target)).fields;
    forall k ensures Lookup(patched, k) == Lookup(merged, k) {
      if k == "spec" {
        PatchedNestedMember(Encode(server), Encode(local), Encode(target), k);
        PatchedSpec(server.spec, local.spec, target.spec);
      } else if k == "status" {
        PatchedNestedMember(Encode(server), Encode(local), Encode(target), k);
        PatchedStatus(server.status, local.status, target.status);
      } else {
        assert Lookup(Encode(local).fields, k) == Lookup(Encode(target).fields, k);
        PatchedPlainMember(Encode(server), Encode(local), Encode(target), k);
      }
    }
    SameLookups(patched, merged);
  }

  lemma EncodeSpecInjective(a: Spec, b: Spec)
    requires EncodeSpec(a) == EncodeSpec(b)
    ensures a == b
  {
    forall k ensures SpecMember(a, k) == SpecMember(b, k) {
      SpecLookup(a, k);
      SpecLookup(b, k);
    }
    assert SpecMember(a, "description") == SpecMember(b, "description");
    assert SpecMember(a, "template") == SpecMember(b, "template");
    assert SpecMember(a, "config") == SpecMember(b, "config");
    assert SpecMember(a, "suspend") == SpecMember(b, "suspend");
    assert SpecMember(a, "rollbackTo") == SpecMember(b, "rollbackTo");
    if a.rollbackTo.Some? && b.rollbackTo.Some? {
      RollbackInjective(a.rollbackTo.value, b.rollbackTo.value);
    }
  }

  lemma EncodeStatusInjective(a: Status, b: Status)
    requires EncodeStatus(a) == EncodeStatus(b)
    ensures a == b
  {
    forall k ensures StatusMember(a, k) == StatusMember(b, k) {
      StatusLookup(a, k);
      StatusLookup(b, k);
    }
    assert StatusMember(a, "version") == StatusMember(b, "version");
    assert StatusMember(a, "manifest") == StatusMember(b, "manifest");
    assert StatusMember(a, "lastUpdateTime") == StatusMember(b, "lastUpdateTime");
    assert StatusMember(a, "conditions") == StatusMember(b, "conditions");
    if a.conditions != [] && b.conditions != [] {
      ConditionsInjective(a.conditions, b.conditions);
    }
  }

  /** Distinct documents have distinct encodings. */
  lemma EncodeInjective(a: Release, b: Release)
    requires Encode(a) == Encode(b)
    ensures a == b
  {
    var x, y := Encode(a).fields, Encode(b).fields;
    assert x["spec"] == y["spec"] && x["status"] == y["status"] && x["metadata"] == y["metadata"];
    var p, q := EncodeMeta(a).fields, EncodeMeta(b).fields;
    assert p["name"] == q["name"] && p["uid"] == q["uid"];
    EncodeSpecInjective(a.spec, b.spec);
    EncodeStatusInjective(a.status, b.status);
  }

  /** Against an unchanged server copy, the patch installs the target itself. */
  lemma MergeOntoSelf(local: Release, target: Release)
    requires target.name == local.name && target.uid == local.uid
    ensures Merge(local, local, target) == target
  {
  }
}
