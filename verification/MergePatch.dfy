/**
 The merge patches of the vendored json-patch library, which the release storage builds with
 `CreateMergePatch(old, new)` and sends in a PATCH request: what the builder compares, what the
 merge drops, and how both differ from section 2 of RFC 7396 where arrays hold nulls.
 */
module MergePatch {
  import opened Common

  /** Numbers are integers; a point in time is a string that holds one. */
  datatype Json =
    | Null
    | Bool(b: bool)
    | Num(n: int)
    | Str(s: string)
    | Time(at: int)
    | Arr(items: seq<Json>)
    | Obj(fields: map<string, Json>)

  /** No null anywhere inside a value, in objects or arrays. */
  predicate NullFree(j: Json) {
    && (j.Obj? ==> forall k | k in j.fields :: !j.fields[k].Null? && NullFree(j.fields[k]))
    && (j.Arr? ==> forall i | 0 <= i < |j.items| :: !j.items[i].Null? && NullFree(j.items[i]))
  }

  /** No null inside an array; members of objects outside arrays may be null. */
  predicate NullFreeArrays(j: Json) {
    && (j.Arr? ==> NullFree(j))
    && (j.Obj? ==> forall k | k in j.fields :: NullFreeArrays(j.fields[k]))
  }

  lemma {:induction false} NullFreeHasNullFreeArrays(j: Json)
    requires NullFree(j)
    ensures NullFreeArrays(j)
  {
    if j.Obj? {
      forall k | k in j.fields ensures NullFreeArrays(j.fields[k]) {
        NullFreeHasNullFreeArrays(j.fields[k]);
      }
    }
  }

  /** A member, or null for none. */
  function At(fields: map<string, Json>, k: string): Json {
    if k in fields then fields[k] else Null
  }

  // ---------- Applying a patch ----------

  /** pruneNulls: members and items that are null go, at every depth, arrays included. */
  function Prune(j: Json): Json
    decreases j, if j.Arr? then |j.items| + 1 else 0
  {
    match j
    case Obj(fields) => Obj(map k | k in fields && !fields[k].Null? :: Prune(fields[k]))
    case Arr(items) => Arr(PruneFrom(j, 0))
    case _ => j
  }

  /** The loop of pruneAryNulls, from item i on. */
  function PruneFrom(j: Json, i: nat): (kept: seq<Json>)
    requires j.Arr? && i <= |j.items|
    ensures |kept| <= |j.items| - i
    decreases j, |j.items| - i
  {
    if i == |j.items| then []
    else (if j.items[i].Null? then [] else [Prune(j.items[i])]) + PruneFrom(j, i + 1)
  }

  /**
   The merge of the library; an absent member is passed on as Null. Only what meets an object is
   put there as it is, everything else is pruned.
   */
  function Apply(target: Json, patch: Json): Json
    decreases patch
  {
    if !target.Obj? then Prune(patch)
    else if !patch.Obj? then patch
    else
      Obj(map k | k in target.fields.Keys + patch.fields.Keys && !(k in patch.fields && patch.fields[k].Null?) ::
            if k in patch.fields
            then Apply(At(target.fields, k), patch.fields[k])
            else target.fields[k])
  }

  /** MergePatch(Target, Patch) as RFC 7396 has it. */
  function Standard(target: Json, patch: Json): Json
    decreases patch
  {
    if patch.Obj? then
      var olds := if target.Obj? then target.fields else map[];
      Obj(map k | k in olds.Keys + patch.fields.Keys && !(k in patch.fields && patch.fields[k].Null?) ::
            if k in patch.fields
            then Standard(At(olds, k), patch.fields[k])
            else olds[k])
    else
      patch
  }

  lemma {:induction false} PruneFromKeepsAllIff(j: Json, i: nat)
    requires j.Arr? && i <= |j.items|
    requires forall m | 0 <= m < |j.items| :: Prune(j.items[m]) == j.items[m] <==> NullFree(j.items[m])
    ensures PruneFrom(j, i) == j.items[i..]
            <==> forall m | i <= m < |j.items| :: !j.items[m].Null? && NullFree(j.items[m])
    decreases |j.items| - i
  {
    if i < |j.items| {
      PruneFromKeepsAllIff(j, i + 1);
      assert j.items[i..] == [j.items[i]] + j.items[i + 1..];
      if j.items[i].Null? {
        assert |PruneFrom(j, i)| < |j.items[i..]|;
      } else {
        assert PruneFrom(j, i) == [Prune(j.items[i])] + PruneFrom(j, i + 1);
        assert PruneFrom(j, i)[0] == Prune(j.items[i]) && PruneFrom(j, i)[1..] == PruneFrom(j, i + 1);
        assert j.items[i..][0] == j.items[i] && j.items[i..][1..] == j.items[i + 1..];
      }
    }
  }

  /** Pruning keeps exactly the values without nulls. */
  lemma {:induction false} PruneKeepsIff(j: Json)
    ensures Prune(j) == j <==> NullFree(j)
    decreases j
  {
    match j
    case Obj(fields) =>
      forall k | k in fields ensures Prune(fields[k]) == fields[k] <==> NullFree(fields[k]) {
        PruneKeepsIff(fields[k]);
      }
      if Prune(j) == j {
        assert Prune(j).fields == fields;
        forall k | k in fields ensures !fields[k].Null? && NullFree(fields[k]) {
          assert k in Prune(j).fields;
        }
      }
      if NullFree(j) {
        assert Prune(j).fields == fields;
      }
    case Arr(items) =>
      forall m | 0 <= m < |items| ensures Prune(items[m]) == items[m] <==> NullFree(items[m]) {
        PruneKeepsIff(items[m]);
      }
      PruneFromKeepsAllIff(j, 0);
      assert j.items[0..] == items;
    case _ =>
  }

  lemma {:induction false} PruneIsStandardIff(patch: Json)
    ensures Prune(patch) == Standard(Null, patch) <==> NullFreeArrays(patch)
    decreases patch
  {
    match patch
    case Obj(fields) =>
      forall k | k in fields ensures Prune(fields[k]) == Standard(Null, fields[k]) <==> NullFreeArrays(fields[k]) {
        PruneIsStandardIff(fields[k]);
      }
      var pruned, standard := Prune(patch).fields, Standard(Null, patch).fields;
      assert pruned.Keys == standard.Keys;
      forall k | k in fields && !fields[k].Null?
        ensures pruned[k] == Prune(fields[k]) && standard[k] == Standard(Null, fields[k])
      {
      }
      if pruned == standard {
        forall k | k in fields ensures NullFreeArrays(fields[k]) {
          assert fields[k].Null? || pruned[k] == standard[k];
        }
      }
      if NullFreeArrays(patch) {
        SameMaps(pruned, standard);
      }
    case _ =>
      PruneKeepsIff(patch);
  }

  lemma {:induction false} AppliesByTheStandard(target: Json, patch: Json)
    requires NullFreeArrays(patch)
    ensures Apply(target, patch) == Standard(target, patch)
    decreases patch
  {
    if !target.Obj? {
      PruneIsStandardIff(patch);
      assert Standard(target, patch) == Standard(Null, patch);
    } else if patch.Obj? {
      forall k | k in patch.fields
        ensures Apply(At(target.fields, k), patch.fields[k]) == Standard(At(target.fields, k), patch.fields[k])
      {
        AppliesByTheStandard(At(target.fields, k), patch.fields[k]);
      }
      SameMaps(Apply(target, patch).fields, Standard(target, patch).fields);
    }
  }

  /** The library follows the standard, whatever the target, for exactly the patches without nulls in arrays. */
  lemma FollowsTheStandardIff(patch: Json)
    ensures (forall target :: Apply(target, patch) == Standard(target, patch)) <==> NullFreeArrays(patch)
  {
    PruneIsStandardIff(patch);
    assert Apply(Null, patch) == Prune(patch);
    if NullFreeArrays(patch) {
      forall target ensures Apply(target, patch) == Standard(target, patch) {
        AppliesByTheStandard(target, patch);
      }
    }
  }

  // ---------- Building a patch ----------

  /** matchesValue: inside arrays a member that is null is as good as none. */
  predicate Matches(a: Json, b: Json) {
    if a.Obj? && b.Obj? then
      && (forall k | k in a.fields :: Matches(a.fields[k], At(b.fields, k)))
      && (forall k | k in b.fields && k !in a.fields :: b.fields[k].Null?)
    else if a.Arr? && b.Arr? then
      && |a.items| == |b.items|
      && forall i | 0 <= i < |a.items| :: Matches(a.items[i], b.items[i])
    else
      a == b
  }

  /** The member that the patch from `a` to `b` holds under `k`, if any. */
  function Entry(a: Json, b: Json, k: string): Option<Json>
    requires a.Obj? && b.Obj?
    decreases b, 0
  {
    if k !in b.fields then
      if k in a.fields then Some(Null) else None
    else if k !in a.fields then
      Some(b.fields[k])
    else if a.fields[k].Obj? && b.fields[k].Obj? then
      var nested := Diff(a.fields[k], b.fields[k]);
      if nested == Obj(map[]) then None else Some(nested)
    else if Matches(a.fields[k], b.fields[k]) then
      None
    else
      Some(b.fields[k])
  }

  /** getDiff: the patch that CreateMergePatch builds for two objects. */
  function Diff(a: Json, b: Json): (patch: Json)
    requires a.Obj? && b.Obj?
    ensures patch.Obj?
    decreases b, 1
  {
    Obj(map k | k in a.fields.Keys + b.fields.Keys && Entry(a, b, k).Some? :: Entry(a, b, k).value)
  }

  lemma DiffMember(a: Json, b: Json, k: string)
    requires a.Obj? && b.Obj?
    ensures Lookup(Diff(a, b).fields, k) == Entry(a, b, k)
  {
  }

  // ---------- What the builder takes as equal ----------

  /** A value inside an array, as the builder sees it: null members of objects do not show. */
  function Seen(j: Json): Json {
    match j
    case Obj(fields) => Obj(map k | k in fields && !fields[k].Null? :: Seen(fields[k]))
    case Arr(items) => Arr(seq(|items|, i requires 0 <= i < |items| => Seen(items[i])))
    case _ => j
  }

  /** A document as the builder sees it: outside arrays everything shows. */
  function SeenDocument(j: Json): Json {
    if j.Obj? then Obj(map k | k in j.fields :: SeenDocument(j.fields[k])) else Seen(j)
  }

  lemma {:induction false} MatchesIff(a: Json, b: Json)
    ensures Matches(a, b) <==> Seen(a) == Seen(b)
    decreases a
  {
    if a.Obj? && b.Obj? {
      MatchingObjects(a, b);
    } else if a.Arr? && b.Arr? {
      forall i | 0 <= i < |a.items| && i < |b.items|
        ensures Matches(a.items[i], b.items[i]) <==> Seen(a.items[i]) == Seen(b.items[i])
      {
        MatchesIff(a.items[i], b.items[i]);
      }
      if Seen(a) == Seen(b) {
        assert |Seen(a).items| == |a.items| && |Seen(b).items| == |b.items|;
        forall i | 0 <= i < |a.items| ensures Seen(a.items[i]) == Seen(b.items[i]) {
          assert Seen(a).items[i] == Seen(b).items[i];
        }
      }
      if Matches(a, b) {
        assert Seen(a).items == Seen(b).items;
      }
    }
  }

  lemma {:induction false} MatchingObjects(a: Json, b: Json)
    requires a.Obj? && b.Obj?
    ensures Matches(a, b) <==> Seen(a) == Seen(b)
    decreases a, 0
  {
    forall k | k in a.fields
      ensures Matches(a.fields[k], At(b.fields, k)) <==> Seen(a.fields[k]) == Seen(At(b.fields, k))
    {
      MatchesIff(a.fields[k], At(b.fields, k));
    }
    if Seen(a) == Seen(b) {
      assert Seen(a).fields == Seen(b).fields;
      forall k | k in a.fields ensures Matches(a.fields[k], At(b.fields, k)) {
        assert k in Seen(a).fields <==> k in Seen(b).fields;
      }
      forall k | k in b.fields && k !in a.fields ensures b.fields[k].Null? {
        assert k !in Seen(b).fields;
      }
    }
    if Matches(a, b) {
      SameMaps(Seen(a).fields, Seen(b).fields);
    }
  }

  lemma {:induction false} NoEntriesNoPatch(a: Json, b: Json)
    requires a.Obj? && b.Obj? && forall k :: Entry(a, b, k) == None
    ensures Diff(a, b) == Obj(map[])
  {
    forall k ensures Lookup(Diff(a, b).fields, k) == None {
      DiffMember(a, b, k);
    }
    SameLookups(Diff(a, b).fields, map[]);
  }

  /** When a member is left out of the patch. */
  lemma {:induction false} NoEntryIff(a: Json, b: Json, k: string)
    requires a.Obj? && b.Obj?
    ensures Entry(a, b, k) == None <==> Lookup(SeenDocument(a).fields, k) == Lookup(SeenDocument(b).fields, k)
    decreases b, 0
  {
    if k in a.fields && k in b.fields {
      if a.fields[k].Obj? && b.fields[k].Obj? {
        EmptyPatchIff(a.fields[k], b.fields[k]);
      } else {
        MatchesIff(a.fields[k], b.fields[k]);
      }
    }
  }

  /**
   The patch is empty, and the request then skipped, exactly when the documents agree up to null
   members of objects inside arrays.
   */
  lemma {:induction false} EmptyPatchIff(a: Json, b: Json)
    requires a.Obj? && b.Obj?
    ensures Diff(a, b) == Obj(map[]) <==> SeenDocument(a) == SeenDocument(b)
    decreases b, 1
  {
    var x, y := SeenDocument(a).fields, SeenDocument(b).fields;
    forall k ensures Entry(a, b, k) == None <==> Lookup(x, k) == Lookup(y, k) {
      NoEntryIff(a, b, k);
    }
    if forall k :: Entry(a, b, k) == None {
      forall k ensures Lookup(x, k) == Lookup(y, k) {
        assert Entry(a, b, k) == None;
      }
      SameLookups(x, y);
      NoEntriesNoPatch(a, b);
    } else {
      var k :| Entry(a, b, k) != None;
      assert Lookup(x, k) != Lookup(y, k);
      DiffMember(a, b, k);
    }
  }

  lemma {:induction false} SeenNullFree(j: Json)
    requires NullFree(j)
    ensures Seen(j) == j
    decreases j
  {
    match j
    case Obj(fields) =>
      forall k | k in fields ensures Seen(fields[k]) == fields[k] {
        SeenNullFree(fields[k]);
      }
      assert Seen(j).fields == fields;
    case Arr(items) =>
      forall i | 0 <= i < |items| ensures Seen(items[i]) == items[i] {
        SeenNullFree(items[i]);
      }
      assert Seen(j).items == items;
    case _ =>
  }

  /** Without nulls inside arrays everything shows. */
  lemma {:induction false} AllSeen(j: Json)
    requires NullFreeArrays(j)
    ensures SeenDocument(j) == j
    decreases j
  {
    if j.Obj? {
      forall k | k in j.fields ensures SeenDocument(j.fields[k]) == j.fields[k] {
        AllSeen(j.fields[k]);
      }
      assert SeenDocument(j).fields == j.fields;
    } else if j.Arr? {
      SeenNullFree(j);
    }
  }

  lemma SeenIffEqual(a: Json, b: Json)
    requires NullFreeArrays(a) && NullFreeArrays(b)
    ensures SeenDocument(a) == SeenDocument(b) <==> a == b
  {
    AllSeen(a);
    AllSeen(b);
  }

  lemma SameLookups(m: map<string, Json>, n: map<string, Json>)
    requires forall k :: Lookup(m, k) == Lookup(n, k)
    ensures m == n
  {
    forall k ensures k in m <==> k in n {
      assert Lookup(m, k) == Lookup(n, k);
    }
    forall k | k in m ensures m[k] == n[k] {
      assert Lookup(m, k) == Lookup(n, k);
    }
  }

  // ---------- What a patch does ----------

  /** Nothing under the two that the builder could tell apart. */
  predicate Unchanged(l: Option<Json>, t: Option<Json>) {
    l.Some? == t.Some? && (l.Some? ==> SeenDocument(l.value) == SeenDocument(t.value))
  }

  /**
   One member after a patch that was computed from `local` to `target` but applied to `server`:
   what the builder cannot tell apart stays the server's, what the target lacks or nulls goes, and
   what it changes is merged into the server's member.
   */
  function MergedMember(server: Json, local: Json, target: Json, k: string): Option<Json>
    requires server.Obj? && local.Obj? && target.Obj?
  {
    var l, t := Lookup(local.fields, k), Lookup(target.fields, k);
    if Unchanged(l, t) then Lookup(server.fields, k)
    else if t.None? || t.value.Null? then None
    else if l.Some? && l.value.Obj? && t.value.Obj? then Some(Apply(At(server.fields, k), Diff(l.value, t.value)))
    else Some(Apply(At(server.fields, k), t.value))
  }

  lemma {:induction false} PatchedMember(server: Json, local: Json, target: Json, k: string)
    requires server.Obj? && local.Obj? && target.Obj?
    ensures Lookup(Apply(server, Diff(local, target)).fields, k) == MergedMember(server, local, target, k)
  {
    DiffMember(local, target, k);
    NoEntryIff(local, target, k);
  }

  /** What the patch from `a` to `b` has to find under a member of `b`, so that it arrives. */
  predicate ArrivesAt(a: Json, b: Json, k: string)
    requires a.Obj? && b.Obj? && k in b.fields
    decreases b, 0
  {
    var v := b.fields[k];
    if k !in a.fields then !v.Null? && NullFree(v)
    else
      var u := a.fields[k];
      if u.Obj? && v.Obj? then Arrives(u, v)
      else if Matches(u, v) then u == v
      else !v.Null? && (u.Obj? || NullFree(v))
  }

  /**
   Values that are new, or replace anything but an object, must not hold nulls, and arrays that
   the builder takes as unchanged must be so.
   */
  predicate Arrives(a: Json, b: Json)
    requires a.Obj? && b.Obj?
    decreases b, 1
  {
    forall k | k in b.fields :: ArrivesAt(a, b, k)
  }

  lemma {:induction false} EmptyPatchChangesNothing(a: Json)
    requires a.Obj?
    ensures Apply(a, Obj(map[])) == a
  {
    assert Apply(a, Obj(map[])).fields == a.fields;
  }

  lemma {:induction false} MemberArrivesIff(a: Json, b: Json, k: string)
    requires a.Obj? && b.Obj?
    ensures Lookup(Apply(a, Diff(a, b)).fields, k) == Lookup(b.fields, k)
            <==> (k in b.fields ==> ArrivesAt(a, b, k))
    decreases b, 0
  {
    DiffMember(a, b, k);
    if k in b.fields {
      var v := b.fields[k];
      PruneKeepsIff(v);
      if k in a.fields && a.fields[k].Obj? && v.Obj? {
        PatchReachesTargetIff(a.fields[k], v);
        EmptyPatchChangesNothing(a.fields[k]);
      }
    }
  }

  /** The patch between two documents turns the first into the second exactly when every member arrives. */
  lemma {:induction false} PatchReachesTargetIff(a: Json, b: Json)
    requires a.Obj? && b.Obj?
    ensures Apply(a, Diff(a, b)) == b <==> Arrives(a, b)
    decreases b, 1
  {
    var patched := Apply(a, Diff(a, b));
    forall k
      ensures Lookup(patched.fields, k) == Lookup(b.fields, k) <==> (k in b.fields ==> ArrivesAt(a, b, k))
    {
      if k in b.fields {
        MemberArrivesIff(a, b, k);
      } else {
        DiffMember(a, b, k);
      }
    }
    if Arrives(a, b) {
      SameLookups(patched.fields, b.fields);
    }
  }

  lemma {:induction false} NullFreeArrives(a: Json, b: Json)
    requires a.Obj? && b.Obj? && NullFreeArrays(a) && NullFree(b)
    ensures Arrives(a, b)
    decreases b
  {
    forall k | k in b.fields ensures ArrivesAt(a, b, k) {
      if k in a.fields {
        var u, v := a.fields[k], b.fields[k];
        if u.Obj? && v.Obj? {
          NullFreeArrives(u, v);
        } else if Matches(u, v) && u.Arr? {
          MatchesIff(u, v);
          SeenNullFree(u);
          SeenNullFree(v);
        }
      }
    }
  }

  // ---------- Numbers ----------

  /** The integers up to which a float64 holds every one. */
  const EXACT := 0x20_0000_0000_0000

  /** The nearest multiple of a unit, ties to even, for the smallest power of two that leaves 53 bits. */
  function Rounded(m: nat, unit: nat): (r: nat)
    requires unit > 0
    ensures unit == 1 && m <= EXACT ==> r == m
    decreases m - unit
  {
    if m > EXACT * unit then Rounded(m, 2 * unit)
    else
      var q, rest := m / unit, m % unit;
      if 2 * rest < unit || (2 * rest == unit && q % 2 == 0) then q * unit else (q + 1) * unit
  }

  /** What encoding/json reads a number as. */
  function Float64(n: int): (r: int)
    ensures -EXACT <= n <= EXACT ==> r == n
  {
    if n < 0 then 0 - Rounded(-n, 1) else Rounded(n, 1)
  }

  /** A document as the builder decodes it. */
  function Decoded(j: Json): Json {
    match j
    case Num(n) => Num(Float64(n))
    case Arr(items) => Arr(seq(|items|, i requires 0 <= i < |items| => Decoded(items[i])))
    case Obj(fields) => Obj(map k | k in fields :: Decoded(fields[k]))
    case _ => j
  }

  predicate Exact(j: Json) {
    match j
    case Num(n) => -EXACT <= n <= EXACT
    case Arr(items) => forall i | 0 <= i < |items| :: Exact(items[i])
    case Obj(fields) => forall k | k in fields :: Exact(fields[k])
    case _ => true
  }

  /** CreateMergePatch, for two texts that hold objects. */
  function CreatePatch(a: Json, b: Json): (patch: Json)
    requires a.Obj? && b.Obj?
    ensures patch.Obj?
  {
    Diff(Decoded(a), Decoded(b))
  }

  lemma {:induction false} ExactIsDecodedAsIs(j: Json)
    requires Exact(j)
    ensures Decoded(j) == j
    decreases j
  {
    match j
    case Obj(fields) =>
      forall k | k in fields ensures Decoded(fields[k]) == fields[k] {
        ExactIsDecodedAsIs(fields[k]);
      }
      assert Decoded(j).fields == fields;
    case Arr(items) =>
      forall i | 0 <= i < |items| ensures Decoded(items[i]) == items[i] {
        ExactIsDecodedAsIs(items[i]);
      }
      assert Decoded(j).items == items;
    case _ =>
  }

  // ---------- The law the storage relies on ----------

  /**
   The patch computed from a document turns that document into the modified one, if the modified
   one holds no null, the original none inside arrays, and no number is beyond float64's integers.
   */
  lemma PatchReachesTarget(a: Json, b: Json)
    requires a.Obj? && b.Obj? && Exact(a) && Exact(b) && NullFreeArrays(a) && NullFree(b)
    ensures Apply(a, CreatePatch(a, b)) == b
  {
    ExactIsDecodedAsIs(a);
    ExactIsDecodedAsIs(b);
    NullFreeArrives(a, b);
    PatchReachesTargetIff(a, b);
  }

  /** For such documents an empty patch means that nothing changed, so skipping the request is harmless. */
  lemma EmptyPatchMeansEqual(a: Json, b: Json)
    requires a.Obj? && b.Obj? && Exact(a) && Exact(b) && NullFreeArrays(a) && NullFreeArrays(b)
    ensures CreatePatch(a, b) == Obj(map[]) <==> a == b
  {
    ExactIsDecodedAsIs(a);
    ExactIsDecodedAsIs(b);
    EmptyPatchIff(a, b);
    SeenIffEqual(a, b);
  }

  lemma OneDecoded(k: string, u: Json)
    ensures Decoded(Obj(map[k := u])) == Obj(map[k := Decoded(u)])
  {
    assert Decoded(Obj(map[k := u])).fields == map[k := Decoded(u)];
  }

  lemma OneSeen(k: string, u: Json)
    requires !u.Obj?
    ensures SeenDocument(Obj(map[k := u])) == Obj(map[k := Seen(u)])
  {
    assert SeenDocument(Obj(map[k := u])).fields == map[k := Seen(u)];
  }

  /** The patch for a document with one member that is no object. */
  lemma OneMember(k: string, u: Json, v: Json)
    requires !u.Obj? && !v.Obj?
    ensures CreatePatch(Obj(map[k := u]), Obj(map[k := v])) == Obj(map[]) <==> Seen(Decoded(u)) == Seen(Decoded(v))
  {
    OneDecoded(k, u);
    OneDecoded(k, v);
    OneSeen(k, Decoded(u));
    OneSeen(k, Decoded(v));
    EmptyPatchIff(Obj(map[k := Decoded(u)]), Obj(map[k := Decoded(v)]));
    assert map[k := Seen(Decoded(u))][k] == Seen(Decoded(u));
  }

  /** Without the conditions neither holds. A null member inside an array is not seen to come or go. */
  lemma HiddenNullIsOverlooked()
    ensures var u, v := Arr([Obj(map["k" := Null])]), Arr([Obj(map[])]);
            && u != v && NullFree(v)
            && CreatePatch(Obj(map["x" := u]), Obj(map["x" := v])) == Obj(map[])
            && CreatePatch(Obj(map["x" := v]), Obj(map["x" := u])) == Obj(map[])
  {
    var u, v := Arr([Obj(map["k" := Null])]), Arr([Obj(map[])]);
    ExactIsDecodedAsIs(u);
    ExactIsDecodedAsIs(v);
    assert "k" in u.items[0].fields && "k" !in v.items[0].fields;
    assert Matches(u.items[0], v.items[0]);
    MatchesIff(u, v);
    OneMember("x", u, v);
    OneMember("x", v, u);
  }

  /** And a null inside a new array is not kept. */
  lemma NullInNewArrayIsLost()
    ensures var a, b := Obj(map[]), Obj(map["x" := Arr([Null])]); Apply(a, CreatePatch(a, b)) != b
  {
    var a, b := Obj(map[]), Obj(map["x" := Arr([Null])]);
    ExactIsDecodedAsIs(a);
    ExactIsDecodedAsIs(b);
    assert b.fields["x"].items[0].Null? && !ArrivesAt(a, b, "x");
    PatchReachesTargetIff(a, b);
  }

  /** Two numbers are the same to the builder exactly when they are read as one float64, as the last two are. */
  lemma NumbersLookEqualIff(k: string, m: int, n: int)
    ensures CreatePatch(Obj(map[k := Num(m)]), Obj(map[k := Num(n)])) == Obj(map[]) <==> Float64(m) == Float64(n)
    ensures Float64(9007199254740992) == Float64(9007199254740993)
  {
    OneMember(k, Num(m), Num(n));
    assert Seen(Decoded(Num(m))) == Num(Float64(m)) && Seen(Decoded(Num(n))) == Num(Float64(n));
  }

  // ---------- Members of known kinds ----------

  /** A member that did not change, or that is no object in the target and holds no null. */
  lemma {:induction false} PatchedPlainMember(server: Json, local: Json, target: Json, k: string)
    requires server.Obj? && local.Obj? && target.Obj?
    requires k !in target.fields
          || Lookup(local.fields, k) == Lookup(target.fields, k)
          || (!target.fields[k].Obj? && !target.fields[k].Null? && NullFree(target.fields[k])
              && (k in local.fields ==> NullFreeArrays(local.fields[k])))
    ensures Lookup(Apply(server, Diff(local, target)).fields, k)
         == if Lookup(local.fields, k) == Lookup(target.fields, k)
            then Lookup(server.fields, k)
            else Lookup(target.fields, k)
  {
    PatchedMember(server, local, target, k);
    if k in target.fields && Lookup(local.fields, k) != Lookup(target.fields, k) {
      NullFreeHasNullFreeArrays(target.fields[k]);
      PruneKeepsIff(target.fields[k]);
      if k in local.fields {
        SeenIffEqual(local.fields[k], target.fields[k]);
      }
    }
  }

  /** A nested object member is patched by the nested documents. */
  lemma {:induction false} PatchedNestedMember(server: Json, local: Json, target: Json, k: string)
    requires server.Obj? && local.Obj? && target.Obj?
    requires k in server.fields && k in local.fields && k in target.fields
    requires server.fields[k].Obj? && local.fields[k].Obj? && target.fields[k].Obj?
    ensures Lookup(Apply(server, Diff(local, target)).fields, k)
         == Some(Apply(server.fields[k], Diff(local.fields[k], target.fields[k])))
  {
    DiffMember(local, target, k);
    EmptyPatchChangesNothing(server.fields[k]);
  }
}
