/** Release histories: ownership, construction, and the choice of the next version. */
module Histories {
  import opened Common
  import opened ReleaseDoc

  const MAX_INT32 := 0x7fff_ffff
  const MIN_INT32 := -0x8000_0000

  const API_VERSION := "release.caicloud.io/v1alpha1"

  datatype OwnerRef = OwnerRef(apiVersion: string, kind: string, name: string, uid: string)

  datatype HistorySpec = HistorySpec(
    description: string, version: Int32, template: string, config: string, manifest: string)

  /** `selector` is the value of the release-name label that listings select on. */
  datatype History = History(selector: string, owners: seq<OwnerRef>, spec: HistorySpec)

  /** What a version stands for: the inputs of rendering that a history preserves. */
  datatype Content = Content(config: string, template: string)

  function SpecContent(s: Spec): Content {
    Content(s.config, s.template)
  }

  function HistoryContent(h: History): Content {
    Content(h.spec.config, h.spec.template)
  }

  /** The reference that marks objects as belonging to a release. */
  function ReleaseRef(name: string, uid: string): OwnerRef {
    OwnerRef(API_VERSION, "Release", name, uid)
  }

  /** Ownership: the release is the one and only owner. */
  predicate Own(h: History, name: string, uid: string) {
    |h.owners| == 1 && h.owners[0] == ReleaseRef(name, uid)
  }

  /**
   The histories of a release among the objects of its namespace. The key v stands for the
   object name that is generated for version v; HistoryNames shows that to be one-to-one.
   */
  function Owned(store: map<Int32, History>, name: string, uid: string): map<Int32, History> {
    map v | v in store && Own(store[v], name, uid) :: store[v]
  }

  function Construct(rel: Release, version: Int32): History {
    History(rel.name, [ReleaseRef(rel.name, rel.uid)],
      HistorySpec(rel.spec.description, version, rel.spec.template, rel.spec.config, rel.status.manifest))
  }

  lemma Maximum(vs: set<int>) returns (m: int)
    requires vs != {}
    ensures m in vs && forall w | w in vs :: w <= m
  {
    var v := Inhabitant(vs);
    var rest := vs - {v};
    m := v;
    if rest != {} {
      var n := Maximum(rest);
      m := if n < v then v else n;
    }
    forall w | w in vs ensures w <= m {
      assert w == v || w in rest;
    }
  }

  /** The biggest version that has a history. */
  ghost function Latest(owned: map<Int32, History>): (latest: Int32)
    requires owned != map[]
    ensures latest in owned && forall v | v in owned :: v <= latest
  {
    HasMaximum(owned);
    var v :| v in owned && forall w | w in owned :: w <= v;
    v
  }

  lemma HasMaximum(owned: map<Int32, History>)
    requires owned != map[]
    ensures exists v :: v in owned && forall w | w in owned :: w <= v
  {
    assert owned.Keys != {} by {
      if owned.Keys == {} {
        SameMaps(owned, map[]);
      }
    }
    var m := Maximum(owned.Keys);
    assert m in owned && forall w | w in owned :: w <= m;
  }

  /** int32 increment. */
  function Succ(version: Int32): Int32 {
    if version == MAX_INT32 then MIN_INT32 else version + 1
  }

  /** The history an apply compares the release with: that of the recorded version, else the latest. */
  ghost function Current(owned: map<Int32, History>, recorded: int): (v: Int32)
    requires owned != map[]
    ensures v in owned
  {
    if recorded in owned then recorded else Latest(owned)
  }

  /** The version an apply chooses. */
  ghost function Planned(owned: map<Int32, History>, recorded: int, content: Content): Int32 {
    if owned == map[] then 1
    else if HistoryContent(owned[Current(owned, recorded)]) == content then Current(owned, recorded)
    else Succ(Latest(owned))
  }

  /**
   A planned version either has a history with exactly the content to be applied, or is new.
   This is what makes version numbers trustworthy; it fails only where int32 wraps around.
   */
  lemma PlannedIsSameOrNew(owned: map<Int32, History>, recorded: int, content: Content)
    requires owned != map[] ==> Latest(owned) != MAX_INT32
    ensures var v := Planned(owned, recorded, content);
            if v in owned then HistoryContent(owned[v]) == content else forall w | w in owned :: w < v
  {
  }

  /**
   Which version an unchanged release keeps. If its recorded version has a history with the content
   to be applied, that one. If the latest history has the content, the latest is chosen exactly when
   the recorded version has no history or is the latest itself: a recorded history with another
   content makes a new version.
   */
  lemma UnchangedIsKept(owned: map<Int32, History>, recorded: int, content: Content)
    ensures recorded in owned && recorded > 0 ==>
              (Planned(owned, recorded, content) == recorded <==> HistoryContent(owned[recorded]) == content)
    ensures owned != map[] && HistoryContent(owned[Latest(owned)]) == content ==>
              (Planned(owned, recorded, content) == Latest(owned)
               <==> recorded !in owned || recorded == Latest(owned))
  {
  }

  /**
   When an apply asks for a version above all others, short of the int32 limit: when there is no
   history, when the recorded version has one with another content, or when it has none and the
   latest history has another content. The new version is then the next number.
   */
  lemma NewVersionIff(owned: map<Int32, History>, recorded: int, content: Content)
    requires owned != map[] ==> Latest(owned) != MAX_INT32
    ensures var v := Planned(owned, recorded, content);
            && (owned == map[] ==> v == 1)
            && (owned != map[] ==>
                  (v !in owned <==> if recorded in owned then HistoryContent(owned[recorded]) != content
                                    else HistoryContent(owned[Latest(owned)]) != content)
                  && (v !in owned ==> v == Latest(owned) + 1))
  {
  }

  /** At the int32 limit a changed release gets a version below every existing one. */
  lemma PlannedWraps(owned: map<Int32, History>, recorded: int, content: Content)
    requires owned != map[] && (forall v | v in owned :: 0 < v <= MAX_INT32)
    requires HistoryContent(owned[Current(owned, recorded)]) != content
    ensures Planned(owned, recorded, content) > Latest(owned) <==> Latest(owned) != MAX_INT32
    ensures Latest(owned) == MAX_INT32 ==> Planned(owned, recorded, content) < 0
  {
  }
}
