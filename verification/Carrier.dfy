/** Building a carrier from rendered files, and again from the resources of a manifest (pkg/render/tree.go). */
module Carrier {
  import opened Common
  import opened Paths
  import opened TreeContents
  import opened ResourceTree
  import Manifest

  /** releaseutil.DefaultPathKey. */
  const PATH_KEY := "helm.sh/path"

  /** What a text says about metadata.annotations: it may not be a resource, not mention them, or null them. */
  datatype Doc = Malformed | Silent | Nulled | Given(annotations: map<string, string>)

  type Annotations = Option<map<string, string>>

  // ---------- The loop of CarrierForResources ----------

  /** Decoding into a variable that still holds the previous resource: what the text omits stays. */
  function DecodedInto(before: Annotations, d: Doc): Annotations {
    match d
    case Given(m) => Some((if before.Some? then before.value else map[]) + m)
    case Nulled => None
    case _ => before
  }

  function PathIn(annotations: Annotations): Result<string, Error> {
    if annotations.None? then Err(UnknownObject)
    else if PATH_KEY !in annotations.value || annotations.value[PATH_KEY] == "" then Err(UnknownPath)
    else Ok(annotations.value[PATH_KEY])
  }

  datatype Progress = Progress(annotations: Annotations, root: Option<string>, adds: seq<Add>)

  function Rebuilt(decode: string -> Doc, resources: seq<string>): Result<Progress, Error> {
    if resources == [] then
      Ok(Progress(None, None, []))
    else
      match Rebuilt(decode, resources[..|resources| - 1])
      case Err(e) => Err(e)
      case Ok(b) => RebuiltOneMore(decode, b, resources[|resources| - 1])
  }

  function RebuiltOneMore(decode: string -> Doc, b: Progress, resource: string): Result<Progress, Error> {
    if decode(resource).Malformed? then
      Err(Undecodable)
    else
      var annotations := DecodedInto(b.annotations, decode(resource));
      match PathIn(annotations)
      case Err(e) => Err(e)
      case Ok(path) =>
        var names := Split(path);
        if b.root.Some? && b.root.value != names[0] then Err(DiverseRoot)
        else Ok(Progress(annotations, Some(names[0]), b.adds + [Add(names[1..], [resource])]))
  }

  lemma {:induction false} FirstErrorStays(decode: string -> Doc, resources: seq<string>, i: nat)
    requires i <= |resources| && Rebuilt(decode, resources[..i]).Err?
    ensures Rebuilt(decode, resources) == Rebuilt(decode, resources[..i])
    decreases |resources| - i
  {
    if i == |resources| {
      assert resources[..i] == resources;
    } else {
      assert resources[..i + 1][..i] == resources[..i];
      FirstErrorStays(decode, resources, i + 1);
    }
  }

  ghost function Footprint(root: Option<Tree>): set<object>
    reads if root.Some? then {root.value} else {}
  {
    if root.Some? then {root.value as object} + (set n: object | n in root.value.nodes.Values) else {}
  }

  /** The tree so far, if any, holds what was added so far below a root. */
  ghost predicate Holding(tree: Option<Tree>, root: Option<string>, adds: seq<Add>)
    reads Footprint(tree)
  {
    if tree.None? then
      root.None? && adds == []
    else
      tree.value.Valid() && root == Some(tree.value.root.name) && tree.value.View() == Built(adds)
  }

  /** The part that both loops share: the first path makes the root. */
  method AddTo(root: Option<Tree>, names: seq<string>, resources: seq<string>, ghost adds: seq<Add>)
    returns (r: Result<Tree, Error>)
    requires Segments(names)
    requires Holding(root, if root.Some? then Some(root.value.root.name) else None, adds)
    modifies Footprint(root)
    ensures r == Err(DiverseRoot) || r.Ok?
    ensures r.Err? <==> root.Some? && root.value.root.name != names[0]
    ensures r.Ok? ==> Holding(Some(r.value), Some(names[0]), adds + [Add(names[1..], resources)])
    ensures r.Ok? ==> forall o | o in Footprint(Some(r.value)) :: fresh(o) || o in old(Footprint(root))
  {
    var tree;
    if root.None? {
      tree := new Tree(names[0]);
    } else {
      tree := root.value;
    }
    var err := tree.Add(names, resources);
    if err.Some? {
      return Err(err.value);
    }
    assert (adds + [Add(names[1..], resources)])[..|adds|] == adds;
    r := Ok(tree);
  }

  /** The body of the loop. */
  method CarryOneMore(decode: string -> Doc, root: Option<Tree>, res: Annotations, resource: string, ghost b: Progress)
    returns (r: Result<(Tree, Annotations), Error>)
    requires Holding(root, b.root, b.adds) && res == b.annotations
    modifies Footprint(root)
    ensures RebuiltOneMore(decode, b, resource).Err? ==> r == Err(RebuiltOneMore(decode, b, resource).error)
    ensures RebuiltOneMore(decode, b, resource).Ok? ==>
              var next := RebuiltOneMore(decode, b, resource).value;
              && r.Ok? && Holding(Some(r.value.0), next.root, next.adds) && r.value.1 == next.annotations
              && forall o | o in Footprint(Some(r.value.0)) :: fresh(o) || o in old(Footprint(root))
  {
    var doc := decode(resource);
    if doc.Malformed? {
      return Err(Undecodable);
    }
    var next := DecodedInto(res, doc);
    if PathIn(next).Err? {
      return Err(PathIn(next).error);
    }
    var tree := AddTo(root, Split(PathIn(next).value), [resource], b.adds);
    r := if tree.Ok? then Ok((tree.value, next)) else Err(tree.error);
  }

  method CarrierForResources(decode: string -> Doc, resources: seq<string>) returns (r: Result<Option<Tree>, Error>)
    ensures Rebuilt(decode, resources).Err? ==> r == Err(Rebuilt(decode, resources).error)
    ensures Rebuilt(decode, resources).Ok? ==> r.Ok? && (r.value.None? <==> resources == [])
    ensures r.Ok? ==> var b := Rebuilt(decode, resources).value; Holding(r.value, b.root, b.adds)
  {
    var root: Option<Tree> := None;
    var res: Annotations := None;
    for i := 0 to |resources|
      invariant Rebuilt(decode, resources[..i]).Ok? && (root.None? <==> i == 0)
      invariant var b := Rebuilt(decode, resources[..i]).value; Holding(root, b.root, b.adds)
      invariant res == Rebuilt(decode, resources[..i]).value.annotations
      invariant fresh(Footprint(root))
    {
      assert resources[..i + 1][..i] == resources[..i];
      var step := CarryOneMore(decode, root, res, resources[i], Rebuilt(decode, resources[..i]).value);
      if step.Err? {
        FirstErrorStays(decode, resources, i + 1);
        return Err(step.error);
      }
      root, res := Some(step.value.0), step.value.1;
    }
    assert resources[..|resources|] == resources;
    r := Ok(root);
  }

  // ---------- Which path a resource is filed under ----------

  /** The path that a resource names itself. */
  function OwnPath(d: Doc): Option<string> {
    if d.Given? then Lookup(d.annotations, PATH_KEY) else None
  }

  /** The path of the last resource that names one. */
  function NearestPath(decode: string -> Doc, resources: seq<string>): Option<string> {
    if resources == [] then
      None
    else
      var own := OwnPath(decode(resources[|resources| - 1]));
      if own.Some? then own else NearestPath(decode, resources[..|resources| - 1])
  }

  function RootOf(path: string): string {
    Split(path)[0]
  }

  /** What the rebuild accepts of one resource, given the first one. */
  ghost predicate Acceptable(first: Doc, d: Doc) {
    && !d.Malformed? && !d.Nulled? && OwnPath(first).Some?
    && (OwnPath(d).Some? ==> OwnPath(d).value != "" && RootOf(OwnPath(d).value) == RootOf(OwnPath(first).value))
  }

  ghost predicate AllAcceptable(decode: string -> Doc, resources: seq<string>) {
    forall i | 0 <= i < |resources| :: Acceptable(decode(resources[0]), decode(resources[i]))
  }

  /** Where a resource goes, if all goes well. */
  function FiledAt(decode: string -> Doc, resources: seq<string>, i: nat): Add
    requires i < |resources|
  {
    var path := NearestPath(decode, resources[..i + 1]);
    Add(if path.Some? then Split(path.value)[1..] else [], [resources[i]])
  }

  /** The state of the loop after some resources: each is filed, the last path and the root are remembered. */
  ghost predicate Filed(decode: string -> Doc, resources: seq<string>, b: Progress) {
    && |b.adds| == |resources|
    && (forall i | 0 <= i < |resources| :: b.adds[i] == FiledAt(decode, resources, i))
    && if resources == [] then b.root.None? && b.annotations.None?
       else
         && PathIn(b.annotations).Ok? && Some(PathIn(b.annotations).value) == NearestPath(decode, resources)
         && b.root == Some(RootOf(PathIn(b.annotations).value))
         && OwnPath(decode(resources[0])).Some? && b.root == Some(RootOf(OwnPath(decode(resources[0])).value))
  }

  lemma AddsOneMore(decode: string -> Doc, init: seq<string>, last: string, adds: seq<Add>, added: Add)
    requires |adds| == |init| && forall i | 0 <= i < |init| :: adds[i] == FiledAt(decode, init, i)
    requires added == FiledAt(decode, init + [last], |init|)
    ensures forall i | 0 <= i < |init + [last]| :: (adds + [added])[i] == FiledAt(decode, init + [last], i)
  {
    FiledTheSame(decode, init, last);
  }

  /** The path that the loop finds after one more resource is the nearest one. */
  lemma NearestOneMore(decode: string -> Doc, init: seq<string>, last: string, b: Progress)
    requires Filed(decode, init, b) && AllAcceptable(decode, init)
    ensures var all, r := init + [last], RebuiltOneMore(decode, b, last);
            && (r.Ok? <==> Acceptable(decode(all[0]), decode(last)))
            && (r.Ok? ==> PathIn(r.value.annotations).Ok?
                          && Some(PathIn(r.value.annotations).value) == NearestPath(decode, all))
  {
    var all := init + [last];
    assert all[..|all| - 1] == init && all[|init|] == last && (init != [] ==> all[0] == init[0]);
    assert init != [] ==> Acceptable(decode(init[0]), decode(init[0]));
  }

  lemma FiledOneMore(decode: string -> Doc, init: seq<string>, last: string, b: Progress)
    requires Filed(decode, init, b) && AllAcceptable(decode, init)
    ensures var all, r := init + [last], RebuiltOneMore(decode, b, last);
            && (r.Ok? <==> Acceptable(decode(all[0]), decode(last)))
            && (r.Ok? ==> Filed(decode, all, r.value))
  {
    NearestOneMore(decode, init, last, b);
    var all, r := init + [last], RebuiltOneMore(decode, b, last);
    assert all[|init|] == last && (init != [] ==> all[0] == init[0]);
    if r.Ok? {
      assert all[..|init| + 1] == all;
      AddsOneMore(decode, init, last, b.adds, FiledAt(decode, all, |init|));
    }
  }

  /**
   The rebuild succeeds exactly when every resource decodes without nulled annotations, the first
   one names a path, and every path named is non-empty and has the same root. A resource that
   names none is not refused: it is filed under the path of the nearest one before it that does.
   */
  lemma {:induction false} RebuildFilesUnderNearestPath(decode: string -> Doc, resources: seq<string>)
    ensures Rebuilt(decode, resources).Ok? <==> AllAcceptable(decode, resources)
    ensures Rebuilt(decode, resources).Ok? ==> Filed(decode, resources, Rebuilt(decode, resources).value)
  {
    if resources != [] {
      var init, last := resources[..|resources| - 1], resources[|resources| - 1];
      RebuildFilesUnderNearestPath(decode, init);
      AcceptableOneMore(decode, init, last);
      assert init + [last] == resources;
      if Rebuilt(decode, init).Ok? {
        FiledOneMore(decode, init, last, Rebuilt(decode, init).value);
      }
    }
  }

  lemma FiledTheSame(decode: string -> Doc, init: seq<string>, last: string)
    ensures forall i | 0 <= i < |init| :: FiledAt(decode, init + [last], i) == FiledAt(decode, init, i)
    ensures var all := init + [last]; all[..|init|] == init && all[..|init| + 1] == all
  {
    forall i | 0 <= i < |init| ensures FiledAt(decode, init + [last], i) == FiledAt(decode, init, i) {
      assert (init + [last])[..i + 1] == init[..i + 1];
    }
  }

  lemma AcceptableOneMore(decode: string -> Doc, init: seq<string>, last: string)
    ensures AllAcceptable(decode, init + [last]) <==>
              (AllAcceptable(decode, init)
               && Acceptable(decode(if init == [] then last else init[0]), decode(last)))
  {
    var all := init + [last];
    assert all[|init|] == last && forall i | 0 <= i < |init| :: all[i] == init[i];
  }

  // ---------- Resources that all name their paths ----------

  /** The resources that name a given path, in order. */
  function WithPath(decode: string -> Doc, resources: seq<string>, path: string): seq<string> {
    if resources == [] then
      []
    else
      var last := resources[|resources| - 1];
      WithPath(decode, resources[..|resources| - 1], path) + if OwnPath(decode(last)) == Some(path) then [last] else []
  }

  /** Every resource names a path below one root. */
  ghost predicate AllNamed(decode: string -> Doc, resources: seq<string>, root: string) {
    forall i | 0 <= i < |resources| :: NamedBelow(decode(resources[i]), root)
  }

  predicate NamedBelow(d: Doc, root: string) {
    OwnPath(d).Some? && OwnPath(d).value != "" && RootOf(OwnPath(d).value) == root
  }

  /** Then each resource is found exactly once, under its own path and no other, in the order of the manifest. */
  lemma {:induction false} NamedResourcesAreFiledOnce(decode: string -> Doc, resources: seq<string>, root: string)
    requires AllNamed(decode, resources, root)
    ensures Rebuilt(decode, resources).Ok?
    ensures var adds := Rebuilt(decode, resources).value.adds;
            && Everything(adds) == resources
            && forall p | Segments([root] + p) ::
                 ResourcesAt(Built(adds), p) == WithPath(decode, resources, Join([root] + p))
  {
    assert forall i | 0 <= i < |resources| :: NamedBelow(decode(resources[i]), root);
    RebuildFilesUnderNearestPath(decode, resources);
    var adds := Rebuilt(decode, resources).value.adds;
    EverythingIsFiled(decode, resources, adds);
    TreeHoldsWhatWasAdded(adds);
    forall p | Segments([root] + p) ensures AddedAt(adds, p) == WithPath(decode, resources, Join([root] + p)) {
      FiledUnderOwnPath(decode, resources, root, adds, p);
    }
  }

  /** The positions of a rebuilt tree are made of segments. */
  lemma {:induction false} PositionsAreSlashFree(decode: string -> Doc, resources: seq<string>, root: string)
    requires AllNamed(decode, resources, root) && SlashFree(root) && Rebuilt(decode, resources).Ok?
    ensures forall p | p in Built(Rebuilt(decode, resources).value.adds) :: Segments([root] + p)
  {
    RebuildFilesUnderNearestPath(decode, resources);
    var adds := Rebuilt(decode, resources).value.adds;
    TreeHoldsWhatWasAdded(adds);
    forall p | p in Built(adds) ensures Segments([root] + p) {
      if p != [] {
        var i :| 0 <= i < |adds| && IsPrefix(p, adds[i].position);
        FiledInSegments(decode, resources, i);
        assert forall n | n in p :: n in adds[i].position;
      }
    }
  }

  lemma FiledInSegments(decode: string -> Doc, resources: seq<string>, i: nat)
    requires i < |resources|
    ensures forall n | n in FiledAt(decode, resources, i).position :: SlashFree(n)
  {
    var path := NearestPath(decode, resources[..i + 1]);
    if path.Some? {
      assert forall n | n in Split(path.value)[1..] :: n in Split(path.value);
    }
  }

  lemma {:induction false} EverythingIsFiled(decode: string -> Doc, resources: seq<string>, adds: seq<Add>)
    requires |adds| == |resources| && forall i | 0 <= i < |adds| :: adds[i].resources == [resources[i]]
    ensures Everything(adds) == resources
  {
    if resources != [] {
      EverythingIsFiled(decode, resources[..|resources| - 1], adds[..|resources| - 1]);
    }
  }

  lemma {:induction false} FiledUnderOwnPath(decode: string -> Doc, resources: seq<string>, root: string,
                                             adds: seq<Add>, p: Position)
    requires AllNamed(decode, resources, root) && |adds| == |resources| && Segments([root] + p)
    requires forall i | 0 <= i < |resources| :: adds[i] == FiledAt(decode, resources, i)
    ensures AddedAt(adds, p) == WithPath(decode, resources, Join([root] + p))
  {
    if resources != [] {
      var n := |resources| - 1;
      var init, last := resources[..n], resources[n];
      assert init + [last] == resources;
      FiledTheSame(decode, init, last);
      FiledUnderOwnPath(decode, init, root, adds[..n], p);
      assert NamedBelow(decode(last), root) && adds[n] == FiledAt(decode, resources, n);
      PathIsPosition(OwnPath(decode(last)).value, root, p);
    }
  }

  /** Below one root, paths and positions are the same thing. */
  lemma PathIsPosition(path: string, root: string, p: Position)
    requires RootOf(path) == root && Segments([root] + p)
    ensures Join([root] + p) == path <==> p == Split(path)[1..]
  {
    SplitUndoesJoin([root] + p);
    JoinUndoesSplit(path);
    assert Split(path) == [root] + Split(path)[1..];
    assert ([root] + p)[1..] == p;
  }

  // ---------- From the tree to a manifest and back ----------

  /** The rendered resources of each node name its path. */
  ghost predicate Labelled(decode: string -> Doc, t: Contents, root: string) {
    forall p, r | p in t && r in t[p] :: Names(decode(r), root, p)
  }

  ghost predicate Names(d: Doc, root: string, p: Position) {
    Segments([root] + p) && OwnPath(d) == Some(Join([root] + p))
  }

  /**
   A rendered tree survives its manifest: merging the walked resources, splitting the manifest and
   rebuilding yields, under every path, the resources that were there, in the same order.
   */
  lemma {:induction false} ManifestRoundTrip(decode: string -> Doc, t: Contents, order: seq<Position>, root: string)
    requires Visits(order, t) && Labelled(decode, t, root) && root != ""
    requires Manifest.Clean(Gather(t, order))
    ensures var again := Manifest.ManifestResources(Manifest.MergeResources(Gather(t, order)));
            && Rebuilt(decode, again).Ok?
            && forall p | Segments([root] + p) ::
                 ResourcesAt(Built(Rebuilt(decode, again).value.adds), p) == ResourcesAt(t, p)
  {
    var resources := Gather(t, order);
    Manifest.CleanSurvives(resources);
    GatheredAreNamed(decode, t, order, root);
    NamedResourcesAreFiledOnce(decode, resources, root);
    forall p | Segments([root] + p) ensures WithPath(decode, resources, Join([root] + p)) == ResourcesAt(t, p) {
      LabelsSeparate(decode, t, root, p);
      WithPathOfGathered(decode, t, order, p, Join([root] + p));
    }
  }

  lemma {:induction false} GatheredAreNamed(decode: string -> Doc, t: Contents, order: seq<Position>, root: string)
    requires Labelled(decode, t, root) && root != ""
    ensures AllNamed(decode, Gather(t, order), root)
  {
    if order != [] {
      var n, p := |order| - 1, order[|order| - 1];
      GatheredAreNamed(decode, t, order[..n], root);
      forall r | r in ResourcesAt(t, p) ensures NamedBelow(decode(r), root) {
        assert Names(decode(r), root, p);
        SplitUndoesJoin([root] + p);
        JoinHead([root] + p);
      }
    }
  }

  lemma {:induction false} WithPathConcat(decode: string -> Doc, a: seq<string>, b: seq<string>, path: string)
    ensures WithPath(decode, a + b, path) == WithPath(decode, a, path) + WithPath(decode, b, path)
  {
    if b == [] {
      assert a + b == a;
    } else {
      assert (a + b)[..|a + b| - 1] == a + b[..|b| - 1];
      WithPathConcat(decode, a, b[..|b| - 1], path);
    }
  }

  lemma {:induction false} WithPathOfNode(decode: string -> Doc, rs: seq<string>, own: string, path: string)
    requires forall r | r in rs :: OwnPath(decode(r)) == Some(own)
    ensures WithPath(decode, rs, path) == if own == path then rs else []
  {
    if rs != [] {
      WithPathOfNode(decode, rs[..|rs| - 1], own, path);
      assert rs[|rs| - 1] in rs;
    }
  }

  /** Each node contributes its resources to its own path alone. */
  ghost predicate Separates(decode: string -> Doc, t: Contents, p: Position, path: string) {
    forall q :: WithPath(decode, ResourcesAt(t, q), path) == if q == p then ResourcesAt(t, q) else []
  }

  lemma {:induction false} WithPathOfGathered(decode: string -> Doc, t: Contents, order: seq<Position>,
                                              p: Position, path: string)
    requires Separates(decode, t, p, path) && Distinct(order)
    ensures WithPath(decode, Gather(t, order), path) == if p in order then ResourcesAt(t, p) else []
  {
    if order != [] {
      var front, q := order[..|order| - 1], order[|order| - 1];
      NotBefore(order);
      WithPathOfGathered(decode, t, front, p, path);
      WithPathConcat(decode, Gather(t, front), ResourcesAt(t, q), path);
    }
  }

  lemma NotBefore<T>(s: seq<T>)
    requires s != [] && Distinct(s)
    ensures Distinct(s[..|s| - 1]) && s[|s| - 1] !in s[..|s| - 1]
    ensures forall x :: x in s <==> x in s[..|s| - 1] || x == s[|s| - 1]
  {
    assert s == s[..|s| - 1] + [s[|s| - 1]];
  }

  lemma {:induction false} LabelsSeparate(decode: string -> Doc, t: Contents, root: string, p: Position)
    requires Labelled(decode, t, root) && Segments([root] + p)
    ensures Separates(decode, t, p, Join([root] + p))
  {
    var path := Join([root] + p);
    SplitUndoesJoin([root] + p);
    assert ([root] + p)[1..] == p;
    forall q ensures WithPath(decode, ResourcesAt(t, q), path) == if q == p then ResourcesAt(t, q) else [] {
      if ResourcesAt(t, q) != [] {
        assert t[q][0] in t[q] && Names(decode(t[q][0]), root, q);
        SplitUndoesJoin([root] + q);
        assert ([root] + q)[1..] == q;
        WithPathOfNode(decode, ResourcesAt(t, q), Join([root] + q), path);
      }
    }
  }

  // ---------- Carriers of rendered files ----------

  /** Every file leads to a path, and all paths have one root. */
  ghost predicate OneChart(files: set<string>) {
    && (forall f | f in files :: LogicPath(f).Some?)
    && forall f, g | f in files && g in files :: LogicPath(f).value[0] == LogicPath(g).value[0]
  }

  function AddOf(file: string, resources: seq<string>): Add
    requires LogicPath(file).Some?
  {
    Add(LogicPath(file).value[1..], resources)
  }

  /** Files that lead to one root, each once. */
  ghost predicate Ordered(order: seq<string>, files: map<string, seq<string>>, root: string) {
    && Distinct(order)
    && forall f | f in order :: f in files && LogicPath(f).Some? && LogicPath(f).value[0] == root
  }

  function AddsOf(order: seq<string>, files: map<string, seq<string>>): seq<Add>
    requires forall f | f in order :: f in files && LogicPath(f).Some?
  {
    if order == [] then
      []
    else
      var f := order[|order| - 1];
      AddsOf(order[..|order| - 1], files) + [AddOf(f, files[f])]
  }

  lemma OrderedOneMore(order: seq<string>, files: map<string, seq<string>>, root: string, file: string)
    requires Ordered(order, files, root) && file !in order && file in files
    requires LogicPath(file).Some? && LogicPath(file).value[0] == root
    ensures Ordered(order + [file], files, root)
    ensures AddsOf(order + [file], files) == AddsOf(order, files) + [AddOf(file, files[file])]
  {
    assert (order + [file])[..|order|] == order;
  }

  /** Whether the tree is the one built from some files in some order. */
  ghost predicate BuiltFrom(tree: Tree, files: map<string, seq<string>>, order: seq<string>)
    reads Footprint(Some(tree))
  {
    Ordered(order, files, tree.root.name) && Holding(Some(tree), Some(tree.root.name), AddsOf(order, files))
  }

  method TreeCarrierFor(files: map<string, seq<string>>)
    returns (r: Result<Option<Tree>, Error>, ghost order: seq<string>)
    ensures r.Ok? <==> OneChart(files.Keys)
    ensures r.Ok? ==> (r.value.None? <==> files == map[]) && forall f :: f in order <==> f in files
    ensures r.Ok? && r.value.Some? ==> BuiltFrom(r.value.value, files, order)
  {
    order := [];
    var root: Option<Tree> := None;
    var rest := files.Keys;
    while rest != {}
      invariant rest <= files.Keys && forall f :: f in order <==> f in files.Keys - rest
      invariant root.None? <==> order == []
      invariant root.Some? ==> BuiltFrom(root.value, files, order)
      invariant fresh(Footprint(root))
      decreases rest
    {
      var file :| file in rest;
      rest := rest - {file};
      var step := FileOneMore(root, files, file, order);
      if step.Err? {
        return Err(step.error), order;
      }
      root, order := Some(step.value), order + [file];
    }
    r := Ok(root);
  }

  /** The body of the loop. */
  method FileOneMore(root: Option<Tree>, files: map<string, seq<string>>, file: string, ghost order: seq<string>)
    returns (r: Result<Tree, Error>)
    requires file in files && file !in order && (root.None? <==> order == [])
    requires root.Some? ==> BuiltFrom(root.value, files, order)
    modifies Footprint(root)
    ensures r.Err? ==> !OneChart(files.Keys)
    ensures r.Ok? ==> BuiltFrom(r.value, files, order + [file])
    ensures r.Ok? ==> forall o | o in Footprint(Some(r.value)) :: fresh(o) || o in old(Footprint(root))
  {
    var paths := LogicPathForFile(file);
    if paths.None? {
      return Err(BadFile);
    }
    r := AddTo(root, paths.value, files[file], AddsOf(order, files));
    if r.Ok? {
      OrderedOneMore(order, files, paths.value[0], file);
    } else {
      assert order[0] in order;
    }
  }
}
