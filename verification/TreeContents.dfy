/** What a tree of charts holds, as a map from positions to resources, and how it is built and walked. */
module TreeContents {
  import opened Common

  /** Where a node is, below the root: [] is the root itself. */
  type Position = seq<string>

  /** What a tree holds: the resources of every node. */
  type Contents = map<Position, seq<string>>

  // ---------- What adding does ----------

  function Child(p: Position, c: string): Position {
    p + [c]
  }

  predicate IsChild(q: Position, p: Position) {
    |q| == |p| + 1 && q[..|p|] == p
  }

  predicate IsPrefix(p: Position, q: Position) {
    |p| <= |q| && p == q[..|p|]
  }

  function PrefixesOf(p: Position): set<Position> {
    set i | 0 <= i <= |p| :: p[..i]
  }

  function ResourcesAt(t: Contents, p: Position): seq<string> {
    if p in t then t[p] else []
  }

  /** Nodes on the way appear empty; the last one gets the resources at its end. */
  function Added(t: Contents, p: Position, rs: seq<string>): Contents {
    map q | q in t.Keys + PrefixesOf(p) :: ResourcesAt(t, q) + if q == p then rs else []
  }

  ghost predicate PrefixClosed(all: set<Position>) {
    && [] in all
    && forall p, c | Child(p, c) in all :: p in all
  }

  lemma ChildIsInjective()
    ensures forall p, c, q, d :: Child(p, c) == Child(q, d) ==> p == q && c == d
  {
    forall p, c, q, d | Child(p, c) == Child(q, d) ensures p == q && c == d {
      assert Child(p, c)[..|p|] == p && Child(q, d)[..|q|] == q;
      assert Child(p, c)[|p|] == c && Child(q, d)[|q|] == d;
    }
  }

  lemma NewLeaf(all: set<Position>, p: Position, name: string)
    requires PrefixClosed(all) && p in all && Child(p, name) !in all
    ensures PrefixClosed(all + {Child(p, name)})
    ensures forall c :: Child(Child(p, name), c) !in all
  {
    ChildIsInjective();
  }

  lemma AddedNothing(t: Contents, p: Position)
    requires PrefixClosed(t.Keys) && p in t
    ensures Added(t, p, []) == t
  {
    PrefixesIn(t.Keys, p);
    assert t.Keys + PrefixesOf(p) == t.Keys;
    forall q | q in t ensures Added(t, p, [])[q] == t[q] {
      assert ResourcesAt(t, q) + [] == t[q];
    }
  }

  lemma {:induction false} PrefixesIn(all: set<Position>, p: Position)
    requires PrefixClosed(all) && p in all
    ensures forall i | 0 <= i <= |p| :: p[..i] in all
    ensures PrefixesOf(p) <= all
  {
    assert p[..|p|] == p;
    if |p| > 0 {
      var up := p[..|p| - 1];
      assert p == Child(up, p[|p| - 1]);
      PrefixesIn(all, up);
      assert forall i | 0 <= i <= |up| :: p[..i] == up[..i];
    }
  }

  lemma PrefixesOfChild(p: Position, name: string)
    ensures PrefixesOf(Child(p, name)) == PrefixesOf(p) + {Child(p, name)}
  {
    var q := Child(p, name);
    assert q[..|q|] == q;
    assert forall i | 0 <= i <= |p| :: q[..i] == p[..i];
  }

  lemma AddedChild(t: Contents, p: Position, name: string)
    requires PrefixClosed(t.Keys) && p in t && Child(p, name) !in t
    ensures Added(t, Child(p, name), []) == t[Child(p, name) := []]
  {
    var q := Child(p, name);
    PrefixesIn(t.Keys, p);
    PrefixesOfChild(p, name);
    forall r ensures r in t.Keys + PrefixesOf(q) <==> r in t || r == q {
    }
    assert q !in t && ResourcesAt(t, q) + [] == [];
    forall r | r in t ensures Added(t, q, [])[r] == t[r] {
      assert t[r] + [] == t[r];
    }
    SameMaps(Added(t, q, []), t[q := []]);
  }

  /** Making one node more on the way to a position. */
  lemma AddedTwice(t: Contents, p: Position, name: string)
    requires PrefixClosed(t.Keys)
    ensures Added(Added(t, p, []), Child(p, name), []) == Added(t, Child(p, name), [])
  {
    PrefixesOfChild(p, name);
    var once := Added(t, p, []);
    forall q ensures ResourcesAt(once, q) == ResourcesAt(t, q) {
      assert ResourcesAt(t, q) + [] == ResourcesAt(t, q);
    }
    SameMaps(Added(once, Child(p, name), []), Added(t, Child(p, name), []));
  }

  /** What looking up the next node on the way, or making it, comes to. */
  lemma AddedNext(t: Contents, p: Position, name: string)
    requires PrefixClosed(t.Keys)
    ensures var view, q := Added(t, p, []), Child(p, name);
            Added(t, q, []) == if q in view then view else view[q := []]
  {
    var view, q := Added(t, p, []), Child(p, name);
    AddedStaysClosed(t, p);
    AddedTwice(t, p, name);
    if q in view {
      AddedNothing(view, q);
    } else {
      AddedChild(view, p, name);
    }
  }

  lemma AddedStaysClosed(t: Contents, p: Position)
    requires PrefixClosed(t.Keys)
    ensures PrefixClosed(Added(t, p, []).Keys) && p in Added(t, p, [])
  {
    assert p == p[..|p|] && p in PrefixesOf(p);
    forall q, c | Child(q, c) in Added(t, p, []) ensures q in Added(t, p, []) {
      if Child(q, c) !in t {
        assert q == Child(q, c)[..|q|] == p[..|q|];
      }
    }
  }

  lemma AddedLast(t: Contents, p: Position, rs: seq<string>)
    ensures p in Added(t, p, []) && Added(t, p, rs) == Added(t, p, [])[p := Added(t, p, [])[p] + rs]
  {
    assert p[..|p|] == p && p in PrefixesOf(p);
    assert forall q :: ResourcesAt(t, q) + [] == ResourcesAt(t, q);
  }

  // ---------- Walks ----------

  /** Every node once. */
  ghost predicate Visits(order: seq<Position>, t: Contents) {
    Distinct(order) && forall p :: p in order <==> p in t
  }

  ghost predicate BreadthFirst(order: seq<Position>) {
    forall i, j | 0 <= i < j < |order| :: |order[i]| <= |order[j]|
  }

  /** The resources of the nodes, in an order of the nodes. */
  function Gather(t: Contents, order: seq<Position>): seq<string> {
    if order == [] then [] else Gather(t, order[..|order| - 1]) + ResourcesAt(t, order[|order| - 1])
  }

  /** The resources come from a breadth-first walk in this order. */
  ghost predicate IsWalk(t: Contents, order: seq<Position>, resources: seq<string>) {
    Visits(order, t) && BreadthFirst(order) && resources == Gather(t, order)
  }

  lemma GatherOneMore(t: Contents, order: seq<Position>, p: Position)
    ensures Gather(t, order + [p]) == Gather(t, order) + ResourcesAt(t, p)
  {
    assert (order + [p])[..|order|] == order;
  }

  /** The first of the nodes seen are done, the others wait; a node is seen exactly when its parent is done. */
  ghost predicate Frontier(seen: seq<Position>, done: nat, all: set<Position>)
    requires done <= |seen|
  {
    && Distinct(seen) && BreadthFirst(seen)
    && [] in seen && (forall p | p in seen :: p in all)
    && (done < |seen| ==> |seen[|seen| - 1]| <= |seen[done]| + 1)
    && ParentsDone(seen, seen[..done], all)
  }

  ghost predicate ParentsDone(seen: seq<Position>, done: seq<Position>, all: set<Position>) {
    forall p, c | Child(p, c) in all :: Child(p, c) in seen <==> p in done
  }

  /** The positions right below another. */
  ghost predicate AreKids(kids: seq<Position>, p: Position, all: set<Position>) {
    && (forall q | q in kids :: q in all && IsChild(q, p))
    && forall r, c | Child(r, c) in all :: Child(r, c) in kids <==> r == p
  }

  function Children(p: Position, names: seq<string>): seq<Position> {
    seq(|names|, i requires 0 <= i < |names| => Child(p, names[i]))
  }

  lemma ChildrenAreKids(p: Position, names: seq<string>, all: set<Position>)
    requires Distinct(names) && forall c :: c in names <==> Child(p, c) in all
    ensures AreKids(Children(p, names), p, all) && Distinct(Children(p, names))
  {
    ChildIsInjective();
    var kids := Children(p, names);
    forall c | c in names ensures Child(p, c) in kids {
      var i :| 0 <= i < |names| && names[i] == c;
      assert kids[i] == Child(p, c);
    }
  }

  /** The next node is done and its children are seen. */
  lemma FrontierMoves(seen: seq<Position>, done: nat, all: set<Position>, kids: seq<Position>)
    requires done < |seen| && Frontier(seen, done, all) && Distinct(kids) && AreKids(kids, seen[done], all)
    ensures Frontier(seen + kids, done + 1, all) && done < |all|
  {
    DistinctFits(seen, all);
    assert (seen + kids)[..done + 1] == seen[..done] + [seen[done]];
    ParentsDoneMoves(seen, done, all, kids);
    forall q | q in kids ensures q !in seen {
      KidsAreNew(seen, done, all, q);
    }
    assert forall j | 0 <= j < |kids| :: kids[j] in kids;
    assert forall i | 0 <= i < |seen| :: seen[i] in seen;
  }

  lemma KidsAreNew(seen: seq<Position>, done: nat, all: set<Position>, q: Position)
    requires done < |seen| && Distinct(seen) && ParentsDone(seen, seen[..done], all)
    requires q in all && IsChild(q, seen[done])
    ensures q !in seen
  {
    assert q == Child(seen[done], q[|q| - 1]);
    assert seen[done] !in seen[..done];
  }

  lemma ParentsDoneMoves(seen: seq<Position>, done: nat, all: set<Position>, kids: seq<Position>)
    requires done < |seen| && ParentsDone(seen, seen[..done], all)
    requires forall p, c | Child(p, c) in all :: Child(p, c) in kids <==> p == seen[done]
    ensures ParentsDone(seen + kids, seen[..done] + [seen[done]], all)
  {
    assert forall p :: p in seen[..done] + [seen[done]] <==> p in seen[..done] || p == seen[done];
    assert forall q :: q in seen + kids <==> q in seen || q in kids;
  }

  /** The state of the walk: what is gathered from the nodes that are done. */
  ghost predicate Walked(t: Contents, seen: seq<Position>, done: nat, resources: seq<string>) {
    done <= |seen| && Frontier(seen, done, t.Keys) && resources == Gather(t, seen[..done])
  }

  lemma WalkMoves(t: Contents, seen: seq<Position>, done: nat, resources: seq<string>, kids: seq<Position>)
    requires Walked(t, seen, done, resources) && done < |seen|
    requires Distinct(kids) && AreKids(kids, seen[done], t.Keys)
    ensures done < |t| && Walked(t, seen + kids, done + 1, resources + ResourcesAt(t, seen[done]))
  {
    FrontierMoves(seen, done, t.Keys, kids);
    GatherOneMore(t, seen[..done], seen[done]);
    assert (seen + kids)[..done + 1] == seen[..done] + [seen[done]];
  }

  lemma WalkStarts(t: Contents)
    requires PrefixClosed(t.Keys)
    ensures Walked(t, [[]], 0, [])
  {
  }

  lemma {:induction false} WalkEnds(t: Contents, seen: seq<Position>, resources: seq<string>)
    requires PrefixClosed(t.Keys) && Walked(t, seen, |seen|, resources)
    ensures IsWalk(t, seen, resources)
  {
    assert seen[..|seen|] == seen;
    AllVisited(seen, t.Keys);
  }

  lemma {:induction false} DistinctFits<T>(s: seq<T>, all: set<T>)
    requires Distinct(s) && forall x | x in s :: x in all
    ensures |s| <= |all|
  {
    if s != [] {
      var last := s[|s| - 1];
      DistinctFits(s[..|s| - 1], all - {last});
    }
  }

  lemma AllVisited(done: seq<Position>, all: set<Position>)
    requires Frontier(done, |done|, all) && PrefixClosed(all)
    ensures forall p :: p in done <==> p in all
  {
    forall p | p in all ensures p in done {
      Visited(done, all, p);
    }
  }

  lemma {:induction false} Visited(done: seq<Position>, all: set<Position>, p: Position)
    requires Frontier(done, |done|, all) && PrefixClosed(all) && p in all
    ensures p in done
    decreases |p|
  {
    assert done[..|done|] == done;
    if p != [] {
      assert p == Child(p[..|p| - 1], p[|p| - 1]);
      Visited(done, all, p[..|p| - 1]);
    }
  }

  // ---------- Histories of adds ----------

  /** One successful add. */
  datatype Add = Add(position: Position, resources: seq<string>)

  /** What a fresh tree holds after some adds. */
  function Built(adds: seq<Add>): Contents {
    if adds == [] then
      map[[] := []]
    else
      var last := adds[|adds| - 1];
      Added(Built(adds[..|adds| - 1]), last.position, last.resources)
  }

  /** What was added at one position, in the order of the adds. */
  function AddedAt(adds: seq<Add>, p: Position): seq<string> {
    if adds == [] then
      []
    else
      var last := adds[|adds| - 1];
      AddedAt(adds[..|adds| - 1], p) + if last.position == p then last.resources else []
  }

  function Everything(adds: seq<Add>): seq<string> {
    if adds == [] then [] else Everything(adds[..|adds| - 1]) + adds[|adds| - 1].resources
  }

  ghost predicate OnTheWay(adds: seq<Add>, p: Position) {
    p == [] || exists i | 0 <= i < |adds| :: IsPrefix(p, adds[i].position)
  }

  /**
   The tree is a map from positions to resources: its nodes are the root and what lies on the way
   to an add, and each holds exactly what was added there, in order; no add shows anywhere else.
   */
  lemma {:induction false} TreeHoldsWhatWasAdded(adds: seq<Add>)
    ensures forall p :: p in Built(adds) <==> OnTheWay(adds, p)
    ensures forall p :: ResourcesAt(Built(adds), p) == AddedAt(adds, p)
    ensures PrefixClosed(Built(adds).Keys)
  {
    NodesOfTree(adds);
    forall p ensures ResourcesAt(Built(adds), p) == AddedAt(adds, p) {
      HoldsAt(adds, p);
    }
  }

  ghost predicate NodesAreOnTheWay(adds: seq<Add>) {
    (forall p :: p in Built(adds) <==> OnTheWay(adds, p)) && PrefixClosed(Built(adds).Keys)
  }

  lemma {:induction false} NodesOfTree(adds: seq<Add>)
    ensures NodesAreOnTheWay(adds)
  {
    if adds == [] {
      assert forall p :: OnTheWay(adds, p) <==> p == [];
    } else {
      var init, last := adds[..|adds| - 1], adds[|adds| - 1];
      NodesOfTree(init);
      assert init + [last] == adds;
      NodesOneMore(init, last);
    }
  }

  lemma {:induction false} HoldsAt(adds: seq<Add>, p: Position)
    ensures ResourcesAt(Built(adds), p) == AddedAt(adds, p)
  {
    if adds != [] {
      var init, last := adds[..|adds| - 1], adds[|adds| - 1];
      HoldsAt(init, p);
      assert last.position == last.position[..|last.position|];
      assert last.position in PrefixesOf(last.position);
    }
  }

  lemma {:induction false} NodesOneMore(init: seq<Add>, last: Add)
    requires NodesAreOnTheWay(init)
    ensures NodesAreOnTheWay(init + [last])
  {
    var adds := init + [last];
    assert adds[..|init|] == init && adds[|init|] == last;
    forall p ensures p in Built(adds) <==> OnTheWay(adds, p) {
      OnTheWayOneMore(init, last, p);
    }
    forall p, c | Child(p, c) in Built(adds) ensures p in Built(adds) {
      if Child(p, c) !in Built(init) {
        assert p == Child(p, c)[..|p|] == last.position[..|p|];
      }
    }
  }

  lemma OnTheWayOneMore(init: seq<Add>, last: Add, p: Position)
    ensures OnTheWay(init + [last], p) <==> OnTheWay(init, p) || p in PrefixesOf(last.position)
  {
    var adds := init + [last];
    assert adds[|init|] == last;
    if OnTheWay(init, p) && p != [] {
      var i :| 0 <= i < |init| && IsPrefix(p, init[i].position);
      assert adds[i] == init[i];
    }
    assert p == [] ==> p == last.position[..0];
  }

  /** Any walk that visits every node once finds everything that was added, as often as it was added. */
  lemma {:induction false} WalkFindsEverything(adds: seq<Add>, order: seq<Position>)
    requires Visits(order, Built(adds))
    ensures multiset(Gather(Built(adds), order)) == multiset(Everything(adds))
  {
    TreeHoldsWhatWasAdded(adds);
    GatherIsCollect(adds, Built(adds), order);
    forall i | 0 <= i < |adds| ensures adds[i].position in order {
      assert IsPrefix(adds[i].position, adds[i].position);
      assert OnTheWay(adds, adds[i].position);
    }
    CollectFindsEverything(adds, order);
  }

  function Collect(adds: seq<Add>, order: seq<Position>): seq<string> {
    if order == [] then [] else Collect(adds, order[..|order| - 1]) + AddedAt(adds, order[|order| - 1])
  }

  lemma {:induction false} GatherIsCollect(adds: seq<Add>, t: Contents, order: seq<Position>)
    requires forall p :: ResourcesAt(t, p) == AddedAt(adds, p)
    ensures Gather(t, order) == Collect(adds, order)
  {
    if order != [] {
      GatherIsCollect(adds, t, order[..|order| - 1]);
    }
  }

  lemma {:induction false} CollectFindsEverything(adds: seq<Add>, order: seq<Position>)
    requires Distinct(order) && forall i | 0 <= i < |adds| :: adds[i].position in order
    ensures multiset(Collect(adds, order)) == multiset(Everything(adds))
  {
    if adds == [] {
      CollectNothing(order);
    } else {
      var init, last := adds[..|adds| - 1], adds[|adds| - 1];
      CollectFindsEverything(init, order);
      CollectOneMore(init, last, order);
      assert init + [last] == adds;
    }
  }

  lemma {:induction false} CollectNothing(order: seq<Position>)
    ensures Collect([], order) == []
  {
    if order != [] {
      CollectNothing(order[..|order| - 1]);
    }
  }

  lemma {:induction false} CollectOneMore(init: seq<Add>, last: Add, order: seq<Position>)
    requires Distinct(order)
    ensures multiset(Collect(init + [last], order)) ==
            multiset(Collect(init, order)) + if last.position in order then multiset(last.resources) else multiset{}
  {
    assert (init + [last])[..|init|] == init;
    if order != [] {
      var front, p := order[..|order| - 1], order[|order| - 1];
      CollectOneMore(init, last, front);
      assert front + [p] == order;
      assert p !in front;
    }
  }
}
