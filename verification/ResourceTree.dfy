/** The tree of charts and their resources (pkg/render/tree.go). */
module ResourceTree {
  import opened Common
  import opened Paths
  import opened TreeContents

  datatype Error = Undecodable | UnknownObject | UnknownPath | EmptyPath | DiverseRoot | NoNode | BadFile

  class Node {
    const name: string
    const path: string
    var resources: seq<string>
    var children: map<string, Node>
    /** Where in the tree the node was made. */
    ghost const position: Position

    /** newNode, given the segments of its path. */
    constructor (segments: seq<string>)
      requires Segments(segments)
      ensures path == Join(segments) && name == segments[|segments| - 1]
      ensures resources == [] && children == map[] && position == segments[1..]
    {
      var names := Split(Join(segments));
      SplitUndoesJoin(segments);
      name := names[|names| - 1];
      path := Join(segments);
      resources := [];
      children := map[];
      position := segments[1..];
    }

    /** Ranging over the children map, in an order of its own. */
    method Range() returns (kids: seq<Node>, ghost names: seq<string>)
      ensures |kids| == |names| && Distinct(names) && forall c :: c in names <==> c in children
      ensures forall i | 0 <= i < |names| :: kids[i] == children[names[i]]
    {
      kids, names := [], [];
      var rest := children.Keys;
      while rest != {}
        invariant |kids| == |names| && Distinct(names) && rest <= children.Keys
        invariant forall c :: c in names <==> c in children.Keys - rest
        invariant forall i | 0 <= i < |names| :: names[i] in children && kids[i] == children[names[i]]
        decreases rest
      {
        var c :| c in rest;
        assert c !in names && forall i | 0 <= i < |names| :: names[i] in names;
        kids, names, rest := kids + [children[c]], names + [c], rest - {c};
      }
    }
  }

  /** A root with the registry of all its nodes. */
  class Tree {
    const root: Node
    ghost var nodes: map<Position, Node>

    ghost predicate Valid()
      reads this, nodes.Values
    {
      && PrefixClosed(nodes.Keys) && nodes[[]] == root
      && (forall p | p in nodes :: Placed(nodes[p], p) && Linked(p))
    }

    ghost predicate Placed(n: Node, p: Position) {
      n.position == p && Segments([root.name] + p) && n.path == Join([root.name] + p)
    }

    /** The children map of a node has exactly the nodes one segment further. */
    ghost predicate Linked(p: Position)
      requires p in nodes
      reads this, nodes[p]
    {
      && (forall c | c in nodes[p].children :: Child(p, c) in nodes && nodes[Child(p, c)] == nodes[p].children[c])
      && (forall c | Child(p, c) in nodes :: c in nodes[p].children)
    }

    ghost function View(): Contents
      reads this, nodes.Values
    {
      map p | p in nodes :: nodes[p].resources
    }

    constructor (rootName: string)
      requires SlashFree(rootName)
      ensures Valid() && root.name == rootName && fresh(root) && nodes == map[[] := root]
      ensures View() == map[[] := []]
    {
      root := new Node([rootName]);
      nodes := map[[] := root];
      new;
      assert [root.name] + [] == [rootName];
    }

    /** A new node hung under its parent. */
    method NewChild(parent: Node, segments: seq<string>) returns (next: Node)
      requires Valid() && |segments| > 1 && Segments(segments) && segments[0] == root.name
      requires Holds(segments[1..|segments| - 1], parent) && segments[|segments| - 1] !in parent.children
      modifies this, parent
      ensures Valid() && fresh(next) && nodes == old(nodes)[segments[1..] := next]
      ensures next.resources == [] && forall r | r in old(nodes) :: nodes[r].resources == old(nodes[r].resources)
    {
      ghost var p, q := segments[1..|segments| - 1], segments[1..];
      var name := segments[|segments| - 1];
      assert q == Child(p, name) && segments == [root.name] + q;
      next := new Node(segments);
      HangUp(parent, p, name, next);
    }

    method HangUp(parent: Node, ghost p: Position, name: string, next: Node)
      requires Valid() && Holds(p, parent) && name !in parent.children
      requires next !in nodes.Values && next.resources == [] && next.children == map[] && Placed(next, Child(p, name))
      modifies this, parent
      ensures Valid() && nodes == old(nodes)[Child(p, name) := next]
      ensures next.resources == [] && forall r | r in old(nodes) :: nodes[r].resources == old(nodes[r].resources)
    {
      ghost var q := Child(p, name);
      NewLeaf(nodes.Keys, p, name);
      parent.children := parent.children[name := next];
      nodes := nodes[q := next];
      assert forall r, c :: Child(r, c) == q ==> r == p && c == name by { ChildIsInjective(); }
      assert Linked(q);
      assert Linked(p);
    }

    ghost predicate Holds(p: Position, n: Node)
      reads this
    {
      p in nodes && nodes[p] == n
    }

    /** One turn of the loop in add: the child is looked up, or made. */
    method Descend(parent: Node, paths: seq<string>, i: nat, ghost before: Contents) returns (next: Node)
      requires Valid() && 0 < i < |paths| && Segments(paths) && paths[0] == root.name
      requires Holds(paths[1..i], parent)
      requires PrefixClosed(before.Keys) && View() == Added(before, paths[1..i], [])
      modifies this, parent
      ensures Valid() && Holds(paths[1..i + 1], next)
      ensures nodes == old(nodes) || (fresh(next) && nodes == old(nodes)[paths[1..i + 1] := next])
      ensures forall p | p in nodes :: fresh(nodes[p]) || (p in old(nodes) && nodes[p] == old(nodes[p]))
      ensures View() == Added(before, paths[1..i + 1], [])
    {
      ghost var p, view := paths[1..i], View();
      assert paths[1..i + 1] == Child(p, paths[i]);
      AddedNext(before, p, paths[i]);
      if paths[i] in parent.children {
        next := parent.children[paths[i]];
      } else {
        assert paths[..i + 1][1..i] == p && paths[..i + 1][1..] == Child(p, paths[i]);
        next := NewChild(parent, paths[..i + 1]);
        SameMaps(View(), view[Child(p, paths[i]) := []]);
      }
    }

    /** The error, if any; only a success changes the tree. */
    method Add(paths: seq<string>, resources: seq<string>) returns (r: Option<Error>)
      requires Valid() && forall n | n in paths :: SlashFree(n)
      modifies this, nodes.Values
      ensures Valid() && forall p | p in nodes :: fresh(nodes[p]) || (p in old(nodes) && nodes[p] == old(nodes[p]))
      ensures r == if paths == [] then Some(EmptyPath) else if paths[0] != root.name then Some(DiverseRoot) else None
      ensures View() == if r.Some? then old(View()) else Added(old(View()), paths[1..], resources)
    {
      if |paths| <= 0 {
        return Some(EmptyPath);
      }
      if root.name != paths[0] {
        return Some(DiverseRoot);
      }
      ghost var before := View();
      var parent := Reach(paths);
      AppendTo(parent, paths[1..], resources);
      AddedLast(before, paths[1..], resources);
      r := None;
    }

    /** The loop in add. */
    method Reach(paths: seq<string>) returns (parent: Node)
      requires Valid() && Segments(paths) && paths[0] == root.name
      modifies this, nodes.Values
      ensures Valid() && Holds(paths[1..], parent)
      ensures forall p | p in nodes :: fresh(nodes[p]) || (p in old(nodes) && nodes[p] == old(nodes[p]))
      ensures View() == Added(old(View()), paths[1..], [])
    {
      ghost var before := View();
      AddedNothing(before, []);
      assert paths[1..1] == [];
      parent := root;
      for i := 1 to |paths|
        invariant Valid() && Holds(paths[1..i], parent)
        invariant forall p | p in nodes :: fresh(nodes[p]) || (p in old(nodes) && nodes[p] == old(nodes[p]))
        invariant View() == Added(before, paths[1..i], [])
      {
        parent := Descend(parent, paths, i, before);
      }
      assert paths[1..|paths|] == paths[1..];
    }

    method AppendTo(n: Node, ghost p: Position, more: seq<string>)
      requires Valid() && Holds(p, n)
      modifies n
      ensures Valid() && View() == old(View())[p := old(n.resources) + more]
    {
      ghost var view := View();
      n.resources := n.resources + more;
      forall q | q in nodes && q != p ensures nodes[q].resources == view[q] {
        assert nodes[q].position == q && n.position == p;
      }
      SameMaps(View(), view[p := n.resources]);
    }

    /** find: a path of one segment is the root, whatever its name. */
    method Find(paths: seq<string>) returns (r: Result<Node, Error>)
      requires Valid()
      ensures r.Ok? <==> paths != [] && paths[1..] in nodes
      ensures r.Ok? ==> r.value == nodes[paths[1..]]
      ensures r.Err? ==> r.error == if paths == [] then EmptyPath else NoNode
    {
      if |paths| <= 0 {
        return Err(EmptyPath);
      }
      assert paths[1..1] == [];
      if |paths| == 1 {
        assert paths[1..] == [];
        return Ok(root);
      }
      var parent := root;
      for i := 1 to |paths|
        invariant Holds(paths[1..i], parent)
      {
        assert paths[1..i + 1] == Child(paths[1..i], paths[i]);
        if paths[i] !in parent.children {
          assert paths[1..][..i] == paths[1..i + 1];
          Unreachable(paths[1..], i);
          return Err(NoNode);
        }
        parent := parent.children[paths[i]];
      }
      assert paths[1..|paths|] == paths[1..];
      return Ok(parent);
    }

    lemma Unreachable(p: Position, i: nat)
      requires Valid() && 0 < i <= |p| && p[..i] !in nodes
      ensures p !in nodes
    {
      if p in nodes {
        PrefixesIn(nodes.Keys, p);
      }
    }

    method ResourcesOf(target: string) returns (r: Result<seq<string>, Error>)
      requires Valid()
      ensures r == var p := Split(target)[1..]; if p in View() then Ok(View()[p]) else Err(NoNode)
    {
      var node := Find(Split(target));
      return match node case Ok(n) => Ok(n.resources) case Err(e) => Err(e);
    }

    ghost predicate AllHold(at: seq<Position>, ns: seq<Node>)
      reads this
    {
      |at| == |ns| && forall i | 0 <= i < |at| :: Holds(at[i], ns[i])
    }

    method ChildrenOf(n: Node, ghost p: Position) returns (kids: seq<Node>, ghost at: seq<Position>)
      requires Valid() && Holds(p, n)
      ensures Valid() && View() == old(View())
      ensures AllHold(at, kids) && Distinct(at) && AreKids(at, p, nodes.Keys)
    {
      ghost var names;
      kids, names := n.Range();
      at := Children(p, names);
      ChildrenAreKids(p, names, nodes.Keys);
    }

    /** One turn of the loop in walkthrough; the queue holds the nodes that are seen but not done. */
    method Visit(queue: seq<Node>, resources: seq<string>, ghost order: seq<Position>, ghost done: nat)
      returns (next: seq<Node>, more: seq<string>, ghost seen: seq<Position>)
      requires Valid() && Walked(View(), order, done, resources) && AllHold(order[done..], queue) && queue != []
      ensures Valid() && View() == old(View())
      ensures done < |View()| && Walked(View(), seen, done + 1, more) && AllHold(seen[done + 1..], next)
    {
      ghost var t := View();
      assert Holds(order[done..][0], queue[0]);
      var kids;
      ghost var at;
      kids, at := ChildrenOf(queue[0], order[done]);
      WalkMoves(t, order, done, resources, at);
      HoldMoves(queue, kids, order, done, at);
      more, next, seen := resources + queue[0].resources, queue[1..] + kids, order + at;
    }

    lemma HoldMoves(queue: seq<Node>, kids: seq<Node>, order: seq<Position>, done: nat, at: seq<Position>)
      requires done < |order| && AllHold(order[done..], queue) && AllHold(at, kids)
      ensures AllHold((order + at)[done + 1..], queue[1..] + kids)
    {
      assert (order + at)[done + 1..] == order[done..][1..] + at;
    }

    method Start() returns (queue: seq<Node>, resources: seq<string>, ghost order: seq<Position>)
      requires Valid()
      ensures Valid() && View() == old(View())
      ensures Walked(View(), order, 0, resources) && AllHold(order[0..], queue)
    {
      WalkStarts(View());
      queue, resources, order := [root], [], [[]];
    }

    /** The walk of Resources: breadth first from the root. */
    method Resources() returns (resources: seq<string>)
      requires Valid()
      ensures exists order :: IsWalk(View(), order, resources)
    {
      ghost var t := View();
      var queue;
      ghost var order;
      ghost var done := 0;
      queue, resources, order := Start();
      while |queue| > 0
        invariant Valid() && View() == t
        invariant Walked(t, order, done, resources) && AllHold(order[done..], queue)
        decreases |t| - done
      {
        queue, resources, order := Visit(queue, resources, order, done);
        done := done + 1;
      }
      assert done == |order|;
      WalkEnds(t, order, resources);
    }
  }
}
