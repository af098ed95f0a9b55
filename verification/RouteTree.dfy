/** The route tree: nodes whose children are extended in place, proved to answer every search as
    the flat list of registered routes does. */
module RouteTree {
  import opened Bytes
  import opened RouteList

  // ----- the children a list of paths gives each node -----

  /** The distinct next segments after `p`, in the order first registered. */
  function ChildNames(paths: seq<Path>, p: Path): seq<Segment> {
    if paths == [] then []
    else
      var before := ChildNames(paths[..|paths| - 1], p);
      var path := paths[|paths| - 1];
      if p < path && path[|p|] !in before then before + [path[|p|]] else before
  }

  function FirstWildName(names: seq<Segment>): Option<Segment> {
    if names == [] then None else if Wild(names[0]) then Some(names[0]) else FirstWildName(names[1..])
  }

  lemma ReachedSnoc(paths: seq<Path>, path: Path, p: Path)
    ensures Reached(paths + [path], p) <==> Reached(paths, p) || p <= path
  {
    if Reached(paths, p) {
      var other :| other in paths && p <= other;
      assert other in paths + [path];
    }
    assert path in paths + [path];
  }

  lemma {:induction false} ChildNamesAre(paths: seq<Path>, p: Path, name: Segment)
    ensures name in ChildNames(paths, p) <==> Reached(paths, p + [name])
  {
    if paths != [] {
      var before, last := paths[..|paths| - 1], paths[|paths| - 1];
      ChildNamesAre(before, p, name);
      assert paths == before + [last];
      ReachedSnoc(before, last, p + [name]);
      assert p + [name] <= last <==> p < last && last[|p|] == name;
    }
  }

  /** One more path changes the children of no node but the one it parts from the others at. */
  lemma ChildNamesSnoc(paths: seq<Path>, path: Path, p: Path)
    ensures ChildNames(paths + [path], p)
         == if p < path && path[|p|] !in ChildNames(paths, p) then ChildNames(paths, p) + [path[|p|]]
            else ChildNames(paths, p)
  {}

  lemma {:induction false} FirstWildNameSnoc(names: seq<Segment>, name: Segment)
    ensures FirstWildName(names + [name])
         == if FirstWildName(names).Some? then FirstWildName(names) else if Wild(name) then Some(name) else None
  {
    if names == [] {
      assert (names + [name])[1..] == [];
    } else {
      assert (names + [name])[1..] == names[1..] + [name];
      FirstWildNameSnoc(names[1..], name);
    }
  }

  lemma {:induction false} FirstWildSnoc(paths: seq<Path>, path: Path, p: Path)
    ensures FirstWild(paths + [path], p)
         == if FirstWild(paths, p).Some? then FirstWild(paths, p)
            else if p < path && Wild(path[|p|]) then Some(path[|p|]) else None
  {
    if paths == [] {
      assert (paths + [path])[1..] == [];
    } else {
      assert (paths + [path])[1..] == paths[1..] + [path];
      FirstWildSnoc(paths[1..], path, p);
    }
  }

  lemma {:induction false} FirstWildNameAt(names: seq<Segment>, i: nat)
    requires i <= |names| && forall j :: 0 <= j < i ==> !Wild(names[j])
    ensures FirstWildName(names) == FirstWildName(names[i..])
  {
    if i > 0 {
      FirstWildNameAt(names[1..], i - 1);
      assert names[1..][i - 1..] == names[i..];
    } else {
      assert names[0..] == names;
    }
  }

  /** The first wildcard child is the first wildcard registered. */
  lemma {:induction false} FirstWildChild(paths: seq<Path>, p: Path)
    ensures FirstWildName(ChildNames(paths, p)) == FirstWild(paths, p)
  {
    if paths != [] {
      var before, last := paths[..|paths| - 1], paths[|paths| - 1];
      assert paths == before + [last];
      FirstWildChild(before, p);
      FirstWildSnoc(before, last, p);
      if p < last {
        FirstWildNameSnoc(ChildNames(before, p), last[|p|]);
        if Wild(last[|p|]) && last[|p|] in ChildNames(before, p) {
          WildNameFound(ChildNames(before, p), last[|p|]);
        }
      }
    }
  }

  lemma {:induction false} WildNameFound(names: seq<Segment>, name: Segment)
    requires name in names && Wild(name)
    ensures FirstWildName(names).Some?
  {
    if names[0] != name {
      assert name in names[1..];
      WildNameFound(names[1..], name);
    }
  }

  lemma {:induction false} PayloadOfSnoc(routes: seq<Route>, route: Route, p: Path)
    ensures PayloadOf(routes + [route], p) == if route.path == p then route.payload else PayloadOf(routes, p)
  {}

  lemma PathsSnoc(routes: seq<Route>, route: Route)
    ensures Paths(routes + [route]) == Paths(routes) + [route.path]
  {}

  lemma ReachedShorter(paths: seq<Path>, p: Path, name: Segment)
    ensures Reached(paths, p + [name]) ==> Reached(paths, p)
  {}

  lemma NoChildNames(paths: seq<Path>, p: Path)
    ensures !Reached(paths, p) ==> ChildNames(paths, p) == []
  {
    var names := ChildNames(paths, p);
    if names != [] {
      ChildNamesAre(paths, p, names[0]);
      ReachedShorter(paths, p, names[0]);
    }
  }

  /** What one more segment on the last path changes. */
  lemma LongerPath(paths: seq<Path>, q: Path, c: Segment, p: Path)
    ensures var before, after := paths + [q], paths + [q + [c]];
            && ChildNames(after, p) == (if p == q && c !in ChildNames(before, p) then ChildNames(before, p) + [c]
                                        else ChildNames(before, p))
            && (Reached(after, p) <==> Reached(before, p) || p == q + [c])
  {
    ChildNamesSnoc(paths, q, p);
    ChildNamesSnoc(paths, q + [c], p);
    ReachedSnoc(paths, q, p);
    ReachedSnoc(paths, q + [c], p);
    if p < q {
      assert (q + [c])[|p|] == q[|p|];
    }
    assert p <= q + [c] <==> p <= q || p == q + [c];
  }

  // ----- the tree -----

  ghost function NamesOf(children: seq<Node>): (r: seq<Segment>)
    ensures |r| == |children| && forall i :: 0 <= i < |r| ==> r[i] == children[i].name
  {
    seq(|children|, i requires 0 <= i < |children| => children[i].name)
  }

  class Node {
    const name: Segment
    var payload: Option<Handler>
    var children: seq<Node>

    /** create_node */
    constructor (name: Segment)
      ensures this.name == name && payload == None && children == []
    {
      this.name := name;
      payload := None;
      children := [];
    }

    ghost function Names(): seq<Segment>
      reads `children
    {
      NamesOf(children)
    }

    /** find_child */
    method FindChild(name: Segment) returns (child: Node?)
      ensures child == null ==> name !in Names()
      ensures child != null ==> child in children && child.name == name
    {
      for i := 0 to |children|
        invariant name !in Names()[..i]
      {
        if children[i].name == name {
          return children[i];
        }
        assert Names()[..i + 1] == Names()[..i] + [children[i].name];
      }
      assert Names()[..|children|] == Names();
      return null;
    }

    /** The loop of search_node over the children. */
    method FindWild() returns (child: Node?)
      ensures match FirstWildName(Names())
              case None => child == null
              case Some(name) => child != null && child in children && child.name == name
    {
      for i := 0 to |children|
        invariant forall j :: 0 <= j < i ==> !Wild(children[j].name)
      {
        if Wild(children[i].name) {
          FirstWildNameAt(Names(), i);
          return children[i];
        }
      }
      FirstWildNameAt(Names(), |children|);
      return null;
    }

    /** add_child */
    method AddChild(child: Node)
      modifies `children
      ensures children == old(children) + [child]
    {
      children := children + [child];
    }
  }

  /** A tree as a value: the node at the end of each path, and its children. */
  datatype Links = Links(nodes: map<Path, Node>, children: map<Path, seq<Node>>)

  ghost predicate Follows(links: Links, p: Path)
    requires p in links.children
  {
    forall child :: child in links.children[p] ==>
        p + [child.name] in links.nodes && links.nodes[p + [child.name]] == child
  }

  /** The nodes are linked as `paths` says, each under its own name. */
  ghost predicate Linked(links: Links, paths: seq<Path>) {
    && [] in links.nodes && links.children.Keys == links.nodes.Keys
    && (forall p, q :: p in links.nodes && q in links.nodes && links.nodes[p] == links.nodes[q] ==> p == q)
    && (forall p :: p in links.nodes ==> p == [] || Reached(paths, p))
    && (forall p :: p in links.nodes ==> NamesOf(links.children[p]) == ChildNames(paths, p))
    && (forall p :: p in links.nodes ==> Follows(links, p))
  }

  /** The links with `child` added under `q`. */
  function Grown(links: Links, q: Path, child: Node): Links
    requires q in links.children
  {
    Links(links.nodes[q + [child.name] := child],
          links.children[q := links.children[q] + [child]][q + [child.name] := []])
  }

  lemma GrownFollows(links: Links, paths: seq<Path>, q: Path, child: Node)
    requires Linked(links, paths) && q in links.nodes && q + [child.name] !in links.nodes
    ensures forall p :: p in Grown(links, q, child).nodes ==> Follows(Grown(links, q, child), p)
  {}

  lemma GrownNames(links: Links, paths: seq<Path>, q: Path, child: Node)
    requires Linked(links, paths + [q]) && q in links.nodes && child.name !in NamesOf(links.children[q])
    ensures q + [child.name] !in links.nodes
    ensures var after := Grown(links, q, child);
            forall p :: p in after.nodes ==>
              && NamesOf(after.children[p]) == ChildNames(paths + [q + [child.name]], p)
              && (p == [] || Reached(paths + [q + [child.name]], p))
  {
    hide ChildNames, Reached, Follows;
    var after := Grown(links, q, child);
    ChildNamesAre(paths + [q], q, child.name);
    forall p | p in after.nodes
      ensures NamesOf(after.children[p]) == ChildNames(paths + [q + [child.name]], p)
      ensures p == [] || Reached(paths + [q + [child.name]], p)
    {
      LongerPath(paths, q, child.name, p);
      NoChildNames(paths + [q], p);
    }
  }

  lemma GrownLinked(links: Links, paths: seq<Path>, q: Path, child: Node)
    requires Linked(links, paths + [q]) && q in links.nodes && child.name !in NamesOf(links.children[q])
    requires child !in links.nodes.Values
    ensures q + [child.name] !in links.nodes
    ensures Linked(Grown(links, q, child), paths + [q + [child.name]])
  {
    hide ChildNames, Reached, Follows, NamesOf;
    GrownNames(links, paths, q, child);
    GrownFollows(links, paths + [q], q, child);
  }

  /** With the child already there, one more segment changes nothing. */
  lemma DeeperLinked(links: Links, paths: seq<Path>, q: Path, name: Segment)
    requires Linked(links, paths + [q]) && q in links.nodes && name in NamesOf(links.children[q])
    ensures Linked(links, paths + [q + [name]])
  {
    hide ChildNames, Reached, Follows;
    forall p | p in links.nodes
      ensures NamesOf(links.children[p]) == ChildNames(paths + [q + [name]], p)
      ensures p == [] || Reached(paths + [q + [name]], p)
    {
      LongerPath(paths, q, name, p);
    }
  }

  /** A path with no segments links nothing. */
  lemma RootLinked(links: Links, paths: seq<Path>)
    requires Linked(links, paths)
    ensures Linked(links, paths + [[]])
  {
    hide ChildNames, Reached, Follows;
    forall p ensures ChildNames(paths + [[]], p) == ChildNames(paths, p)
        && (Reached(paths, p) ==> Reached(paths + [[]], p)) {
      ChildNamesSnoc(paths, [], p);
      ReachedSnoc(paths, [], p);
    }
  }

  lemma OnePath(links: Links, paths: seq<Path>, p: Path, q: Path)
    requires Linked(links, paths) && p in links.nodes && q in links.nodes && links.nodes[p] == links.nodes[q]
    ensures p == q
  {}

  lemma OnwardIs(links: Links, paths: seq<Path>, p: Path, segment: Segment)
    requires Linked(links, paths) && p in links.nodes
    ensures Onward(paths, p, segment)
         == if segment in NamesOf(links.children[p]) then Some(segment) else FirstWildName(NamesOf(links.children[p]))
  {
    hide Follows;
    ChildNamesAre(paths, p, segment);
    FirstWildChild(paths, p);
  }

  lemma ChildAt(links: Links, paths: seq<Path>, p: Path, child: Node)
    requires Linked(links, paths) && p in links.nodes && child in links.children[p]
    ensures p + [child.name] in links.nodes && links.nodes[p + [child.name]] == child
  {}

  class Tree {
    const root: Node
    /** What has been registered, in order. */
    ghost var routes: seq<Route>
    /** The node at the end of each path in the tree. */
    ghost var nodes: map<Path, Node>
    ghost var Repr: set<object>

    ghost function View(): Links
      reads this, nodes.Values
    {
      Links(nodes, map p | p in nodes :: nodes[p].children)
    }

    ghost predicate Carries(routes: seq<Route>)
      reads this, nodes.Values
    {
      forall p :: p in nodes ==> nodes[p].payload == PayloadOf(routes, p)
    }

    ghost predicate Valid()
      reads this, Repr
    {
      && Repr == {this} + nodes.Values
      && [] in nodes && nodes[[]] == root && Linked(View(), Paths(routes)) && Carries(routes)
    }

    /** init_tree */
    constructor ()
      ensures Valid() && routes == []
      ensures fresh(Repr)
    {
      root := new Node("");
      routes := [];
      new;
      nodes := map[[] := root];
      Repr := {this, root};
      assert nodes[[]] == root && nodes.Values == {root};
    }

    /** search_node, on the tokens of the path */
    method SearchNode(segments: Path) returns (payload: Option<Handler>)
      requires Valid()
      ensures payload == Find(routes, segments)
    {
      hide ChildNames, PayloadOf, FirstWild, Onward, FirstWildName, Linked, Paths, NamesOf, Reached;
      var parent := root;
      ghost var p: Path := [];
      assert segments[0..] == segments;
      for i := 0 to |segments|
        invariant p in nodes && nodes[p] == parent
        invariant Find(routes, segments) == Walk(routes, p, segments[i..])
      {
        OnwardIs(View(), Paths(routes), p, segments[i]);
        assert segments[i..][1..] == segments[i + 1..];
        var child := parent.FindChild(segments[i]);
        if child == null {
          child := parent.FindWild();
        }
        if child == null {
          return None;
        }
        ChildAt(View(), Paths(routes), p, child);
        p := p + [child.name];
        parent := child;
      }
      return parent.payload;
    }

    /** create_node and add_child, for a name the parent has no child of. */
    method Grow(parent: Node, name: Segment, ghost q: Path) returns (child: Node)
      requires Linked(View(), Paths(routes) + [q]) && Carries(routes)
      requires q in nodes && nodes[q] == parent && name !in parent.Names()
      modifies this`nodes, parent`children
      ensures fresh(child) && child.name == name && nodes == old(nodes)[q + [name] := child]
      ensures Linked(View(), Paths(routes) + [q + [name]]) && Carries(routes)
    {
      hide ChildNames, PayloadOf, Reached, Follows, NamesOf, Paths;
      ghost var before := View();
      child := new Node(name);
      GrownLinked(before, Paths(routes), q, child);
      NewPath(before, q, name);
      parent.AddChild(child);
      nodes := nodes[q + [name] := child];
      assert View() == Grown(before, q, child);
    }

    lemma NewPath(links: Links, q: Path, name: Segment)
      requires Linked(links, Paths(routes) + [q]) && q in links.nodes && name !in NamesOf(links.children[q])
      ensures PayloadOf(routes, q + [name]) == None
    {
      hide PayloadOf;
      var paths := Paths(routes);
      ChildNamesAre(paths + [q], q, name);
      ReachedSnoc(paths, q, q + [name]);
      if PayloadOf(routes, q + [name]).Some? {
        PayloadRegistered(routes, q + [name]);
      }
    }

    /** add_node, on the tokens of the path */
    method AddNode(segments: Path, payload: Option<Handler>)
      requires Valid()
      modifies Repr
      ensures Valid() && routes == old(routes) + [Route(segments, payload)]
      ensures fresh(Repr - old(Repr))
    {
      hide ChildNames, PayloadOf, Reached, Follows, NamesOf, Paths, Linked, Carries;
      var parent := root;
      RootLinked(View(), Paths(routes));
      assert segments[..0] == [];
      for i := 0 to |segments|
        invariant routes == old(routes) && segments[..i] in nodes && nodes[segments[..i]] == parent
        invariant Linked(View(), Paths(routes) + [segments[..i]]) && Carries(routes)
        invariant [] in nodes && nodes[[]] == root
        invariant fresh(nodes.Values - old(nodes.Values))
      {
        var child := parent.FindChild(segments[i]);
        if child == null {
          child := Grow(parent, segments[i], segments[..i]);
        } else {
          DeeperLinked(View(), Paths(routes), segments[..i], segments[i]);
          ChildAt(View(), Paths(routes) + [segments[..i]], segments[..i], child);
        }
        assert segments[..i] + [segments[i]] == segments[..i + 1];
        parent := child;
      }
      assert segments[..|segments|] == segments;
      SetPayload(parent, segments, payload);
    }

    /** The last assignment of add_node. */
    method SetPayload(node: Node, ghost p: Path, payload: Option<Handler>)
      requires p in nodes && nodes[p] == node && [] in nodes && nodes[[]] == root
      requires Linked(View(), Paths(routes) + [p]) && Carries(routes)
      modifies this`routes, this`Repr, node`payload
      ensures Valid() && nodes == old(nodes) && routes == old(routes) + [Route(p, payload)]
    {
      hide ChildNames, PayloadOf, Reached, Follows, NamesOf, Paths, Linked;
      ghost var before := View();
      ghost var route := Route(p, payload);
      PathsSnoc(routes, route);
      forall q | q in nodes ensures PayloadOf(routes + [route], q) == if q == p then payload else PayloadOf(routes, q) {
        PayloadOfSnoc(routes, route, q);
      }
      forall q | q in nodes && nodes[q] == node ensures q == p {
        OnePath(before, Paths(routes) + [p], p, q);
      }
      node.payload := payload;
      routes := routes + [route];
      Repr := {this} + nodes.Values;
      assert View() == before;
    }
  }
}
