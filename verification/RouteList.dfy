/** The router as a flat list of routes in the order registered: what a search finds in it, and
    what follows for every list and for the table of init_router. */
module RouteList {
  import opened Bytes

  type Segment = string
  type Path = seq<Segment>
  type Handler = string

  datatype Route = Route(path: Path, payload: Option<Handler>)

  const WILDCARD := ':'

  predicate Wild(name: Segment) { name != "" && name[0] == WILDCARD }

  function Paths(routes: seq<Route>): (r: seq<Path>)
    ensures |r| == |routes| && forall i :: 0 <= i < |r| ==> r[i] == routes[i].path
  {
    seq(|routes|, i requires 0 <= i < |routes| => routes[i].path)
  }

  /** Some registered path goes through `p`. */
  ghost predicate Reached(paths: seq<Path>, p: Path) { exists path :: path in paths && p <= path }

  /** The segment after `p` of the first registered path that has a wildcard there. */
  function FirstWild(paths: seq<Path>, p: Path): Option<Segment> {
    if paths == [] then None
    else if p < paths[0] && Wild(paths[0][|p|]) then Some(paths[0][|p|])
    else FirstWild(paths[1..], p)
  }

  /** What was last registered under exactly `p`. */
  function PayloadOf(routes: seq<Route>, p: Path): Option<Handler> {
    if routes == [] then None
    else if routes[|routes| - 1].path == p then routes[|routes| - 1].payload
    else PayloadOf(routes[..|routes| - 1], p)
  }

  /** Where a walk at `p` goes on one segment: to the segment itself if a route goes there, or
      else to the first wildcard registered there. */
  ghost function Onward(paths: seq<Path>, p: Path, segment: Segment): Option<Segment> {
    if Reached(paths, p + [segment]) then Some(segment) else FirstWild(paths, p)
  }

  /** The literal-first, first-registered-wildcard walk, which never backs up. */
  ghost function Walk(routes: seq<Route>, p: Path, segments: Path): Option<Handler>
    decreases |segments|
  {
    if segments == [] then PayloadOf(routes, p)
    else match Onward(Paths(routes), p, segments[0])
      case None => None
      case Some(name) => Walk(routes, p + [name], segments[1..])
  }

  ghost function Find(routes: seq<Route>, segments: Path): Option<Handler> { Walk(routes, [], segments) }

  // ----- registered paths -----

  lemma {:induction false} WalkRegistered(routes: seq<Route>, path: Path, k: nat)
    requires path in Paths(routes) && k <= |path|
    ensures Walk(routes, path[..k], path[k..]) == PayloadOf(routes, path)
    decreases |path| - k
  {
    if k == |path| {
      assert path[..k] == path;
    } else {
      assert path[..k] + [path[k]] == path[..k + 1];
      assert Reached(Paths(routes), path[..k + 1]);
      assert path[k..][1..] == path[k + 1..];
      WalkRegistered(routes, path, k + 1);
    }
  }

  /** A registered path finds what was last registered under it, wildcards notwithstanding. */
  lemma FindRegistered(routes: seq<Route>, path: Path)
    requires path in Paths(routes)
    ensures Find(routes, path) == PayloadOf(routes, path)
  {
    WalkRegistered(routes, path, 0);
    assert path[..0] == [] && path[0..] == path;
  }

  /** Registering a route makes its own path return its payload and changes the result of no
      other registered path. */
  lemma Registering(routes: seq<Route>, route: Route, other: Path)
    requires other in Paths(routes) && other != route.path
    ensures Find(routes + [route], route.path) == route.payload
    ensures Find(routes + [route], other) == Find(routes, other)
  {
    var after := routes + [route];
    assert after[..|routes|] == routes;
    assert Paths(after)[|routes|] == route.path;
    FindRegistered(after, route.path);
    var i :| 0 <= i < |routes| && routes[i].path == other;
    assert Paths(after)[i] == other;
    FindRegistered(after, other);
    FindRegistered(routes, other);
  }

  // ----- tables in which no node mixes a wildcard child with others -----

  predicate MatchesSegment(name: Segment, segment: Segment) { name == segment || Wild(name) }

  predicate Matches(path: Path, segments: Path) {
    |path| == |segments| && forall i :: 0 <= i < |path| ==> MatchesSegment(path[i], segments[i])
  }

  /** Where two paths part after `p`, neither goes on with a wildcard. */
  ghost predicate Unmixed(paths: seq<Path>) {
    forall a, b, k :: a in paths && b in paths && 0 <= k < |a| && k < |b| && a[..k] == b[..k] && Wild(a[k]) ==>
        a[k] == b[k]
  }

  /** The i-th path is the first to be registered with a wildcard behind `p`. */
  predicate WildFirst(paths: seq<Path>, p: Path, i: nat) {
    && i < |paths| && p < paths[i] && Wild(paths[i][|p|])
    && forall j :: 0 <= j < i && p < paths[j] ==> !Wild(paths[j][|p|])
  }

  lemma {:induction false} FirstWildFirst(paths: seq<Path>, p: Path, i: nat)
    requires WildFirst(paths, p, i)
    ensures FirstWild(paths, p) == Some(paths[i][|p|])
  {
    if i > 0 {
      assert WildFirst(paths[1..], p, i - 1);
      FirstWildFirst(paths[1..], p, i - 1);
    }
  }

  lemma {:induction false} FirstWildIs(paths: seq<Path>, p: Path)
    ensures FirstWild(paths, p).Some? <==> exists path :: path in paths && p < path && Wild(path[|p|])
    ensures FirstWild(paths, p).Some? ==>
        Wild(FirstWild(paths, p).value) && Reached(paths, p + [FirstWild(paths, p).value])
  {
    if paths != [] {
      if p < paths[0] && Wild(paths[0][|p|]) {
        assert paths[0] in paths && p + [paths[0][|p|]] <= paths[0];
      } else {
        FirstWildIs(paths[1..], p);
        assert forall path :: path in paths <==> path == paths[0] || path in paths[1..];
      }
    }
  }

  lemma OnwardMatches(paths: seq<Path>, path: Path, k: nat, segment: Segment)
    requires Unmixed(paths) && path in paths && k < |path| && MatchesSegment(path[k], segment)
    ensures Onward(paths, path[..k], segment) == Some(path[k])
  {
    hide FirstWild, Wild;
    var p := path[..k];
    FirstWildIs(paths, p);
    assert path[k] == segment ==> p + [segment] <= path;
    if Reached(paths, p + [segment]) {
      var other :| other in paths && p + [segment] <= other;
      assert other[..k] == p && other[k] == segment;
    } else {
      assert Wild(path[k]) && p < path;
      var name := FirstWild(paths, p).value;
      var other :| other in paths && p + [name] <= other;
      assert other[..k] == p && other[k] == name;
    }
  }

  /** In an unmixed table the walk from `p` follows any path that matches the segments. */
  lemma {:induction false} WalkMatches(routes: seq<Route>, path: Path, segments: Path, k: nat)
    requires Unmixed(Paths(routes)) && path in Paths(routes) && Matches(path, segments) && k <= |path|
    ensures Walk(routes, path[..k], segments[k..]) == PayloadOf(routes, path)
    decreases |path| - k
  {
    hide Unmixed, Onward, MatchesSegment, PayloadOf;
    if k == |path| {
      assert path[..k] == path;
    } else {
      OnwardMatches(Paths(routes), path, k, segments[k]);
      assert path[..k] + [path[k]] == path[..k + 1];
      assert segments[k..][1..] == segments[k + 1..];
      WalkMatches(routes, path, segments, k + 1);
    }
  }

  /** Whatever the table, the walk only finds a registered path that matches. */
  lemma {:induction false} WalkFound(routes: seq<Route>, p: Path, segments: Path) returns (path: Path)
    requires Walk(routes, p, segments).Some?
    ensures path in Paths(routes) && p <= path && Matches(path[|p|..], segments)
    ensures Walk(routes, p, segments) == PayloadOf(routes, path)
    decreases |segments|
  {
    var paths := Paths(routes);
    if segments == [] {
      PayloadRegistered(routes, p);
      path := p;
    } else {
      FirstWildIs(paths, p);
      var name := Onward(paths, p, segments[0]).value;
      path := WalkFound(routes, p + [name], segments[1..]);
      assert path[|p|] == (p + [name])[|p|];
      assert path[|p|..] == [name] + path[|p| + 1..];
    }
  }

  lemma {:induction false} PayloadRegistered(routes: seq<Route>, p: Path)
    requires PayloadOf(routes, p).Some?
    ensures p in Paths(routes)
  {
    var n := |routes| - 1;
    if routes[n].path == p {
      assert Paths(routes)[n] == p;
    } else {
      PayloadRegistered(routes[..n], p);
      var i :| 0 <= i < n && routes[..n][i].path == p;
      assert Paths(routes)[i] == p;
    }
  }

  lemma FindFound(routes: seq<Route>, segments: Path) returns (path: Path)
    requires Find(routes, segments).Some?
    ensures path in Paths(routes) && Matches(path, segments) && Find(routes, segments) == PayloadOf(routes, path)
  {
    path := WalkFound(routes, [], segments);
    assert path[0..] == path;
  }

  /** In an unmixed table a search finds a handler exactly when a route that matches segment by
      segment carries it. */
  lemma FindMatches(routes: seq<Route>, segments: Path, handler: Handler)
    requires Unmixed(Paths(routes))
    ensures Find(routes, segments) == Some(handler)
       <==> exists path :: path in Paths(routes) && Matches(path, segments) && PayloadOf(routes, path) == Some(handler)
  {
    if Find(routes, segments).Some? {
      var path := FindFound(routes, segments);
    }
    forall path | path in Paths(routes) && Matches(path, segments)
      ensures Find(routes, segments) == PayloadOf(routes, path)
    {
      WalkMatches(routes, path, segments, 0);
      assert path[..0] == [] && segments[0..] == segments;
    }
  }

  /** A search finds exactly the handlers of the routes that match. */
  ghost predicate Exact(routes: seq<Route>) {
    forall segments, handler :: Find(routes, segments) == Some(handler)
      <==> exists path :: path in Paths(routes) && Matches(path, segments) && PayloadOf(routes, path) == Some(handler)
  }

  /** Every registered path has a handler, and no two paths share one. */
  ghost predicate OwnHandlers(routes: seq<Route>) {
    && (forall path :: path in Paths(routes) ==> PayloadOf(routes, path).Some?)
    && (forall a, b :: a in Paths(routes) && b in Paths(routes) && PayloadOf(routes, a) == PayloadOf(routes, b) ==>
        a == b)
  }

  /** As long as the segments are those of a registered path, the walk follows it. */
  lemma {:induction false} WalkAlong(routes: seq<Route>, path: Path, segments: Path, i: nat, k: nat)
    requires path in Paths(routes) && i <= k <= |path| && k <= |segments| && segments[..k] == path[..k]
    ensures Walk(routes, path[..i], segments[i..]) == Walk(routes, path[..k], segments[k..])
    decreases k - i
  {
    if i < k {
      assert segments[i] == segments[..k][i] == path[i];
      assert path[..i] + [path[i]] == path[..i + 1] && path[..i + 1] <= path;
      assert Reached(Paths(routes), path[..i + 1]);
      assert segments[i..][1..] == segments[i + 1..];
      WalkAlong(routes, path, segments, i + 1, k);
    }
  }

  /** Where a wildcard of `a` and another segment of `b` meet, the route `a` matches a search
      that goes `b`'s way. */
  lemma WalksPast(routes: seq<Route>, a: Path, b: Path, k: nat)
    requires a in Paths(routes) && b in Paths(routes) && k < |a| && k < |b|
    requires a[..k] == b[..k] && Wild(a[k]) && a[k] != b[k]
    ensures Matches(a, a[k := b[k]])
    ensures Find(routes, a[k := b[k]]).Some? ==>
      exists path :: path in Paths(routes) && path != a && Find(routes, a[k := b[k]]) == PayloadOf(routes, path)
  {
    hide PayloadOf, FirstWild;
    var s := a[k := b[k]];
    assert s[..k] == a[..k] && s[0..] == s && a[..0] == [];
    WalkAlong(routes, a, s, 0, k);
    var p := a[..k] + [b[k]];
    assert p == b[..k + 1] && p <= b;
    assert Reached(Paths(routes), p);
    assert Find(routes, s) == Walk(routes, p, s[k..][1..]);
    if Find(routes, s).Some? {
      var path := WalkFound(routes, p, s[k..][1..]);
      assert path[k] == p[k] == b[k];
    }
  }

  /** When the routes have handlers of their own, searches are exact if and only if no node mixes
      a wildcard child with others. */
  lemma ExactlyUnmixed(routes: seq<Route>)
    requires OwnHandlers(routes)
    ensures Exact(routes) <==> Unmixed(Paths(routes))
  {
    hide Find, Matches, PayloadOf, Wild, Paths;
    if Unmixed(Paths(routes)) {
      forall segments, handler
        ensures Find(routes, segments) == Some(handler)
          <==> exists path ::
                 path in Paths(routes) && Matches(path, segments) && PayloadOf(routes, path) == Some(handler)
      {
        FindMatches(routes, segments, handler);
      }
    } else {
      var a, b, k :| a in Paths(routes) && b in Paths(routes) && 0 <= k < |a| && k < |b| && a[..k] == b[..k]
                     && Wild(a[k]) && a[k] != b[k];
      WalksPast(routes, a, b, k);
      assert PayloadOf(routes, a).Some?;
    }
  }

  /** In a mixed table it need not: after `/a` the walk does not back up to `/:x`. */
  lemma MixedMisses()
    ensures var routes := [Route(["a", "b"], Some("ab")), Route([":x", "c"], Some("xc"))];
            Find(routes, ["a", "c"]) == None && Matches(routes[1].path, ["a", "c"])
  {
    var routes := [Route(["a", "b"], Some("ab")), Route([":x", "c"], Some("xc"))];
    var paths := Paths(routes);
    assert paths == [["a", "b"], [":x", "c"]];
    assert "b"[0] != "c"[0] && |":x"| != |"a"|;
    assert paths[0] in paths && [] + ["a"] <= paths[0];
    forall path | path in paths && ["a"] <= path ensures path == paths[0] {
      assert path[0] == "a";
    }
    assert !Reached(paths, ["a", "c"]) by {
      if path :| path in paths && ["a", "c"] <= path {
        assert ["a"] <= path && path[1] == "c";
      }
    }
    FirstWildIs(paths, ["a"]);
    assert ["a", "c"][1..] == ["c"] && [] + ["a"] == ["a"];
    assert ["a"] + ["c"] == ["a", "c"];
    assert Onward(paths, ["a"], "c") == None;
  }
}
