/** Paths cut into segments, and the route table of init_router. */
module Router {
  import opened Bytes
  import opened RouteList
  import opened RouteTree

  const DELIMITER := '/'

  predicate Whole(segment: Segment) { segment != "" && DELIMITER !in segment }

  function Span(s: string): (n: nat)
    ensures n <= |s| && DELIMITER !in s[..n] && (n < |s| ==> s[n] == DELIMITER)
  {
    if s == "" || s[0] == DELIMITER then 0
    else
      assert s[..1 + Span(s[1..])] == [s[0]] + s[1..][..Span(s[1..])];
      1 + Span(s[1..])
  }

  /** What strtok cuts out of a path, call by call. */
  function Tokens(s: string): (r: seq<Segment>)
    ensures forall i :: 0 <= i < |r| ==> Whole(r[i])
    decreases |s|
  {
    if s == "" then []
    else if s[0] == DELIMITER then Tokens(s[1..])
    else [s[..Span(s)]] + Tokens(s[Span(s)..])
  }

  function Joined(segments: Path): string {
    if segments == [] then "" else [DELIMITER] + segments[0] + Joined(segments[1..])
  }

  lemma {:induction false} SpanOf(segment: Segment, rest: string)
    requires DELIMITER !in segment && (rest != "" ==> rest[0] == DELIMITER)
    ensures Span(segment + rest) == |segment|
  {
    if segment != "" {
      assert (segment + rest)[1..] == segment[1..] + rest;
      SpanOf(segment[1..], rest);
    } else {
      assert segment + rest == rest;
    }
  }

  /** Cutting a joined path gives its segments back. */
  lemma {:induction false} TokensJoined(segments: Path)
    requires forall i :: 0 <= i < |segments| ==> Whole(segments[i])
    ensures Tokens(Joined(segments)) == segments
  {
    if segments != [] {
      var rest := Joined(segments[1..]);
      var s := segments[0] + rest;
      assert Joined(segments) == [DELIMITER] + s;
      assert Joined(segments)[1..] == s;
      SpanOf(segments[0], rest);
      assert s[0] == segments[0][0];
      assert s[..|segments[0]|] == segments[0] && s[|segments[0]|..] == rest;
      TokensJoined(segments[1..]);
    }
  }

  /** What stands between delimiters is a segment; nothing there makes none. */
  lemma {:induction false} TokensSplit(a: string, b: string)
    ensures Tokens(a + [DELIMITER] + b) == Tokens(a) + Tokens(b)
    decreases |a|
  {
    var s := a + [DELIMITER] + b;
    if a == "" {
      assert s[0] == DELIMITER && s[1..] == b;
    } else if a[0] == DELIMITER {
      assert s[1..] == a[1..] + [DELIMITER] + b;
      TokensSplit(a[1..], b);
    } else {
      var n := Span(a);
      assert s == a[..n] + (a[n..] + [DELIMITER] + b);
      SpanOf(a[..n], a[n..] + [DELIMITER] + b);
      assert s[..n] == a[..n] && s[n..] == a[n..] + [DELIMITER] + b;
      TokensSplit(a[n..], b);
    }
  }

  lemma TokensWhole(segment: string)
    requires DELIMITER !in segment
    ensures Tokens(segment) == if segment == "" then [] else [segment]
  {
    if segment != "" {
      SpanOf(segment, "");
      assert segment + "" == segment && segment[|segment|..] == "";
    }
  }

  const STOCK: Path := ["stock"]
  const STOCK_SLOT: Path := ["stock", ":slot_id"]
  const BALANCE: Path := ["balance"]
  const ORDERS: Path := ["orders"]
  const ITEMS: Path := ["items", ":item_id"]
  const SLOW: Path := ["debug", "slow"]
  const LOOKUP: Path := ["users", "lookup"]

  const TABLE: seq<Route> := [
    Route(STOCK, Some("stock_handler")),
    Route(STOCK_SLOT, Some("stock_slot_handler")),
    Route(BALANCE, Some("balance_handler")),
    Route(ORDERS, Some("orders_handler")),
    Route(ITEMS, Some("items_handler")),
    Route(SLOW, Some("debug_handler")),
    Route(LOOKUP, Some("user_lookup_handler"))]

  lemma OneSegment(segment: Segment)
    requires Whole(segment)
    ensures Tokens("/" + segment) == [segment]
  {
    assert Joined([segment][1..]) == "";
    assert Joined([segment]) == "/" + segment;
    TokensJoined([segment]);
  }

  lemma TwoSegments(a: Segment, b: Segment)
    requires Whole(a) && Whole(b)
    ensures Tokens("/" + a + "/" + b) == [a, b]
  {
    assert [a, b][1..] == [b] && [b][1..] == [];
    assert Joined([b]) == "/" + b;
    assert Joined([a, b]) == "/" + a + "/" + b;
    TokensJoined([a, b]);
  }

  lemma TableTokens()
    ensures Tokens("/stock") == STOCK && Tokens("/stock/:slot_id") == STOCK_SLOT && Tokens("/balance") == BALANCE
    ensures Tokens("/orders") == ORDERS && Tokens("/items/:item_id") == ITEMS && Tokens("/debug/slow") == SLOW
    ensures Tokens("/users/lookup") == LOOKUP
  {
    hide Tokens;
    OneSegment("stock");
    assert "/" + "stock" == "/stock";
    TwoSegments("stock", ":slot_id");
    assert "/" + "stock" + "/" + ":slot_id" == "/stock/:slot_id";
    OneSegment("balance");
    assert "/" + "balance" == "/balance";
    OneSegment("orders");
    assert "/" + "orders" == "/orders";
    TwoSegments("items", ":item_id");
    assert "/" + "items" + "/" + ":item_id" == "/items/:item_id";
    TwoSegments("debug", "slow");
    assert "/" + "debug" + "/" + "slow" == "/debug/slow";
    TwoSegments("users", "lookup");
    assert "/" + "users" + "/" + "lookup" == "/users/lookup";
  }

  /** register_route */
  method RegisterRoute(tree: Tree, path: string, handler: Handler)
    requires tree.Valid()
    modifies tree.Repr
    ensures tree.Valid() && tree.routes == old(tree.routes) + [Route(Tokens(path), Some(handler))]
    ensures fresh(tree.Repr - old(tree.Repr))
  {
    tree.AddNode(Tokens(path), Some(handler));
  }

  /** init_router up to its fourth route. */
  method RegisterFour(tree: Tree)
    requires tree.Valid()
    modifies tree.Repr
    ensures tree.Valid() && tree.routes == old(tree.routes) + TABLE[..4]
    ensures fresh(tree.Repr - old(tree.Repr))
  {
    hide Tokens, Tree.Valid;
    TableTokens();
    RegisterRoute(tree, "/stock", "stock_handler");
    RegisterRoute(tree, "/stock/:slot_id", "stock_slot_handler");
    RegisterRoute(tree, "/balance", "balance_handler");
    RegisterRoute(tree, "/orders", "orders_handler");
  }

  /** init_router */
  method InitRouter() returns (tree: Tree)
    ensures fresh(tree.Repr) && tree.Valid() && tree.routes == TABLE
  {
    hide Tokens, Tree.Valid;
    tree := new Tree();
    RegisterFour(tree);
    TableTokens();
    RegisterRoute(tree, "/items/:item_id", "items_handler");
    RegisterRoute(tree, "/debug/slow", "debug_handler");
    RegisterRoute(tree, "/users/lookup", "user_lookup_handler");
  }

  /** The lookup of dispatch. */
  method Lookup(tree: Tree, path: string) returns (handler: Option<Handler>)
    requires tree.Valid()
    ensures handler == Find(tree.routes, Tokens(path))
  {
    handler := tree.SearchNode(Tokens(path));
  }

  // ----- what the table routes -----

  lemma TablePaths(path: Path)
    ensures path in Paths(TABLE) <==> path == STOCK || path == STOCK_SLOT || path == BALANCE || path == ORDERS
                                      || path == ITEMS || path == SLOW || path == LOOKUP
  {
    assert Paths(TABLE) == [STOCK, STOCK_SLOT, BALANCE, ORDERS, ITEMS, SLOW, LOOKUP];
  }

  /** No node of the table mixes a wildcard child with others. */
  lemma TableUnmixed()
    ensures Unmixed(Paths(TABLE))
  {
    forall a, b, k | a in Paths(TABLE) && b in Paths(TABLE) && 0 <= k < |a| && k < |b| && a[..k] == b[..k] && Wild(a[k])
      ensures a[k] == b[k]
    {
      TablePaths(a);
      TablePaths(b);
      Tame();
      assert k == 1 && (a == STOCK_SLOT || a == ITEMS);
      assert a[..1][0] == b[..1][0];
    }
  }

  lemma Tame()
    ensures !Wild("stock") && !Wild("balance") && !Wild("orders") && !Wild("items") && !Wild("debug") && !Wild("slow")
         && !Wild("users") && !Wild("lookup")
    ensures "stock"[0] != "users"[0] && "items"[0] != "debug"[0]
  {}

  lemma {:induction false} PayloadAt(routes: seq<Route>, i: nat)
    requires i < |routes| && forall j :: i < j < |routes| ==> routes[j].path != routes[i].path
    ensures PayloadOf(routes, routes[i].path) == routes[i].payload
  {
    if i < |routes| - 1 {
      PayloadAt(routes[..|routes| - 1], i);
    }
  }

  lemma TablePayload(i: nat)
    requires i < |TABLE|
    ensures PayloadOf(TABLE, TABLE[i].path) == TABLE[i].payload
  {
    assert |"stock"| == 5 && |"balance"| == 7 && |"orders"| == 6 && |"items"| == 5 && "stock"[0] != "items"[0];
    assert |"debug"| == 5 && "debug"[0] != "items"[0] && "stock"[0] != "debug"[0] && "users"[0] != "stock"[0];
    assert "users"[0] != "items"[0] && "users"[0] != "debug"[0];
    PayloadAt(TABLE, i);
  }

  /** The handler a request path is meant for. */
  function Destination(segments: Path): Option<Handler> {
    match |segments|
    case 1 =>
      if segments[0] == "stock" then Some("stock_handler")
      else if segments[0] == "balance" then Some("balance_handler")
      else if segments[0] == "orders" then Some("orders_handler")
      else None
    case 2 =>
      if segments[0] == "stock" then Some("stock_slot_handler")
      else if segments[0] == "items" then Some("items_handler")
      else if segments == ["debug", "slow"] then Some("debug_handler")
      else if segments == ["users", "lookup"] then Some("user_lookup_handler")
      else None
    case _ => None
  }

  lemma DestinationMatched(segments: Path, i: nat)
    requires i < |TABLE| && Matches(TABLE[i].path, segments)
    ensures Destination(segments) == TABLE[i].payload
  {}

  lemma DestinationOnly(segments: Path)
    requires Destination(segments).Some?
    ensures exists i :: 0 <= i < |TABLE| && Matches(TABLE[i].path, segments)
  {
    assert Wild(":slot_id") && Wild(":item_id");
    if |segments| == 1 {
      assert Matches(TABLE[0].path, segments) || Matches(TABLE[2].path, segments) || Matches(TABLE[3].path, segments);
    } else {
      assert Matches(TABLE[1].path, segments) || Matches(TABLE[4].path, segments)
          || Matches(TABLE[5].path, segments) || Matches(TABLE[6].path, segments);
    }
  }

  /** The tree of init_router sends every request path where it is meant to go. */
  lemma TableFinds(segments: Path)
    ensures Find(TABLE, segments) == Destination(segments)
  {
    hide Walk, PayloadOf, Wild, Matches, Destination;
    TableUnmixed();
    if i :| 0 <= i < |TABLE| && Matches(TABLE[i].path, segments) {
      assert Paths(TABLE)[i] == TABLE[i].path;
      WalkMatches(TABLE, TABLE[i].path, segments, 0);
      assert TABLE[i].path[..0] == [] && segments[0..] == segments;
      TablePayload(i);
      DestinationMatched(segments, i);
    } else {
      if Destination(segments).Some? {
        DestinationOnly(segments);
      }
      if Find(TABLE, segments).Some? {
        var path := FindFound(TABLE, segments);
      }
    }
  }
}
