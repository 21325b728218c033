/**
 The internal route table of internal/gateway/router.go: routes by prefix, an order list
 with one entry per registration, and longest-prefix matching over that list.
 */
module RouteTable {
  import opened Text

  datatype Route = Route(pathPrefix: string, serviceName: string, timeout: int, retryCount: int)
  datatype Match = NoRoute | Matched(route: Route, remaining: string)
  datatype Table = Table(routes: map<string, Route>, order: seq<string>)

  const DEFAULT_TIMEOUT: int := 30_000_000_000

  /** The route as it is stored: defaults filled in, and a leading slash. */
  function Stored(r: Route): Route {
    Route(if "/" <= r.pathPrefix then r.pathPrefix else "/" + r.pathPrefix,
          r.serviceName,
          if r.timeout == 0 then DEFAULT_TIMEOUT else r.timeout,
          if r.retryCount == 0 then 1 else r.retryCount)
  }

  /** Registration adds a missing leading slash and missing settings, and changes nothing that is given. */
  lemma StoredMeans(r: Route)
    requires Registrable(r)
    ensures var s := Stored(r);
      && s.pathPrefix[0] == '/'
      && (r.pathPrefix[0] == '/' ==> s.pathPrefix == r.pathPrefix)
      && (r.pathPrefix[0] != '/' ==> s.pathPrefix[1..] == r.pathPrefix)
      && s.serviceName == r.serviceName
      && s.timeout == (if r.timeout != 0 then r.timeout else 30_000_000_000)
      && s.retryCount == (if r.retryCount != 0 then r.retryCount else 1)
      && Stored(s) == s
  {
  }

  predicate Registrable(r: Route) {
    r.pathPrefix != "" && r.serviceName != ""
  }

  function Without(order: seq<string>, prefix: string): seq<string> {
    if order == [] then []
    else Without(order[..|order| - 1], prefix) + if order[|order| - 1] != prefix then [order[|order| - 1]] else []
  }

  function Registered(t: Table, r: Route): Table {
    if !Registrable(r) then t
    else Table(t.routes[Stored(r).pathPrefix := Stored(r)], t.order + [Stored(r).pathPrefix])
  }

  function Unregistered(t: Table, prefix: string): Table {
    if prefix !in t.routes then t else Table(t.routes - {prefix}, Without(t.order, prefix))
  }

  /** The order list and the map hold the same prefixes, each route under its own prefix. */
  ghost predicate Coherent(t: Table) {
    && (forall p :: p in t.order <==> p in t.routes)
    && (forall p :: p in t.routes ==> t.routes[p].pathPrefix == p)
  }

  /** `p` is the longest registered prefix of the path. */
  ghost predicate Longest(t: Table, path: string, p: string) {
    p in t.routes && p <= path && forall q :: q in t.routes && q <= path ==> |q| <= |p|
  }

  /** What a match has to be: the route of the longest registered prefix, with the rest of the path. */
  ghost predicate CorrectMatch(t: Table, path: string, m: Match) {
    match m
    case NoRoute => forall q :: q in t.routes ==> !(q <= path)
    case Matched(route, remaining) =>
      && Longest(t, path, route.pathPrefix)
      && route == t.routes[route.pathPrefix]
      && (if path == route.pathPrefix then remaining == "/" else route.pathPrefix + remaining == path)
  }

  class InternalRouter {
    var routes: map<string, Route>
    var routeOrder: seq<string>

    function View(): Table
      reads this
    {
      Table(routes, routeOrder)
    }

    constructor ()
      ensures View() == Table(map[], [])
    {
      routes, routeOrder := map[], [];
    }

    method RegisterRoute(r: Route) returns (ok: bool)
      modifies this
      ensures ok == (r.pathPrefix != "" && r.serviceName != "")
      ensures View() == Registered(old(View()), r)
    {
      if r.pathPrefix == "" { return false; }
      if r.serviceName == "" { return false; }
      var route := r;
      if route.timeout == 0 {
        route := route.(timeout := DEFAULT_TIMEOUT);
      }
      if route.retryCount == 0 {
        route := route.(retryCount := 1);
      }
      if !("/" <= route.pathPrefix) {
        route := route.(pathPrefix := "/" + route.pathPrefix);
      }
      routes := routes[route.pathPrefix := route];
      routeOrder := routeOrder + [route.pathPrefix];
      ok := true;
    }

    method UnregisterRoute(prefix: string) returns (ok: bool)
      modifies this
      ensures ok == (prefix in old(routes))
      ensures View() == Unregistered(old(View()), prefix)
    {
      if prefix !in routes { return false; }
      routes := routes - {prefix};
      var newOrder: seq<string> := [];
      var i := 0;
      while i < |routeOrder|
        invariant 0 <= i <= |routeOrder| && routeOrder == old(routeOrder) && routes == old(routes) - {prefix}
        invariant newOrder == Without(routeOrder[..i], prefix)
      {
        assert routeOrder[..i + 1][..i] == routeOrder[..i];
        if routeOrder[i] != prefix {
          newOrder := newOrder + [routeOrder[i]];
        }
        i := i + 1;
      }
      assert routeOrder[..i] == routeOrder;
      routeOrder := newOrder;
      ok := true;
    }

    /** The scan over the order list, in the order of registration. */
    method MatchRoute(path: string) returns (m: Match)
      requires Coherent(View())
      ensures CorrectMatch(View(), path, m)
    {
      var longest: Option<Route>, matchedPrefix := None, "";
      var i := 0;
      while i < |routeOrder|
        invariant 0 <= i <= |routeOrder|
        invariant longest.None? ==> forall k :: 0 <= k < i ==> !(routeOrder[k] <= path)
        invariant longest.Some? ==>
          matchedPrefix in routes && matchedPrefix <= path && longest.value == routes[matchedPrefix]
        invariant longest.Some? ==>
          forall k :: 0 <= k < i && routeOrder[k] <= path ==> |routeOrder[k]| <= |matchedPrefix|
      {
        var prefix := routeOrder[i];
        assert prefix in routeOrder;
        if prefix <= path {
          if longest.None? || |prefix| > |matchedPrefix| {
            longest, matchedPrefix := Some(routes[prefix]), prefix;
          }
        }
        i := i + 1;
      }
      forall q | q in routes
        ensures exists k :: 0 <= k < |routeOrder| && routeOrder[k] == q
      {
        assert q in routeOrder;
      }
      if longest.None? {
        return NoRoute;
      }
      var remaining := path[|matchedPrefix|..];
      if remaining == "" {
        remaining := "/";
      }
      m := Matched(longest.value, remaining);
    }
  }

  // ----- Runs

  datatype Op = Register(route: Route) | Unregister(prefix: string)

  function After(ops: seq<Op>): Table {
    if ops == [] then Table(map[], [])
    else
      var t := After(ops[..|ops| - 1]);
      match ops[|ops| - 1]
      case Register(r) => Registered(t, r)
      case Unregister(p) => Unregistered(t, p)
  }

  /** The latest registration of a prefix that was not removed since. */
  function Latest(ops: seq<Op>, p: string): Option<Route> {
    if ops == [] then None
    else
      match ops[|ops| - 1]
      case Register(r) =>
        if Registrable(r) && Stored(r).pathPrefix == p then Some(Stored(r)) else Latest(ops[..|ops| - 1], p)
      case Unregister(q) => if q == p then None else Latest(ops[..|ops| - 1], p)
  }

  lemma {:induction false} WithoutMembers(order: seq<string>, prefix: string, p: string)
    ensures p in Without(order, prefix) <==> p in order && p != prefix
  {
    if order != [] {
      WithoutMembers(order[..|order| - 1], prefix, p);
      assert order == order[..|order| - 1] + [order[|order| - 1]];
    }
  }

  /** After any run the order list and the map agree, and the map holds the latest registrations. */
  lemma {:induction false} TableIsLatest(ops: seq<Op>, p: string)
    ensures var t := After(ops);
      && (p in t.order <==> p in t.routes)
      && (p in t.routes <==> Latest(ops, p).Some?)
      && (p in t.routes ==> t.routes[p] == Latest(ops, p).value && t.routes[p].pathPrefix == p)
  {
    if ops != [] {
      TableIsLatest(ops[..|ops| - 1], p);
      var t := After(ops[..|ops| - 1]);
      if ops[|ops| - 1].Unregister? {
        WithoutMembers(t.order, ops[|ops| - 1].prefix, p);
      }
    }
  }

  lemma AlwaysCoherent(ops: seq<Op>)
    ensures Coherent(After(ops))
  {
    forall p
      ensures (p in After(ops).order <==> p in After(ops).routes)
      ensures p in After(ops).routes ==> After(ops).routes[p].pathPrefix == p
    {
      TableIsLatest(ops, p);
    }
  }

  lemma LongestUnique(t: Table, path: string, p: string, q: string)
    requires Longest(t, path, p) && Longest(t, path, q)
    ensures p == q
  {
  }

  /** A path has one match in a table; prefix and remainder rebuild the path unless nothing remains. */
  lemma MatchUnique(t: Table, path: string, m: Match, n: Match)
    requires CorrectMatch(t, path, m) && CorrectMatch(t, path, n)
    ensures m == n
    ensures m.Matched? ==>
      if path == m.route.pathPrefix then m.remaining == "/" else m.route.pathPrefix + m.remaining == path
  {
    if m.Matched? && n.Matched? {
      LongestUnique(t, path, m.route.pathPrefix, n.route.pathPrefix);
      var p := m.route.pathPrefix;
      if path != p {
        assert m.remaining == path[|p|..] && n.remaining == path[|p|..];
      }
    }
  }

  /**
   Two histories that leave the same latest registrations match every path alike, in whatever
   order the prefixes were registered, replaced and removed.
   */
  lemma MatchIgnoresHistory(a: seq<Op>, b: seq<Op>, path: string, m: Match, n: Match)
    requires forall p :: Latest(a, p) == Latest(b, p)
    requires CorrectMatch(After(a), path, m) && CorrectMatch(After(b), path, n)
    ensures m == n
    ensures m.Matched? ==> Latest(a, m.route.pathPrefix) == Some(m.route)
  {
    var s, t := After(a), After(b);
    forall p
      ensures p in s.routes <==> p in t.routes
      ensures p in s.routes ==> s.routes[p] == t.routes[p] && Latest(a, p) == Some(s.routes[p])
    {
      TableIsLatest(a, p);
      TableIsLatest(b, p);
    }
    assert CorrectMatch(s, path, n);
    MatchUnique(s, path, m, n);
  }
}
