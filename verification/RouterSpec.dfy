/** What routing means: the locations a config declares, first-wins registration, longest-prefix
    matching and the proxy fallback of src/router.cc, over values. */
module RouterSpec {
  import opened Wrappers
  import opened ConfigGrammar
  import opened ConfigRemains
  import opened ConfigPrinter
  import opened Sequences

  /** The router's config block, as the server passes it on. */
  type Config = Block

  type Route = (string, string)

  predicate IsHandlerBlock(s: Statement) {
    |s.tokens| > 1 && s.tokens[0] == "handler" && s.Nested?
  }

  predicate IsLocation(s: Statement) {
    |s.tokens| > 0 && s.tokens[0] == "location"
  }

  /** The router indexes the argument of a `location` without looking whether it is there. */
  predicate LocationsHaveArgument(b: Block) {
    forall i :: 0 <= i < |b| && IsLocation(b[i]) ==> |b[i].tokens| > 1
  }

  /** What the router's unguarded token accesses need; parsed configs have the first and the last part. */
  predicate RouterConfig(config: Block) {
    forall i :: 0 <= i < |config| ==>
      && (config[i].Nested? ==> config[i].tokens != [])
      && (IsHandlerBlock(config[i]) ==> LocationsHaveArgument(config[i].child))
      && (IsHandlerNamed(config[i], "proxy") ==> StatementsHaveTokens(config[i].child))
  }

  predicate StatementsHaveTokens(b: Block) {
    forall i :: 0 <= i < |b| ==> b[i].tokens != []
  }

  predicate IsHandlerNamed(s: Statement, name: string) {
    IsHandlerBlock(s) && s.tokens[1] == name
  }

  // ----- Registration -----

  /** The locations of a handler block, in document order. */
  function Locations(b: Block, handler: string): seq<Route>
    requires LocationsHaveArgument(b)
  {
    if b == [] then []
    else
      var s := b[|b| - 1];
      Locations(b[..|b| - 1], handler) + (if IsLocation(s) then [(s.tokens[1], handler)] else [])
  }

  function StatementRoutes(s: Statement): seq<Route>
    requires IsHandlerBlock(s) ==> LocationsHaveArgument(s.child)
  {
    if IsHandlerBlock(s) then Locations(s.child, s.tokens[1]) else []
  }

  /** All declared routes, in document order. */
  function Declared(config: Block): seq<Route>
    requires RouterConfig(config)
  {
    if config == [] then []
    else Declared(config[..|config| - 1]) + StatementRoutes(config[|config| - 1])
  }

  type RouteMap = map<string, string>

  function AddRoute(m: RouteMap, r: Route): RouteMap {
    if r.0 in m then m else m[r.0 := r.1]
  }

  function AddRoutes(m: RouteMap, routes: seq<Route>): RouteMap {
    if routes == [] then m else AddRoute(AddRoutes(m, routes[..|routes| - 1]), routes[|routes| - 1])
  }

  /** The entries that registering `routes` adds, in order. */
  function NewRoutes(m: RouteMap, routes: seq<Route>): seq<Route> {
    if routes == [] then []
    else
      var init, last := routes[..|routes| - 1], routes[|routes| - 1];
      NewRoutes(m, init) + (if last.0 in AddRoutes(m, init) then [] else [last])
  }

  lemma AddRoutesAppend(m: RouteMap, routes: seq<Route>, last: Route)
    ensures AddRoutes(m, routes + [last]) == AddRoute(AddRoutes(m, routes), last)
    ensures NewRoutes(m, routes + [last])
            == NewRoutes(m, routes) + (if last.0 in AddRoutes(m, routes) then [] else [last])
  {
    assert (routes + [last])[..|routes|] == routes;
  }

  predicate RegistersInTurn(m: RouteMap, a: seq<Route>, b: seq<Route>) {
    && AddRoutes(m, a + b) == AddRoutes(AddRoutes(m, a), b)
    && NewRoutes(m, a + b) == NewRoutes(m, a) + NewRoutes(AddRoutes(m, a), b)
  }

  lemma OneMoreInTurn(m: RouteMap, a: seq<Route>, b: seq<Route>, last: Route)
    requires RegistersInTurn(m, a, b)
    ensures RegistersInTurn(m, a, b + [last])
  {
    var n := AddRoutes(m, a);
    AddRoutesAppend(m, a + b, last);
    AddRoutesAppend(n, b, last);
    Assoc(a, b, [last]);
    Assoc(NewRoutes(m, a), NewRoutes(n, b), if last.0 in AddRoutes(n, b) then [] else [last]);
  }

  /** Registering two lists in turn is registering their concatenation. */
  lemma {:induction false} AddRoutesOfConcat(m: RouteMap, a: seq<Route>, b: seq<Route>)
    ensures RegistersInTurn(m, a, b)
  {
    if b == [] {
      NothingBehind(a);
      NothingBehind(NewRoutes(m, a));
    } else {
      var init, last := b[..|b| - 1], b[|b| - 1];
      AddRoutesOfConcat(m, a, init);
      OneMoreInTurn(m, a, init, last);
      assert b == init + [last];
    }
  }

  /** Index `i` is the first entry for its prefix. */
  ghost predicate IsFirst(routes: seq<Route>, i: nat) {
    i < |routes| && forall j :: 0 <= j < i ==> routes[j].0 != routes[i].0
  }

  /** The route of one prefix: kept if it was there, else that of its first declaration. */
  lemma {:induction false} RouteOf(m: RouteMap, routes: seq<Route>, u: string) returns (i: nat)
    ensures u in m ==> u in AddRoutes(m, routes) && AddRoutes(m, routes)[u] == m[u]
    ensures u !in AddRoutes(m, routes) ==> u !in m && forall j :: 0 <= j < |routes| ==> routes[j].0 != u
    ensures u !in m && u in AddRoutes(m, routes) ==>
              IsFirst(routes, i) && routes[i].0 == u && AddRoutes(m, routes)[u] == routes[i].1
  {
    i := 0;
    if routes != [] {
      var n := |routes| - 1;
      i := RouteOf(m, routes[..n], u);
      if u !in AddRoutes(m, routes[..n]) && routes[n].0 == u {
        i := n;
      }
    }
  }

  /** Registration keeps what was there, and otherwise the first declaration wins. */
  lemma FirstDeclarationWins(m: RouteMap, routes: seq<Route>)
    ensures forall u :: u in m ==> u in AddRoutes(m, routes) && AddRoutes(m, routes)[u] == m[u]
    ensures forall i: nat :: IsFirst(routes, i) && routes[i].0 !in m ==>
              routes[i].0 in AddRoutes(m, routes) && AddRoutes(m, routes)[routes[i].0] == routes[i].1
    ensures forall u :: u in AddRoutes(m, routes) && u !in m ==> exists i: nat :: IsFirst(routes, i) && routes[i].0 == u
  {
    forall u | u in m ensures u in AddRoutes(m, routes) && AddRoutes(m, routes)[u] == m[u] {
      var i := RouteOf(m, routes, u);
    }
    forall i: nat | IsFirst(routes, i) && routes[i].0 !in m
      ensures routes[i].0 in AddRoutes(m, routes) && AddRoutes(m, routes)[routes[i].0] == routes[i].1
    {
      var k := RouteOf(m, routes, routes[i].0);
      assert routes[i].0 in AddRoutes(m, routes);
      assert k == i;
    }
    forall u | u in AddRoutes(m, routes) && u !in m ensures exists i: nat :: IsFirst(routes, i) && routes[i].0 == u {
      var i := RouteOf(m, routes, u);
    }
  }

  /** Every declared prefix is registered. */
  lemma DeclaredIsRegistered(m: RouteMap, routes: seq<Route>, i: nat)
    requires i < |routes|
    ensures routes[i].0 in AddRoutes(m, routes)
  {
    var k := RouteOf(m, routes, routes[i].0);
  }

  // ----- Longest prefix -----

  /** What the matching loop promises, in whatever order it visits the routes. */
  ghost predicate IsLongestMatch(prefixes: set<string>, uri: string, r: string) {
    && (r != "" ==> r in prefixes)
    && r <= uri
    && forall p :: p in prefixes && p <= uri ==> |p| <= |r|
  }

  /** The reference: try ever shorter prefixes of the URI. */
  function LongestMatch(prefixes: set<string>, uri: string): string
    decreases |uri|
  {
    if uri in prefixes || uri == "" then uri else LongestMatch(prefixes, uri[..|uri| - 1])
  }

  /** The match does not depend on the order of the routes: it is the reference's. */
  lemma {:induction false} MatchIsUnique(prefixes: set<string>, uri: string, r: string)
    ensures IsLongestMatch(prefixes, uri, r) <==> r == LongestMatch(prefixes, uri)
    decreases |uri|
  {
    if uri in prefixes || uri == "" {
      if IsLongestMatch(prefixes, uri, r) && uri in prefixes {
        assert uri <= uri && |uri| <= |r|;
      }
      assert IsLongestMatch(prefixes, uri, uri);
    } else {
      var shorter := uri[..|uri| - 1];
      MatchIsUnique(prefixes, shorter, r);
      assert forall p :: p in prefixes ==> (p <= uri <==> p <= shorter) by {
        forall p | p in prefixes ensures p <= uri <==> p <= shorter {
          if p <= uri {
            assert |p| == |uri| ==> p == uri;
          }
        }
      }
      if r <= uri && r != "" && r in prefixes {
        assert r <= shorter;
      }
    }
  }

  // ----- Handler lookup -----

  /** The block of the last handler of that name. */
  function HandlerConfig(config: Block, name: string): Option<Block> {
    if config == [] then None
    else
      var s := config[|config| - 1];
      if IsHandlerNamed(s, name) then Some(s.child) else HandlerConfig(config[..|config| - 1], name)
  }

  /** Whether a proxy block declares exactly this location. */
  predicate ValidProxy(b: Block, location: string)
    requires LocationsHaveArgument(b)
  {
    exists i :: 0 <= i < |b| && IsLocation(b[i]) && b[i].tokens[1] == location
  }

  lemma {:induction false} HandlerConfigIsDeclared(config: Block, name: string)
    requires RouterConfig(config) && HandlerConfig(config, name).Some?
    ensures LocationsHaveArgument(HandlerConfig(config, name).value)
    ensures name == "proxy" ==> StatementsHaveTokens(HandlerConfig(config, name).value)
    ensures forall r :: r in Locations(HandlerConfig(config, name).value, name) ==> r in Declared(config)
  {
    var s := config[|config| - 1];
    if !IsHandlerNamed(s, name) {
      HandlerConfigIsDeclared(config[..|config| - 1], name);
    }
  }

  function FallbackHandler(config: Block, uri: string): string
    requires RouterConfig(config)
  {
    var proxy := HandlerConfig(config, "proxy");
    if proxy.Some? && (HandlerConfigIsDeclared(config, "proxy"); ValidProxy(proxy.value, uri)) then "proxy"
    else "default"
  }

  function RouteHandler(m: RouteMap, config: Block, uri: string): string
    requires RouterConfig(config)
  {
    if uri in m then m[uri] else FallbackHandler(config, uri)
  }

  /** The handler chosen for a request. */
  function ChosenHandler(m: RouteMap, config: Block, uri: string): string
    requires RouterConfig(config)
  {
    RouteHandler(m, config, LongestMatch(m.Keys, uri))
  }

  lemma {:induction false} LocationIsListed(b: Block, handler: string, i: nat)
    requires LocationsHaveArgument(b) && i < |b| && IsLocation(b[i])
    ensures (b[i].tokens[1], handler) in Locations(b, handler)
  {
    if i < |b| - 1 {
      LocationIsListed(b[..|b| - 1], handler, i);
    }
  }

  /** Once the config has been registered, a lookup that misses falls back to `default`: the proxy
      branch never fires. */
  lemma FallbackNeverProxies(m: RouteMap, config: Block, uri: string)
    requires RouterConfig(config) && uri !in AddRoutes(m, Declared(config))
    ensures FallbackHandler(config, uri) == "default"
  {
    var proxy := HandlerConfig(config, "proxy");
    if proxy.Some? {
      HandlerConfigIsDeclared(config, "proxy");
      if ValidProxy(proxy.value, uri) {
        var i :| 0 <= i < |proxy.value| && IsLocation(proxy.value[i]) && proxy.value[i].tokens[1] == uri;
        LocationIsListed(proxy.value, "proxy", i);
        var k :| 0 <= k < |Declared(config)| && Declared(config)[k] == (uri, "proxy");
        DeclaredIsRegistered(m, Declared(config), k);
      }
    }
  }

  /** Index `i` declares the longest declared location that prefixes `uri`, and does so first. */
  ghost predicate Decides(routes: seq<Route>, uri: string, i: nat) {
    && IsFirst(routes, i)
    && routes[i].0 <= uri
    && forall j :: 0 <= j < |routes| && routes[j].0 <= uri ==> |routes[j].0| <= |routes[i].0|
  }

  /** End to end: after registration the handler is that of the first declaration of the longest
      declared location that prefixes the URI, or `default` if there is none. */
  lemma RoutingIsLongestFirst(config: Block, uri: string)
    requires RouterConfig(config)
    ensures var routes := Declared(config);
            var h := ChosenHandler(AddRoutes(map[], routes), config, uri);
            && (forall i: nat :: Decides(routes, uri, i) ==> h == routes[i].1)
            && ((exists i: nat :: Decides(routes, uri, i)) <==> (exists j :: 0 <= j < |routes| && routes[j].0 <= uri))
            && ((forall j :: 0 <= j < |routes| ==> !(routes[j].0 <= uri)) ==> h == "default")
  {
    var routes := Declared(config);
    var m := AddRoutes(map[], routes);
    var best := LongestMatch(m.Keys, uri);
    FirstDeclarationWins(map[], routes);
    MatchIsUnique(m.Keys, uri, best);
    forall j | 0 <= j < |routes| ensures routes[j].0 in m {
      DeclaredIsRegistered(map[], routes, j);
    }
    if best in m {
      var i: nat :| IsFirst(routes, i) && routes[i].0 == best;
      assert Decides(routes, uri, i);
      forall k: nat | Decides(routes, uri, k) ensures k == i {
        assert routes[k].0 in m.Keys;
        assert routes[k].0 == best;
      }
    } else {
      FallbackNeverProxies(map[], config, best);
      assert forall j :: 0 <= j < |routes| && routes[j].0 <= uri ==> routes[j].0 == "";
    }
  }

  // ----- The same by positions in the config -----

  /** Block `p` is a `handler name` block. */
  ghost predicate HandlerAt(config: Block, p: nat, name: string) {
    && p < |config| && config[p].Nested? && |config[p].tokens| >= 2
    && config[p].tokens[0] == "handler" && config[p].tokens[1] == name
  }

  /** Line `q` of a handler block starts with `location uri`. */
  ghost predicate LocationAt(b: Block, q: nat, uri: string) {
    q < |b| && |b[q].tokens| >= 2 && b[q].tokens[0] == "location" && b[q].tokens[1] == uri
  }

  ghost predicate DeclaresAt(config: Block, p: nat, q: nat, uri: string, name: string) {
    HandlerAt(config, p, name) && LocationAt(config[p].child, q, uri)
  }

  /** No line before line `q` of block `p` declares `uri`. */
  ghost predicate NoneBefore(config: Block, p: nat, q: nat, uri: string) {
    forall i: nat, j: nat, name :: DeclaresAt(config, i, j, uri, name) ==> p < i || (p == i && q <= j)
  }

  /** Registering a handler block: a prefix that is not there yet gets it if some line declares the prefix. */
  lemma {:induction false} LocationsRegister(m: RouteMap, b: Block, handler: string, uri: string) returns (q: nat)
    requires LocationsHaveArgument(b)
    ensures forall j: nat :: j < q ==> !LocationAt(b, j, uri)
    ensures q < |b| ==> LocationAt(b, q, uri)
    ensures var n := AddRoutes(m, Locations(b, handler));
            if uri in m then uri in n && n[uri] == m[uri]
            else if q < |b| then uri in n && n[uri] == handler
            else uri !in n
  {
    q := 0;
    if b != [] {
      var last := |b| - 1;
      q := LocationsRegister(m, b[..last], handler, uri);
      LocationInFirst(b, last, uri);
      if IsLocation(b[last]) {
        AddRoutesAppend(m, Locations(b[..last], handler), (b[last].tokens[1], handler));
      } else {
        NothingBehind(Locations(b[..last], handler));
      }
      if q >= last {
        q := if LocationAt(b, last, uri) then last else |b|;
      }
    }
  }

  lemma LocationInFirst(b: Block, n: nat, uri: string)
    requires n <= |b|
    ensures forall j: nat :: j < n ==> (LocationAt(b, j, uri) <==> LocationAt(b[..n], j, uri))
  {
  }

  /** Registering all blocks: every prefix gets the handler of the line that declares it first. */
  lemma {:induction false} DeclaredRegister(config: Block, uri: string) returns (p: nat, q: nat)
    requires RouterConfig(config)
    ensures NoneBefore(config, p, q, uri)
    ensures var n := AddRoutes(map[], Declared(config));
            if uri in n then DeclaresAt(config, p, q, uri, n[uri]) else p >= |config|
  {
    p, q := 0, 0;
    if config != [] {
      var last := |config| - 1;
      var init, s := config[..last], config[last];
      p, q := DeclaredRegister(init, uri);
      DeclaresInFirst(config, last, uri);
      AddRoutesOfConcat(map[], Declared(init), StatementRoutes(s));
      var m := AddRoutes(map[], Declared(init));
      if IsHandlerBlock(s) {
        var line := LocationsRegister(m, s.child, s.tokens[1], uri);
        if uri !in m {
          p, q := if line < |s.child| then last else |config|, line;
        }
      } else {
        NothingBehind(Declared(init));
        if uri !in m {
          p := |config|;
        }
      }
    }
  }

  lemma DeclaresInFirst(config: Block, n: nat, uri: string)
    requires n <= |config|
    ensures forall i: nat, j: nat, name :: i < n ==>
              (DeclaresAt(config, i, j, uri, name) <==> DeclaresAt(config[..n], i, j, uri, name))
  {
  }

  /** End to end, in terms of the document alone: of all lines that declare a prefix of the URI, one with the
      longest prefix decides, and among those with the same prefix the first; without such a line the
      handler is `default`. */
  lemma RoutingByPosition(config: Block, uri: string)
    requires RouterConfig(config)
    ensures forall p: nat, q: nat, u, name ::
              DeclaresAt(config, p, q, u, name) && u <= uri && NoneBefore(config, p, q, u)
              && (forall i: nat, j: nat, v, other :: DeclaresAt(config, i, j, v, other) && v <= uri ==> |v| <= |u|)
              ==> ChosenHandler(AddRoutes(map[], Declared(config)), config, uri) == name
    ensures (forall p: nat, q: nat, u, name :: DeclaresAt(config, p, q, u, name) ==> !(u <= uri))
              ==> ChosenHandler(AddRoutes(map[], Declared(config)), config, uri) == "default"
  {
    var m := AddRoutes(map[], Declared(config));
    var best := LongestMatch(m.Keys, uri);
    MatchIsUnique(m.Keys, uri, best);
    var bp, bq := DeclaredRegister(config, best);
    forall p: nat, q: nat, u, name | DeclaresAt(config, p, q, u, name) && u <= uri && NoneBefore(config, p, q, u)
      && (forall i: nat, j: nat, v, other :: DeclaresAt(config, i, j, v, other) && v <= uri ==> |v| <= |u|)
      ensures RouteHandler(m, config, best) == name
    {
      var up, uq := DeclaredRegister(config, u);
      assert u in m.Keys;
      assert best == u;
      assert DeclaresAt(config, bp, bq, best, m[best]);
    }
    if forall p: nat, q: nat, u, name :: DeclaresAt(config, p, q, u, name) ==> !(u <= uri) {
      assert best !in m;
      FallbackNeverProxies(map[], config, best);
    }
  }

  lemma HandlerInFirst(config: Block, n: nat, name: string)
    requires n <= |config|
    ensures forall i: nat :: i < n ==> (HandlerAt(config, i, name) <==> HandlerAt(config[..n], i, name))
  {
  }

  /** The block that a handler gets is that of the last block of its name. */
  lemma {:induction false} HandlerConfigIsLast(config: Block, name: string) returns (p: nat)
    ensures match HandlerConfig(config, name)
            case None => forall i: nat :: !HandlerAt(config, i, name)
            case Some(b) =>
              HandlerAt(config, p, name) && b == config[p].child
              && forall i: nat :: p < i ==> !HandlerAt(config, i, name)
  {
    p := 0;
    if config != [] {
      var last := |config| - 1;
      if IsHandlerNamed(config[last], name) {
        p := last;
      } else {
        p := HandlerConfigIsLast(config[..last], name);
        HandlerInFirst(config, last, name);
        assert !HandlerAt(config, last, name);
      }
    }
  }

  /** The fallback is the proxy exactly if the last proxy block declares that very URI. */
  lemma ProxyFallback(config: Block, uri: string)
    requires RouterConfig(config)
    ensures FallbackHandler(config, uri) == "proxy" <==>
            exists p: nat, q: nat :: DeclaresAt(config, p, q, uri, "proxy")
                                     && forall i: nat :: p < i ==> !HandlerAt(config, i, "proxy")
    ensures FallbackHandler(config, uri) == "proxy" || FallbackHandler(config, uri) == "default"
  {
    var last := HandlerConfigIsLast(config, "proxy");
    if FallbackHandler(config, uri) == "proxy" {
      var b := config[last].child;
      var q :| 0 <= q < |b| && IsLocation(b[q]) && b[q].tokens[1] == uri;
      assert DeclaresAt(config, last, q, uri, "proxy");
    }
    if p: nat, q: nat :| DeclaresAt(config, p, q, uri, "proxy")
                         && forall i: nat :: p < i ==> !HandlerAt(config, i, "proxy") {
      assert p == last && IsLocation(config[p].child[q]);
    }
  }

  // ----- The server's router block -----

  /** The last top-level block called `router`. */
  function RouterBlock(b: Block): Option<Block> {
    if b == [] then None
    else
      var s := b[|b| - 1];
      if s.Nested? && s.tokens != [] && s.tokens[0] == "router" then Some(s.child) else RouterBlock(b[..|b| - 1])
  }

  /** The router gets the block of the last `router` statement that has one. */
  lemma {:induction false} RouterBlockIsLast(b: Block) returns (p: nat)
    ensures match RouterBlock(b)
            case None => forall i: nat :: !RouterAt(b, i)
            case Some(config) =>
              RouterAt(b, p) && config == b[p].child && forall i: nat :: p < i ==> !RouterAt(b, i)
  {
    p := 0;
    if b != [] {
      var last := |b| - 1;
      if RouterAt(b, last) {
        p := last;
      } else {
        p := RouterBlockIsLast(b[..last]);
        assert forall i: nat :: i < last ==> (RouterAt(b, i) <==> RouterAt(b[..last], i));
      }
    }
  }

  ghost predicate RouterAt(b: Block, i: nat) {
    i < |b| && b[i].Nested? && b[i].tokens != [] && b[i].tokens[0] == "router"
  }

  lemma {:induction false} HasWordsAt(b: Block, i: nat)
    requires AllHaveWords(b) && i < |b|
    ensures StatementHasWords(b[i])
  {
    if i > 0 {
      HasWordsAt(b[1..], i - 1);
    }
  }

  predicate AllLocationsHaveArgument(config: Block) {
    forall i :: 0 <= i < |config| && IsHandlerBlock(config[i]) ==> LocationsHaveArgument(config[i].child)
  }

  lemma HaveWordsIsRouterConfig(config: Block)
    requires AllHaveWords(config)
    ensures RouterConfig(config) <==> AllLocationsHaveArgument(config)
  {
    forall i | 0 <= i < |config| ensures StatementHasWords(config[i]) {
      HasWordsAt(config, i);
    }
    forall i | 0 <= i < |config| && config[i].Nested? ensures StatementsHaveTokens(config[i].child) {
      assert StatementHasWords(config[i]);
      forall j | 0 <= j < |config[i].child| ensures config[i].child[j].tokens != [] {
        HasWordsAt(config[i].child, j);
      }
    }
  }

  /** The router block of whatever the parser leaves of a text, accepted or not, meets all that the router
      needs once its locations have their argument. */
  lemma LeftRouterConfig(text: string)
    ensures RouterBlock(Remains(text)).Some? ==>
              var config := RouterBlock(Remains(text)).value;
              RouterConfig(config) <==> AllLocationsHaveArgument(config)
  {
    if RouterBlock(Remains(text)).Some? {
      RemainsHaveWords(text);
      var i := RouterBlockIsLast(Remains(text));
      HasWordsAt(Remains(text), i);
      HaveWordsIsRouterConfig(RouterBlock(Remains(text)).value);
    }
  }
}
