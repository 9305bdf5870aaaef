/** The router and the status recorder of src/router.cc and src/server_status_recorder.cc as objects,
    and runs of them. */
module Router {
  import opened Wrappers
  import opened ConfigGrammar
  import opened RouterSpec
  import opened Sequences

  type Response = (string, int)

  class StatusRecorder {
    var urlResponses: seq<Response>
    var prefixHandlers: seq<Route>

    constructor ()
      ensures urlResponses == [] && prefixHandlers == []
    {
      urlResponses, prefixHandlers := [], [];
    }

    method RecordRequest(url: string, code: int)
      modifies `urlResponses
      ensures urlResponses == old(urlResponses) + [(url, code)]
    {
      urlResponses := urlResponses + [(url, code)];
    }

    method RecordPrefix(route: Route)
      modifies `prefixHandlers
      ensures prefixHandlers == old(prefixHandlers) + [route]
    {
      prefixHandlers := prefixHandlers + [route];
    }
  }

  // ----- Agreement of recorder and router -----

  /** The recorded prefixes are distinct, and as a relation they are the route map. */
  ghost predicate Agrees(recorded: seq<Route>, m: RouteMap) {
    && (forall i, j :: 0 <= i < j < |recorded| ==> recorded[i].0 != recorded[j].0)
    && (forall i :: 0 <= i < |recorded| ==> recorded[i].0 in m && m[recorded[i].0] == recorded[i].1)
    && (forall u :: u in m ==> (u, m[u]) in recorded)
  }

  lemma AgreesAfterAdding(recorded: seq<Route>, m: RouteMap, r: Route)
    requires Agrees(recorded, m) && r.0 !in m
    ensures Agrees(recorded + [r], AddRoute(m, r))
  {
    var all := recorded + [r];
    assert all[|recorded|] == r;
    forall u | u in AddRoute(m, r) ensures (u, AddRoute(m, r)[u]) in all {
      assert u != r.0 ==> (u, m[u]) in recorded;
    }
  }

  lemma {:induction false} AgreesAfterRegistering(recorded: seq<Route>, m: RouteMap, routes: seq<Route>)
    requires Agrees(recorded, m)
    ensures Agrees(recorded + NewRoutes(m, routes), AddRoutes(m, routes))
  {
    if routes == [] {
      assert recorded + [] == recorded;
    } else {
      var init, last := routes[..|routes| - 1], routes[|routes| - 1];
      AgreesAfterRegistering(recorded, m, init);
      if last.0 in AddRoutes(m, init) {
        assert NewRoutes(m, init) + [] == NewRoutes(m, init);
      } else {
        AgreesAfterAdding(recorded + NewRoutes(m, init), AddRoutes(m, init), last);
        assert recorded + NewRoutes(m, init) + [last] == recorded + (NewRoutes(m, init) + [last]);
      }
    }
  }

  // ----- Runs -----

  datatype State = State(routes: RouteMap, headers: map<string, string>, recorded: seq<Route>, responses: seq<Response>)

  /** `Request` carries the status code of the handler's response, or nothing if the handler threw. */
  datatype Event =
    | Register(uri: string, handler: string)
    | RegisterAll(routes: seq<Route>)
    | SetHeader(name: string, value: string)
    | Request(url: string, code: Option<int>)

  const EMPTY: State := State(map[], map[], [], [])

  function Apply(s: State, e: Event): State {
    match e
    case Register(uri, handler) =>
      s.(routes := AddRoutes(s.routes, [(uri, handler)]),
         recorded := s.recorded + NewRoutes(s.routes, [(uri, handler)]))
    case RegisterAll(routes) =>
      s.(routes := AddRoutes(s.routes, routes), recorded := s.recorded + NewRoutes(s.routes, routes))
    case SetHeader(name, value) => s.(headers := s.headers[name := value])
    case Request(url, code) => if code.None? then s else s.(responses := s.responses + [(url, code.value)])
  }

  function Run(s: State, events: seq<Event>): State
    decreases |events|
  {
    if events == [] then s else Run(Apply(s, events[0]), events[1..])
  }

  /** What a request adds to the log. */
  function Answer(e: Event): seq<Response> {
    if e.Request? && e.code.Some? then [(e.url, e.code.value)] else []
  }

  /** The URL and status of every request whose handler returned, in order. */
  function Answered(events: seq<Event>): seq<Response> {
    if events == [] then [] else Answer(events[0]) + Answered(events[1..])
  }

  /** In every reachable state recorder and router agree. */
  lemma {:induction false} RecorderAgrees(s: State, events: seq<Event>)
    requires Agrees(s.recorded, s.routes)
    ensures Agrees(Run(s, events).recorded, Run(s, events).routes)
    decreases |events|
  {
    if events != [] {
      if events[0].Register? {
        AgreesAfterRegistering(s.recorded, s.routes, [(events[0].uri, events[0].handler)]);
      } else if events[0].RegisterAll? {
        AgreesAfterRegistering(s.recorded, s.routes, events[0].routes);
      }
      RecorderAgrees(Apply(s, events[0]), events[1..]);
    }
  }

  /** A registered route keeps its handler for ever. */
  lemma {:induction false} RoutesAreStable(s: State, events: seq<Event>, uri: string)
    requires uri in s.routes
    ensures uri in Run(s, events).routes && Run(s, events).routes[uri] == s.routes[uri]
    decreases |events|
  {
    if events != [] {
      if events[0].Register? {
        FirstDeclarationWins(s.routes, [(events[0].uri, events[0].handler)]);
      } else if events[0].RegisterAll? {
        FirstDeclarationWins(s.routes, events[0].routes);
      }
      RoutesAreStable(Apply(s, events[0]), events[1..], uri);
    }
  }

  /** From the startup registration on, whatever is registered and requested later, a lookup that
      misses is served by the default handler. */
  lemma MissesGoToDefault(s: State, config: Block, events: seq<Event>, uri: string)
    requires RouterConfig(config)
    ensures var m := Run(Apply(s, RegisterAll(Declared(config))), events).routes;
            uri !in m ==> RouteHandler(m, config, uri) == "default"
  {
    var started := Apply(s, RegisterAll(Declared(config)));
    if uri !in Run(started, events).routes {
      if uri in started.routes {
        RoutesAreStable(started, events, uri);
      }
      FallbackNeverProxies(s.routes, config, uri);
    }
  }

  /** The request log grows by exactly the answered requests, in order. */
  lemma {:induction false} LogIsAnsweredRequests(s: State, events: seq<Event>)
    ensures Run(s, events).responses == s.responses + Answered(events)
    decreases |events|
  {
    if events == [] {
      NothingBehind(s.responses);
    } else {
      OneAnswer(s, events[0]);
      LogIsAnsweredRequests(Apply(s, events[0]), events[1..]);
      Assoc(s.responses, Answer(events[0]), Answered(events[1..]));
    }
  }

  lemma OneAnswer(s: State, e: Event)
    ensures Apply(s, e).responses == s.responses + Answer(e)
  {
    NothingBehind(s.responses);
  }

  // ----- The router -----

  datatype HandlerKind = Echo | StaticFile | Status | Proxy | Meme | Health | Default

  class Router {
    const config: Block
    const recorder: StatusRecorder
    var routeMap: RouteMap
    var headers: map<string, string>

    ghost predicate Valid()
      reads this, recorder
    {
      RouterConfig(config) && Agrees(recorder.prefixHandlers, routeMap)
    }

    ghost function Abstract(): State
      reads this, recorder
    {
      State(routeMap, headers, recorder.prefixHandlers, recorder.urlResponses)
    }

    constructor (config: Block, recorder: StatusRecorder)
      requires RouterConfig(config) && recorder.prefixHandlers == []
      ensures Valid() && this.config == config && this.recorder == recorder
      ensures Abstract() == EMPTY.(responses := recorder.urlResponses)
    {
      this.config, this.recorder := config, recorder;
      routeMap, headers := map[], map[];
    }

    method RegisterRoute(uri: string, handler: string) returns (ok: bool)
      requires Valid()
      modifies `routeMap, recorder`prefixHandlers
      ensures Valid() && ok
      ensures Abstract() == Apply(old(Abstract()), Register(uri, handler))
    {
      ghost var before, recorded := routeMap, recorder.prefixHandlers;
      var route := (uri, handler);
      if uri !in routeMap {
        AgreesAfterAdding(recorder.prefixHandlers, routeMap, route);
        recorder.RecordPrefix(route);
        routeMap := routeMap[uri := handler];
      }
      assert [route][..0] == [];
      assert AddRoutes(before, [route]) == AddRoute(AddRoutes(before, []), route);
      assert NewRoutes(before, [route]) == [] + (if uri in before then [] else [route]);
      assert recorded + [] == recorded;
      ok := true;
    }

    /** Registers the locations of one handler block. */
    method RegisterLocations(block: Block, handler: string)
      requires Valid() && LocationsHaveArgument(block)
      modifies `routeMap, recorder`prefixHandlers
      ensures Valid()
      ensures Abstract() == Apply(old(Abstract()), RegisterAll(Locations(block, handler)))
    {
      ghost var start := Abstract();
      assert start.recorded + [] == start.recorded;
      for j := 0 to |block|
        invariant Valid()
        invariant Abstract() == Apply(start, RegisterAll(Locations(block[..j], handler)))
      {
        var s := block[j];
        assert block[..j + 1][..j] == block[..j];
        if |s.tokens| > 0 && s.tokens[0] == "location" {
          ApplyInTurn(start, Locations(block[..j], handler), [(s.tokens[1], handler)]);
          var _ := RegisterRoute(s.tokens[1], handler);
        } else {
          assert Locations(block[..j], handler) + [] == Locations(block[..j], handler);
        }
      }
      assert block[..|block|] == block;
    }

    /** Registers all declared locations, in document order. */
    method RegisterRoutesFromConfig() returns (ok: bool)
      requires Valid()
      modifies `routeMap, recorder`prefixHandlers
      ensures Valid() && ok
      ensures Abstract() == Apply(old(Abstract()), RegisterAll(Declared(config)))
    {
      ghost var start := Abstract();
      assert start.recorded + [] == start.recorded;
      for i := 0 to |config|
        invariant Valid()
        invariant Abstract() == Apply(start, RegisterAll(Declared(config[..i])))
      {
        var s := config[i];
        assert config[..i + 1][..i] == config[..i];
        ApplyInTurn(start, Declared(config[..i]), StatementRoutes(s));
        if |s.tokens| > 1 && s.tokens[0] == "handler" && s.Nested? {
          RegisterLocations(s.child, s.tokens[1]);
        } else {
          assert Declared(config[..i]) + [] == Declared(config[..i]);
        }
      }
      assert config[..|config|] == config;
      ok := true;
    }

    method RegisterDefaultHeader(name: string, value: string) returns (ok: bool)
      modifies `headers
      ensures ok && headers == old(headers)[name := value]
      ensures Abstract() == Apply(old(Abstract()), SetHeader(name, value))
    {
      headers := headers[name := value];
      ok := true;
    }

    method GetHeader(name: string) returns (value: string)
      ensures value == if name in headers then headers[name] else ""
    {
      value := if name in headers then headers[name] else "";
    }

    /** Visits the routes in an arbitrary order. */
    method LongestPrefixMatch(uri: string) returns (longest: string)
      ensures IsLongestMatch(routeMap.Keys, uri, longest)
      ensures longest == LongestMatch(routeMap.Keys, uri)
    {
      longest := "";
      var todo := routeMap.Keys;
      while todo != {}
        invariant todo <= routeMap.Keys
        invariant IsLongestMatch(routeMap.Keys - todo, uri, longest)
        decreases |todo|
      {
        var prefix :| prefix in todo;
        todo := todo - {prefix};
        if |uri| >= |prefix| {
          var match_ := true;
          for i := 0 to |prefix|
            invariant match_ <==> prefix[..i] == uri[..i]
          {
            assert prefix[..i + 1] == prefix[..i] + [prefix[i]] && uri[..i + 1] == uri[..i] + [uri[i]];
            if prefix[i] != uri[i] {
              match_ := false;
            }
          }
          assert prefix[..|prefix|] == prefix;
          if match_ {
            longest := if |prefix| > |longest| then prefix else longest;
          }
        }
      }
      assert routeMap.Keys - todo == routeMap.Keys;
      MatchIsUnique(routeMap.Keys, uri, longest);
    }

    method GetHandlerConfig(name: string) returns (block: Option<Block>)
      requires RouterConfig(config)
      ensures block == HandlerConfig(config, name)
      ensures block.None? <==> forall i: nat :: !HandlerAt(config, i, name)
      ensures block.Some? ==> exists p: nat :: HandlerAt(config, p, name) && block == Some(config[p].child)
                                               && forall i: nat :: p < i ==> !HandlerAt(config, i, name)
    {
      block := None;
      for i := 0 to |config|
        invariant block == HandlerConfig(config[..i], name)
      {
        var s := config[i];
        assert config[..i + 1][..i] == config[..i];
        if s.Nested? {
          if s.tokens[0] == "handler" {
            if |s.tokens| > 1 && s.tokens[1] == name {
              block := Some(s.child);
            }
          }
        }
      }
      assert config[..|config|] == config;
      ghost var p := HandlerConfigIsLast(config, name);
    }

    method IsValidProxy(block: Block, name: string) returns (valid: bool)
      requires LocationsHaveArgument(block) && StatementsHaveTokens(block)
      ensures valid == ValidProxy(block, name)
      ensures valid <==> exists q: nat :: LocationAt(block, q, name)
    {
      for i := 0 to |block|
        invariant forall k :: 0 <= k < i ==> !(IsLocation(block[k]) && block[k].tokens[1] == name)
      {
        if block[i].tokens[0] == "location" && block[i].tokens[1] == name {
          assert LocationAt(block, i, name);
          return true;
        }
      }
      return false;
    }

    method GetRouteHandler(uri: string) returns (handler: string)
      requires RouterConfig(config)
      ensures handler == RouteHandler(routeMap, config, uri)
    {
      if uri in routeMap {
        handler := routeMap[uri];
      } else {
        var proxy := GetHandlerConfig("proxy");
        handler := "default";
        if proxy.Some? {
          HandlerConfigIsDeclared(config, "proxy");
          var valid := IsValidProxy(proxy.value, uri);
          if valid {
            handler := "proxy";
          }
        }
      }
    }

    /** The name of the handler that a URI gets, as a request and its log line determine it. */
    method HandlerName(uri: string) returns (handler: string)
      requires RouterConfig(config)
      ensures handler == ChosenHandler(routeMap, config, uri)
    {
      var route := LongestPrefixMatch(uri);
      handler := GetRouteHandler(route);
    }

    /** The implementation that serves a URI, and the config block it is given. */
    method SelectHandler(uri: string) returns (kind: HandlerKind, block: Option<Block>)
      requires RouterConfig(config)
      ensures kind == KindOf(ChosenHandler(routeMap, config, uri))
      ensures block
              == HandlerConfig(config, if kind == Default then "default" else ChosenHandler(routeMap, config, uri))
    {
      var handler := HandlerName(uri);
      kind := KindOf(handler);
      block := GetHandlerConfig(if kind == Default then "default" else handler);
    }

    /** Adds the default headers, in an arbitrary order, to a response's own. */
    method ApplyDefaultHeaders(own: map<string, string>) returns (all: map<string, string>)
      ensures all == own + headers
    {
      all := own;
      var todo := headers.Keys;
      while todo != {}
        invariant todo <= headers.Keys
        invariant all == own + (headers - todo)
        decreases |todo|
      {
        var name :| name in todo;
        todo := todo - {name};
        all := all[name := headers[name]];
      }
      assert headers - todo == headers;
    }

    /** Serves a request; `code` and `own` are the handler's response, `code` is absent if it threw. The
        result names the handler written to the log. */
    method RouteRequest(url: string, code: Option<int>, own: map<string, string>)
      returns (kind: HandlerKind, logged: string, all: map<string, string>)
      requires Valid()
      modifies recorder`urlResponses
      ensures Valid() && Abstract() == Apply(old(Abstract()), Request(url, code))
      ensures recorder.urlResponses
              == old(recorder.urlResponses) + (if code.Some? then [(url, code.value)] else [])
      ensures kind == KindOf(ChosenHandler(routeMap, config, url))
      ensures code.Some? ==> logged == ChosenHandler(routeMap, config, url) && all == own + headers
    {
      var block;
      kind, block := SelectHandler(url);
      logged, all := "", map[];
      if code.None? {
        return;
      }
      recorder.RecordRequest(url, code.value);
      logged := HandlerName(url);
      all := ApplyDefaultHeaders(own);
    }
  }

  /** The handler names the router knows; any other name is served by the default handler. */
  function KindOf(handler: string): HandlerKind {
    if handler == "echo" then Echo
    else if handler == "static1" || handler == "static2" || handler == "webMeme" || handler == "imageMeme" then
      StaticFile
    else if handler == "status" then Status
    else if handler == "proxy" then Proxy
    else if handler == "meme" then Meme
    else if handler == "health" then Health
    else Default
  }

  /** Nine names have a handler of their own kind. */
  lemma HandlerNames(name: string)
    ensures KindOf(name) == Echo <==> name == "echo"
    ensures KindOf(name) == StaticFile <==> name in ["static1", "static2", "webMeme", "imageMeme"]
    ensures KindOf(name) == Status <==> name == "status"
    ensures KindOf(name) == Proxy <==> name == "proxy"
    ensures KindOf(name) == Meme <==> name == "meme"
    ensures KindOf(name) == Health <==> name == "health"
    ensures KindOf(name) == Default <==>
            name !in ["echo", "static1", "static2", "webMeme", "imageMeme", "status", "proxy", "meme", "health"]
  {
    var statics := ["static1", "static2", "webMeme", "imageMeme"];
    assert statics[0] in statics && statics[1] in statics && statics[2] in statics && statics[3] in statics;
  }

  /** Registering two lists in turn is registering their concatenation. */
  lemma ApplyInTurn(s: State, a: seq<Route>, b: seq<Route>)
    ensures Apply(Apply(s, RegisterAll(a)), RegisterAll(b)) == Apply(s, RegisterAll(a + b))
    ensures |b| == 1 ==> Apply(Apply(s, RegisterAll(a)), Register(b[0].0, b[0].1)) == Apply(s, RegisterAll(a + b))
  {
    AddRoutesOfConcat(s.routes, a, b);
    var n := AddRoutes(s.routes, a);
    Assoc(s.recorded, NewRoutes(s.routes, a), NewRoutes(n, b));
    if |b| == 1 {
      assert b == [(b[0].0, b[0].1)];
    }
  }
}
