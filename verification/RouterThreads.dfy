/** The mutexes of src/router.cc and src/server_status_recorder.cc under all interleavings of any number
    of threads on one route map, and what holds in every state they can reach. */
module RouterThreads {
  import opened Wrappers
  import opened RouterSpec
  import opened Sequences
  import Router

  datatype Lock = LogLock | RouteMapLock | ConfigLock | PrefixListLock | ResponseListLock | HeaderLock

  /** A call of a public method. `code` is the status that the handler of a request answers with, or nothing
      if it throws. */
  datatype Call =
    | RouteRequest(uri: string, code: Option<int>)
    | GetRouteHandler(uri: string)
    | RegisterRoute(route: Route)
    | RegisterRoutesFromConfig
    | RegisterDefaultHeader
    | GetHeader

  /** The routes that the config declares, the shared state of the start, and what every thread calls in turn. */
  datatype System = System(declared: seq<Route>, start: Shared, threads: seq<seq<Call>>)

  /** The route map, and the recorder's two lists. */
  datatype Shared = Shared(routes: RouteMap, recorded: seq<Route>, responses: seq<Router.Response>)

  // ----- The instructions of each call -----

  /** The first eight are what calls are made of. The others are the stages of an instruction under way:
      looking up the handler of a prefix, which a URI has matched or which has been asked for itself, and
      adding a new route. */
  datatype Instruction =
    | Acquire(lock: Lock)
    | Release(lock: Lock)
    | LockRoutes
    | Match(uri: string)
    | Ask(prefix: string)
    | ShowPage
    | Answer(response: Router.Response)
    | Register(route: Route)
    | Leave(matched: Option<string>, prefix: string)
    | Enter(matched: Option<string>, prefix: string)
    | Find(matched: Option<string>, prefix: string)
    | LockProxy(matched: Option<string>, prefix: string)
    | UnlockProxy
    | LockList(route: Route)
    | Record(route: Route)
    | UnlockList(route: Route)
    | Insert(route: Route)

  type Program = seq<Instruction>

  function Guarded(lock: Lock): Program {
    [Acquire(lock), Release(lock)]
  }

  /** The status handler reads the recorder's lists, each under its lock. */
  function StatusPage(): Program {
    Guarded(ResponseListLock) + Guarded(ResponseListLock) + Guarded(PrefixListLock)
  }

  /** get_route_handler(longest_prefix_match(uri)). */
  function Lookup(uri: string): Program {
    [Acquire(RouteMapLock), Match(uri)]
  }

  /** Recording, logging and header application, which an exception of the handler skips. */
  function Epilogue(uri: string, code: Option<int>): Program {
    match code
    case None => []
    case Some(c) =>
      Answering((uri, c)) + [Acquire(LogLock)] + Lookup(uri) + [Release(LogLock)] + Guarded(HeaderLock)
  }

  function Answering(response: Router.Response): Program {
    [Acquire(ResponseListLock), Answer(response), Release(ResponseListLock)]
  }

  /** Registration while the config is locked. */
  function Registrations(routes: seq<Route>): Program {
    if routes == [] then []
    else [LockRoutes, Register(routes[0]), Release(RouteMapLock)] + Registrations(routes[1..])
  }

  function Instructions(declared: seq<Route>, c: Call): Program {
    match c
    case RouteRequest(uri, code) => Lookup(uri) + Guarded(ConfigLock) + [ShowPage] + Epilogue(uri, code)
    case GetRouteHandler(uri) => [Acquire(RouteMapLock), Ask(uri)]
    case RegisterRoute(route) => [Acquire(RouteMapLock), Register(route), Release(RouteMapLock)]
    case RegisterRoutesFromConfig => [Acquire(ConfigLock)] + Registrations(declared) + [Release(ConfigLock)]
    case RegisterDefaultHeader => Guarded(HeaderLock)
    case GetHeader => Guarded(HeaderLock)
  }

  // ----- Steps -----

  /** A thread: the number of calls it has begun, what is left of the last one, the locks it holds, and
      the registered handler that its last lookup found. */
  datatype Local = Local(begun: nat, todo: Program, held: set<Lock>, handler: Option<string>)

  datatype State = State(shared: Shared, locals: seq<Local>)

  /** The lock that an instruction waits for. */
  function Wants(i: Instruction): Option<Lock> {
    match i
    case Acquire(lock) => Some(lock)
    case LockRoutes => Some(RouteMapLock)
    case Enter(_, _) => Some(RouteMapLock)
    case LockProxy(_, _) => Some(ConfigLock)
    case LockList(_) => Some(PrefixListLock)
    case _ => None
  }

  function Frees(i: Instruction): Option<Lock> {
    match i
    case Release(lock) => Some(lock)
    case Leave(_, _) => Some(RouteMapLock)
    case UnlockProxy => Some(ConfigLock)
    case UnlockList(_) => Some(PrefixListLock)
    case _ => None
  }

  function HeldAfter(held: set<Lock>, i: Instruction): set<Lock> {
    if Wants(i).Some? then held + {Wants(i).value}
    else if Frees(i).Some? then held - {Frees(i).value}
    else held
  }

  /** What an instruction leaves to be done in its place. A lookup that misses locks the config, a route
      that is new locks the recorder's list. */
  function Stage(routes: RouteMap, i: Instruction, handler: Option<string>): Program {
    match i
    case Match(uri) => [Leave(Some(uri), LongestMatch(routes.Keys, uri))]
    case Ask(prefix) => [Find(None, prefix)]
    case Leave(matched, prefix) => [Enter(matched, prefix)]
    case Enter(matched, prefix) => [Find(matched, prefix)]
    case Find(matched, prefix) => [if prefix in routes then Release(RouteMapLock) else LockProxy(matched, prefix)]
    case LockProxy(_, _) => [UnlockProxy]
    case UnlockProxy => [Release(RouteMapLock)]
    case ShowPage => if handler == Some("status") then StatusPage() else []
    case Register(route) => if route.0 in routes then [] else [LockList(route)]
    case LockList(route) => [Record(route)]
    case Record(route) => [UnlockList(route)]
    case UnlockList(route) => [Insert(route)]
    case _ => []
  }

  function HandlerAfter(routes: RouteMap, i: Instruction, handler: Option<string>): Option<string> {
    if i.Find? then (if i.prefix in routes then Some(routes[i.prefix]) else None) else handler
  }

  function SharedAfter(s: Shared, i: Instruction): Shared {
    match i
    case Answer(response) => s.(responses := s.responses + [response])
    case Record(route) => s.(recorded := s.recorded + [route])
    case Insert(route) => s.(routes := s.routes[route.0 := route.1])
    case _ => s
  }

  function LocalAfter(routes: RouteMap, l: Local): Local
    requires l.todo != []
  {
    var i := l.todo[0];
    Local(l.begun, Stage(routes, i, l.handler) + l.todo[1..], HeldAfter(l.held, i), HandlerAfter(routes, i, l.handler))
  }

  function Begin(declared: seq<Route>, calls: seq<Call>, l: Local): Local
    requires l.begun < |calls|
  {
    l.(begun := l.begun + 1, todo := Instructions(declared, calls[l.begun]))
  }

  predicate InState(sys: System, s: State) {
    |s.locals| == |sys.threads| && forall i :: 0 <= i < |s.locals| ==> s.locals[i].begun <= |sys.threads[i]|
  }

  predicate Unfinished(sys: System, s: State, i: nat)
    requires InState(sys, s) && i < |s.locals|
  {
    s.locals[i].todo != [] || s.locals[i].begun < |sys.threads[i]|
  }

  /** A thread can go on unless it wants a lock that some thread holds. */
  ghost predicate CanStep(sys: System, s: State, i: nat)
    requires InState(sys, s) && i < |s.locals|
  {
    && Unfinished(sys, s, i)
    && (s.locals[i].todo != [] && Wants(s.locals[i].todo[0]).Some? ==>
          forall j :: 0 <= j < |s.locals| ==> Wants(s.locals[i].todo[0]).value !in s.locals[j].held)
  }

  function Step(sys: System, s: State, i: nat): (n: State)
    requires InState(sys, s) && i < |s.locals| && Unfinished(sys, s, i)
    ensures InState(sys, n)
  {
    var l := s.locals[i];
    if l.todo == [] then s.(locals := s.locals[i := Begin(sys.declared, sys.threads[i], l)])
    else State(SharedAfter(s.shared, l.todo[0]), s.locals[i := LocalAfter(s.shared.routes, l)])
  }

  function Initial(sys: System): (s: State)
    ensures InState(sys, s)
  {
    State(sys.start, seq(|sys.threads|, _ => Local(0, [], {}, None)))
  }

  /** The state after a schedule, which names the thread of each step. */
  ghost function Exec(sys: System, schedule: seq<nat>): (r: Option<State>)
    ensures r.Some? ==> InState(sys, r.value)
  {
    if schedule == [] then Some(Initial(sys))
    else
      var before := Exec(sys, schedule[..|schedule| - 1]);
      var i := schedule[|schedule| - 1];
      if before.Some? && i < |sys.threads| && CanStep(sys, before.value, i) then Some(Step(sys, before.value, i))
      else None
  }

  ghost predicate Reachable(sys: System, s: State) {
    exists schedule :: Exec(sys, schedule) == Some(s)
  }

  /** Some thread is unfinished, and none can go on. */
  ghost predicate Deadlocked(sys: System, s: State)
    requires InState(sys, s)
  {
    && (exists i :: 0 <= i < |s.locals| && Unfinished(sys, s, i))
    && (forall i :: 0 <= i < |s.locals| ==> !CanStep(sys, s, i))
  }

  ghost predicate CanDeadlock(sys: System) {
    exists s :: Reachable(sys, s) && InState(sys, s) && Deadlocked(sys, s)
  }

  // ----- The discipline of a single thread -----

  /** The locks under which a lookup or a registration works inside the route map lock. */
  predicate Looking(held: set<Lock>) {
    held == {RouteMapLock} || held == {LogLock, RouteMapLock}
  }

  predicate Adding(held: set<Lock>) {
    held == {RouteMapLock} || held == {ConfigLock, RouteMapLock}
  }

  /** With which locks an instruction is met. */
  predicate Met(held: set<Lock>, i: Instruction) {
    match i
    case Acquire(lock) => held == {} || (held == {LogLock} && lock == RouteMapLock)
    case Release(lock) => lock in held
    case LockRoutes => held == {ConfigLock}
    case Match(_) => Looking(held)
    case Ask(_) => Looking(held)
    case ShowPage => held == {}
    case Answer(_) => held == {ResponseListLock}
    case Register(_) => Adding(held)
    case Leave(_, _) => Looking(held)
    case Enter(_, _) => held == {} || held == {LogLock}
    case Find(_, _) => Looking(held)
    case LockProxy(_, _) => Looking(held)
    case UnlockProxy => ConfigLock in held && Looking(held - {ConfigLock})
    case LockList(_) => Adding(held)
    case Record(_) => PrefixListLock in held && Adding(held - {PrefixListLock})
    case UnlockList(_) => PrefixListLock in held && Adding(held - {PrefixListLock})
    case Insert(_) => Adding(held)
  }

  /** The locks held when an instruction and all its stages are over. */
  function Finally(held: set<Lock>, i: Instruction): set<Lock> {
    match i
    case Acquire(lock) => held + {lock}
    case Release(lock) => held - {lock}
    case LockRoutes => held + {RouteMapLock}
    case Match(_) => held - {RouteMapLock}
    case Ask(_) => held - {RouteMapLock}
    case Leave(_, _) => held - {RouteMapLock}
    case Find(_, _) => held - {RouteMapLock}
    case LockProxy(_, _) => held - {RouteMapLock}
    case UnlockProxy => held - {ConfigLock} - {RouteMapLock}
    case Record(_) => held - {PrefixListLock}
    case UnlockList(_) => held - {PrefixListLock}
    case _ => held
  }

  /** Every instruction is met with its locks, and at the end none is held. */
  predicate Disciplined(held: set<Lock>, p: Program)
    decreases |p|
  {
    if p == [] then held == {} else Met(held, p[0]) && Disciplined(Finally(held, p[0]), p[1..])
  }

  lemma DisciplineOfStep(held: set<Lock>, i: Instruction, rest: Program)
    ensures Disciplined(held, [i] + rest) <==> Met(held, i) && Disciplined(Finally(held, i), rest)
  {
    assert ([i] + rest)[1..] == rest;
  }

  lemma DisciplineOfGuarded(lock: Lock, rest: Program)
    requires Disciplined({}, rest)
    ensures Disciplined({}, Guarded(lock) + rest)
  {
    DisciplineOfStep({lock}, Release(lock), rest);
    DisciplineOfStep({}, Acquire(lock), [Release(lock)] + rest);
    assert {} + {lock} == {lock} && {lock} - {lock} == {};
    assert [Acquire(lock)] + ([Release(lock)] + rest) == Guarded(lock) + rest;
  }

  lemma DisciplineOfAnswering(response: Router.Response, rest: Program)
    requires Disciplined({}, rest)
    ensures Disciplined({}, Answering(response) + rest)
  {
    var lock := ResponseListLock;
    DisciplineOfStep({lock}, Release(lock), rest);
    DisciplineOfStep({lock}, Answer(response), [Release(lock)] + rest);
    DisciplineOfStep({}, Acquire(lock), [Answer(response)] + ([Release(lock)] + rest));
    assert {} + {lock} == {lock} && {lock} - {lock} == {};
    assert [Acquire(lock)] + ([Answer(response)] + ([Release(lock)] + rest)) == Answering(response) + rest;
  }

  lemma DisciplineOfQuestion(prefix: string)
    ensures Disciplined({}, [Acquire(RouteMapLock), Ask(prefix)])
  {
    DisciplineOfStep({RouteMapLock}, Ask(prefix), []);
    DisciplineOfStep({}, Acquire(RouteMapLock), [Ask(prefix)] + []);
    assert {} + {RouteMapLock} == {RouteMapLock} && {RouteMapLock} - {RouteMapLock} == {};
    assert [Acquire(RouteMapLock)] + ([Ask(prefix)] + []) == [Acquire(RouteMapLock), Ask(prefix)];
  }

  lemma DisciplineOfLookup(held: set<Lock>, uri: string, rest: Program)
    requires (held == {} || held == {LogLock}) && Disciplined(held, rest)
    ensures Disciplined(held, Lookup(uri) + rest)
  {
    var inside := held + {RouteMapLock};
    assert inside - {RouteMapLock} == held;
    DisciplineOfStep(inside, Match(uri), rest);
    DisciplineOfStep(held, Acquire(RouteMapLock), [Match(uri)] + rest);
    assert [Acquire(RouteMapLock)] + ([Match(uri)] + rest) == Lookup(uri) + rest;
  }

  lemma DisciplineOfRegistration(held: set<Lock>, lock: Instruction, route: Route, rest: Program)
    requires (held == {} && lock == Acquire(RouteMapLock)) || (held == {ConfigLock} && lock == LockRoutes)
    requires Disciplined(held, rest)
    ensures Disciplined(held, [lock, Register(route), Release(RouteMapLock)] + rest)
  {
    var inside := held + {RouteMapLock};
    assert inside - {RouteMapLock} == held;
    DisciplineOfStep(inside, Release(RouteMapLock), rest);
    DisciplineOfStep(inside, Register(route), [Release(RouteMapLock)] + rest);
    DisciplineOfStep(held, lock, [Register(route)] + ([Release(RouteMapLock)] + rest));
    assert [lock] + ([Register(route)] + ([Release(RouteMapLock)] + rest))
           == [lock, Register(route), Release(RouteMapLock)] + rest;
  }

  lemma {:induction false} DisciplineOfRegistrations(routes: seq<Route>, rest: Program)
    requires Disciplined({ConfigLock}, rest)
    ensures Disciplined({ConfigLock}, Registrations(routes) + rest)
  {
    if routes == [] {
      assert Registrations(routes) + rest == rest;
    } else {
      var others := Registrations(routes[1..]) + rest;
      DisciplineOfRegistrations(routes[1..], rest);
      DisciplineOfRegistration({ConfigLock}, LockRoutes, routes[0], others);
      Assoc([LockRoutes, Register(routes[0]), Release(RouteMapLock)], Registrations(routes[1..]), rest);
    }
  }

  lemma DisciplineOfEpilogue(uri: string, code: Option<int>)
    ensures Disciplined({}, Epilogue(uri, code))
  {
    if code.Some? {
      var answer := (uri, code.value);
      var end := Guarded(HeaderLock);
      DisciplineOfGuarded(HeaderLock, []);
      NothingBehind(end);
      assert {LogLock} - {LogLock} == {} && {} + {LogLock} == {LogLock};
      DisciplineOfStep({LogLock}, Release(LogLock), end);
      DisciplineOfLookup({LogLock}, uri, [Release(LogLock)] + end);
      DisciplineOfStep({}, Acquire(LogLock), Lookup(uri) + ([Release(LogLock)] + end));
      DisciplineOfAnswering(answer, [Acquire(LogLock)] + (Lookup(uri) + ([Release(LogLock)] + end)));
      FivePrograms(Answering(answer), [Acquire(LogLock)], Lookup(uri), [Release(LogLock)], end);
    }
  }

  lemma FivePrograms(a: Program, b: Program, c: Program, d: Program, e: Program)
    ensures a + b + c + d + e == a + (b + (c + (d + e)))
  {
    Assoc(c, d, e);
    Assoc(b, c, d + e);
    Assoc(a, b, c);
    Assoc(a, b + c, d);
    Assoc(a, b + c + d, e);
    Assoc(b + c, d, e);
  }

  lemma DisciplineOfRequest(uri: string, code: Option<int>)
    ensures Disciplined({}, Lookup(uri) + Guarded(ConfigLock) + [ShowPage] + Epilogue(uri, code))
  {
    var end := Epilogue(uri, code);
    DisciplineOfEpilogue(uri, code);
    DisciplineOfStep({}, ShowPage, end);
    DisciplineOfGuarded(ConfigLock, [ShowPage] + end);
    DisciplineOfLookup({}, uri, Guarded(ConfigLock) + ([ShowPage] + end));
    Assoc(Lookup(uri), Guarded(ConfigLock), [ShowPage]);
    Assoc(Lookup(uri), Guarded(ConfigLock) + [ShowPage], end);
    Assoc(Guarded(ConfigLock), [ShowPage], end);
  }

  lemma DisciplineOfConfigRegistration(declared: seq<Route>)
    ensures Disciplined({}, [Acquire(ConfigLock)] + Registrations(declared) + [Release(ConfigLock)])
  {
    assert {ConfigLock} - {ConfigLock} == {} && {} + {ConfigLock} == {ConfigLock};
    DisciplineOfStep({ConfigLock}, Release(ConfigLock), []);
    NothingBehind([Release(ConfigLock)]);
    DisciplineOfRegistrations(declared, [Release(ConfigLock)]);
    DisciplineOfStep({}, Acquire(ConfigLock), Registrations(declared) + [Release(ConfigLock)]);
    Assoc([Acquire(ConfigLock)], Registrations(declared), [Release(ConfigLock)]);
  }

  /** Every call is disciplined. */
  lemma DisciplineOfCall(declared: seq<Route>, c: Call)
    ensures Disciplined({}, Instructions(declared, c))
  {
    match c
    case RouteRequest(uri, code) => DisciplineOfRequest(uri, code);
    case GetRouteHandler(uri) => DisciplineOfQuestion(uri);
    case RegisterRoute(route) =>
      DisciplineOfRegistration({}, Acquire(RouteMapLock), route, []);
      NothingBehind([Acquire(RouteMapLock), Register(route), Release(RouteMapLock)]);
    case RegisterRoutesFromConfig => DisciplineOfConfigRegistration(declared);
    case _ =>
      DisciplineOfGuarded(HeaderLock, []);
      NothingBehind(Guarded(HeaderLock));
  }

  /** A stage is met with the locks that its predecessor leaves, and ends as that would. */
  lemma StageIsMet(routes: RouteMap, held: set<Lock>, i: Instruction, handler: Option<string>)
    requires Met(held, i) && !i.ShowPage?
    ensures var stage, after := Stage(routes, i, handler), HeldAfter(held, i);
            if stage == [] then after == Finally(held, i)
            else |stage| == 1 && Met(after, stage[0]) && Finally(after, stage[0]) == Finally(held, i)
  {
  }

  lemma StepKeepsDiscipline(routes: RouteMap, l: Local)
    requires l.todo != [] && Disciplined(l.held, l.todo)
    ensures Disciplined(LocalAfter(routes, l).held, LocalAfter(routes, l).todo)
  {
    var i, rest := l.todo[0], l.todo[1..];
    var stage := Stage(routes, i, l.handler);
    if i.ShowPage? {
      DisciplineOfPage(rest);
      assert [] + rest == rest;
    } else {
      StageIsMet(routes, l.held, i, l.handler);
      if stage == [] {
        assert [] + rest == rest;
      } else {
        assert stage == [stage[0]];
        DisciplineOfStep(HeldAfter(l.held, i), stage[0], rest);
      }
    }
  }

  lemma DisciplineOfPage(rest: Program)
    requires Disciplined({}, rest)
    ensures Disciplined({}, StatusPage() + rest)
  {
    var g, p := Guarded(ResponseListLock), Guarded(PrefixListLock);
    DisciplineOfGuarded(PrefixListLock, rest);
    DisciplineOfGuarded(ResponseListLock, p + rest);
    DisciplineOfGuarded(ResponseListLock, g + (p + rest));
    Assoc(g, g, p);
    Assoc(g, g + p, rest);
    Assoc(g, p, rest);
  }

  // ----- What a thread knows -----

  /** The prefixes that a call registers. */
  function Prefixes(declared: seq<Route>, c: Call): set<string> {
    match c
    case RegisterRoute(route) => {route.0}
    case RegisterRoutesFromConfig => set r | r in declared :: r.0
    case _ => {}
  }

  function Registered(declared: seq<Route>, calls: seq<Call>): set<string> {
    if calls == [] then {}
    else Registered(declared, calls[..|calls| - 1]) + Prefixes(declared, calls[|calls| - 1])
  }

  /** What is registered for sure before call `k` of a thread: the routes of the start, and what the thread
      itself has registered. */
  function Before(sys: System, calls: seq<Call>, k: nat): set<string>
    requires k <= |calls|
  {
    sys.start.routes.Keys + Registered(sys.declared, calls[..k])
  }

  lemma BeforeNext(sys: System, calls: seq<Call>, k: nat)
    requires k < |calls|
    ensures Before(sys, calls, k + 1) == Before(sys, calls, k) + Prefixes(sys.declared, calls[k])
  {
    assert calls[..k + 1][..k] == calls[..k];
  }

  predicate IsStage(i: Instruction) {
    || i.Leave? || i.Enter? || i.Find? || i.LockProxy? || i.UnlockProxy?
    || i.LockList? || i.Record? || i.UnlockList? || i.Insert?
  }

  /** The call looks up a prefix that its URI has matched, or its URI itself. */
  predicate LooksUp(c: Call, matched: Option<string>, prefix: string) {
    match matched
    case Some(uri) => c.RouteRequest? && uri == c.uri
    case None => c.GetRouteHandler? && prefix == c.uri
  }

  /** The instruction can be part of the call. */
  predicate Fits(declared: seq<Route>, c: Call, i: Instruction) {
    match i
    case Match(uri) => c.RouteRequest? && uri == c.uri
    case Ask(prefix) => LooksUp(c, None, prefix)
    case Leave(matched, prefix) => LooksUp(c, matched, prefix)
    case Enter(matched, prefix) => LooksUp(c, matched, prefix)
    case Find(matched, prefix) => LooksUp(c, matched, prefix)
    case LockProxy(matched, prefix) => LooksUp(c, matched, prefix)
    case LockRoutes => c.RegisterRoutesFromConfig? && declared != []
    case Register(route) => route.0 in Prefixes(declared, c)
    case LockList(route) => route.0 in Prefixes(declared, c)
    case Record(route) => route.0 in Prefixes(declared, c)
    case UnlockList(route) => route.0 in Prefixes(declared, c)
    case Insert(route) => route.0 in Prefixes(declared, c)
    case _ => true
  }

  /** Only the empty string matches. */
  predicate Unmatched(prefixes: set<string>, uri: string) {
    forall u :: u in prefixes && u <= uri ==> u == ""
  }

  /** A prefix that a URI has matched is a route, unless it is empty because nothing matched. */
  predicate Matched(routes: RouteMap, known: set<string>, matched: Option<string>, prefix: string) {
    matched.None? || prefix in routes || (prefix == "" && Unmatched(known, matched.value))
  }

  /** What holds of the route map while an instruction is next; `known` are prefixes registered before. */
  predicate Knows(routes: RouteMap, known: set<string>, i: Instruction) {
    match i
    case Leave(matched, prefix) => Matched(routes, known, matched, prefix)
    case Enter(matched, prefix) => Matched(routes, known, matched, prefix)
    case Find(matched, prefix) => Matched(routes, known, matched, prefix)
    case LockProxy(matched, prefix) => prefix !in routes && Matched(routes, known, matched, prefix)
    case LockList(route) => route.0 !in routes
    case Record(route) => route.0 !in routes
    case UnlockList(route) => route.0 !in routes
    case Insert(route) => route.0 !in routes
    case _ => true
  }

  predicate Adds(i: Instruction, u: string) {
    match i
    case Register(route) => route.0 == u
    case LockList(route) => route.0 == u
    case Record(route) => route.0 == u
    case UnlockList(route) => route.0 == u
    case Insert(route) => route.0 == u
    case _ => false
  }

  predicate AllFit(declared: seq<Route>, c: Call, p: Program) {
    forall k :: 0 <= k < |p| ==> Fits(declared, c, p[k])
  }

  predicate NoStages(p: Program) {
    forall k :: 0 <= k < |p| ==> !IsStage(p[k])
  }

  predicate WillAdd(p: Program, u: string) {
    exists k :: 0 <= k < |p| && Adds(p[k], u)
  }

  /** The prefixes are registered or still to be registered. */
  predicate Covered(routes: RouteMap, prefixes: set<string>, p: Program) {
    forall u :: u in prefixes ==> u in routes || WillAdd(p, u)
  }

  /** A thread in the middle of a call. */
  predicate InCall(declared: seq<Route>, c: Call, routes: RouteMap, known: set<string>, p: Program) {
    && AllFit(declared, c, p)
    && Covered(routes, Prefixes(declared, c), p)
    && (p != [] ==> NoStages(p[1..]) && Knows(routes, known, p[0]))
  }

  predicate LocalOk(sys: System, calls: seq<Call>, routes: RouteMap, l: Local) {
    && l.begun <= |calls|
    && Disciplined(l.held, l.todo)
    && if l.todo == [] then Before(sys, calls, l.begun) <= routes.Keys
       else
         && l.begun > 0
         && Before(sys, calls, l.begun - 1) <= routes.Keys
         && InCall(sys.declared, calls[l.begun - 1], routes, Before(sys, calls, l.begun - 1), l.todo)
  }

  lemma FitsOfConcat(declared: seq<Route>, c: Call, p: Program, q: Program)
    ensures AllFit(declared, c, p + q) <==> AllFit(declared, c, p) && AllFit(declared, c, q)
    ensures NoStages(p + q) <==> NoStages(p) && NoStages(q)
  {
    var all := p + q;
    assert forall k :: 0 <= k < |p| ==> p[k] == all[k];
    assert forall k :: 0 <= k < |q| ==> q[k] == all[|p| + k];
  }

  lemma AddsOfConcat(p: Program, q: Program, u: string)
    ensures WillAdd(p + q, u) <==> WillAdd(p, u) || WillAdd(q, u)
  {
    var all := p + q;
    if WillAdd(p, u) {
      var k :| 0 <= k < |p| && Adds(p[k], u);
      assert all[k] == p[k];
    }
    if WillAdd(q, u) {
      var k :| 0 <= k < |q| && Adds(q[k], u);
      assert all[|p| + k] == q[k];
    }
  }

  lemma AddsFirst(i: Instruction, rest: Program, u: string)
    ensures WillAdd([i] + rest, u) <==> Adds(i, u) || WillAdd(rest, u)
  {
    AddsOfConcat([i], rest, u);
    assert Adds(i, u) ==> Adds([i][0], u);
  }

  // ----- Beginning a call -----

  lemma {:induction false} RegistrationsFit(declared: seq<Route>, routes: seq<Route>)
    requires forall r :: r in routes ==> r in declared
    ensures AllFit(declared, RegisterRoutesFromConfig, Registrations(routes)) && NoStages(Registrations(routes))
    ensures forall r :: r in routes ==> WillAdd(Registrations(routes), r.0)
  {
    if routes != [] {
      var first, others := [LockRoutes, Register(routes[0]), Release(RouteMapLock)], Registrations(routes[1..]);
      assert routes[0] in declared;
      RegistrationsFit(declared, routes[1..]);
      FitsOfConcat(declared, RegisterRoutesFromConfig, first, others);
      forall r | r in routes ensures WillAdd(Registrations(routes), r.0) {
        AddsOfConcat(first, others, r.0);
        assert r == routes[0] || r in routes[1..];
        assert Adds(first[1], routes[0].0);
      }
    }
  }

  lemma ConfigRegistrationFits(declared: seq<Route>)
    ensures var p := Instructions(declared, RegisterRoutesFromConfig);
            AllFit(declared, RegisterRoutesFromConfig, p) && NoStages(p)
            && forall u :: u in Prefixes(declared, RegisterRoutesFromConfig) ==> WillAdd(p, u)
  {
    var c, all := RegisterRoutesFromConfig, Registrations(declared);
    var start, end := [Acquire(ConfigLock)], [Release(ConfigLock)];
    RegistrationsFit(declared, declared);
    FitsOfConcat(declared, c, start, all);
    FitsOfConcat(declared, c, start + all, end);
    forall u | u in Prefixes(declared, c) ensures WillAdd(Instructions(declared, c), u) {
      AddsOfConcat(start, all, u);
      AddsOfConcat(start + all, end, u);
    }
  }

  lemma EpilogueFits(declared: seq<Route>, uri: string, code: Option<int>)
    ensures AllFit(declared, RouteRequest(uri, code), Epilogue(uri, code)) && NoStages(Epilogue(uri, code))
  {
    if code.Some? {
      var c := RouteRequest(uri, code);
      var a, b := Answering((uri, code.value)) + [Acquire(LogLock)], Lookup(uri);
      FitsOfConcat(declared, c, a, b);
      FitsOfConcat(declared, c, a + b, [Release(LogLock)]);
      FitsOfConcat(declared, c, a + b + [Release(LogLock)], Guarded(HeaderLock));
    }
  }

  lemma RequestFits(declared: seq<Route>, uri: string, code: Option<int>)
    ensures var c := RouteRequest(uri, code);
            AllFit(declared, c, Instructions(declared, c)) && NoStages(Instructions(declared, c))
  {
    var c, start := RouteRequest(uri, code), Lookup(uri) + Guarded(ConfigLock);
    EpilogueFits(declared, uri, code);
    FitsOfConcat(declared, c, start, [ShowPage]);
    FitsOfConcat(declared, c, start + [ShowPage], Epilogue(uri, code));
  }

  lemma BeginsInCall(declared: seq<Route>, c: Call, routes: RouteMap, known: set<string>)
    ensures Instructions(declared, c) != [] && InCall(declared, c, routes, known, Instructions(declared, c))
  {
    var p := Instructions(declared, c);
    match c {
      case RouteRequest(uri, code) => RequestFits(declared, uri, code);
      case RegisterRoute(route) => assert Adds(p[1], route.0);
      case RegisterRoutesFromConfig => ConfigRegistrationFits(declared);
      case _ =>
    }
    assert NoStages(p);
    assert !IsStage(p[0]);
  }

  // ----- Going on with a call -----

  lemma StageFits(declared: seq<Route>, c: Call, routes: RouteMap, i: Instruction, handler: Option<string>)
    requires Fits(declared, c, i)
    ensures AllFit(declared, c, Stage(routes, i, handler))
    ensures |Stage(routes, i, handler)| <= 1 || (i.ShowPage? && NoStages(Stage(routes, i, handler)))
  {
  }

  /** What a stage adds is what its predecessor was to add, unless that has become a route. */
  lemma StageAdds(s: Shared, i: Instruction, handler: Option<string>, u: string)
    requires Adds(i, u)
    ensures u in SharedAfter(s, i).routes || WillAdd(Stage(s.routes, i, handler), u)
  {
    var stage := Stage(s.routes, i, handler);
    if u !in SharedAfter(s, i).routes {
      assert Adds(stage[0], u);
    }
  }

  lemma StageKnows(s: Shared, known: set<string>, i: Instruction, handler: Option<string>)
    requires known <= s.routes.Keys && Knows(s.routes, known, i)
    ensures var stage := Stage(s.routes, i, handler);
            stage != [] ==> Knows(SharedAfter(s, i).routes, known, stage[0])
  {
    if i.Match? {
      var prefix := LongestMatch(s.routes.Keys, i.uri);
      MatchIsUnique(s.routes.Keys, i.uri, prefix);
      assert prefix == "" ==> Unmatched(known, i.uri);
    }
  }

  lemma StepStaysInCall(declared: seq<Route>, c: Call, s: Shared, known: set<string>, l: Local)
    requires l.todo != [] && known <= s.routes.Keys && InCall(declared, c, s.routes, known, l.todo)
    ensures InCall(declared, c, SharedAfter(s, l.todo[0]).routes, known, LocalAfter(s.routes, l).todo)
  {
    var i, rest := l.todo[0], l.todo[1..];
    var stage, routes := Stage(s.routes, i, l.handler), SharedAfter(s, i).routes;
    assert l.todo == [i] + rest;
    FitsOfConcat(declared, c, [i], rest);
    assert Fits(declared, c, i);
    StageFits(declared, c, s.routes, i, l.handler);
    FitsOfConcat(declared, c, stage, rest);
    forall u | u in Prefixes(declared, c) ensures u in routes || WillAdd(stage + rest, u) {
      AddsFirst(i, rest, u);
      AddsOfConcat(stage, rest, u);
      if Adds(i, u) {
        StageAdds(s, i, l.handler, u);
      }
    }
    StageKnows(s, known, i, l.handler);
    StageFirst(stage, rest);
  }

  lemma StageFirst(stage: Program, rest: Program)
    requires NoStages(rest) && (|stage| <= 1 || NoStages(stage))
    ensures stage + rest != [] ==> NoStages((stage + rest)[1..])
    ensures stage != [] ==> (stage + rest)[0] == stage[0]
    ensures stage == [] && rest != [] ==> !IsStage((stage + rest)[0])
  {
    var all := stage + rest;
    forall k | 1 <= k < |all| ensures !IsStage(all[k]) {
      assert all[k] == if k < |stage| then stage[k] else rest[k - |stage|];
    }
  }

  /** A step of a thread keeps what it knows. */
  lemma StepKeepsLocal(sys: System, calls: seq<Call>, s: Shared, l: Local)
    requires l.todo != [] && LocalOk(sys, calls, s.routes, l)
    ensures LocalOk(sys, calls, SharedAfter(s, l.todo[0]).routes, LocalAfter(s.routes, l))
  {
    var known := Before(sys, calls, l.begun - 1);
    StepKeepsDiscipline(s.routes, l);
    StepStaysInCall(sys.declared, calls[l.begun - 1], s, known, l);
    BeforeNext(sys, calls, l.begun - 1);
    var n := LocalAfter(s.routes, l);
    if n.todo == [] {
      forall u | u in Prefixes(sys.declared, calls[l.begun - 1]) ensures u in SharedAfter(s, l.todo[0]).routes {
        assert !WillAdd([], u);
      }
    }
  }

  lemma BeginKeepsLocal(sys: System, calls: seq<Call>, routes: RouteMap, l: Local)
    requires l.todo == [] && l.begun < |calls| && LocalOk(sys, calls, routes, l)
    ensures LocalOk(sys, calls, routes, Begin(sys.declared, calls, l))
  {
    DisciplineOfCall(sys.declared, calls[l.begun]);
    BeginsInCall(sys.declared, calls[l.begun], routes, Before(sys, calls, l.begun));
  }

  /** A thread keeps what it knows while others add routes, unless it holds the route map lock. */
  lemma OthersKeepLocal(sys: System, calls: seq<Call>, routes: RouteMap, more: RouteMap, l: Local)
    requires LocalOk(sys, calls, routes, l) && routes.Keys <= more.Keys
    requires more == routes || RouteMapLock !in l.held
    ensures LocalOk(sys, calls, more, l)
  {
    if l.todo != [] {
      assert Met(l.held, l.todo[0]);
    }
  }

  // ----- The invariant of the whole system -----

  predicate Exclusive(s: State) {
    forall i, j :: 0 <= i < j < |s.locals| ==> s.locals[i].held !! s.locals[j].held
  }

  /** The route that a thread has recorded and not yet inserted. */
  function InFlight(l: Local): Option<Route> {
    if l.todo != [] && l.todo[0].UnlockList? then Some(l.todo[0].route)
    else if l.todo != [] && l.todo[0].Insert? then Some(l.todo[0].route)
    else None
  }

  /** The recorder agrees with the route map, or with what that is about to become. */
  ghost predicate RecorderOk(s: State) {
    && (forall i :: 0 <= i < |s.locals| && InFlight(s.locals[i]).Some? ==>
          Router.Agrees(s.shared.recorded, AddRoute(s.shared.routes, InFlight(s.locals[i]).value)))
    && ((forall i :: 0 <= i < |s.locals| ==> InFlight(s.locals[i]).None?) ==>
          Router.Agrees(s.shared.recorded, s.shared.routes))
  }

  /** Every route is one of the start, or one that some thread has begun to register. */
  ghost predicate KnownOrigin(sys: System, s: State, u: string)
    requires InState(sys, s)
  {
    || u in sys.start.routes
    || exists i :: 0 <= i < |s.locals| && u in Registered(sys.declared, sys.threads[i][..s.locals[i].begun])
  }

  ghost predicate Threads(sys: System, s: State)
    requires InState(sys, s)
  {
    forall i :: 0 <= i < |s.locals| ==> LocalOk(sys, sys.threads[i], s.shared.routes, s.locals[i])
  }

  ghost predicate Inv(sys: System, s: State) {
    && InState(sys, s) && Threads(sys, s) && Exclusive(s)
    && (Router.Agrees(sys.start.recorded, sys.start.routes) ==> RecorderOk(s))
    && forall u :: u in s.shared.routes ==> KnownOrigin(sys, s, u)
  }

  lemma InitiallyInv(sys: System)
    ensures Inv(sys, Initial(sys))
  {
    forall i | 0 <= i < |sys.threads| ensures LocalOk(sys, sys.threads[i], sys.start.routes, Initial(sys).locals[i]) {
      assert sys.threads[i][..0] == [];
    }
  }

  lemma HeldLocks(l: Local)
    requires Disciplined(l.held, l.todo) && l.todo != []
    ensures l.todo[0].Record? || l.todo[0].Insert? || InFlight(l).Some? ==> RouteMapLock in l.held
    ensures Wants(l.todo[0]).Some? ==> Wants(l.todo[0]).value !in l.held
  {
    assert Met(l.held, l.todo[0]);
  }

  lemma StepKeepsThreads(sys: System, s: State, i: nat)
    requires InState(sys, s) && Threads(sys, s) && Exclusive(s) && i < |s.locals| && CanStep(sys, s, i)
    ensures Threads(sys, Step(sys, s, i))
  {
    var n, l := Step(sys, s, i), s.locals[i];
    if l.todo == [] {
      BeginKeepsLocal(sys, sys.threads[i], s.shared.routes, l);
    } else {
      StepKeepsLocal(sys, sys.threads[i], s.shared, l);
      HeldLocks(l);
      forall j | 0 <= j < |s.locals| && j != i ensures LocalOk(sys, sys.threads[j], n.shared.routes, s.locals[j]) {
        OthersKeepLocal(sys, sys.threads[j], s.shared.routes, n.shared.routes, s.locals[j]);
      }
    }
  }

  lemma StepKeepsExclusive(sys: System, s: State, i: nat)
    requires InState(sys, s) && Exclusive(s) && i < |s.locals| && CanStep(sys, s, i)
    ensures Exclusive(Step(sys, s, i))
  {
    var n := Step(sys, s, i);
    forall j | 0 <= j < |s.locals| && j != i ensures n.locals[i].held !! n.locals[j].held {
      assert s.locals[i].held !! s.locals[j].held;
    }
  }

  lemma OriginStays(sys: System, s: State, i: nat, u: string)
    requires InState(sys, s) && i < |s.locals| && Unfinished(sys, s, i) && KnownOrigin(sys, s, u)
    ensures KnownOrigin(sys, Step(sys, s, i), u)
  {
    if u !in sys.start.routes {
      var n := Step(sys, s, i);
      var j :| 0 <= j < |s.locals| && u in Registered(sys.declared, sys.threads[j][..s.locals[j].begun]);
      if j == i && s.locals[i].todo == [] {
        RegisteredNext(sys.declared, sys.threads[i], s.locals[i].begun);
      }
      assert u in Registered(sys.declared, sys.threads[j][..n.locals[j].begun]);
    }
  }

  lemma RegisteredNext(declared: seq<Route>, calls: seq<Call>, k: nat)
    requires k < |calls|
    ensures Registered(declared, calls[..k + 1]) == Registered(declared, calls[..k]) + Prefixes(declared, calls[k])
  {
    assert calls[..k + 1][..k] == calls[..k];
  }

  lemma OriginOfInsert(sys: System, s: State, i: nat, u: string)
    requires InState(sys, s) && i < |s.locals| && Unfinished(sys, s, i)
    requires LocalOk(sys, sys.threads[i], s.shared.routes, s.locals[i])
    requires u in Step(sys, s, i).shared.routes && u !in s.shared.routes
    ensures KnownOrigin(sys, Step(sys, s, i), u)
  {
    var l, calls := s.locals[i], sys.threads[i];
    assert Fits(sys.declared, calls[l.begun - 1], l.todo[0]);
    RegisteredNext(sys.declared, calls, l.begun - 1);
    assert u in Registered(sys.declared, calls[..Step(sys, s, i).locals[i].begun]);
  }

  lemma StepKeepsOrigins(sys: System, s: State, i: nat)
    requires InState(sys, s) && Threads(sys, s) && i < |s.locals| && CanStep(sys, s, i)
    requires forall u :: u in s.shared.routes ==> KnownOrigin(sys, s, u)
    ensures forall u :: u in Step(sys, s, i).shared.routes ==> KnownOrigin(sys, Step(sys, s, i), u)
  {
    forall u | u in Step(sys, s, i).shared.routes ensures KnownOrigin(sys, Step(sys, s, i), u) {
      if u in s.shared.routes {
        OriginStays(sys, s, i, u);
      } else {
        OriginOfInsert(sys, s, i, u);
      }
    }
  }

  /** Only the holder of the route map lock can have a route in flight. */
  lemma NobodyElseInFlight(sys: System, s: State, i: nat, j: nat)
    requires InState(sys, s) && Threads(sys, s) && Exclusive(s)
    requires i < |s.locals| && j < |s.locals| && i != j && RouteMapLock in s.locals[i].held
    ensures InFlight(s.locals[j]).None?
  {
    if InFlight(s.locals[j]).Some? {
      HeldLocks(s.locals[j]);
    }
  }

  lemma StepKeepsFlight(sys: System, s: State, i: nat)
    requires InState(sys, s) && Threads(sys, s) && i < |s.locals| && CanStep(sys, s, i)
    ensures var l, n := s.locals[i], Step(sys, s, i).locals[i];
            && (l.todo == [] ==> InFlight(n).None?)
            && (l.todo != [] ==>
                  InFlight(n) == if l.todo[0].Record? || l.todo[0].UnlockList? then Some(l.todo[0].route) else None)
  {
    var l, calls := s.locals[i], sys.threads[i];
    var n := Step(sys, s, i).locals[i];
    if l.todo == [] {
      BeginsInCall(sys.declared, calls[l.begun], s.shared.routes, {});
      BeginsStatic(sys.declared, calls[l.begun]);
    } else {
      var stage := Stage(s.shared.routes, l.todo[0], l.handler);
      if stage != [] {
        assert n.todo[0] == stage[0];
      } else if l.todo[1..] != [] {
        assert n.todo[0] == l.todo[1..][0];
      }
    }
  }

  lemma BeginsStatic(declared: seq<Route>, c: Call)
    ensures Instructions(declared, c) != [] && Instructions(declared, c)[0].Acquire?
  {
    if c.RegisterRoutesFromConfig? {
      assert Instructions(declared, c)[0] == Acquire(ConfigLock);
    }
  }

  lemma StepKeepsRecorder(sys: System, s: State, i: nat)
    requires InState(sys, s) && Threads(sys, s) && Exclusive(s) && i < |s.locals| && CanStep(sys, s, i)
    requires RecorderOk(s)
    ensures RecorderOk(Step(sys, s, i))
  {
    var l, n := s.locals[i], Step(sys, s, i);
    StepKeepsFlight(sys, s, i);
    assert forall j :: 0 <= j < |s.locals| && j != i ==> n.locals[j] == s.locals[j];
    if l.todo != [] && (l.todo[0].Record? || l.todo[0].UnlockList? || l.todo[0].Insert?) {
      HeldLocks(l);
      forall j | 0 <= j < |s.locals| && j != i ensures InFlight(s.locals[j]).None? {
        NobodyElseInFlight(sys, s, i, j);
      }
      if l.todo[0].Record? {
        assert forall j :: 0 <= j < |s.locals| ==> InFlight(s.locals[j]).None?;
        Router.AgreesAfterAdding(s.shared.recorded, s.shared.routes, l.todo[0].route);
      } else {
        assert InFlight(s.locals[i]) == Some(l.todo[0].route);
      }
    }
  }

  lemma StepKeepsInv(sys: System, s: State, i: nat)
    requires Inv(sys, s) && i < |s.locals| && CanStep(sys, s, i)
    ensures Inv(sys, Step(sys, s, i))
  {
    StepKeepsThreads(sys, s, i);
    StepKeepsExclusive(sys, s, i);
    StepKeepsOrigins(sys, s, i);
    if Router.Agrees(sys.start.recorded, sys.start.routes) {
      StepKeepsRecorder(sys, s, i);
    }
  }

  /** The invariant holds after every schedule. */
  lemma {:induction false} ScheduleKeepsInv(sys: System, schedule: seq<nat>)
    requires Exec(sys, schedule).Some?
    ensures Inv(sys, Exec(sys, schedule).value)
  {
    if schedule == [] {
      InitiallyInv(sys);
    } else {
      var shorter, i := schedule[..|schedule| - 1], schedule[|schedule| - 1];
      ScheduleKeepsInv(sys, shorter);
      StepKeepsInv(sys, Exec(sys, shorter).value, i);
    }
  }

  lemma ReachableInv(sys: System, s: State)
    requires Reachable(sys, s)
    ensures Inv(sys, s)
  {
    var schedule :| Exec(sys, schedule) == Some(s);
    ScheduleKeepsInv(sys, schedule);
  }

  lemma StepReaches(sys: System, s: State, i: nat)
    requires Reachable(sys, s) && InState(sys, s) && i < |s.locals| && CanStep(sys, s, i)
    ensures Reachable(sys, Step(sys, s, i))
  {
    var schedule :| Exec(sys, schedule) == Some(s);
    var longer := schedule + [i];
    assert longer[..|longer| - 1] == schedule;
    assert Exec(sys, longer) == Some(Step(sys, s, i));
  }

  /** No lock has two holders. */
  lemma MutualExclusion(sys: System, s: State)
    requires Reachable(sys, s)
    ensures forall i, j :: 0 <= i < j < |s.locals| ==> s.locals[i].held !! s.locals[j].held
  {
    ReachableInv(sys, s);
  }

  /** The recorder is at most one route ahead of the map. Whenever nobody holds the route map lock, the
      recorded prefixes are distinct and, as a relation, the route map; while somebody does, he may have
      recorded a new route that he is about to insert. */
  lemma RecorderIsAtMostOneAhead(sys: System, s: State)
    requires Router.Agrees(sys.start.recorded, sys.start.routes) && Reachable(sys, s)
    ensures Router.Agrees(s.shared.recorded, s.shared.routes)
            || exists i :: 0 <= i < |s.locals| && RouteMapLock in s.locals[i].held && InFlight(s.locals[i]).Some?
                 && InFlight(s.locals[i]).value.0 !in s.shared.routes
                 && Router.Agrees(s.shared.recorded, AddRoute(s.shared.routes, InFlight(s.locals[i]).value))
    ensures (forall i :: 0 <= i < |s.locals| ==> RouteMapLock !in s.locals[i].held) ==>
              Router.Agrees(s.shared.recorded, s.shared.routes)
  {
    ReachableInv(sys, s);
    if i :| 0 <= i < |s.locals| && InFlight(s.locals[i]).Some? {
      assert LocalOk(sys, sys.threads[i], s.shared.routes, s.locals[i]);
      HeldLocks(s.locals[i]);
    }
  }
}
