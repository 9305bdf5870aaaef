/** When the threads of RouterThreads can deadlock, as a condition on what they call. */
module RouterLocks {
  import opened Wrappers
  import opened RouterSpec
  import opened Sequences
  import opened RouterThreads

  // ----- Deadlock needs a clash -----

  /** Call `p` registers a declared route from the config, and the thread has not registered prefix `u`
      before. */
  predicate RegistersWithout(sys: System, calls: seq<Call>, p: nat, u: string) {
    p < |calls| && calls[p].RegisterRoutesFromConfig? && sys.declared != [] && u !in Before(sys, calls, p)
  }

  /** Call `q` may look up `u` and miss it: it requests a URI of which the thread has registered no prefix
      before, and `u` is empty, or it asks for the handler of `u` itself, which the thread has not registered
      before. */
  predicate MayMiss(sys: System, calls: seq<Call>, q: nat, u: string) {
    && q < |calls|
    && match calls[q]
       case RouteRequest(uri, _) => u == "" && forall v :: v in Before(sys, calls, q) ==> !(v <= uri)
       case GetRouteHandler(uri) => u == uri && u !in Before(sys, calls, q)
       case _ => false
  }

  /** Two threads that can wait for each other. */
  ghost predicate Clash(sys: System) {
    exists a: nat, b: nat, p: nat, q: nat, u: string :: a < |sys.threads| && b < |sys.threads| && a != b
      && RegistersWithout(sys, sys.threads[a], p, u) && MayMiss(sys, sys.threads[b], q, u)
  }

  predicate Waits(l: Local) {
    l.todo != [] && Wants(l.todo[0]).Some?
  }

  lemma Holder(sys: System, s: State, i: nat) returns (j: nat)
    requires Inv(sys, s) && Deadlocked(sys, s) && i < |s.locals| && Unfinished(sys, s, i)
    ensures Waits(s.locals[i])
    ensures j < |s.locals| && j != i && s.locals[j].todo != []
    ensures Wants(s.locals[i].todo[0]).value in s.locals[j].held
  {
    assert !CanStep(sys, s, i);
    j :| 0 <= j < |s.locals| && Wants(s.locals[i].todo[0]).value in s.locals[j].held;
    HeldLocks(s.locals[i]);
  }

  /** What a waiting thread holds tells what it waits for. */
  lemma WaitingHolder(l: Local, lock: Lock)
    requires Disciplined(l.held, l.todo) && Waits(l) && lock in l.held
    ensures lock == RouteMapLock || lock == ConfigLock || lock == LogLock
    ensures lock == RouteMapLock ==> l.todo[0].LockProxy? || l.todo[0].LockList?
    ensures lock == ConfigLock ==> l.todo[0].LockRoutes? || l.todo[0].LockList?
    ensures lock == LogLock ==> Wants(l.todo[0]) == Some(RouteMapLock) || l.todo[0].LockProxy?
  {
    assert Met(l.held, l.todo[0]);
  }

  /** In a deadlock every unfinished thread waits for a lock of another one, which waits itself inside the
      first one's lock. */
  lemma Blocker(sys: System, s: State, i: nat) returns (j: nat)
    requires Inv(sys, s) && Deadlocked(sys, s) && i < |s.locals| && Unfinished(sys, s, i)
    ensures j < |s.locals| && Unfinished(sys, s, j) && Waits(s.locals[i]) && Waits(s.locals[j])
    ensures var lock := Wants(s.locals[i].todo[0]).value;
            && (lock == RouteMapLock ==> s.locals[j].todo[0].LockProxy?)
            && (lock == ConfigLock ==> s.locals[j].todo[0].LockRoutes?)
            && (lock == LogLock ==> Wants(s.locals[j].todo[0]) == Some(RouteMapLock) || s.locals[j].todo[0].LockProxy?)
            && (lock == RouteMapLock || lock == ConfigLock || lock == LogLock)
  {
    j := Holder(sys, s, i);
    var k := Holder(sys, s, j);
    var _ := Holder(sys, s, k);
    WaitingHolder(s.locals[j], Wants(s.locals[i].todo[0]).value);
    WaitingHolder(s.locals[k], Wants(s.locals[j].todo[0]).value);
  }

  /** A waiting registration from the config and a waiting lookup make a clash. */
  lemma WaitersClash(sys: System, s: State, a: nat, b: nat)
    requires Inv(sys, s) && a < |s.locals| && b < |s.locals|
    requires s.locals[a].todo != [] && s.locals[a].todo[0].LockRoutes?
    requires s.locals[b].todo != [] && s.locals[b].todo[0].LockProxy?
    ensures Clash(sys)
  {
    var la, lb := s.locals[a], s.locals[b];
    assert LocalOk(sys, sys.threads[a], s.shared.routes, la) && LocalOk(sys, sys.threads[b], s.shared.routes, lb);
    assert Fits(sys.declared, sys.threads[a][la.begun - 1], la.todo[0]);
    assert Fits(sys.declared, sys.threads[b][lb.begun - 1], lb.todo[0]);
    var u := lb.todo[0].prefix;
    assert RegistersWithout(sys, sys.threads[a], la.begun - 1, u);
    assert MayMiss(sys, sys.threads[b], lb.begun - 1, u);
  }

  /** In a deadlock some thread waits for the config lock in a lookup, or for the route map lock in a
      registration from the config. */
  lemma InnerWaiter(sys: System, s: State, i: nat) returns (k: nat)
    requires Inv(sys, s) && Deadlocked(sys, s) && i < |s.locals| && Unfinished(sys, s, i)
    ensures k < |s.locals| && Unfinished(sys, s, k) && Waits(s.locals[k])
    ensures s.locals[k].todo[0].LockProxy? || s.locals[k].todo[0].LockRoutes?
  {
    k := Blocker(sys, s, i);
    if Wants(s.locals[k].todo[0]) == Some(RouteMapLock) {
      k := Blocker(sys, s, k);
    }
  }

  lemma InnerWaitersClash(sys: System, s: State, k: nat)
    requires Inv(sys, s) && Deadlocked(sys, s) && k < |s.locals| && Waits(s.locals[k])
    requires s.locals[k].todo[0].LockProxy? || s.locals[k].todo[0].LockRoutes?
    ensures Clash(sys)
  {
    var m := Blocker(sys, s, k);
    if s.locals[k].todo[0].LockRoutes? {
      WaitersClash(sys, s, k, m);
    } else {
      WaitersClash(sys, s, m, k);
    }
  }

  /** Nothing but a clash makes a deadlock. */
  lemma DeadlockNeedsClash(sys: System, s: State)
    requires Reachable(sys, s) && InState(sys, s) && Deadlocked(sys, s)
    ensures Clash(sys)
  {
    ReachableInv(sys, s);
    var i: nat :| i < |s.locals| && Unfinished(sys, s, i);
    var k := InnerWaiter(sys, s, i);
    InnerWaitersClash(sys, s, k);
  }

  // ----- A clash can deadlock -----

  function Weight(i: Instruction): nat {
    match i
    case Match(_) => 7
    case ShowPage => 7
    case Ask(_) => 5
    case Leave(_, _) => 6
    case Enter(_, _) => 5
    case Find(_, _) => 4
    case LockProxy(_, _) => 3
    case UnlockProxy => 2
    case Register(_) => 5
    case LockList(_) => 4
    case Record(_) => 3
    case UnlockList(_) => 2
    case _ => 1
  }

  function Size(p: Program): nat {
    if p == [] then 0 else Weight(p[0]) + Size(p[1..])
  }

  lemma {:induction false} SizeOfConcat(p: Program, q: Program)
    ensures Size(p + q) == Size(p) + Size(q)
  {
    if p == [] {
      assert p + q == q;
    } else {
      SizeOfConcat(p[1..], q);
      assert (p + q)[1..] == p[1..] + q;
    }
  }

  function SizeOfCalls(declared: seq<Route>, calls: seq<Call>): nat {
    if calls == [] then 0 else 1 + Size(Instructions(declared, calls[0])) + SizeOfCalls(declared, calls[1..])
  }

  /** An upper bound of the steps that a thread has left. */
  function Left(sys: System, s: State, i: nat): nat
    requires InState(sys, s) && i < |s.locals|
  {
    Size(s.locals[i].todo) + SizeOfCalls(sys.declared, sys.threads[i][s.locals[i].begun..])
  }

  lemma StageIsSmaller(routes: RouteMap, i: Instruction, handler: Option<string>)
    ensures Size(Stage(routes, i, handler)) < Weight(i)
  {
    var stage := Stage(routes, i, handler);
    if i.ShowPage? && stage != [] {
      SizeOfConcat(Guarded(ResponseListLock), Guarded(ResponseListLock));
      SizeOfConcat(Guarded(ResponseListLock) + Guarded(ResponseListLock), Guarded(PrefixListLock));
      SizeOfGuarded(ResponseListLock);
      SizeOfGuarded(PrefixListLock);
    } else if stage != [] {
      assert Size(stage) == Weight(stage[0]) + Size(stage[1..]) && stage[1..] == [];
    }
  }

  lemma SizeOfGuarded(lock: Lock)
    ensures Size(Guarded(lock)) == 2
  {
    assert Guarded(lock)[1..] == [Release(lock)] && [Release(lock)][1..] == [];
  }

  lemma StepIsSmaller(sys: System, s: State, i: nat)
    requires InState(sys, s) && i < |s.locals| && Unfinished(sys, s, i)
    ensures Left(sys, Step(sys, s, i), i) < Left(sys, s, i)
  {
    var l, calls := s.locals[i], sys.threads[i];
    if l.todo == [] {
      assert calls[l.begun..][1..] == calls[l.begun + 1..];
    } else {
      StageIsSmaller(s.shared.routes, l.todo[0], l.handler);
      SizeOfConcat(Stage(s.shared.routes, l.todo[0], l.handler), l.todo[1..]);
    }
  }

  ghost predicate OthersHoldNothing(s: State, i: nat) {
    forall j :: 0 <= j < |s.locals| && j != i ==> s.locals[j].held == {}
  }

  /** Only the state of thread `i`, and the shared one, may differ. */
  ghost predicate OnlyMoves(s: State, n: State, i: nat) {
    |n.locals| == |s.locals| && forall j :: 0 <= j < |s.locals| && j != i ==> n.locals[j] == s.locals[j]
  }

  lemma CanStepAlone(sys: System, s: State, i: nat)
    requires Inv(sys, s) && i < |s.locals| && OthersHoldNothing(s, i) && Unfinished(sys, s, i)
    ensures CanStep(sys, s, i)
  {
    if s.locals[i].todo != [] {
      HeldLocks(s.locals[i]);
    }
  }

  /** A thread alone can always get to the beginning of a later call while no other thread holds a lock. */
  lemma {:induction false} RunsAlone(sys: System, s: State, i: nat, goal: nat) returns (n: State)
    requires Reachable(sys, s) && InState(sys, s) && i < |s.locals| && OthersHoldNothing(s, i)
    requires s.locals[i].begun <= goal <= |sys.threads[i]|
    ensures Reachable(sys, n) && InState(sys, n) && OnlyMoves(s, n, i)
    ensures n.locals[i].begun == goal && n.locals[i].todo == []
    decreases Left(sys, s, i)
  {
    if s.locals[i].todo == [] && s.locals[i].begun == goal {
      n := s;
    } else {
      ReachableInv(sys, s);
      CanStepAlone(sys, s, i);
      StepReaches(sys, s, i);
      StepIsSmaller(sys, s, i);
      n := RunsAlone(sys, Step(sys, s, i), i, goal);
    }
  }

  function Sum(ns: seq<nat>): nat {
    if ns == [] then 0 else ns[0] + Sum(ns[1..])
  }

  lemma {:induction false} SumIsSmaller(a: seq<nat>, b: seq<nat>, i: nat)
    requires |a| == |b| && i < |a| && b[i] < a[i]
    requires forall j :: 0 <= j < |a| && j != i ==> b[j] == a[j]
    ensures Sum(b) < Sum(a)
  {
    if i > 0 {
      SumIsSmaller(a[1..], b[1..], i - 1);
    } else {
      assert a[1..] == b[1..];
    }
  }

  function TotalLeft(sys: System, s: State): nat
    requires InState(sys, s)
  {
    Sum(seq(|s.locals|, i requires 0 <= i < |s.locals| => Left(sys, s, i)))
  }

  lemma TotalIsSmaller(sys: System, s: State, i: nat)
    requires InState(sys, s) && i < |s.locals| && Unfinished(sys, s, i)
    ensures TotalLeft(sys, Step(sys, s, i)) < TotalLeft(sys, s)
  {
    var n := Step(sys, s, i);
    StepIsSmaller(sys, s, i);
    SumIsSmaller(seq(|s.locals|, k requires 0 <= k < |s.locals| => Left(sys, s, k)),
                 seq(|n.locals|, k requires 0 <= k < |n.locals| => Left(sys, n, k)), i);
  }

  /** Two threads that wait for each other stay so while the others run until nobody can go on. */
  lemma {:induction false} MutualWaitDeadlocks(sys: System, s: State, i: nat, j: nat)
    requires Reachable(sys, s) && InState(sys, s) && i < |s.locals| && j < |s.locals|
    requires Waits(s.locals[i]) && Wants(s.locals[i].todo[0]).value in s.locals[j].held
    requires Waits(s.locals[j]) && Wants(s.locals[j].todo[0]).value in s.locals[i].held
    ensures CanDeadlock(sys)
    decreases TotalLeft(sys, s)
  {
    if k: nat :| k < |s.locals| && CanStep(sys, s, k) {
      StepReaches(sys, s, k);
      TotalIsSmaller(sys, s, k);
      MutualWaitDeadlocks(sys, Step(sys, s, k), i, j);
    } else {
      assert Unfinished(sys, s, i);
      assert Deadlocked(sys, s);
    }
  }

  lemma RequestStarts(declared: seq<Route>, c: Call)
    requires c.RouteRequest?
    ensures var p := Instructions(declared, c);
            |p| > 1 && p[0] == Acquire(RouteMapLock) && p[1] == Match(c.uri)
  {
    var p := Instructions(declared, c);
    Assoc(Lookup(c.uri), Guarded(ConfigLock), [ShowPage]);
    Assoc(Lookup(c.uri), Guarded(ConfigLock) + [ShowPage], Epilogue(c.uri, c.code));
    assert p[0] == Lookup(c.uri)[0] && p[1] == Lookup(c.uri)[1];
  }

  lemma RegistrationStarts(declared: seq<Route>)
    requires declared != []
    ensures var p := Instructions(declared, RegisterRoutesFromConfig);
            |p| > 1 && p[0] == Acquire(ConfigLock) && p[1] == LockRoutes
  {
    var p := Instructions(declared, RegisterRoutesFromConfig);
    assert Registrations(declared)[0] == LockRoutes;
    Assoc([Acquire(ConfigLock)], Registrations(declared), [Release(ConfigLock)]);
    assert p[1] == Registrations(declared)[0];
  }

  /** Thread `i` has stepped from `s` to `n`, with these instructions left and these locks held. */
  ghost predicate Stepped(sys: System, s: State, n: State, i: nat, todo: Program, held: set<Lock>) {
    && Reachable(sys, n) && InState(sys, n) && i < |s.locals| && OnlyMoves(s, n, i) && n.shared == s.shared
    && n.locals[i].begun == s.locals[i].begun && n.locals[i].todo == todo && n.locals[i].held == held
  }

  /** A step that changes no route, to the next stage of an instruction or behind it. */
  lemma Advances(sys: System, s: State, i: nat, head: Instruction, stage: Program, held: set<Lock>) returns (n: State)
    requires Reachable(sys, s) && InState(sys, s) && i < |s.locals|
    requires s.locals[i].todo != [] && s.locals[i].todo[0] == head && !head.Answer? && !head.Record? && !head.Insert?
    requires Stage(s.shared.routes, head, s.locals[i].handler) == stage && HeldAfter(s.locals[i].held, head) == held
    requires Wants(head).Some? ==> forall j :: 0 <= j < |s.locals| ==> Wants(head).value !in s.locals[j].held
    ensures Stepped(sys, s, n, i, stage + s.locals[i].todo[1..], held)
  {
    StepReaches(sys, s, i);
    n := Step(sys, s, i);
  }

  /** A step that takes a free lock and is over with that. */
  lemma Takes(sys: System, s: State, i: nat, lock: Lock) returns (n: State)
    requires Reachable(sys, s) && InState(sys, s) && i < |s.locals| && s.locals[i].held == {}
    requires s.locals[i].todo != [] && s.locals[i].todo[0] == Acquire(lock)
    requires forall j :: 0 <= j < |s.locals| ==> lock !in s.locals[j].held
    ensures Stepped(sys, s, n, i, s.locals[i].todo[1..], {lock})
  {
    assert {} + {lock} == {lock};
    n := Advances(sys, s, i, Acquire(lock), [], {lock});
    assert [] + s.locals[i].todo[1..] == s.locals[i].todo[1..];
  }

  lemma Begins(sys: System, s: State, i: nat) returns (n: State)
    requires Reachable(sys, s) && InState(sys, s) && i < |s.locals|
    requires s.locals[i].todo == [] && s.locals[i].begun < |sys.threads[i]|
    ensures Reachable(sys, n) && InState(sys, n) && OnlyMoves(s, n, i) && n.shared == s.shared
    ensures n.locals[i].begun == s.locals[i].begun + 1 && n.locals[i].held == {}
    ensures n.locals[i].todo == Instructions(sys.declared, sys.threads[i][s.locals[i].begun])
  {
    ReachableInv(sys, s);
    assert LocalOk(sys, sys.threads[i], s.shared.routes, s.locals[i]);
    StepReaches(sys, s, i);
    n := Step(sys, s, i);
  }

  /** When only two threads have run, every route comes from the start or from one of them. */
  lemma RoutesOfTwo(sys: System, s: State, i: nat, j: nat, u: string)
    requires Reachable(sys, s) && InState(sys, s) && i < |s.locals| && j < |s.locals| && u in s.shared.routes
    requires forall k :: 0 <= k < |s.locals| && k != i && k != j ==> s.locals[k].begun == 0
    ensures u in Before(sys, sys.threads[i], s.locals[i].begun) || u in Before(sys, sys.threads[j], s.locals[j].begun)
  {
    ReachableInv(sys, s);
    assert KnownOrigin(sys, s, u);
    forall k | 0 <= k < |s.locals| ensures Registered(sys.declared, sys.threads[k][..0]) == {} {
      assert sys.threads[k][..0] == [];
    }
  }

  /** A request for a URI that nothing matches looks up the empty prefix. */
  lemma MatchesNothing(sys: System, s: State, b: nat, q: nat)
    requires Reachable(sys, s) && InState(sys, s) && b < |s.locals|
    requires MayMiss(sys, sys.threads[b], q, "") && sys.threads[b][q].RouteRequest?
    requires s.locals[b].begun == q + 1 && OnlyRan(s, b)
    ensures LongestMatch(s.shared.routes.Keys, sys.threads[b][q].uri) == ""
  {
    var uri := sys.threads[b][q].uri;
    var prefix := LongestMatch(s.shared.routes.Keys, uri);
    MatchIsUnique(s.shared.routes.Keys, uri, prefix);
    BeforeLookup(sys, sys.threads[b], q);
    if prefix != "" {
      RoutesOfTwo(sys, s, b, b, prefix);
    }
  }

  lemma BeforeLookup(sys: System, calls: seq<Call>, q: nat)
    requires q < |calls| && (calls[q].RouteRequest? || calls[q].GetRouteHandler?)
    ensures Before(sys, calls, q + 1) == Before(sys, calls, q)
  {
    BeforeNext(sys, calls, q);
  }

  ghost predicate OnlyRan(s: State, i: nat) {
    forall k :: 0 <= k < |s.locals| && k != i ==> s.locals[k] == Local(0, [], {}, None)
  }

  /** The requesting thread gets to its matching, and from there between matching and looking up. */
  lemma ReachesMatch(sys: System, b: nat, q: nat) returns (s: State)
    requires b < |sys.threads| && q < |sys.threads[b]| && sys.threads[b][q].RouteRequest?
    ensures Reachable(sys, s) && InState(sys, s) && OnlyRan(s, b)
    ensures s.locals[b].begun == q + 1 && s.locals[b].held == {RouteMapLock}
    ensures s.locals[b].todo != [] && s.locals[b].todo[0] == Match(sys.threads[b][q].uri)
  {
    s := Initial(sys);
    assert Exec(sys, []) == Some(s);
    s := RunsAlone(sys, s, b, q);
    s := Begins(sys, s, b);
    RequestStarts(sys.declared, sys.threads[b][q]);
    s := Takes(sys, s, b, RouteMapLock);
  }

  lemma ReachesLookup(sys: System, b: nat, q: nat) returns (s: State)
    requires b < |sys.threads| && MayMiss(sys, sys.threads[b], q, "") && sys.threads[b][q].RouteRequest?
    ensures Reachable(sys, s) && InState(sys, s) && OnlyRan(s, b)
    ensures s.locals[b].begun == q + 1 && s.locals[b].held == {}
    ensures s.locals[b].todo != [] && s.locals[b].todo[0] == Enter(Some(sys.threads[b][q].uri), "")
  {
    var uri := sys.threads[b][q].uri;
    s := ReachesMatch(sys, b, q);
    MatchesNothing(sys, s, b, q);
    s := LeavesMap(sys, s, b, uri);
  }

  /** Matching nothing, and giving the route map free. */
  lemma LeavesMap(sys: System, s: State, b: nat, uri: string) returns (n: State)
    requires Reachable(sys, s) && InState(sys, s) && b < |s.locals| && LongestMatch(s.shared.routes.Keys, uri) == ""
    requires s.locals[b].todo != [] && s.locals[b].todo[0] == Match(uri) && s.locals[b].held == {RouteMapLock}
    ensures Reachable(sys, n) && InState(sys, n) && OnlyMoves(s, n, b) && n.locals[b].begun == s.locals[b].begun
    ensures n.locals[b].todo != [] && n.locals[b].todo[0] == Enter(Some(uri), "") && n.locals[b].held == {}
  {
    assert {RouteMapLock} - {RouteMapLock} == {};
    n := Advances(sys, s, b, Match(uri), [Leave(Some(uri), "")], {RouteMapLock});
    n := Advances(sys, n, b, Leave(Some(uri), ""), [Enter(Some(uri), "")], {});
  }

  /** The asking thread gets to the beginning of its call. */
  lemma ReachesQuestion(sys: System, b: nat, q: nat) returns (s: State)
    requires b < |sys.threads| && q < |sys.threads[b]| && sys.threads[b][q].GetRouteHandler?
    ensures Reachable(sys, s) && InState(sys, s) && OnlyRan(s, b)
    ensures s.locals[b].begun == q + 1 && s.locals[b].held == {}
    ensures s.locals[b].todo == [Acquire(RouteMapLock), Ask(sys.threads[b][q].uri)]
  {
    s := Initial(sys);
    assert Exec(sys, []) == Some(s);
    s := RunsAlone(sys, s, b, q);
    s := Begins(sys, s, b);
  }

  /** The registering thread gets to hold the config lock. */
  lemma ReachesRegistration(sys: System, s: State, a: nat, p: nat, u: string) returns (n: State)
    requires Reachable(sys, s) && InState(sys, s) && a < |s.locals| && RegistersWithout(sys, sys.threads[a], p, u)
    requires s.locals[a] == Local(0, [], {}, None) && OthersHoldNothing(s, a)
    requires forall j :: 0 <= j < |s.locals| && j != a ==> u !in Before(sys, sys.threads[j], s.locals[j].begun)
    ensures Reachable(sys, n) && InState(sys, n) && OnlyMoves(s, n, a) && u !in n.shared.routes
    ensures n.locals[a].begun == p + 1 && n.locals[a].held == {ConfigLock}
    ensures n.locals[a].todo != [] && n.locals[a].todo[0] == LockRoutes
  {
    n := RunsAlone(sys, s, a, p);
    PrefixIsMissing(sys, n, u);
    n := Begins(sys, n, a);
    RegistrationStarts(sys.declared);
    n := Takes(sys, n, a, ConfigLock);
  }

  lemma PrefixIsMissing(sys: System, s: State, u: string)
    requires Reachable(sys, s) && InState(sys, s) && |s.locals| > 0
    requires forall j :: 0 <= j < |s.locals| ==> u !in Before(sys, sys.threads[j], s.locals[j].begun)
    ensures u !in s.shared.routes
  {
    ReachableInv(sys, s);
    assert u !in Before(sys, sys.threads[0], s.locals[0].begun);
    forall j | 0 <= j < |s.locals| ensures u !in Registered(sys.declared, sys.threads[j][..s.locals[j].begun]) {
      assert u !in Before(sys, sys.threads[j], s.locals[j].begun);
    }
    assert !KnownOrigin(sys, s, u);
  }

  lemma MissedPrefixIsNew(sys: System, s: State, b: nat, q: nat, u: string, j: nat)
    requires InState(sys, s) && b < |s.locals| && j < |s.locals| && OnlyRan(s, b)
    requires MayMiss(sys, sys.threads[b], q, u) && s.locals[b].begun == q + 1
    ensures u !in Before(sys, sys.threads[j], s.locals[j].begun)
  {
    BeforeLookup(sys, sys.threads[b], q);
    assert "" <= sys.threads[b][q].uri;
    assert sys.threads[j][..0] == [];
  }

  /** A lookup that is about to enter the route map, or a question that is about to take its lock. */
  predicate EntersMap(l: Local, matched: Option<string>, u: string) {
    && l.held == {} && l.todo != []
    && if matched.Some? then l.todo[0] == Enter(matched, u) else l.todo == [Acquire(RouteMapLock), Ask(u)]
  }

  /** A lookup of an unknown prefix meets a registration that holds the config lock. */
  lemma LookupMeetsRegistration(sys: System, s: State, a: nat, b: nat, matched: Option<string>, u: string)
    requires Reachable(sys, s) && InState(sys, s) && a < |s.locals| && b < |s.locals| && a != b
    requires s.locals[a].todo != [] && s.locals[a].todo[0] == LockRoutes && s.locals[a].held == {ConfigLock}
    requires EntersMap(s.locals[b], matched, u)
    requires u !in s.shared.routes && OthersHoldNothing(s, a)
    ensures CanDeadlock(sys)
  {
    var n := GetsToFind(sys, s, b, matched, u);
    n := MissesLookup(sys, n, b, matched, u);
    OppositeWaits(sys, n, a, b);
  }

  lemma OppositeWaits(sys: System, s: State, a: nat, b: nat)
    requires Reachable(sys, s) && InState(sys, s) && a < |s.locals| && b < |s.locals|
    requires s.locals[a].todo != [] && s.locals[a].todo[0] == LockRoutes && s.locals[a].held == {ConfigLock}
    requires s.locals[b].todo != [] && s.locals[b].todo[0].LockProxy? && s.locals[b].held == {RouteMapLock}
    ensures CanDeadlock(sys)
  {
    MutualWaitDeadlocks(sys, s, a, b);
  }

  /** Entering the route map. */
  lemma GetsToFind(sys: System, s: State, b: nat, matched: Option<string>, u: string) returns (n: State)
    requires Reachable(sys, s) && InState(sys, s) && b < |s.locals| && EntersMap(s.locals[b], matched, u)
    requires forall j :: 0 <= j < |s.locals| ==> RouteMapLock !in s.locals[j].held
    ensures Reachable(sys, n) && InState(sys, n) && OnlyMoves(s, n, b) && n.shared == s.shared
    ensures n.locals[b].todo != [] && n.locals[b].todo[0] == Find(matched, u) && n.locals[b].held == {RouteMapLock}
  {
    if matched.Some? {
      assert {} + {RouteMapLock} == {RouteMapLock};
      n := Advances(sys, s, b, Enter(matched, u), [Find(matched, u)], {RouteMapLock});
    } else {
      n := Takes(sys, s, b, RouteMapLock);
      n := Advances(sys, n, b, Ask(u), [Find(None, u)], {RouteMapLock});
    }
  }

  /** And missing the prefix. */
  lemma MissesLookup(sys: System, s: State, b: nat, matched: Option<string>, u: string) returns (n: State)
    requires Reachable(sys, s) && InState(sys, s) && b < |s.locals| && u !in s.shared.routes
    requires s.locals[b].todo != [] && s.locals[b].todo[0] == Find(matched, u) && s.locals[b].held == {RouteMapLock}
    ensures Reachable(sys, n) && InState(sys, n) && OnlyMoves(s, n, b)
    ensures n.locals[b].todo != [] && n.locals[b].todo[0].LockProxy? && n.locals[b].held == {RouteMapLock}
  {
    n := Advances(sys, s, b, Find(matched, u), [LockProxy(matched, u)], {RouteMapLock});
  }

  lemma ClashDeadlocks(sys: System, a: nat, b: nat, p: nat, q: nat, u: string)
    requires a < |sys.threads| && b < |sys.threads| && a != b
    requires RegistersWithout(sys, sys.threads[a], p, u) && MayMiss(sys, sys.threads[b], q, u)
    ensures CanDeadlock(sys)
  {
    var s: State;
    var matched := None;
    if sys.threads[b][q].RouteRequest? {
      s := ReachesLookup(sys, b, q);
      matched := Some(sys.threads[b][q].uri);
    } else {
      s := ReachesQuestion(sys, b, q);
    }
    forall j | 0 <= j < |s.locals| ensures u !in Before(sys, sys.threads[j], s.locals[j].begun) {
      MissedPrefixIsNew(sys, s, b, q, u, j);
    }
    var n := ReachesRegistration(sys, s, a, p, u);
    LookupMeetsRegistration(sys, n, a, b, matched, u);
  }

  /** The exact condition, over all interleavings: threads can deadlock if and only if, for some prefix, one
      of them registers a declared route from the config without having registered the prefix before, and
      another one may look it up and miss it: the empty prefix by a request for a URI of which neither the
      start nor this thread itself has registered a prefix before, or any prefix that they have not
      registered before by asking for its handler. */
  lemma DeadlockCondition(sys: System)
    ensures CanDeadlock(sys) <==> Clash(sys)
  {
    if CanDeadlock(sys) {
      var s :| Reachable(sys, s) && InState(sys, s) && Deadlocked(sys, s);
      DeadlockNeedsClash(sys, s);
    }
    if Clash(sys) {
      var a: nat, b: nat, p: nat, q: nat, u: string :| a < |sys.threads| && b < |sys.threads| && a != b
        && RegistersWithout(sys, sys.threads[a], p, u) && MayMiss(sys, sys.threads[b], q, u);
      ClashDeadlocks(sys, a, b, p, q, u);
    }
  }

  /** The routes of the start answer the call whatever happens: they match the URI of a request, and contain
      the prefix whose handler is asked for. */
  ghost predicate Provided(sys: System, c: Call) {
    match c
    case RouteRequest(uri, _) => exists v :: v in sys.start.routes && v <= uri
    case GetRouteHandler(uri) => uri in sys.start.routes
    case _ => true
  }

  /** Not even a route that matches everything helps against asking for the handler of a prefix that is not
      registered, while another thread registers from the config. */
  lemma AskingCanDeadlock(declared: seq<Route>, start: Shared, u: string)
    requires declared != [] && u !in start.routes
    ensures CanDeadlock(System(declared, start, [[RegisterRoutesFromConfig], [GetRouteHandler(u)]]))
  {
    var sys := System(declared, start, [[RegisterRoutesFromConfig], [GetRouteHandler(u)]]);
    assert Registered(declared, sys.threads[0][..0]) == {} && Registered(declared, sys.threads[1][..0]) == {};
    assert RegistersWithout(sys, sys.threads[0], 0, u) && MayMiss(sys, sys.threads[1], 0, u);
    ClashDeadlocks(sys, 0, 1, 0, 0, u);
  }

  lemma ClashCalls(sys: System)
    requires Clash(sys)
    ensures exists t, c :: t in sys.threads && c in t && c.RegisterRoutesFromConfig?
    ensures exists t, c :: t in sys.threads && c in t && !Provided(sys, c)
  {
    var a: nat, b: nat, p: nat, q: nat, u: string :| a < |sys.threads| && b < |sys.threads| && a != b
      && RegistersWithout(sys, sys.threads[a], p, u) && MayMiss(sys, sys.threads[b], q, u);
    assert sys.threads[a] in sys.threads && sys.threads[a][p] in sys.threads[a];
    assert sys.threads[b] in sys.threads && sys.threads[b][q] in sys.threads[b];
    assert sys.start.routes.Keys <= Before(sys, sys.threads[b], q);
    assert !Provided(sys, sys.threads[b][q]);
  }

  /** Once startup is over nobody registers from the config, and no mix of the other calls deadlocks. */
  lemma ServingNeverDeadlocks(sys: System)
    requires forall t, c :: t in sys.threads && c in t ==> !c.RegisterRoutesFromConfig?
    ensures !CanDeadlock(sys)
  {
    DeadlockCondition(sys);
    if Clash(sys) {
      ClashCalls(sys);
    }
  }

  /** If the routes of the start match every URI that is requested, and contain every prefix whose handler is
      asked for, not even registering from the config while serving deadlocks. */
  lemma CatchAllNeverDeadlocks(sys: System)
    requires forall t, c :: t in sys.threads && c in t ==> Provided(sys, c)
    ensures !CanDeadlock(sys)
  {
    DeadlockCondition(sys);
    if Clash(sys) {
      ClashCalls(sys);
    }
  }
}
