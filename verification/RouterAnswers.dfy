/** What concurrent requests are answered with and what the recorder has of them in the end, over all
    interleavings of the threads of RouterThreads. */
module RouterAnswers {
  import opened Wrappers
  import opened RouterSpec
  import opened RouterThreads
  import opened Sequences
  import Router

  // ----- Routes stay -----

  ghost predicate Keeps(routes: RouteMap, more: RouteMap) {
    forall u :: u in routes ==> u in more && more[u] == routes[u]
  }

  lemma StepKeepsRoutes(sys: System, s: State, i: nat)
    requires Inv(sys, s) && i < |s.locals| && CanStep(sys, s, i)
    ensures Keeps(s.shared.routes, Step(sys, s, i).shared.routes)
  {
    assert LocalOk(sys, sys.threads[i], s.shared.routes, s.locals[i]);
  }

  lemma LastStep(sys: System, schedule: seq<nat>, init: seq<nat>, i: nat)
    requires schedule == init + [i] && Exec(sys, schedule).Some?
    ensures Exec(sys, init).Some? && i < |sys.threads| && CanStep(sys, Exec(sys, init).value, i)
    ensures Exec(sys, schedule).value == Step(sys, Exec(sys, init).value, i)
  {
    assert schedule[..|schedule| - 1] == init;
  }

  /** A route keeps its handler through every continuation of every interleaving. */
  lemma {:induction false} RoutesStay(sys: System, schedule: seq<nat>, more: seq<nat>)
    requires Exec(sys, schedule + more).Some?
    ensures Exec(sys, schedule).Some?
    ensures Keeps(Exec(sys, schedule).value.shared.routes, Exec(sys, schedule + more).value.shared.routes)
    decreases |more|
  {
    if more == [] {
      NothingBehind(schedule);
    } else {
      var init, i := more[..|more| - 1], more[|more| - 1];
      assert more == init + [i];
      Assoc(schedule, init, [i]);
      LastStep(sys, schedule + more, schedule + init, i);
      RoutesStay(sys, schedule, init);
      ScheduleKeepsInv(sys, schedule + init);
      StepKeepsRoutes(sys, Exec(sys, schedule + init).value, i);
    }
  }

  // ----- Lookups -----

  /** The number of steps that a thread makes in a schedule. */
  function Count(schedule: seq<nat>, i: nat): nat {
    if schedule == [] then 0
    else Count(schedule[..|schedule| - 1], i) + (if schedule[|schedule| - 1] == i then 1 else 0)
  }

  /** What has become of a matching after `k` steps of its thread. */
  function OnItsWay(uri: string, prefix: string, k: nat): Instruction {
    if k == 0 then Match(uri)
    else if k == 1 then Leave(Some(uri), prefix)
    else if k == 2 then Enter(Some(uri), prefix)
    else Find(Some(uri), prefix)
  }

  predicate IsAt(l: Local, i: Instruction, rest: Program) {
    l.todo == [i] + rest
  }

  lemma StepsOnItsWay(sys: System, s: State, i: nat, uri: string, prefix: string, k: nat, rest: Program)
    requires InState(sys, s) && i < |s.locals| && Unfinished(sys, s, i)
    requires k < 3 && IsAt(s.locals[i], OnItsWay(uri, prefix, k), rest)
    requires k == 0 ==> prefix == LongestMatch(s.shared.routes.Keys, uri)
    ensures IsAt(Step(sys, s, i).locals[i], OnItsWay(uri, prefix, k + 1), rest)
  {
    assert s.locals[i].todo[1..] == rest;
  }

  lemma OthersLeaveIt(sys: System, s: State, j: nat, i: nat, uri: string, prefix: string, k: nat, rest: Program)
    requires InState(sys, s) && i < |s.locals| && j < |s.locals| && Unfinished(sys, s, j)
    requires IsAt(s.locals[i], OnItsWay(uri, prefix, k), rest) && 0 < k && (j == i ==> k < 3)
    ensures IsAt(Step(sys, s, j).locals[i], OnItsWay(uri, prefix, if j == i then k + 1 else k), rest)
  {
    if j == i {
      StepsOnItsWay(sys, s, i, uri, prefix, k, rest);
    }
  }

  lemma KeepsOneStepMore(sys: System, here: seq<nat>, j: nat, i: nat, uri: string, prefix: string, k: nat,
                         rest: Program)
    requires Exec(sys, here).Some? && Exec(sys, here + [j]).Some? && i < |sys.threads|
    requires IsAt(Exec(sys, here).value.locals[i], OnItsWay(uri, prefix, k), rest) && 0 < k && (j == i ==> k < 3)
    ensures IsAt(Exec(sys, here + [j]).value.locals[i], OnItsWay(uri, prefix, if j == i then k + 1 else k), rest)
  {
    LastStep(sys, here + [j], here, j);
    OthersLeaveIt(sys, Exec(sys, here).value, j, i, uri, prefix, k, rest);
  }

  lemma SplitLast(start: seq<nat>, more: seq<nat>)
    requires more != []
    ensures start + more == start + more[..|more| - 1] + [more[|more| - 1]]
  {
  }

  /** Between its matching and its lookup a thread keeps to the prefix that it has matched, whatever the
      others do. */
  lemma {:induction false} KeepsToPrefix(sys: System, start: seq<nat>, more: seq<nat>, i: nat, uri: string,
                                         prefix: string, rest: Program)
    requires Exec(sys, start).Some? && Exec(sys, start + more).Some? && i < |sys.threads|
    requires IsAt(Exec(sys, start).value.locals[i], OnItsWay(uri, prefix, 1), rest) && Count(more, i) <= 2
    ensures IsAt(Exec(sys, start + more).value.locals[i], OnItsWay(uri, prefix, 1 + Count(more, i)), rest)
    decreases |more|
  {
    if more == [] {
      NothingBehind(start);
    } else {
      var init, j := more[..|more| - 1], more[|more| - 1];
      SplitLast(start, more);
      LastStep(sys, start + more, start + init, j);
      KeepsToPrefix(sys, start, init, i, uri, prefix, rest);
      KeepsOneStepMore(sys, start + init, j, i, uri, prefix, 1 + Count(init, i), rest);
    }
  }

  /** The handler name that a lookup results in: what it has found, or the fallback. */
  function Named(config: Config, found: Option<string>, prefix: string): string
    requires RouterConfig(config)
  {
    match found
    case Some(handler) => handler
    case None => FallbackHandler(config, prefix)
  }

  /** What a concurrent lookup answers: the handler that its URI had when it was matched, even if a longer
      prefix has been registered since; only if nothing matched, the handler that the empty prefix has when it
      is looked up, or the fallback. */
  lemma LookupAnswers(sys: System, schedule: seq<nat>, more: seq<nat>, i: nat, uri: string, rest: Program,
                      config: Config)
    requires Exec(sys, schedule).Some? && Exec(sys, schedule + [i] + more).Some? && i < |sys.threads|
    requires IsAt(Exec(sys, schedule).value.locals[i], Match(uri), rest) && Count(more, i) == 2
    requires RouterConfig(config)
    ensures var s, n := Exec(sys, schedule).value, Exec(sys, schedule + [i] + more).value;
            var prefix := LongestMatch(s.shared.routes.Keys, uri);
            && IsAt(n.locals[i], Find(Some(uri), prefix), rest)
            && Named(config, LocalAfter(n.shared.routes, n.locals[i]).handler, prefix)
               == if prefix in s.shared.routes then ChosenHandler(s.shared.routes, config, uri)
                  else RouteHandler(n.shared.routes, config, "")
  {
    var s := Exec(sys, schedule).value;
    var prefix := LongestMatch(s.shared.routes.Keys, uri);
    RoutesStay(sys, schedule + [i], more);
    RoutesStay(sys, schedule, [i]);
    LastStep(sys, schedule + [i], schedule, i);
    StepsOnItsWay(sys, s, i, uri, prefix, 0, rest);
    KeepsToPrefix(sys, schedule + [i], more, i, uri, prefix, rest);
    MatchIsUnique(s.shared.routes.Keys, uri, prefix);
  }

  // ----- Responses -----

  type Responses = multiset<Router.Response>

  function OwedBy(i: Instruction): Responses {
    if i.Answer? then multiset{i.response} else multiset{}
  }

  /** The responses that a program has still to record. */
  function Owed(p: Program): Responses {
    if p == [] then multiset{} else OwedBy(p[0]) + Owed(p[1..])
  }

  lemma {:induction false} OwedOfConcat(p: Program, q: Program)
    ensures Owed(p + q) == Owed(p) + Owed(q)
  {
    if p == [] {
      assert p + q == q;
    } else {
      RestOfConcat(p, q);
      OwedOfConcat(p[1..], q);
    }
  }

  function AnswerOf(c: Call): Responses {
    match c
    case RouteRequest(uri, Some(code)) => multiset{(uri, code)}
    case _ => multiset{}
  }

  /** The requests whose handler returns, with their status. */
  function Answered(calls: seq<Call>): Responses {
    if calls == [] then multiset{} else AnswerOf(calls[0]) + Answered(calls[1..])
  }

  lemma {:induction false} OwedNothing(p: Program)
    requires forall k :: 0 <= k < |p| ==> !p[k].Answer?
    ensures Owed(p) == multiset{}
  {
    if p != [] {
      OwedNothing(p[1..]);
    }
  }

  lemma {:induction false} RegistrationsOweNothing(routes: seq<Route>)
    ensures Owed(Registrations(routes)) == multiset{}
  {
    if routes != [] {
      RegistrationsOweNothing(routes[1..]);
      OwedNothing([LockRoutes, Register(routes[0]), Release(RouteMapLock)]);
      OwedOfConcat([LockRoutes, Register(routes[0]), Release(RouteMapLock)], Registrations(routes[1..]));
    }
  }

  lemma EpilogueOwes(uri: string, code: Option<int>)
    ensures Owed(Epilogue(uri, code)) == AnswerOf(RouteRequest(uri, code))
  {
    if code.Some? {
      var a, b := Answering((uri, code.value)), [Acquire(LogLock)] + Lookup(uri);
      var c := [Release(LogLock)] + Guarded(HeaderLock);
      AnsweringOwes((uri, code.value));
      OwedNothing(b);
      OwedNothing(c);
      OwedOfConcat(a, b);
      OwedOfConcat(a + b, c);
      Assoc(a, [Acquire(LogLock)], Lookup(uri));
      Assoc(a + b, [Release(LogLock)], Guarded(HeaderLock));
    }
  }

  lemma AnsweringOwes(response: Router.Response)
    ensures Owed(Answering(response)) == multiset{response}
  {
    var p := Answering(response);
    assert p == [p[0]] + ([p[1]] + [p[2]]);
    OwedOfConcat([p[0]], [p[1]] + [p[2]]);
    OwedOfConcat([p[1]], [p[2]]);
    OwedNothing([p[0]]);
    OwedNothing([p[2]]);
    assert Owed([p[1]]) == OwedBy(p[1]) + Owed([]);
  }

  lemma CallOwes(declared: seq<Route>, c: Call)
    ensures Owed(Instructions(declared, c)) == AnswerOf(c)
  {
    match c
    case RouteRequest(uri, code) =>
      var start := Lookup(uri) + Guarded(ConfigLock) + [ShowPage];
      OwedNothing(start);
      EpilogueOwes(uri, code);
      OwedOfConcat(start, Epilogue(uri, code));
    case RegisterRoutesFromConfig =>
      RegistrationsOweNothing(declared);
      OwedNothing([Acquire(ConfigLock)]);
      OwedNothing([Release(ConfigLock)]);
      OwedOfConcat([Acquire(ConfigLock)], Registrations(declared));
      OwedOfConcat([Acquire(ConfigLock)] + Registrations(declared), [Release(ConfigLock)]);
    case _ => OwedNothing(Instructions(declared, c));
  }

  /** The responses that a thread has still to record. */
  function DueOf(calls: seq<Call>, l: Local): Responses
    requires l.begun <= |calls|
  {
    Owed(l.todo) + Answered(calls[l.begun..])
  }

  function Due(sys: System, s: State, i: nat): Responses
    requires InState(sys, s) && i < |s.locals|
  {
    DueOf(sys.threads[i], s.locals[i])
  }

  function RecordedBy(l: Local): Responses {
    if l.todo == [] then multiset{} else OwedBy(l.todo[0])
  }

  lemma BeginPays(declared: seq<Route>, calls: seq<Call>, l: Local)
    requires l.todo == [] && l.begun < |calls|
    ensures DueOf(calls, l) == DueOf(calls, Begin(declared, calls, l))
  {
    CallOwes(declared, calls[l.begun]);
    assert calls[l.begun..][1..] == calls[l.begun + 1..];
  }

  lemma InstructionPays(routes: RouteMap, calls: seq<Call>, l: Local)
    requires l.todo != [] && l.begun <= |calls|
    ensures DueOf(calls, l) == RecordedBy(l) + DueOf(calls, LocalAfter(routes, l))
  {
    StageOwesNothing(routes, l.todo[0], l.handler);
    OwedOfConcat(Stage(routes, l.todo[0], l.handler), l.todo[1..]);
  }

  lemma StageOwesNothing(routes: RouteMap, i: Instruction, handler: Option<string>)
    ensures Owed(Stage(routes, i, handler)) == multiset{}
  {
    OwedNothing(Stage(routes, i, handler));
  }

  lemma InstructionRecords(s: Shared, i: Instruction)
    ensures multiset(SharedAfter(s, i).responses) == multiset(s.responses) + OwedBy(i)
  {
  }

  lemma StepPays(sys: System, s: State, i: nat)
    requires InState(sys, s) && i < |s.locals| && Unfinished(sys, s, i)
    ensures Due(sys, s, i) == RecordedBy(s.locals[i]) + Due(sys, Step(sys, s, i), i)
    ensures multiset(Step(sys, s, i).shared.responses) == multiset(s.shared.responses) + RecordedBy(s.locals[i])
  {
    if s.locals[i].todo == [] {
      BeginPays(sys.declared, sys.threads[i], s.locals[i]);
    } else {
      InstructionPays(s.shared.routes, sys.threads[i], s.locals[i]);
      InstructionRecords(s.shared, s.locals[i].todo[0]);
    }
  }

  function Total(parts: seq<Responses>): Responses {
    if parts == [] then multiset{} else parts[0] + Total(parts[1..])
  }

  lemma {:induction false} TotalAfterPaying(a: seq<Responses>, b: seq<Responses>, i: nat, paid: Responses)
    requires |a| == |b| && i < |a| && a[i] == paid + b[i]
    requires forall j :: 0 <= j < |a| && j != i ==> a[j] == b[j]
    ensures Total(a) == paid + Total(b)
  {
    if i == 0 {
      assert a[1..] == b[1..];
    } else {
      TotalAfterPaying(a[1..], b[1..], i - 1, paid);
    }
  }

  function AllDue(sys: System, s: State): (parts: seq<Responses>)
    requires InState(sys, s)
    ensures |parts| == |s.locals| && forall i :: 0 <= i < |parts| ==> parts[i] == Due(sys, s, i)
  {
    seq(|s.locals|, i requires 0 <= i < |s.locals| => Due(sys, s, i))
  }

  function AllAnswered(threads: seq<seq<Call>>): (parts: seq<Responses>)
    ensures |parts| == |threads| && forall i :: 0 <= i < |parts| ==> parts[i] == Answered(threads[i])
  {
    seq(|threads|, i requires 0 <= i < |threads| => Answered(threads[i]))
  }

  /** In every interleaving, what is recorded and what is still to be recorded are together what was recorded
      at the start and the answered requests of all threads. */
  lemma {:induction false} ResponsesAreConserved(sys: System, schedule: seq<nat>)
    requires Exec(sys, schedule).Some?
    ensures var s := Exec(sys, schedule).value;
            multiset(s.shared.responses) + Total(AllDue(sys, s))
            == multiset(sys.start.responses) + Total(AllAnswered(sys.threads))
  {
    if schedule == [] {
      forall i | 0 <= i < |sys.threads| ensures Due(sys, Initial(sys), i) == Answered(sys.threads[i]) {
        assert sys.threads[i][0..] == sys.threads[i];
      }
      assert AllDue(sys, Initial(sys)) == AllAnswered(sys.threads);
    } else {
      var init, i := schedule[..|schedule| - 1], schedule[|schedule| - 1];
      ResponsesAreConserved(sys, init);
      StepConserves(sys, Exec(sys, init).value, i);
    }
  }

  lemma StepConserves(sys: System, s: State, i: nat)
    requires InState(sys, s) && i < |s.locals| && Unfinished(sys, s, i)
    ensures multiset(Step(sys, s, i).shared.responses) + Total(AllDue(sys, Step(sys, s, i)))
            == multiset(s.shared.responses) + Total(AllDue(sys, s))
  {
    StepPays(sys, s, i);
    TotalAfterPaying(AllDue(sys, s), AllDue(sys, Step(sys, s, i)), i, RecordedBy(s.locals[i]));
  }

  lemma {:induction false} NothingDue(parts: seq<Responses>)
    requires forall i :: 0 <= i < |parts| ==> parts[i] == multiset{}
    ensures Total(parts) == multiset{}
  {
    if parts != [] {
      NothingDue(parts[1..]);
    }
  }

  /** When all threads are done, the response list holds exactly what it held at the start and one entry for
      every request whose handler returned, in some order. */
  lemma FinalResponses(sys: System, s: State)
    requires Reachable(sys, s) && InState(sys, s) && forall i :: 0 <= i < |s.locals| ==> !Unfinished(sys, s, i)
    ensures multiset(s.shared.responses) == multiset(sys.start.responses) + Total(AllAnswered(sys.threads))
  {
    var schedule :| Exec(sys, schedule) == Some(s);
    ResponsesAreConserved(sys, schedule);
    NobodyOwes(sys, s);
  }

  lemma NobodyOwes(sys: System, s: State)
    requires InState(sys, s) && forall i :: 0 <= i < |s.locals| ==> !Unfinished(sys, s, i)
    ensures Total(AllDue(sys, s)) == multiset{}
  {
    forall i | 0 <= i < |s.locals| ensures Due(sys, s, i) == multiset{} {
      assert !Unfinished(sys, s, i);
      DoneOwesNothing(sys.threads[i], s.locals[i]);
    }
    NothingDue(AllDue(sys, s));
  }

  lemma DoneOwesNothing(calls: seq<Call>, l: Local)
    requires l.todo == [] && l.begun == |calls|
    ensures DueOf(calls, l) == multiset{}
  {
    assert calls[|calls|..] == [];
  }
}
