/** What NginxConfig::ParseStatements extracts from the top-level statements, and in which order its
    keyword automaton tries the values. */
module ConfigSettings {
  import opened Wrappers
  import opened Numbers
  import opened Sequences

  const MAX_PORT: int := 65535
  const DEFAULT_THREADS: int := 10
  const UINT_RANGE: int := 0x1_0000_0000

  /** A value that is tried for one of the three settings. */
  datatype Attempt = PortTried(token: string) | RootSet(token: string) | ThreadsTried(token: string)

  predicate IsPort(token: string) {
    Stoi(token).Some? && 0 < Stoi(token).value <= MAX_PORT
  }

  /** The conversion of an int to an unsigned int. */
  function ToUnsigned(n: int): (u: nat)
    requires -INT_MAX - 1 <= n <= INT_MAX
    ensures u < UINT_RANGE && (u == 0 <==> n == 0)
  {
    if n < 0 then UINT_RANGE + n else n
  }

  predicate SetsThreads(token: string) {
    Stoi(token).Some? && ToUnsigned(Stoi(token).value) > 0
  }

  // ----- The loop over tokens -----

  /** The locals of the loops: the port once it is found, the current root and thread count. */
  datatype Settings = Settings(port: Option<int>, root: string, threads: int)

  const INITIAL: Settings := Settings(None, "", DEFAULT_THREADS)

  datatype Scan = Scan(settings: Settings, previous: string)

  /** One token of a statement. A value that cannot be used leaves the keyword in force. */
  function ScanToken(s: Scan, token: string): Scan {
    if s.previous == "port" && s.settings.port.None? then
      if IsPort(token) then Scan(s.settings.(port := Some(Stoi(token).value)), token) else s
    else if s.previous == "root" then
      Scan(s.settings.(root := if token == "." then "" else token), token)
    else if s.previous == "threadCount" then
      if SetsThreads(token) then Scan(s.settings.(threads := ToUnsigned(Stoi(token).value)), token)
      else if Stoi(token).Some? then s.(settings := s.settings.(threads := DEFAULT_THREADS))
      else s
    else s.(previous := token)
  }

  function ScanTokens(s: Scan, tokens: seq<string>): Scan {
    if tokens == [] then s
    else ScanToken(ScanTokens(s, tokens[..|tokens| - 1]), tokens[|tokens| - 1])
  }

  function ScanStatements(statements: seq<seq<string>>): Settings {
    if statements == [] then INITIAL
    else
      var before := ScanStatements(statements[..|statements| - 1]);
      ScanTokens(Scan(before, ""), statements[|statements| - 1]).settings
  }

  lemma ScanNext(statements: seq<seq<string>>, i: nat)
    requires i < |statements|
    ensures ScanStatements(statements[..i + 1])
            == ScanTokens(Scan(ScanStatements(statements[..i]), ""), statements[i]).settings
  {
    assert statements[..i + 1][..i] == statements[..i];
  }

  // ----- Attempts -----

  function AttemptOf(s: Scan, token: string): seq<Attempt> {
    if s.previous == "port" && s.settings.port.None? then [PortTried(token)]
    else if s.previous == "root" then [RootSet(token)]
    else if s.previous == "threadCount" then [ThreadsTried(token)]
    else []
  }

  function TokenAttempts(s: Scan, tokens: seq<string>): seq<Attempt> {
    if tokens == [] then []
    else
      var init := tokens[..|tokens| - 1];
      TokenAttempts(s, init) + AttemptOf(ScanTokens(s, init), tokens[|tokens| - 1])
  }

  /** All values that the loops try, in order. */
  function Attempts(statements: seq<seq<string>>): seq<Attempt> {
    if statements == [] then []
    else
      var init := statements[..|statements| - 1];
      Attempts(init) + TokenAttempts(Scan(ScanStatements(init), ""), statements[|statements| - 1])
  }

  // ----- What the settings are, in terms of the attempts -----

  function FirstPort(attempts: seq<Attempt>): Option<int> {
    if attempts == [] then None
    else
      var number := Stoi(attempts[0].token);
      if attempts[0].PortTried? && number.Some? && 1 <= number.value <= 65535 then number
      else FirstPort(attempts[1..])
  }

  function LastRoot(attempts: seq<Attempt>): string {
    if attempts == [] then ""
    else
      var last := attempts[|attempts| - 1];
      if last.RootSet? then (if last.token == "." then "" else last.token) else LastRoot(attempts[..|attempts| - 1])
  }

  /** A conversion failure is ignored, zero resets to the default. */
  function LastThreads(attempts: seq<Attempt>): int {
    if attempts == [] then 10
    else
      var last := attempts[|attempts| - 1];
      var number := Stoi(last.token);
      if last.ThreadsTried? && number.Some? then
        if number.value == 0 then 10 else if number.value > 0 then number.value else 4294967296 + number.value
      else LastThreads(attempts[..|attempts| - 1])
  }

  ghost predicate Explains(settings: Settings, attempts: seq<Attempt>) {
    && settings.port == FirstPort(attempts)
    && settings.root == LastRoot(attempts)
    && settings.threads == LastThreads(attempts)
    && NoneAfterPort(attempts)
  }

  /** No port is tried after one that can be used. */
  ghost predicate NoneAfterPort(attempts: seq<Attempt>) {
    forall k, j :: 0 <= k < j < |attempts| && attempts[k].PortTried? && IsPort(attempts[k].token)
                   ==> !attempts[j].PortTried?
  }

  lemma NoneAfterAppend(attempts: seq<Attempt>, last: Attempt)
    requires NoneAfterPort(attempts) && (last.PortTried? ==> FirstPort(attempts).None?)
    ensures NoneAfterPort(attempts + [last])
  {
    FirstPortExists(attempts);
  }

  lemma {:induction false} FirstPortAppend(attempts: seq<Attempt>, last: Attempt)
    ensures FirstPort(attempts + [last]) ==
            if FirstPort(attempts).Some? then FirstPort(attempts) else FirstPort([last])
  {
    if attempts == [] {
      assert attempts + [last] == [last];
    } else {
      FirstPortAppend(attempts[1..], last);
      assert (attempts + [last])[1..] == attempts[1..] + [last];
    }
  }

  lemma {:induction false} FirstPortExists(attempts: seq<Attempt>)
    ensures FirstPort(attempts).Some?
            <==> exists k :: 0 <= k < |attempts| && attempts[k].PortTried? && IsPort(attempts[k].token)
    ensures FirstPort(attempts).Some? ==> 0 < FirstPort(attempts).value <= MAX_PORT
  {
    if attempts != [] {
      FirstPortExists(attempts[1..]);
      if exists k :: 0 <= k < |attempts| && attempts[k].PortTried? && IsPort(attempts[k].token) {
        var k :| 0 <= k < |attempts| && attempts[k].PortTried? && IsPort(attempts[k].token);
        assert k > 0 ==> attempts[1..][k - 1] == attempts[k];
      }
    }
  }

  lemma AttemptExplained(settings: Settings, after: Settings, attempts: seq<Attempt>, a: Attempt)
    requires Explains(settings, attempts) && (a.PortTried? ==> settings.port.None?)
    requires after.port == if a.PortTried? && IsPort(a.token) then Stoi(a.token) else settings.port
    requires after.root == if a.RootSet? then (if a.token == "." then "" else a.token) else settings.root
    requires after.threads == if a.ThreadsTried? && Stoi(a.token).Some? then LastThreads([a]) else settings.threads
    ensures Explains(after, attempts + [a])
  {
    FirstPortAppend(attempts, a);
    NoneAfterAppend(attempts, a);
    LastAppend(attempts, a);
  }

  lemma TokenExplained(s: Scan, token: string, attempts: seq<Attempt>)
    requires Explains(s.settings, attempts)
    ensures Explains(ScanToken(s, token).settings, attempts + AttemptOf(s, token))
  {
    if AttemptOf(s, token) == [] {
      NothingBehind(attempts);
    } else {
      AttemptExplained(s.settings, ScanToken(s, token).settings, attempts, AttemptOf(s, token)[0]);
    }
  }

  lemma LastAppend(attempts: seq<Attempt>, last: Attempt)
    ensures LastRoot(attempts + [last]) ==
            if last.RootSet? then (if last.token == "." then "" else last.token) else LastRoot(attempts)
    ensures LastThreads(attempts + [last]) ==
            if last.ThreadsTried? && Stoi(last.token).Some? then LastThreads([last]) else LastThreads(attempts)
    ensures FirstPort([last]) == if last.PortTried? && IsPort(last.token) then Stoi(last.token) else None
  {
    var all := attempts + [last];
    assert all[..|all| - 1] == attempts;
  }

  lemma {:induction false} TokensExplained(s: Scan, tokens: seq<string>, attempts: seq<Attempt>)
    requires Explains(s.settings, attempts)
    ensures Explains(ScanTokens(s, tokens).settings, attempts + TokenAttempts(s, tokens))
  {
    if tokens == [] {
      assert attempts + [] == attempts;
    } else {
      var init := tokens[..|tokens| - 1];
      TokensExplained(s, init, attempts);
      TokenExplained(ScanTokens(s, init), tokens[|tokens| - 1], attempts + TokenAttempts(s, init));
      Assoc(attempts, TokenAttempts(s, init), AttemptOf(ScanTokens(s, init), tokens[|tokens| - 1]));
    }
  }

  /** The port is the first usable one tried and the last one tried at all; the root is the last one
      set; the thread count is what the last convertible one makes it. */
  lemma {:induction false} SettingsExplained(statements: seq<seq<string>>)
    ensures Explains(ScanStatements(statements), Attempts(statements))
  {
    if statements != [] {
      var init := statements[..|statements| - 1];
      SettingsExplained(init);
      TokensExplained(Scan(ScanStatements(init), ""), statements[|statements| - 1], Attempts(init));
    }
  }

  /** A port is in range, and there is at least one thread. */
  lemma SettingsInRange(statements: seq<seq<string>>)
    ensures var s := ScanStatements(statements);
            (s.port.Some? ==> 1 <= s.port.value <= 65535) && 0 < s.threads < 4294967296
  {
    SettingsExplained(statements);
    FirstPortExists(Attempts(statements));
    LastThreadsInRange(Attempts(statements));
  }

  lemma {:induction false} LastThreadsInRange(attempts: seq<Attempt>)
    ensures 0 < LastThreads(attempts) < 4294967296
  {
    if attempts != [] {
      LastThreadsInRange(attempts[..|attempts| - 1]);
    }
  }

  // ----- Statements of the documented form -----

  /** In a state after some statements, what one more statement does. */
  lemma OneMore(before: seq<seq<string>>, tokens: seq<string>)
    ensures ScanStatements(before + [tokens]) == ScanTokens(Scan(ScanStatements(before), ""), tokens).settings
  {
    var all := before + [tokens];
    assert all[..|all| - 1] == before;
  }

  lemma OneMoreToken(s: Scan, tokens: seq<string>, last: string)
    ensures ScanTokens(s, tokens + [last]) == ScanToken(ScanTokens(s, tokens), last)
  {
    var all := tokens + [last];
    assert all[..|all| - 1] == tokens;
  }

  lemma LastOfConcat(s: Scan, a: seq<string>, init: seq<string>, last: string)
    requires ScanTokens(s, a + init) == ScanTokens(ScanTokens(s, a), init)
    ensures ScanTokens(s, a + (init + [last])) == ScanTokens(ScanTokens(s, a), init + [last])
  {
    Assoc(a, init, [last]);
    OneMoreToken(s, a + init, last);
    OneMoreToken(ScanTokens(s, a), init, last);
  }

  lemma {:induction false} ScanOfConcat(s: Scan, a: seq<string>, b: seq<string>)
    ensures ScanTokens(s, a + b) == ScanTokens(ScanTokens(s, a), b)
  {
    if b == [] {
      NothingBehind(a);
    } else {
      var init, last := b[..|b| - 1], b[|b| - 1];
      ScanOfConcat(s, a, init);
      LastOfConcat(s, a, init, last);
      assert init + [last] == b;
    }
  }

  predicate IsKeyword(token: string) {
    token == "port" || token == "root" || token == "threadCount"
  }

  /** Tokens that are no keywords change nothing. */
  lemma {:induction false} NoKeyword(settings: Settings, tokens: seq<string>)
    requires forall t :: t in tokens ==> !IsKeyword(t)
    ensures ScanTokens(Scan(settings, ""), tokens).settings == settings
    ensures !IsKeyword(ScanTokens(Scan(settings, ""), tokens).previous)
  {
    if tokens != [] {
      NoKeyword(settings, tokens[..|tokens| - 1]);
    }
  }

  /** A keyword behind such tokens is in force. */
  lemma KeywordInForce(before: seq<seq<string>>, head: seq<string>, keyword: string)
    requires forall t :: t in head ==> !IsKeyword(t)
    ensures ScanTokens(Scan(ScanStatements(before), ""), head + [keyword]) == Scan(ScanStatements(before), keyword)
  {
    NoKeyword(ScanStatements(before), head);
    OneMoreToken(Scan(ScanStatements(before), ""), head, keyword);
  }

  predicate NoPort(token: string) {
    Stoi(token).None? || Stoi(token).value < 1 || Stoi(token).value > 65535
  }

  lemma PortRefused(s: Scan, token: string)
    requires s.previous == "port" && s.settings.port.None? && NoPort(token)
    ensures ScanToken(s, token) == s
  {
  }

  lemma {:induction false} PortsRefused(s: Scan, refused: seq<string>)
    requires s.previous == "port" && s.settings.port.None? && forall t :: t in refused ==> NoPort(t)
    ensures ScanTokens(s, refused) == s
  {
    if refused != [] {
      PortsRefused(s, refused[..|refused| - 1]);
      PortRefused(s, refused[|refused| - 1]);
    }
  }

  /** `port` stays in force over values that are no port, and the first one that is decides the port, unless
      an earlier statement has. Nothing else changes. */
  lemma PortStatement(before: seq<seq<string>>, head: seq<string>, refused: seq<string>, port: nat)
    requires forall t :: t in head ==> !IsKeyword(t)
    requires forall t :: t in refused ==> NoPort(t)
    requires 1 <= port <= 65535
    ensures ScanStatements(before).port.None? ==>
              ScanStatements(before + [head + ["port"] + refused + [Decimal(port)]])
              == ScanStatements(before).(port := Some(port))
  {
    var s, keyword := Scan(ScanStatements(before), ""), head + ["port"];
    KeywordInForce(before, head, "port");
    OneMore(before, keyword + refused + [Decimal(port)]);
    OneMoreToken(s, keyword + refused, Decimal(port));
    StoiOfDecimal(port);
    ScanOfConcat(s, keyword, refused);
    if ScanStatements(before).port.None? {
      PortsRefused(ScanTokens(s, keyword), refused);
    }
  }

  /** Once there is a port, no statement changes it. */
  lemma {:induction false} PortStays(s: Scan, tokens: seq<string>)
    requires s.settings.port.Some?
    ensures ScanTokens(s, tokens).settings.port == s.settings.port
  {
    if tokens != [] {
      PortStays(s, tokens[..|tokens| - 1]);
    }
  }

  lemma {:induction false} FirstPortStays(before: seq<seq<string>>, more: seq<seq<string>>)
    requires ScanStatements(before).port.Some?
    ensures ScanStatements(before + more).port == ScanStatements(before).port
  {
    if more == [] {
      NothingBehind(before);
    } else {
      var init, last := more[..|more| - 1], more[|more| - 1];
      FirstPortStays(before, init);
      Assoc(before, init, [last]);
      assert init + [last] == more;
      OneMore(before + init, last);
      PortStays(Scan(ScanStatements(before + init), ""), last);
    }
  }

  /** `root path;` replaces any earlier root, and nothing else; `.` means the empty one. */
  lemma RootStatement(before: seq<seq<string>>, head: seq<string>, path: string)
    requires forall t :: t in head ==> !IsKeyword(t)
    ensures ScanStatements(before + [head + ["root"] + [path]])
            == ScanStatements(before).(root := if path == "." then "" else path)
  {
    KeywordInForce(before, head, "root");
    OneMore(before, head + ["root"] + [path]);
    OneMoreToken(Scan(ScanStatements(before), ""), head + ["root"], path);
  }

  lemma TwoTokens(before: seq<seq<string>>, keyword: string, token: string)
    ensures ScanStatements(before + [[keyword, token]])
            == ScanToken(Scan(ScanStatements(before), keyword), token).settings
  {
    OneMore(before, [] + [keyword] + [token]);
    KeywordInForce(before, [], keyword);
    OneMoreToken(Scan(ScanStatements(before), ""), [] + [keyword], token);
    assert [] + [keyword] + [token] == [keyword, token];
  }

  predicate NoThreads(token: string) {
    Stoi(token).None? || Stoi(token).value == 0
  }

  /** Some of the tokens can be converted. */
  predicate SomeConvert(tokens: seq<string>) {
    exists t :: t in tokens && Stoi(t).Some?
  }

  lemma SomeConvertAppend(tokens: seq<string>, last: string)
    ensures SomeConvert(tokens + [last]) <==> SomeConvert(tokens) || Stoi(last).Some?
  {
    assert last in tokens + [last];
    if SomeConvert(tokens) {
      var t :| t in tokens && Stoi(t).Some?;
      assert t in tokens + [last];
    }
  }

  /** The state with the thread count reset. */
  function ResetThreads(s: Scan): Scan {
    s.(settings := s.settings.(threads := 10))
  }

  lemma ThreadRefused(s: Scan, before: Scan, init: seq<string>, last: string)
    requires s.previous == "threadCount" && NoThreads(last)
    requires before == if SomeConvert(init) then ResetThreads(s) else s
    ensures ScanToken(before, last) == if SomeConvert(init + [last]) then ResetThreads(s) else s
  {
    SomeConvertAppend(init, last);
  }

  lemma {:induction false} ThreadsRefused(s: Scan, refused: seq<string>)
    requires s.previous == "threadCount" && forall t :: t in refused ==> NoThreads(t)
    ensures ScanTokens(s, refused) == if SomeConvert(refused) then ResetThreads(s) else s
  {
    if refused != [] {
      var init, last := refused[..|refused| - 1], refused[|refused| - 1];
      ThreadsRefused(s, init);
      ThreadRefused(s, ScanTokens(s, init), init, last);
      assert init + [last] == refused;
    }
  }

  /** `threadCount` stays in force over values that cannot be converted, which change nothing, and over
      zeros, which reset the count to 10. A positive value replaces the count, and a negative one becomes
      huge, because it is converted to unsigned. */
  lemma ThreadStatement(before: seq<seq<string>>, head: seq<string>, refused: seq<string>, token: string)
    requires forall t :: t in head ==> !IsKeyword(t)
    requires forall t :: t in refused ==> NoThreads(t)
    ensures ScanStatements(before + [head + ["threadCount"] + refused + [token]])
            == ScanStatements(before).(threads :=
                 if Stoi(token).Some? then
                   if Stoi(token).value == 0 then 10
                   else if Stoi(token).value > 0 then Stoi(token).value
                   else 4294967296 + Stoi(token).value
                 else if SomeConvert(refused) then 10
                 else ScanStatements(before).threads)
  {
    var s, keyword := Scan(ScanStatements(before), ""), head + ["threadCount"];
    KeywordInForce(before, head, "threadCount");
    OneMore(before, keyword + refused + [token]);
    OneMoreToken(s, keyword + refused, token);
    ScanOfConcat(s, keyword, refused);
    ThreadsRefused(ScanTokens(s, keyword), refused);
  }

  /** For instance, `threadCount -1;` asks for 4294967295 threads. */
  lemma MinusOneThread(before: seq<seq<string>>)
    ensures ScanStatements(before + [["threadCount", "-1"]]).threads == 4294967295
  {
    assert "-1"[1..] == "1" && "1"[..1] == "1" && "1"[..0] == "" && "1"[1..] == "";
    assert ValueOf(10, "1") == ValueOf(10, "") * 10 + DigitValue('1');
    assert DropSpaces("-1") == "-1" && DigitRun(10, "1") == 1;
    TwoTokens(before, "threadCount", "-1");
  }

  lemma ThreeTokens(s: Scan, a: string, b: string, c: string)
    ensures ScanTokens(s, [a, b, c]) == ScanToken(ScanToken(ScanToken(s, a), b), c)
  {
    assert [a, b, c][..2] == [a, b] && [a, b][..1] == [a] && [a][..0] == [];
    OneMoreToken(s, [], a);
    OneMoreToken(s, [a], b);
    OneMoreToken(s, [a, b], c);
    assert [] + [a] == [a] && [a] + [b] == [a, b] && [a, b] + [c] == [a, b, c];
  }

  /** A value that is a keyword counts as both. */
  lemma ValueAndKeyword(before: seq<seq<string>>, port: nat)
    requires 1 <= port <= 65535 && ScanStatements(before).port.None?
    ensures ScanStatements(before + [["root", "port", Decimal(port)]])
            == ScanStatements(before).(root := "port", port := Some(port))
  {
    StoiOfDecimal(port);
    OneMore(before, ["root", "port", Decimal(port)]);
    ThreeTokens(Scan(ScanStatements(before), ""), "root", "port", Decimal(port));
  }

  lemma NumberIsNoKeyword(n: nat)
    ensures !IsKeyword(Decimal(n))
  {
    assert '0' <= Decimal(n)[0] <= '9';
  }

  lemma PortToken(settings: Settings, port: nat)
    requires 1 <= port <= 65535 && settings.port.None?
    ensures ScanTokens(Scan(settings, ""), ["port"] + [Decimal(port)])
            == Scan(settings.(port := Some(port)), Decimal(port))
  {
    StoiOfDecimal(port);
    OneMoreToken(Scan(settings, ""), [], "port");
    OneMoreToken(Scan(settings, ""), ["port"], Decimal(port));
    assert [] + ["port"] == ["port"];
  }

  /** A keyword can follow a value. */
  lemma KeywordBehindValue(before: seq<seq<string>>, port: nat, path: string)
    requires 1 <= port <= 65535 && ScanStatements(before).port.None?
    ensures ScanStatements(before + [["port"] + [Decimal(port)] + ["root"] + [path]])
            == ScanStatements(before).(root := if path == "." then "" else path, port := Some(port))
  {
    var s, tokens := Scan(ScanStatements(before), ""), ["port"] + [Decimal(port)];
    NumberIsNoKeyword(port);
    PortToken(s.settings, port);
    OneMoreToken(s, tokens, "root");
    OneMoreToken(s, tokens + ["root"], path);
    OneMore(before, tokens + ["root"] + [path]);
  }

  lemma WrittenNumbers()
    ensures Decimal(8080) == "8080" && Decimal(50) == "50"
  {
    assert Decimal(8) == "8" && Decimal(80) == "80" && Decimal(808) == "808";
  }

  /** The shipped configuration asks for port 8080, the empty root and 50 threads. */
  lemma LocalPort()
    ensures ScanStatements([["port", "8080"], ["root", "."], ["threadCount", "50"]])
            == Settings(Some(8080), "", 50)
  {
    WrittenNumbers();
    StoiOfDecimal(8080);
    StoiOfDecimal(50);
    TwoTokens([], "port", "8080");
    TwoTokens([["port", "8080"]], "root", ".");
    TwoTokens([["port", "8080"], ["root", "."]], "threadCount", "50");
    assert [] + [["port", "8080"]] == [["port", "8080"]];
  }
}
