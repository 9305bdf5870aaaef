/** The config tree of src/config_parser.cc on the heap, the parser that builds it in place through a
    stack of pointers into it, and the printer that walks it. */
module ConfigTree {
  import opened Wrappers
  import opened ConfigLexer
  import opened ConfigGrammar
  import opened ConfigRemains
  import opened ConfigPrinter
  import opened ConfigSettings
  import opened Numbers
  import opened Sequences

  class NginxConfigStatement {
    var tokens: seq<string>
    var child: NginxConfig?

    constructor ()
      ensures tokens == [] && child == null
    {
      tokens, child := [], null;
    }

    /** Prints the statement that `shape` describes. */
    method ToString(depth: int, ghost shape: Shape) returns (text: string)
      requires shape.node == this && StatementMatches(shape)
      ensures text == PrintedStatement(StatementValue(shape), depth)
      decreases shape, 1
    {
      if shape.NestedShape? {
        AllAllocated(shape.child);
      }
      text := AppendIndent("", depth);
      var words := JoinTokens(tokens);
      text := text + words;
      ghost var head := text;
      if child != null {
        text := text + " {\n";
        var body := child.ToString(depth + 1, shape.child);
        text := AppendIndent(text + body, depth);
        text := text + "}";
        BlockText(head, " {\n", body, Indent(depth), "}", "\n");
        assert "}" + "\n" == "}\n";
      } else {
        text := text + ";";
        assert text + "\n" == head + ";\n";
      }
      text := text + "\n";
    }
  }

  lemma BlockText(head: string, open: string, body: string, indent: string, close: string, end: string)
    ensures head + open + body + indent + close + end == head + (open + (body + (indent + (close + end))))
  {
    Assoc(head + open + body + indent, close, end);
    Assoc(head + open + body, indent, close + end);
    Assoc(head + open, body, indent + (close + end));
    Assoc(head, open, body + (indent + (close + end)));
  }

  /** The token lists of some statements. */
  function TokensOf(statements: seq<NginxConfigStatement>): (lists: seq<seq<string>>)
    reads statements
    ensures |lists| == |statements| && forall i :: 0 <= i < |lists| ==> lists[i] == statements[i].tokens
  {
    if statements == [] then []
    else TokensOf(statements[..|statements| - 1]) + [statements[|statements| - 1].tokens]
  }

  method AppendIndent(start: string, depth: int) returns (text: string)
    ensures text == start + Indent(depth)
  {
    text := start;
    var i := 0;
    while i < depth
      invariant i == 0 || 0 < i <= depth
      invariant text == start + Indent(i)
    {
      text := text + "  ";
      i := i + 1;
    }
    assert depth <= 0 ==> Indent(depth) == Indent(i) == "";
  }

  method JoinTokens(tokens: seq<string>) returns (text: string)
    ensures text == Joined(tokens)
  {
    text := "";
    for i := 0 to |tokens|
      invariant text == Joined(tokens[..i])
    {
      if i != 0 {
        JoinedAppend(tokens[..i], tokens[i]);
        text := text + " ";
      }
      assert tokens[..i + 1] == tokens[..i] + [tokens[i]];
      text := text + tokens[i];
    }
    assert tokens[..|tokens|] == tokens;
  }

  class NginxConfig {
    var statements: seq<NginxConfigStatement>
    var port: int
    var root: string
    var threadCount: int

    constructor ()
      ensures statements == []
    {
      statements := [];
    }

    /** The token lists of the statements. */
    function TokenLists(): seq<seq<string>>
      reads `statements, statements
    {
      TokensOf(statements)
    }

    /** The inner loop of `ParseStatements`, over the tokens of one statement. */
    method ParseTokens(tokens: seq<string>, foundBefore: bool, rootBefore: string, threadsBefore: int)
      returns (foundPort: bool, currentRoot: string, threads: int)
      modifies `port, `root, `threadCount
      ensures ScanTokens(Scan(Found(foundBefore, old(port), rootBefore, threadsBefore), ""), tokens).settings
              == Found(foundPort, port, currentRoot, threads)
      ensures foundBefore || !foundPort ==> foundPort == foundBefore && port == old(port)
    {
      foundPort, currentRoot, threads := foundBefore, rootBefore, threadsBefore;
      var previous := "";
      ghost var start := Scan(Found(foundBefore, port, rootBefore, threadsBefore), "");
      for j := 0 to |tokens|
        invariant ScanTokens(start, tokens[..j]) == Scan(Found(foundPort, port, currentRoot, threads), previous)
        invariant foundBefore || !foundPort ==> foundPort == foundBefore && port == old(port)
      {
        var token := tokens[j];
        assert tokens[..j + 1][..j] == tokens[..j];
        if previous == "port" && !foundPort {
          var number := Stoi(token);
          if number.None? {
            continue;
          }
          if number.value > 0 && number.value <= MAX_PORT {
            port := number.value;
            foundPort := true;
          } else {
            continue;
          }
        } else if previous == "root" {
          currentRoot := token;
          if currentRoot == "." {
            currentRoot := "";
          }
          root := currentRoot;
        } else if previous == "threadCount" {
          var number := Stoi(token);
          if number.None? {
            continue;
          }
          threads := ToUnsigned(number.value);
          if threads > 0 {
            threadCount := threads;
          } else {
            threads := DEFAULT_THREADS;
            continue;
          }
        }
        previous := token;
      }
      assert tokens[..|tokens|] == tokens;
    }

    /** Extracts port, root and thread count; the port field is only written once one is found. */
    method ParseStatements() returns (foundPort: bool)
      modifies `port, `root, `threadCount
      ensures Found(foundPort, port, root, threadCount) == ScanStatements(old(TokenLists()))
      ensures !foundPort ==> port == old(port)
    {
      var currentRoot, threads := "", DEFAULT_THREADS;
      foundPort := false;
      ghost var lists := TokenLists();
      for i := 0 to |statements|
        invariant |lists| == |statements| && forall k :: 0 <= k < |lists| ==> statements[k].tokens == lists[k]
        invariant ScanStatements(lists[..i]) == Found(foundPort, port, currentRoot, threads)
        invariant !foundPort ==> port == old(port)
      {
        ScanNext(lists, i);
        foundPort, currentRoot, threads := ParseTokens(statements[i].tokens, foundPort, currentRoot, threads);
      }
      assert lists[..|statements|] == lists;
      threadCount := threads;
      root := currentRoot;
    }

    method ToString(depth: int, ghost shapes: seq<Shape>) returns (text: string)
      requires statements == Nodes(shapes) && Matches(shapes)
      ensures text == Printed(Value(shapes), depth)
      decreases shapes, 2
    {
      AllAllocated(shapes);
      text := "";
      for i := 0 to |statements|
        invariant Matches(shapes)
        invariant text == Printed(Value(shapes[..i]), depth)
      {
        ShapeAt(shapes, i);
        assert shapes[..i + 1][..i] == shapes[..i];
        PrintedAppend(Value(shapes[..i]), StatementValue(shapes[i]), depth);
        var s := statements[i].ToString(depth, shapes[i]);
        text := text + s;
      }
      assert shapes[..|statements|] == shapes;
    }
  }

  /** The settings that the locals of the extraction loops hold. */
  function Found(foundPort: bool, port: int, root: string, threads: int): Settings {
    Settings(if foundPort then Some(port) else None, root, threads)
  }

  // ----- The tree a heap structure stands for -----

  /** A statement with its subtree: the objects, and the values they are expected to hold. */
  datatype Shape =
    | SimpleShape(node: NginxConfigStatement, tokens: seq<string>)
    | NestedShape(node: NginxConfigStatement, tokens: seq<string>, block: NginxConfig, child: seq<Shape>)

  ghost function Nodes(shapes: seq<Shape>): (nodes: seq<NginxConfigStatement>)
    ensures |nodes| == |shapes|
  {
    if shapes == [] then [] else Nodes(shapes[..|shapes| - 1]) + [shapes[|shapes| - 1].node]
  }

  ghost function Value(shapes: seq<Shape>): (b: Block)
    ensures |b| == |shapes|
    decreases shapes, 1
  {
    if shapes == [] then [] else Value(shapes[..|shapes| - 1]) + [StatementValue(shapes[|shapes| - 1])]
  }

  ghost function StatementValue(s: Shape): Statement
    decreases s, 0
  {
    match s
    case SimpleShape(_, tokens) => Simple(tokens)
    case NestedShape(_, tokens, _, child) => Nested(tokens, Value(child))
  }

  /** All objects of the subtrees. */
  ghost function Objects(shapes: seq<Shape>): set<object>
    decreases shapes, 1
  {
    if shapes == [] then {} else Objects(shapes[..|shapes| - 1]) + StatementObjects(shapes[|shapes| - 1])
  }

  ghost function StatementObjects(s: Shape): set<object>
    decreases s, 0
  {
    match s
    case SimpleShape(node, _) => {node}
    case NestedShape(node, _, block, child) => {node, block} + Objects(child)
  }

  /** The heap holds what the shapes say. */
  ghost predicate Matches(shapes: seq<Shape>)
    reads Objects(shapes)
    decreases shapes, 1
  {
    shapes == [] || (Matches(shapes[..|shapes| - 1]) && StatementMatches(shapes[|shapes| - 1]))
  }

  ghost predicate StatementMatches(s: Shape)
    reads StatementObjects(s)
    decreases s, 0
  {
    && s.node.tokens == s.tokens
    && match s
       case SimpleShape(node, _) => node.child == null
       case NestedShape(node, _, block, child) =>
         node.child == block && block.statements == Nodes(child) && Matches(child)
  }

  /** No object occurs twice: the structure is a tree. */
  ghost predicate Distinct(shapes: seq<Shape>)
    decreases shapes, 1
  {
    shapes == [] ||
    (var init, last := shapes[..|shapes| - 1], shapes[|shapes| - 1];
     Distinct(init) && StatementDistinct(last) && Objects(init) !! StatementObjects(last))
  }

  ghost predicate StatementDistinct(s: Shape)
    decreases s, 0
  {
    s.NestedShape? ==> s.node as object != s.block && {s.node, s.block} !! Objects(s.child) && Distinct(s.child)
  }

  lemma {:induction false} ShapeAt(shapes: seq<Shape>, i: nat)
    requires Matches(shapes) && i < |shapes|
    ensures Nodes(shapes)[i] == shapes[i].node && StatementMatches(shapes[i])
    decreases |shapes|
  {
    if i < |shapes| - 1 {
      ShapeAt(shapes[..|shapes| - 1], i);
    }
  }

  lemma {:induction false} AllAllocated(shapes: seq<Shape>)
    ensures forall o :: o in Objects(shapes) ==> allocated(o)
    decreases shapes, 1
  {
    if shapes != [] {
      AllAllocated(shapes[..|shapes| - 1]);
      StatementAllocated(shapes[|shapes| - 1]);
    }
  }

  lemma {:induction false} StatementAllocated(s: Shape)
    ensures forall o :: o in StatementObjects(s) ==> allocated(o)
    decreases s, 0
  {
    assert allocated(s.node);
    if s.NestedShape? {
      assert allocated(s.block);
      AllAllocated(s.child);
    }
    forall o | o in StatementObjects(s) ensures allocated(o) {
      assert o == s.node || (s.NestedShape? && (o == s.block || o in Objects(s.child)));
    }
  }

  // ----- The parser's stack -----

  /** The levels below the top of the stack: each config with the statements its caller had put there
      (`earlier`, only at the bottom), the finished statements and the one that waits for its block. */
  datatype Path =
    | Outside
    | Level(outer: Path, config: NginxConfig, earlier: seq<NginxConfigStatement>, done: seq<Shape>,
            waiting: NginxConfigStatement, words: seq<string>)

  /** The top of the stack as well: `current` is its unfinished statement, if it has one. */
  datatype Cursor = Cursor(path: Path, top: NginxConfig, earlier: seq<NginxConfigStatement>, done: seq<Shape>,
                           current: Option<NginxConfigStatement>, words: seq<string>)

  ghost function Stack(p: Path): seq<NginxConfig> {
    if p.Outside? then [] else Stack(p.outer) + [p.config]
  }

  ghost function PathContext(p: Path): Context {
    if p.Outside? then Bottom else Enclosing(PathContext(p.outer), Value(p.done), p.words)
  }

  ghost function PathObjects(p: Path): set<object> {
    if p.Outside? then {} else PathObjects(p.outer) + {p.config, p.waiting} + Objects(p.done)
  }

  /** Every level's waiting statement owns the level above. */
  ghost predicate PathMatches(p: Path, above: NginxConfig)
    reads PathObjects(p)
  {
    p.Level? ==>
      && p.config.statements == p.earlier + Nodes(p.done) + [p.waiting]
      && Matches(p.done)
      && p.waiting.tokens == p.words
      && p.waiting.child == above
      && PathMatches(p.outer, p.config)
  }

  ghost predicate PathDistinct(p: Path) {
    p.Level? ==>
      && p.config as object != p.waiting
      && {p.config, p.waiting} !! Objects(p.done)
      && PathObjects(p.outer) !! {p.config, p.waiting} + Objects(p.done)
      && Distinct(p.done)
      && PathDistinct(p.outer)
  }

  ghost function CurrentNodes(c: Cursor): seq<NginxConfigStatement> {
    if c.current.None? then [] else [c.current.value]
  }

  ghost function TopObjects(c: Cursor): set<object> {
    {c.top} + Objects(c.done) + (if c.current.None? then {} else {c.current.value})
  }

  ghost function CursorObjects(c: Cursor): set<object> {
    PathObjects(c.path) + TopObjects(c)
  }

  ghost predicate CursorMatches(c: Cursor)
    reads CursorObjects(c)
  {
    && PathMatches(c.path, c.top)
    && c.top.statements == c.earlier + Nodes(c.done) + CurrentNodes(c)
    && Matches(c.done)
    && (c.current.None? <==> c.words == [])
    && (c.current.Some? ==> c.current.value.tokens == c.words && c.current.value.child == null)
  }

  ghost predicate CursorDistinct(c: Cursor) {
    && PathDistinct(c.path)
    && Distinct(c.done)
    && c.top !in Objects(c.done)
    && (c.current.Some? ==> c.current.value as object != c.top && c.current.value !in Objects(c.done))
    && PathObjects(c.path) !! TopObjects(c)
  }

  /** The stack machine's state that the heap and the stack stand for. */
  ghost function MachineAt(c: Cursor, last: TokenType): Machine {
    Machine(PathContext(c.path), Value(c.done), c.words, last)
  }

  /** `root` is the bottom of the stack; only it has earlier statements, namely `before`. */
  ghost predicate Rooted(p: Path, top: NginxConfig, earlier: seq<NginxConfigStatement>,
                         root: NginxConfig, before: seq<NginxConfigStatement>)
    decreases p
  {
    if p.Outside? then top == root && earlier == before
    else earlier == [] && Rooted(p.outer, p.config, p.earlier, root, before)
  }

  ghost predicate At(c: Cursor, top: NginxConfig)
    reads CursorObjects(c)
  {
    c.top == top && CursorMatches(c) && CursorDistinct(c)
  }

  lemma {:induction false} PathAllocated(p: Path)
    ensures forall o :: o in PathObjects(p) ==> allocated(o)
  {
    if p.Level? {
      PathAllocated(p.outer);
      AllAllocated(p.done);
      assert allocated(p.config) && allocated(p.waiting);
      forall o | o in PathObjects(p) ensures allocated(o) {
        assert o == p.config || o == p.waiting || o in Objects(p.done) || o in PathObjects(p.outer);
      }
    }
  }

  // ----- The parser's steps -----

  /** The cursor after one more word of a statement. */
  ghost function WithWord(c: Cursor, node: NginxConfigStatement, word: string): Cursor {
    c.(current := Some(node), words := c.words + [word])
  }

  ghost function WithStatement(c: Cursor): Cursor
    requires c.current.Some?
  {
    c.(done := c.done + [SimpleShape(c.current.value, c.words)], current := None, words := [])
  }

  ghost function Entered(c: Cursor, block: NginxConfig): Cursor
    requires c.current.Some?
  {
    Cursor(Level(c.path, c.top, c.earlier, c.done, c.current.value, c.words), block, [], [], None, [])
  }

  ghost function Left(c: Cursor): Cursor
    requires c.path.Level?
  {
    var p := c.path;
    Cursor(p.outer, p.config, p.earlier, p.done + [NestedShape(p.waiting, p.words, c.top, c.done)], None, [])
  }

  method PushWord(top: NginxConfig, token: string, starts: bool, ghost c: Cursor) returns (ghost n: Cursor)
    requires At(c, top) && (starts <==> c.words == [])
    modifies CursorObjects(c)
    ensures At(n, top) && n.current.Some? && n == WithWord(c, n.current.value, token)
    ensures if starts then fresh(n.current.value) else n.current == c.current
  {
    PathAllocated(c.path);
    AllAllocated(c.done);
    if starts {
      var s := new NginxConfigStatement();
      top.statements := top.statements + [s];
    }
    var back := top.statements[|top.statements| - 1];
    back.tokens := back.tokens + [token];
    n := WithWord(c, back, token);
  }

  lemma EndStatement(c: Cursor)
    requires At(c, c.top) && c.current.Some?
    ensures At(WithStatement(c), c.top)
    ensures TopObjects(WithStatement(c)) == TopObjects(c)
    ensures Value(WithStatement(c).done) == Value(c.done) + [Simple(c.words)]
  {
    var n := WithStatement(c);
    assert n.done[..|n.done| - 1] == c.done;
    assert StatementObjects(n.done[|c.done|]) == {c.current.value};
  }

  method PushBlock(top: NginxConfig, ghost c: Cursor) returns (block: NginxConfig)
    requires At(c, top) && c.current.Some?
    modifies CursorObjects(c)
    ensures fresh(block) && At(Entered(c, block), block)
  {
    PathAllocated(c.path);
    AllAllocated(c.done);
    block := new NginxConfig();
    top.statements[|top.statements| - 1].child := block;
  }

  lemma PopBlock(c: Cursor)
    requires At(c, c.top) && c.path.Level? && c.current.None? && c.earlier == []
    ensures At(Left(c), c.path.config)
    ensures CursorObjects(Left(c)) == CursorObjects(c)
    ensures Value(Left(c).done) == Value(c.path.done) + [Nested(c.path.words, Value(c.done))]
  {
    var n := Left(c);
    assert n.done[..|n.done| - 1] == c.path.done;
    assert StatementObjects(n.done[|c.path.done|]) == {c.path.waiting, c.top} + Objects(c.done);
    assert c.top.statements == Nodes(c.done);
  }

  // ----- The parser -----

  /** What reading one token of `text` does to a run of the stack machine. */
  lemma RunReads(m: Machine, text: string, kind: TokenType, token: string, rest: string)
    requires Yields(kind, token, rest, Lex(text))
    ensures kind != TypeStart && (!Stops(kind) ==> |rest| < |text|)
    ensures Run(m, LexAll(text)) == AfterReading(m, kind, token, rest)
    ensures Stop(m, LexAll(text)) == StopAfterReading(m, kind, token, rest)
  {
    if !Stops(kind) && kind != TypeComment {
      RunPrepended(m, Token(kind, token), LexAll(rest));
      StopPrepended(m, Token(kind, token), LexAll(rest));
    }
  }

  lemma StopPrepended(m: Machine, t: Token, rest: TokenStream)
    ensures Stop(m, Prepend([t], rest)) == if Step(m, t).None? then m else Stop(Step(m, t).value, rest)
  {
    assert Prepend([t], rest).tokens[1..] == rest.tokens;
  }

  function StopAfterReading(m: Machine, kind: TokenType, token: string, rest: string): Machine {
    if Stops(kind) then m
    else if kind == TypeComment then Stop(m, LexAll(rest))
    else if Step(m, Token(kind, token)).None? then m
    else Stop(Step(m, Token(kind, token)).value, LexAll(rest))
  }

  function AfterReading(m: Machine, kind: TokenType, token: string, rest: string): Option<Block> {
    if kind == TypeError then None
    else if kind == TypeEof then
      if ClosesStatement(m.last) && m.context.Bottom? then Some(m.done) else None
    else if kind == TypeComment then Run(m, LexAll(rest))
    else if Step(m, Token(kind, token)).None? then None
    else Run(Step(m, Token(kind, token)).value, LexAll(rest))
  }

  /** The invariant of the parser's loop: the stack, the `{` counter and the kind of the last token
      agree with the heap below `root`. */
  ghost predicate ParserAt(c: Cursor, stack: seq<NginxConfig>, startBlock: int, last: TokenType,
                           root: NginxConfig, before: seq<NginxConfigStatement>)
    reads CursorObjects(c)
  {
    && At(c, c.top)
    && Rooted(c.path, c.top, c.earlier, root, before)
    && stack == Stack(c.path) + [c.top]
    && startBlock == |stack| - 1
    && (last == TypeNormal <==> c.current.Some?)
  }

  /** From `c` to `n`, stack, counter and heap follow the stack machine over one token. */
  ghost predicate Follows(c: Cursor, last: TokenType, t: Token, n: Cursor, stack: seq<NginxConfig>, startBlock: int,
                          root: NginxConfig, before: seq<NginxConfigStatement>)
    reads CursorObjects(n)
  {
    ParserAt(n, stack, startBlock, t.kind, root, before) && Step(MachineAt(c, last), t) == Some(MachineAt(n, t.kind))
  }

  method ConsumeWord(token: string, last: TokenType, stack: seq<NginxConfig>, startBlock: int,
                     ghost c: Cursor, ghost root: NginxConfig, ghost before: seq<NginxConfigStatement>)
    returns (ghost n: Cursor)
    requires ParserAt(c, stack, startBlock, last, root, before)
    modifies CursorObjects(c)
    ensures Follows(c, last, Token(TypeNormal, token), n, stack, startBlock, root, before)
    ensures forall o :: o in CursorObjects(n) ==> o in CursorObjects(c) || fresh(o)
  {
    n := PushWord(stack[|stack| - 1], token, last != TypeNormal, c);
  }

  lemma ConsumeEnd(t: Token, last: TokenType, stack: seq<NginxConfig>, startBlock: int,
                   c: Cursor, root: NginxConfig, before: seq<NginxConfigStatement>)
    requires ParserAt(c, stack, startBlock, last, root, before) && last == TypeNormal && t.kind == TypeStatementEnd
    ensures Follows(c, last, t, WithStatement(c), stack, startBlock, root, before)
    ensures CursorObjects(WithStatement(c)) == CursorObjects(c)
  {
    EndStatement(c);
  }

  method ConsumeOpening(ghost t: Token, last: TokenType, stack0: seq<NginxConfig>, startBlock0: int,
                        ghost c: Cursor, ghost root: NginxConfig, ghost before: seq<NginxConfigStatement>)
    returns (stack: seq<NginxConfig>, startBlock: int, ghost n: Cursor)
    requires ParserAt(c, stack0, startBlock0, last, root, before) && last == TypeNormal && t.kind == TypeStartBlock
    modifies CursorObjects(c)
    ensures Follows(c, last, t, n, stack, startBlock, root, before)
    ensures forall o :: o in CursorObjects(n) ==> o in CursorObjects(c) || fresh(o)
  {
    startBlock := startBlock0 + 1;
    var block := PushBlock(stack0[|stack0| - 1], c);
    stack := stack0 + [block];
    n := Entered(c, block);
  }

  lemma ConsumeClosing(t: Token, last: TokenType, stack: seq<NginxConfig>, startBlock: int,
                       c: Cursor, root: NginxConfig, before: seq<NginxConfigStatement>)
    requires ParserAt(c, stack, startBlock, last, root, before) && t.kind == TypeEndBlock
    ensures Step(MachineAt(c, last), t).Some? <==> ClosesStatement(last) && startBlock > 0
    ensures ClosesStatement(last) && startBlock > 0 ==>
              && c.path.Level?
              && Follows(c, last, t, Left(c), stack[..|stack| - 1], startBlock - 1, root, before)
              && CursorObjects(Left(c)) == CursorObjects(c)
  {
    if ClosesStatement(last) && startBlock > 0 {
      PopBlock(c);
      assert stack[..|stack| - 1] == Stack(c.path);
    }
  }

  /** What consuming a token has done: refused it where the stack machine does, or followed the machine. */
  ghost predicate ConsumedAs(ok: bool, c: Cursor, last: TokenType, t: Token, n: Cursor, stack: seq<NginxConfig>,
                             startBlock: int, root: NginxConfig, before: seq<NginxConfigStatement>)
    reads CursorObjects(n)
  {
    && ok == Step(MachineAt(c, last), t).Some?
    && if ok then Follows(c, last, t, n, stack, startBlock, root, before) else n == c && At(c, c.top)
  }

  method ConsumeMark(kind: TokenType, ghost t: Token, last: TokenType, stack0: seq<NginxConfig>, startBlock0: int,
                     ghost c: Cursor, ghost root: NginxConfig, ghost before: seq<NginxConfigStatement>)
    returns (ok: bool, stack: seq<NginxConfig>, startBlock: int, ghost n: Cursor)
    requires ParserAt(c, stack0, startBlock0, last, root, before)
    requires kind == t.kind && (kind == TypeStatementEnd || kind == TypeStartBlock)
    modifies CursorObjects(c)
    ensures ConsumedAs(ok, c, last, t, n, stack, startBlock, root, before)
    ensures forall o :: o in CursorObjects(n) ==> o in CursorObjects(c) || fresh(o)
  {
    ok, stack, startBlock, n := last == TypeNormal, stack0, startBlock0, c;
    if kind == TypeStatementEnd {
      if last != TypeNormal {
        return;
      }
      ConsumeEnd(t, last, stack, startBlock, c, root, before);
      n := WithStatement(c);
    } else {
      if last != TypeNormal {
        return;
      }
      stack, startBlock, n := ConsumeOpening(t, last, stack, startBlock, c, root, before);
    }
  }

  /** The tree-building part of one iteration: a word, `;`, `{` or `}`. It fails exactly where the
      stack machine does, and otherwise takes the heap to the machine's next state. */
  method Consume(kind: TokenType, token: string, last: TokenType, stack0: seq<NginxConfig>, startBlock0: int,
                 ghost c: Cursor, ghost root: NginxConfig, ghost before: seq<NginxConfigStatement>)
    returns (ok: bool, stack: seq<NginxConfig>, startBlock: int, ghost n: Cursor)
    requires ParserAt(c, stack0, startBlock0, last, root, before)
    requires !Stops(kind) && kind != TypeComment && kind != TypeStart
    modifies CursorObjects(c)
    ensures ConsumedAs(ok, c, last, Token(kind, token), n, stack, startBlock, root, before)
    ensures forall o :: o in CursorObjects(n) ==> o in CursorObjects(c) || fresh(o)
  {
    ok, stack, startBlock, n := true, stack0, startBlock0, c;
    if kind == TypeNormal {
      n := ConsumeWord(token, last, stack, startBlock, c, root, before);
    } else if kind == TypeStatementEnd || kind == TypeStartBlock {
      ok, stack, startBlock, n := ConsumeMark(kind, Token(kind, token), last, stack, startBlock, c, root, before);
    } else {
      ConsumeClosing(Token(kind, token), last, stack, startBlock, c, root, before);
      if last != TypeStatementEnd && last != TypeEndBlock {
        return false, stack, startBlock, n;
      }
      startBlock := startBlock - 1;
      if startBlock < 0 {
        return false, stack, startBlock, n;
      }
      stack := stack[..|stack| - 1];
      n := Left(c);
    }
  }

  /** Reading a token leaves the tree alone. */
  method NextToken(input: InputStream, ghost c: Cursor, ghost m: Machine) returns (kind: TokenType, token: string)
    requires input.Valid() && input !in CursorObjects(c) && At(c, c.top)
    modifies input
    ensures input.Valid() && At(c, c.top)
    ensures kind != TypeStart && (!Stops(kind) ==> |input.Remaining()| < |old(input.Remaining())|)
    ensures Run(m, LexAll(old(input.Remaining()))) == AfterReading(m, kind, token, input.Remaining())
    ensures Stop(m, LexAll(old(input.Remaining()))) == StopAfterReading(m, kind, token, input.Remaining())
  {
    PathAllocated(c.path);
    AllAllocated(c.done);
    ghost var text := input.Remaining();
    kind, token := ParseToken(input);
    RunReads(m, text, kind, token, input.Remaining());
  }

  /** Whether the parser accepts, and the state of the stack machine in which it stops. */
  datatype End = End(accepts: bool, machine: Machine)

  predicate EndsAt(m: Machine, text: string, end: End) {
    end == End(Run(m, LexAll(text)).Some?, Stop(m, LexAll(text)))
  }

  /** How an iteration of the parser's loop ends. */
  datatype Outcome = Proceed | Refused | Accepted

  /** One iteration of the parser's loop. */
  method Iterate(input: InputStream, last0: TokenType, stack0: seq<NginxConfig>, startBlock0: int,
                 ghost c: Cursor, ghost root: NginxConfig, ghost before: seq<NginxConfigStatement>,
                 ghost end: End)
    returns (verdict: Outcome, last: TokenType, stack: seq<NginxConfig>, startBlock: int, ghost n: Cursor)
    requires input.Valid() && input !in CursorObjects(c)
    requires ParserAt(c, stack0, startBlock0, last0, root, before)
    requires EndsAt(MachineAt(c, last0), input.Remaining(), end)
    modifies input, CursorObjects(c)
    ensures input.Valid() && At(n, n.top) && Rooted(n.path, n.top, n.earlier, root, before)
    ensures forall o :: o in CursorObjects(n) ==> o in CursorObjects(c) || fresh(o)
    ensures match verdict
            case Proceed =>
              && ParserAt(n, stack, startBlock, last, root, before)
              && |input.Remaining()| < |old(input.Remaining())|
              && EndsAt(MachineAt(n, last), input.Remaining(), end)
            case Refused => end == End(false, MachineAt(n, last))
            case Accepted => end == End(true, MachineAt(n, last))
  {
    verdict, last, stack, startBlock, n := Refused, last0, stack0, startBlock0, c;
    var kind, token := NextToken(input, c, MachineAt(c, last));
    if kind == TypeError {
      return;
    }
    if kind == TypeComment {
      verdict := Proceed;
    } else if kind == TypeEof {
      if last != TypeStatementEnd && last != TypeEndBlock {
        return;
      }
      if startBlock != 0 {
        return;
      }
      verdict := Accepted;
    } else {
      var accepted: bool;
      accepted, stack, startBlock, n := Consume(kind, token, last, stack, startBlock, c, root, before);
      if accepted {
        verdict, last := Proceed, kind;
      }
    }
  }

  lemma StartOk(config: NginxConfig, start: Cursor)
    requires start == Cursor(Outside, config, config.statements, [], None, [])
    ensures ParserAt(start, [config], 0, TypeStart, config, start.earlier)
    ensures MachineAt(start, TypeStart) == ConfigGrammar.INITIAL
    ensures CursorObjects(start) == {config}
  {
    NothingBehind(config.statements);
  }

  /** The parser's loop. However it ends, the heap is in the state in which the stack machine stops. */
  method ParseLoop(input: InputStream, config: NginxConfig, ghost start: Cursor, ghost end: End)
    returns (ok: bool, ghost c: Cursor, ghost lastKind: TokenType)
    requires input.Valid() && EndsAt(MachineAt(start, TypeStart), input.Remaining(), end)
    requires ParserAt(start, [config], 0, TypeStart, config, start.earlier) && CursorObjects(start) == {config}
    modifies input, config
    ensures At(c, c.top) && Rooted(c.path, c.top, c.earlier, config, start.earlier)
    ensures forall o :: o in CursorObjects(c) ==> o == config || fresh(o)
    ensures end == End(ok, MachineAt(c, lastKind))
  {
    var stack := [config];
    var last := TypeStart;
    var startBlock := 0;
    c := start;
    while true
      invariant input.Valid()
      invariant ParserAt(c, stack, startBlock, last, config, start.earlier)
      invariant forall o :: o in CursorObjects(c) ==> o == config || fresh(o)
      invariant EndsAt(MachineAt(c, last), input.Remaining(), end)
      decreases |input.Remaining()|
    {
      var verdict: Outcome;
      ghost var here := c;
      label Before:
      verdict, last, stack, startBlock, c := Iterate(input, last, stack, startBlock, c, config, start.earlier, end);
      forall o | o in CursorObjects(c) ensures o == config || fresh(o) {
        assert o in CursorObjects(here) || !old@Before(allocated(o));
      }
      if verdict != Proceed {
        return verdict == Accepted, c, last;
      }
    }
  }

  // ----- The tree below the caller's config -----

  ghost function CurrentShapes(c: Cursor): seq<Shape> {
    if c.current.None? then [] else [SimpleShape(c.current.value, c.words)]
  }

  /** The shapes of the bottom level, with `inner` as those of `top`. */
  ghost function EnclosedShapes(p: Path, top: NginxConfig, inner: seq<Shape>): seq<Shape> {
    if p.Outside? then inner
    else EnclosedShapes(p.outer, p.config, p.done + [NestedShape(p.waiting, p.words, top, inner)])
  }

  /** The heap below `top` is the tree of these shapes, apart from the objects on the path to it. */
  ghost predicate TreeBelow(top: NginxConfig, earlier: seq<NginxConfigStatement>, shapes: seq<Shape>)
    reads top, Objects(shapes)
  {
    top.statements == earlier + Nodes(shapes) && Matches(shapes) && Distinct(shapes) && top !in Objects(shapes)
  }

  lemma AppendShape(done: seq<Shape>, s: Shape)
    requires Matches(done) && Distinct(done) && StatementMatches(s) && StatementDistinct(s)
    requires Objects(done) !! StatementObjects(s)
    ensures Matches(done + [s]) && Distinct(done + [s]) && Nodes(done + [s]) == Nodes(done) + [s.node]
    ensures Value(done + [s]) == Value(done) + [StatementValue(s)]
    ensures Objects(done + [s]) == Objects(done) + StatementObjects(s)
  {
    assert (done + [s])[..|done|] == done;
  }

  lemma CurrentTree(c: Cursor)
    requires At(c, c.top)
    ensures TreeBelow(c.top, c.earlier, c.done + CurrentShapes(c))
    ensures Objects(c.done + CurrentShapes(c)) + {c.top} == TopObjects(c)
    ensures Value(c.done + CurrentShapes(c)) == Value(c.done) + Begun(c.words)
  {
    if c.current.None? {
      NothingBehind(c.done);
      NothingBehind(Value(c.done));
      NothingBehind(c.earlier + Nodes(c.done));
    } else {
      AppendShape(c.done, SimpleShape(c.current.value, c.words));
      Assoc(c.earlier, Nodes(c.done), [c.current.value]);
    }
  }

  lemma OneLevelDown(p: Path, top: NginxConfig, inner: seq<Shape>)
    requires p.Level? && PathMatches(p, top) && PathDistinct(p) && TreeBelow(top, [], inner)
    requires PathObjects(p) !! Objects(inner) + {top}
    ensures var shapes := p.done + [NestedShape(p.waiting, p.words, top, inner)];
            && TreeBelow(p.config, p.earlier, shapes)
            && Value(shapes) == Value(p.done) + [Nested(p.words, Value(inner))]
            && Objects(shapes) == Objects(p.done) + {p.waiting, top} + Objects(inner)
  {
    var s := NestedShape(p.waiting, p.words, top, inner);
    assert StatementObjects(s) == {p.waiting, top} + Objects(inner);
    AppendShape(p.done, s);
    Assoc(p.earlier, Nodes(p.done), [p.waiting]);
  }

  /** From the top of the stack down to the caller's config, the heap is the tree that the stack machine's
      state stands for. */
  lemma {:induction false} TreeBelowRoot(p: Path, top: NginxConfig, earlier: seq<NginxConfigStatement>,
                                         inner: seq<Shape>, root: NginxConfig, before: seq<NginxConfigStatement>)
    requires PathMatches(p, top) && PathDistinct(p) && TreeBelow(top, earlier, inner)
    requires PathObjects(p) !! Objects(inner) + {top} && Rooted(p, top, earlier, root, before)
    ensures TreeBelow(root, before, EnclosedShapes(p, top, inner))
    ensures Value(EnclosedShapes(p, top, inner)) == Enclosed(PathContext(p), Value(inner))
    ensures Objects(EnclosedShapes(p, top, inner)) <= PathObjects(p) + {top} + Objects(inner)
    decreases p
  {
    if p.Level? {
      OneLevelDown(p, top, inner);
      var shapes := p.done + [NestedShape(p.waiting, p.words, top, inner)];
      TreeBelowRoot(p.outer, p.config, p.earlier, shapes, root, before);
    }
  }

  /** Parses a stream into `config`, behind the statements it already has. The result is true exactly
      if the remaining text is accepted by the grammar. In any case the statements appended form a tree of
      new objects, described by `shapes`: the derivation of an accepted text, and otherwise what the stack
      machine has before the token that it refuses. */
  method Parse(input: InputStream, config: NginxConfig) returns (ok: bool, ghost shapes: seq<Shape>)
    requires input.Valid()
    modifies input, config
    ensures ok <==> ParseText(old(input.Remaining())).Some?
    ensures config.statements == old(config.statements) + Nodes(shapes)
    ensures Matches(shapes) && Distinct(shapes) && fresh(Objects(shapes))
    ensures Value(shapes) == Remains(old(input.Remaining()))
    ensures ok ==> ParseText(old(input.Remaining())) == Some(Value(shapes))
  {
    ghost var text, start := input.Remaining(), Cursor(Outside, config, config.statements, [], None, []);
    ghost var end := End(ParseText(text).Some?, Stop(ConfigGrammar.INITIAL, LexAll(text)));
    RemainsHaveWords(text);
    StartOk(config, start);
    ghost var c: Cursor;
    ghost var last: TokenType;
    ok, c, last := ParseLoop(input, config, start, end);
    CurrentTree(c);
    TreeBelowRoot(c.path, c.top, c.earlier, c.done + CurrentShapes(c), config, start.earlier);
    shapes := EnclosedShapes(c.path, c.top, c.done + CurrentShapes(c));
    assert forall o :: o in Objects(shapes) ==> o in CursorObjects(c) && o != config;
  }
}
