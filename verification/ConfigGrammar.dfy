/** The grammar behind the stack parser of src/config_parser.cc:

      Block ::= Statement+      Statement ::= WORD+ (';' | '{' Block '}')

    A tree's yield is the token sequence it derives. The stack machine is the parser's loop over
    values; it accepts exactly the yields of well-formed trees and rebuilds the tree. */
module ConfigGrammar {
  import opened Wrappers
  import opened ConfigLexer
  import opened Sequences

  datatype Statement =
    | Simple(tokens: seq<string>)
    | Nested(tokens: seq<string>, child: seq<Statement>)

  type Block = seq<Statement>

  // ----- Grammar -----

  predicate WellFormed(b: Block)
    decreases b, 1
  {
    b != [] && AllWellFormed(b)
  }

  predicate AllWellFormed(b: Block)
    decreases b, 0
  {
    b == [] || (StatementWellFormed(b[0]) && AllWellFormed(b[1..]))
  }

  predicate StatementWellFormed(s: Statement)
    decreases s, 0
  {
    s.tokens != [] && (s.Nested? ==> WellFormed(s.child))
  }

  function Yield(b: Block): seq<Token> {
    if b == [] then [] else StatementYield(b[0]) + Yield(b[1..])
  }

  function StatementYield(s: Statement): seq<Token> {
    match s
    case Simple(tokens) => Words(tokens) + [Mark(';')]
    case Nested(tokens, child) => Words(tokens) + [Mark('{')] + Yield(child) + [Mark('}')]
  }

  function Words(tokens: seq<string>): (words: seq<Token>)
    ensures |words| == |tokens|
  {
    if tokens == [] then [] else [Token(TypeNormal, tokens[0])] + Words(tokens[1..])
  }

  lemma {:induction false} YieldOfConcat(a: Block, b: Block)
    ensures Yield(a + b) == Yield(a) + Yield(b)
  {
    if a == [] {
      assert a + b == b;
    } else {
      YieldOfConcat(a[1..], b);
      RestOfConcat(a, b);
      Assoc(StatementYield(a[0]), Yield(a[1..]), Yield(b));
    }
  }

  lemma {:induction false} WordsOfConcat(a: seq<string>, b: seq<string>)
    ensures Words(a + b) == Words(a) + Words(b)
  {
    if a == [] {
      assert a + b == b;
    } else {
      WordsOfConcat(a[1..], b);
      RestOfConcat(a, b);
      Assoc([Token(TypeNormal, a[0])], Words(a[1..]), Words(b));
    }
  }

  lemma {:induction false} WellFormedOfConcat(a: Block, b: Block)
    ensures AllWellFormed(a + b) <==> AllWellFormed(a) && AllWellFormed(b)
  {
    if a == [] {
      assert a + b == b;
    } else {
      WellFormedOfConcat(a[1..], b);
      RestOfConcat(a, b);
    }
  }

  // ----- Stack machine -----

  /** The enclosing blocks, innermost on top: their finished statements, and the words of the
      statement that is waiting for its block. */
  datatype Context = Bottom | Enclosing(outer: Context, done: Block, words: seq<string>)

  /** The innermost block's finished statements, the words of its unfinished statement, and the
      kind of the last token that was not a comment. */
  datatype Machine = Machine(context: Context, done: Block, words: seq<string>, last: TokenType)

  const INITIAL: Machine := Machine(Bottom, [], [], TypeStart)

  predicate ClosesStatement(kind: TokenType) {
    kind == TypeStatementEnd || kind == TypeEndBlock
  }

  /** One iteration of the parser's loop; `None` is its error exit. */
  function Step(m: Machine, t: Token): Option<Machine> {
    match t.kind
    case TypeNormal =>
      Some(m.(words := m.words + [t.text], last := TypeNormal))
    case TypeStatementEnd =>
      if m.last != TypeNormal then None
      else Some(Machine(m.context, m.done + [Simple(m.words)], [], TypeStatementEnd))
    case TypeStartBlock =>
      if m.last != TypeNormal then None
      else Some(Machine(Enclosing(m.context, m.done, m.words), [], [], TypeStartBlock))
    case TypeEndBlock =>
      if !ClosesStatement(m.last) || m.context.Bottom? then None
      else Some(Machine(m.context.outer, m.context.done + [Nested(m.context.words, m.done)], [], TypeEndBlock))
    case _ => None
  }

  /** The parser from state `m` on: the outermost block if the input is accepted. */
  function Run(m: Machine, input: TokenStream): Option<Block>
    decreases |input.tokens|
  {
    if input.tokens == [] then
      if input.reachesEof && ClosesStatement(m.last) && m.context.Bottom? then Some(m.done) else None
    else
      match Step(m, input.tokens[0])
      case None => None
      case Some(n) => Run(n, input.(tokens := input.tokens[1..]))
  }

  // ----- Soundness: what has been consumed is what the open blocks derive -----

  function ContextYield(c: Context): seq<Token> {
    match c
    case Bottom => []
    case Enclosing(outer, done, words) => ContextYield(outer) + Yield(done) + Words(words) + [Mark('{')]
  }

  function Consumed(m: Machine): seq<Token> {
    ContextYield(m.context) + Yield(m.done) + Words(m.words)
  }

  predicate ContextSound(c: Context) {
    c.Bottom? || (c.words != [] && AllWellFormed(c.done) && ContextSound(c.outer))
  }

  predicate Sound(m: Machine) {
    && ContextSound(m.context)
    && AllWellFormed(m.done)
    && (m.last == TypeNormal <==> m.words != [])
    && (ClosesStatement(m.last) ==> m.done != [])
  }

  predicate IsGrammarToken(t: Token) {
    t.kind == TypeNormal || t == Mark(';') || t == Mark('{') || t == Mark('}')
  }

  lemma AppendYield(done: Block, s: Statement)
    ensures Yield(done + [s]) == Yield(done) + StatementYield(s)
  {
    YieldOfConcat(done, [s]);
    assert Yield([s]) == StatementYield(s) + Yield([]);
  }

  lemma FinishStatementSound(done: Block, s: Statement)
    requires AllWellFormed(done) && StatementWellFormed(s)
    ensures AllWellFormed(done + [s]) && done + [s] != []
    ensures Yield(done + [s]) == Yield(done) + StatementYield(s)
  {
    AppendYield(done, s);
    WellFormedOfConcat(done, [s]);
  }

  /** Closing a block derives its mark behind what the block derives. */
  lemma NestedYield(outer: seq<Token>, done: Block, words: seq<string>, inner: Block)
    ensures outer + Yield(done + [Nested(words, inner)])
            == outer + Yield(done) + Words(words) + [Mark('{')] + Yield(inner) + [Mark('}')]
  {
    AppendYield(done, Nested(words, inner));
    RegroupBlock(outer, Yield(done), Words(words), [Mark('{')], Yield(inner), [Mark('}')]);
  }

  lemma RegroupBlock(a: seq<Token>, d: seq<Token>, w: seq<Token>, open: seq<Token>, y: seq<Token>, close: seq<Token>)
    ensures a + (d + (w + open + y + close)) == a + d + w + open + y + close
  {
    Assoc(a, d, w + open + y + close);
    Assoc(a + d, w + open + y, close);
    Assoc(a + d, w + open, y);
    Assoc(a + d, w, open);
  }

  /** Every step consumes its token: the open blocks derive exactly what has been read. */
  lemma StepSound(m: Machine, t: Token)
    requires Sound(m) && IsGrammarToken(t) && Step(m, t).Some?
    ensures Sound(Step(m, t).value) && Consumed(Step(m, t).value) == Consumed(m) + [t]
  {
    if t.kind == TypeNormal {
      WordsOfConcat(m.words, [t.text]);
      assert Words([t.text]) == [t];
      Assoc(ContextYield(m.context) + Yield(m.done), Words(m.words), [t]);
    } else if t.kind == TypeStatementEnd {
      FinishStatementSound(m.done, Simple(m.words));
      var c, y, w := ContextYield(m.context), Yield(m.done), Words(m.words);
      Assoc(c + y, w, [t]);
      Assoc(c, y, w + [t]);
      Assoc(c, Yield(m.done + [Simple(m.words)]), []);
    } else if t.kind == TypeEndBlock {
      var c := m.context;
      FinishStatementSound(c.done, Nested(c.words, m.done));
      NestedYield(ContextYield(c.outer), c.done, c.words, m.done);
      NothingBehind(ContextYield(c) + Yield(m.done));
      NothingBehind(ContextYield(c.outer) + Yield(c.done + [Nested(c.words, m.done)]));
    }
  }

  lemma {:induction false} RunSound(m: Machine, input: TokenStream)
    requires Sound(m)
    requires forall t :: t in input.tokens ==> IsGrammarToken(t)
    requires Run(m, input).Some?
    ensures input.reachesEof
    ensures WellFormed(Run(m, input).value)
    ensures Yield(Run(m, input).value) == Consumed(m) + input.tokens
    decreases |input.tokens|
  {
    if input.tokens != [] {
      var t := input.tokens[0];
      StepSound(m, t);
      RunSound(Step(m, t).value, input.(tokens := input.tokens[1..]));
      assert Consumed(m) + [t] + input.tokens[1..] == Consumed(m) + input.tokens;
    }
  }

  // ----- Completeness: the yield of a well-formed block is rebuilt -----

  lemma RunPrepended(m: Machine, t: Token, rest: TokenStream)
    ensures Run(m, Prepend([t], rest)) == if Step(m, t).None? then None else Run(Step(m, t).value, rest)
  {
    assert Prepend([t], rest).tokens[1..] == rest.tokens;
  }

  lemma PrependTwice(a: seq<Token>, b: seq<Token>, rest: TokenStream)
    ensures Prepend(a + b, rest) == Prepend(a, Prepend(b, rest))
  {
    Assoc(a, b, rest.tokens);
  }

  lemma {:induction false} RunWords(m: Machine, words: seq<string>, rest: TokenStream)
    requires words != []
    ensures Run(m, Prepend(Words(words), rest)) == Run(m.(words := m.words + words, last := TypeNormal), rest)
    decreases |words|
  {
    var t := Token(TypeNormal, words[0]);
    var tail := Prepend(Words(words[1..]), rest);
    RunPrepended(m, t, tail);
    PrependTwice([t], Words(words[1..]), rest);
    if |words| == 1 {
      assert tail == rest && words == [words[0]];
    } else {
      RunWords(Step(m, t).value, words[1..], rest);
      assert m.words + [words[0]] + words[1..] == m.words + words;
    }
  }

  function ClosingKind(s: Statement): TokenType {
    if s.Simple? then TypeStatementEnd else TypeEndBlock
  }

  /** `m` after reading all of `b` on its innermost level. */
  function After(m: Machine, b: Block): Machine {
    if b == [] then m else Machine(m.context, m.done + b, [], ClosingKind(b[|b| - 1]))
  }

  lemma AfterTwice(m: Machine, b: Block)
    requires b != []
    ensures After(After(m, [b[0]]), b[1..]) == After(m, b)
  {
    assert m.done + [b[0]] + b[1..] == m.done + b;
  }

  lemma {:induction false} RunStatement(m: Machine, s: Statement, rest: TokenStream)
    requires m.words == [] && StatementWellFormed(s)
    ensures Run(m, Prepend(StatementYield(s), rest)) == Run(After(m, [s]), rest)
    decreases s, 0
  {
    var mark := if s.Simple? then [Mark(';')] else [Mark('{')] + Yield(s.child) + [Mark('}')];
    assert StatementYield(s) == Words(s.tokens) + mark;
    PrependTwice(Words(s.tokens), mark, rest);
    RunWords(m, s.tokens, Prepend(mark, rest));
    assert m.words + s.tokens == s.tokens;
    var begun := m.(words := s.tokens, last := TypeNormal);
    if s.Simple? {
      RunPrepended(begun, Mark(';'), rest);
    } else {
      RunChild(begun, s.child, rest);
    }
  }

  lemma {:induction false} RunChild(m: Machine, child: Block, rest: TokenStream)
    requires m.last == TypeNormal && WellFormed(child)
    ensures Run(m, Prepend([Mark('{')] + Yield(child) + [Mark('}')], rest))
            == Run(Machine(m.context, m.done + [Nested(m.words, child)], [], TypeEndBlock), rest)
    decreases child, 2
  {
    var close := Prepend([Mark('}')], rest);
    PrependTwice([Mark('{')] + Yield(child), [Mark('}')], rest);
    PrependTwice([Mark('{')], Yield(child), close);
    RunPrepended(m, Mark('{'), Prepend(Yield(child), close));
    var entered := Machine(Enclosing(m.context, m.done, m.words), [], [], TypeStartBlock);
    RunBlock(entered, child, close);
    assert entered.done + child == child;
    RunPrepended(After(entered, child), Mark('}'), rest);
  }

  lemma {:induction false} RunBlock(m: Machine, b: Block, rest: TokenStream)
    requires m.words == [] && AllWellFormed(b)
    ensures Run(m, Prepend(Yield(b), rest)) == Run(After(m, b), rest)
    decreases b, 1
  {
    if b == [] {
      assert Prepend([], rest) == rest;
    } else {
      var tail := Prepend(Yield(b[1..]), rest);
      PrependTwice(StatementYield(b[0]), Yield(b[1..]), rest);
      RunStatement(m, b[0], tail);
      RunBlock(After(m, [b[0]]), b[1..], rest);
      AfterTwice(m, b);
    }
  }

  // ----- The parser decides the grammar -----

  lemma YieldIsAccepted(b: Block)
    requires WellFormed(b)
    ensures Run(INITIAL, TokenStream(Yield(b), true)) == Some(b)
  {
    var end := TokenStream([], true);
    RunBlock(INITIAL, b, end);
    assert INITIAL.done + b == b;
    assert Prepend(Yield(b), end) == TokenStream(Yield(b), true);
    assert Run(After(INITIAL, b), end) == Some(b);
  }

  /** Accepting a token stream is deriving it, and the tree built is the derivation. */
  lemma ParserDecidesGrammar(input: TokenStream, b: Block)
    requires forall t :: t in input.tokens ==> IsGrammarToken(t)
    ensures Run(INITIAL, input) == Some(b) <==> input.reachesEof && WellFormed(b) && input.tokens == Yield(b)
  {
    if Run(INITIAL, input) == Some(b) {
      RunSound(INITIAL, input);
    }
    if input.reachesEof && WellFormed(b) && input.tokens == Yield(b) {
      YieldIsAccepted(b);
      assert input == TokenStream(Yield(b), true);
    }
  }

  /** The grammar is unambiguous. */
  lemma DerivationIsUnique(a: Block, b: Block)
    requires WellFormed(a) && WellFormed(b) && Yield(a) == Yield(b)
    ensures a == b
  {
    YieldsGrammarTokens(a);
    ParserDecidesGrammar(TokenStream(Yield(a), true), a);
    ParserDecidesGrammar(TokenStream(Yield(a), true), b);
  }

  lemma {:induction false} YieldsGrammarTokens(b: Block)
    ensures forall t :: t in Yield(b) ==> IsGrammarToken(t)
  {
    if b != [] {
      WordsAreGrammarTokens(b[0].tokens);
      if b[0].Nested? {
        YieldsGrammarTokens(b[0].child);
      }
      YieldsGrammarTokens(b[1..]);
    }
  }

  lemma {:induction false} WordsAreGrammarTokens(tokens: seq<string>)
    ensures forall t :: t in Words(tokens) ==> IsGrammarToken(t)
  {
    if tokens != [] {
      WordsAreGrammarTokens(tokens[1..]);
    }
  }

  lemma {:induction false} LexesGrammarTokens(s: string)
    ensures forall t :: t in LexAll(s).tokens ==> IsGrammarToken(t)
    decreases |s|
  {
    var l := Lex(s);
    if !Stops(l.token.kind) {
      LexesGrammarTokens(l.rest);
    }
  }
}
