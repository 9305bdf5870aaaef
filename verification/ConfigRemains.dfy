/** What the stack parser of src/config_parser.cc leaves behind when it stops, accepting or refusing. */
module ConfigRemains {
  import opened Wrappers
  import opened ConfigLexer
  import opened ConfigGrammar
  import opened Sequences

  /** The state in which the parser from state `m` on stops, accepting or refusing. */
  function Stop(m: Machine, input: TokenStream): Machine
    decreases |input.tokens|
  {
    if input.tokens == [] then m
    else
      match Step(m, input.tokens[0])
      case None => m
      case Some(n) => Stop(n, input.(tokens := input.tokens[1..]))
  }

  /** The tree that is there in a state: the open blocks are closed around what they have so far. */
  function TreeAt(m: Machine): Block {
    Enclosed(m.context, m.done + Begun(m.words))
  }

  function Begun(words: seq<string>): Block {
    if words == [] then [] else [Simple(words)]
  }

  function Enclosed(c: Context, inner: Block): Block {
    match c
    case Bottom => inner
    case Enclosing(outer, done, words) => Enclosed(outer, done + [Nested(words, inner)])
  }

  lemma {:induction false} StopSound(m: Machine, input: TokenStream)
    requires Sound(m)
    requires forall t :: t in input.tokens ==> IsGrammarToken(t)
    ensures Sound(Stop(m, input))
    decreases |input.tokens|
  {
    if input.tokens != [] && Step(m, input.tokens[0]).Some? {
      StepSound(m, input.tokens[0]);
      StopSound(Step(m, input.tokens[0]).value, input.(tokens := input.tokens[1..]));
    }
  }

  /** What is there when the parser stops, extended to the accepted case. */
  lemma {:induction false} AcceptedTree(m: Machine, input: TokenStream)
    requires Sound(m) && Run(m, input).Some?
    requires forall t :: t in input.tokens ==> IsGrammarToken(t)
    ensures Run(m, input) == Some(TreeAt(Stop(m, input)))
    decreases |input.tokens|
  {
    if input.tokens == [] {
      NothingBehind(m.done);
    } else {
      StepSound(m, input.tokens[0]);
      AcceptedTree(Step(m, input.tokens[0]).value, input.(tokens := input.tokens[1..]));
    }
  }

  /** Every statement at every depth has a word. */
  predicate AllHaveWords(b: Block) {
    b == [] || (StatementHasWords(b[0]) && AllHaveWords(b[1..]))
  }

  predicate StatementHasWords(s: Statement) {
    s.tokens != [] && (s.Nested? ==> AllHaveWords(s.child))
  }

  lemma {:induction false} WellFormedHasWords(b: Block)
    requires AllWellFormed(b)
    ensures AllHaveWords(b)
  {
    if b != [] {
      if b[0].Nested? {
        assert WellFormed(b[0].child);
        WellFormedHasWords(b[0].child);
      }
      WellFormedHasWords(b[1..]);
    }
  }

  lemma {:induction false} AppendHasWords(b: Block, s: Statement)
    requires AllHaveWords(b) && StatementHasWords(s)
    ensures AllHaveWords(b + [s])
  {
    if b == [] {
      assert b + [s] == [s] && [s][1..] == [];
    } else {
      AppendHasWords(b[1..], s);
      RestOfConcat(b, [s]);
    }
  }

  lemma {:induction false} EnclosedHasWords(c: Context, inner: Block)
    requires ContextSound(c) && AllHaveWords(inner)
    ensures AllHaveWords(Enclosed(c, inner))
  {
    if c.Enclosing? {
      WellFormedHasWords(c.done);
      AppendHasWords(c.done, Nested(c.words, inner));
      EnclosedHasWords(c.outer, c.done + [Nested(c.words, inner)]);
    }
  }

  /** Whatever the parser leaves behind, no statement is without a word. */
  lemma TreeHasWords(m: Machine)
    requires Sound(m)
    ensures AllHaveWords(TreeAt(m))
  {
    WellFormedHasWords(m.done);
    if m.words == [] {
      NothingBehind(m.done);
    } else {
      AppendHasWords(m.done, Simple(m.words));
    }
    EnclosedHasWords(m.context, m.done + Begun(m.words));
  }

  // ----- Which tokens the parser reads before it stops -----

  /** The state behind `tokens`, if the parser takes each of them. */
  function Read(m: Machine, tokens: seq<Token>): Option<Machine>
    decreases |tokens|
  {
    if tokens == [] then Some(m)
    else
      match Step(m, tokens[0])
      case None => None
      case Some(n) => Read(n, tokens[1..])
  }

  lemma {:induction false} ReadOfConcat(m: Machine, a: seq<Token>, b: seq<Token>)
    ensures Read(m, a + b) == if Read(m, a).None? then None else Read(Read(m, a).value, b)
    decreases |a|
  {
    if a == [] {
      assert a + b == b;
    } else {
      RestOfConcat(a, b);
      if Step(m, a[0]).Some? {
        ReadOfConcat(Step(m, a[0]).value, a[1..], b);
      }
    }
  }

  lemma {:induction false} RunReadsFirst(m: Machine, tokens: seq<Token>, rest: TokenStream)
    ensures Run(m, Prepend(tokens, rest)) ==
            if Read(m, tokens).None? then None else Run(Read(m, tokens).value, rest)
    decreases |tokens|
  {
    if tokens == [] {
      assert Prepend(tokens, rest) == rest;
    } else {
      var tail := Prepend(tokens[1..], rest);
      PrependTwice([tokens[0]], tokens[1..], rest);
      assert [tokens[0]] + tokens[1..] == tokens;
      RunPrepended(m, tokens[0], tail);
      if Step(m, tokens[0]).Some? {
        RunReadsFirst(Step(m, tokens[0]).value, tokens[1..], rest);
      }
    }
  }

  function Depth(c: Context): nat {
    if c.Bottom? then 0 else 1 + Depth(c.outer)
  }

  /** How many more blocks the tokens open than they close. */
  function Nesting(tokens: seq<Token>): int {
    if tokens == [] then 0
    else (if tokens[0].kind == TypeStartBlock then 1 else if tokens[0].kind == TypeEndBlock then -1 else 0)
         + Nesting(tokens[1..])
  }

  lemma {:induction false} ReadSound(m: Machine, tokens: seq<Token>)
    requires Sound(m) && Read(m, tokens).Some?
    requires forall t :: t in tokens ==> IsGrammarToken(t)
    ensures Sound(Read(m, tokens).value) && Consumed(Read(m, tokens).value) == Consumed(m) + tokens
    decreases |tokens|
  {
    if tokens == [] {
      NothingBehind(Consumed(m));
    } else {
      StepSound(m, tokens[0]);
      ReadSound(Step(m, tokens[0]).value, tokens[1..]);
      Assoc(Consumed(m), [tokens[0]], tokens[1..]);
      assert [tokens[0]] + tokens[1..] == tokens;
    }
  }

  /** What has been read determines how many blocks are open and whether a statement is unfinished. */
  lemma {:induction false} ReadCounts(m: Machine, tokens: seq<Token>)
    requires Read(m, tokens).Some?
    ensures Depth(Read(m, tokens).value.context) == Depth(m.context) + Nesting(tokens)
    ensures Read(m, tokens).value.last == if tokens == [] then m.last else tokens[|tokens| - 1].kind
    decreases |tokens|
  {
    if tokens != [] {
      ReadCounts(Step(m, tokens[0]).value, tokens[1..]);
    }
  }

  /** Where the parser stops: everything before has been read, and the token there is refused. */
  lemma {:induction false} StopReads(m: Machine, input: TokenStream) returns (k: nat)
    ensures k <= |input.tokens|
    ensures Read(m, input.tokens[..k]) == Some(Stop(m, input))
    ensures k < |input.tokens| ==> Step(Stop(m, input), input.tokens[k]).None?
    decreases |input.tokens|
  {
    k := 0;
    if input.tokens != [] && Step(m, input.tokens[0]).Some? {
      var tail := input.tokens[1..];
      var rest := StopReads(Step(m, input.tokens[0]).value, input.(tokens := tail));
      k := 1 + rest;
      assert input.tokens[..k][1..] == tail[..rest];
    }
  }

  lemma ReadsExactly(m: Machine, tokens: seq<Token>, k: nat, j: nat)
    requires k <= |tokens| && j <= |tokens|
    requires Read(m, tokens[..k]).Some?
    requires k < |tokens| ==> Step(Read(m, tokens[..k]).value, tokens[k]).None?
    ensures Read(m, tokens[..j]).Some? <==> j <= k
  {
    if j <= k {
      assert tokens[..k] == tokens[..j] + tokens[j..k];
      ReadOfConcat(m, tokens[..j], tokens[j..k]);
    } else {
      assert tokens[..j] == tokens[..k] + tokens[k..j];
      ReadOfConcat(m, tokens[..k], tokens[k..j]);
    }
  }

  // ----- What can be read is what can be completed -----

  /** Some well-formed block derives a continuation of these tokens. */
  ghost predicate BeginsBlock(tokens: seq<Token>) {
    exists b :: WellFormed(b) && tokens <= Yield(b)
  }

  function Closings(depth: nat): seq<Token> {
    if depth == 0 then [] else [Mark('}')] + Closings(depth - 1)
  }

  /** Closing the open blocks adds one `}` for each of them. */
  lemma {:induction false} EnclosedYield(c: Context, inner: Block)
    ensures Yield(Enclosed(c, inner)) == ContextYield(c) + Yield(inner) + Closings(Depth(c))
  {
    if c.Bottom? {
      NothingBehind(Yield(inner));
      assert [] + Yield(inner) == Yield(inner);
    } else {
      NestedYield(ContextYield(c.outer), c.done, c.words, inner);
      EnclosedYield(c.outer, c.done + [Nested(c.words, inner)]);
      Assoc(ContextYield(c) + Yield(inner), [Mark('}')], Closings(Depth(c.outer)));
    }
  }

  lemma {:induction false} EnclosedWellFormed(c: Context, inner: Block)
    requires ContextSound(c) && WellFormed(inner)
    ensures WellFormed(Enclosed(c, inner))
  {
    if c.Enclosing? {
      FinishStatementSound(c.done, Nested(c.words, inner));
      EnclosedWellFormed(c.outer, c.done + [Nested(c.words, inner)]);
    }
  }

  /** What the tree of a state derives: the tokens read, a `;` behind an unfinished statement, and the marks
      that close the open blocks. */
  lemma TreeYield(m: Machine)
    ensures Yield(TreeAt(m))
            == Consumed(m) + (if m.words == [] then [] else [Mark(';')]) + Closings(Depth(m.context))
  {
    EnclosedYield(m.context, m.done + Begun(m.words));
    var c, y, w := ContextYield(m.context), Yield(m.done), Words(m.words);
    if m.words == [] {
      NothingBehind(m.done);
      NothingBehind(c + y);
    } else {
      AppendYield(m.done, Simple(m.words));
      Assoc(c, y, w + [Mark(';')]);
      Assoc(c + y, w, [Mark(';')]);
    }
    NothingBehind(Consumed(m));
  }

  lemma PrefixOfConcat<T>(a: seq<T>, b: seq<T>, c: seq<T>)
    ensures a <= a + b + c
  {
  }

  /** Every state can still be completed to a well-formed block. */
  lemma StateBegins(m: Machine)
    requires Sound(m)
    ensures BeginsBlock(Consumed(m))
  {
    var inner := m.done + Begun(m.words);
    if inner == [] {
      var any := [Simple(["x"])];
      EnclosedYield(m.context, any);
      EnclosedWellFormed(m.context, any);
      NothingBehind(ContextYield(m.context));
      PrefixOfConcat(Consumed(m), Yield(any), Closings(Depth(m.context)));
    } else {
      if m.words == [] {
        NothingBehind(m.done);
      } else {
        FinishStatementSound(m.done, Simple(m.words));
      }
      EnclosedWellFormed(m.context, inner);
      TreeYield(m);
      PrefixOfConcat(Consumed(m), if m.words == [] then [] else [Mark(';')], Closings(Depth(m.context)));
    }
  }

  lemma NothingFirst<T>(a: seq<T>)
    ensures [] + [] + [] + a == a
  {
  }

  lemma ReadFromStart(tokens: seq<Token>)
    requires forall t :: t in tokens ==> IsGrammarToken(t)
    requires Read(INITIAL, tokens).Some?
    ensures Sound(Read(INITIAL, tokens).value) && Consumed(Read(INITIAL, tokens).value) == tokens
  {
    ReadSound(INITIAL, tokens);
    NothingFirst(tokens);
  }

  lemma ReadBegins(tokens: seq<Token>)
    requires forall t :: t in tokens ==> IsGrammarToken(t)
    requires Read(INITIAL, tokens).Some?
    ensures BeginsBlock(tokens)
  {
    ReadFromStart(tokens);
    StateBegins(Read(INITIAL, tokens).value);
  }

  lemma PrefixIsRead(b: Block, tokens: seq<Token>, rest: seq<Token>)
    requires WellFormed(b) && Yield(b) == tokens + rest
    ensures Read(INITIAL, tokens).Some?
  {
    YieldIsAccepted(b);
    RunReadsFirst(INITIAL, tokens, TokenStream(rest, true));
  }

  lemma BeginningIsRead(tokens: seq<Token>)
    requires BeginsBlock(tokens)
    ensures Read(INITIAL, tokens).Some?
  {
    var b :| WellFormed(b) && tokens <= Yield(b);
    PrefixIsRead(b, tokens, Yield(b)[|tokens|..]);
  }

  lemma LongestBeginning(tokens: seq<Token>, k: nat, j: nat)
    requires forall t :: t in tokens ==> IsGrammarToken(t)
    requires k <= |tokens| && j <= |tokens|
    requires Read(INITIAL, tokens[..k]).Some?
    requires k < |tokens| ==> Step(Read(INITIAL, tokens[..k]).value, tokens[k]).None?
    ensures BeginsBlock(tokens[..j]) <==> j <= k
  {
    ReadsExactly(INITIAL, tokens, k, j);
    if BeginsBlock(tokens[..j]) {
      BeginningIsRead(tokens[..j]);
    }
    if j <= k {
      ReadBegins(tokens[..j]);
    }
  }

  /** The tokens with their unfinished statement and their open blocks ended. */
  function Completed(tokens: seq<Token>): seq<Token> {
    tokens
    + (if tokens != [] && tokens[|tokens| - 1].kind == TypeNormal then [Mark(';')] else [])
    + (if Nesting(tokens) > 0 then Closings(Nesting(tokens)) else [])
  }

  lemma CompletedTree(m: Machine, tokens: seq<Token>)
    requires Sound(m) && Consumed(m) == tokens && Depth(m.context) == Nesting(tokens)
    requires m.last == if tokens == [] then TypeStart else tokens[|tokens| - 1].kind
    ensures Yield(TreeAt(m)) == Completed(tokens)
  {
    TreeYield(m);
  }

  /** What the parser leaves of a token stream, said without the parser: the tree of the longest beginning
      of a block, its unfinished statement and its open blocks ended. */
  lemma StopsAtLongestBeginning(input: TokenStream) returns (k: nat)
    requires forall t :: t in input.tokens ==> IsGrammarToken(t)
    ensures k <= |input.tokens|
    ensures forall j :: 0 <= j <= |input.tokens| ==> (BeginsBlock(input.tokens[..j]) <==> j <= k)
    ensures Nesting(input.tokens[..k]) >= 0
    ensures Yield(TreeAt(Stop(INITIAL, input))) == Completed(input.tokens[..k])
  {
    k := StopReads(INITIAL, input);
    ReadCounts(INITIAL, input.tokens[..k]);
    ReadFromStart(input.tokens[..k]);
    CompletedTree(Stop(INITIAL, input), input.tokens[..k]);
    forall j | 0 <= j <= |input.tokens|
      ensures BeginsBlock(input.tokens[..j]) <==> j <= k
    {
      LongestBeginning(input.tokens, k, j);
    }
  }

  // ----- Trees with words are determined by what they derive -----

  /** Nothing, or the end of the enclosing block. */
  predicate EndsBlock(rest: seq<Token>) {
    rest == [] || rest[0] == Mark('}')
  }

  predicate StartsWithMark(rest: seq<Token>) {
    rest != [] && rest[0].kind != TypeNormal
  }

  lemma {:induction false} SameWords(a: seq<string>, b: seq<string>, r: seq<Token>, q: seq<Token>)
    requires StartsWithMark(r) && StartsWithMark(q)
    requires Words(a) + r == Words(b) + q
    ensures a == b && r == q
  {
    if a == [] || b == [] {
      assert (Words(a) + r)[0] == (Words(b) + q)[0];
      assert [] + r == r && [] + q == q;
    } else {
      RestOfConcat(Words(a), r);
      RestOfConcat(Words(b), q);
      SameWords(a[1..], b[1..], r, q);
      assert a == [a[0]] + a[1..] && b == [b[0]] + b[1..];
    }
  }

  lemma {:induction false} SameStatement(s: Statement, t: Statement, r: seq<Token>, q: seq<Token>)
    requires StatementHasWords(s) && StatementHasWords(t)
    requires StatementYield(s) + r == StatementYield(t) + q
    ensures s == t && r == q
    decreases s, 0
  {
    var x, y := Ending(s), Ending(t);
    EndingYield(s);
    EndingYield(t);
    Assoc(Words(s.tokens), x, r);
    Assoc(Words(t.tokens), y, q);
    SameWords(s.tokens, t.tokens, x + r, y + q);
    assert (x + r)[0] == x[0] && (y + q)[0] == y[0];
    if s.Simple? {
      assert (x + r)[1..] == r && (y + q)[1..] == q;
    } else {
      SameChild(s.child, t.child, r, q);
    }
  }

  function Ending(s: Statement): (end: seq<Token>)
    ensures StartsWithMark(end)
  {
    if s.Simple? then [Mark(';')] else [Mark('{')] + Yield(s.child) + [Mark('}')]
  }

  lemma EndingYield(s: Statement)
    ensures StatementYield(s) == Words(s.tokens) + Ending(s)
  {
    if s.Nested? {
      Assoc(Words(s.tokens), [Mark('{')] + Yield(s.child), [Mark('}')]);
      Assoc(Words(s.tokens), [Mark('{')], Yield(s.child));
    }
  }

  lemma {:induction false} SameChild(a: Block, b: Block, r: seq<Token>, q: seq<Token>)
    requires AllHaveWords(a) && AllHaveWords(b)
    requires [Mark('{')] + Yield(a) + [Mark('}')] + r == [Mark('{')] + Yield(b) + [Mark('}')] + q
    ensures a == b && r == q
    decreases a, 2
  {
    InsideMarks(Mark('{'), Yield(a), Mark('}'), r);
    InsideMarks(Mark('{'), Yield(b), Mark('}'), q);
    SameBlock(a, b, [Mark('}')] + r, [Mark('}')] + q);
    assert ([Mark('}')] + r)[1..] == r && ([Mark('}')] + q)[1..] == q;
  }

  lemma InsideMarks<T>(open: T, inner: seq<T>, close: T, rest: seq<T>)
    ensures ([open] + inner + [close] + rest)[1..] == inner + ([close] + rest)
  {
  }

  /** Two derivations that go on with the end of a block, or with nothing, are of the same tree. */
  lemma {:induction false} SameBlock(a: Block, b: Block, r: seq<Token>, q: seq<Token>)
    requires AllHaveWords(a) && AllHaveWords(b) && EndsBlock(r) && EndsBlock(q)
    requires Yield(a) + r == Yield(b) + q
    ensures a == b && r == q
    decreases a, 1
  {
    if a == [] || b == [] {
      NotBoth(a, r, b, q);
    } else {
      Assoc(StatementYield(a[0]), Yield(a[1..]), r);
      Assoc(StatementYield(b[0]), Yield(b[1..]), q);
      SameStatement(a[0], b[0], Yield(a[1..]) + r, Yield(b[1..]) + q);
      SameBlock(a[1..], b[1..], r, q);
      assert a == [a[0]] + a[1..] && b == [b[0]] + b[1..];
    }
  }

  lemma FirstIsWord(b: Block, rest: seq<Token>)
    requires b != [] && StatementHasWords(b[0])
    ensures Yield(b) + rest != [] && (Yield(b) + rest)[0].kind == TypeNormal
  {
    EndingYield(b[0]);
    assert Words(b[0].tokens)[0].kind == TypeNormal;
  }

  lemma NotBoth(a: Block, r: seq<Token>, b: Block, q: seq<Token>)
    requires AllHaveWords(a) && AllHaveWords(b) && EndsBlock(r) && EndsBlock(q)
    requires (a == [] || b == []) && Yield(a) + r == Yield(b) + q
    ensures a == b && r == q
  {
    assert [] + r == r && [] + q == q;
    if a != [] {
      FirstIsWord(a, r);
    }
    if b != [] {
      FirstIsWord(b, q);
    }
  }

  /** Among trees in which every statement has a word, the tokens derived determine the tree. */
  lemma YieldDetermines(a: Block, b: Block)
    requires AllHaveWords(a) && AllHaveWords(b)
    ensures Yield(a) == Yield(b) <==> a == b
  {
    NothingBehind(Yield(a));
    NothingBehind(Yield(b));
    if Yield(a) == Yield(b) {
      SameBlock(a, b, [], []);
    }
  }
}
