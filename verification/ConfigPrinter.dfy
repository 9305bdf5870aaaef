/** The pretty-printer of src/config_parser.cc over config trees, and its round trip through the
    lexer and the parser. */
module ConfigPrinter {
  import opened Sequences
  import opened Wrappers
  import opened ConfigLexer
  import opened ConfigGrammar
  import opened ConfigRemains

  function Indent(depth: int): string
    decreases depth
  {
    if depth <= 0 then "" else Indent(depth - 1) + "  "
  }

  function Joined(tokens: seq<string>): string {
    if tokens == [] then ""
    else if |tokens| == 1 then tokens[0]
    else tokens[0] + " " + Joined(tokens[1..])
  }

  function Printed(b: Block, depth: int): string
    decreases b, 2
  {
    if b == [] then "" else PrintedStatement(b[0], depth) + Printed(b[1..], depth)
  }

  function PrintedStatement(s: Statement, depth: int): string
    decreases s, 1
  {
    Indent(depth) + Joined(s.tokens) + PrintedEnd(s, depth)
  }

  /** A statement's child block or semicolon. */
  function PrintedEnd(s: Statement, depth: int): string
    decreases s, 0
  {
    if s.Nested? then " {\n" + (Printed(s.child, depth + 1) + (Indent(depth) + "}\n")) else ";\n"
  }

  lemma {:induction false} JoinedAppend(tokens: seq<string>, last: string)
    requires tokens != []
    ensures Joined(tokens + [last]) == Joined(tokens) + " " + last
  {
    if |tokens| == 1 {
      assert (tokens + [last])[1..] == [last];
    } else {
      JoinedAppend(tokens[1..], last);
      assert (tokens + [last])[1..] == tokens[1..] + [last];
      var t := Joined(tokens[1..]);
      assert tokens[0] + " " + (t + " " + last) == tokens[0] + " " + t + " " + last;
    }
  }

  lemma {:induction false} PrintedAppend(b: Block, s: Statement, depth: int)
    ensures Printed(b + [s], depth) == Printed(b, depth) + PrintedStatement(s, depth)
  {
    if b == [] {
      assert (b + [s])[1..] == [];
    } else {
      PrintedAppend(b[1..], s, depth);
      assert (b + [s])[1..] == b[1..] + [s];
      Assoc(PrintedStatement(b[0], depth), Printed(b[1..], depth), PrintedStatement(s, depth));
    }
  }

  // ----- The layout -----

  lemma {:induction false} IndentIsSpaces(depth: int)
    ensures |Indent(depth)| == if depth < 0 then 0 else 2 * depth
    ensures forall k :: 0 <= k < |Indent(depth)| ==> Indent(depth)[k] == ' '
  {
    if depth > 0 {
      IndentIsSpaces(depth - 1);
    }
  }

  lemma PrintedAlone(s: Statement, depth: int)
    ensures Printed([s], depth) == PrintedStatement(s, depth)
  {
    assert [s][1..] == [];
    NothingBehind(PrintedStatement(s, depth));
  }

  lemma PrintedLine(a: string, b: string, depth: int)
    ensures Printed([Simple([a, b])], depth) == Indent(depth) + (a + " " + b) + ";\n"
    ensures AllWellFormed([Simple([a, b])]) && Joined([a, b]) == a + " " + b
  {
    var s := Simple([a, b]);
    assert [a, b][1..] == [b] && [s][1..] == [];
    assert Joined([a, b]) == a + " " + b;
    assert StatementWellFormed(s) && AllWellFormed([s]);
    PrintedAlone(s, depth);
  }

  lemma PrintedBlock(tokens: seq<string>, child: Block, depth: int)
    ensures Printed([Nested(tokens, child)], depth)
            == Indent(depth) + Joined(tokens) + (" {\n" + (Printed(child, depth + 1) + (Indent(depth) + "}\n")))
  {
    PrintedAlone(Nested(tokens, child), depth);
  }

  /** Blocks within blocks: two spaces for each level, one space between words, one line for each statement
      and for each closing brace, which stands below its statement. */
  lemma Layout(a: string, b: string, c: string, d: string, e: string)
    ensures Printed([Nested([a], [Nested([b, c], [Simple([d, e])])])], 0)
            == "" + a + (" {\n" + (
                 "  " + (b + " " + c) + (" {\n" + (
                   "    " + (d + " " + e) + ";\n"
                 + ("  " + "}\n")))
               + ("" + "}\n")))
  {
    IndentUpToTwo();
    PrintedLine(d, e, 2);
    PrintedLine(b, c, 1);
    PrintedBlock([b, c], [Simple([d, e])], 1);
    PrintedBlock([a], [Nested([b, c], [Simple([d, e])])], 0);
  }

  lemma IndentUpToTwo()
    ensures Indent(0) == "" && Indent(1) == "  " && Indent(2) == "    "
  {
    assert Indent(1) == Indent(0) + "  " && Indent(2) == Indent(1) + "  ";
  }

  /** A whole text through lexer and parser, into an empty config. */
  function ParseText(text: string): Option<Block> {
    Run(INITIAL, LexAll(text))
  }

  // ----- Printable trees -----

  ghost predicate WordsPrintable(tokens: seq<string>) {
    forall w :: w in tokens ==> IsWord(w)
  }

  ghost predicate AllWordsPrintable(b: Block) {
    b == [] || (StatementWordsPrintable(b[0]) && AllWordsPrintable(b[1..]))
  }

  ghost predicate StatementWordsPrintable(s: Statement) {
    WordsPrintable(s.tokens) && (s.Nested? ==> AllWordsPrintable(s.child))
  }

  ghost predicate Printable(b: Block) {
    WellFormed(b) && AllWordsPrintable(b)
  }

  // ----- Lexing printed text -----

  lemma {:induction false} LexIndent(depth: int, rest: string)
    ensures LexAll(Indent(depth) + rest) == LexAll(rest)
    decreases depth
  {
    if depth <= 0 {
      assert Indent(depth) + rest == rest;
    } else {
      Assoc(Indent(depth - 1), "  ", rest);
      LexIndent(depth - 1, "  " + rest);
      LexTwoSpaces(rest);
    }
  }

  lemma LexTwoSpaces(rest: string)
    ensures LexAll("  " + rest) == LexAll(rest)
  {
    assert "  " + rest == [' '] + ([' '] + rest);
    LexSpace(' ', [' '] + rest);
    LexSpace(' ', rest);
  }

  lemma {:induction false} LexJoined(tokens: seq<string>, rest: string)
    requires tokens != [] && WordsPrintable(tokens)
    requires rest != "" && In(rest[0], BareEnd)
    ensures LexAll(Joined(tokens) + rest) == Prepend(Words(tokens), LexAll(rest))
    decreases |tokens|
  {
    if |tokens| == 1 {
      LexWord(tokens[0], rest);
    } else {
      var tail := Joined(tokens[1..]) + rest;
      Assoc(tokens[0] + [' '], Joined(tokens[1..]), rest);
      Assoc(tokens[0], [' '], tail);
      LexWord(tokens[0], [' '] + tail);
      LexSpace(' ', tail);
      LexJoined(tokens[1..], rest);
      PrependTwice([Token(TypeNormal, tokens[0])], Words(tokens[1..]), LexAll(rest));
    }
  }

  lemma LexOpening(rest: string)
    ensures LexAll(" {\n" + rest) == Prepend([Mark('{')], LexAll(rest))
  {
    assert " {\n" + rest == [' '] + (['{'] + (['\n'] + rest));
    LexSpace(' ', ['{'] + (['\n'] + rest));
    LexMark('{', ['\n'] + rest);
    LexSpace('\n', rest);
  }

  lemma LexEndOfLine(c: char, rest: string)
    requires IsMark(c)
    ensures LexAll([c] + "\n" + rest) == Prepend([Mark(c)], LexAll(rest))
  {
    assert [c] + "\n" + rest == [c] + (['\n'] + rest);
    LexMark(c, ['\n'] + rest);
    LexSpace('\n', rest);
  }

  lemma LexClosing(depth: int, rest: string)
    ensures LexAll(Indent(depth) + "}\n" + rest) == Prepend([Mark('}')], LexAll(rest))
  {
    Assoc(Indent(depth), "}\n", rest);
    LexIndent(depth, "}\n" + rest);
    assert ['}'] + "\n" == "}\n";
    LexEndOfLine('}', rest);
  }

  function EndYield(s: Statement): seq<Token> {
    if s.Simple? then [Mark(';')] else [Mark('{')] + (Yield(s.child) + [Mark('}')])
  }

  lemma {:induction false} LexPrintedBlock(child: Block, depth: int, rest: string)
    requires AllWellFormed(child) && AllWordsPrintable(child)
    ensures LexAll(" {\n" + (Printed(child, depth + 1) + (Indent(depth) + "}\n")) + rest)
            == Prepend([Mark('{')] + (Yield(child) + [Mark('}')]), LexAll(rest))
    decreases child, 3
  {
    var body, close := Printed(child, depth + 1), Indent(depth) + "}\n";
    Assoc(" {\n", body + close, rest);
    Assoc(body, close, rest);
    LexOpening(body + (close + rest));
    LexPrinted(child, depth + 1, close + rest);
    LexClosing(depth, rest);
    PrependTwice(Yield(child), [Mark('}')], LexAll(rest));
    PrependTwice([Mark('{')], Yield(child) + [Mark('}')], LexAll(rest));
  }

  lemma {:induction false} LexPrintedEnd(s: Statement, depth: int, rest: string)
    requires StatementWellFormed(s) && StatementWordsPrintable(s)
    ensures LexAll(PrintedEnd(s, depth) + rest) == Prepend(EndYield(s), LexAll(rest))
    decreases s, 0
  {
    if s.Simple? {
      LexEndOfLine(';', rest);
    } else {
      LexPrintedBlock(s.child, depth, rest);
    }
  }

  lemma {:induction false} LexPrintedStatement(s: Statement, depth: int, rest: string)
    requires StatementWellFormed(s) && StatementWordsPrintable(s)
    ensures LexAll(PrintedStatement(s, depth) + rest) == Prepend(StatementYield(s), LexAll(rest))
    decreases s, 1
  {
    var end := PrintedEnd(s, depth);
    Assoc(Indent(depth) + Joined(s.tokens), end, rest);
    Assoc(Indent(depth), Joined(s.tokens), end + rest);
    LexIndent(depth, Joined(s.tokens) + (end + rest));
    LexJoined(s.tokens, end + rest);
    LexPrintedEnd(s, depth, rest);
    PrependTwice(Words(s.tokens), EndYield(s), LexAll(rest));
    YieldEnds(s);
  }

  lemma YieldEnds(s: Statement)
    ensures StatementYield(s) == Words(s.tokens) + EndYield(s)
  {
  }

  /** Printed text lexes to the yield of the tree. */
  lemma {:induction false} LexPrinted(b: Block, depth: int, rest: string)
    requires AllWellFormed(b) && AllWordsPrintable(b)
    ensures LexAll(Printed(b, depth) + rest) == Prepend(Yield(b), LexAll(rest))
    decreases b, 2
  {
    if b == [] {
      assert Printed(b, depth) + rest == rest;
      assert Prepend(Yield(b), LexAll(rest)) == LexAll(rest);
    } else {
      Assoc(PrintedStatement(b[0], depth), Printed(b[1..], depth), rest);
      LexPrintedStatement(b[0], depth, Printed(b[1..], depth) + rest);
      LexPrinted(b[1..], depth, rest);
      PrependTwice(StatementYield(b[0]), Yield(b[1..]), LexAll(rest));
    }
  }

  // ----- Parsed trees are printable -----

  lemma {:induction false} LexedWordsPrintable(s: string)
    ensures forall t :: t in LexAll(s).tokens && t.kind == TypeNormal ==> IsWord(t.text)
    decreases |s|
  {
    var l := Lex(s);
    if !Stops(l.token.kind) {
      WordShape(s);
      LexedWordsPrintable(l.rest);
    }
  }

  lemma {:induction false} WordsOfYield(tokens: seq<string>)
    requires forall t :: t in Words(tokens) && t.kind == TypeNormal ==> IsWord(t.text)
    ensures WordsPrintable(tokens)
  {
    if tokens != [] {
      assert Words(tokens)[0] in Words(tokens);
      assert forall t :: t in Words(tokens[1..]) ==> t in Words(tokens);
      WordsOfYield(tokens[1..]);
    }
  }

  lemma {:induction false} YieldOfWords(b: Block)
    requires forall t :: t in Yield(b) && t.kind == TypeNormal ==> IsWord(t.text)
    ensures AllWordsPrintable(b)
  {
    if b != [] {
      assert forall t :: t in StatementYield(b[0]) ==> t in Yield(b);
      WordsOfYield(b[0].tokens);
      if b[0].Nested? {
        YieldOfWords(b[0].child);
      }
      YieldOfWords(b[1..]);
    }
  }

  /** Whatever text the parser accepts, the tree it builds is printable. */
  lemma ParsedIsPrintable(text: string)
    ensures ParseText(text).Some? ==> Printable(ParseText(text).value)
  {
    if ParseText(text).Some? {
      LexesGrammarTokens(text);
      ParserDecidesGrammar(LexAll(text), ParseText(text).value);
      LexedWordsPrintable(text);
      YieldOfWords(ParseText(text).value);
    }
  }

  // ----- Main results -----

  /** The text language: a text is accepted with tree `b` exactly if it lexes to the end of input
      and its comment-free tokens derive `b`. */
  lemma ParseTextDecidesGrammar(text: string, b: Block)
    ensures ParseText(text) == Some(b) <==>
            LexAll(text).reachesEof && WellFormed(b) && LexAll(text).tokens == Yield(b)
  {
    LexesGrammarTokens(text);
    ParserDecidesGrammar(LexAll(text), b);
  }

  /** Printing at any depth and parsing again gives the same tree exactly for printable trees. */
  lemma PrintParseRoundTrip(b: Block, depth: int)
    ensures ParseText(Printed(b, depth)) == Some(b) <==> Printable(b)
  {
    if Printable(b) {
      LexPrinted(b, depth, "");
      assert Printed(b, depth) + "" == Printed(b, depth);
      assert LexAll("") == TokenStream([], true);
      assert Prepend(Yield(b), LexAll("")) == TokenStream(Yield(b), true);
      YieldIsAccepted(b);
    }
    if ParseText(Printed(b, depth)) == Some(b) {
      ParsedIsPrintable(Printed(b, depth));
    }
  }

  /** Normalising an accepted text by printing its tree changes nothing that a second parse sees. */
  lemma NormalizationIsStable(text: string, depth: int)
    ensures ParseText(text).Some? ==> ParseText(Printed(ParseText(text).value, depth)) == ParseText(text)
  {
    if ParseText(text).Some? {
      ParsedIsPrintable(text);
      PrintParseRoundTrip(ParseText(text).value, depth);
    }
  }

  // ----- What a rejected text leaves -----

  /** The tree that the parser leaves in an empty config, whether it accepts the text or not. */
  function Remains(text: string): Block {
    TreeAt(Stop(INITIAL, LexAll(text)))
  }

  /** No statement that is left is without a word; an accepted text leaves its derivation. */
  lemma RemainsHaveWords(text: string)
    ensures AllHaveWords(Remains(text))
    ensures ParseText(text).Some? ==> ParseText(text) == Some(Remains(text))
  {
    LexesGrammarTokens(text);
    StopSound(INITIAL, LexAll(text));
    TreeHasWords(Stop(INITIAL, LexAll(text)));
    if ParseText(text).Some? {
      AcceptedTree(INITIAL, LexAll(text));
    }
  }

  /** What a text leaves, said without the parser: of its tokens the longest beginning of a well-formed
      block, with a `;` behind a last word and a `}` for every block still open. No other tree whose
      statements have words derives that. */
  lemma RemainsIsLongestBeginning(text: string) returns (k: nat)
    ensures k <= |LexAll(text).tokens|
    ensures forall j :: 0 <= j <= |LexAll(text).tokens| ==> (BeginsBlock(LexAll(text).tokens[..j]) <==> j <= k)
    ensures Nesting(LexAll(text).tokens[..k]) >= 0
    ensures Yield(Remains(text))
            == LexAll(text).tokens[..k]
               + (if k > 0 && LexAll(text).tokens[k - 1].kind == TypeNormal then [Mark(';')] else [])
               + Closings(Nesting(LexAll(text).tokens[..k]))
    ensures forall b :: AllHaveWords(b) && Yield(b) == Yield(Remains(text)) ==> b == Remains(text)
  {
    LexesGrammarTokens(text);
    k := StopsAtLongestBeginning(LexAll(text));
    RemainsHaveWords(text);
    forall b | AllHaveWords(b) && Yield(b) == Yield(Remains(text))
      ensures b == Remains(text)
    {
      YieldDetermines(b, Remains(text));
    }
  }

  /** A text all of whose tokens begin a block leaves every one of them. */
  lemma AllIsRead(text: string, whole: Block)
    requires WellFormed(whole) && LexAll(text).tokens <= Yield(whole)
    ensures var tokens := LexAll(text).tokens;
            Yield(Remains(text))
            == tokens + (if tokens != [] && tokens[|tokens| - 1].kind == TypeNormal then [Mark(';')] else [])
               + (if Nesting(tokens) >= 0 then Closings(Nesting(tokens)) else [])
  {
    var tokens := LexAll(text).tokens;
    var k := RemainsIsLongestBeginning(text);
    assert tokens[..|tokens|] == tokens;
    assert BeginsBlock(tokens);
  }

  lemma RemainsOfBeginning(text: string, b: Block, words: seq<string>)
    requires AllWellFormed(b) && words != []
    requires LexAll(text).tokens == Yield(b) + Words(words)
    ensures Remains(text) == b + [Simple(words)]
  {
    var tokens, whole := LexAll(text).tokens, b + [Simple(words)];
    FinishStatementSound(b, Simple(words));
    Assoc(Yield(b), Words(words), [Mark(';')]);
    AllIsRead(text, whole);
    LastIsWord(Yield(b), words);
    SameTree(text, whole, if Nesting(tokens) >= 0 then Closings(Nesting(tokens)) else []);
  }

  lemma SameTree(text: string, whole: Block, rest: seq<Token>)
    requires WellFormed(whole) && Yield(Remains(text)) == Yield(whole) + rest && EndsBlock(rest)
    ensures Remains(text) == whole
  {
    WellFormedHasWords(whole);
    RemainsHaveWords(text);
    NothingBehind(Yield(Remains(text)));
    SameBlock(Remains(text), whole, [], rest);
  }

  lemma LastIsWord(head: seq<Token>, words: seq<string>)
    requires words != []
    ensures (head + Words(words))[|head + Words(words)| - 1].kind == TypeNormal
  {
    WordsOfConcat(words[..|words| - 1], [words[|words| - 1]]);
    assert words == words[..|words| - 1] + [words[|words| - 1]];
  }

  lemma LexLineEnd()
    ensures LexAll("\n") == TokenStream([], true) && LexAll("") == TokenStream([], true)
  {
    assert "\n"[1..] == "" && Past("\n"[1..], White) == "";
    assert Lex("\n") == Lexeme(Token(TypeEof, ""), "");
  }

  /** No input whose last token is a word is accepted. */
  lemma {:induction false} LastWordRejects(m: Machine, tokens: seq<Token>, word: string)
    ensures Run(m, TokenStream(tokens + [Token(TypeNormal, word)], true)) == None
    decreases |tokens|
  {
    var all := TokenStream(tokens + [Token(TypeNormal, word)], true);
    if tokens == [] {
      assert all.tokens[1..] == [];
    } else {
      assert all.tokens[0] == tokens[0] && all.tokens[1..] == tokens[1..] + [Token(TypeNormal, word)];
      match Step(m, tokens[0])
      case None =>
      case Some(n) => LastWordRejects(n, tokens[1..], word);
    }
  }

  lemma LastWordIsRefused(head: seq<Token>, words: seq<string>)
    requires words != []
    ensures Run(INITIAL, TokenStream(head + Words(words), true)) == None
  {
    var first, last := words[..|words| - 1], words[|words| - 1];
    assert words == first + [last];
    WordsOfConcat(first, [last]);
    assert Words([last]) == [Token(TypeNormal, last)];
    Assoc(head, Words(first), [Token(TypeNormal, last)]);
    LastWordRejects(INITIAL, head + Words(first), last);
  }

  /** A last statement without its semicolon stays in the tree, although its text is not accepted. */
  lemma UnfinishedStatementStays(b: Block, depth: int, words: seq<string>)
    requires AllWellFormed(b) && AllWordsPrintable(b) && words != [] && WordsPrintable(words)
    ensures Remains(Printed(b, depth) + (Joined(words) + "\n")) == b + [Simple(words)]
    ensures ParseText(Printed(b, depth) + (Joined(words) + "\n")) == None
  {
    var text := Printed(b, depth) + (Joined(words) + "\n");
    LexPrinted(b, depth, Joined(words) + "\n");
    LexJoined(words, "\n");
    LexLineEnd();
    NothingBehind(Words(words));
    RemainsOfBeginning(text, b, words);
    LastWordIsRefused(Yield(b), words);
  }

  lemma TwoLines(a: string, b: string, c: string, d: string)
    requires IsWord(a) && IsWord(b) && IsWord(c) && IsWord(d)
    ensures var text := a + " " + b + ";\n" + (c + " " + d + "\n");
            Remains(text) == [Simple([a, b]), Simple([c, d])] && ParseText(text) == None
  {
    PrintedLine(a, b, 0);
    PrintedLine(c, d, 0);
    assert Indent(0) + (a + " " + b) == a + " " + b;
    assert [Simple([a, b])][1..] == [];
    UnfinishedStatementStays([Simple([a, b])], 0, [c, d]);
  }

  /** For instance, the port of a last line without its semicolon is there. */
  lemma UnfinishedPort()
    ensures Remains("root .;\nport 80\n") == [Simple(["root", "."]), Simple(["port", "80"])]
    ensures ParseText("root .;\nport 80\n") == None
  {
    UnfinishedPortWords();
    TwoLines("root", ".", "port", "80");
    UnfinishedPortText();
  }

  lemma UnfinishedPortWords()
    ensures IsBareWord("root") && IsBareWord(".") && IsBareWord("port") && IsBareWord("80")
  {
  }

  lemma UnfinishedPortText()
    ensures "root" + " " + "." + ";\n" + ("port" + " " + "80" + "\n") == "root .;\nport 80\n"
  {
  }

  // ----- What the end of input hides -----

  /** The text after the last complete token: what the lexer has read when the input ends. */
  function Fragment(s: string): string
    decreases |s|
  {
    var l := Lex(s);
    if Stops(l.token.kind) then l.token.text else Fragment(l.rest)
  }

  /** The input ends inside a word that only the end of input has cut off. */
  predicate EndsInWord(s: string) {
    Fragment(s) != "" && Fragment(s)[0] != '#' && !IsQuote(Fragment(s)[0])
  }

  lemma {:induction false} PastExtends(s: string)
    ensures Past(s, White) != "" ==> Past(s + "\n", White) == Past(s, White) + "\n"
    ensures Past(s, White) == "" ==> Past(s + "\n", White) == ""
  {
    if s == "" {
      assert "" + "\n" == "\n" && "\n"[1..] == "";
    } else {
      assert (s + "\n")[0] == s[0] && (s + "\n")[1..] == s[1..] + "\n";
      if In(s[0], White) {
        PastExtends(s[1..]);
      }
    }
  }

  lemma {:induction false} SpanExtends(s: string, stop: CharClass)
    ensures Span(s, stop) < |s| ==> Span(s + "\n", stop) == Span(s, stop)
    ensures Span(s, stop) == |s| && In('\n', stop) ==> Span(s + "\n", stop) == |s|
  {
    if s == "" {
      assert "" + "\n" == "\n";
    } else {
      assert (s + "\n")[0] == s[0] && (s + "\n")[1..] == s[1..] + "\n";
      SpanExtends(s[1..], stop);
    }
  }

  /** One more line end changes no complete token; it completes a word or a comment. */
  lemma LexExtends(s: string)
    ensures var l, n := Lex(s), Lex(s + "\n");
            && (!Stops(l.token.kind) ==> n == Lexeme(l.token, l.rest + "\n"))
            && (l.token == Token(TypeEof, "") ==> n == l)
            && (l.token.kind == TypeEof && l.token.text != "" ==>
                  !IsQuote(l.token.text[0])
                  && n == if l.token.text[0] == '#' then Lexeme(Token(TypeComment, l.token.text), "")
                          else Lexeme(Token(TypeNormal, l.token.text), "\n"))
  {
    PastExtends(s);
    var t := Past(s, White);
    if t != "" {
      assert (t + "\n")[0] == t[0] && (t + "\n")[1..] == t[1..] + "\n";
      if !IsMark(t[0]) {
        SpanExtends(t[1..], StopClass(t[0]));
        CutExtends(t, 1 + Span(t[1..], StopClass(t[0])));
      }
    }
  }

  lemma CutExtends(t: string, n: nat)
    requires 0 < n <= |t|
    ensures n < |t| ==> Cut(t + "\n", n) == Lexeme(Cut(t, n).token, Cut(t, n).rest + "\n")
    ensures n == |t| && !IsQuote(t[0]) ==>
              Cut(t + "\n", n) == if t[0] == '#' then Lexeme(Token(TypeComment, t), "")
                                  else Lexeme(Token(TypeNormal, t), "\n")
  {
    var u := t + "\n";
    assert u[0] == t[0] && u[..n] == t[..n] && u[n..] == t[n..] + "\n";
    assert u[n + 1..] == if n < |t| then t[n + 1..] + "\n" else "";
    if n < |t| {
      assert u[..n + 1] == t[..n + 1];
    } else {
      assert t[..n] == t && u[n..] == "\n";
    }
  }

  /** Ending the input with a line end adds the word that was cut off, and nothing else. */
  lemma {:induction false} LineEndCompletes(s: string)
    requires LexAll(s).reachesEof
    ensures LexAll(s + "\n")
            == TokenStream(LexAll(s).tokens + (if EndsInWord(s) then [Token(TypeNormal, Fragment(s))] else []), true)
    decreases |s|
  {
    LexExtends(s);
    LexLineEnd();
    var l := Lex(s);
    if !Stops(l.token.kind) {
      LineEndCompletes(l.rest);
      if l.token.kind != TypeComment {
        var end := if EndsInWord(s) then [Token(TypeNormal, Fragment(s))] else [];
        assert [l.token] + (LexAll(l.rest).tokens + end) == [l.token] + LexAll(l.rest).tokens + end;
      }
    }
  }

  lemma {:induction false} AcceptedReachesEof(m: Machine, input: TokenStream)
    requires Run(m, input).Some?
    ensures input.reachesEof
    decreases |input.tokens|
  {
    if input.tokens != [] {
      AcceptedReachesEof(Step(m, input.tokens[0]).value, input.(tokens := input.tokens[1..]));
    }
  }

  /** The exact loss: an accepted text hides a word if and only if it ends inside one. Ending the line then
      makes the parser see the word and reject the text; it changes nothing for any other accepted text. */
  lemma LineEndRevealsCutOffWord(text: string)
    ensures ParseText(text).Some? ==>
              ParseText(text + "\n") == if EndsInWord(text) then None else ParseText(text)
  {
    if ParseText(text).Some? {
      AcceptedReachesEof(INITIAL, LexAll(text));
      LineEndCompletes(text);
      var tokens := LexAll(text).tokens;
      if EndsInWord(text) {
        LastWordRejects(INITIAL, tokens, Fragment(text));
      } else {
        assert tokens + [] == tokens;
      }
    }
  }

  /** What the two readings of a text, with and without a line end, say about it. */
  lemma HiddenWord(text: string, b: Block, w: string)
    requires WellFormed(b) && LexAll(text) == TokenStream(Yield(b), true)
    requires LexAll(text + "\n") == TokenStream(Yield(b) + [Token(TypeNormal, w)], true)
    ensures HidesWord(text, b, w)
  {
    YieldIsAccepted(b);
    LineEndCompletes(text);
    SameTail(Yield(b), [Token(TypeNormal, w)], if EndsInWord(text) then [Token(TypeNormal, Fragment(text))] else []);
    LineEndRevealsCutOffWord(text);
  }

  lemma SameTail(tokens: seq<Token>, a: seq<Token>, b: seq<Token>)
    requires tokens + a == tokens + b
    ensures a == b
  {
    assert a == (tokens + a)[|tokens|..] && b == (tokens + b)[|tokens|..];
  }

  /** The text is accepted as `b` although it ends in the word `w`; with a line end behind it it is not. */
  predicate HidesWord(text: string, b: Block, w: string) {
    ParseText(text) == Some(b) && EndsInWord(text) && Fragment(text) == w && ParseText(text + "\n") == None
  }

  lemma WordBehind(head: string, b: Block, w: string)
    requires WellFormed(b) && IsBareWord(w)
    requires LexAll(head + w) == Prepend(Yield(b), LexAll(w))
    requires LexAll(head + (w + "\n")) == Prepend(Yield(b), LexAll(w + "\n"))
    ensures HidesWord(head + w, b, w)
  {
    LexLastWord(w);
    LexWordAtLineEnd(w);
    Assoc(head, w, "\n");
    assert Yield(b) + [] == Yield(b);
    HiddenWord(head + w, b, w);
  }

  lemma LexWordAtLineEnd(w: string)
    requires IsBareWord(w)
    ensures LexAll(w + "\n") == TokenStream([Token(TypeNormal, w)], true)
  {
    LexWord(w, "\n");
    LexLineEnd();
    assert [Token(TypeNormal, w)] + [] == [Token(TypeNormal, w)];
  }

  /** Every printed text can lose a word in this way. */
  lemma CutOffWordIsDropped(b: Block, depth: int, w: string)
    requires Printable(b) && IsBareWord(w)
    ensures HidesWord(Printed(b, depth) + w, b, w)
  {
    LexPrinted(b, depth, w);
    LexPrinted(b, depth, w + "\n");
    WordBehind(Printed(b, depth), b, w);
  }

  /** For instance, `a; b` is accepted as `a;`. */
  lemma MissingSemicolon()
    ensures HidesWord("a; b", [Simple(["a"])], "b")
  {
    LexLetterA("b");
    LexLetterA("b" + "\n");
    assert IsBareWord("b");
    WordBehind("a; ", [Simple(["a"])], "b");
    assert "a; " + "b" == "a; b";
  }

  lemma LexLetterA(rest: string)
    ensures LexAll("a; " + rest) == Prepend(Yield([Simple(["a"])]), LexAll(rest))
  {
    assert "a; " + rest == "a" + ([';'] + ([' '] + rest));
    assert IsBareWord("a");
    LexWord("a", [';'] + ([' '] + rest));
    LexMark(';', [' '] + rest);
    LexSpace(' ', rest);
    YieldOfLetterA();
    PrependTwice([Token(TypeNormal, "a")], [Mark(';')], LexAll(rest));
  }

  lemma YieldOfLetterA()
    ensures Yield([Simple(["a"])]) == [Token(TypeNormal, "a")] + [Mark(';')]
  {
    var b := [Simple(["a"])];
    assert Words(["a"]) == [Token(TypeNormal, "a")] + [] && Yield(b) == StatementYield(b[0]) + [];
  }
}
