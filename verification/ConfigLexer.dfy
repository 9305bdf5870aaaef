/** The tokenizer of src/config_parser.cc: a reference definition by maximal munch, and the
    character-level state machine proved against it. */
module ConfigLexer {
  import opened Sequences

  datatype TokenType =
    | TypeStart
    | TypeNormal
    | TypeStartBlock
    | TypeEndBlock
    | TypeComment
    | TypeStatementEnd
    | TypeEof
    | TypeError

  datatype Token = Token(kind: TokenType, text: string)

  datatype CharClass = White | BareEnd | LineEnd | Quote(mark: char)

  predicate In(c: char, class_: CharClass) {
    match class_
    case White => c == ' ' || c == '\t' || c == '\n' || c == '\r'
    case BareEnd => c == ' ' || c == '\t' || c == '\n' || c == ';' || c == '{' || c == '}'
    case LineEnd => c == '\n' || c == '\r'
    case Quote(mark) => c == mark
  }

  predicate IsQuote(c: char) {
    c == '\'' || c == '\"'
  }

  predicate IsMark(c: char) {
    c == '{' || c == '}' || c == ';'
  }

  predicate Stops(kind: TokenType) {
    kind == TypeEof || kind == TypeError
  }

  // ----- Reference definition -----

  /** `s` without its leading characters in `skip`. */
  function Past(s: string, skip: CharClass): (rest: string)
    ensures |rest| <= |s|
    ensures rest == "" || !In(rest[0], skip)
  {
    if s == "" || !In(s[0], skip) then s else Past(s[1..], skip)
  }

  /** The length of the longest prefix of `s` free of the characters in `stop`. */
  function Span(s: string, stop: CharClass): (n: nat)
    ensures n <= |s|
  {
    if s == "" || In(s[0], stop) then 0 else 1 + Span(s[1..], stop)
  }

  function StopClass(first: char): CharClass {
    if first == '#' then LineEnd else if IsQuote(first) then Quote(first) else BareEnd
  }

  datatype Lexeme = Lexeme(token: Token, rest: string)

  /** The first token of `s` and what follows it. A token cut off by the end of input has kind
      `TypeEof`, or `TypeError` inside quotes. */
  function Lex(s: string): (l: Lexeme)
    ensures l.token.kind != TypeStart
    ensures Stops(l.token.kind) ==> l.rest == ""
    ensures !Stops(l.token.kind) ==> |l.rest| < |s|
  {
    LexAfterWhite(Past(s, White))
  }

  function LexAfterWhite(t: string): (l: Lexeme)
    requires t == "" || !In(t[0], White)
    ensures l.token.kind != TypeStart
    ensures Stops(l.token.kind) ==> l.rest == ""
    ensures !Stops(l.token.kind) ==> |l.rest| < |t|
  {
    if t == "" then Lexeme(Token(TypeEof, ""), "")
    else if t[0] == '{' then Lexeme(Token(TypeStartBlock, "{"), t[1..])
    else if t[0] == '}' then Lexeme(Token(TypeEndBlock, "}"), t[1..])
    else if t[0] == ';' then Lexeme(Token(TypeStatementEnd, ";"), t[1..])
    else Cut(t, 1 + Span(t[1..], StopClass(t[0])))
  }

  /** The token that starts with `t[0]` and is stopped by the character at `n`, or by the end of input. */
  function Cut(t: string, n: nat): (l: Lexeme)
    requires 0 < n <= |t|
    ensures l.token.kind != TypeStart
    ensures Stops(l.token.kind) ==> l.rest == ""
    ensures !Stops(l.token.kind) ==> |l.rest| < |t|
  {
    if n == |t| then Lexeme(Token(if IsQuote(t[0]) then TypeError else TypeEof, t), "")
    else if t[0] == '#' then Lexeme(Token(TypeComment, t[..n]), t[n + 1..])
    else if IsQuote(t[0]) then Lexeme(Token(TypeNormal, t[..n + 1]), t[n + 1..])
    else Lexeme(Token(TypeNormal, t[..n]), t[n..])
  }

  /** The comment-free tokens up to the end of input or the first error. */
  datatype TokenStream = TokenStream(tokens: seq<Token>, reachesEof: bool)

  function LexAll(s: string): TokenStream
    decreases |s|
  {
    var l := Lex(s);
    if Stops(l.token.kind) then TokenStream([], l.token.kind == TypeEof)
    else if l.token.kind == TypeComment then LexAll(l.rest)
    else Prepend([l.token], LexAll(l.rest))
  }

  function Prepend(tokens: seq<Token>, stream: TokenStream): TokenStream {
    TokenStream(tokens + stream.tokens, stream.reachesEof)
  }

  // ----- The shape of a word -----

  ghost predicate FreeOf(s: string, stop: CharClass) {
    forall k :: 0 <= k < |s| ==> !In(s[k], stop)
  }

  ghost predicate IsBareWord(w: string) {
    w != "" && !In(w[0], White) && !IsMark(w[0]) && !IsQuote(w[0]) && w[0] != '#' && FreeOf(w[1..], BareEnd)
  }

  ghost predicate IsQuotedWord(w: string) {
    |w| >= 2 && IsQuote(w[0]) && w[|w| - 1] == w[0] && FreeOf(w[1..|w| - 1], Quote(w[0]))
  }

  ghost predicate IsWord(w: string) {
    IsBareWord(w) || IsQuotedWord(w)
  }

  lemma {:induction false} SpanIsFree(s: string, stop: CharClass)
    ensures FreeOf(s[..Span(s, stop)], stop)
    ensures Span(s, stop) < |s| ==> In(s[Span(s, stop)], stop)
  {
    var n := Span(s, stop);
    if n > 0 {
      SpanIsFree(s[1..], stop);
      assert s[..n] == [s[0]] + s[1..][..n - 1];
    }
  }

  /** Every word the lexer returns is a bare or a properly quoted one. */
  lemma WordShape(s: string)
    ensures Lex(s).token.kind == TypeNormal ==> IsWord(Lex(s).token.text)
  {
    var t := Past(s, White);
    if Lex(s).token.kind == TypeNormal {
      var n := Span(t[1..], StopClass(t[0]));
      SpanIsFree(t[1..], StopClass(t[0]));
      assert t[1..][..n] == t[1..n + 1];
      var w := Lex(s).token.text;
      assert w[1..][..n] == t[1..n + 1];
      if IsQuote(t[0]) {
        assert w[1..|w| - 1] == t[1..n + 1];
        assert w[|w| - 1] == t[1..][n];
      }
    }
  }

  lemma {:induction false} SpanOf(w: string, s: string, stop: CharClass)
    requires FreeOf(w, stop)
    requires s != "" && In(s[0], stop)
    ensures Span(w + s, stop) == |w|
  {
    if w == "" {
      assert w + s == s;
    } else {
      assert w[0] == (w + s)[0] && (w + s)[1..] == w[1..] + s;
      SpanOf(w[1..], s, stop);
    }
  }

  lemma {:induction false} SpanOfFree(w: string, stop: CharClass)
    requires FreeOf(w, stop)
    ensures Span(w, stop) == |w|
  {
    if w != "" {
      SpanOfFree(w[1..], stop);
    }
  }

  /** A bare word that the input ends with is lost: only the end of input is read. */
  lemma LexLastWord(w: string)
    requires IsBareWord(w)
    ensures LexAll(w) == TokenStream([], true)
  {
    SpanOfFree(w[1..], BareEnd);
    assert Past(w, White) == w;
  }

  /** A word followed by something that ends it is lexed back as itself. */
  lemma LexWord(w: string, s: string)
    requires IsWord(w)
    requires IsBareWord(w) ==> s != "" && In(s[0], BareEnd)
    ensures Lex(w + s) == Lexeme(Token(TypeNormal, w), s)
  {
    var t := w + s;
    assert Past(t, White) == t;
    if IsBareWord(w) {
      assert t[1..] == w[1..] + s;
      SpanOf(w[1..], s, BareEnd);
      CutHere(w, s);
    } else {
      var inner, closing := w[1..|w| - 1], [w[0]] + s;
      assert w == [w[0]] + inner + [w[0]];
      assert t == [w[0]] + inner + closing && t[1..] == inner + closing;
      SpanOf(inner, closing, Quote(w[0]));
      CutHere([w[0]] + inner, closing);
    }
  }

  lemma LexSpace(c: char, s: string)
    requires In(c, White)
    ensures LexAll([c] + s) == LexAll(s)
  {
    assert ([c] + s)[1..] == s;
    assert Lex([c] + s) == Lex(s);
  }

  lemma LexMark(c: char, s: string)
    requires IsMark(c)
    ensures LexAll([c] + s) == Prepend([Mark(c)], LexAll(s))
  {
    assert ([c] + s)[1..] == s;
    assert Lex([c] + s) == Lexeme(Mark(c), s);
  }

  function Mark(c: char): (t: Token)
    requires IsMark(c)
  {
    Token(if c == '{' then TypeStartBlock else if c == '}' then TypeEndBlock else TypeStatementEnd, [c])
  }

  // ----- Every text, by the characters it starts with -----

  /** White space is skipped. */
  lemma SkipsWhite(c: char, s: string)
    requires c in {' ', '\t', '\n', '\r'}
    ensures LexAll([c] + s) == LexAll(s)
  {
    LexSpace(c, s);
  }

  /** A brace or semicolon is a token of its own. */
  lemma ReadsMarks(s: string)
    ensures LexAll("{" + s) == Prepend([Token(TypeStartBlock, "{")], LexAll(s))
    ensures LexAll("}" + s) == Prepend([Token(TypeEndBlock, "}")], LexAll(s))
    ensures LexAll(";" + s) == Prepend([Token(TypeStatementEnd, ";")], LexAll(s))
  {
    LexMark('{', s);
    LexMark('}', s);
    LexMark(';', s);
  }

  /** A comment is skipped up to and including the end of its line. */
  lemma SkipsComment(text: string, end: char, s: string)
    requires forall c :: c in text ==> c !in {'\n', '\r'}
    requires end in {'\n', '\r'}
    ensures LexAll("#" + (text + ([end] + s))) == LexAll(s)
    ensures LexAll("#" + text) == TokenStream([], true)
  {
    var rest := [end] + s;
    var t := "#" + (text + rest);
    assert t[1..] == text + rest && ("#" + text)[1..] == text;
    assert forall k :: 0 <= k < |text| ==> text[k] in text;
    SpanOf(text, rest, LineEnd);
    SpanOfFree(text, LineEnd);
    Assoc("#", text, rest);
    CutHere("#" + text, rest);
    assert rest[1..] == s;
    assert Past(t, White) == t && Past("#" + text, White) == "#" + text;
  }

  predicate Bare(w: string) {
    && w != "" && w[0] !in {' ', '\t', '\n', '\r', '{', '}', ';', '#', '\'', '\"'}
    && forall c :: c in w[1..] ==> c !in {' ', '\t', '\n', ';', '{', '}'}
  }

  lemma BareIsBareWord(w: string)
    ensures Bare(w) <==> IsBareWord(w)
  {
    if w != "" {
      var rest := w[1..];
      assert forall k :: 0 <= k < |rest| ==> rest[k] in rest;
      assert forall c :: c in {' ', '\t', '\n', ';', '{', '}'} <==> In(c, BareEnd);
    }
  }

  /** A bare word ends before white space other than a carriage return, a semicolon or a brace; at the end
      of input it is lost. */
  lemma ReadsBareWord(w: string, end: char, s: string)
    requires Bare(w) && end in {' ', '\t', '\n', ';', '{', '}'}
    ensures LexAll(w + ([end] + s)) == Prepend([Token(TypeNormal, w)], LexAll([end] + s))
    ensures LexAll(w) == TokenStream([], true)
  {
    BareIsBareWord(w);
    LexWord(w, [end] + s);
    LexLastWord(w);
  }

  /** A quoted word keeps its quotes, and what is between them up to the next quote of that kind; without
      one there, the text is in error. */
  lemma ReadsQuoted(quote: char, inner: string, s: string)
    requires quote in {'\'', '\"'} && quote !in inner
    ensures LexAll([quote] + inner + [quote] + s)
            == Prepend([Token(TypeNormal, [quote] + inner + [quote])], LexAll(s))
    ensures LexAll([quote] + inner) == TokenStream([], false)
  {
    var w := [quote] + inner + [quote];
    assert w[1..|w| - 1] == inner && IsQuotedWord(w);
    LexWord(w, s);
    var open := [quote] + inner;
    assert open[1..] == inner && Past(open, White) == open;
    SpanOfFree(inner, Quote(quote));
  }

  // ----- The state machine -----

  /** A std::istream over a character sequence: reading past the end clears `good`. */
  class InputStream {
    const data: string
    var pos: nat
    var good: bool

    constructor (text: string)
      ensures Valid() && good && data == text && Remaining() == text
    {
      data, pos, good := text, 0, true;
    }

    predicate Valid()
      reads this
    {
      pos <= |data|
    }

    function Remaining(): string
      requires Valid()
      reads this
    {
      if good then data[pos..] else ""
    }

    method Get() returns (c: char)
      requires Valid() && good
      modifies this
      ensures Valid() && good == (old(pos) < |data|)
      ensures good ==> pos == old(pos) + 1 && c == data[old(pos)]
    {
      if pos < |data| {
        c := data[pos];
        pos := pos + 1;
      } else {
        c := ' ';
        good := false;
      }
    }

    method Unget()
      requires Valid() && good && pos > 0
      modifies `pos
      ensures Valid() && pos == old(pos) - 1
    {
      pos := pos - 1;
    }
  }

  datatype ParserState = InitialWhitespace | SingleQuote | DoubleQuote | Comment | Normal

  function StateAfter(first: char): ParserState {
    if first == '#' then Comment else if first == '\'' then SingleQuote
    else if first == '\"' then DoubleQuote else Normal
  }

  function StopsState(state: ParserState): CharClass
    requires state != InitialWhitespace
  {
    match state
    case SingleQuote => Quote('\'')
    case DoubleQuote => Quote('\"')
    case Comment => LineEnd
    case Normal => BareEnd
  }

  /** The state machine as a function: the token obtained by finishing from `state` with `value`
      read so far and `todo` still to read. */
  function Finish(state: ParserState, value: string, todo: string): Lexeme
    requires state != InitialWhitespace
    decreases |todo|
  {
    if todo == "" then
      Lexeme(Token(if state == SingleQuote || state == DoubleQuote then TypeError else TypeEof, value), "")
    else if !In(todo[0], StopsState(state)) then
      Finish(state, value + [todo[0]], todo[1..])
    else
      if state == Comment then Lexeme(Token(TypeComment, value), todo[1..])
      else if state == Normal then Lexeme(Token(TypeNormal, value), todo)
      else Lexeme(Token(TypeNormal, value + [todo[0]]), todo[1..])
  }

  function Begin(todo: string): Lexeme
    decreases |todo|
  {
    if todo == "" then Lexeme(Token(TypeEof, ""), "")
    else if IsMark(todo[0]) then Lexeme(Mark(todo[0]), todo[1..])
    else if In(todo[0], White) then Begin(todo[1..])
    else Finish(StateAfter(todo[0]), [todo[0]], todo[1..])
  }

  /** Inside a token the machine reads exactly to the first character that stops it. */
  lemma {:induction false} FinishReadsSpan(value: string, todo: string)
    requires value != "" && !In(value[0], White) && !IsMark(value[0])
    ensures Finish(StateAfter(value[0]), value, todo)
            == Cut(value + todo, |value| + Span(todo, StopClass(value[0])))
    decreases |todo|
  {
    if todo == "" {
      assert value + todo == value;
    } else if In(todo[0], StopClass(value[0])) {
      CutHere(value, todo);
    } else {
      FinishReadsSpan(value + [todo[0]], todo[1..]);
      MoveOver(value, todo);
    }
  }

  lemma CutHere(value: string, todo: string)
    requires value != "" && todo != ""
    ensures Cut(value + todo, |value|) ==
            if value[0] == '#' then Lexeme(Token(TypeComment, value), todo[1..])
            else if IsQuote(value[0]) then Lexeme(Token(TypeNormal, value + [todo[0]]), todo[1..])
            else Lexeme(Token(TypeNormal, value), todo)
  {
    var t := value + todo;
    assert t[..|value|] == value && t[|value|..] == todo;
    assert t[..|value| + 1] == value + [todo[0]] && t[|value| + 1..] == todo[1..];
  }

  lemma TokenIsLex(c: char, todo: string)
    requires !In(c, White) && !IsMark(c)
    ensures Lex([c] + todo) == Finish(StateAfter(c), [c], todo)
  {
    var s := [c] + todo;
    assert s[0] == c && s[1..] == todo && Past(s, White) == s;
    FinishReadsSpan([c], todo);
  }

  /** The state machine computes the reference definition. */
  lemma {:induction false} MachineIsLex(s: string)
    ensures Begin(s) == Lex(s)
    decreases |s|
  {
    if s == "" {
    } else if In(s[0], White) {
      MachineIsLex(s[1..]);
    } else if !IsMark(s[0]) {
      TokenIsLex(s[0], s[1..]);
      assert [s[0]] + s[1..] == s;
    }
  }

  predicate Yields(kind: TokenType, value: string, rest: string, expected: Lexeme) {
    kind == expected.token.kind && rest == expected.rest && (Stops(kind) || value == expected.token.text)
  }

  function Continuation(state: ParserState, value: string, todo: string): Lexeme {
    if state == InitialWhitespace then Begin(todo) else Finish(state, value, todo)
  }

  /** What one character does to the token being read: go on, return including the character, or
      push the character back and return. */
  datatype Verdict = Continue | Accept(kind: TokenType) | AcceptBefore(kind: TokenType)

  /** The body of the machine's loop. */
  method Advance(state: ParserState, value: string, c: char, ghost todo: string)
    returns (next: ParserState, text: string, verdict: Verdict)
    requires todo != "" && c == todo[0]
    requires state == InitialWhitespace ==> value == ""
    ensures next == InitialWhitespace && verdict == Continue ==> text == ""
    ensures Continuation(state, value, todo) ==
            match verdict
            case Continue => Continuation(next, text, todo[1..])
            case Accept(kind) => Lexeme(Token(kind, text), todo[1..])
            case AcceptBefore(kind) => Lexeme(Token(kind, text), todo)
  {
    next, text, verdict := state, value, Continue;
    match state
    case InitialWhitespace =>
      match c {
        case '{' => text, verdict := [c], Accept(TypeStartBlock);
        case '}' => text, verdict := [c], Accept(TypeEndBlock);
        case '#' => text, next := [c], Comment;
        case '\"' => text, next := [c], DoubleQuote;
        case '\'' => text, next := [c], SingleQuote;
        case ';' => text, verdict := [c], Accept(TypeStatementEnd);
        case ' ' =>
        case '\t' =>
        case '\n' =>
        case '\r' =>
        case _ =>
          assert value + [c] == [c];
          text, next := value + [c], Normal;
      }
    case SingleQuote =>
      text := value + [c];
      if c == '\'' {
        verdict := Accept(TypeNormal);
      }
    case DoubleQuote =>
      text := value + [c];
      if c == '\"' {
        verdict := Accept(TypeNormal);
      }
    case Comment =>
      if c == '\n' || c == '\r' {
        verdict := Accept(TypeComment);
      } else {
        text := value + [c];
      }
    case Normal =>
      if c == ' ' || c == '\t' || c == '\n' || c == ';' || c == '{' || c == '}' {
        verdict := AcceptBefore(TypeNormal);
      } else {
        text := value + [c];
      }
  }

  /** Reads one token. The result is the token that the reference definition gives, and the stream
      is left just behind it; only at the end of input is the text unspecified. */
  method ParseToken(input: InputStream) returns (kind: TokenType, value: string)
    requires input.Valid()
    modifies input
    ensures input.Valid()
    ensures Yields(kind, value, input.Remaining(), Lex(old(input.Remaining())))
  {
    ghost var result := Begin(input.Remaining());
    MachineIsLex(input.Remaining());
    var state := InitialWhitespace;
    value := "";
    while input.good
      invariant input.Valid()
      invariant state == InitialWhitespace ==> value == ""
      invariant Continuation(state, value, input.Remaining()) == result
      decreases |input.Remaining()|, input.good
    {
      ghost var todo := input.Remaining();
      var c := input.Get();
      if !input.good {
        break;
      }
      assert input.Remaining() == todo[1..];
      var verdict: Verdict;
      state, value, verdict := Advance(state, value, c, todo);
      match verdict
      case Continue =>
      case Accept(k) => return k, value;
      case AcceptBefore(k) =>
        input.Unget();
        return k, value;
    }
    kind := if state == SingleQuote || state == DoubleQuote then TypeError else TypeEof;
  }
}
