/** The part of SQL that src/sql_lib.cc writes: its tokens, its grammar with numbered parameters, and its
    meaning on a table with a primary key. */
module SqlText {
  import opened Wrappers
  import opened Numbers
  import opened Sequences

  // ----- Tokens -----

  datatype Token = Word(text: string) | Param(number: int) | Punct(mark: char) | Bad

  predicate IsWordStart(c: char) {
    'A' <= c <= 'Z' || 'a' <= c <= 'z' || c == '_'
  }

  predicate IsWordChar(c: char) {
    IsWordStart(c) || '0' <= c <= '9'
  }

  predicate IsPunct(c: char) {
    c == '(' || c == ')' || c == ',' || c == '=' || c == ';' || c == '*'
  }

  function WordRun(s: string): (n: nat)
    ensures n <= |s|
  {
    if s != "" && IsWordChar(s[0]) then 1 + WordRun(s[1..]) else 0
  }

  function Lex(s: string): seq<Token>
    decreases |s|
  {
    if s == "" then []
    else if s[0] == ' ' then Lex(s[1..])
    else if IsPunct(s[0]) then [Punct(s[0])] + Lex(s[1..])
    else if IsWordStart(s[0]) then
      var n := 1 + WordRun(s[1..]);
      [Word(s[..n])] + Lex(s[n..])
    else if s[0] == '?' && DigitRun(10, s[1..]) > 0 then
      var n := DigitRun(10, s[1..]);
      [Param(ValueOf(10, s[1..][..n]))] + Lex(s[1..][n..])
    else [Bad]
  }

  predicate IsIdentifier(w: string) {
    w != "" && IsWordStart(w[0]) && forall k :: 0 <= k < |w| ==> IsWordChar(w[k])
  }

  /** `s` does not go on with a character of a word or a number. */
  predicate EndsWord(s: string) {
    s == "" || !IsWordChar(s[0])
  }

  lemma {:induction false} WordRunOf(w: string, s: string)
    requires (forall k :: 0 <= k < |w| ==> IsWordChar(w[k])) && EndsWord(s)
    ensures WordRun(w + s) == |w|
  {
    if w == "" {
      assert w + s == s;
    } else {
      assert (w + s)[0] == w[0] && (w + s)[1..] == w[1..] + s;
      WordRunOf(w[1..], s);
    }
  }

  lemma LexWord(w: string, s: string)
    requires IsIdentifier(w) && EndsWord(s)
    ensures Lex(w + s) == [Word(w)] + Lex(s)
  {
    var t := w + s;
    assert t[0] == w[0] && t[1..] == w[1..] + s;
    WordRunOf(w[1..], s);
    assert t[..|w|] == w && t[|w|..] == s;
  }

  lemma LexDigits(digits: string, s: string)
    requires digits != "" && (forall k :: 0 <= k < |digits| ==> '0' <= digits[k] <= '9') && EndsWord(s)
    ensures Lex(['?'] + (digits + s)) == [Param(ValueOf(10, digits))] + Lex(s)
  {
    var t := digits + s;
    assert (['?'] + t)[1..] == t;
    DigitRunBefore(digits, s);
    assert t[..|digits|] == digits && t[|digits|..] == s;
  }

  function ParamText(n: nat): string {
    ['?'] + Decimal(n)
  }

  lemma LexParam(n: nat, s: string)
    requires EndsWord(s)
    ensures Lex(ParamText(n) + s) == [Param(n)] + Lex(s)
  {
    LexDigits(Decimal(n), s);
    DecimalValue(n);
    Assoc(['?'], Decimal(n), s);
  }

  lemma LexPunct(c: char, s: string)
    requires IsPunct(c)
    ensures Lex([c] + s) == [Punct(c)] + Lex(s)
  {
    assert ([c] + s)[1..] == s;
  }

  lemma LexSpace(s: string)
    ensures Lex([' '] + s) == Lex(s)
  {
    assert ([' '] + s)[1..] == s;
  }

  // ----- Grammar -----

  /** What lists are made of: a column, a parameter, or `column = parameter`. */
  datatype Item = Column(name: string) | Place(number: nat) | Equals(name: string, number: nat)

  const KEYWORDS: set<string> :=
    {"INSERT", "INTO", "VALUES", "UPDATE", "SET", "WHERE", "AND", "DELETE", "FROM", "SELECT"}

  /** A name that needs no quoting. */
  predicate IsPlainName(w: string) {
    IsIdentifier(w) && w !in KEYWORDS
  }

  function ItemAt(ts: seq<Token>): (r: Option<(Item, seq<Token>)>)
    ensures r.Some? ==> |r.value.1| < |ts|
  {
    if |ts| >= 3 && ts[0].Word? && ts[1] == Punct('=') && ts[2].Param? && ts[2].number >= 0
       && IsPlainName(ts[0].text) then
      Some((Equals(ts[0].text, ts[2].number), ts[3..]))
    else if |ts| >= 1 && ts[0].Word? && IsPlainName(ts[0].text) then Some((Column(ts[0].text), ts[1..]))
    else if |ts| >= 1 && ts[0].Param? && ts[0].number >= 0 then Some((Place(ts[0].number), ts[1..]))
    else None
  }

  /** One or more items with a separator between them, and the tokens behind. */
  function ItemsAt(separator: Token, ts: seq<Token>): (r: Option<(seq<Item>, seq<Token>)>)
    ensures r.Some? ==> |r.value.1| < |ts|
    decreases |ts|
  {
    match ItemAt(ts)
    case None => None
    case Some((item, rest)) =>
      if rest == [] || rest[0] != separator then Some(([item], rest))
      else
        match ItemsAt(separator, rest[1..])
        case None => None
        case Some((items, behind)) => Some(([item] + items, behind))
  }

  datatype Statement =
    | Insert(table: string, columns: seq<Item>, values: seq<Item>)
    | Update(table: string, sets: seq<Item>, wheres: seq<Item>)
    | Delete(table: string, wheres: seq<Item>)
    | Select(table: string, wheres: seq<Item>)

  predicate EndsStatement(ts: seq<Token>) {
    ts == [] || ts == [Punct(';')]
  }

  /** The optional WHERE clause and the end of the statement. */
  function WheresAt(ts: seq<Token>): Option<seq<Item>> {
    if EndsStatement(ts) then Some([])
    else if ts[0] != Word("WHERE") then None
    else
      match ItemsAt(Word("AND"), ts[1..])
      case None => None
      case Some((items, rest)) => if EndsStatement(rest) && AllEquals(items) then Some(items) else None
  }

  predicate AllEquals(items: seq<Item>) {
    forall i :: 0 <= i < |items| ==> items[i].Equals?
  }

  predicate AllColumns(items: seq<Item>) {
    forall i :: 0 <= i < |items| ==> items[i].Column?
  }

  predicate AllPlaces(items: seq<Item>) {
    forall i :: 0 <= i < |items| ==> items[i].Place?
  }

  predicate IsTable(t: Token) {
    t.Word? && IsPlainName(t.text)
  }

  function InsertAt(table: string, ts: seq<Token>): Option<Statement> {
    match ItemsAt(Punct(','), ts)
    case None => None
    case Some((columns, rest)) =>
      if !(|rest| >= 3 && rest[0] == Punct(')') && rest[1] == Word("VALUES") && rest[2] == Punct('(')) then None
      else
        match ItemsAt(Punct(','), rest[3..])
        case None => None
        case Some((values, behind)) =>
          if AllColumns(columns) && AllPlaces(values) && |columns| == |values|
             && behind != [] && behind[0] == Punct(')') && EndsStatement(behind[1..])
          then Some(Insert(table, columns, values)) else None
  }

  function UpdateAt(table: string, ts: seq<Token>): Option<Statement> {
    match ItemsAt(Punct(','), ts)
    case None => None
    case Some((sets, rest)) =>
      match WheresAt(rest)
      case None => None
      case Some(wheres) => if AllEquals(sets) then Some(Update(table, sets, wheres)) else None
  }

  function Parse(ts: seq<Token>): Option<Statement> {
    if |ts| >= 4 && ts[0] == Word("INSERT") && ts[1] == Word("INTO") && IsTable(ts[2]) && ts[3] == Punct('(') then
      InsertAt(ts[2].text, ts[4..])
    else if |ts| >= 3 && ts[0] == Word("UPDATE") && IsTable(ts[1]) && ts[2] == Word("SET") then
      UpdateAt(ts[1].text, ts[3..])
    else if |ts| >= 3 && ts[0] == Word("DELETE") && ts[1] == Word("FROM") && IsTable(ts[2]) then
      match WheresAt(ts[3..])
      case None => None
      case Some(wheres) => Some(Delete(ts[2].text, wheres))
    else if |ts| >= 4 && ts[0] == Word("SELECT") && ts[1] == Punct('*') && ts[2] == Word("FROM") && IsTable(ts[3]) then
      match WheresAt(ts[4..])
      case None => None
      case Some(wheres) => Some(Select(ts[3].text, wheres))
    else None
  }

  // ----- Item lists as text and as tokens -----

  function ItemText(i: Item): string {
    match i
    case Column(name) => name
    case Place(number) => ParamText(number)
    case Equals(name, number) => name + (['='] + ([' '] + ParamText(number)))
  }

  function ItemTokens(i: Item): seq<Token> {
    match i
    case Column(name) => [Word(name)]
    case Place(number) => [Param(number)]
    case Equals(name, number) => [Word(name), Punct('='), Param(number)]
  }

  /** What stands between the items of a list. */
  datatype Separator = Comma | And

  function SeparatorText(s: Separator): string {
    if s == Comma then "," else " AND "
  }

  function SeparatorToken(s: Separator): Token {
    if s == Comma then Punct(',') else Word("AND")
  }

  function ListText(items: seq<Item>, separator: Separator): string {
    if items == [] then ""
    else if |items| == 1 then ItemText(items[0])
    else ItemText(items[0]) + (SeparatorText(separator) + ListText(items[1..], separator))
  }

  function ListTokens(items: seq<Item>, separator: Separator): seq<Token> {
    if items == [] then []
    else if |items| == 1 then ItemTokens(items[0])
    else ItemTokens(items[0]) + ([SeparatorToken(separator)] + ListTokens(items[1..], separator))
  }

  predicate ItemPlain(i: Item) {
    !i.Place? ==> IsPlainName(i.name)
  }

  predicate AllPlain(items: seq<Item>) {
    forall i :: 0 <= i < |items| ==> ItemPlain(items[i])
  }

  lemma LexEquals(name: string, number: nat, s: string)
    requires IsIdentifier(name) && EndsWord(s)
    ensures Lex(ItemText(Equals(name, number)) + s) == [Word(name), Punct('='), Param(number)] + Lex(s)
  {
    var param := ParamText(number);
    Assoc(name, ['='] + ([' '] + param), s);
    Assoc(['='], [' '] + param, s);
    Assoc([' '], param, s);
    LexWord(name, ['='] + ([' '] + (param + s)));
    LexAssigned(number, s);
    FirstTwo(Punct('='), Param(number), Lex(s));
    Assoc([Word(name)], [Punct('='), Param(number)], Lex(s));
  }

  lemma LexAssigned(number: nat, s: string)
    requires EndsWord(s)
    ensures Lex(['='] + ([' '] + (ParamText(number) + s))) == [Punct('=')] + ([Param(number)] + Lex(s))
  {
    LexPunct('=', [' '] + (ParamText(number) + s));
    LexSpace(ParamText(number) + s);
    LexParam(number, s);
  }

  lemma LexItem(i: Item, s: string)
    requires ItemPlain(i) && EndsWord(s)
    ensures Lex(ItemText(i) + s) == ItemTokens(i) + Lex(s)
  {
    match i
    case Column(name) => LexWord(name, s);
    case Place(number) => LexParam(number, s);
    case Equals(name, number) => LexEquals(name, number, s);
  }

  lemma LexSeparator(separator: Separator, s: string)
    ensures Lex(SeparatorText(separator) + s) == [SeparatorToken(separator)] + Lex(s)
  {
    if separator == Comma {
      LexPunct(',', s);
    } else {
      assert " AND " + s == [' '] + ("AND" + ([' '] + s));
      LexSpace("AND" + ([' '] + s));
      LexWord("AND", [' '] + s);
      LexSpace(s);
    }
  }

  lemma SeparatorEndsWord(separator: Separator, s: string)
    ensures EndsWord(SeparatorText(separator) + s)
  {
  }

  lemma LexCons(i: Item, separator: Separator, tail: string, tokens: seq<Token>, s: string)
    requires ItemPlain(i) && Lex(tail + s) == tokens + Lex(s)
    ensures Lex(ItemText(i) + (SeparatorText(separator) + tail) + s)
            == ItemTokens(i) + ([SeparatorToken(separator)] + tokens) + Lex(s)
  {
    Assoc(ItemText(i), SeparatorText(separator) + tail, s);
    Assoc(SeparatorText(separator), tail, s);
    SeparatorEndsWord(separator, tail + s);
    LexItem(i, SeparatorText(separator) + (tail + s));
    LexSeparator(separator, tail + s);
    Assoc([SeparatorToken(separator)], tokens, Lex(s));
    Assoc(ItemTokens(i), [SeparatorToken(separator)] + tokens, Lex(s));
  }

  lemma {:induction false} LexList(items: seq<Item>, separator: Separator, s: string)
    requires items != [] && AllPlain(items) && EndsWord(s)
    ensures Lex(ListText(items, separator) + s) == ListTokens(items, separator) + Lex(s)
    decreases |items|
  {
    if |items| == 1 {
      LexItem(items[0], s);
    } else {
      LexList(items[1..], separator, s);
      LexCons(items[0], separator, ListText(items[1..], separator), ListTokens(items[1..], separator), s);
    }
  }

  lemma ItemRead(i: Item, rest: seq<Token>)
    requires ItemPlain(i) && (rest == [] || rest[0] != Punct('='))
    ensures ItemAt(ItemTokens(i) + rest) == Some((i, rest))
  {
    var ts := ItemTokens(i) + rest;
    assert ts[|ItemTokens(i)|..] == rest;
  }

  lemma ReadCons(item: Item, separator: Separator, items: seq<Item>, tokens: seq<Token>, rest: seq<Token>)
    requires ItemPlain(item) && ItemsAt(SeparatorToken(separator), tokens + rest) == Some((items, rest))
    ensures ItemsAt(SeparatorToken(separator), ItemTokens(item) + ([SeparatorToken(separator)] + tokens) + rest)
            == Some(([item] + items, rest))
  {
    var token := SeparatorToken(separator);
    Assoc(ItemTokens(item), [token] + tokens, rest);
    Assoc([token], tokens, rest);
    ItemRead(item, [token] + (tokens + rest));
    assert ([token] + (tokens + rest))[1..] == tokens + rest;
  }

  lemma {:induction false} ListRead(items: seq<Item>, separator: Separator, rest: seq<Token>)
    requires items != [] && AllPlain(items)
    requires rest == [] || (rest[0] != SeparatorToken(separator) && rest[0] != Punct('='))
    ensures ItemsAt(SeparatorToken(separator), ListTokens(items, separator) + rest) == Some((items, rest))
    decreases |items|
  {
    if |items| == 1 {
      ItemRead(items[0], rest);
      assert items == [items[0]];
    } else {
      ListRead(items[1..], separator, rest);
      ReadCons(items[0], separator, items[1..], ListTokens(items[1..], separator), rest);
      assert items == [items[0]] + items[1..];
    }
  }
}
