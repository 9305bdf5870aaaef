/** src/sql_lib.cc: the statement builders, executed as text on an abstract table whose first column is
    the primary key and whose columns are all NOT NULL. */
module SqlManager {
  import opened Wrappers
  import opened Sequences
  import opened Numbers
  import opened SqlText

  // ----- The table and the intended operations -----

  type Row = seq<string>
  type Binding = (string, string)

  datatype Table = Table(name: string, columns: seq<string>, rows: seq<Row>)

  /** A failed step changes nothing; a successful one may return rows. */
  datatype Outcome = Failed | Done(table: Table, result: seq<Row>)

  /** The table after a step. */
  function Applied(t: Table, outcome: Outcome): Table {
    if outcome.Done? then outcome.table else t
  }

  /** The rows a step returns; none if it fails. */
  function Returned(outcome: Outcome): seq<Row> {
    if outcome.Done? then outcome.result else []
  }

  predicate DistinctStrings(s: seq<string>) {
    forall i, j :: 0 <= i < j < |s| ==> s[i] != s[j]
  }

  function Key(row: Row): string {
    if row == [] then "" else row[0]
  }

  predicate UniqueKeys(rows: seq<Row>) {
    forall i, j :: 0 <= i < j < |rows| ==> Key(rows[i]) != Key(rows[j])
  }

  predicate HasKey(rows: seq<Row>, key: string) {
    exists i :: 0 <= i < |rows| && Key(rows[i]) == key
  }

  predicate ValidTable(t: Table) {
    && t.columns != [] && DistinctStrings(t.columns)
    && (forall i :: 0 <= i < |t.rows| ==> |t.rows[i]| == |t.columns|)
    && UniqueKeys(t.rows)
  }

  /** The last value given for a column. */
  function ValueFor(column: string, given: seq<Binding>): Option<string> {
    if given == [] then None
    else if given[|given| - 1].0 == column then Some(given[|given| - 1].1)
    else ValueFor(column, given[..|given| - 1])
  }

  predicate KnownColumns(t: Table, given: seq<Binding>) {
    forall i :: 0 <= i < |given| ==> given[i].0 in t.columns
  }

  function Position(columns: seq<string>, column: string): (i: nat)
    requires column in columns
    ensures i < |columns| && columns[i] == column
  {
    if columns[0] == column then 0 else 1 + Position(columns[1..], column)
  }

  predicate Satisfies(t: Table, row: Row, wheres: seq<Binding>)
    requires |row| == |t.columns| && KnownColumns(t, wheres)
  {
    forall i :: 0 <= i < |wheres| ==> row[Position(t.columns, wheres[i].0)] == wheres[i].1
  }

  function Assigned(t: Table, row: Row, sets: seq<Binding>): (r: Row)
    requires |row| == |t.columns|
    ensures |r| == |row|
  {
    seq(|row|, i requires 0 <= i < |row| =>
      match ValueFor(t.columns[i], sets) case None => row[i] case Some(v) => v)
  }

  function InsertRow(t: Table, given: seq<Binding>): Outcome
    requires ValidTable(t)
  {
    if !(KnownColumns(t, given) && |given| == |t.columns|
         && forall c :: c in t.columns ==> ValueFor(c, given).Some?) then Failed
    else
      var row := seq(|t.columns|, i requires 0 <= i < |t.columns| => ValueFor(t.columns[i], given).value);
      if HasKey(t.rows, Key(row)) then Failed else Done(t.(rows := t.rows + [row]), [])
  }

  function UpdateRows(t: Table, sets: seq<Binding>, wheres: seq<Binding>): Outcome
    requires ValidTable(t)
  {
    if !KnownColumns(t, sets) || !KnownColumns(t, wheres) then Failed
    else
      var rows := seq(|t.rows|, i requires 0 <= i < |t.rows| =>
        if Satisfies(t, t.rows[i], wheres) then Assigned(t, t.rows[i], sets) else t.rows[i]);
      if UniqueKeys(rows) then Done(t.(rows := rows), []) else Failed
  }

  /** The rows that satisfy (or do not satisfy) the conditions, in table order. */
  function Filtered(t: Table, rows: seq<Row>, wheres: seq<Binding>, wanted: bool): seq<Row>
    requires KnownColumns(t, wheres) && forall i :: 0 <= i < |rows| ==> |rows[i]| == |t.columns|
  {
    if rows == [] then []
    else
      (if Satisfies(t, rows[0], wheres) == wanted then [rows[0]] else []) + Filtered(t, rows[1..], wheres, wanted)
  }

  function DeleteRows(t: Table, wheres: seq<Binding>): Outcome
    requires ValidTable(t)
  {
    if !KnownColumns(t, wheres) then Failed else Done(t.(rows := Filtered(t, t.rows, wheres, false)), [])
  }

  function SelectRows(t: Table, wheres: seq<Binding>): Outcome
    requires ValidTable(t)
  {
    if !KnownColumns(t, wheres) then Failed else Done(t, Filtered(t, t.rows, wheres, true))
  }

  // ----- Execution of a text under bindings -----

  type Bindings = map<nat, string>

  predicate AllBound(items: seq<Item>, b: Bindings) {
    forall i :: 0 <= i < |items| && !items[i].Column? ==> items[i].number in b
  }

  /** The values that the bindings give to `column = parameter` items. */
  function Resolve(items: seq<Item>, b: Bindings): seq<Binding>
    requires AllEquals(items) && AllBound(items, b)
  {
    seq(|items|, i requires 0 <= i < |items| => (items[i].name, b[items[i].number]))
  }

  function ResolveInsert(columns: seq<Item>, values: seq<Item>, b: Bindings): seq<Binding>
    requires AllColumns(columns) && AllPlaces(values) && |columns| == |values| && AllBound(values, b)
  {
    seq(|columns|, i requires 0 <= i < |columns| => (columns[i].name, b[values[i].number]))
  }

  /** An unbound parameter would be NULL; none of the builders leaves one. */
  function Eval(s: Statement, b: Bindings, t: Table): Outcome
    requires ValidTable(t)
  {
    if s.table != t.name then Failed
    else
      match s
      case Insert(_, columns, values) =>
        if AllColumns(columns) && AllPlaces(values) && |columns| == |values| && AllBound(values, b)
        then InsertRow(t, ResolveInsert(columns, values, b)) else Failed
      case Update(_, sets, wheres) =>
        if AllEquals(sets) && AllBound(sets, b) && AllEquals(wheres) && AllBound(wheres, b)
        then UpdateRows(t, Resolve(sets, b), Resolve(wheres, b)) else Failed
      case Delete(_, wheres) =>
        if AllEquals(wheres) && AllBound(wheres, b) then DeleteRows(t, Resolve(wheres, b)) else Failed
      case Select(_, wheres) =>
        if AllEquals(wheres) && AllBound(wheres, b) then SelectRows(t, Resolve(wheres, b)) else Failed
  }

  /** Preparing and stepping a text; a text that does not parse cannot be stepped. */
  function Execute(q: string, b: Bindings, t: Table): Outcome
    requires ValidTable(t)
  {
    match Parse(Lex(q))
    case None => Failed
    case Some(s) => Eval(s, b, t)
  }

  // ----- Bindings and items of query parameters -----

  /** Text is bound up to its first NUL. */
  function CString(s: string): string {
    if s == "" || s[0] == 0 as char then "" else [s[0]] + CString(s[1..])
  }

  lemma {:induction false} CStringCut(a: string, s: string)
    requires 0 as char !in a
    ensures CString(a) == a && CString(a + ([0 as char] + s)) == a
  {
    if a == "" {
      assert a + ([0 as char] + s) == [0 as char] + s;
    } else {
      CStringCut(a[1..], s);
      assert (a + ([0 as char] + s))[1..] == a[1..] + ([0 as char] + s);
    }
  }

  /** The bindings that a statement is meant to have. */
  function Meant(params: seq<Binding>): (given: seq<Binding>)
    ensures |given| == |params|
    ensures forall i :: 0 <= i < |params| ==> given[i] == (params[i].0, CString(params[i].1))
  {
    seq(|params|, i requires 0 <= i < |params| => (params[i].0, CString(params[i].1)))
  }

  function Columns(params: seq<Binding>): (items: seq<Item>)
    ensures |items| == |params|
  {
    seq(|params|, i requires 0 <= i < |params| => Column(params[i].0))
  }

  function Places(params: seq<Binding>): (items: seq<Item>)
    ensures |items| == |params|
  {
    seq(|params|, i requires 0 <= i < |params| => Place(1 + i))
  }

  /** `column = ?k` items, numbered from `first` on. */
  function Conditions(params: seq<Binding>, first: nat): (items: seq<Item>)
    ensures |items| == |params| && AllEquals(items)
  {
    seq(|params|, i requires 0 <= i < |params| => Equals(params[i].0, first + i))
  }

  /** Parameter `first + i` is bound to value `i`. */
  ghost predicate BoundFrom(b: Bindings, params: seq<Binding>, first: nat) {
    forall k: nat :: first <= k < first + |params| ==> k in b && b[k] == CString(params[k - first].1)
  }

  predicate PlainNames(params: seq<Binding>) {
    forall i :: 0 <= i < |params| ==> IsPlainName(params[i].0)
  }

  // ----- Texts -----

  /** What a loop over the items appends. */
  function Listed(items: seq<Item>, separator: Separator, end: string): string {
    if items == [] then "" else ListText(items, separator) + end
  }

  function InsertText(name: string, params: seq<Binding>): string {
    "INSERT INTO "
    + (name + ("(" + (Listed(Columns(params), Comma, ") VALUES(") + Listed(Places(params), Comma, ");"))))
  }

  function ConditionsText(keyword: string, params: seq<Binding>, separator: Separator, end: string, first: nat): string
  {
    if params == [] then "" else keyword + (ListText(Conditions(params, first), separator) + end)
  }

  function WhereText(keyword: string, params: seq<Binding>, first: nat): string {
    ConditionsText(keyword, params, And, ";", first)
  }

  function UpdateText(name: string, sets: seq<Binding>, wheres: seq<Binding>): string {
    "UPDATE " + (name + (" SET " + (ListText(Conditions(sets, 1), Comma) + WhereText(" WHERE ", wheres, |sets| + 1))))
  }

  function DeleteText(name: string, wheres: seq<Binding>): string {
    "DELETE FROM " + (name + (" " + WhereText("WHERE ", wheres, 1)))
  }

  function SelectText(name: string, wheres: seq<Binding>): string {
    "SELECT * FROM " + (name + (" " + WhereText("WHERE ", wheres, 1)))
  }

  // ----- The texts, written out -----

  lemma TwoItems(x: Item, y: Item, separator: Separator)
    ensures ListText([x], separator) == ItemText(x)
    ensures ListText([x, y], separator) == ItemText(x) + (SeparatorText(separator) + ItemText(y))
  {
    assert [x, y][1..] == [y];
  }

  lemma FirstConditions(name: string)
    ensures ItemText(Equals(name, 1)) == name + "= ?1" && ItemText(Equals(name, 2)) == name + "= ?2"
  {
    assert Decimal(1) == "1" && Decimal(2) == "2";
    assert ['='] + ([' '] + ParamText(1)) == "= ?1" && ['='] + ([' '] + ParamText(2)) == "= ?2";
  }

  /** An insert of two columns. */
  lemma InsertWritten(name: string, a: Binding, b: Binding)
    ensures InsertText(name, [a, b]) == "INSERT INTO " + name + "(" + a.0 + "," + b.0 + ") VALUES(?1,?2);"
  {
    assert Columns([a, b]) == [Column(a.0), Column(b.0)] && Places([a, b]) == [Place(1), Place(2)];
    TwoItems(Column(a.0), Column(b.0), Comma);
    TwoItems(Place(1), Place(2), Comma);
    assert Decimal(1) == "1" && Decimal(2) == "2";
    assert ParamText(1) + ("," + ParamText(2)) + ");" == "?1,?2);";
    InsertPieces("INSERT INTO ", name, a.0, b.0, ") VALUES(", "?1,?2);");
    assert ") VALUES(" + "?1,?2);" == ") VALUES(?1,?2);";
  }

  lemma InsertPieces(head: string, name: string, a: string, b: string, middle: string, places: string)
    ensures head + (name + ("(" + (a + ("," + b) + middle + places)))
            == head + name + "(" + a + "," + b + (middle + places)
  {
    Assoc(a, ",", b);
    Assoc(a + "," + b, middle, places);
    Assoc(head, name, "(" + (a + "," + b + (middle + places)));
    Assoc(head + name, "(", a + "," + b + (middle + places));
    Assoc(head + name + "(", a + "," + b, middle + places);
    Assoc(head + name + "(", a + ",", b);
    Assoc(head + name + "(", a, ",");
  }

  lemma FourPieces(a: string, b: string, c: string, d: string)
    ensures a + (b + (c + d)) == a + b + c + d
  {
    Assoc(a, b, c + d);
    Assoc(a + b, c, d);
  }

  /** An update of one column under one condition. */
  lemma UpdateWritten(name: string, a: Binding, b: Binding)
    ensures UpdateText(name, [a], [b])
            == "UPDATE " + name + " SET " + (a.0 + "= ?1") + (" WHERE " + (b.0 + "= ?2" + ";"))
  {
    assert Conditions([a], 1) == [Equals(a.0, 1)] && Conditions([b], 2) == [Equals(b.0, 2)];
    TwoItems(Equals(a.0, 1), Equals(a.0, 1), Comma);
    TwoItems(Equals(b.0, 2), Equals(b.0, 2), And);
    FirstConditions(a.0);
    FirstConditions(b.0);
    var sets, wheres := a.0 + "= ?1", " WHERE " + (b.0 + "= ?2" + ";");
    FourPieces("UPDATE ", name, " SET ", sets + wheres);
    Assoc("UPDATE " + name + " SET ", sets, wheres);
  }

  /** Deletes and selects under two conditions or one, and the select of everything. */
  lemma WheresWritten(name: string, a: Binding, b: Binding)
    ensures DeleteText(name, [a, b])
            == "DELETE FROM " + (name + (" " + ("WHERE " + (a.0 + "= ?1" + (" AND " + (b.0 + "= ?2")) + ";"))))
    ensures SelectText(name, [a]) == "SELECT * FROM " + (name + (" " + ("WHERE " + (a.0 + "= ?1" + ";"))))
    ensures SelectText(name, []) == "SELECT * FROM " + (name + (" " + ""))
  {
    assert Conditions([a, b], 1) == [Equals(a.0, 1), Equals(b.0, 2)] && Conditions([a], 1) == [Equals(a.0, 1)];
    TwoItems(Equals(a.0, 1), Equals(b.0, 2), And);
    FirstConditions(a.0);
    FirstConditions(b.0);
  }

  // ----- What the texts parse to -----

  lemma LexKeyword(w: string, s: string)
    requires IsIdentifier(w)
    ensures Lex(w + ([' '] + s)) == [Word(w)] + Lex(s)
  {
    LexWord(w, [' '] + s);
    LexSpace(s);
  }

  lemma LexTwoKeywords(v: string, w: string, s: string)
    requires IsIdentifier(v) && IsIdentifier(w)
    ensures Lex(v + ([' '] + (w + ([' '] + s)))) == [Word(v), Word(w)] + Lex(s)
  {
    LexKeyword(v, w + ([' '] + s));
    LexKeyword(w, s);
    Assoc([Word(v)], [Word(w)], Lex(s));
  }

  /** Two words of a statement's head, with a space behind each. */
  lemma SplitHead(head: string, v: string, w: string, s: string)
    requires head == v + ([' '] + (w + [' ']))
    ensures head + s == v + ([' '] + (w + ([' '] + s)))
  {
    Assoc(v, [' '] + (w + [' ']), s);
    Assoc([' '], w + [' '], s);
    Assoc(w, [' '], s);
  }

  lemma LexInsertHead(name: string, s: string)
    requires IsPlainName(name)
    ensures Lex("INSERT INTO " + (name + ("(" + s)))
            == [Word("INSERT"), Word("INTO"), Word(name), Punct('(')] + Lex(s)
  {
    SplitHead("INSERT INTO ", "INSERT", "INTO", name + ("(" + s));
    LexTwoKeywords("INSERT", "INTO", name + ("(" + s));
    LexNameOpen(name, s);
    Assoc([Word("INSERT"), Word("INTO")], [Word(name), Punct('(')], Lex(s));
  }

  lemma LexNameOpen(name: string, s: string)
    requires IsPlainName(name)
    ensures Lex(name + ("(" + s)) == [Word(name), Punct('(')] + Lex(s)
  {
    LexWord(name, "(" + s);
    LexPunct('(', s);
  }

  lemma LexValuesHead(s: string)
    ensures Lex(") VALUES(" + s) == [Punct(')'), Word("VALUES"), Punct('(')] + Lex(s)
  {
    ValuesHead(s);
    ValuesIsIdentifier();
    LexBetween(')', "VALUES", '(', s);
  }

  lemma LexBetween(c: char, w: string, d: char, s: string)
    requires IsPunct(c) && IsIdentifier(w) && IsPunct(d)
    ensures Lex([c] + ([' '] + (w + ([d] + s)))) == [Punct(c), Word(w), Punct(d)] + Lex(s)
  {
    LexPunct(c, [' '] + (w + ([d] + s)));
    LexSpace(w + ([d] + s));
    LexWord(w, [d] + s);
    LexPunct(d, s);
    FirstTwo(Word(w), Punct(d), Lex(s));
    Assoc([Punct(c)], [Word(w), Punct(d)], Lex(s));
  }

  lemma ValuesIsIdentifier()
    ensures IsIdentifier("VALUES")
  {
  }

  lemma ValuesHead(s: string)
    ensures ") VALUES(" + s == [')'] + ([' '] + ("VALUES" + (['('] + s)))
  {
    assert ") VALUES(" == [')'] + ([' '] + ("VALUES" + ['(']));
    Assoc([')'], [' '] + ("VALUES" + ['(']), s);
    Assoc([' '], "VALUES" + ['('], s);
    Assoc("VALUES", ['('], s);
  }

  lemma LexInsertEnd()
    ensures Lex(");") == [Punct(')'), Punct(';')]
  {
    assert ");" == [')'] + ([';'] + "");
    LexPunct(')', [';'] + "");
    LexPunct(';', "");
  }

  lemma ParseInsert(table: string, columns: seq<Item>, values: seq<Item>)
    requires columns != [] && |columns| == |values| && IsPlainName(table)
    requires AllColumns(columns) && AllPlain(columns) && AllPlaces(values)
    ensures Parse([Word("INSERT"), Word("INTO"), Word(table), Punct('(')]
                  + (ListTokens(columns, Comma) + ([Punct(')'), Word("VALUES"), Punct('(')]
                     + (ListTokens(values, Comma) + [Punct(')'), Punct(';')]))))
            == Some(Insert(table, columns, values))
  {
    var end := [Punct(')'), Punct(';')];
    var middle := [Punct(')'), Word("VALUES"), Punct('(')] + (ListTokens(values, Comma) + end);
    var head := [Word("INSERT"), Word("INTO"), Word(table), Punct('(')];
    ListRead(columns, Comma, middle);
    ListRead(values, Comma, end);
    assert middle[3..] == ListTokens(values, Comma) + end;
    assert (head + (ListTokens(columns, Comma) + middle))[4..] == ListTokens(columns, Comma) + middle;
    assert end[1..] == [Punct(';')];
  }

  /** An insert text means the insertion of its columns with parameters 1 to n. */
  lemma InsertTextParses(name: string, params: seq<Binding>)
    requires IsPlainName(name) && params != [] && PlainNames(params)
    ensures Parse(Lex(InsertText(name, params))) == Some(Insert(name, Columns(params), Places(params)))
  {
    var columns, places := ListText(Columns(params), Comma), ListText(Places(params), Comma);
    Assoc(columns, ") VALUES(", places + ");");
    LexInsertHead(name, columns + (") VALUES(" + (places + ");")));
    LexList(Columns(params), Comma, ") VALUES(" + (places + ");"));
    LexValuesHead(places + ");");
    LexList(Places(params), Comma, ");");
    LexInsertEnd();
    ParseInsert(name, Columns(params), Places(params));
  }

  lemma LexWhere(params: seq<Binding>, first: nat)
    requires params != [] && PlainNames(params)
    ensures Lex(WhereText("WHERE ", params, first))
            == [Word("WHERE")] + (ListTokens(Conditions(params, first), And) + [Punct(';')])
  {
    var text := ListText(Conditions(params, first), And) + ";";
    assert "WHERE " == "WHERE" + [' '];
    Assoc("WHERE", [' '], text);
    LexKeyword("WHERE", text);
    LexList(Conditions(params, first), And, ";");
    LexPunct(';', "");
    assert [';'] + "" == ";";
  }

  lemma WheresRead(params: seq<Binding>, first: nat)
    requires PlainNames(params)
    ensures WheresAt(Lex(WhereText("WHERE ", params, first))) == Some(Conditions(params, first))
  {
    if params == [] {
      assert Conditions(params, first) == [];
    } else {
      LexWhere(params, first);
      var items := Conditions(params, first);
      var ts := [Word("WHERE")] + (ListTokens(items, And) + [Punct(';')]);
      assert ts[1..] == ListTokens(items, And) + [Punct(';')];
      ListRead(items, And, [Punct(';')]);
    }
  }

  lemma LexDeleteHead(name: string, s: string)
    requires IsPlainName(name)
    ensures Lex("DELETE FROM " + (name + (" " + s))) == [Word("DELETE"), Word("FROM"), Word(name)] + Lex(s)
  {
    SplitHead("DELETE FROM ", "DELETE", "FROM", name + (" " + s));
    LexTwoKeywords("DELETE", "FROM", name + (" " + s));
    LexKeyword(name, s);
    Assoc([Word("DELETE"), Word("FROM")], [Word(name)], Lex(s));
  }

  lemma ParseDelete(name: string, ts: seq<Token>, wheres: seq<Item>)
    requires IsPlainName(name) && WheresAt(ts) == Some(wheres)
    ensures Parse([Word("DELETE"), Word("FROM"), Word(name)] + ts) == Some(Delete(name, wheres))
  {
    assert ([Word("DELETE"), Word("FROM"), Word(name)] + ts)[3..] == ts;
  }

  lemma DeleteTextParses(name: string, wheres: seq<Binding>)
    requires IsPlainName(name) && PlainNames(wheres)
    ensures Parse(Lex(DeleteText(name, wheres))) == Some(Delete(name, Conditions(wheres, 1)))
  {
    var rest := WhereText("WHERE ", wheres, 1);
    LexDeleteHead(name, rest);
    WheresRead(wheres, 1);
    ParseDelete(name, Lex(rest), Conditions(wheres, 1));
  }

  lemma LexSelectHead(name: string, s: string)
    requires IsPlainName(name)
    ensures Lex("SELECT * FROM " + (name + (" " + s)))
            == [Word("SELECT"), Punct('*'), Word("FROM"), Word(name)] + Lex(s)
  {
    var tail := name + (" " + s);
    SelectHeadText();
    Assoc("SELECT * ", "FROM ", tail);
    LexSelectStar("FROM " + tail);
    LexFrom(name, s);
    Assoc([Word("SELECT"), Punct('*')], [Word("FROM"), Word(name)], Lex(s));
  }

  lemma SelectHeadText()
    ensures "SELECT * FROM " == "SELECT * " + "FROM "
  {
  }

  lemma LexFrom(name: string, s: string)
    requires IsPlainName(name)
    ensures Lex("FROM " + (name + (" " + s))) == [Word("FROM"), Word(name)] + Lex(s)
  {
    assert "FROM " == "FROM" + [' '];
    Assoc("FROM", [' '], name + (" " + s));
    LexTwoKeywords("FROM", name, s);
  }

  lemma LexSelectStar(s: string)
    ensures Lex("SELECT * " + s) == [Word("SELECT"), Punct('*')] + Lex(s)
  {
    SplitHead("SELECT * ", "SELECT", "*", s);
    LexKeyword("SELECT", "*" + ([' '] + s));
    LexPunct('*', [' '] + s);
    LexSpace(s);
  }

  lemma ParseSelect(name: string, ts: seq<Token>, wheres: seq<Item>)
    requires IsPlainName(name) && WheresAt(ts) == Some(wheres)
    ensures Parse([Word("SELECT"), Punct('*'), Word("FROM"), Word(name)] + ts) == Some(Select(name, wheres))
  {
    assert ([Word("SELECT"), Punct('*'), Word("FROM"), Word(name)] + ts)[4..] == ts;
  }

  lemma SelectTextParses(name: string, wheres: seq<Binding>)
    requires IsPlainName(name) && PlainNames(wheres)
    ensures Parse(Lex(SelectText(name, wheres))) == Some(Select(name, Conditions(wheres, 1)))
  {
    var rest := WhereText("WHERE ", wheres, 1);
    LexSelectHead(name, rest);
    WheresRead(wheres, 1);
    ParseSelect(name, Lex(rest), Conditions(wheres, 1));
  }

  /** The keyword of a where clause behind a SET list has a space in front. */
  lemma SpacedWhere(params: seq<Binding>, first: nat)
    ensures Lex(WhereText(" WHERE ", params, first)) == Lex(WhereText("WHERE ", params, first))
  {
    if params != [] {
      var text := ListText(Conditions(params, first), And) + ";";
      assert " WHERE " == [' '] + "WHERE ";
      Assoc([' '], "WHERE ", text);
      LexSpace("WHERE " + text);
    }
  }

  lemma WhereEndsWord(params: seq<Binding>, first: nat)
    ensures EndsWord(WhereText(" WHERE ", params, first))
  {
  }

  lemma LexUpdateHead(name: string, s: string)
    requires IsPlainName(name)
    ensures Lex("UPDATE " + (name + (" SET " + s))) == [Word("UPDATE"), Word(name), Word("SET")] + Lex(s)
  {
    var tail := name + (" SET " + s);
    assert "UPDATE " == "UPDATE" + [' '];
    Assoc("UPDATE", [' '], tail);
    LexKeyword("UPDATE", tail);
    LexSet(name, s);
    Assoc([Word("UPDATE")], [Word(name), Word("SET")], Lex(s));
  }

  lemma LexSet(name: string, s: string)
    requires IsPlainName(name)
    ensures Lex(name + (" SET " + s)) == [Word(name), Word("SET")] + Lex(s)
  {
    assert " SET " == [' '] + ("SET" + [' ']);
    Assoc([' '], "SET" + [' '], s);
    Assoc("SET", [' '], s);
    LexTwoKeywords(name, "SET", s);
  }

  lemma ParseUpdate(name: string, sets: seq<Item>, ts: seq<Token>, wheres: seq<Item>)
    requires IsPlainName(name) && sets != [] && AllEquals(sets) && AllPlain(sets) && WheresAt(ts) == Some(wheres)
    ensures Parse([Word("UPDATE"), Word(name), Word("SET")] + (ListTokens(sets, Comma) + ts))
            == Some(Update(name, sets, wheres))
  {
    ListRead(sets, Comma, ts);
    var body := ListTokens(sets, Comma) + ts;
    assert ([Word("UPDATE"), Word(name), Word("SET")] + body)[3..] == body;
  }

  lemma LexMaybeList(items: seq<Item>, separator: Separator, s: string)
    requires AllPlain(items) && EndsWord(s)
    ensures Lex(ListText(items, separator) + s) == ListTokens(items, separator) + Lex(s)
  {
    if items == [] {
      assert "" + s == s;
    } else {
      LexList(items, separator, s);
    }
  }

  lemma LexUpdate(name: string, sets: seq<Binding>, wheres: seq<Binding>)
    requires IsPlainName(name) && PlainNames(sets)
    ensures Lex(UpdateText(name, sets, wheres))
            == [Word("UPDATE"), Word(name), Word("SET")]
               + (ListTokens(Conditions(sets, 1), Comma) + Lex(WhereText(" WHERE ", wheres, |sets| + 1)))
  {
    var items, rest := Conditions(sets, 1), WhereText(" WHERE ", wheres, |sets| + 1);
    LexUpdateHead(name, ListText(items, Comma) + rest);
    WhereEndsWord(wheres, |sets| + 1);
    LexMaybeList(items, Comma, rest);
  }

  /** An update text means the assignments with parameters 1 to n under the conditions with parameters
      n + 1 to n + m. */
  lemma UpdateTextParses(name: string, sets: seq<Binding>, wheres: seq<Binding>)
    requires IsPlainName(name) && sets != [] && PlainNames(sets) && PlainNames(wheres)
    ensures Parse(Lex(UpdateText(name, sets, wheres)))
            == Some(Update(name, Conditions(sets, 1), Conditions(wheres, |sets| + 1)))
  {
    LexUpdate(name, sets, wheres);
    SpacedWhere(wheres, |sets| + 1);
    WheresRead(wheres, |sets| + 1);
    ParseUpdate(name, Conditions(sets, 1), Lex(WhereText(" WHERE ", wheres, |sets| + 1)),
                Conditions(wheres, |sets| + 1));
  }

  // ----- Preserved meaning -----

  lemma ResolveConditions(params: seq<Binding>, first: nat, b: Bindings)
    requires BoundFrom(b, params, first)
    ensures AllBound(Conditions(params, first), b)
    ensures Resolve(Conditions(params, first), b) == Meant(params)
  {
  }

  lemma ResolveInsertion(params: seq<Binding>, b: Bindings)
    requires BoundFrom(b, params, 1)
    ensures AllBound(Places(params), b)
    ensures ResolveInsert(Columns(params), Places(params), b) == Meant(params)
  {
  }

  /** Without a column there is no statement, so nothing happens. */
  lemma EmptyInsertFails(name: string, b: Bindings, t: Table)
    requires ValidTable(t) && IsPlainName(name)
    ensures Execute(InsertText(name, []), b, t) == Failed
  {
    LexInsertHead(name, "");
    assert "" + "" == "";
    assert ([Word("INSERT"), Word("INTO"), Word(name), Punct('(')] + [])[4..] == [];
  }

  lemma EmptyUpdateFails(name: string, wheres: seq<Binding>, b: Bindings, t: Table)
    requires ValidTable(t) && IsPlainName(name) && PlainNames(wheres)
    ensures Execute(UpdateText(name, [], wheres), b, t) == Failed
  {
    EmptyUpdateDoesNotParse(name, wheres);
    UnparsedFails(UpdateText(name, [], wheres), b, t);
  }

  lemma UnparsedFails(q: string, b: Bindings, t: Table)
    requires ValidTable(t) && Parse(Lex(q)).None?
    ensures Execute(q, b, t) == Failed
  {
  }

  lemma EmptyUpdateDoesNotParse(name: string, wheres: seq<Binding>)
    requires IsPlainName(name) && PlainNames(wheres)
    ensures Parse(Lex(UpdateText(name, [], wheres))).None?
  {
    var sets: seq<Binding> := [];
    LexUpdate(name, sets, wheres);
    WhereIsNoItem(wheres, |sets| + 1);
    NoSets(name, UpdateText(name, sets, wheres), ListTokens(Conditions(sets, 1), Comma),
           Lex(WhereText(" WHERE ", wheres, |sets| + 1)));
  }

  lemma NoSets(name: string, q: string, sets: seq<Token>, rest: seq<Token>)
    requires Lex(q) == [Word("UPDATE"), Word(name), Word("SET")] + (sets + rest)
    requires sets == [] && ItemAt(rest).None?
    ensures Parse(Lex(q)).None?
  {
    assert sets + rest == rest;
    ParseNoSets(name, rest);
  }

  lemma WhereIsNoItem(wheres: seq<Binding>, first: nat)
    requires PlainNames(wheres)
    ensures ItemAt(Lex(WhereText(" WHERE ", wheres, first))).None?
  {
    SpacedWhere(wheres, first);
    if wheres != [] {
      LexWhere(wheres, first);
    }
  }

  lemma ParseNoSets(name: string, ts: seq<Token>)
    requires ItemAt(ts).None?
    ensures Parse([Word("UPDATE"), Word(name), Word("SET")] + ts).None?
  {
    assert ([Word("UPDATE"), Word(name), Word("SET")] + ts)[3..] == ts;
  }

  /** An operation on a table: without a table of that name the statement cannot be prepared. */
  function Within(t: Table, name: string, outcome: Outcome): Outcome {
    if name == t.name then outcome else Failed
  }

  lemma ParsedIsEvaluated(q: string, s: Statement, b: Bindings, t: Table)
    requires ValidTable(t) && Parse(Lex(q)) == Some(s)
    ensures Execute(q, b, t) == Eval(s, b, t)
  {
  }

  lemma InsertIsEvaluated(name: string, params: seq<Binding>, b: Bindings, t: Table)
    requires ValidTable(t) && BoundFrom(b, params, 1)
    ensures Eval(Insert(name, Columns(params), Places(params)), b, t) == Within(t, name, InsertRow(t, Meant(params)))
  {
    ResolveInsertion(params, b);
  }

  lemma EmptyRowFails(t: Table)
    requires ValidTable(t)
    ensures InsertRow(t, Meant([])) == Failed
  {
  }

  /** Running the insert text under its bindings is the relational insert of the values meant. */
  lemma InsertMeans(name: string, params: seq<Binding>, b: Bindings, t: Table)
    requires ValidTable(t) && IsPlainName(name) && PlainNames(params) && BoundFrom(b, params, 1)
    ensures Execute(InsertText(name, params), b, t) == Within(t, name, InsertRow(t, Meant(params)))
  {
    if params == [] {
      EmptyInsertFails(name, b, t);
      EmptyRowFails(t);
    } else {
      InsertTextParses(name, params);
      ParsedIsEvaluated(InsertText(name, params), Insert(name, Columns(params), Places(params)), b, t);
      InsertIsEvaluated(name, params, b, t);
    }
  }

  /** Running the update text is the relational update: every assignment and every condition gets its
      own value. */
  lemma UpdateMeans(name: string, sets: seq<Binding>, wheres: seq<Binding>, b: Bindings, t: Table)
    requires ValidTable(t) && IsPlainName(name) && PlainNames(sets) && PlainNames(wheres)
    requires BoundFrom(b, sets, 1) && BoundFrom(b, wheres, |sets| + 1)
    ensures Execute(UpdateText(name, sets, wheres), b, t)
            == if sets == [] then Failed else Within(t, name, UpdateRows(t, Meant(sets), Meant(wheres)))
  {
    if sets == [] {
      EmptyUpdateFails(name, wheres, b, t);
    } else {
      UpdateTextParses(name, sets, wheres);
      ParsedIsEvaluated(UpdateText(name, sets, wheres),
                        Update(name, Conditions(sets, 1), Conditions(wheres, |sets| + 1)), b, t);
      ResolveConditions(sets, 1, b);
      ResolveConditions(wheres, |sets| + 1, b);
    }
  }

  lemma DeleteMeans(name: string, wheres: seq<Binding>, b: Bindings, t: Table)
    requires ValidTable(t) && IsPlainName(name) && PlainNames(wheres) && BoundFrom(b, wheres, 1)
    ensures Execute(DeleteText(name, wheres), b, t) == Within(t, name, DeleteRows(t, Meant(wheres)))
  {
    DeleteTextParses(name, wheres);
    ParsedIsEvaluated(DeleteText(name, wheres), Delete(name, Conditions(wheres, 1)), b, t);
    ResolveConditions(wheres, 1, b);
  }

  lemma SelectMeans(name: string, wheres: seq<Binding>, b: Bindings, t: Table)
    requires ValidTable(t) && IsPlainName(name) && PlainNames(wheres) && BoundFrom(b, wheres, 1)
    ensures Execute(SelectText(name, wheres), b, t) == Within(t, name, SelectRows(t, Meant(wheres)))
  {
    SelectTextParses(name, wheres);
    ParsedIsEvaluated(SelectText(name, wheres), Select(name, Conditions(wheres, 1)), b, t);
    ResolveConditions(wheres, 1, b);
  }

  // ----- Tables stay valid -----

  lemma {:induction false} FilteredHas(t: Table, rows: seq<Row>, wheres: seq<Binding>, wanted: bool, row: Row)
    requires KnownColumns(t, wheres) && forall i :: 0 <= i < |rows| ==> |rows[i]| == |t.columns|
    ensures row in Filtered(t, rows, wheres, wanted) <==>
              row in rows && |row| == |t.columns| && Satisfies(t, row, wheres) == wanted
  {
    if rows != [] {
      FilteredHas(t, rows[1..], wheres, wanted, row);
      assert rows == [rows[0]] + rows[1..];
    }
  }

  lemma {:induction false} FilteredIsUnique(t: Table, rows: seq<Row>, wheres: seq<Binding>, wanted: bool)
    requires KnownColumns(t, wheres) && forall i :: 0 <= i < |rows| ==> |rows[i]| == |t.columns|
    requires UniqueKeys(rows)
    ensures UniqueKeys(Filtered(t, rows, wheres, wanted))
  {
    if rows != [] {
      var first, others := rows[0], rows[1..];
      FilteredIsUnique(t, others, wheres, wanted);
      var r := Filtered(t, others, wheres, wanted);
      forall i | 0 <= i < |r| ensures Key(r[i]) != Key(first) {
        FilteredHas(t, others, wheres, wanted, r[i]);
        var k :| 0 <= k < |others| && others[k] == r[i];
        assert rows[k + 1] == r[i];
      }
      UniqueCons(first, r);
    }
  }

  lemma UniqueCons(row: Row, rows: seq<Row>)
    requires UniqueKeys(rows) && forall i :: 0 <= i < |rows| ==> Key(rows[i]) != Key(row)
    ensures UniqueKeys([row] + rows) && UniqueKeys([] + rows)
  {
    assert [] + rows == rows;
  }

  /** Every operation leaves a valid table: full rows with distinct keys. */
  lemma OutcomesAreValid(t: Table, sets: seq<Binding>, wheres: seq<Binding>)
    requires ValidTable(t)
    ensures InsertRow(t, sets).Done? ==> ValidTable(InsertRow(t, sets).table)
    ensures UpdateRows(t, sets, wheres).Done? ==> ValidTable(UpdateRows(t, sets, wheres).table)
    ensures DeleteRows(t, wheres).Done? ==> ValidTable(DeleteRows(t, wheres).table)
    ensures SelectRows(t, wheres).Done? ==> SelectRows(t, wheres).table == t
  {
    if KnownColumns(t, wheres) {
      FilteredIsUnique(t, t.rows, wheres, false);
      var kept := Filtered(t, t.rows, wheres, false);
      forall i | 0 <= i < |kept| ensures |kept[i]| == |t.columns| {
        FilteredHas(t, t.rows, wheres, false, kept[i]);
      }
    }
  }

  // ----- The builders -----

  class SqlDatabase {
    var table: Table

    constructor (name: string, columns: seq<string>)
      requires columns != [] && DistinctStrings(columns)
      ensures table == Table(name, columns, []) && ValidTable(table)
    {
      table := Table(name, columns, []);
    }

    /** sqlite3_prepare_v2 and sqlite3_step. */
    method Step(q: string, b: Bindings) returns (outcome: Outcome)
      requires ValidTable(table)
      modifies this
      ensures outcome == Execute(q, b, old(table))
      ensures table == Applied(old(table), outcome)
    {
      outcome := Execute(q, b, table);
      table := Applied(table, outcome);
    }

    method InsertRecord(name: string, params: seq<Binding>) returns (ok: bool)
      requires ValidTable(table)
      modifies this
      ensures IsPlainName(name) && PlainNames(params) ==>
                var outcome := Within(old(table), name, InsertRow(old(table), Meant(params)));
                ok == outcome.Done? && table == Applied(old(table), outcome)
    {
      var q := "INSERT INTO " + name + "(";
      q := AppendColumns(q, params, ") VALUES(");
      q := AppendPlaces(q, params, ");");
      assert q == InsertText(name, params) by {
        InsertTextParts(name, Listed(Columns(params), Comma, ") VALUES("), Listed(Places(params), Comma, ");"));
      }
      var b, _ := BindAll(map[], params, 1);
      if IsPlainName(name) && PlainNames(params) {
        InsertMeans(name, params, b, table);
      }
      var outcome := Step(q, b);
      ok := outcome.Done?;
    }

    method UpdateRecord(name: string, sets: seq<Binding>, wheres: seq<Binding>) returns (ok: bool)
      requires ValidTable(table)
      modifies this
      ensures IsPlainName(name) && PlainNames(sets) && PlainNames(wheres) ==>
                var outcome := Within(old(table), name, UpdateRows(old(table), Meant(sets), Meant(wheres)));
                if sets == [] then !ok && table == old(table)
                else ok == outcome.Done? && table == Applied(old(table), outcome)
    {
      var q, b := BuildUpdate(name, sets, wheres);
      if IsPlainName(name) && PlainNames(sets) && PlainNames(wheres) {
        UpdateMeans(name, sets, wheres, b, table);
      }
      var outcome := Step(q, b);
      ok := outcome.Done?;
    }

    method DeleteRecord(name: string, wheres: seq<Binding>) returns (ok: bool)
      requires ValidTable(table)
      modifies this
      ensures IsPlainName(name) && PlainNames(wheres) ==>
                var outcome := Within(old(table), name, DeleteRows(old(table), Meant(wheres)));
                ok == outcome.Done? && table == Applied(old(table), outcome)
    {
      var q, _ := AppendConditions("DELETE FROM " + name + " ", "WHERE ", wheres, And, ";", 1);
      var b, _ := BindAll(map[], wheres, 1);
      if IsPlainName(name) && PlainNames(wheres) {
        TextParts("DELETE FROM ", name, WhereText("WHERE ", wheres, 1));
        DeleteMeans(name, wheres, b, table);
      }
      var outcome := Step(q, b);
      ok := outcome.Done?;
    }

    /** A failed step returns no rows. */
    method SelectRecord(name: string, wheres: seq<Binding>) returns (rows: seq<Row>)
      requires ValidTable(table)
      modifies this
      ensures IsPlainName(name) && PlainNames(wheres) ==>
                rows == Returned(Within(old(table), name, SelectRows(old(table), Meant(wheres)))) && table == old(table)
    {
      var q, _ := AppendConditions("SELECT * FROM " + name + " ", "WHERE ", wheres, And, ";", 1);
      var b, _ := BindAll(map[], wheres, 1);
      if IsPlainName(name) && PlainNames(wheres) {
        TextParts("SELECT * FROM ", name, WhereText("WHERE ", wheres, 1));
        SelectMeans(name, wheres, b, table);
      }
      var outcome := Step(q, b);
      rows := Returned(outcome);
    }
  }

  /** The text and the bindings of an update; both count their parameters through assignments and
      conditions. */
  method BuildUpdate(name: string, sets: seq<Binding>, wheres: seq<Binding>) returns (q: string, b: Bindings)
    ensures q == UpdateText(name, sets, wheres)
    ensures BoundFrom(b, sets, 1) && BoundFrom(b, wheres, |sets| + 1)
  {
    q := "UPDATE " + name + " SET ";
    var bindParam := 1;
    q, bindParam := AppendConditions(q, "", sets, Comma, "", bindParam);
    q, bindParam := AppendConditions(q, " WHERE ", wheres, And, ";", bindParam);
    SetText(sets);
    UpdateTextParts(name, ListText(Conditions(sets, 1), Comma), WhereText(" WHERE ", wheres, |sets| + 1));
    bindParam := 1;
    b, bindParam := BindAll(map[], sets, bindParam);
    b, bindParam := BindAll(b, wheres, bindParam);
  }

  lemma SetText(sets: seq<Binding>)
    ensures ConditionsText("", sets, Comma, "", 1) == ListText(Conditions(sets, 1), Comma)
  {
    var text := ListText(Conditions(sets, 1), Comma);
    assert text + "" == text && "" + text == text;
  }

  lemma InsertTextParts(name: string, columns: string, places: string)
    ensures "INSERT INTO " + name + "(" + columns + places == "INSERT INTO " + (name + ("(" + (columns + places)))
  {
    Assoc("INSERT INTO " + name + "(", columns, places);
    Assoc("INSERT INTO " + name, "(", columns + places);
    Assoc("INSERT INTO ", name, "(" + (columns + places));
  }

  lemma UpdateTextParts(name: string, sets: string, wheres: string)
    ensures "UPDATE " + name + " SET " + sets + wheres == "UPDATE " + (name + (" SET " + (sets + wheres)))
  {
    Assoc("UPDATE " + name + " SET ", sets, wheres);
    Assoc("UPDATE " + name, " SET ", sets + wheres);
    Assoc("UPDATE ", name, " SET " + (sets + wheres));
  }

  lemma TextParts(head: string, name: string, wheres: string)
    ensures head + name + " " + wheres == head + (name + (" " + wheres))
  {
    Assoc(head + name, " ", wheres);
    Assoc(head, name, " " + wheres);
  }

  lemma {:induction false} ListTextSnoc(items: seq<Item>, last: Item, separator: Separator)
    requires items != []
    ensures ListText(items + [last], separator)
            == ListText(items, separator) + SeparatorText(separator) + ItemText(last)
  {
    var all := items + [last];
    assert all[1..] == items[1..] + [last];
    var sep := SeparatorText(separator);
    if |items| == 1 {
      assert all[1..] == [last];
      Assoc(ItemText(items[0]), sep, ItemText(last));
    } else {
      ListTextSnoc(items[1..], last, separator);
      var tail := ListText(items[1..], separator);
      Assoc(tail, sep, ItemText(last));
      Assoc(sep, tail, sep + ItemText(last));
      Assoc(ItemText(items[0]), sep + tail, sep + ItemText(last));
      Assoc(ListText(items, separator), sep, ItemText(last));
    }
  }

  /** What a builder's loop has written after `n` items. */
  function Written(items: seq<Item>, n: nat, separator: Separator, end: string): string
    requires n <= |items|
  {
    if n == 0 then ""
    else if n < |items| then ListText(items[..n], separator) + SeparatorText(separator)
    else ListText(items, separator) + end
  }

  lemma WrittenNext(items: seq<Item>, i: nat, separator: Separator, end: string)
    requires i < |items|
    ensures Written(items, i + 1, separator, end)
            == Written(items, i, separator, end)
               + (ItemText(items[i]) + (if i + 1 < |items| then SeparatorText(separator) else end))
  {
    var text, sep := ItemText(items[i]), SeparatorText(separator);
    assert items[..i + 1] == items[..i] + [items[i]] && items[..|items|] == items;
    if i == 0 {
      assert items[..1] == [items[0]] && ListText([items[0]], separator) == text;
    } else {
      ListTextSnoc(items[..i], items[i], separator);
      Assoc(ListText(items[..i], separator) + sep, text, if i + 1 < |items| then sep else end);
    }
  }

  /** One iteration of a builder's loop: an item, and the separator or the end behind it. */
  method AppendItem(before: string, text: string, i: nat, count: nat, separator: Separator, end: string,
                    ghost start: string, ghost items: seq<Item>)
    returns (q: string)
    requires i < count == |items| && text == ItemText(items[i])
    requires before == start + Written(items, i, separator, end)
    ensures q == start + Written(items, i + 1, separator, end)
  {
    q := before + text;
    ghost var written := Written(items, i, separator, end);
    WrittenNext(items, i, separator, end);
    Assoc(start, written, text);
    if i != count - 1 {
      AppendBehind(start, written, text, SeparatorText(separator));
      q := q + SeparatorText(separator);
    } else {
      AppendBehind(start, written, text, end);
      q := q + end;
    }
  }

  lemma AppendBehind(start: string, written: string, text: string, behind: string)
    ensures start + written + text + behind == start + (written + (text + behind))
  {
    Assoc(start + written, text, behind);
    Assoc(start, written, text + behind);
  }

  method AppendColumns(start: string, params: seq<Binding>, end: string) returns (q: string)
    ensures q == start + Listed(Columns(params), Comma, end)
  {
    q := start;
    ghost var items := Columns(params);
    NothingBehind(start);
    for i := 0 to |params|
      invariant q == start + Written(items, i, Comma, end)
    {
      q := AppendItem(q, params[i].0, i, |params|, Comma, end, start, items);
    }
  }

  method AppendPlaces(start: string, params: seq<Binding>, end: string) returns (q: string)
    ensures q == start + Listed(Places(params), Comma, end)
  {
    q := start;
    ghost var items := Places(params);
    NothingBehind(start);
    for i := 0 to |params|
      invariant q == start + Written(items, i, Comma, end)
    {
      var bindParam := i + 1;
      var place := "?" + Decimal(bindParam);
      q := AppendItem(q, place, i, |params|, Comma, end, start, items);
    }
  }

  /** The loop over conditions or assignments, with its running parameter number. The first iteration writes
      the keyword. */
  method AppendConditions(start: string, keyword: string, params: seq<Binding>, separator: Separator, end: string,
                          first: nat)
    returns (q: string, bindParam: nat)
    ensures q == start + ConditionsText(keyword, params, separator, end, first)
    ensures bindParam == first + |params|
  {
    q, bindParam := start, first;
    ghost var items, keyed := Conditions(params, first), start + keyword;
    NothingBehind(start);
    NothingBehind(keyed);
    for i := 0 to |params|
      invariant bindParam == first + i
      invariant if i == 0 then q == start else q == keyed + Written(items, i, separator, end)
    {
      if i == 0 {
        q := q + keyword;
      }
      var condition := Condition(params[i].0, bindParam);
      q := AppendItem(q, condition, i, |params|, separator, end, keyed, items);
      bindParam := bindParam + 1;
    }
    if params != [] {
      Assoc(start, keyword, ListText(items, separator) + end);
    }
  }

  method Condition(name: string, number: nat) returns (text: string)
    ensures text == ItemText(Equals(name, number))
  {
    text := name + "= ?" + Decimal(number);
    ConditionText(name, number);
  }

  lemma ConditionText(name: string, number: nat)
    ensures name + "= ?" + Decimal(number) == ItemText(Equals(name, number))
  {
    var digits := Decimal(number);
    assert "= ?" == ['='] + ([' '] + ['?']);
    Assoc(name, "= ?", digits);
    Assoc(['='], [' '] + ['?'], digits);
    Assoc([' '], ['?'], digits);
  }

  /** The sqlite3_bind_text loop, with its running parameter number. */
  method BindAll(before: Bindings, params: seq<Binding>, first: nat) returns (b: Bindings, bindParam: nat)
    ensures BoundFrom(b, params, first) && bindParam == first + |params|
    ensures forall k :: k in before && k < first ==> k in b && b[k] == before[k]
  {
    b, bindParam := before, first;
    for i := 0 to |params|
      invariant bindParam == first + i && BoundFrom(b, params[..i], first)
      invariant forall k :: k in before && k < first ==> k in b && b[k] == before[k]
    {
      b := b[bindParam := CString(params[i].1)];
      bindParam := bindParam + 1;
    }
    assert params[..|params|] == params;
  }
}
