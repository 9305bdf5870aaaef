/** src/meme_handler.cc: what the requests answer and how they change the table, through the statement
    builders. Every sequence of requests is a run of MemeStore. */
module MemeHandler {
  import opened Wrappers
  import opened Numbers
  import opened FormBody
  import opened Json
  import opened Sequences
  import opened SqlText
  import opened SqlManager
  import opened MemeStore
  import opened MemeListing

  const TABLE_NAME: string := "meme_table"
  const COLUMNS: seq<string> := ["id", "img_path", "top_caption", "bot_caption", "times_viewed"]

  /** `Exception` leaves the handler; it is the form decoder's. */
  datatype Answer = Exception | Response(status: int, body: string)

  // ----- Answers -----

  /** An answer with a JSON object, which a client reads back. */
  ghost predicate Tells(answer: Answer, status: int, members: seq<Member>) {
    answer == Response(status, ObjectText(members)) && ReadObject(answer.body) == Some(members)
  }

  ghost predicate HasStatus(answer: Answer, status: int) {
    answer.Response? && answer.status == status
  }

  lemma IdPieces(id: string)
    ensures "{\"id\": \"" + id + "\"}" == ObjectText([("id", id)])
  {
    var start := Quoted("id") + (": " + "\"");
    MemberPieces(start, "id", id, "}");
    assert "{" + start == "{\"id\": \"" && "\"" + "}" == "\"}";
    Assoc("{", start, id);
    Assoc("{", start + id, "\"}");
  }

  method IdAnswer(status: int, id: string) returns (answer: Answer)
    requires CheckId(id)
    ensures Tells(answer, status, [("id", id)])
  {
    IdIsField(id);
    ObjectRoundTrip([("id", id)]);
    var text := "{\"id\": \"" + id + "\"}";
    IdPieces(id);
    answer := Response(status, text);
  }

  /** One member of the text of a meme. */
  method AppendMember(before: string, start: string, value: string, end: string,
                      ghost name: string, ghost tail: string) returns (text: string)
    requires start == Quoted(name) + (": " + "\"") && end == "\"" + tail
    ensures text == before + (MemberText((name, value)) + tail)
  {
    MemberPieces(start, name, value, tail);
    text := before + (start + value + end);
  }

  lemma MemePieces(a: string, b: string, c: string)
    ensures "{" + (a + ", ") + (b + ", ") + (c + "") + "}" == "{" + (a + (", " + (b + (", " + (c + "}")))))
  {
    assert c + "" == c;
    Assoc("{" + (a + ", ") + (b + ", "), c, "}");
    Assoc("{" + (a + ", "), b + ", ", c + "}");
    Assoc("{", a + ", ", b + ", " + (c + "}"));
    Assoc(b, ", ", c + "}");
    Assoc(a, ", ", b + (", " + (c + "}")));
  }

  lemma ThreeMembers(a: Member, b: Member, c: Member)
    ensures MembersText([a, b, c]) == MemberText(a) + (", " + (MemberText(b) + (", " + (MemberText(c) + "}"))))
  {
    assert [a, b, c][1..] == [b, c] && [b, c][1..] == [c];
    assert MembersText([b, c]) == MemberText(b) + (", " + MembersText([c]));
  }

  method MemeText(template: string, top: string, bottom: string) returns (output: string)
    ensures output == ObjectText([("memeSelect", template), ("topCaption", top), ("bottomCaption", bottom)])
  {
    output := "{";
    output := AppendMember(output, "\"memeSelect\": \"", template, "\", ", "memeSelect", ", ");
    output := AppendMember(output, "\"topCaption\": \"", top, "\", ", "topCaption", ", ");
    output := AppendMember(output, "\"bottomCaption\": \"", bottom, "\"", "bottomCaption", "");
    output := output + "}";
    ghost var a, b, c := ("memeSelect", template), ("topCaption", top), ("bottomCaption", bottom);
    MemePieces(MemberText(a), MemberText(b), MemberText(c));
    ThreeMembers(a, b, c);
  }

  lemma MemeIsRead(row: Row)
    requires RowOk(row)
    ensures var members := [("memeSelect", row[1]), ("topCaption", row[2]), ("bottomCaption", row[3])];
            ReadObject(ObjectText(members)) == Some(members)
  {
    FieldsArePlain(row);
    MemberNamesArePlain();
    ThreeAreRead(("memeSelect", row[1]), ("topCaption", row[2]), ("bottomCaption", row[3]));
  }

  lemma MemberNamesArePlain()
    ensures AllUnescaped("memeSelect") && AllUnescaped("topCaption") && AllUnescaped("bottomCaption")
  {
  }

  lemma ThreeAreRead(a: Member, b: Member, c: Member)
    requires MemberUnescaped(a) && MemberUnescaped(b) && MemberUnescaped(c)
    ensures ReadObject(ObjectText([a, b, c])) == Some([a, b, c])
  {
    ObjectRoundTrip([a, b, c]);
  }

  method MemeAnswer(row: Row) returns (answer: Answer)
    requires RowOk(row)
    ensures Tells(answer, 200, [("memeSelect", row[1]), ("topCaption", row[2]), ("bottomCaption", row[3])])
  {
    MemeIsRead(row);
    var output := MemeText(row[1], row[2], row[3]);
    answer := Response(200, output);
  }

  // ----- Names -----

  lemma LowerCaseIsPlain(w: string)
    requires w != "" && forall k :: 0 <= k < |w| ==> 'a' <= w[k] <= 'z' || w[k] == '_'
    ensures IsPlainName(w)
  {
    forall keyword | keyword in KEYWORDS ensures w != keyword {
      assert 'A' <= keyword[0] <= 'Z';
    }
  }

  lemma NamesArePlain()
    ensures IsPlainName(TABLE_NAME)
    ensures forall i :: 0 <= i < 5 ==> IsPlainName(COLUMNS[i])
    ensures |COLUMNS| == 5 && DistinctStrings(COLUMNS)
  {
    LowerCaseIsPlain(TABLE_NAME);
    LowerCaseIsPlain("id");
    LowerCaseIsPlain("img_path");
    LowerCaseIsPlain("top_caption");
    LowerCaseIsPlain("bot_caption");
    LowerCaseIsPlain("times_viewed");
    assert |"id"| == 2 && |"img_path"| == 8 && |"times_viewed"| == 12;
    assert "top_caption"[0] == 't' && "bot_caption"[0] == 'b';
  }

  // ----- Values survive being bound -----

  lemma IdIsBound(id: string)
    requires CheckId(id)
    ensures CString(id) == id
  {
    CStringCut(id, "");
  }

  lemma ValueIsBound(s: string)
    requires IsValue(s)
    ensures CString(s) == s
  {
    CStringCut(s, "");
  }

  lemma DecimalIsBound(n: nat)
    ensures CString(Decimal(n)) == Decimal(n)
  {
    CStringCut(Decimal(n), "");
  }

  // ----- The relational operations on tables with a key column -----

  lemma {:induction false} ValueAt(given: seq<Binding>, i: nat)
    requires i < |given| && forall j :: i < j < |given| ==> given[j].0 != given[i].0
    ensures ValueFor(given[i].0, given) == Some(given[i].1)
  {
    if i < |given| - 1 {
      ValueAt(given[..|given| - 1], i);
    }
  }

  lemma {:induction false} NoValue(given: seq<Binding>, column: string)
    requires forall i :: 0 <= i < |given| ==> given[i].0 != column
    ensures ValueFor(column, given) == None
  {
    if given != [] {
      NoValue(given[..|given| - 1], column);
    }
  }

  /** Inserting a value for every column adds them as a row, unless the key exists. */
  lemma InsertFullRow(t: Table, given: seq<Binding>, row: Row)
    requires ValidTable(t) && |given| == |row| == |t.columns|
    requires forall i :: 0 <= i < |row| ==> given[i] == (t.columns[i], row[i])
    ensures InsertRow(t, given) == if HasKey(t.rows, Key(row)) then Failed else Done(t.(rows := t.rows + [row]), [])
  {
    forall i | 0 <= i < |row| ensures ValueFor(t.columns[i], given) == Some(row[i]) {
      ValueAt(given, i);
    }
    var inserted := seq(|t.columns|, i requires 0 <= i < |t.columns| => ValueFor(t.columns[i], given).value);
    assert inserted == row;
  }

  lemma KeyCondition(t: Table, row: Row, key: string)
    requires ValidTable(t) && |row| == |t.columns|
    ensures Satisfies(t, row, [(t.columns[0], key)]) <==> Key(row) == key
  {
    var wheres := [(t.columns[0], key)];
    assert wheres[0] == (t.columns[0], key);
    assert Position(t.columns, t.columns[0]) == 0;
  }

  /** Updating other columns under a key changes exactly the row with that key, and cannot fail. */
  lemma UpdateByKey(t: Table, sets: seq<Binding>, key: string, rows: seq<Row>)
    requires ValidTable(t) && KnownColumns(t, sets) && forall i :: 0 <= i < |sets| ==> sets[i].0 != t.columns[0]
    requires |rows| == |t.rows|
    requires forall i :: 0 <= i < |rows| ==>
               rows[i] == if Key(t.rows[i]) == key then Assigned(t, t.rows[i], sets) else t.rows[i]
    ensures UpdateRows(t, sets, [(t.columns[0], key)]) == Done(t.(rows := rows), [])
  {
    var wheres := [(t.columns[0], key)];
    NoValue(sets, t.columns[0]);
    var updated := seq(|t.rows|, i requires 0 <= i < |t.rows| =>
      if Satisfies(t, t.rows[i], wheres) then Assigned(t, t.rows[i], sets) else t.rows[i]);
    forall i | 0 <= i < |rows| ensures updated[i] == rows[i] && Key(rows[i]) == Key(t.rows[i]) {
      KeyCondition(t, t.rows[i], key);
    }
    assert updated == rows;
  }

  lemma {:induction false} DeleteByKey(t: Table, rows: seq<Row>, key: string)
    requires ValidTable(t) && forall i :: 0 <= i < |rows| ==> |rows[i]| == |t.columns|
    ensures Filtered(t, rows, [(t.columns[0], key)], false) == Without(rows, key)
  {
    if rows != [] {
      KeyCondition(t, rows[0], key);
      DeleteByKey(t, rows[1..], key);
    }
  }

  lemma NoKey(rows: seq<Row>, key: string)
    requires !HasKey(rows, key)
    ensures Find(rows, key) == None
  {
    FindIsHasKey(rows, key);
  }

  /** Selecting by key gives the row that is found under it, and nothing else. */
  lemma {:induction false} SelectByKey(t: Table, rows: seq<Row>, key: string)
    requires ValidTable(t) && UniqueKeys(rows) && forall i :: 0 <= i < |rows| ==> |rows[i]| == |t.columns|
    ensures Filtered(t, rows, [(t.columns[0], key)], true)
            == match Find(rows, key) case None => [] case Some(row) => [row]
  {
    if rows != [] {
      KeyCondition(t, rows[0], key);
      SelectByKey(t, rows[1..], key);
      if Key(rows[0]) == key {
        NoKey(rows[1..], key);
      }
    }
  }

  lemma {:induction false} SelectAll(t: Table, rows: seq<Row>)
    requires forall i :: 0 <= i < |rows| ==> |rows[i]| == |t.columns|
    ensures Filtered(t, rows, [], true) == rows
  {
    if rows != [] {
      SelectAll(t, rows[1..]);
    }
  }

  // ----- The meme table -----

  ghost predicate IsMemeTable(t: Table) {
    t.name == TABLE_NAME && t.columns == COLUMNS && StoreOk(t.rows)
  }

  lemma MemeTableIsValid(t: Table)
    requires IsMemeTable(t)
    ensures ValidTable(t) && |t.columns| == 5
  {
    NamesArePlain();
  }

  lemma AssignedCaptions(t: Table, row: Row, p: Checked)
    requires |row| == |t.columns| == 5 && DistinctStrings(t.columns) && p.Params?
    ensures Assigned(t, row, [(t.columns[1], p.template), (t.columns[2], p.top), (t.columns[3], p.bottom)])
            == Edited(row, p)
  {
    var sets := [(t.columns[1], p.template), (t.columns[2], p.top), (t.columns[3], p.bottom)];
    ValueAt(sets, 0);
    ValueAt(sets, 1);
    ValueAt(sets, 2);
    NoValue(sets, t.columns[0]);
    NoValue(sets, t.columns[4]);
  }

  lemma AssignedViews(t: Table, row: Row, views: string)
    requires |row| == |t.columns| == 5 && DistinctStrings(t.columns)
    ensures Assigned(t, row, [(t.columns[4], views)]) == row[4 := views]
  {
    var sets := [(t.columns[4], views)];
    ValueAt(sets, 0);
    forall i | 0 <= i < 4 ensures ValueFor(t.columns[i], sets) == None {
      NoValue(sets, t.columns[i]);
    }
  }

  function RowParams(uuid: string, p: Checked): seq<Binding>
    requires p.Params?
  {
    [(COLUMNS[0], uuid), (COLUMNS[1], p.template), (COLUMNS[2], p.top), (COLUMNS[3], p.bottom), (COLUMNS[4], "0")]
  }

  function CaptionParams(p: Checked): seq<Binding>
    requires p.Params?
  {
    [(COLUMNS[1], p.template), (COLUMNS[2], p.top), (COLUMNS[3], p.bottom)]
  }

  function ViewParams(views: string): seq<Binding> {
    [(COLUMNS[4], views)]
  }

  function KeyParams(id: string): seq<Binding> {
    [(COLUMNS[0], id)]
  }

  lemma ParamsArePlain(uuid: string, p: Checked, views: string, id: string)
    requires p.Params?
    ensures PlainNames(RowParams(uuid, p)) && PlainNames(CaptionParams(p))
    ensures PlainNames(ViewParams(views)) && PlainNames(KeyParams(id)) && IsPlainName(TABLE_NAME)
  {
    NamesArePlain();
  }

  lemma ViewParamsArePlain(views: string, id: string)
    ensures PlainNames(ViewParams(views)) && PlainNames(KeyParams(id)) && IsPlainName(TABLE_NAME)
  {
    NamesArePlain();
  }

  lemma MeantAsGiven(params: seq<Binding>)
    requires forall i :: 0 <= i < |params| ==> CString(params[i].1) == params[i].1
    ensures Meant(params) == params
  {
  }

  /** The insert of a new meme adds its row, unless the drawn identifier is taken. */
  lemma InsertIsAdd(t: Table, uuid: string, p: Checked)
    requires IsMemeTable(t) && ValidTable(t) && CheckId(uuid) && p.Params? && CheckedOk(p)
    ensures InsertRow(t, Meant(RowParams(uuid, p)))
            == if HasKey(t.rows, uuid) then Failed else Done(t.(rows := AddRow(t.rows, uuid, p)), [])
  {
    IdIsBound(uuid);
    ValueIsBound(p.template);
    ValueIsBound(p.top);
    ValueIsBound(p.bottom);
    CStringCut("0", "");
    InsertFullRow(t, Meant(RowParams(uuid, p)), NewRow(uuid, p));
  }

  /** The update of the captions is the edit, also where no row has the identifier. */
  lemma UpdateIsEdit(t: Table, id: string, p: Checked)
    requires IsMemeTable(t) && ValidTable(t) && CheckId(id) && p.Params? && CheckedOk(p)
    ensures UpdateRows(t, Meant(CaptionParams(p)), Meant(KeyParams(id)))
            == Done(t.(rows := EditRows(t.rows, id, p)), [])
  {
    IdIsBound(id);
    ValueIsBound(p.template);
    ValueIsBound(p.top);
    ValueIsBound(p.bottom);
    MeantAsGiven(CaptionParams(p));
    MeantAsGiven(KeyParams(id));
    UpdateGivenIsEdit(t, id, p);
  }

  lemma UpdateGivenIsEdit(t: Table, id: string, p: Checked)
    requires IsMemeTable(t) && ValidTable(t) && CheckId(id) && p.Params?
    ensures UpdateRows(t, CaptionParams(p), KeyParams(id)) == Done(t.(rows := EditRows(t.rows, id, p)), [])
  {
    forall i | 0 <= i < |t.rows| ensures Assigned(t, t.rows[i], CaptionParams(p)) == Edited(t.rows[i], p) {
      AssignedCaptions(t, t.rows[i], p);
    }
    UpdateByKey(t, CaptionParams(p), id, EditRows(t.rows, id, p));
  }

  lemma EditOfNothing(rows: seq<Row>, id: string, p: Checked)
    requires StoreOk(rows) && !(p.Params? && CheckId(id))
    ensures EditRows(rows, id, p) == rows
  {
  }

  lemma DeleteIsRemove(t: Table, id: string)
    requires IsMemeTable(t) && ValidTable(t) && CheckId(id)
    ensures DeleteRows(t, Meant(KeyParams(id))) == Done(t.(rows := Without(t.rows, id)), [])
  {
    IdIsBound(id);
    assert Meant(KeyParams(id)) == KeyParams(id);
    DeleteByKey(t, t.rows, id);
  }

  /** The select by identifier finds the row of the text before the first NUL. */
  lemma SelectIsFind(t: Table, id: string)
    requires IsMemeTable(t) && ValidTable(t)
    ensures Returned(SelectRows(t, Meant(KeyParams(id))))
            == match Find(t.rows, CString(id)) case None => [] case Some(row) => [row]
  {
    assert Meant(KeyParams(id)) == KeyParams(CString(id));
    SelectByKey(t, t.rows, CString(id));
  }

  lemma SelectIsAll(t: Table)
    requires IsMemeTable(t) && ValidTable(t)
    ensures Returned(SelectRows(t, Meant([]))) == t.rows
  {
    assert Meant([]) == [];
    SelectAll(t, t.rows);
  }

  /** Writing back the incremented counter of a selected row is the view. */
  lemma UpdateIsView(t: Table, key: string, row: Row)
    requires IsMemeTable(t) && ValidTable(t) && Find(t.rows, key) == Some(row) && RowOk(row) && row[0] == key
    ensures UpdateRows(t, Meant(ViewParams(Decimal(Count(row) + 1))), Meant(KeyParams(key)))
            == Done(t.(rows := ViewRows(t.rows, key)), [])
  {
    IdIsBound(key);
    DecimalIsBound(Count(row) + 1);
    MeantAsGiven(ViewParams(Decimal(Count(row) + 1)));
    MeantAsGiven(KeyParams(key));
    UpdateGivenIsView(t, key, row);
  }

  lemma UpdateGivenIsView(t: Table, key: string, row: Row)
    requires IsMemeTable(t) && ValidTable(t) && Find(t.rows, key) == Some(row) && RowOk(row)
    ensures UpdateRows(t, ViewParams(Decimal(Count(row) + 1)), KeyParams(key))
            == Done(t.(rows := ViewRows(t.rows, key)), [])
  {
    var views := Decimal(Count(row) + 1);
    forall i | 0 <= i < |t.rows| && Key(t.rows[i]) == key
      ensures Assigned(t, t.rows[i], ViewParams(views)) == Viewed(t.rows[i])
    {
      FindIsTheRow(t.rows, i);
      AssignedViews(t, t.rows[i], views);
    }
    UpdateByKey(t, ViewParams(views), key, ViewRows(t.rows, key));
  }

  lemma ViewOfNothing(rows: seq<Row>, key: string)
    requires StoreOk(rows) && Find(rows, key) == None
    ensures ViewRows(rows, key) == rows
  {
    FindIsHasKey(rows, key);
  }

  // ----- Requests -----

  class MemeHandler {
    const database: SqlDatabase
    /** The requests so far. */
    ghost var history: seq<Event>

    ghost predicate Valid()
      reads this, database
    {
      IsMemeTable(database.table) && Run(history) == Some(database.table.rows)
    }

    constructor ()
      ensures Valid() && fresh(database) && history == []
    {
      NamesArePlain();
      database := new SqlDatabase(TABLE_NAME, COLUMNS);
      history := [];
    }

    /** POST: 400 for a body that is not accepted, 500 if the drawn identifier is taken, else 201. */
    method CreateMeme(body: string, uuid: string) returns (answer: Answer)
      requires Valid() && CheckId(uuid)
      modifies this, database
      ensures Valid() && history == old(history) + [Create(body, uuid)]
      ensures CheckBody(body).Thrown? ==> answer == Exception
      ensures CheckBody(body).Rejected? ==> HasStatus(answer, 400)
      ensures CheckBody(body).Params? ==>
                if HasKey(old(database.table.rows), uuid) then HasStatus(answer, 500)
                else Tells(answer, 201, [("id", uuid)])
    {
      RunNext(history, Create(body, uuid));
      history := history + [Create(body, uuid)];
      var params := BodyCheck(body);
      if params.Thrown? {
        return Exception;
      }
      if params.Rejected? {
        return Response(400, "The provided meme creation request is invalid!\n");
      }
      MemeTableIsValid(database.table);
      CheckedBodyIsOk(body);
      ParamsArePlain(uuid, params, "", "");
      InsertIsAdd(database.table, uuid, params);
      var created := database.InsertRecord(TABLE_NAME, RowParams(uuid, params));
      if created {
        answer := IdAnswer(201, uuid);
      } else {
        answer := Response(500, "An error occurred while trying to create the provided meme!\n");
      }
    }

    /** PUT: 400 for an identifier or a body that is not accepted, else 200, also if there is no such meme. */
    method UpdateMeme(body: string, id: string) returns (answer: Answer)
      requires Valid()
      modifies this, database
      ensures Valid() && history == old(history) + [Event.Update(id, body)]
      ensures CheckBody(body).Thrown? ==> answer == Exception
      ensures !CheckBody(body).Thrown? ==>
                if CheckId(id) && CheckBody(body).Params? then Tells(answer, 200, [("id", id)])
                else HasStatus(answer, 400)
    {
      RunNext(history, Event.Update(id, body));
      history := history + [Event.Update(id, body)];
      var test := CheckId(id);
      var params := BodyCheck(body);
      if !(test && params.Params?) {
        EditOfNothing(database.table.rows, id, params);
      }
      if params.Thrown? {
        return Exception;
      }
      if !(test && params.Params?) {
        return Response(400, "The provided meme update request is invalid!\n");
      }
      MemeTableIsValid(database.table);
      CheckedBodyIsOk(body);
      ParamsArePlain("", params, "", id);
      UpdateIsEdit(database.table, id, params);
      var updated := database.UpdateRecord(TABLE_NAME, CaptionParams(params), KeyParams(id));
      if updated {
        answer := IdAnswer(200, id);
      } else {
        answer := Response(500, "An error occurred while trying to update the provided meme!\n");
      }
    }

    /** DELETE: 400 for an identifier that is not accepted, else 200, also if there is no such meme. */
    method DeleteMeme(id: string) returns (answer: Answer)
      requires Valid()
      modifies this, database
      ensures Valid() && history == old(history) + [Remove(id)]
      ensures if CheckId(id) then Tells(answer, 200, [("id", id)]) else HasStatus(answer, 400)
    {
      RunNext(history, Remove(id));
      history := history + [Remove(id)];
      if !CheckId(id) {
        return Response(400, "The provided meme delete request is invalid!\n");
      }
      MemeTableIsValid(database.table);
      ViewParamsArePlain("", id);
      DeleteIsRemove(database.table, id);
      var deleted := database.DeleteRecord(TABLE_NAME, KeyParams(id));
      if deleted {
        answer := IdAnswer(200, id);
      } else {
        answer := Response(500, "An error occurred while trying to delete the provided meme!\n");
      }
    }

    /** Writes back the counter of a row that has been selected. */
    method CountView(row: Row, ghost key: string)
      requires IsMemeTable(database.table) && Find(database.table.rows, key) == Some(row)
      requires RowOk(row) && row[0] == key && Count(row) < INT_MAX
      modifies database
      ensures database.table == old(database.table).(rows := ViewRows(old(database.table.rows), key))
    {
      MemeTableIsValid(database.table);
      ViewParamsArePlain(Decimal(Count(row) + 1), key);
      UpdateIsView(database.table, key, row);
      var views := Stoi(row[4]).value;
      var updated := database.UpdateRecord(TABLE_NAME, ViewParams(Decimal(views + 1)), KeyParams(row[0]));
    }

    method SelectById(id: string) returns (result: seq<Row>)
      requires IsMemeTable(database.table)
      modifies database
      ensures database.table == old(database.table)
      ensures result == match Find(database.table.rows, CString(id)) case None => [] case Some(row) => [row]
    {
      MemeTableIsValid(database.table);
      NamesArePlain();
      SelectIsFind(database.table, id);
      result := database.SelectRecord(TABLE_NAME, KeyParams(id));
    }

    /** GET of one meme: 404 if there is none, else 200 with its captions, after counting the view. No
        meme is ever found corrupted. */
    method GetMemeById(id: string) returns (answer: Answer)
      requires Valid() && BelowLimit(database.table.rows, CString(id))
      modifies this, database
      ensures Valid() && history == old(history) + [View(id)]
      ensures match Find(old(database.table.rows), CString(id))
              case None => HasStatus(answer, 404)
              case Some(row) =>
                && |row| == 5
                && Tells(answer, 200, [("memeSelect", row[1]), ("topCaption", row[2]), ("bottomCaption", row[3])])
      ensures forall template, top, bottom :: Holds(old(history), CString(id), template, top, bottom) ==>
                Tells(answer, 200, [("memeSelect", template), ("topCaption", top), ("bottomCaption", bottom)])
    {
      ghost var rows, key := database.table.rows, CString(id);
      RunNext(history, View(id));
      history := history + [View(id)];
      FindIsHasKey(rows, key);
      var result := SelectById(id);
      if |result| != 1 {
        ViewOfNothing(rows, key);
        return Response(404, "The requested file could not be found!\n");
      }
      var row := result[0];
      ViewKeepsStoreOk(rows, key);
      CountView(row, key);
      if row[1] == "" || row[2] == "" || row[3] == "" {
        return Response(400, "The provided meme has been corrupted!");
      }
      answer := MemeAnswer(row);
    }

    /** GET of the list: from its text, a client gets back the whole table, most viewed memes first. */
    method MemeList() returns (answer: Answer)
      requires Valid()
      modifies database
      ensures Valid() && database.table == old(database.table)
      ensures answer == Response(200, ListingText(MostViewedFirst(database.table.rows)))
      ensures ClientRows(answer.body) == Some(MostViewedFirst(database.table.rows))
      ensures ByCounter(MostViewedFirst(database.table.rows), database.table.rows)
      ensures MostViewsFirst(history, MostViewedFirst(database.table.rows))
    {
      MemeTableIsValid(database.table);
      NamesArePlain();
      SelectIsAll(database.table);
      var result := database.SelectRecord(TABLE_NAME, []);
      var output := BuildList(result);
      ReachableListingRoundTrip(history);
      return Response(200, output);
    }
  }
}
