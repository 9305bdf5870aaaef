/** The JSON listing of src/meme_handler.cc: its order, and what a client reads back from its text. */
module MemeListing {
  import opened Wrappers
  import opened Sequences
  import opened Numbers
  import opened FormBody
  import opened Json
  import opened MemeStore
  import opened SqlManager
  import opened StableSorting

  // ----- Order: a stable ascending sort, read backwards -----

  /** The key of compareMemes; std::stoi would throw where it is not a number. */
  function Views(row: Row): int {
    if |row| == 5 && Stoi(row[4]).Some? then Stoi(row[4]).value else 0
  }

  /** The order in which memes are listed. */
  function MostViewedFirst(rows: seq<Row>): (r: seq<Row>)
    ensures |r| == |rows|
  {
    Reversed(StableSort(Views, rows))
  }

  /** The rows of `rows` by the number in their last field, which does not increase; rows with the same number
      stand in the reverse of their order in `rows`. */
  ghost predicate ByCounter(listed: seq<Row>, rows: seq<Row>) {
    && multiset(listed) == multiset(rows)
    && (forall i, j :: 0 <= i < j < |listed| && HaveCounters(listed[i], listed[j]) ==>
          Stoi(listed[i][4]).value >= Stoi(listed[j][4]).value)
    && (forall i, j :: 0 <= i < j < |listed| && HaveCounters(listed[i], listed[j])
                       && Stoi(listed[i][4]).value == Stoi(listed[j][4]).value ==>
          exists p, q :: 0 <= q < p < |rows| && rows[p] == listed[i] && rows[q] == listed[j])
  }

  /** The source's sort throws where the last field is no number. */
  predicate HaveCounters(a: Row, b: Row) {
    |a| == |b| == 5 && Stoi(a[4]).Some? && Stoi(b[4]).Some?
  }

  lemma CountersHave(a: Row, b: Row)
    requires RowOk(a) && RowOk(b)
    ensures HaveCounters(a, b) && Stoi(a[4]).value == Count(a) && Stoi(b[4]).value == Count(b)
  {
  }

  lemma ListingOrder(rows: seq<Row>)
    ensures ByCounter(MostViewedFirst(rows), rows)
  {
    ReversedSort(Views, rows);
    var listed := MostViewedFirst(rows);
    forall i, j | 0 <= i < j < |listed| && HaveCounters(listed[i], listed[j])
      && Stoi(listed[i][4]).value == Stoi(listed[j][4]).value
      ensures exists p, q :: 0 <= q < p < |rows| && rows[p] == listed[i] && rows[q] == listed[j]
    {
      assert Views(listed[i]) == Views(listed[j]);
      var p, q := TiesReversed(Views, rows, listed, i, j);
    }
  }

  predicate AllOk(rows: seq<Row>) {
    forall i :: 0 <= i < |rows| ==> RowOk(rows[i])
  }

  lemma ListedIsOk(rows: seq<Row>)
    requires AllOk(rows)
    ensures AllOk(MostViewedFirst(rows))
  {
    ListingOrder(rows);
    forall i | 0 <= i < |rows| ensures RowOk(MostViewedFirst(rows)[i]) {
      assert MostViewedFirst(rows)[i] in multiset(MostViewedFirst(rows));
      assert MostViewedFirst(rows)[i] in rows;
    }
  }

  // ----- Entries -----

  /** Identifier, views, image and captions, separated by colons. */
  function Entry(row: Row): string {
    if |row| == 5 then row[0] + (":" + (row[4] + (":" + (row[1] + (":" + (row[2] + (":" + row[3]))))))) else ""
  }

  function EntryList(rows: seq<Row>): (r: seq<string>)
    ensures |r| == |rows| && forall i :: 0 <= i < |rows| ==> r[i] == Entry(rows[i])
  {
    seq(|rows|, i requires 0 <= i < |rows| => Entry(rows[i]))
  }

  function ListingText(rows: seq<Row>): string {
    ArrayText(EntryList(rows))
  }

  function ColonRun(s: string): (n: nat)
    ensures n <= |s|
  {
    if s != "" && s[0] != ':' then 1 + ColonRun(s[1..]) else 0
  }

  /** JavaScript's split(":"). */
  function Split(s: string): seq<string>
    decreases |s|
  {
    var n := ColonRun(s);
    if n == |s| then [s] else [s[..n]] + Split(s[n + 1..])
  }

  /** A row in table order from the parts of an entry: identifier, views, image and captions. */
  function RowOf(parts: seq<string>): Row {
    if |parts| == 5 then [parts[0], parts[2], parts[3], parts[4], parts[1]] else []
  }

  function ClientRows(text: string): Option<seq<Row>> {
    match ReadArray(text)
    case None => None
    case Some(items) => Some(RowsOf(items))
  }

  function RowsOf(items: seq<string>): (r: seq<Row>)
    ensures |r| == |items| && forall i :: 0 <= i < |items| ==> r[i] == RowOf(Split(items[i]))
  {
    seq(|items|, i requires 0 <= i < |items| => RowOf(Split(items[i])))
  }

  // ----- Round trip -----

  ghost predicate IsField(s: string) {
    AllUnescaped(s) && forall k :: 0 <= k < |s| ==> s[k] != ':'
  }

  lemma IdIsField(id: string)
    requires CheckId(id)
    ensures IsField(id)
  {
  }

  lemma ValueIsField(s: string)
    requires IsValue(s)
    ensures IsField(s)
  {
  }

  lemma CountIsField(s: string)
    requires IsCount(s)
    ensures IsField(s)
  {
  }

  /** Nothing that gets into the table needs escaping or contains the separator. */
  lemma FieldsArePlain(row: Row)
    requires RowOk(row)
    ensures IsField(row[0]) && IsField(row[1]) && IsField(row[2]) && IsField(row[3]) && IsField(row[4])
  {
    IdIsField(row[0]);
    ValueIsField(row[1]);
    ValueIsField(row[2]);
    ValueIsField(row[3]);
    CountIsField(row[4]);
  }

  lemma {:induction false} ColonRunOf(field: string, s: string)
    requires IsField(field) && (s == "" || s[0] == ':')
    ensures ColonRun(field + s) == |field|
  {
    if field == "" {
      assert field + s == s;
    } else {
      assert (field + s)[0] == field[0] && (field + s)[1..] == field[1..] + s;
      ColonRunOf(field[1..], s);
    }
  }

  lemma SplitField(field: string, s: string)
    requires IsField(field)
    ensures Split(field + (":" + s)) == [field] + Split(s)
  {
    ColonRunOf(field, ":" + s);
    var t := field + (":" + s);
    assert t[..|field|] == field && t[|field| + 1..] == s;
  }

  lemma SplitLast(field: string)
    requires IsField(field)
    ensures Split(field) == [field]
  {
    ColonRunOf(field, "");
    assert field + "" == field;
  }

  lemma SplitTwo(a: string, b: string, s: string, parts: seq<string>)
    requires IsField(a) && IsField(b) && Split(s) == parts
    ensures Split(a + (":" + (b + (":" + s)))) == [a, b] + parts
  {
    SplitField(b, s);
    SplitField(a, b + (":" + s));
    FirstTwo(a, b, parts);
  }

  lemma SplitFields(a: string, b: string, c: string, d: string, e: string)
    requires IsField(a) && IsField(b) && IsField(c) && IsField(d) && IsField(e)
    ensures Split(a + (":" + (b + (":" + (c + (":" + (d + (":" + e)))))))) == [a, b, c, d, e]
  {
    SplitLast(e);
    SplitTwo(c, d, e, [e]);
    var rest := c + (":" + (d + (":" + e)));
    SplitTwo(a, b, rest, [c, d] + [e]);
  }

  lemma SplitEntry(row: Row)
    requires RowOk(row)
    ensures RowOf(Split(Entry(row))) == row
  {
    FieldsArePlain(row);
    SplitFields(row[0], row[4], row[1], row[2], row[3]);
    assert [row[0], row[1], row[2], row[3], row[4]] == row;
  }

  lemma UnescapedConcat(a: string, b: string)
    requires AllUnescaped(a) && AllUnescaped(b)
    ensures AllUnescaped(a + (":" + b))
  {
  }

  lemma EntryIsUnescaped(row: Row)
    requires RowOk(row)
    ensures AllUnescaped(Entry(row))
  {
    FieldsArePlain(row);
    UnescapedConcat(row[2], row[3]);
    UnescapedConcat(row[1], row[2] + (":" + row[3]));
    UnescapedConcat(row[4], row[1] + (":" + (row[2] + (":" + row[3]))));
    UnescapedConcat(row[0], row[4] + (":" + (row[1] + (":" + (row[2] + (":" + row[3]))))));
  }

  /** A client that reads the array and splits its strings gets exactly the rows that were listed. */
  lemma ListTextRoundTrip(rows: seq<Row>)
    requires AllOk(rows)
    ensures ClientRows(ListingText(rows)) == Some(rows)
  {
    var entries := EntryList(rows);
    forall i | 0 <= i < |rows| ensures AllUnescaped(entries[i]) && RowsOf(entries)[i] == rows[i] {
      EntryIsUnescaped(rows[i]);
      SplitEntry(rows[i]);
    }
    ArrayRoundTrip(entries);
    assert RowsOf(entries) == rows;
  }

  /** What the strings of the array are, and where their parts stand. */
  lemma EntriesRead(rows: seq<Row>)
    requires AllOk(rows)
    ensures ReadArray(ListingText(rows)).Some? && |ReadArray(ListingText(rows)).value| == |rows|
    ensures forall i :: 0 <= i < |rows| ==>
              var entry, row := ReadArray(ListingText(rows)).value[i], rows[i];
              && entry == row[0] + ":" + row[4] + ":" + row[1] + ":" + row[2] + ":" + row[3]
              && Split(entry) == [row[0], row[4], row[1], row[2], row[3]]
  {
    var entries := EntryList(rows);
    forall i | 0 <= i < |rows|
      ensures AllUnescaped(entries[i])
      ensures entries[i] == rows[i][0] + ":" + rows[i][4] + ":" + rows[i][1] + ":" + rows[i][2] + ":" + rows[i][3]
      ensures Split(entries[i]) == [rows[i][0], rows[i][4], rows[i][1], rows[i][2], rows[i][3]]
    {
      EntryIsUnescaped(rows[i]);
      FieldsArePlain(rows[i]);
      SplitFields(rows[i][0], rows[i][4], rows[i][1], rows[i][2], rows[i][3]);
      FiveFields(rows[i][0], rows[i][4], rows[i][1], rows[i][2], rows[i][3]);
    }
    ArrayRoundTrip(entries);
  }

  lemma FiveFields(a: string, b: string, c: string, d: string, e: string)
    ensures a + (":" + (b + (":" + (c + (":" + (d + (":" + e))))))) == a + ":" + b + ":" + c + ":" + d + ":" + e
  {
    FieldsInFront(c, d, e);
    Assoc(a + ":" + b + ":", c + ":" + d + ":", e);
    Assoc(a + ":" + b + ":", c + ":" + d, ":");
    Assoc(a + ":" + b + ":", c + ":", d);
    Assoc(a + ":" + b + ":", c, ":");
    FieldsInFront(a, b, c + (":" + (d + (":" + e))));
  }

  lemma FieldsInFront(a: string, b: string, rest: string)
    ensures a + (":" + (b + (":" + rest))) == a + ":" + b + ":" + rest
  {
    Assoc(a + ":" + b, ":", rest);
    Assoc(a + ":", b, ":" + rest);
    Assoc(a, ":", b + (":" + rest));
  }

  /** The parts of a text between its colons. */
  lemma {:induction false} SplitIsJoined(s: string)
    ensures Split(s) != [] && JoinedByColons(Split(s)) == s
    ensures forall i :: 0 <= i < |Split(s)| ==> ':' !in Split(s)[i]
    decreases |s|
  {
    ColonRunIsFree(s);
    var n := ColonRun(s);
    if n == |s| {
      assert s[..n] == s;
    } else {
      SplitIsJoined(s[n + 1..]);
      assert s == s[..n] + (":" + s[n + 1..]);
      assert Split(s)[1..] == Split(s[n + 1..]);
    }
  }

  lemma {:induction false} ColonRunIsFree(s: string)
    ensures ':' !in s[..ColonRun(s)]
    ensures ColonRun(s) < |s| ==> s[ColonRun(s)] == ':'
  {
    if s != "" && s[0] != ':' {
      ColonRunIsFree(s[1..]);
      assert s[..ColonRun(s)] == [s[0]] + s[1..][..ColonRun(s[1..])];
    }
  }

  function JoinedByColons(parts: seq<string>): string {
    if parts == [] then "" else if |parts| == 1 then parts[0] else parts[0] + (":" + JoinedByColons(parts[1..]))
  }

  /** Every listed meme with its number of successful views, and no meme before one with more. */
  ghost predicate MostViewsFirst(events: seq<Event>, listed: seq<Row>)
    requires Run(events).Some?
  {
    && (forall i :: 0 <= i < |listed| ==>
          |listed[i]| == 5 && listed[i][4] == Decimal(ViewsSince(events, listed[i][0])))
    && (forall i, j :: 0 <= i < j < |listed| ==>
          ViewsSince(events, listed[i][0]) >= ViewsSince(events, listed[j][0]))
  }

  lemma RowCountsViews(events: seq<Event>, row: Row)
    requires Run(events).Some? && row in Run(events).value
    ensures RowOk(row) && Count(row) == ViewsSince(events, row[0])
    ensures row[4] == Decimal(ViewsSince(events, row[0]))
  {
    var rows := Run(events).value;
    var k :| 0 <= k < |rows| && rows[k] == row;
    FindIsTheRow(rows, k);
    CounterCountsViews(events, row[0]);
  }

  lemma ByCounterIsByViews(events: seq<Event>, listed: seq<Row>)
    requires Run(events).Some? && ByCounter(listed, Run(events).value)
    ensures MostViewsFirst(events, listed)
  {
    forall i | 0 <= i < |listed|
      ensures RowOk(listed[i]) && Count(listed[i]) == ViewsSince(events, listed[i][0])
      ensures listed[i][4] == Decimal(ViewsSince(events, listed[i][0]))
    {
      assert listed[i] in multiset(listed);
      RowCountsViews(events, listed[i]);
    }
    forall i, j | 0 <= i < j < |listed|
      ensures ViewsSince(events, listed[i][0]) >= ViewsSince(events, listed[j][0])
    {
      CountersHave(listed[i], listed[j]);
    }
  }

  /** After every run of requests, the listing gives the client the whole table: by counters that do not
      increase, which are the numbers of successful views, and with ties in the reverse of table order. */
  lemma ReachableListingRoundTrip(events: seq<Event>)
    requires Run(events).Some?
    ensures var rows := Run(events).value;
            var listed := MostViewedFirst(rows);
            ClientRows(ListingText(listed)) == Some(listed) && ByCounter(listed, rows) && MostViewsFirst(events, listed)
  {
    var rows := Run(events).value;
    ListedIsOk(rows);
    ListTextRoundTrip(MostViewedFirst(rows));
    ListingOrder(rows);
    ByCounterIsByViews(events, MostViewedFirst(rows));
  }

  /** A valid form, in any encoding, submitted under an unused identifier comes back, with exactly its values,
      in what a client reads from the listing. */
  lemma SubmittedFormIsListed(events: seq<Event>, uuid: string, form: string,
                              template: string, top: string, bottom: string)
    requires Run(events).Some? && CheckId(uuid) && !HasKey(Run(events).value, uuid)
    requires ValidParams(template, top, bottom) && IsForm(form, template, top, bottom)
    ensures var after := Run(events + [Create(form, uuid)]);
            && after.Some?
            && ClientRows(ListingText(MostViewedFirst(after.value))) == Some(MostViewedFirst(after.value))
            && [uuid, template, top, bottom, "0"] in MostViewedFirst(after.value)
  {
    FormRoundTrip(form, template, top, bottom);
    CreatedRowIsListed(events, form, uuid);
  }

  lemma CreatedRowIsListed(events: seq<Event>, body: string, uuid: string)
    requires Run(events).Some? && CheckId(uuid) && !HasKey(Run(events).value, uuid) && CheckBody(body).Params?
    ensures var after := Run(events + [Create(body, uuid)]);
            && after.Some?
            && ClientRows(ListingText(MostViewedFirst(after.value))) == Some(MostViewedFirst(after.value))
            && NewRow(uuid, CheckBody(body)) in MostViewedFirst(after.value)
  {
    var e, row := Create(body, uuid), NewRow(uuid, CheckBody(body));
    RunNext(events, e);
    var rows := Run(events + [e]).value;
    assert rows == Run(events).value + [row];
    ReachableListingRoundTrip(events + [e]);
    RowIsListed(rows, row);
  }

  lemma RowIsListed(rows: seq<Row>, row: Row)
    requires row in rows
    ensures row in MostViewedFirst(rows)
  {
    ListingOrder(rows);
    assert row in multiset(rows);
    assert row in multiset(MostViewedFirst(rows));
  }

  // ----- The loop -----

  /** The text of the entry of one row, as it is appended. */
  method EntryString(row: Row) returns (text: string)
    requires |row| == 5
    ensures text == Quoted(Entry(row))
  {
    text := "\"" + row[0] + ":" + row[4] + ":" + row[1] + ":" + row[2] + ":" + row[3] + "\"";
    EntryText(row[0], row[4], row[1], row[2], row[3]);
  }

  /** One iteration: a comma before every entry but the first. */
  method AppendEntry(before: string, addComma: bool, row: Row, ghost entries: seq<string>) returns (output: string)
    requires |row| == 5 && before == "[" + QuotedList(entries) && (addComma <==> entries != [])
    ensures output == "[" + QuotedList(entries + [Entry(row)])
  {
    output := before;
    var entry := EntryString(row);
    ghost var list := QuotedList(entries);
    if addComma {
      QuotedListAppend(entries, Entry(row));
      Assoc("[", list, ",");
      Assoc("[", list + ",", entry);
      output := output + ",";
    } else {
      assert entries + [Entry(row)] == [Entry(row)] && "[" + "" == "[";
    }
    output := output + entry;
  }

  /** The entries of a sorted result, read backwards. */
  method WriteEntries(result: seq<Row>, ghost entries: seq<string>) returns (output: string)
    requires |entries| == |result|
    requires forall i :: 0 <= i < |result| ==> |result[i]| == 5
    requires forall i :: 0 <= i < |result| ==> entries[i] == Entry(result[|result| - 1 - i])
    ensures output == ArrayText(entries)
  {
    output := "[";
    var addComma := false;
    ghost var written: seq<string> := [];
    for i := 0 to |result|
      invariant addComma <==> i > 0
      invariant written == entries[..i] && output == "[" + QuotedList(written)
    {
      output := AppendEntry(output, addComma, result[|result| - 1 - i], written);
      TakeNext(entries, i);
      written := written + [entries[i]];
      addComma := true;
    }
    assert written == entries;
    Assoc("[", QuotedList(entries), "]");
    output := output + "]";
  }

  /** Builds the listing of a selected result. */
  method BuildList(selected: seq<Row>) returns (output: string)
    requires forall i :: 0 <= i < |selected| ==> |selected[i]| == 5 && Stoi(selected[i][4]).Some?
    ensures output == ListingText(MostViewedFirst(selected))
  {
    var result := StableSort(Views, selected);
    ghost var entries := EntryList(MostViewedFirst(selected));
    forall i | 0 <= i < |result| ensures |result[i]| == 5 {
      SortedRow(selected, i);
    }
    output := WriteEntries(result, entries);
  }

  lemma SortedRow(rows: seq<Row>, i: nat)
    requires i < |rows|
    ensures StableSort(Views, rows)[i] in rows
  {
    assert StableSort(Views, rows)[i] in multiset(StableSort(Views, rows));
  }

  lemma EntryText(a: string, b: string, c: string, d: string, e: string)
    ensures "\"" + a + ":" + b + ":" + c + ":" + d + ":" + e + "\""
            == Quoted(a + (":" + (b + (":" + (c + (":" + (d + (":" + e))))))))
  {
    var q := "\"" + a;
    Assoc(q, ":", b);
    Assoc(q + (":" + b), ":", c);
    Assoc(q + (":" + b) + (":" + c), ":", d);
    Assoc(q + (":" + b) + (":" + c) + (":" + d), ":", e);
    Assoc(":", b, (":" + c) + ((":" + d) + (":" + e)));
    Assoc(":", c, (":" + d) + (":" + e));
    Assoc(":", d, ":" + e);
    Regroup("\"", a, ":" + b, ":" + c, ":" + d, ":" + e, "\"");
  }

  lemma Regroup(q: string, a: string, b: string, c: string, d: string, e: string, z: string)
    ensures q + a + b + c + d + e + z == q + ((a + (b + (c + (d + e)))) + z)
  {
    Assoc(q, a, b);
    Assoc(q, a + b, c);
    Assoc(q, a + b + c, d);
    Assoc(q, a + b + c + d, e);
    Assoc(q, a + b + c + d + e, z);
    Assoc(a, b, c);
    Assoc(a, b + c, d);
    Assoc(a, b + c + d, e);
    Assoc(b, c, d);
    Assoc(b, c + d, e);
    Assoc(c, d, e);
  }
}
