/** The meme table of src/meme_handler.cc over whole runs of create, update, delete and view requests. */
module MemeStore {
  import opened Wrappers
  import opened Numbers
  import opened FormBody
  import opened Sequences
  import opened SqlManager

  const VIEWS: nat := 4

  // ----- What a row looks like -----

  predicate IsHex(c: char) {
    '0' <= c <= '9' || 'a' <= c <= 'f' || 'A' <= c <= 'F'
  }

  /** meme_handler::check_id: five groups of 8, 4, 4, 4 and 12 hexadecimal digits. */
  predicate CheckId(id: string) {
    && |id| == 36
    && forall k :: 0 <= k < 36 ==> if k == 8 || k == 13 || k == 18 || k == 23 then id[k] == '-' else IsHex(id[k])
  }

  predicate AllHex(s: string) {
    forall c :: c in s ==> '0' <= c <= '9' || 'a' <= c <= 'f' || 'A' <= c <= 'F'
  }

  /** The groups, written out. */
  ghost predicate HasGroups(id: string, a: string, b: string, c: string, d: string, e: string) {
    && id == a + "-" + b + "-" + c + "-" + d + "-" + e
    && |a| == 8 && |b| == 4 && |c| == 4 && |d| == 4 && |e| == 12
    && AllHex(a + b + c + d + e)
  }

  lemma IdHasGroups(id: string)
    ensures CheckId(id) <==> exists a, b, c, d, e :: HasGroups(id, a, b, c, d, e)
  {
    if CheckId(id) {
      var a, b, c, d, e := id[..8], id[9..13], id[14..18], id[19..23], id[24..];
      assert id == a + "-" + b + "-" + c + "-" + d + "-" + e;
      assert HasGroups(id, a, b, c, d, e);
    }
    if a, b, c, d, e :| HasGroups(id, a, b, c, d, e) {
      GroupsAreId(id, a, b, c, d, e);
    }
  }

  lemma GroupsAreId(id: string, a: string, b: string, c: string, d: string, e: string)
    requires HasGroups(id, a, b, c, d, e)
    ensures CheckId(id)
  {
    var digits := a + b + c + d + e;
    forall j | 0 <= j < |digits| ensures IsHex(digits[j]) {
      assert digits[j] in digits;
    }
    forall k | 0 <= k < 36
      ensures if k == 8 || k == 13 || k == 18 || k == 23 then id[k] == '-' else IsHex(id[k])
    {
      if k < 8 {
        assert id[k] == a[k] == digits[k];
      } else if 8 < k < 13 {
        assert id[k] == b[k - 9] == digits[k - 1];
      } else if 13 < k < 18 {
        assert id[k] == c[k - 14] == digits[k - 2];
      } else if 18 < k < 23 {
        assert id[k] == d[k - 19] == digits[k - 3];
      } else if 23 < k {
        assert id[k] == e[k - 24] == digits[k - 4];
      }
    }
  }

  /** A view counter as std::to_string writes it. */
  predicate IsCount(s: string) {
    Stoi(s).Some? && Stoi(s).value >= 0 && s == Decimal(Stoi(s).value)
  }

  predicate RowOk(row: Row) {
    |row| == 5 && CheckId(row[0]) && ValidParams(row[1], row[2], row[3]) && IsCount(row[4])
  }

  predicate StoreOk(rows: seq<Row>) {
    (forall i :: 0 <= i < |rows| ==> RowOk(rows[i])) && UniqueKeys(rows)
  }

  function Count(row: Row): int
    requires RowOk(row)
  {
    Stoi(row[4]).value
  }

  // ----- Requests -----

  /** `Create` carries the random identifier that the server drew. */
  datatype Event =
    | Create(body: string, uuid: string)
    | Update(id: string, body: string)
    | Remove(id: string)
    | View(id: string)

  function Viewed(row: Row): Row
    requires RowOk(row)
  {
    row[4 := Decimal(Count(row) + 1)]
  }

  function Edited(row: Row, p: Checked): Row
    requires |row| == 5 && p.Params?
  {
    [row[0], p.template, p.top, p.bottom, row[4]]
  }

  function Without(rows: seq<Row>, key: string): seq<Row> {
    if rows == [] then []
    else (if Key(rows[0]) == key then [] else [rows[0]]) + Without(rows[1..], key)
  }

  function AddRow(rows: seq<Row>, uuid: string, p: Checked): seq<Row> {
    if p.Params? && !HasKey(rows, uuid) then rows + [NewRow(uuid, p)] else rows
  }

  function NewRow(uuid: string, p: Checked): Row
    requires p.Params?
  {
    [uuid, p.template, p.top, p.bottom, "0"]
  }

  function EditRows(rows: seq<Row>, id: string, p: Checked): (r: seq<Row>)
    requires StoreOk(rows)
    ensures |r| == |rows|
  {
    seq(|rows|, i requires 0 <= i < |rows| =>
      if p.Params? && CheckId(id) && Key(rows[i]) == id then Edited(rows[i], p) else rows[i])
  }

  function ViewRows(rows: seq<Row>, key: string): (r: seq<Row>)
    requires StoreOk(rows)
    ensures |r| == |rows|
  {
    seq(|rows|, i requires 0 <= i < |rows| => if Key(rows[i]) == key then Viewed(rows[i]) else rows[i])
  }

  /** The table after a request. A view is identified by the text up to the first NUL, like every bound
      value. */
  function Apply(rows: seq<Row>, e: Event): (r: seq<Row>)
    requires StoreOk(rows)
  {
    match e
    case Create(body, uuid) => AddRow(rows, uuid, CheckBody(body))
    case Update(id, body) => EditRows(rows, id, CheckBody(body))
    case Remove(id) => if CheckId(id) then Without(rows, id) else rows
    case View(id) => ViewRows(rows, CString(id))
  }

  /** What each request does, row by row and field by field. */
  lemma CreateApplied(rows: seq<Row>, body: string, uuid: string)
    requires StoreOk(rows)
    ensures var p := CheckBody(body);
            Apply(rows, Create(body, uuid)) ==
            if p.Params? && !HasKey(rows, uuid) then rows + [[uuid, p.template, p.top, p.bottom, "0"]] else rows
  {
  }

  lemma UpdateApplied(rows: seq<Row>, body: string, id: string)
    requires StoreOk(rows)
    ensures var p, after := CheckBody(body), Apply(rows, Update(id, body));
            && |after| == |rows|
            && forall i :: 0 <= i < |rows| ==>
                 after[i] == if p.Params? && CheckId(id) && rows[i][0] == id
                             then [id, p.template, p.top, p.bottom, rows[i][4]] else rows[i]
  {
  }

  lemma RemoveApplied(rows: seq<Row>, id: string)
    requires StoreOk(rows)
    ensures !CheckId(id) || !HasKey(rows, id) ==> Apply(rows, Remove(id)) == rows
    ensures forall i :: 0 <= i < |rows| && CheckId(id) && rows[i][0] == id ==>
              Apply(rows, Remove(id)) == rows[..i] + rows[i + 1..]
  {
    WithoutNothing(rows, id);
    forall i | 0 <= i < |rows| && CheckId(id) && rows[i][0] == id
      ensures Without(rows, id) == rows[..i] + rows[i + 1..]
    {
      WithoutOne(rows, id, i);
    }
  }

  lemma {:induction false} WithoutNothing(rows: seq<Row>, key: string)
    ensures !HasKey(rows, key) ==> Without(rows, key) == rows
  {
    if rows != [] && !HasKey(rows, key) {
      assert forall i :: 0 <= i < |rows| - 1 ==> rows[1..][i] == rows[i + 1];
      WithoutNothing(rows[1..], key);
      assert rows == [rows[0]] + rows[1..];
    }
  }

  lemma {:induction false} WithoutOne(rows: seq<Row>, key: string, i: nat)
    requires UniqueKeys(rows) && i < |rows| && Key(rows[i]) == key
    ensures Without(rows, key) == rows[..i] + rows[i + 1..]
  {
    if i == 0 {
      WithoutNothing(rows[1..], key);
      assert rows[..0] + rows[1..] == rows[1..];
    } else {
      WithoutOne(rows[1..], key, i - 1);
      assert rows[..i] == [rows[0]] + rows[1..][..i - 1];
      assert rows[1..][i..] == rows[i + 1..];
      Assoc([rows[0]], rows[1..][..i - 1], rows[i + 1..]);
    }
  }

  lemma ViewApplied(rows: seq<Row>, id: string)
    requires StoreOk(rows)
    ensures var after := Apply(rows, View(id));
            && |after| == |rows|
            && forall i :: 0 <= i < |rows| ==>
                 after[i] == if rows[i][0] == CString(id) then rows[i][4 := Decimal(Stoi(rows[i][4]).value + 1)]
                             else rows[i]
  {
  }

  /** The drawn identifiers have their shape, and no counter is at the end of its range. */
  ghost predicate Enabled(rows: seq<Row>, e: Event)
    requires StoreOk(rows)
  {
    match e
    case Create(_, uuid) => CheckId(uuid)
    case View(id) => BelowLimit(rows, CString(id))
    case _ => true
  }

  ghost predicate BelowLimit(rows: seq<Row>, key: string)
    requires StoreOk(rows)
  {
    forall i :: 0 <= i < |rows| && Key(rows[i]) == key ==> Count(rows[i]) < INT_MAX
  }

  // ----- Every step keeps the store in order -----

  lemma {:induction false} WithoutKey(rows: seq<Row>, key: string)
    ensures forall row :: row in Without(rows, key) <==> row in rows && Key(row) != key
    ensures UniqueKeys(rows) ==> UniqueKeys(Without(rows, key))
  {
    if rows != [] {
      WithoutKey(rows[1..], key);
      var rest := Without(rows[1..], key);
      if UniqueKeys(rows) {
        forall row | row in rest ensures Key(row) != Key(rows[0]) {
          var k :| 0 <= k < |rows[1..]| && rows[1..][k] == row;
          assert rows[k + 1] == row;
        }
      }
    }
  }

  lemma ViewedIsOk(row: Row)
    requires RowOk(row) && Count(row) < INT_MAX
    ensures RowOk(Viewed(row)) && Count(Viewed(row)) == Count(row) + 1
  {
    StoiOfDecimal(Count(row) + 1);
  }

  /** Either nothing usable, or valid parameters. */
  predicate CheckedOk(p: Checked) {
    p.Params? ==> ValidParams(p.template, p.top, p.bottom)
  }

  lemma NewRowIsOk(uuid: string, p: Checked)
    requires CheckId(uuid) && p.Params? && CheckedOk(p)
    ensures RowOk(NewRow(uuid, p)) && Count(NewRow(uuid, p)) == 0
  {
    StoiOfDecimal(0);
    assert Decimal(0) == "0";
  }

  lemma AddKeepsStoreOk(rows: seq<Row>, uuid: string, p: Checked)
    requires StoreOk(rows) && CheckId(uuid) && CheckedOk(p)
    ensures StoreOk(AddRow(rows, uuid, p))
  {
    if p.Params? && !HasKey(rows, uuid) {
      NewRowIsOk(uuid, p);
      AppendKeepsStoreOk(rows, NewRow(uuid, p));
    }
  }

  lemma AppendKeepsStoreOk(rows: seq<Row>, row: Row)
    requires StoreOk(rows) && RowOk(row) && !HasKey(rows, Key(row))
    ensures StoreOk(rows + [row])
  {
  }

  lemma EditKeepsStoreOk(rows: seq<Row>, id: string, p: Checked)
    requires StoreOk(rows) && CheckedOk(p)
    ensures StoreOk(EditRows(rows, id, p))
  {
  }

  lemma RemoveKeepsStoreOk(rows: seq<Row>, id: string)
    requires StoreOk(rows)
    ensures StoreOk(Without(rows, id))
  {
    WithoutKey(rows, id);
    var r := Without(rows, id);
    forall i | 0 <= i < |r| ensures RowOk(r[i]) {
      assert r[i] in r;
    }
  }

  lemma ViewKeepsStoreOk(rows: seq<Row>, key: string)
    requires StoreOk(rows) && BelowLimit(rows, key)
    ensures StoreOk(ViewRows(rows, key))
  {
    forall i | 0 <= i < |rows| && Key(rows[i]) == key ensures RowOk(Viewed(rows[i])) {
      ViewedIsOk(rows[i]);
    }
  }

  lemma CheckedBodyIsOk(body: string)
    ensures CheckedOk(CheckBody(body))
  {
    AcceptedIsValid(body);
  }

  lemma ApplyKeepsStoreOk(rows: seq<Row>, e: Event)
    requires StoreOk(rows) && Enabled(rows, e)
    ensures StoreOk(Apply(rows, e))
  {
    match e
    case Create(body, uuid) =>
      CheckedBodyIsOk(body);
      AddKeepsStoreOk(rows, uuid, CheckBody(body));
    case Update(id, body) =>
      CheckedBodyIsOk(body);
      EditKeepsStoreOk(rows, id, CheckBody(body));
    case Remove(id) => RemoveKeepsStoreOk(rows, id);
    case View(id) => ViewKeepsStoreOk(rows, CString(id));
  }

  // ----- Runs -----

  /** The table after a run from the empty one; `None` if a step was not enabled. */
  ghost function Run(events: seq<Event>): (r: Option<seq<Row>>)
    ensures r.Some? ==> StoreOk(r.value)
  {
    if events == [] then Some([])
    else
      var before := Run(events[..|events| - 1]);
      var e := events[|events| - 1];
      if before.Some? && Enabled(before.value, e) then
        ApplyKeepsStoreOk(before.value, e);
        Some(Apply(before.value, e))
      else None
  }

  lemma RunNext(history: seq<Event>, e: Event)
    requires Run(history).Some? && Enabled(Run(history).value, e)
    ensures Run(history + [e]) == Some(Apply(Run(history).value, e))
  {
    assert (history + [e])[..|history|] == history;
  }

  function Find(rows: seq<Row>, id: string): Option<Row> {
    if rows == [] then None
    else if Key(rows[0]) == id then Some(rows[0])
    else Find(rows[1..], id)
  }

  lemma {:induction false} FindIsHasKey(rows: seq<Row>, id: string)
    ensures Find(rows, id).Some? <==> HasKey(rows, id)
    ensures Find(rows, id).Some? ==> Find(rows, id).value in rows && Key(Find(rows, id).value) == id
  {
    if rows != [] {
      FindIsHasKey(rows[1..], id);
      if HasKey(rows, id) {
        var i :| 0 <= i < |rows| && Key(rows[i]) == id;
        assert i > 0 ==> rows[1..][i - 1] == rows[i];
      }
    }
  }

  /** The identifier that a request is about. */
  function Subject(e: Event): string {
    match e
    case Create(_, uuid) => uuid
    case Update(id, _) => id
    case Remove(id) => id
    case View(id) => CString(id)
  }

  /** What a request does to the row of its own identifier. */
  function Effect(row: Option<Row>, e: Event): Option<Row>
    requires row.Some? ==> RowOk(row.value)
  {
    match e
    case Create(body, uuid) =>
      var p := CheckBody(body);
      if row.None? && p.Params? then Some(NewRow(uuid, p)) else row
    case Update(id, body) =>
      var p := CheckBody(body);
      if row.Some? && p.Params? && CheckId(id) then Some(Edited(row.value, p)) else row
    case Remove(id) => if CheckId(id) then None else row
    case View(_) => if row.Some? then Some(Viewed(row.value)) else row
  }

  lemma {:induction false} FindAppended(rows: seq<Row>, row: Row, id: string)
    ensures Find(rows + [row], id) ==
            if Find(rows, id).Some? then Find(rows, id) else if Key(row) == id then Some(row) else None
  {
    if rows == [] {
      assert rows + [row] == [row];
    } else {
      FindAppended(rows[1..], row, id);
      assert (rows + [row])[1..] == rows[1..] + [row];
    }
  }

  lemma {:induction false} FindWithout(rows: seq<Row>, key: string, id: string)
    ensures Find(Without(rows, key), id) == if id == key then None else Find(rows, id)
  {
    if rows != [] {
      FindWithout(rows[1..], key, id);
      if Key(rows[0]) == key {
        assert Without(rows, key) == Without(rows[1..], key);
      } else {
        assert Without(rows, key)[1..] == Without(rows[1..], key);
      }
    }
  }

  /** Two tables whose rows differ only where the key is `key`, by `f`. */
  lemma {:induction false} FindMapped(rows: seq<Row>, mapped: seq<Row>, key: string, id: string)
    requires |mapped| == |rows|
    requires forall i :: 0 <= i < |rows| ==> Key(mapped[i]) == Key(rows[i])
    requires forall i :: 0 <= i < |rows| && Key(rows[i]) != key ==> mapped[i] == rows[i]
    ensures id != key ==> Find(mapped, id) == Find(rows, id)
    ensures Find(mapped, id).Some? <==> Find(rows, id).Some?
    ensures Find(rows, id).Some? ==>
              exists i :: 0 <= i < |rows| && rows[i] == Find(rows, id).value && mapped[i] == Find(mapped, id).value
  {
    if rows != [] && Key(rows[0]) != id {
      FindMapped(rows[1..], mapped[1..], key, id);
      if Find(rows, id).Some? {
        var i :| 0 <= i < |rows| - 1 && rows[1..][i] == Find(rows, id).value
          && mapped[1..][i] == Find(mapped, id).value;
        assert rows[i + 1] == Find(rows, id).value && mapped[i + 1] == Find(mapped, id).value;
      }
    }
  }

  lemma AddIsLocal(rows: seq<Row>, uuid: string, p: Checked, id: string)
    ensures Find(AddRow(rows, uuid, p), id) ==
            if id == uuid && Find(rows, id).None? && p.Params? then Some(NewRow(uuid, p)) else Find(rows, id)
  {
    FindIsHasKey(rows, uuid);
    if p.Params? {
      FindAppended(rows, NewRow(uuid, p), id);
    }
  }

  lemma EditIsLocal(rows: seq<Row>, key: string, p: Checked, id: string)
    requires StoreOk(rows)
    ensures Find(rows, id).Some? ==> RowOk(Find(rows, id).value)
    ensures Find(EditRows(rows, key, p), id) ==
            if id == key && Find(rows, id).Some? && p.Params? && CheckId(key)
            then Some(Edited(Find(rows, id).value, p)) else Find(rows, id)
  {
    FindIsHasKey(rows, id);
    FindMapped(rows, EditRows(rows, key, p), key, id);
  }

  lemma ViewIsLocal(rows: seq<Row>, key: string, id: string)
    requires StoreOk(rows)
    ensures Find(rows, id).Some? ==> RowOk(Find(rows, id).value)
    ensures Find(ViewRows(rows, key), id) ==
            if id == key && Find(rows, id).Some? then Some(Viewed(Find(rows, id).value)) else Find(rows, id)
  {
    FindIsHasKey(rows, id);
    FindMapped(rows, ViewRows(rows, key), key, id);
  }

  /** A request changes the row of its own identifier and no other one. */
  lemma ApplyIsLocal(rows: seq<Row>, e: Event, id: string)
    requires StoreOk(rows)
    ensures Find(rows, id).Some? ==> RowOk(Find(rows, id).value)
    ensures Find(Apply(rows, e), id) == if id == Subject(e) then Effect(Find(rows, id), e) else Find(rows, id)
  {
    FindIsHasKey(rows, id);
    match e
    case Create(body, uuid) => AddIsLocal(rows, uuid, CheckBody(body), id);
    case Update(key, body) => EditIsLocal(rows, key, CheckBody(body), id);
    case Remove(key) => FindWithout(rows, key, id);
    case View(key) => ViewIsLocal(rows, CString(key), id);
  }

  // ----- The view counter -----

  /** The number of views of a meme that succeeded since it was created. */
  ghost function ViewsSince(events: seq<Event>, id: string): nat
    requires Run(events).Some?
  {
    if events == [] then 0
    else
      var init, e := events[..|events| - 1], events[|events| - 1];
      if Subject(e) != id then ViewsSince(init, id)
      else ViewsAfter(Find(Run(init).value, id), e, ViewsSince(init, id))
  }

  /** The number of views after a request about a meme, whose row was `before`. */
  function ViewsAfter(before: Option<Row>, e: Event, views: nat): nat {
    if e.Create? && before.None? then 0 else if e.View? && before.Some? then views + 1 else views
  }

  /** The counter of a row, if there is one, stands at `views`. */
  predicate Counted(row: Option<Row>, views: nat) {
    row.Some? ==> RowOk(row.value) && row.value[VIEWS] == Decimal(views) && Count(row.value) == views
  }

  lemma EffectIsCounted(before: Option<Row>, e: Event, views: nat)
    requires Counted(before, views)
    requires e.Create? ==> CheckId(e.uuid)
    requires e.View? && before.Some? ==> Count(before.value) < INT_MAX
    ensures Counted(Effect(before, e), ViewsAfter(before, e, views))
  {
    match e
    case Create(body, uuid) =>
      CheckedBodyIsOk(body);
      if CheckBody(body).Params? {
        NewRowIsOk(uuid, CheckBody(body));
      }
    case Update(_, body) => CheckedBodyIsOk(body);
    case Remove(_) =>
    case View(_) =>
      if before.Some? {
        ViewedIsOk(before.value);
      }
  }

  /** In every run, the stored counter of a meme is the number of its successful views. */
  lemma {:induction false} CounterCountsViews(events: seq<Event>, id: string)
    requires Run(events).Some?
    ensures Counted(Find(Run(events).value, id), ViewsSince(events, id))
    decreases |events|
  {
    if events != [] {
      var init, e := events[..|events| - 1], events[|events| - 1];
      var rows := Run(init).value;
      CounterCountsViews(init, id);
      ApplyIsLocal(rows, e, id);
      if Subject(e) == id {
        FindIsHasKey(rows, id);
        EffectIsCounted(Find(rows, id), e, ViewsSince(init, id));
      }
    }
  }

  // ----- What was submitted stays -----

  /** None of these requests updates or removes the meme. */
  predicate LeavesAlone(events: seq<Event>, id: string) {
    forall e :: e in events ==> !(e.Update? && e.id == id) && !(e.Remove? && e.id == id)
  }

  lemma RunLast(events: seq<Event>, e: Event)
    requires Run(events + [e]).Some?
    ensures Run(events).Some? && Run(events + [e]).value == Apply(Run(events).value, e)
  {
    assert (events + [e])[..|events|] == events;
  }

  lemma RequestKeepsFields(rows: seq<Row>, e: Event, id: string)
    requires StoreOk(rows) && Find(rows, id).Some?
    requires !(e.Update? && e.id == id) && !(e.Remove? && e.id == id)
    ensures Find(Apply(rows, e), id).Some?
    ensures SameFields(Find(Apply(rows, e), id).value, Find(rows, id).value)
  {
    ApplyIsLocal(rows, e, id);
  }

  /** Other requests, and views of the meme itself, leave its identifier, template and captions alone. */
  lemma {:induction false} CaptionsStay(events: seq<Event>, later: seq<Event>, id: string)
    requires Run(events + later).Some? && LeavesAlone(later, id)
    ensures Run(events).Some?
    ensures Find(Run(events).value, id).Some? ==>
              && Find(Run(events + later).value, id).Some?
              && SameFields(Find(Run(events + later).value, id).value, Find(Run(events).value, id).value)
    decreases |later|
  {
    if later == [] {
      NothingBehind(events);
      RowsHaveFields(Run(events).value, id);
    } else {
      var init, e := later[..|later| - 1], later[|later| - 1];
      Assoc(events, init, [e]);
      assert init + [e] == later && e in later;
      RunLast(events + init, e);
      CaptionsStay(events, init, id);
      if Find(Run(events).value, id).Some? {
        RequestKeepsFields(Run(events + init).value, e, id);
      }
    }
  }

  lemma RowsHaveFields(rows: seq<Row>, id: string)
    requires StoreOk(rows)
    ensures Find(rows, id).Some? ==> SameFields(Find(rows, id).value, Find(rows, id).value)
  {
    FindIsHasKey(rows, id);
  }

  predicate SameFields(a: Row, b: Row) {
    |a| == |b| == 5 && a[0] == b[0] && a[1] == b[1] && a[2] == b[2] && a[3] == b[3]
  }

  /** What a later request finds after a create or an update whose form was checked to these values, as long
      as nothing updates or removes the meme. */
  ghost predicate Holds(events: seq<Event>, id: string, template: string, top: string, bottom: string)
    requires Run(events).Some?
  {
    match Find(Run(events).value, id)
    case None => false
    case Some(row) => |row| == 5 && row[0] == id && row[1] == template && row[2] == top && row[3] == bottom
  }

  lemma CreatedMemeHolds(events: seq<Event>, body: string, uuid: string, later: seq<Event>)
    requires Run(events + [Create(body, uuid)] + later).Some? && LeavesAlone(later, uuid)
    requires CheckBody(body).Params?
    requires Run(events).Some? && !HasKey(Run(events).value, uuid)
    ensures Holds(events + [Create(body, uuid)] + later, uuid,
                  CheckBody(body).template, CheckBody(body).top, CheckBody(body).bottom)
  {
    var e := Create(body, uuid);
    CaptionsStay(events + [e], later, uuid);
    RunLast(events, e);
    ApplyIsLocal(Run(events).value, e, uuid);
    FindIsHasKey(Run(events).value, uuid);
  }

  lemma UpdatedMemeHolds(events: seq<Event>, body: string, id: string, later: seq<Event>)
    requires Run(events + [Update(id, body)] + later).Some? && LeavesAlone(later, id)
    requires CheckBody(body).Params? && CheckId(id)
    requires Run(events).Some? && HasKey(Run(events).value, id)
    ensures Holds(events + [Update(id, body)] + later, id,
                  CheckBody(body).template, CheckBody(body).top, CheckBody(body).bottom)
  {
    var e := Update(id, body);
    CaptionsStay(events + [e], later, id);
    RunLast(events, e);
    ApplyIsLocal(Run(events).value, e, id);
    FindIsHasKey(Run(events).value, id);
  }

  // ----- Runs that cannot overflow a counter -----

  lemma {:induction false} ViewsAreBounded(events: seq<Event>, id: string)
    requires Run(events).Some?
    ensures ViewsSince(events, id) <= |events|
  {
    if events != [] {
      ViewsAreBounded(events[..|events| - 1], id);
    }
  }

  lemma {:induction false} FindIsTheRow(rows: seq<Row>, i: nat)
    requires UniqueKeys(rows) && i < |rows|
    ensures Find(rows, Key(rows[i])) == Some(rows[i])
  {
    if i > 0 {
      FindIsTheRow(rows[1..], i - 1);
    }
  }

  /** As long as there are at most INT_MAX requests, every run with well-formed identifiers is defined:
      no counter leaves the range of an int. */
  lemma {:induction false} ShortRunsAreDefined(events: seq<Event>)
    requires |events| <= INT_MAX
    requires forall e :: e in events && e.Create? ==> CheckId(e.uuid)
    ensures Run(events).Some?
  {
    if events != [] {
      var init, e := events[..|events| - 1], events[|events| - 1];
      ShortRunsAreDefined(init);
      var rows := Run(init).value;
      assert e in events;
      forall i | 0 <= i < |rows| ensures Count(rows[i]) < INT_MAX {
        FindIsTheRow(rows, i);
        CounterCountsViews(init, Key(rows[i]));
        ViewsAreBounded(init, Key(rows[i]));
      }
    }
  }
}
