/** JSON arrays and objects of strings without escape sequences (sections 4, 5 and 7 of RFC 8259): how the
    handlers write them, and readers for them. */
module Json {
  import opened Wrappers
  import opened Sequences

  function Quoted(s: string): string {
    "\"" + (s + "\"")
  }

  /** The strings in quotes, separated by commas. */
  function QuotedList(items: seq<string>): string {
    if items == [] then ""
    else if |items| == 1 then Quoted(items[0])
    else Quoted(items[0]) + ("," + QuotedList(items[1..]))
  }

  function ArrayText(items: seq<string>): string {
    "[" + (QuotedList(items) + "]")
  }

  /** How an array is written: no space around the comma. */
  lemma ArrayOfTwo(a: string, b: string)
    ensures ArrayText([a, b]) == "[\"" + a + "\",\"" + b + "\"]" && ArrayText([]) == "[]"
  {
    assert [a, b][1..] == [b];
    assert QuotedList([a, b]) == Quoted(a) + ("," + Quoted(b));
    assert "[" + ("\"" + (a + "\"")) == "[\"" + a + "\"";
    assert "," + ("\"" + (b + "\"")) + "]" == ",\"" + b + "\"]";
    Assoc("[", Quoted(a), "," + Quoted(b) + "]");
    Assoc(Quoted(a), "," + Quoted(b), "]");
    assert "[\"" + a + "\"" + (",\"" + b + "\"]") == "[\"" + a + "\",\"" + b + "\"]";
  }

  // ----- Reading -----

  predicate IsJsonSpace(c: char) {
    c == ' ' || c == '\t' || c == '\n' || c == '\r'
  }

  function SkipSpace(s: string): (r: string)
    ensures |r| <= |s|
  {
    if s != "" && IsJsonSpace(s[0]) then SkipSpace(s[1..]) else s
  }

  /** The unescaped characters of section 7 of RFC 8259. */
  predicate IsUnescaped(c: char) {
    c >= ' ' && c != '\"' && c != '\\'
  }

  function PlainRun(s: string): (n: nat)
    ensures n <= |s|
  {
    if s != "" && IsUnescaped(s[0]) then 1 + PlainRun(s[1..]) else 0
  }

  /** A JSON string without escape sequences; a string with one is not read. */
  function ReadString(s: string): (r: Option<(string, string)>)
    ensures r.Some? ==> |r.value.1| < |s|
  {
    if s == "" || s[0] != '\"' then None
    else
      var t := s[1..];
      var n := PlainRun(t);
      if n < |t| && t[n] == '\"' then Some((t[..n], t[n + 1..])) else None
  }

  /** One or more strings and the closing bracket. */
  function ReadStrings(s: string): Option<(seq<string>, string)>
    decreases |s|
  {
    match ReadString(SkipSpace(s))
    case None => None
    case Some((first, rest)) =>
      var t := SkipSpace(rest);
      if t != "" && t[0] == ']' then Some(([first], t[1..]))
      else if t != "" && t[0] == ',' then
        match ReadStrings(t[1..])
        case None => None
        case Some((others, behind)) => Some(([first] + others, behind))
      else None
  }

  /** A JSON array of strings that is the whole text (section 5 of RFC 8259). */
  function ReadArray(s: string): Option<seq<string>> {
    var t := SkipSpace(s);
    if t == "" || t[0] != '[' then None
    else
      var u := SkipSpace(t[1..]);
      if u != "" && u[0] == ']' then (if SkipSpace(u[1..]) == "" then Some([]) else None)
      else
        match ReadStrings(u)
        case None => None
        case Some((items, rest)) => if SkipSpace(rest) == "" then Some(items) else None
  }

  // ----- Round trip -----

  ghost predicate AllUnescaped(s: string) {
    forall k :: 0 <= k < |s| ==> IsUnescaped(s[k])
  }

  lemma {:induction false} PlainRunOf(s: string, rest: string)
    requires AllUnescaped(s) && rest != "" && !IsUnescaped(rest[0])
    ensures PlainRun(s + rest) == |s|
  {
    if s == "" {
      assert s + rest == rest;
    } else {
      assert (s + rest)[0] == s[0] && (s + rest)[1..] == s[1..] + rest;
      PlainRunOf(s[1..], rest);
    }
  }

  lemma ReadQuoted(s: string, rest: string)
    requires AllUnescaped(s)
    ensures ReadString(SkipSpace(Quoted(s) + rest)) == Some((s, rest))
  {
    var t := s + ("\"" + rest);
    Assoc("\"", s + "\"", rest);
    Assoc(s, "\"", rest);
    assert ("\"" + t)[0] == '\"' && ("\"" + t)[1..] == t;
    PlainRunOf(s, "\"" + rest);
    assert t[..|s|] == s && t[|s| + 1..] == rest;
  }

  lemma ReadLast(s: string, rest: string)
    requires AllUnescaped(s)
    ensures ReadStrings(Quoted(s) + ("]" + rest)) == Some(([s], rest))
  {
    ReadQuoted(s, "]" + rest);
    assert ("]" + rest)[1..] == rest;
  }

  lemma ReadNext(s: string, tail: string, items: seq<string>, rest: string)
    requires AllUnescaped(s) && ReadStrings(tail) == Some((items, rest))
    ensures ReadStrings(Quoted(s) + ("," + tail)) == Some(([s] + items, rest))
  {
    ReadQuoted(s, "," + tail);
    assert ("," + tail)[1..] == tail;
  }

  lemma {:induction false} ReadQuotedList(items: seq<string>, rest: string)
    requires items != [] && forall i :: 0 <= i < |items| ==> AllUnescaped(items[i])
    ensures ReadStrings(QuotedList(items) + ("]" + rest)) == Some((items, rest))
    decreases |items|
  {
    if |items| == 1 {
      ReadLast(items[0], rest);
      assert items == [items[0]];
    } else {
      ReadQuotedList(items[1..], rest);
      ReadNext(items[0], QuotedList(items[1..]) + ("]" + rest), items[1..], rest);
      Assoc(Quoted(items[0]), "," + QuotedList(items[1..]), "]" + rest);
      Assoc(",", QuotedList(items[1..]), "]" + rest);
      assert items == [items[0]] + items[1..];
    }
  }

  lemma StartsWithQuote(items: seq<string>, rest: string)
    requires items != []
    ensures QuotedList(items) + rest != "" && (QuotedList(items) + rest)[0] == '\"'
  {
    assert Quoted(items[0])[0] == '\"';
  }

  lemma ReadArrayOf(body: string, items: seq<string>)
    requires body != "" && body[0] == '\"' && ReadStrings(body) == Some((items, ""))
    ensures ReadArray("[" + body) == Some(items)
  {
    assert ("[" + body)[0] == '[' && ("[" + body)[1..] == body;
  }

  lemma EmptyArray()
    ensures ReadArray("[" + ("" + "]")) == Some([])
  {
    assert ("[" + ("" + "]"))[1..] == "]" && "]"[1..] == "";
  }

  /** Strings without characters that need escaping are read back from their array. */
  lemma ArrayRoundTrip(items: seq<string>)
    requires forall i :: 0 <= i < |items| ==> AllUnescaped(items[i])
    ensures ReadArray(ArrayText(items)) == Some(items)
  {
    if items == [] {
      EmptyArray();
    } else {
      ReadQuotedList(items, "");
      assert "]" + "" == "]";
      StartsWithQuote(items, "]");
      ReadArrayOf(QuotedList(items) + "]", items);
    }
  }

  lemma {:induction false} QuotedListAppend(items: seq<string>, last: string)
    requires items != []
    ensures QuotedList(items + [last]) == QuotedList(items) + "," + Quoted(last)
  {
    var all := items + [last];
    assert all[1..] == items[1..] + [last];
    var first, q := Quoted(items[0]), Quoted(last);
    if |items| == 1 {
      assert all[1..] == [last];
      Assoc(first, ",", q);
    } else {
      QuotedListAppend(items[1..], last);
      var tail := QuotedList(items[1..]);
      Assoc(tail, ",", q);
      Assoc(",", tail, "," + q);
      Assoc(first, "," + tail, "," + q);
      Assoc(QuotedList(items), ",", q);
    }
  }

  // ----- Objects -----

  type Member = (string, string)

  function MemberText(m: Member): string {
    Quoted(m.0) + (": " + Quoted(m.1))
  }

  function MembersText(members: seq<Member>): string {
    if members == [] then "}"
    else if |members| == 1 then MemberText(members[0]) + "}"
    else MemberText(members[0]) + (", " + MembersText(members[1..]))
  }

  function ObjectText(members: seq<Member>): string {
    "{" + MembersText(members)
  }

  /** How an object is written: a space behind colon and comma. */
  lemma ObjectOfTwo(a: string, b: string, c: string, d: string)
    ensures ObjectText([(a, b), (c, d)]) == "{\"" + a + "\": \"" + b + "\", \"" + c + "\": \"" + d + "\"}"
  {
    assert [(a, b), (c, d)][1..] == [(c, d)];
    var first, second := MemberText((a, b)), MemberText((c, d));
    assert MembersText([(a, b), (c, d)]) == first + (", " + (second + "}"));
    MemberIs(a, b);
    MemberIs(c, d);
    assert "{" + ("\"" + a + "\": \"" + b + "\"") == "{\"" + a + "\": \"" + b + "\"";
    assert ", " + ("\"" + c + "\": \"" + d + "\"" + "}") == ", \"" + c + "\": \"" + d + "\"}";
    Assoc("{", first, ", " + (second + "}"));
    var front := "{\"" + a + "\": \"" + b;
    assert front + "\"" + (", \"" + c + "\": \"" + d + "\"}") == front + "\", \"" + c + "\": \"" + d + "\"}";
  }

  lemma MemberIs(a: string, b: string)
    ensures MemberText((a, b)) == "\"" + a + "\": \"" + b + "\""
  {
    assert ": " + ("\"" + (b + "\"")) == ": \"" + b + "\"";
    assert "\"" + (a + "\"") + (": \"" + b + "\"") == "\"" + a + "\": \"" + b + "\"";
  }

  function ReadMember(s: string): (r: Option<(Member, string)>)
    ensures r.Some? ==> |r.value.1| < |s|
  {
    match ReadString(SkipSpace(s))
    case None => None
    case Some((name, rest)) =>
      var t := SkipSpace(rest);
      if t == "" || t[0] != ':' then None
      else
        match ReadString(SkipSpace(t[1..]))
        case None => None
        case Some((value, behind)) => Some(((name, value), behind))
  }

  /** One or more members and the closing brace. */
  function ReadMembers(s: string): Option<(seq<Member>, string)>
    decreases |s|
  {
    match ReadMember(s)
    case None => None
    case Some((first, rest)) =>
      var t := SkipSpace(rest);
      if t != "" && t[0] == '}' then Some(([first], t[1..]))
      else if t != "" && t[0] == ',' then
        match ReadMembers(t[1..])
        case None => None
        case Some((others, behind)) => Some(([first] + others, behind))
      else None
  }

  /** A JSON object of strings that is the whole text (section 4 of RFC 8259). */
  function ReadObject(s: string): Option<seq<Member>> {
    var t := SkipSpace(s);
    if t == "" || t[0] != '{' then None
    else
      var u := SkipSpace(t[1..]);
      if u != "" && u[0] == '}' then (if SkipSpace(u[1..]) == "" then Some([]) else None)
      else
        match ReadMembers(u)
        case None => None
        case Some((members, rest)) => if SkipSpace(rest) == "" then Some(members) else None
  }

  ghost predicate MemberUnescaped(m: Member) {
    AllUnescaped(m.0) && AllUnescaped(m.1)
  }

  lemma ReadSpace(s: string)
    ensures SkipSpace(" " + s) == SkipSpace(s)
    ensures ReadMembers(" " + s) == ReadMembers(s)
  {
    assert (" " + s)[1..] == s;
  }

  lemma ReadMemberOf(s: string, name: string, rest: string, tail: string, value: string, behind: string)
    requires ReadString(SkipSpace(s)) == Some((name, rest)) && rest != "" && rest[0] == ':' && rest[1..] == tail
    requires ReadString(SkipSpace(tail)) == Some((value, behind))
    ensures ReadMember(s) == Some(((name, value), behind))
  {
  }

  lemma ReadMemberText(m: Member, rest: string)
    requires MemberUnescaped(m)
    ensures ReadMember(MemberText(m) + rest) == Some((m, rest))
  {
    var value := Quoted(m.1) + rest;
    var behind := ": " + value;
    Assoc(Quoted(m.0), ": " + Quoted(m.1), rest);
    Assoc(": ", Quoted(m.1), rest);
    ReadQuoted(m.0, behind);
    assert behind[0] == ':' && behind[1..] == " " + value;
    ReadSpace(value);
    ReadQuoted(m.1, rest);
    ReadMemberOf(Quoted(m.0) + behind, m.0, behind, " " + value, m.1, rest);
  }

  lemma ReadLastMember(m: Member)
    requires MemberUnescaped(m)
    ensures ReadMembers(MemberText(m) + "}") == Some(([m], ""))
  {
    ReadMemberText(m, "}");
    assert "}"[1..] == "";
  }

  lemma ReadMembersOn(s: string, m: Member, rest: string, tail: string, members: seq<Member>)
    requires ReadMember(s) == Some((m, rest)) && rest != "" && rest[0] == ',' && rest[1..] == tail
    requires ReadMembers(tail) == Some((members, ""))
    ensures ReadMembers(s) == Some(([m] + members, ""))
  {
  }

  lemma ReadNextMember(m: Member, tail: string, members: seq<Member>)
    requires MemberUnescaped(m) && ReadMembers(tail) == Some((members, ""))
    ensures ReadMembers(MemberText(m) + (", " + tail)) == Some(([m] + members, ""))
  {
    var rest := ", " + tail;
    ReadMemberText(m, rest);
    assert rest[0] == ',' && rest[1..] == " " + tail;
    ReadSpace(tail);
    ReadMembersOn(MemberText(m) + rest, m, rest, " " + tail, members);
  }

  lemma {:induction false} ReadMembersText(members: seq<Member>)
    requires members != [] && forall i :: 0 <= i < |members| ==> MemberUnescaped(members[i])
    ensures ReadMembers(MembersText(members)) == Some((members, ""))
    decreases |members|
  {
    if |members| == 1 {
      ReadLastMember(members[0]);
      assert members == [members[0]];
    } else {
      ReadMembersText(members[1..]);
      ReadNextMember(members[0], MembersText(members[1..]), members[1..]);
      assert members == [members[0]] + members[1..];
    }
  }

  lemma ReadObjectOf(body: string, members: seq<Member>)
    requires body != "" && body[0] == '\"' && ReadMembers(body) == Some((members, ""))
    ensures ReadObject("{" + body) == Some(members)
  {
    assert ("{" + body)[0] == '{' && ("{" + body)[1..] == body;
  }

  lemma EmptyObject()
    ensures ReadObject("{" + "}") == Some([])
  {
    assert ("{" + "}")[1..] == "}" && "}"[1..] == "";
  }

  lemma MembersStartWithQuote(members: seq<Member>)
    requires members != []
    ensures MembersText(members) != "" && MembersText(members)[0] == '\"'
  {
    assert Quoted(members[0].0)[0] == '\"';
  }

  /** Members without characters that need escaping are read back from their object. */
  lemma ObjectRoundTrip(members: seq<Member>)
    requires forall i :: 0 <= i < |members| ==> MemberUnescaped(members[i])
    ensures ReadObject(ObjectText(members)) == Some(members)
  {
    if members == [] {
      EmptyObject();
    } else {
      ReadMembersText(members);
      MembersStartWithQuote(members);
      ReadObjectOf(MembersText(members), members);
    }
  }

  /** A member as the handlers append it: name and opening quote, value, closing quote and what follows. */
  lemma MemberPieces(start: string, name: string, value: string, tail: string)
    requires start == Quoted(name) + (": " + "\"")
    ensures start + value + ("\"" + tail) == MemberText((name, value)) + tail
  {
    Assoc(Quoted(name), ": " + "\"", value);
    Assoc(": ", "\"", value);
    Assoc(start, value, "\"" + tail);
    Assoc(Quoted(name), ": " + ("\"" + value), "\"" + tail);
    Assoc(": ", "\"" + value, "\"" + tail);
    Assoc("\"", value, "\"" + tail);
    Assoc(value, "\"", tail);
    Assoc("\"", value + "\"", tail);
    Assoc(": ", Quoted(value), tail);
    Assoc(Quoted(name), ": " + Quoted(value), tail);
  }
}
