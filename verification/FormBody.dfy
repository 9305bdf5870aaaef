/** meme_handler::body_check of src/meme_handler.cc: decoding and scanning a form body, with the regular
    expressions it uses as scanning functions. */
module FormBody {
  import opened Wrappers
  import opened UriCodec

  // ----- Character classes -----

  datatype CharClass = WordClass | ValueClass | Ampersand

  predicate IsWordChar(c: char) {
    '0' <= c <= '9' || 'A' <= c <= 'Z' || 'a' <= c <= 'z' || c == '_'
  }

  /** \w for word characters, and the class of caption characters. */
  predicate In(c: char, class_: CharClass) {
    match class_
    case WordClass => IsWordChar(c)
    case ValueClass => IsWordChar(c) || c == '.' || c == ',' || c == '?' || c == '!' || c == ' '
    case Ampersand => c == '&'
  }

  predicate AllIn(s: string, class_: CharClass) {
    forall k :: 0 <= k < |s| ==> In(s[k], class_)
  }

  /** The length of the longest prefix of `s` in the class. */
  function RunLength(s: string, class_: CharClass): (n: nat)
    ensures n <= |s|
  {
    if s != "" && In(s[0], class_) then 1 + RunLength(s[1..], class_) else 0
  }

  lemma {:induction false} RunIsIn(s: string, class_: CharClass)
    ensures AllIn(s[..RunLength(s, class_)], class_)
    ensures RunLength(s, class_) < |s| ==> !In(s[RunLength(s, class_)], class_)
  {
    var r := RunLength(s, class_);
    if r > 0 {
      RunIsIn(s[1..], class_);
      assert s[..r] == [s[0]] + s[1..][..r - 1];
    }
  }

  lemma RunIsMaximal(s: string, class_: CharClass, n: nat)
    requires n <= |s| && AllIn(s[..n], class_)
    ensures n <= RunLength(s, class_)
  {
    RunIsIn(s, class_);
  }

  lemma {:induction false} RunOf(w: string, s: string, class_: CharClass)
    requires AllIn(w, class_) && (s != "" ==> !In(s[0], class_))
    ensures RunLength(w + s, class_) == |w|
  {
    if w == "" {
      assert w + s == s;
    } else {
      assert (w + s)[0] == w[0] && (w + s)[1..] == w[1..] + s;
      RunOf(w[1..], s, class_);
    }
  }

  // ----- The pair pattern (\w+)=([\w.,?! ]+)&* -----

  datatype Pair = Pair(key: string, value: string)

  /** The pattern matches at the start of `s`, with a key, a value and trailing `&` of these lengths. */
  ghost predicate PatternMatches(s: string, key: nat, value: nat, ands: nat) {
    && key > 0 && value > 0 && key + 1 + value + ands <= |s|
    && AllIn(s[..key], WordClass)
    && s[key] == '='
    && AllIn(s[key + 1..][..value], ValueClass)
    && AllIn(s[key + 1..][value..][..ands], Ampersand)
  }

  /** The length of the value that follows a key and `=`. */
  function ValueRun(s: string): nat {
    var key := RunLength(s, WordClass);
    if key == 0 || key == |s| || s[key] != '=' then 0 else RunLength(s[key + 1..], ValueClass)
  }

  /** The match at the start of `s`, and the text behind it. */
  function PairAt(s: string): (r: Option<(Pair, string)>)
    ensures r.Some? ==> |r.value.1| < |s|
  {
    var key, value := RunLength(s, WordClass), ValueRun(s);
    if value == 0 then None
    else
      var behind := s[key + 1..][value..];
      Some((Pair(s[..key], s[key + 1..][..value]), behind[RunLength(behind, Ampersand)..]))
  }

  /** The match in terms of the three runs. */
  lemma PairAtRuns(s: string, key: nat, value: nat, ands: nat)
    requires 0 < key < |s| && key == RunLength(s, WordClass) && s[key] == '='
    requires 0 < value && value == RunLength(s[key + 1..], ValueClass)
    requires ands == RunLength(s[key + 1..][value..], Ampersand)
    ensures PairAt(s) == Some((Pair(s[..key], s[key + 1..][..value]), s[key + 1..][value..][ands..]))
  {
  }

  /** What the scanning function returns is a match of the pattern. */
  lemma PairAtMatches(s: string) returns (key: nat, value: nat, ands: nat)
    requires PairAt(s).Some?
    ensures PatternMatches(s, key, value, ands)
    ensures PairAt(s) == Some((Pair(s[..key], s[key + 1..][..value]), s[key + 1..][value..][ands..]))
  {
    key, value := RunLength(s, WordClass), ValueRun(s);
    ands := RunLength(s[key + 1..][value..], Ampersand);
    RunIsIn(s, WordClass);
    RunIsIn(s[key + 1..], ValueClass);
    RunIsIn(s[key + 1..][value..], Ampersand);
  }

  /** And it is the one that greedy matching takes: there is a match whenever the pattern has one, no
      match has another key, a longer value, or after that value more `&`. */
  lemma PairAtIsGreedy(s: string, key: nat, value: nat, ands: nat)
    requires PatternMatches(s, key, value, ands)
    ensures PairAt(s).Some? && key == RunLength(s, WordClass) && value <= ValueRun(s)
    ensures value == ValueRun(s) ==> ands <= RunLength(s[key + 1..][value..], Ampersand)
  {
    RunIsMaximal(s, WordClass, key);
    RunIsIn(s, WordClass);
    assert forall k :: 0 <= k < RunLength(s, WordClass) ==> s[..RunLength(s, WordClass)][k] == s[k];
    RunIsMaximal(s[key + 1..], ValueClass, value);
    RunIsMaximal(s[key + 1..][value..], Ampersand, ands);
  }

  /** The leftmost match anywhere in `s`. */
  function FindPair(s: string): (r: Option<(Pair, string)>)
    ensures r.Some? ==> |r.value.1| < |s|
  {
    if PairAt(s).Some? then PairAt(s)
    else if s == "" then None
    else FindPair(s[1..])
  }

  /** No match starts further left than the one found. */
  lemma {:induction false} FindPairIsLeftmost(s: string) returns (i: nat)
    ensures i <= |s| && FindPair(s) == PairAt(s[i..])
    ensures forall j :: 0 <= j < i ==> PairAt(s[j..]).None?
    ensures FindPair(s).None? ==> i == |s|
  {
    if PairAt(s).Some? || s == "" {
      i := 0;
      assert s[0..] == s;
    } else {
      i := FindPairIsLeftmost(s[1..]);
      forall j | 0 <= j < i + 1 ensures PairAt(s[j..]).None? {
        assert j > 0 ==> s[j..] == s[1..][j - 1..];
        assert s[0..] == s;
      }
      assert s[i + 1..] == s[1..][i..];
      i := i + 1;
    }
  }

  /** What iterating over all matches yields. */
  function Pairs(s: string): seq<Pair>
    decreases |s|
  {
    match FindPair(s)
    case None => []
    case Some((p, rest)) => [p] + Pairs(rest)
  }

  /** The last value of a key, or nothing. */
  function LastValue(pairs: seq<Pair>, key: string): string {
    if pairs == [] then ""
    else
      var last := pairs[|pairs| - 1];
      if last.key == key then last.value else LastValue(pairs[..|pairs| - 1], key)
  }

  lemma LastValueAppend(pairs: seq<Pair>, p: Pair, key: string)
    ensures LastValue(pairs + [p], key) == if p.key == key then p.value else LastValue(pairs, key)
  {
    assert (pairs + [p])[..|pairs|] == pairs;
  }

  // ----- The check -----

  /** \w+.jpg somewhere in the string; the dot stands for any character but a line end. */
  predicate HasTemplate(s: string) {
    exists k :: 0 <= k && k + 5 <= |s| && IsWordChar(s[k])
      && s[k + 1] != '\n' && s[k + 1] != '\r' && s[k + 2..k + 5] == "jpg"
  }

  predicate HasCaption(s: string) {
    exists k :: 0 <= k < |s| && In(s[k], ValueClass)
  }

  /** `Thrown` is the decoder's exception. */
  datatype Checked = Thrown | Rejected | Params(template: string, top: string, bottom: string)

  const TEMPLATE_KEY: string := "memeSelect"
  const TOP_KEY: string := "topCaption"
  const BOTTOM_KEY: string := "bottomCaption"

  function CheckPairs(pairs: seq<Pair>): Checked {
    var t, a, b := LastValue(pairs, TEMPLATE_KEY), LastValue(pairs, TOP_KEY), LastValue(pairs, BOTTOM_KEY);
    if HasTemplate(t) && HasCaption(a) && HasCaption(b) then Params(t, a, b) else Rejected
  }

  function CheckBody(body: string): Checked {
    match Decode(body)
    case None => Thrown
    case Some(text) => CheckPairs(Pairs(text))
  }

  /** The three values that have been collected from the pairs. */
  datatype Fields = Fields(template: string, top: string, bottom: string)

  function Collected(pairs: seq<Pair>): Fields {
    Fields(LastValue(pairs, TEMPLATE_KEY), LastValue(pairs, TOP_KEY), LastValue(pairs, BOTTOM_KEY))
  }

  /** The loop body of the check: a later pair of the same key wins. */
  method Collect(before: Fields, p: Pair, ghost pairs: seq<Pair>) returns (after: Fields)
    requires before == Collected(pairs)
    ensures after == Collected(pairs + [p])
  {
    after := before;
    if p.key == TEMPLATE_KEY {
      after := after.(template := p.value);
    } else if p.key == TOP_KEY {
      after := after.(top := p.value);
    } else if p.key == BOTTOM_KEY {
      after := after.(bottom := p.value);
    }
    LastValueAppend(pairs, p, TEMPLATE_KEY);
    LastValueAppend(pairs, p, TOP_KEY);
    LastValueAppend(pairs, p, BOTTOM_KEY);
  }

  lemma PairsAppend(seen: seq<Pair>, s: string)
    requires FindPair(s).Some?
    ensures seen + Pairs(s) == seen + [FindPair(s).value.0] + Pairs(FindPair(s).value.1)
  {
  }

  /** Iterates over all matches in `text`. */
  method CollectAll(text: string) returns (fields: Fields)
    ensures fields == Collected(Pairs(text))
  {
    fields := Fields("", "", "");
    var rest := text;
    ghost var seen: seq<Pair> := [];
    var iter := FindPair(rest);
    while iter.Some?
      invariant iter == FindPair(rest)
      invariant Pairs(text) == seen + Pairs(rest)
      invariant fields == Collected(seen)
      decreases |rest|
    {
      var p := iter.value.0;
      fields := Collect(fields, p, seen);
      PairsAppend(seen, rest);
      seen := seen + [p];
      rest := iter.value.1;
      iter := FindPair(rest);
    }
    assert seen + [] == seen;
  }

  method BodyCheck(body: string) returns (r: Checked)
    ensures r == CheckBody(body)
  {
    var decoded := UriDecode(body);
    if decoded.None? {
      return Thrown;
    }
    var fields := CollectAll(decoded.value);
    if !HasTemplate(fields.template) || !HasCaption(fields.top) || !HasCaption(fields.bottom) {
      return Rejected;
    }
    return Params(fields.template, fields.top, fields.bottom);
  }

  // ----- What can get through -----

  predicate IsValue(s: string): (r: bool)
    ensures r ==> IsBytes(s)
  {
    s != "" && AllIn(s, ValueClass)
  }

  predicate ValidParams(template: string, top: string, bottom: string) {
    IsValue(template) && HasTemplate(template) && IsValue(top) && IsValue(bottom)
  }

  lemma {:induction false} FoundPairIsValue(s: string)
    ensures FindPair(s).Some? ==> IsValue(FindPair(s).value.0.value)
  {
    if PairAt(s).Some? {
      var _, _, _ := PairAtMatches(s);
    } else if s != "" {
      FoundPairIsValue(s[1..]);
    }
  }

  lemma {:induction false} PairsAreValues(s: string)
    ensures forall p :: p in Pairs(s) ==> IsValue(p.value)
    decreases |s|
  {
    FoundPairIsValue(s);
    if FindPair(s).Some? {
      PairsAreValues(FindPair(s).value.1);
    }
  }

  lemma {:induction false} LastValueIsValue(pairs: seq<Pair>, key: string)
    requires forall p :: p in pairs ==> IsValue(p.value)
    ensures LastValue(pairs, key) == "" || IsValue(LastValue(pairs, key))
  {
    if pairs != [] {
      assert pairs[|pairs| - 1] in pairs;
      assert forall p :: p in pairs[..|pairs| - 1] ==> p in pairs;
      LastValueIsValue(pairs[..|pairs| - 1], key);
    }
  }

  /** Whatever the body, accepted parameters are non-empty and of the caption alphabet. */
  lemma AcceptedIsValid(body: string)
    ensures CheckBody(body).Params? ==>
              ValidParams(CheckBody(body).template, CheckBody(body).top, CheckBody(body).bottom)
  {
    if CheckBody(body).Params? {
      var pairs := Pairs(Decode(body).value);
      PairsAreValues(Decode(body).value);
      LastValueIsValue(pairs, TEMPLATE_KEY);
      LastValueIsValue(pairs, TOP_KEY);
      LastValueIsValue(pairs, BOTTOM_KEY);
    }
  }

  // ----- Forms -----

  /** A form with three fields. */
  function FormText(k1: string, v1: string, k2: string, v2: string, k3: string, v3: string): string {
    k1 + (['='] + (v1 + (['&'] + (k2 + (['='] + (v2 + (['&'] + (k3 + (['='] + v3)))))))))
  }

  /** A body with the three fields, each value in some encoding. */
  ghost predicate IsForm(body: string, template: string, top: string, bottom: string) {
    exists t, a, b :: Encodes(t, template) && Encodes(a, top) && Encodes(b, bottom)
      && body == FormText(TEMPLATE_KEY, t, TOP_KEY, a, BOTTOM_KEY, b)
  }

  /** The form in the encoding of UriEncode. */
  function Form(template: string, top: string, bottom: string): string
    requires IsBytes(template) && IsBytes(top) && IsBytes(bottom)
  {
    FormText(TEMPLATE_KEY, Encode(template), TOP_KEY, Encode(top), BOTTOM_KEY, Encode(bottom))
  }

  /** The form that the client sends. */
  function ClientForm(template: string, top: string, bottom: string): string
    requires IsBytes(template) && IsBytes(top) && IsBytes(bottom)
  {
    FormText(TEMPLATE_KEY, ClientEncode(template), TOP_KEY, ClientEncode(top), BOTTOM_KEY, ClientEncode(bottom))
  }

  lemma FormsAreForms(template: string, top: string, bottom: string)
    requires IsBytes(template) && IsBytes(top) && IsBytes(bottom)
    ensures IsForm(Form(template, top, bottom), template, top, bottom)
    ensures IsForm(ClientForm(template, top, bottom), template, top, bottom)
  {
    EncodeEncodes(template);
    EncodeEncodes(top);
    EncodeEncodes(bottom);
    ClientEncodes(template);
    ClientEncodes(top);
    ClientEncodes(bottom);
  }

  ghost predicate IsKey(key: string) {
    key != "" && AllIn(key, WordClass)
  }

  lemma DecodeField(key: string, code: string, value: string, rest: string)
    requires IsKey(key) && Encodes(code, value)
    ensures Decode(key + (['='] + (code + rest))) == Prefixed(key + (['='] + value), Decode(rest))
  {
    DecodePlainPrefix(key, ['='] + (code + rest));
    DecodePlainPrefix(['='], code + rest);
    DecodeCodePrefix(code, value, rest);
    PrefixedTwice(['='], value, Decode(rest));
    PrefixedTwice(key, ['='] + value, Decode(rest));
  }

  lemma DecodeNextField(key: string, code: string, value: string, rest: string)
    requires IsKey(key) && Encodes(code, value)
    ensures Decode(['&'] + (key + (['='] + (code + rest)))) == Prefixed(['&'] + (key + (['='] + value)), Decode(rest))
  {
    DecodePlainPrefix(['&'], key + (['='] + (code + rest)));
    DecodeField(key, code, value, rest);
    PrefixedTwice(['&'], key + (['='] + value), Decode(rest));
  }

  lemma FormDecodes(k1: string, c1: string, v1: string, k2: string, c2: string, v2: string,
                    k3: string, c3: string, v3: string)
    requires IsKey(k1) && IsKey(k2) && IsKey(k3) && Encodes(c1, v1) && Encodes(c2, v2) && Encodes(c3, v3)
    ensures Decode(FormText(k1, c1, k2, c2, k3, c3)) == Some(FormText(k1, v1, k2, v2, k3, v3))
  {
    var third := ['&'] + (k3 + (['='] + (c3 + "")));
    var second := ['&'] + (k2 + (['='] + (c2 + third)));
    assert c3 + "" == c3;
    DecodeNextField(k3, c3, v3, "");
    DecodeNextField(k2, c2, v2, third);
    DecodeField(k1, c1, v1, second);
    var f1, f2, f3 := k1 + (['='] + v1), ['&'] + (k2 + (['='] + v2)), ['&'] + (k3 + (['='] + v3));
    assert f3 + "" == f3;
    FormTextPieces(k1, v1, k2, v2, k3, v3);
  }

  lemma FormTextPieces(k1: string, v1: string, k2: string, v2: string, k3: string, v3: string)
    ensures FormText(k1, v1, k2, v2, k3, v3)
            == k1 + (['='] + v1) + (['&'] + (k2 + (['='] + v2)) + (['&'] + (k3 + (['='] + v3))))
  {
    var third := ['&'] + (k3 + (['='] + v3));
    var second := ['&'] + (k2 + (['='] + (v2 + third)));
    assert second == ['&'] + (k2 + (['='] + v2)) + third;
    assert k1 + (['='] + (v1 + second)) == k1 + (['='] + v1) + second;
  }

  /** One field of a form, followed by the end or by `&`. */
  lemma FieldIsPair(key: string, value: string, ands: string, rest: string)
    requires IsKey(key) && IsValue(value)
    requires AllIn(ands, Ampersand) && (rest != "" ==> rest[0] != '&')
    requires ands == "" ==> rest == ""
    ensures FindPair(key + (['='] + (value + (ands + rest)))) == Some((Pair(key, value), rest))
  {
    var u := ands + rest;
    var t := value + u;
    var s := key + (['='] + t);
    RunOf(key, ['='] + t, WordClass);
    assert s[..|key|] == key && s[|key| + 1..] == t;
    RunOf(value, u, ValueClass);
    assert t[..|value|] == value && t[|value|..] == u;
    RunOf(ands, rest, Ampersand);
    assert u[|ands|..] == rest;
    PairAtRuns(s, |key|, |value|, |ands|);
  }

  lemma FieldPairs(key: string, value: string, ands: string, rest: string)
    requires IsKey(key) && IsValue(value)
    requires AllIn(ands, Ampersand) && (rest != "" ==> rest[0] != '&')
    requires ands == "" ==> rest == ""
    ensures Pairs(key + (['='] + (value + (ands + rest)))) == [Pair(key, value)] + Pairs(rest)
  {
    FieldIsPair(key, value, ands, rest);
  }

  lemma LastFieldPairs(key: string, value: string)
    requires IsKey(key) && IsValue(value)
    ensures Pairs(key + (['='] + value)) == [Pair(key, value)]
  {
    FieldPairs(key, value, "", "");
    assert value + ("" + "") == value;
    assert Pairs("") == [];
  }

  lemma FormPairs(k1: string, v1: string, k2: string, v2: string, k3: string, v3: string)
    requires IsKey(k1) && IsKey(k2) && IsKey(k3) && IsValue(v1) && IsValue(v2) && IsValue(v3)
    ensures Pairs(FormText(k1, v1, k2, v2, k3, v3)) == [Pair(k1, v1), Pair(k2, v2), Pair(k3, v3)]
  {
    var third := k3 + (['='] + v3);
    var second := k2 + (['='] + (v2 + (['&'] + third)));
    LastFieldPairs(k3, v3);
    FieldPairs(k2, v2, ['&'], third);
    FieldPairs(k1, v1, ['&'], second);
  }

  lemma ThreeValues(k1: string, v1: string, k2: string, v2: string, k3: string, v3: string)
    requires k1 != k2 && k2 != k3 && k1 != k3
    ensures var pairs := [Pair(k1, v1), Pair(k2, v2), Pair(k3, v3)];
            LastValue(pairs, k1) == v1 && LastValue(pairs, k2) == v2 && LastValue(pairs, k3) == v3
  {
    var one, two := [Pair(k1, v1)], [Pair(k1, v1)] + [Pair(k2, v2)];
    assert [Pair(k1, v1), Pair(k2, v2), Pair(k3, v3)] == two + [Pair(k3, v3)];
    forall key ensures LastValue(two + [Pair(k3, v3)], key) ==
      if key == k3 then v3 else if key == k2 then v2 else if key == k1 then v1 else ""
    {
      LastValueAppend(two, Pair(k3, v3), key);
      LastValueAppend(one, Pair(k2, v2), key);
    }
  }

  lemma KeysAreKeys()
    ensures IsKey(TEMPLATE_KEY) && IsKey(TOP_KEY) && IsKey(BOTTOM_KEY)
    ensures TEMPLATE_KEY != TOP_KEY
    ensures TOP_KEY != BOTTOM_KEY
    ensures TEMPLATE_KEY != BOTTOM_KEY
  {
    assert |TEMPLATE_KEY| == |TOP_KEY| == 10 && |BOTTOM_KEY| == 13;
    assert TOP_KEY == "top" + "Caption" && BOTTOM_KEY == "bottom" + "Caption";
    assert TEMPLATE_KEY[0] == 'm' && TOP_KEY[0] == 't';
  }

  /** A form, in any encoding, is checked to exactly its three values if and only if they are valid. */
  lemma FormRoundTrip(body: string, template: string, top: string, bottom: string)
    requires IsForm(body, template, top, bottom)
    ensures CheckBody(body) == Params(template, top, bottom) <==> ValidParams(template, top, bottom)
  {
    AcceptedIsValid(body);
    if ValidParams(template, top, bottom) {
      var t, a, b :| Encodes(t, template) && Encodes(a, top) && Encodes(b, bottom)
        && body == FormText(TEMPLATE_KEY, t, TOP_KEY, a, BOTTOM_KEY, b);
      KeysAreKeys();
      FormDecodes(TEMPLATE_KEY, t, template, TOP_KEY, a, top, BOTTOM_KEY, b, bottom);
      FormPairs(TEMPLATE_KEY, template, TOP_KEY, top, BOTTOM_KEY, bottom);
      ThreeValues(TEMPLATE_KEY, template, TOP_KEY, top, BOTTOM_KEY, bottom);
      assert In(top[0], ValueClass) && In(bottom[0], ValueClass);
    }
  }

  // ----- The check in literal terms -----

  /** The template pattern: somewhere a word character or more, any character but a line end, and `jpg`. */
  ghost predicate TemplateMatch(s: string, before: string, word: string, any: char, behind: string) {
    && s == before + (word + ([any] + ("jpg" + behind)))
    && word != "" && any != '\n' && any != '\r'
    && forall c :: c in word ==> '0' <= c <= '9' || 'A' <= c <= 'Z' || 'a' <= c <= 'z' || c == '_'
  }

  lemma TemplateIsMatched(s: string) returns (k: nat)
    requires HasTemplate(s)
    ensures k + 5 <= |s| && TemplateMatch(s, s[..k], [s[k]], s[k + 1], s[k + 5..])
  {
    k :| k + 5 <= |s| && IsWordChar(s[k]) && s[k + 1] != '\n' && s[k + 1] != '\r' && s[k + 2..k + 5] == "jpg";
    FivePieces(s, k);
  }

  lemma FivePieces(s: string, k: nat)
    requires k + 5 <= |s|
    ensures s == s[..k] + ([s[k]] + ([s[k + 1]] + (s[k + 2..k + 5] + s[k + 5..])))
  {
  }

  lemma TemplatePattern(s: string)
    ensures HasTemplate(s) <==> exists before, word, any, behind :: TemplateMatch(s, before, word, any, behind)
  {
    if HasTemplate(s) {
      var k := TemplateIsMatched(s);
    }
    if before, word, any, behind :| TemplateMatch(s, before, word, any, behind) {
      MatchHasTemplate(s, before, word, any, behind);
    }
  }

  lemma MatchHasTemplate(s: string, before: string, word: string, any: char, behind: string)
    requires TemplateMatch(s, before, word, any, behind)
    ensures HasTemplate(s)
  {
    var k := |before| + |word| - 1;
    assert s[k] == word[|word| - 1] && s[k] in word;
    assert s[k + 1] == any;
    assert s[k + 2..k + 5] == "jpg";
  }

  /** Caption characters are letters, digits and these six. */
  lemma ValueCharacters(s: string)
    ensures IsValue(s) <==>
            && s != ""
            && forall c :: c in s ==>
                 '0' <= c <= '9' || 'A' <= c <= 'Z' || 'a' <= c <= 'z' || c in {'_', '.', ',', '?', '!', ' '}
  {
    assert forall k :: 0 <= k < |s| ==> s[k] in s;
  }

  /** The last value of a key is that of its last pair. */
  lemma {:induction false} LastValueIsLast(pairs: seq<Pair>, key: string) returns (i: nat)
    ensures if exists j :: 0 <= j < |pairs| && pairs[j].key == key then
              i < |pairs| && pairs[i] == Pair(key, LastValue(pairs, key))
              && forall j :: i < j < |pairs| ==> pairs[j].key != key
            else LastValue(pairs, key) == ""
  {
    i := 0;
    if pairs != [] {
      var last := |pairs| - 1;
      if pairs[last].key == key {
        i := last;
      } else {
        i := LastValueIsLast(pairs[..last], key);
        if j :| 0 <= j < |pairs| && pairs[j].key == key {
          assert pairs[..last][j].key == key;
        }
      }
    }
  }

  /** The outcome of the check: an exception if the body does not decode; otherwise the last values of the
      three keys, if the first of them names a template and the others are there. */
  lemma CheckOutcome(body: string)
    ensures Decode(body).None? ==> CheckBody(body) == Thrown
    ensures Decode(body).Some? ==>
              var pairs := Pairs(Decode(body).value);
              var t, a := LastValue(pairs, "memeSelect"), LastValue(pairs, "topCaption");
              var b := LastValue(pairs, "bottomCaption");
              CheckBody(body) == if HasTemplate(t) && a != "" && b != "" then Params(t, a, b) else Rejected
  {
    if Decode(body).Some? {
      var pairs := Pairs(Decode(body).value);
      PairsAreValues(Decode(body).value);
      LastValueIsValue(pairs, TOP_KEY);
      LastValueIsValue(pairs, BOTTOM_KEY);
      ValueHasCaption(LastValue(pairs, TOP_KEY));
      ValueHasCaption(LastValue(pairs, BOTTOM_KEY));
    }
  }

  lemma ValueHasCaption(s: string)
    requires s == "" || IsValue(s)
    ensures HasCaption(s) <==> s != ""
  {
    assert s != "" ==> In(s[0], ValueClass);
  }

  lemma {:induction false} ValueEncodesItself(s: string)
    requires AllIn(s, ValueClass)
    ensures Encodes(s, s)
  {
    if s != "" {
      assert s[0] != '%' && s[0] != '+';
      ValueEncodesItself(s[1..]);
    }
  }

  lemma JpgIsTemplate(word: string)
    requires word != ""
    requires forall c :: c in word ==> '0' <= c <= '9' || 'A' <= c <= 'Z' || 'a' <= c <= 'z' || c == '_'
    ensures IsValue(word + ".jpg") && HasTemplate(word + ".jpg")
  {
    var s := word + ".jpg";
    assert ['.'] + ("jpg" + "") == ".jpg" && "" + s == s;
    assert TemplateMatch(s, "", word, '.', "");
    MatchHasTemplate(s, "", word, '.', "");
    forall c | c in s
      ensures '0' <= c <= '9' || 'A' <= c <= 'Z' || 'a' <= c <= 'z' || c in {'_', '.', ',', '?', '!', ' '}
    {
      assert c in word || c in ".jpg";
    }
    ValueCharacters(s);
  }

  /** Every form with a template `word.jpg` and two captions, in any encoding, is checked to these. */
  lemma JpgFormIsChecked(body: string, word: string, top: string, bottom: string)
    requires word != ""
    requires forall c :: c in word ==> '0' <= c <= '9' || 'A' <= c <= 'Z' || 'a' <= c <= 'z' || c == '_'
    requires top != "" && bottom != ""
    requires forall c :: c in top + bottom ==>
               '0' <= c <= '9' || 'A' <= c <= 'Z' || 'a' <= c <= 'z' || c in {'_', '.', ',', '?', '!', ' '}
    requires IsForm(body, word + ".jpg", top, bottom)
             || body == "memeSelect=" + (word + ".jpg") + "&topCaption=" + top + "&bottomCaption=" + bottom
    ensures CheckBody(body) == Params(word + ".jpg", top, bottom)
  {
    JpgIsTemplate(word);
    assert forall c :: c in top || c in bottom ==> c in top + bottom;
    ValueCharacters(top);
    ValueCharacters(bottom);
    if !IsForm(body, word + ".jpg", top, bottom) {
      ValueEncodesItself(word + ".jpg");
      ValueEncodesItself(top);
      ValueEncodesItself(bottom);
      PlainFormText(word + ".jpg", top, bottom);
    }
    FormRoundTrip(body, word + ".jpg", top, bottom);
  }

  lemma PlainFormText(t: string, a: string, b: string)
    ensures FormText(TEMPLATE_KEY, t, TOP_KEY, a, BOTTOM_KEY, b)
            == "memeSelect=" + t + "&topCaption=" + a + "&bottomCaption=" + b
  {
    assert ['&'] + TOP_KEY + ['='] == "&topCaption=" && ['&'] + BOTTOM_KEY + ['='] == "&bottomCaption=";
    assert TEMPLATE_KEY + ['='] == "memeSelect=";
    var third := ['&'] + (BOTTOM_KEY + (['='] + b));
    assert third == ['&'] + BOTTOM_KEY + ['='] + b;
    var second := ['&'] + (TOP_KEY + (['='] + (a + third)));
    assert second == ['&'] + TOP_KEY + ['='] + (a + third);
  }
}
