/** The percent codec of src/uri_lib.cc (section 2.1 of RFC 3986), on strings of bytes. */
module UriCodec {
  import opened Wrappers
  import opened Numbers
  import opened Sequences

  predicate IsByte(c: char) {
    c as int < 256
  }

  predicate IsBytes(s: string) {
    forall k :: 0 <= k < |s| ==> IsByte(s[k])
  }

  const HEX_DIGITS: string := "0123456789abcdef"

  /** `%` and two lower-case hexadecimal digits. */
  function CharToHex(c: char): (s: string)
    requires IsByte(c)
    ensures |s| == 3
  {
    ['%', HEX_DIGITS[c as int / 16], HEX_DIGITS[c as int % 16]]
  }

  /** Stream extraction of a short in base 16, truncated to a byte; `None` is the thrown exception. */
  function HexToChar(s: string): (r: Option<char>)
    ensures r.Some? ==> IsByte(r.value)
  {
    if s == "" then Some(0 as char)
    else
      match ScanInteger(16, s)
      case None => None
      case Some(n) => if -SHORT_MAX - 1 <= n <= SHORT_MAX then Some((n % 256) as char) else None
  }

  predicate IsPlain(c: char) {
    c == '-' || '0' <= c <= '9' || 'A' <= c <= 'Z' || c == '_' || 'a' <= c <= 'z' || c == '~'
  }

  function EncodeChar(c: char): (s: string)
    requires IsByte(c)
    ensures 1 <= |s| <= 3
  {
    if IsPlain(c) then [c] else CharToHex(c)
  }

  function Encode(s: string): string
    requires IsBytes(s)
  {
    if s == "" then "" else EncodeChar(s[0]) + Encode(s[1..])
  }

  /** The first decoded character and the text behind its code; `None` is the thrown exception. */
  function DecodeChar(s: string): (r: Option<(char, string)>)
    requires s != ""
    ensures r.Some? ==> |r.value.1| < |s| <= |r.value.1| + 3
  {
    if s[0] == '%' then
      var n := if |s| < 3 then |s| else 3;
      match HexToChar(s[1..n])
      case None => None
      case Some(c) => Some((c, s[n..]))
    else if s[0] == '+' then Some((' ', s[1..]))
    else Some((s[0], s[1..]))
  }

  function Decode(s: string): Option<string>
    decreases |s|
  {
    if s == "" then Some("")
    else
      match DecodeChar(s)
      case None => None
      case Some((c, rest)) => Prefixed([c], Decode(rest))
  }

  function Prefixed(prefix: string, r: Option<string>): Option<string> {
    match r
    case None => None
    case Some(s) => Some(prefix + s)
  }

  // ----- The loops -----

  method UriEncode(toEncode: string) returns (text: string)
    requires IsBytes(toEncode)
    ensures text == Encode(toEncode)
  {
    text := "";
    for i := 0 to |toEncode|
      invariant text == Encode(toEncode[..i])
    {
      var c := toEncode[i];
      assert toEncode[..i + 1] == toEncode[..i] + [c];
      EncodeOfConcat(toEncode[..i], [c]);
      assert Encode([c]) == EncodeChar(c);
      if IsPlain(c) {
        text := text + [c];
      } else {
        text := text + CharToHex(c);
      }
    }
    assert toEncode[..|toEncode|] == toEncode;
  }

  function Rest(s: string, i: nat): string {
    if i < |s| then s[i..] else ""
  }

  /** The index also advances inside the loop, possibly beyond the end. */
  method UriDecode(toDecode: string) returns (text: Option<string>)
    ensures text == Decode(toDecode)
  {
    var out := "";
    var i := 0;
    PrefixedNothing("", Decode(toDecode));
    while i < |toDecode|
      invariant Decode(toDecode) == Prefixed(out, Decode(Rest(toDecode, i)))
    {
      ghost var todo := Rest(toDecode, i);
      DecodeNext(out, todo);
      var c := toDecode[i];
      if c == '%' {
        // substr(i + 1, 2) stops at the end of the string.
        var end := if i + 3 < |toDecode| then i + 3 else |toDecode|;
        CodeAt(toDecode, i);
        var decoded := HexToChar(toDecode[i + 1..end]);
        if decoded.None? {
          return None;
        }
        out := out + [decoded.value];
        i := i + 2;
      } else if c == '+' {
        out := out + [' '];
      } else {
        out := out + [c];
      }
      i := i + 1;
    }
    PrefixedNothing(out, Some(""));
    return Some(out);
  }

  lemma CodeAt(s: string, i: nat)
    requires i < |s|
    ensures var end := if i + 3 < |s| then i + 3 else |s|;
            var n := if |s[i..]| < 3 then |s[i..]| else 3;
            s[i + 1..end] == s[i..][1..n] && Rest(s, i + 3) == s[i..][n..]
  {
  }

  lemma DecodeNext(out: string, s: string)
    requires s != ""
    ensures Prefixed(out, Decode(s)) ==
            match DecodeChar(s)
            case None => None
            case Some((c, rest)) => Prefixed(out + [c], Decode(rest))
  {
    if DecodeChar(s).Some? {
      PrefixedTwice(out, [DecodeChar(s).value.0], Decode(DecodeChar(s).value.1));
    }
  }

  lemma PrefixedTwice(a: string, b: string, r: Option<string>)
    ensures Prefixed(a, Prefixed(b, r)) == Prefixed(a + b, r)
  {
    if r.Some? {
      Assoc(a, b, r.value);
    }
  }

  lemma PrefixedNothing(a: string, r: Option<string>)
    ensures Prefixed("", r) == r
    ensures Prefixed(a, Some("")) == Some(a)
  {
    assert a + "" == a;
    if r.Some? {
      assert "" + r.value == r.value;
    }
  }

  // ----- Properties -----

  lemma {:induction false} EncodeOfConcat(a: string, b: string)
    requires IsBytes(a) && IsBytes(b)
    ensures IsBytes(a + b) && Encode(a + b) == Encode(a) + Encode(b)
  {
    if a == "" {
      assert a + b == b;
    } else {
      EncodeOfConcat(a[1..], b);
      RestOfConcat(a, b);
      Assoc(EncodeChar(a[0]), Encode(a[1..]), Encode(b));
    }
  }

  lemma HexDigitValue(n: nat)
    requires n < 16
    ensures DigitValue(HEX_DIGITS[n]) == n
    ensures !IsSpace(HEX_DIGITS[n]) && HEX_DIGITS[n] !in "+-xX"
  {
  }

  /** A two-digit code is read back as its character. */
  lemma HexRoundTrip(c: char)
    requires IsByte(c)
    ensures HexToChar(CharToHex(c)[1..]) == Some(c)
  {
    var h, l := HEX_DIGITS[c as int / 16], HEX_DIGITS[c as int % 16];
    HexDigitValue(c as int / 16);
    HexDigitValue(c as int % 16);
    assert CharToHex(c)[1..] == [h, l];
    TwoDigitsToChar(h, l, c as int / 16, c as int % 16);
  }

  lemma TwoDigitsToChar(h: char, l: char, high: nat, low: nat)
    requires high < 16 && low < 16 && DigitValue(h) == high && DigitValue(l) == low
    requires !IsSpace(h) && h != '-' && h != '+' && l != 'x' && l != 'X'
    ensures HexToChar([h, l]) == Some((high * 16 + low) as char)
  {
    TwoHexDigits(h, l);
  }

  lemma TwoHexDigits(h: char, l: char)
    requires IsDigitIn(16, h) && IsDigitIn(16, l)
    requires !IsSpace(h) && h != '-' && h != '+' && l != 'x' && l != 'X'
    ensures ScanInteger(16, [h, l]) == Some(DigitValue(h) * 16 + DigitValue(l))
  {
    DigitRunOf(16, [h, l]);
    assert [h, l][..2] == [h, l];
    TwoDigitValue(h, l);
  }

  lemma TwoDigitValue(h: char, l: char)
    ensures ValueOf(16, [h, l]) == DigitValue(h) * 16 + DigitValue(l)
  {
    assert [h, l][..1] == [h] && [h][..0] == "";
    assert ValueOf(16, [h]) == ValueOf(16, "") * 16 + DigitValue(h);
  }

  // ----- Single characters and codes -----

  /** Letters, digits, `-`, `_` and `~` stay; every other byte becomes `%` and two lower-case digits. */
  lemma EncodedByte(c: char)
    requires c as int < 256
    ensures Encode([c])
            == if '0' <= c <= '9' || 'A' <= c <= 'Z' || 'a' <= c <= 'z' || c == '-' || c == '_' || c == '~' then [c]
               else
                 var high, low := c as int / 16, c as int % 16;
                 ['%', (if high < 10 then 48 + high else 87 + high) as char,
                       (if low < 10 then 48 + low else 87 + low) as char]
  {
    LowerDigit(c as int / 16);
    LowerDigit(c as int % 16);
    NothingBehind(EncodeChar(c));
    assert [c][1..] == "";
  }

  lemma LowerDigit(n: nat)
    requires n < 16
    ensures HEX_DIGITS[n] == (if n < 10 then 48 + n else 87 + n) as char
  {
  }

  /** For instance, a space becomes `%20`, a slash `%2f`, and a dot is encoded too. */
  lemma EncodedInstances()
    ensures Encode(" ") == "%20" && Encode("/") == "%2f" && Encode(".") == "%2e"
  {
    EncodedByte(' ');
    EncodedByte('/');
    EncodedByte('.');
  }

  predicate IsHex(c: char) {
    '0' <= c <= '9' || 'a' <= c <= 'f' || 'A' <= c <= 'F'
  }

  /** What follows a `%`: two digits are a byte; a single digit counts alone, before any other character or
      at the end, or behind white space or a sign; nothing at all is the byte 0; all else fails. */
  lemma CodeOfTwo(x: char, y: char)
    ensures HexToChar([x, y])
            == if IsHex(x) && IsHex(y) then Some((DigitValue(x) * 16 + DigitValue(y)) as char)
               else if IsHex(x) then
                 if x == '0' && (y == 'x' || y == 'X') then None else Some(DigitValue(x) as char)
               else if IsHex(y) && (IsSpace(x) || x == '+') then Some(DigitValue(y) as char)
               else if IsHex(y) && x == '-' then
                 Some((if DigitValue(y) == 0 then 0 else 256 - DigitValue(y)) as char)
               else None
  {
    if IsHex(x) {
      CodeOfDigit(x, y);
    } else {
      CodeOfOther(x, y);
    }
    ByteOf([x, y]);
  }

  lemma ByteOf(s: string)
    requires s != ""
    requires ScanInteger(16, s).Some? ==> -256 < ScanInteger(16, s).value < 256
    ensures HexToChar(s) ==
            match ScanInteger(16, s)
            case None => None
            case Some(n) => Some((if n < 0 then n + 256 else n) as char)
  {
  }

  lemma CodeOfDigit(x: char, y: char)
    requires IsHex(x)
    ensures ScanInteger(16, [x, y])
            == if IsHex(y) then Some(DigitValue(x) * 16 + DigitValue(y))
               else if x == '0' && (y == 'x' || y == 'X') then None else Some(DigitValue(x))
  {
    var s := [x, y];
    assert s[2..] == "" && s[..2] == s && s[..1] == [x] && DropSpaces(s) == s;
    OneDigitValue(x);
    TwoDigitValue(x, y);
    DigitRunOfTwo(x, y);
  }

  lemma CodeOfOther(x: char, y: char)
    requires !IsHex(x)
    ensures ScanInteger(16, [x, y])
            == if IsHex(y) && (IsSpace(x) || x == '+') then Some(DigitValue(y))
               else if IsHex(y) && x == '-' then Some(-DigitValue(y))
               else None
  {
    var s := [x, y];
    assert s[1..] == [y];
    OneDigit(y);
    DigitRunOfTwo(x, y);
    if IsSpace(x) {
      ScanOne(y);
      assert ScanInteger(16, s) == ScanInteger(16, [y]);
    } else {
      assert DropSpaces(s) == s;
    }
  }

  lemma DigitRunOfTwo(x: char, y: char)
    ensures DigitRun(16, [x, y]) == if !IsHex(x) then 0 else if !IsHex(y) then 1 else 2
  {
    assert [x, y][1..] == [y];
    OneDigit(y);
  }

  lemma OneDigit(x: char)
    ensures DigitRun(16, [x]) == (if IsHex(x) then 1 else 0) && DigitRun(16, "") == 0
    ensures ValueOf(16, [x][..1]) == DigitValue(x)
  {
    assert [x][1..] == "" && [x][..1] == [x];
    OneDigitValue(x);
  }

  lemma ScanOne(x: char)
    ensures ScanInteger(16, [x]) == if IsHex(x) then Some(DigitValue(x)) else None
  {
    OneDigit(x);
    assert [x][1..] == "" && DropSpaces("") == "";
  }

  lemma OneDigitValue(h: char)
    ensures ValueOf(16, [h]) == DigitValue(h)
  {
    assert [h][..0] == "" && ValueOf(16, [h]) == ValueOf(16, "") * 16 + DigitValue(h);
  }

  lemma ShortCodes(x: char)
    ensures HexToChar([x]) == if IsHex(x) then Some(DigitValue(x) as char) else None
    ensures HexToChar("") == Some(0 as char)
  {
    ScanOne(x);
  }

  /** How a text decodes, by the characters it starts with. */
  lemma DecodesBy(c: char, s: string)
    ensures c != '%' && c != '+' ==> Decode([c] + s) == Prefixed([c], Decode(s))
    ensures Decode("+" + s) == Prefixed(" ", Decode(s))
  {
    assert ([c] + s)[1..] == s && ("+" + s)[1..] == s;
  }

  lemma DecodesCode(x: char, y: char, s: string)
    ensures Decode(['%', x, y] + s) ==
            match HexToChar([x, y]) case None => None case Some(b) => Prefixed([b], Decode(s))
  {
    var t := ['%', x, y] + s;
    assert t[1..3] == [x, y] && t[3..] == s;
  }

  lemma DecodesShortCode(x: char)
    ensures Decode(['%', x]) == match HexToChar([x]) case None => None case Some(b) => Some([b])
    ensures Decode("%") == Some([0 as char])
  {
    var t := ['%', x];
    assert t[1..2] == [x] && t[2..] == "" && "%"[1..1] == "" && "%"[1..] == "";
    assert DecodeChar("%") == Some((0 as char, ""));
    PrefixedNothing([0 as char], None);
    if HexToChar([x]).Some? {
      assert DecodeChar(t) == Some((HexToChar([x]).value, ""));
      PrefixedNothing([HexToChar([x]).value], None);
    }
  }

  // ----- Any encoding -----

  predicate IsHexCode(code: string, c: char) {
    && |code| >= 3 && code[0] == '%' && IsDigitIn(16, code[1]) && IsDigitIn(16, code[2])
    && DigitValue(code[1]) * 16 + DigitValue(code[2]) == c as int
  }

  /** `code` stands for `s`: every byte for itself, for `+`, or for a two-digit code in either case. */
  predicate Encodes(code: string, s: string)
    decreases |s|
  {
    if s == "" then code == ""
    else
      || (code != "" && code[0] == s[0] && s[0] != '%' && s[0] != '+' && Encodes(code[1..], s[1..]))
      || (code != "" && code[0] == '+' && s[0] == ' ' && Encodes(code[1..], s[1..]))
      || (IsHexCode(code, s[0]) && Encodes(code[3..], s[1..]))
  }

  /** The number of characters that stand for the first byte. */
  function FirstCode(code: string, s: string): (n: nat)
    requires s != "" && Encodes(code, s)
    ensures 0 < n <= |code| && Encodes(code[n..], s[1..])
  {
    if code[0] == '%' then 3 else 1
  }

  lemma DecodeHexCode(code: string, c: char, b: string)
    requires IsHexCode(code, c)
    ensures DecodeChar(code + b) == Some((c, code[3..] + b))
  {
    var text := code + b;
    assert text[0] == '%' && text[1..3] == [code[1], code[2]] && text[3..] == code[3..] + b;
    TwoDigitsToChar(code[1], code[2], DigitValue(code[1]), DigitValue(code[2]));
  }

  lemma DecodeFirst(code: string, s: string, b: string)
    requires s != "" && Encodes(code, s)
    ensures DecodeChar(code + b) == Some((s[0], code[FirstCode(code, s)..] + b))
  {
    if code[0] == '%' {
      DecodeHexCode(code, s[0], b);
    } else {
      RestOfConcat(code, b);
    }
  }

  lemma DecodeRest(text: string, rest: string, c: char, s: string, result: Option<string>)
    requires text != "" && DecodeChar(text) == Some((c, rest)) && Decode(rest) == Prefixed(s, result)
    ensures Decode(text) == Prefixed([c] + s, result)
  {
    PrefixedTwice([c], s, result);
  }

  lemma OneMoreDecoded(code: string, s: string, b: string)
    requires s != "" && Encodes(code, s)
    requires Decode(code[FirstCode(code, s)..] + b) == Prefixed(s[1..], Decode(b))
    ensures Decode(code + b) == Prefixed(s, Decode(b))
  {
    DecodeFirst(code, s, b);
    DecodeRest(code + b, code[FirstCode(code, s)..] + b, s[0], s[1..], Decode(b));
    assert [s[0]] + s[1..] == s;
  }

  /** Whatever encodes a text decodes to it, whatever follows. */
  lemma {:induction false} DecodeCodePrefix(code: string, s: string, b: string)
    requires Encodes(code, s)
    ensures Decode(code + b) == Prefixed(s, Decode(b))
    decreases |s|
  {
    if s == "" {
      assert code + b == b;
      PrefixedNothing(s, Decode(b));
    } else {
      DecodeCodePrefix(code[FirstCode(code, s)..], s[1..], b);
      OneMoreDecoded(code, s, b);
    }
  }

  lemma CodeInFront(code: string, c: char, rest: string, s: string)
    requires (code == [c] && c != '%' && c != '+') || (code == "+" && c == ' ') || (|code| == 3 && IsHexCode(code, c))
    requires Encodes(rest, s)
    ensures Encodes(code + rest, [c] + s)
  {
    assert ([c] + s)[1..] == s && (code + rest)[|code|..] == rest;
  }

  /** UriEncode writes such an encoding. */
  lemma {:induction false} EncodeEncodes(s: string)
    requires IsBytes(s)
    ensures Encodes(Encode(s), s)
  {
    if s != "" {
      EncodeEncodes(s[1..]);
      if !IsPlain(s[0]) {
        HexDigitValue(s[0] as int / 16);
        HexDigitValue(s[0] as int % 16);
      }
      CodeInFront(EncodeChar(s[0]), s[0], Encode(s[1..]), s[1..]);
      assert [s[0]] + s[1..] == s;
    }
  }

  const UPPER_HEX_DIGITS: string := "0123456789ABCDEF"

  /** The characters that JavaScript's encodeURIComponent leaves alone. */
  predicate IsUnreserved(c: char) {
    IsPlain(c) || c == '.' || c == '!' || c == '*' || c == '\'' || c == '(' || c == ')'
  }

  /** The form encoding of the client: encodeURIComponent, with `+` for spaces. */
  function ClientChar(c: char): string
    requires IsByte(c)
  {
    if IsUnreserved(c) then [c]
    else if c == ' ' then "+"
    else ['%', UPPER_HEX_DIGITS[c as int / 16], UPPER_HEX_DIGITS[c as int % 16]]
  }

  function ClientEncode(s: string): string
    requires IsBytes(s)
  {
    if s == "" then "" else ClientChar(s[0]) + ClientEncode(s[1..])
  }

  lemma UpperHexDigitValue(n: nat)
    requires n < 16
    ensures DigitValue(UPPER_HEX_DIGITS[n]) == n
  {
  }

  /** Letters, digits and nine marks stay, a space becomes `+`, and every other byte `%` and two upper-case
      digits. */
  lemma ClientByte(c: char)
    requires c as int < 256
    ensures ClientEncode([c])
            == if '0' <= c <= '9' || 'A' <= c <= 'Z' || 'a' <= c <= 'z'
                  || c in {'-', '_', '.', '!', '~', '*', '\'', '(', ')'} then [c]
               else if c == ' ' then "+"
               else
                 var high, low := c as int / 16, c as int % 16;
                 ['%', (if high < 10 then 48 + high else 55 + high) as char,
                       (if low < 10 then 48 + low else 55 + low) as char]
  {
    UpperDigit(c as int / 16);
    UpperDigit(c as int % 16);
    NothingBehind(ClientChar(c));
    assert [c][1..] == "";
  }

  lemma UpperDigit(n: nat)
    requires n < 16
    ensures UPPER_HEX_DIGITS[n] == (if n < 10 then 48 + n else 55 + n) as char
  {
  }

  /** So does the client. */
  lemma {:induction false} ClientEncodes(s: string)
    requires IsBytes(s)
    ensures Encodes(ClientEncode(s), s)
  {
    if s != "" {
      ClientEncodes(s[1..]);
      if !IsUnreserved(s[0]) {
        UpperHexDigitValue(s[0] as int / 16);
        UpperHexDigitValue(s[0] as int % 16);
      }
      CodeInFront(ClientChar(s[0]), s[0], ClientEncode(s[1..]), s[1..]);
      assert [s[0]] + s[1..] == s;
    }
  }

  /** Decoding an encoded prefix gives the prefix back, whatever follows. */
  lemma DecodeEncodedPrefix(a: string, b: string)
    requires IsBytes(a)
    ensures Decode(Encode(a) + b) == Prefixed(a, Decode(b))
  {
    EncodeEncodes(a);
    DecodeCodePrefix(Encode(a), a, b);
  }

  /** Decoding undoes encoding. */
  lemma CodecRoundTrip(s: string)
    requires IsBytes(s)
    ensures Decode(Encode(s)) == Some(s)
  {
    DecodeEncodedPrefix(s, "");
    assert Encode(s) + "" == Encode(s);
    PrefixedNothing(s, None);
  }

  lemma EncodeIsInjective(a: string, b: string)
    requires IsBytes(a) && IsBytes(b)
    ensures Encode(a) == Encode(b) <==> a == b
  {
    CodecRoundTrip(a);
    CodecRoundTrip(b);
  }

  /** Text without `%` and `+` decodes to itself. */
  lemma {:induction false} DecodePlainPrefix(a: string, b: string)
    requires forall k :: 0 <= k < |a| ==> a[k] != '%' && a[k] != '+'
    ensures Decode(a + b) == Prefixed(a, Decode(b))
  {
    if a == "" {
      assert a + b == b;
      PrefixedNothing(a, Decode(b));
    } else {
      assert (a + b)[1..] == a[1..] + b;
      DecodePlainPrefix(a[1..], b);
      PrefixedTwice([a[0]], a[1..], Decode(b));
      assert [a[0]] + a[1..] == a;
    }
  }

  lemma {:induction false} EncodedLength(s: string)
    requires IsBytes(s)
    ensures |s| <= |Encode(s)| <= 3 * |s|
  {
    if s != "" {
      EncodedLength(s[1..]);
    }
  }

  lemma {:induction false} DecodedLength(s: string)
    requires Decode(s).Some?
    ensures |Decode(s).value| <= |s| <= 3 * |Decode(s).value|
    decreases |s|
  {
    if s != "" {
      DecodedLength(DecodeChar(s).value.1);
    }
  }
}
