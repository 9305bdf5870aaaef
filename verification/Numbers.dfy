/** Reading and writing integers the way the C++ library does: std::stoi, std::to_string and
    extraction from a stream in base 16. */
module Numbers {
  import opened Wrappers

  const INT_MAX: int := 0x7fff_ffff
  const SHORT_MAX: int := 0x7fff

  predicate IsSpace(c: char) {
    c == ' ' || 9 <= c as int <= 13
  }

  /** The value of a digit in bases up to 16. */
  function DigitValue(c: char): (v: int)
    ensures -1 <= v < 16
  {
    if '0' <= c <= '9' then c as int - '0' as int
    else if 'a' <= c <= 'f' then c as int - 'a' as int + 10
    else if 'A' <= c <= 'F' then c as int - 'A' as int + 10
    else -1
  }

  predicate IsDigitIn(base: int, c: char) {
    0 <= DigitValue(c) < base
  }

  function DropSpaces(s: string): string {
    if s != "" && IsSpace(s[0]) then DropSpaces(s[1..]) else s
  }

  /** The number of digits that `s` starts with. */
  function DigitRun(base: int, s: string): (n: nat)
    ensures n <= |s|
    ensures forall k :: 0 <= k < n ==> IsDigitIn(base, s[k])
  {
    if s != "" && IsDigitIn(base, s[0]) then 1 + DigitRun(base, s[1..]) else 0
  }

  function ValueOf(base: int, digits: string): int {
    if digits == "" then 0
    else ValueOf(base, digits[..|digits| - 1]) * base + DigitValue(digits[|digits| - 1])
  }

  /** White space, a sign, in base 16 a `0x`, and the longest run of digits; what follows is ignored. */
  function ScanInteger(base: int, s: string): Option<int> {
    var t := DropSpaces(s);
    var negative := t != "" && t[0] == '-';
    var u := if t != "" && (t[0] == '-' || t[0] == '+') then t[1..] else t;
    var v := if base == 16 && |u| >= 2 && u[0] == '0' && (u[1] == 'x' || u[1] == 'X') then u[2..] else u;
    var n := DigitRun(base, v);
    if n == 0 then None
    else Some(if negative then -ValueOf(base, v[..n]) else ValueOf(base, v[..n]))
  }

  /** std::stoi; `None` stands for std::invalid_argument and std::out_of_range. */
  function Stoi(s: string): (r: Option<int>)
    ensures r.Some? ==> -INT_MAX - 1 <= r.value <= INT_MAX
  {
    match ScanInteger(10, s)
    case Some(n) => if -INT_MAX - 1 <= n <= INT_MAX then Some(n) else None
    case None => None
  }

  const DIGITS: string := "0123456789"

  /** std::to_string of a non-negative integer. */
  function Decimal(n: nat): (s: string)
    ensures s != "" && forall k :: 0 <= k < |s| ==> '0' <= s[k] <= '9'
  {
    if n < 10 then [DIGITS[n]] else Decimal(n / 10) + [DIGITS[n % 10]]
  }

  lemma {:induction false} DecimalValue(n: nat)
    ensures ValueOf(10, Decimal(n)) == n
  {
    if n < 10 {
      assert Decimal(n)[..0] == "";
    } else {
      DecimalValue(n / 10);
      var d := Decimal(n);
      assert d[..|d| - 1] == Decimal(n / 10);
    }
  }

  lemma {:induction false} DigitRunOf(base: int, digits: string)
    requires forall k :: 0 <= k < |digits| ==> IsDigitIn(base, digits[k])
    ensures DigitRun(base, digits) == |digits|
  {
    if digits != "" {
      DigitRunOf(base, digits[1..]);
    }
  }

  /** std::stoi reads back what std::to_string wrote. */
  lemma StoiOfDecimal(n: nat)
    requires n <= INT_MAX
    ensures Stoi(Decimal(n)) == Some(n)
  {
    var d := Decimal(n);
    assert !IsSpace(d[0]) && d[0] != '-' && d[0] != '+';
    DigitRunOf(10, d);
    assert d[..|d|] == d;
    DecimalValue(n);
  }

  /** There are no leading zeros; with its digits and their value, that determines the text. */
  lemma {:induction false} NoLeadingZero(n: nat)
    requires n > 0
    ensures Decimal(n)[0] != '0'
  {
    if n >= 10 {
      NoLeadingZero(n / 10);
    }
  }

  // ----- Which texts std::stoi reads -----

  lemma DigitValues()
    ensures DigitValue('0') == 0 && DigitValue('1') == 1 && DigitValue('2') == 2 && DigitValue('3') == 3
    ensures DigitValue('4') == 4 && DigitValue('5') == 5 && DigitValue('6') == 6 && DigitValue('7') == 7
    ensures DigitValue('8') == 8 && DigitValue('9') == 9
    ensures DigitValue('a') == DigitValue('A') == 10 && DigitValue('b') == DigitValue('B') == 11
    ensures DigitValue('c') == DigitValue('C') == 12 && DigitValue('d') == DigitValue('D') == 13
    ensures DigitValue('e') == DigitValue('E') == 14 && DigitValue('f') == DigitValue('F') == 15
    ensures forall c :: DigitValue(c) == -1 <==> !('0' <= c <= '9' || 'a' <= c <= 'f' || 'A' <= c <= 'F')
  {
  }

  predicate AllSpaces(s: string) {
    forall c :: c in s ==> c == ' ' || c == '\t' || c == '\n' || c == '\r' || c as int == 11 || c as int == 12
  }

  predicate StartsWithDigit(s: string) {
    s != "" && '0' <= s[0] <= '9'
  }

  lemma {:induction false} DropsSpaces(spaces: string, s: string)
    requires AllSpaces(spaces) && (s != "" ==> !IsSpace(s[0]))
    ensures DropSpaces(spaces + s) == s
  {
    if spaces == "" {
      assert spaces + s == s;
    } else {
      assert spaces[0] in spaces && forall c :: c in spaces[1..] ==> c in spaces;
      assert (spaces + s)[1..] == spaces[1..] + s;
      DropsSpaces(spaces[1..], s);
    }
  }

  lemma {:induction false} DigitRunBefore(digits: string, rest: string)
    requires forall k :: 0 <= k < |digits| ==> '0' <= digits[k] <= '9'
    requires !StartsWithDigit(rest)
    ensures DigitRun(10, digits + rest) == |digits|
  {
    if digits == "" {
      assert digits + rest == rest;
    } else {
      assert (digits + rest)[1..] == digits[1..] + rest;
      DigitRunBefore(digits[1..], rest);
    }
  }

  predicate IsSign(sign: string) {
    sign == "" || sign == "+" || sign == "-"
  }

  function Signed(sign: string, n: int): int {
    if sign == "-" then -n else n
  }

  lemma ScanBehindSpaces(s: string, sign: string, v: string)
    requires DropSpaces(s) == sign + v && IsSign(sign) && v != "" && v[0] != '-' && v[0] != '+'
    ensures ScanInteger(10, s)
            == if DigitRun(10, v) == 0 then None else Some(Signed(sign, ValueOf(10, v[..DigitRun(10, v)])))
  {
    if sign == "" {
      assert sign + v == v;
    } else {
      assert (sign + v)[0] == sign[0] && (sign + v)[1..] == v;
    }
  }

  lemma ScanSigned(spaces: string, sign: string, n: nat, rest: string)
    requires AllSpaces(spaces) && IsSign(sign) && !StartsWithDigit(rest)
    ensures ScanInteger(10, spaces + (sign + (Decimal(n) + rest))) == Some(Signed(sign, n))
  {
    var d := Decimal(n);
    var v := d + rest;
    assert v[0] == d[0];
    DropsSpaces(spaces, sign + v);
    DigitRunBefore(d, rest);
    assert v[..|d|] == d;
    DecimalValue(n);
    ScanBehindSpaces(spaces + (sign + v), sign, v);
  }

  /** White space, a sign and digits are read up to the end of the digits; a number that is no int fails. */
  lemma StoiReads(spaces: string, sign: string, n: nat, rest: string)
    requires AllSpaces(spaces) && IsSign(sign) && !StartsWithDigit(rest)
    ensures var v := Signed(sign, n);
            Stoi(spaces + (sign + (Decimal(n) + rest))) == if -2147483648 <= v <= 2147483647 then Some(v) else None
  {
    ScanSigned(spaces, sign, n, rest);
  }

  /** Without a digit there it fails. */
  lemma StoiFails(spaces: string, sign: string, rest: string)
    requires AllSpaces(spaces) && IsSign(sign) && !StartsWithDigit(rest)
    requires sign == "" && rest != "" ==> !AllSpaces(rest[..1]) && rest[0] != '+' && rest[0] != '-'
    ensures Stoi(spaces + (sign + rest)) == None
  {
    assert rest != "" && IsSpace(rest[0]) ==> AllSpaces(rest[..1]);
    assert sign == "" ==> sign + rest == rest;
    DropsSpaces(spaces, sign + rest);
    assert sign != "" ==> (sign + rest)[1..] == rest;
  }
}
