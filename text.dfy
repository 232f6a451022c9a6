/** Python string primitives the pipeline relies on, restricted to ASCII:
    str.strip, str.lower, str.upper, str.replace of one character, the
    regular-expression class \d, int() applied to a str, str() of a
    non-negative int, and the ordering of str values. */
module Text {
  import opened Common

  // ---------------------------------------------------------------------
  // Characters

  /** The ASCII characters for which str.isspace() holds (those str.strip()
      removes): tab, line feed, vertical tab, form feed, carriage return,
      the four separators 0x1C..0x1F and space. */
  predicate IsSpace(c: char) {
    c == ' ' || (9 <= c as int <= 13) || (28 <= c as int <= 31)
  }

  predicate IsDigit(c: char) {
    '0' <= c <= '9'
  }

  predicate AllDigits(s: string) {
    forall i | 0 <= i < |s| :: IsDigit(s[i])
  }

  function DigitValue(c: char): (d: nat)
    requires IsDigit(c)
    ensures d < 10
  {
    c as int - '0' as int
  }

  function DigitChar(d: nat): (c: char)
    requires d < 10
    ensures IsDigit(c) && DigitValue(c) == d
  {
    ('0' as int + d) as char
  }

  function LowerChar(c: char): char {
    if 'A' <= c <= 'Z' then (c as int + 32) as char else c
  }

  function UpperChar(c: char): char {
    if 'a' <= c <= 'z' then (c as int - 32) as char else c
  }

  // ---------------------------------------------------------------------
  // str.strip, str.lower, str.upper, str.replace

  /** Drops leading whitespace: the result is a suffix of s, everything
      dropped is whitespace, and the result does not start with whitespace. */
  function StripStart(s: string): (r: string)
    ensures |r| <= |s| && r == s[|s| - |r|..]
    ensures forall i | 0 <= i < |s| - |r| :: IsSpace(s[i])
    ensures r == [] || !IsSpace(r[0])
  {
    if |s| > 0 && IsSpace(s[0]) then StripStart(s[1..]) else s
  }

  /** Drops trailing whitespace: the result is a prefix of s, everything
      dropped is whitespace, and the result does not end with whitespace. */
  function StripEnd(s: string): (r: string)
    ensures |r| <= |s| && r == s[..|r|]
    ensures forall i | |r| <= i < |s| :: IsSpace(s[i])
    ensures r == [] || !IsSpace(r[|r| - 1])
  {
    if |s| > 0 && IsSpace(s[|s| - 1]) then StripEnd(s[..|s| - 1]) else s
  }

  /** str.strip() with no argument. */
  function Strip(s: string): string {
    StripEnd(StripStart(s))
  }

  /** A string that neither starts nor ends with whitespace is its own strip. */
  lemma StripNoop(s: string)
    requires s == [] || (!IsSpace(s[0]) && !IsSpace(s[|s| - 1]))
    ensures Strip(s) == s
  {
  }

  lemma StripIdempotent(s: string)
    ensures Strip(Strip(s)) == Strip(s)
  {
    var t := Strip(s);
    if t != [] {
      // t does not end with whitespace, and it is a suffix of the left-stripped
      // string, which does not start with whitespace
      var u := StripStart(s);
      assert t == u[..|t|];
      assert t[0] == u[0];
    }
    StripNoop(t);
  }

  /** str.lower() on ASCII. */
  function Lower(s: string): (r: string)
    ensures |r| == |s|
  {
    seq(|s|, i requires 0 <= i < |s| => LowerChar(s[i]))
  }

  /** str.upper() on ASCII. */
  function Upper(s: string): (r: string)
    ensures |r| == |s|
  {
    seq(|s|, i requires 0 <= i < |s| => UpperChar(s[i]))
  }

  predicate NoUpper(s: string) {
    forall i | 0 <= i < |s| :: !('A' <= s[i] <= 'Z')
  }

  /** A string without upper-case letters is its own lower-case form. */
  lemma LowerNoop(s: string)
    requires NoUpper(s)
    ensures Lower(s) == s
  {
  }

  function Remove(s: string, c: char): (r: string)
    ensures forall i | 0 <= i < |r| :: r[i] != c && r[i] in s
    ensures (forall i | 0 <= i < |s| :: s[i] != c) ==> r == s
    ensures |r| <= |s|
  {
    if s == [] then []
    else if s[0] == c then Remove(s[1..], c)
    else [s[0]] + Remove(s[1..], c)
  }

  // ---------------------------------------------------------------------
  // Decimal digits

  /** The value of a digit string, most significant digit first. */
  function DigitsValue(d: string): nat
    requires AllDigits(d)
  {
    if d == [] then 0 else DigitsValue(d[..|d| - 1]) * 10 + DigitValue(d[|d| - 1])
  }

  /** str(n) for a non-negative int: decimal digits without leading zeros,
      which read back as n. */
  function NatToString(n: nat): (r: string)
    ensures |r| > 0 && AllDigits(r)
    ensures r[0] == '0' ==> n == 0 && r == "0"
    ensures DigitsValue(r) == n
  {
    if n < 10 then [DigitChar(n)]
    else
      var r := NatToString(n / 10) + [DigitChar(n % 10)];
      assert r[..|r| - 1] == NatToString(n / 10);
      r
  }

  /** Leading zeros do not change the value of a digit string. */
  lemma {:induction false} DigitsValueLeadingZeros(k: nat, d: string)
    requires AllDigits(d)
    ensures AllDigits(seq(k, _ => '0') + d)
    ensures DigitsValue(seq(k, _ => '0') + d) == DigitsValue(d)
  {
    var z := seq(k, _ => '0');
    var s := z + d;
    if d == [] {
      assert s == z;
      if k > 0 {
        assert s[..|s| - 1] == seq(k - 1, _ => '0');
        DigitsValueLeadingZeros(k - 1, []);
        assert seq(k - 1, _ => '0') + [] == seq(k - 1, _ => '0');
      }
    } else {
      var d' := d[..|d| - 1];
      assert s[..|s| - 1] == z + d';
      DigitsValueLeadingZeros(k, d');
    }
  }

  /** The longest prefix of s made of digits. */
  function TakeDigits(s: string): (r: string)
    ensures |r| <= |s| && r == s[..|r|] && AllDigits(r)
    ensures |r| == |s| || !IsDigit(s[|r|])
  {
    if s != [] && IsDigit(s[0]) then [s[0]] + TakeDigits(s[1..]) else []
  }

  lemma TakeDigitsAll(s: string)
    requires AllDigits(s)
    ensures TakeDigits(s) == s
  {
  }

  /** The index of the first digit of s, or |s| when there is none. */
  function FirstDigitIndex(s: string): (k: nat)
    ensures k <= |s| && (k < |s| ==> IsDigit(s[k]))
    ensures forall i | 0 <= i < k :: !IsDigit(s[i])
  {
    if s == [] || IsDigit(s[0]) then 0 else 1 + FirstDigitIndex(s[1..])
  }

  /** The first match of the regular expression \d+ in s (re.findall(...)[0]):
      None when s has no digit; otherwise the maximal run of digits that
      starts at the first digit of s. */
  function FirstDigitRun(s: string): (r: Option<string>)
    ensures r.None? <==> forall i | 0 <= i < |s| :: !IsDigit(s[i])
    ensures r.Some? ==> |r.value| > 0 && r.value == TakeDigits(s[FirstDigitIndex(s)..])
  {
    var k := FirstDigitIndex(s);
    if k == |s| then None else Some(TakeDigits(s[k..]))
  }

  // ---------------------------------------------------------------------
  // int() applied to a str

  /** The digits part accepted by int(): digits, with single underscores
      allowed between two digits. */
  predicate IntBody(b: string) {
    && |b| > 0 && IsDigit(b[0]) && IsDigit(b[|b| - 1])
    && (forall i | 0 <= i < |b| :: IsDigit(b[i]) || b[i] == '_')
    && (forall i | 0 <= i < |b| - 1 :: !(b[i] == '_' && b[i + 1] == '_'))
  }

  function BodyValue(b: string): nat
    requires IntBody(b)
  {
    var d := Remove(b, '_');
    assert AllDigits(d) by {
      forall i | 0 <= i < |d| ensures IsDigit(d[i]) {
        assert d[i] in b && d[i] != '_';
      }
    }
    DigitsValue(d)
  }

  /** CPython's default limit, sys.get_int_max_str_digits(), on the number
      of digits (underscores not counted, leading zeros counted) that int()
      converts from a decimal str. */
  const MaxStrDigits: nat := 4300

  /** int(s) for a str s in base 10: surrounding whitespace is ignored, an
      optional sign may precede the digits; None stands for the ValueError
      raised on anything else, and on a digit string over the limit. */
  function ParseInt(s: string): Option<int> {
    var t := Strip(s);
    if |t| > 0 && (t[0] == '+' || t[0] == '-') then
      var b := t[1..];
      if IntBody(b) && |Remove(b, '_')| <= MaxStrDigits then
        var v: int := BodyValue(b);
        Some(if t[0] == '-' then -v else v)
      else None
    else if IntBody(t) && |Remove(t, '_')| <= MaxStrDigits then Some(BodyValue(t) as int)
    else None
  }

  /** int() of a plain digit string within the limit is its value. */
  lemma ParseDigits(d: string)
    requires |d| > 0 && AllDigits(d) && |d| <= MaxStrDigits
    ensures ParseInt(d) == Some(DigitsValue(d))
  {
    assert !IsSpace(d[0]) && !IsSpace(d[|d| - 1]);
    StripNoop(d);
    assert !(d[0] == '+' || d[0] == '-');
    assert IntBody(d);
    assert forall i | 0 <= i < |d| :: d[i] != '_';
    assert Remove(d, '_') == d;
    assert BodyValue(d) == DigitsValue(d);
  }

  /** int() of a plain digit string over the limit raises ValueError. */
  lemma ParseDigitsTooLong(d: string)
    requires AllDigits(d) && |d| > MaxStrDigits
    ensures ParseInt(d) == None
  {
    assert !IsSpace(d[0]) && !IsSpace(d[|d| - 1]);
    StripNoop(d);
    assert !(d[0] == '+' || d[0] == '-');
    assert forall i | 0 <= i < |d| :: d[i] != '_';
    assert Remove(d, '_') == d;
  }

  /** int(str(n)) == n, for an n whose str is within the limit. */
  lemma ParseNatToString(n: nat)
    requires |NatToString(n)| <= MaxStrDigits
    ensures ParseInt(NatToString(n)) == Some(n)
  {
    ParseDigits(NatToString(n));
  }

  function Pow10(k: nat): nat {
    if k == 0 then 1 else 10 * Pow10(k - 1)
  }

  /** A digit string of length k is worth less than 10^k. */
  lemma {:induction false} DigitsValueBelow(d: string)
    requires AllDigits(d)
    ensures DigitsValue(d) < Pow10(|d|)
  {
    if d != [] {
      DigitsValueBelow(d[..|d| - 1]);
    }
  }

  /** A number below 10^width has at most `width` digits. */
  lemma NatToStringShort(n: nat, width: nat)
    requires 1 <= width && n < Pow10(width)
    ensures |NatToString(n)| <= width
  {
    if n >= 10 {
      NatToStringShort(n / 10, width - 1);
    }
  }

  /** Reading a digit string and printing it back never lengthens it:
      str(int(d)) drops leading zeros only. */
  lemma DigitsRoundTripShort(d: string)
    requires |d| > 0 && AllDigits(d)
    ensures |NatToString(DigitsValue(d))| <= |d|
  {
    DigitsValueBelow(d);
    NatToStringShort(DigitsValue(d), |d|);
  }

  // ---------------------------------------------------------------------
  // Ordering of str values

  /** a < b on Python str: lexicographic by code point, a proper prefix first. */
  predicate StringLess(a: string, b: string) {
    if a == [] then b != []
    else if b == [] then false
    else if a[0] != b[0] then a[0] < b[0]
    else StringLess(a[1..], b[1..])
  }

  lemma {:induction false} StringLessIrreflexive(a: string)
    ensures !StringLess(a, a)
  {
    if a != [] {
      StringLessIrreflexive(a[1..]);
    }
  }

  /** Any two distinct strings are ordered one way or the other, never both. */
  lemma {:induction false} StringLessTotal(a: string, b: string)
    requires a != b
    ensures StringLess(a, b) != StringLess(b, a)
  {
    if a != [] && b != [] && a[0] == b[0] {
      assert a == [a[0]] + a[1..] && b == [b[0]] + b[1..];
      StringLessTotal(a[1..], b[1..]);
    }
  }

  /** No two strings are each below the other. */
  lemma StringLessAsymmetric(a: string, b: string)
    requires StringLess(a, b)
    ensures !StringLess(b, a)
  {
    if a == b {
      StringLessIrreflexive(a);
    } else {
      StringLessTotal(a, b);
    }
  }

  lemma {:induction false} StringLessTransitive(a: string, b: string, c: string)
    requires StringLess(a, b) && StringLess(b, c)
    ensures StringLess(a, c)
  {
    if a != [] && b != [] && c != [] && a[0] == b[0] && b[0] == c[0] {
      StringLessTransitive(a[1..], b[1..], c[1..]);
    }
  }
}
