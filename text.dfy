/**
  Character classes, `str.strip()` and `int()` on the numerals the source's
  regular expressions capture.
 */
module Text {

  /** Python's whitespace on `str`: what both `\s` and `str.strip()` skip. */
  predicate IsSpace(c: char) {
    || ('\t' <= c <= '\r')
    || ('\U{1C}' <= c <= ' ')
    || c == '\U{85}' || c == '\U{A0}' || c == '\U{1680}'
    || ('\U{2000}' <= c <= '\U{200A}')
    || c == '\U{2028}' || c == '\U{2029}' || c == '\U{202F}' || c == '\U{205F}'
    || c == '\U{3000}'
  }

  /** `\d`, restricted to the ASCII digits. */
  predicate IsDigit(c: char) {
    '0' <= c <= '9'
  }

  /** The three character classes of the pattern `(\S+)\s+(\d+)`. */
  datatype Class = Space | NonSpace | Digit

  predicate In(cl: Class, c: char) {
    match cl
    case Space => IsSpace(c)
    case NonSpace => !IsSpace(c)
    case Digit => IsDigit(c)
  }

  predicate AllIn(t: string, cl: Class) {
    forall i :: 0 <= i < |t| ==> In(cl, t[i])
  }

  /** Position `p` of `s` holds a character of class `cl`. */
  predicate At(s: string, p: nat, cl: Class) {
    p < |s| && In(cl, s[p])
  }

  /** `s[i..j]` is made of class `cl`. */
  predicate RunOf(s: string, i: nat, j: nat, cl: Class) {
    i <= j <= |s| && forall p :: i <= p < j ==> At(s, p, cl)
  }

  /** Where the longest run of class `cl` starting at `i` ends: a greedy `cl*` from `i`. */
  function RunEnd(s: string, i: nat, cl: Class): (j: nat)
    requires i <= |s|
    ensures i <= j <= |s|
    ensures !At(s, j, cl)
    decreases |s| - i
  {
    if i == |s| || !At(s, i, cl) then i else RunEnd(s, i + 1, cl)
  }

  /** Everything the greedy run passes over is of its class. */
  lemma {:induction false} RunEndRun(s: string, i: nat, cl: Class)
    requires i <= |s|
    ensures RunOf(s, i, RunEnd(s, i, cl), cl)
    decreases |s| - i
  {
    if i < |s| && At(s, i, cl) {
      RunEndRun(s, i + 1, cl);
    }
  }

  /** A greedy run is determined by its two defining facts. */
  lemma {:induction false} RunEndUnique(s: string, i: nat, j: nat, cl: Class)
    requires RunOf(s, i, j, cl)
    requires !At(s, j, cl)
    ensures RunEnd(s, i, cl) == j
    decreases j - i
  {
    if i < j {
      assert At(s, i, cl);
      RunEndUnique(s, i + 1, j, cl);
    }
  }

  /** A greedy run in `r` ends at the same place in any extension of `r` that does not continue it. */
  lemma RunEndPrefix(u: string, r: string, p: nat, cl: Class)
    requires |r| <= |u| && r == u[..|r|] && p <= |r|
    requires RunEnd(r, p, cl) < |r| || !At(u, |r|, cl)
    ensures RunEnd(u, p, cl) == RunEnd(r, p, cl)
  {
    var q := RunEnd(r, p, cl);
    RunEndRun(r, p, cl);
    assert forall x :: p <= x < q ==> u[x] == r[x] && At(r, x, cl);
    assert q < |r| ==> u[q] == r[q];
    RunEndUnique(u, p, q, cl);
  }

  /** `str.rstrip()` */
  function TrimEnd(s: string): (r: string)
    ensures |r| <= |s| && r == s[..|r|]
    ensures AllIn(s[|r|..], Space)
    ensures r == [] || !IsSpace(r[|r| - 1])
  {
    if s != [] && IsSpace(s[|s| - 1]) then
      var t := s[..|s| - 1];
      var r := TrimEnd(t);
      assert s[..|r|] == t[..|r|];
      assert s[|r|..] == t[|r|..] + [s[|s| - 1]];
      r
    else s
  }

  /** `str.strip()`: the leading run of whitespace and then the trailing one go. */
  function Strip(s: string): (r: string)
  {
    TrimEnd(s[RunEnd(s, 0, Space)..])
  }

  /** What `strip()` keeps is a slice of `s` with only whitespace around it and none at its ends. */
  lemma StripSlice(s: string)
    ensures var a := RunEnd(s, 0, Space); var r := Strip(s);
      && a + |r| <= |s| && r == s[a..a + |r|]
      && AllIn(s[..a], Space) && AllIn(s[a + |r|..], Space)
      && (r == [] || (!IsSpace(r[0]) && !IsSpace(r[|r| - 1])))
  {
    var a := RunEnd(s, 0, Space);
    RunEndRun(s, 0, Space);
    var t := s[a..];
    var r := TrimEnd(t);
    assert r == t[..|r|];
    assert s[a + |r|..] == t[|r|..];
    assert forall p :: 0 <= p < a ==> s[..a][p] == s[p] && At(s, p, Space);
    if r != [] {
      assert r[0] == s[a] && !At(s, a, Space);
    }
  }

  /** `strip()` leaves a string alone exactly when neither end is whitespace. */
  lemma StripIdentityIff(s: string)
    ensures Strip(s) == s <==> (s == [] || (!IsSpace(s[0]) && !IsSpace(s[|s| - 1])))
  {
    StripSlice(s);
    if s != [] && !IsSpace(s[0]) && !IsSpace(s[|s| - 1]) {
      RunEndUnique(s, 0, 0, Space);
      assert s[0..] == s;
    }
  }

  lemma StripIdempotent(s: string)
    ensures Strip(Strip(s)) == Strip(s)
  {
    StripSlice(s);
    StripIdentityIff(Strip(s));
  }

  /** A token without whitespace is its own `strip()`. */
  lemma StripToken(s: string)
    requires AllIn(s, NonSpace)
    ensures Strip(s) == s
  {
    if s != [] {
      assert !IsSpace(s[0]) && !IsSpace(s[|s| - 1]);
    }
    StripIdentityIff(s);
  }

  /** What a `(\d+)` group captures. */
  predicate IsDigits(s: string) {
    |s| > 0 && AllIn(s, Digit)
  }

  /** What a `(\d+)` or a `(-?\d+)` group captures. */
  predicate IsNumeral(s: string) {
    IsDigits(s) || (|s| > 1 && s[0] == '-' && IsDigits(s[1..]))
  }

  /** The value of a decimal digit string, most significant digit first. */
  function DigitsValue(s: string): (v: nat)
    requires AllIn(s, Digit)
    decreases |s|
  {
    if s == [] then 0
    else
      10 * DigitsValue(s[..|s| - 1]) + (s[|s| - 1] as int - '0' as int)
  }

  /** `int()` of a numeral; the sign is the only character that is not a digit. */
  function NumeralValue(s: string): (v: int)
    requires IsNumeral(s)
    ensures s[0] != '-' ==> v == DigitsValue(s)
    ensures v < 0 ==> s[0] == '-'
  {
    if s[0] == '-' then 0 - DigitsValue(s[1..]) else DigitsValue(s)
  }

  /** Like `int()`, the value ignores leading zeros. */
  lemma {:induction false} LeadingZeroIgnored(s: string)
    requires AllIn(s, Digit)
    ensures AllIn(['0'] + s, Digit) && DigitsValue(['0'] + s) == DigitsValue(s)
    decreases |s|
  {
    var t := ['0'] + s;
    assert AllIn(t, Digit) by {
      forall i | 0 <= i < |t| ensures In(Digit, t[i]) {
        if i > 0 { assert t[i] == s[i - 1]; }
      }
    }
    if s != [] {
      var init := s[..|s| - 1];
      assert AllIn(init, Digit) by {
        forall i | 0 <= i < |init| ensures In(Digit, init[i]) {
          assert init[i] == s[i];
        }
      }
      LeadingZeroIgnored(init);
      assert t[..|t| - 1] == ['0'] + init;
    }
  }

  /** The digit character of `d`. */
  function DigitChar(d: nat): (c: char)
    requires d < 10
    ensures IsDigit(c) && c as int - '0' as int == d
  {
    (d + '0' as int) as char
  }

  /** `str(v)` of a natural number: its decimal digits, most significant first. */
  function Decimal(v: nat): (s: string)
    ensures |s| > 0 && AllIn(s, Digit)
    decreases v
  {
    if v < 10 then [DigitChar(v)]
    else
      var init := Decimal(v / 10);
      var s := init + [DigitChar(v % 10)];
      assert forall i :: 0 <= i < |init| ==> s[i] == init[i];
      s
  }

  /** `int(str(v)) == v` */
  lemma {:induction false} DecimalValue(v: nat)
    ensures DigitsValue(Decimal(v)) == v
    decreases v
  {
    if v >= 10 {
      var s := Decimal(v);
      assert s[..|s| - 1] == Decimal(v / 10);
      DecimalValue(v / 10);
    }
  }

  /** A digit string as `str()` writes one: no leading zero, except `0` itself. */
  predicate Canonical(s: string) {
    IsDigits(s) && (s[0] != '0' || |s| == 1)
  }

  /** A digit string that does not begin with `0` has a positive value. */
  lemma {:induction false} DigitsPositive(s: string)
    requires IsDigits(s) && s[0] != '0'
    ensures DigitsValue(s) > 0
    decreases |s|
  {
    if |s| > 1 {
      var init := s[..|s| - 1];
      assert forall i :: 0 <= i < |init| ==> init[i] == s[i];
      DigitsPositive(init);
    }
  }

  /** `str(int(s)) == s` for every canonical digit string. */
  lemma {:induction false} DecimalOfValue(s: string)
    requires Canonical(s)
    ensures Decimal(DigitsValue(s)) == s
    decreases |s|
  {
    var last := s[|s| - 1];
    var d := last as int - '0' as int;
    assert DigitChar(d) == last;
    if |s| == 1 {
      assert DigitsValue(s) == d;
    } else {
      var init := s[..|s| - 1];
      assert forall i :: 0 <= i < |init| ==> init[i] == s[i];
      DigitsPositive(init);
      DecimalOfValue(init);
      DecimalSnoc(DigitsValue(init), d);
      assert s == init + [last];
    }
  }

  /** Appending a digit to a positive number's decimal digits. */
  lemma DecimalSnoc(w: nat, d: nat)
    requires w > 0 && d < 10
    ensures Decimal(10 * w + d) == Decimal(w) + [DigitChar(d)]
  {
    var v := 10 * w + d;
    assert v / 10 == w && v % 10 == d;
  }

  /** `str(v)` of an integer: a minus sign before the digits of a negative one. */
  function NumeralOf(v: int): (s: string)
    ensures IsNumeral(s)
  {
    if v < 0 then
      var s := "-" + Decimal(-v);
      assert s[1..] == Decimal(-v);
      s
    else Decimal(v)
  }

  /** `int(str(v)) == v` */
  lemma NumeralValueOf(v: int)
    ensures NumeralValue(NumeralOf(v)) == v
  {
    if v < 0 {
      assert NumeralOf(v)[1..] == Decimal(-v);
      DecimalValue(-v);
    } else {
      DecimalValue(v);
    }
  }

  /** `str(int(s)) == s` for every numeral `str()` could have written. */
  lemma NumeralOfValue(s: string)
    requires IsNumeral(s)
    requires s[0] == '-' ==> Canonical(s[1..]) && s[1..] != "0"
    requires s[0] != '-' ==> Canonical(s)
    ensures NumeralOf(NumeralValue(s)) == s
  {
    if s[0] == '-' {
      var t := s[1..];
      assert t[0] != '0';
      DigitsPositive(t);
      DecimalOfValue(t);
      assert s == "-" + t;
    } else {
      DecimalOfValue(s);
    }
  }
}
