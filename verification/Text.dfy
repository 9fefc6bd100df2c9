/** Digit strings, lower-case hexadecimal and splitting at a separator. */
module Text {
  predicate IsDigit(c: char) {
    '0' <= c <= '9'
  }

  predicate AllDigits(s: string) {
    forall i :: 0 <= i < |s| ==> IsDigit(s[i])
  }

  function DigitValue(c: char): nat
    requires IsDigit(c)
  {
    c as nat - '0' as nat
  }

  /** The number a digit string denotes. */
  function DigitsValue(s: string): nat
    requires AllDigits(s)
  {
    if s == [] then 0 else 10 * DigitsValue(s[..|s| - 1]) + DigitValue(s[|s| - 1])
  }

  function DigitChar(d: nat): (c: char)
    requires d < 10
    ensures IsDigit(c) && DigitValue(c) == d
  {
    '0' + d as char
  }

  /** One more digit at the end. */
  lemma DigitsValueSnoc(front: string, d: nat)
    requires AllDigits(front) && d < 10
    ensures AllDigits(front + [DigitChar(d)])
    ensures DigitsValue(front + [DigitChar(d)]) == 10 * DigitsValue(front) + d
  {
    var s := front + [DigitChar(d)];
    assert s[..|s| - 1] == front && s[|s| - 1] == DigitChar(d);
  }

  lemma TensAndOnes(n: nat)
    ensures n == 10 * (n / 10) + n % 10
  {
  }

  /** Decimal notation of a number, without leading zeros. */
  function Decimal(n: nat): (s: string)
    ensures s != [] && AllDigits(s) && DigitsValue(s) == n
  {
    if n < 10 then
      DigitsValueSnoc([], n);
      [DigitChar(n)]
    else
      DigitsValueSnoc(Decimal(n / 10), n % 10);
      TensAndOnes(n);
      Decimal(n / 10) + [DigitChar(n % 10)]
  }

  /** Different numbers have different decimal notations. */
  lemma DecimalInjective(m: nat, n: nat)
    ensures Decimal(m) == Decimal(n) <==> m == n
  {
    assert DigitsValue(Decimal(m)) == m && DigitsValue(Decimal(n)) == n;
  }

  // ---- hexadecimal ----

  predicate IsHexDigit(c: char) {
    IsDigit(c) || 'a' <= c <= 'f'
  }

  predicate IsHex(s: string, length: nat) {
    |s| == length && forall i :: 0 <= i < |s| ==> IsHexDigit(s[i])
  }

  lemma HexDigits(s: string, length: nat)
    ensures IsHex(s, length) <==> |s| == length && forall i :: 0 <= i < |s| ==> s[i] in "0123456789abcdef"
  {
    assert forall c: char :: IsHexDigit(c) <==> c in "0123456789abcdef";
  }

  // ---- s.split(sep) ----

  function Split(s: string, sep: char): (parts: seq<string>)
    ensures |parts| > 0
  {
    if s == "" then [""]
    else
      var rest := Split(s[1..], sep);
      if s[0] == sep then [""] + rest else [[s[0]] + rest[0]] + rest[1..]
  }

  lemma {:induction false} SplitWithout(s: string, sep: char)
    requires sep !in s
    ensures Split(s, sep) == [s]
  {
    if s != "" {
      SplitWithout(s[1..], sep);
      assert [s[0]] + s[1..] == s;
    }
  }

  /** The first field ends at the first separator. */
  lemma {:induction false} SplitField(field: string, sep: char, rest: string)
    requires sep !in field
    ensures Split(field + [sep] + rest, sep) == [field] + Split(rest, sep)
  {
    var s := field + [sep] + rest;
    if field == "" {
      assert s[1..] == rest;
    } else {
      SplitField(field[1..], sep, rest);
      assert s[1..] == field[1..] + [sep] + rest;
      assert [field[0]] + field[1..] == field;
    }
  }

  /** No field holds the separator. */
  lemma {:induction false} FieldsHoldNone(s: string, sep: char)
    ensures forall i :: 0 <= i < |Split(s, sep)| ==> sep !in Split(s, sep)[i]
  {
    if s != "" {
      FieldsHoldNone(s[1..], sep);
    }
  }

  /** sep.join(parts) */
  function Join(parts: seq<string>, sep: char): string {
    if parts == [] then ""
    else if |parts| == 1 then parts[0]
    else parts[0] + [sep] + Join(parts[1..], sep)
  }

  /** Joining the fields gives the text back. */
  lemma {:induction false} SplitJoins(s: string, sep: char)
    ensures Join(Split(s, sep), sep) == s
  {
    if s != "" {
      var rest := Split(s[1..], sep);
      SplitJoins(s[1..], sep);
      if s[0] == sep {
        assert ([""] + rest)[1..] == rest;
      } else {
        var parts := [[s[0]] + rest[0]] + rest[1..];
        assert parts[1..] == rest[1..];
        assert Join(parts, sep) == [s[0]] + Join(rest, sep);
      }
      assert [s[0]] + s[1..] == s;
    }
  }
}
