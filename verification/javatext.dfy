/** The slice of Java's string library the report handler relies on:
    `String.equalsIgnoreCase`, `Boolean.valueOf(String)`, `Long.parseLong`,
    decimal rendering of an `int`, and the "null" rendering of a null
    reference in string concatenation. */
module JavaText {
  import opened Wrappers

  /** Smallest and largest values of a Java `long`. */
  const LongMin: int := -0x8000_0000_0000_0000
  const LongMax: int := 0x7FFF_FFFF_FFFF_FFFF

  // ---------------------------------------------------------------------
  // Case-insensitive comparison
  // ---------------------------------------------------------------------

  /** Upper-case ASCII letters are mapped to lower case; every other
      character is left alone. */
  function FoldCase(c: char): char {
    if 'A' <= c <= 'Z' then (c as int + 32) as char else c
  }

  /** `a.equalsIgnoreCase(b)` for a non-null `b`: the same length, and the
      same character at every position up to letter case. */
  predicate EqualsIgnoreCase(a: string, b: string) {
    |a| == |b| && forall i :: 0 <= i < |a| ==> FoldCase(a[i]) == FoldCase(b[i])
  }

  /** Case-insensitive equality is an equivalence relation, so the order in
      which the handler compares a field name and the key does not matter. */
  lemma EqualsIgnoreCaseIsEquivalence(a: string, b: string, c: string)
    ensures EqualsIgnoreCase(a, a)
    ensures EqualsIgnoreCase(a, b) ==> EqualsIgnoreCase(b, a)
    ensures EqualsIgnoreCase(a, b) && EqualsIgnoreCase(b, c) ==> EqualsIgnoreCase(a, c)
  {
  }

  /** `Boolean.valueOf(s)`: true exactly when `s` is non-null and equals
      "true" ignoring case; null and every other token give false. */
  predicate ParseBoolean(s: Option<string>) {
    s.Some? && EqualsIgnoreCase(s.value, "true")
  }

  /** Exactly the spellings of "true" in any mix of letter case are
      accepted; anything of another length is not. */
  lemma ParseBooleanSpellings(t: string)
    ensures ParseBoolean(Some(t)) <==>
      |t| == 4 && forall i :: 0 <= i < 4 ==> t[i] == "true"[i] || t[i] == "TRUE"[i]
    ensures ParseBoolean(Some("TRUE")) && ParseBoolean(Some("True")) && ParseBoolean(Some("tRuE"))
    ensures !ParseBoolean(None) && !ParseBoolean(Some("false")) && !ParseBoolean(Some("yes"))
    ensures |t| != 4 ==> !ParseBoolean(Some(t))
    ensures ParseBoolean(Some(t)) ==> t[0] in {'t', 'T'} && t[3] in {'e', 'E'}
  {
    assert FoldCase('T') == 't' && FoldCase('R') == 'r' && FoldCase('U') == 'u' && FoldCase('E') == 'e';
    assert FoldCase('f') != FoldCase('t');
    assert FoldCase('y') != FoldCase('t');
    if ParseBoolean(Some(t)) {
      assert FoldCase(t[0]) == 't';
      assert FoldCase(t[3]) == 'e';
    }
    if |t| == 4 {
      forall i | 0 <= i < 4
        ensures FoldCase(t[i]) == FoldCase("true"[i]) <==> t[i] == "true"[i] || t[i] == "TRUE"[i]
      {
        assert "true"[i] in {'t', 'r', 'u', 'e'} && "TRUE"[i] == ("true"[i] as int - 32) as char;
      }
    }
  }

  // ---------------------------------------------------------------------
  // Decimal digits
  // ---------------------------------------------------------------------

  predicate IsDigit(c: char) {
    '0' <= c <= '9'
  }

  predicate AllDigits(s: string) {
    forall i :: 0 <= i < |s| ==> IsDigit(s[i])
  }

  /** The value of a digit string read most significant digit first. */
  function DigitsValue(s: string): nat
    requires AllDigits(s)
  {
    if s == [] then 0
    else DigitsValue(s[..|s| - 1]) * 10 + (s[|s| - 1] as int - '0' as int)
  }

  /** `String.valueOf(n)` for a non-negative `n`: its decimal digits, no
      sign and no leading zero. */
  function NatToString(n: nat): (s: string)
    ensures |s| > 0 && AllDigits(s)
    ensures |s| > 1 ==> s[0] != '0'
    decreases n
  {
    var d := [('0' as int + n % 10) as char];
    if n < 10 then d else NatToString(n / 10) + d
  }

  /** Reading back what `NatToString` writes gives the number again. */
  lemma {:induction false} NatToStringValue(n: nat)
    ensures DigitsValue(NatToString(n)) == n
    decreases n
  {
    var s := NatToString(n);
    if n >= 10 {
      NatToStringValue(n / 10);
      assert s[..|s| - 1] == NatToString(n / 10);
    }
  }

  /** Distinct counts are written as distinct strings. */
  lemma NatToStringInjective(m: nat, n: nat)
    ensures NatToString(m) == NatToString(n) ==> m == n
  {
    NatToStringValue(m);
    NatToStringValue(n);
  }

  // ---------------------------------------------------------------------
  // Long.parseLong
  // ---------------------------------------------------------------------

  /** The shape `Long.parseLong` accepts: an optional '+' or '-' followed by
      one or more decimal digits. */
  predicate IsLongLiteral(s: string) {
    if |s| > 0 && (s[0] == '-' || s[0] == '+') then |s| > 1 && AllDigits(s[1..])
    else |s| > 0 && AllDigits(s)
  }

  /** The mathematical value of a well-shaped literal, before any range check. */
  function LiteralValue(s: string): int
    requires IsLongLiteral(s)
  {
    if s[0] == '-' then 0 - DigitsValue(s[1..])
    else if s[0] == '+' then DigitsValue(s[1..])
    else DigitsValue(s)
  }

  /** `Long.parseLong(s)` described by what it accepts: `None` is a
      `NumberFormatException`, raised for a null string, a string of the
      wrong shape, or a value outside the range of a `long`. `ParseLongLoop`
      is the digit loop that computes it. */
  function ParseLong(s: Option<string>): (r: Option<int>)
    ensures r.Some? <==> s.Some? && IsLongLiteral(s.value) && LongMin <= LiteralValue(s.value) <= LongMax
    ensures r.Some? ==> LongMin <= r.value <= LongMax && r.value == LiteralValue(s.value)
  {
    match s
    case None => None
    case Some(t) =>
      if !IsLongLiteral(t) then None
      else
        var v := LiteralValue(t);
        if LongMin <= v <= LongMax then Some(v) else None
  }

  /** A digit string is worth at least as much as any of its prefixes, so
      once a prefix is too large the whole string is. */
  lemma {:induction false} DigitsValuePrefix(s: string, j: nat)
    requires AllDigits(s) && j <= |s|
    ensures AllDigits(s[..j]) && DigitsValue(s[..j]) <= DigitsValue(s)
    decreases |s|
  {
    if j == |s| {
      assert s[..j] == s;
    } else {
      var n := |s| - 1;
      assert s[..n][..j] == s[..j];
      assert AllDigits(s[..n]) by {
        assert forall k :: 0 <= k < n ==> s[..n][k] == s[k];
      }
      DigitsValuePrefix(s[..n], j);
    }
  }

  /** One more digit: the value is shifted left by one place. */
  lemma DigitsValueStep(s: string, j: nat)
    requires j < |s| && AllDigits(s[..j]) && IsDigit(s[j])
    ensures AllDigits(s[..j + 1])
    ensures DigitsValue(s[..j + 1]) == DigitsValue(s[..j]) * 10 + (s[j] as int - '0' as int)
  {
    assert s[..j + 1][..j] == s[..j];
  }

  /** The digits after an optional sign, and what the literal is worth in
      terms of them. */
  lemma LiteralDigits(t: string, start: nat)
    requires |t| > start
    requires start == if t[0] == '-' || t[0] == '+' then 1 else 0
    ensures IsLongLiteral(t) <==> AllDigits(t[start..])
    ensures IsLongLiteral(t) ==>
      LiteralValue(t) == if t[0] == '-' then 0 - DigitsValue(t[start..]) else DigitsValue(t[start..])
  {
    if start == 0 {
      assert t[start..] == t;
    }
  }

  /** The digit loop of `Long.parseLong` in radix 10, as the JDK writes it.
      The value is accumulated as a negative number, so that the smallest
      `long` fits; `multmin` guards the multiplication by ten and
      `limit + digit` the subtraction of the next digit, and every
      intermediate value stays within the range of a `long`. It accepts
      exactly the literals `ParseLong` describes, with the same value. */
  method ParseLongLoop(s: Option<string>) returns (r: Option<int>)
    ensures r.Some? <==> s.Some? && IsLongLiteral(s.value) && LongMin <= LiteralValue(s.value) <= LongMax
    ensures r.Some? ==> r.value == LiteralValue(s.value)
    ensures r == ParseLong(s)
  {
    if s.None? {
      return None;
    }
    var t := s.value;
    if |t| == 0 {
      return None;
    }
    var negative := false;
    var limit := -LongMax;
    var start := 0;
    if t[0] < '0' {
      if t[0] == '-' {
        negative := true;
        limit := LongMin;
      } else if t[0] != '+' {
        assert !IsDigit(t[0]);
        return None;
      }
      if |t| == 1 {
        return None;
      }
      start := 1;
    }
    LiteralDigits(t, start);
    var digits := t[start..];
    // `limit / radix` in Java, whose division truncates toward zero.
    var multmin := -((-limit) / 10);
    var result := 0;
    var i := 0;
    while i < |digits|
      invariant i <= |digits|
      invariant AllDigits(digits[..i])
      invariant result == 0 - DigitsValue(digits[..i])
      invariant limit <= result <= 0
    {
      if !IsDigit(digits[i]) {
        return None;
      }
      var digit := digits[i] as int - '0' as int;
      DigitsValueStep(digits, i);
      if result < multmin || result * 10 < limit + digit {
        if AllDigits(digits) {
          DigitsValuePrefix(digits, i + 1);
        }
        return None;
      }
      assert LongMin <= result * 10 <= LongMax;
      result := result * 10;
      result := result - digit;
      i := i + 1;
    }
    assert digits[..i] == digits;
    return Some(if negative then result else -result);
  }

  /** Every `long` rendered in decimal parses back to itself, with or
      without an explicit '+' sign. */
  lemma ParseLongRoundTrip(v: int)
    requires LongMin <= v <= LongMax
    ensures v >= 0 ==> ParseLong(Some(NatToString(v))) == Some(v)
    ensures v >= 0 ==> ParseLong(Some("+" + NatToString(v))) == Some(v)
    ensures v < 0 ==> ParseLong(Some("-" + NatToString(-v))) == Some(v)
  {
    if v >= 0 {
      var s := NatToString(v);
      NatToStringValue(v);
      assert ("+" + s)[1..] == s;
    } else {
      var s := NatToString(-v);
      NatToStringValue(-v);
      assert ("-" + s)[1..] == s;
    }
  }

  /** Leading zeros do not change the value of a digit string. */
  lemma {:induction false} DigitsValueLeadingZero(t: string)
    requires AllDigits(t)
    ensures AllDigits("0" + t) && DigitsValue("0" + t) == DigitsValue(t)
    decreases |t|
  {
    var z := "0" + t;
    assert AllDigits(z) by {
      assert forall k :: 0 < k < |z| ==> z[k] == t[k - 1];
    }
    if t == [] {
      assert z[..0] == "";
    } else {
      var n := |t| - 1;
      assert AllDigits(t[..n]) by {
        assert forall k :: 0 <= k < n ==> t[..n][k] == t[k];
      }
      DigitsValueLeadingZero(t[..n]);
      assert z[..|z| - 1] == "0" + t[..n];
    }
  }

  /** A character other than a digit after the optional sign is rejected. */
  lemma ParseLongNonDigit(t: string, k: nat)
    ensures k < |t| && !IsDigit(t[k]) && (k > 0 || (t[0] != '-' && t[0] != '+')) ==>
      ParseLong(Some(t)) == None
  {
    if k < |t| && !IsDigit(t[k]) && (k > 0 || (t[0] != '-' && t[0] != '+')) {
      if t[0] == '-' || t[0] == '+' {
        assert t[1..][k - 1] == t[k];
      }
    }
  }

  /** A leading zero after the optional sign changes nothing. */
  lemma ParseLongLeadingZero(t: string)
    requires |t| > 0 && AllDigits(t)
    ensures ParseLong(Some("0" + t)) == ParseLong(Some(t))
    ensures ParseLong(Some("+0" + t)) == ParseLong(Some("+" + t))
    ensures ParseLong(Some("-0" + t)) == ParseLong(Some("-" + t))
  {
    DigitsValueLeadingZero(t);
    assert ("0" + t)[0] == '0';
    assert ("+0" + t)[1..] == "0" + t && ("+" + t)[1..] == t;
    assert ("-0" + t)[1..] == "0" + t && ("-" + t)[1..] == t;
  }

  /** Null, empty and sign-only inputs are rejected, and so is any input
      with a character other than a digit after the optional sign. Leading
      zeros are accepted and change nothing, signed or not. */
  lemma ParseLongShapes(t: string, k: nat)
    ensures k < |t| && !IsDigit(t[k]) && (k > 0 || (t[0] != '-' && t[0] != '+')) ==>
      ParseLong(Some(t)) == None
    ensures |t| > 0 && AllDigits(t) ==>
      && ParseLong(Some("0" + t)) == ParseLong(Some(t))
      && ParseLong(Some("+0" + t)) == ParseLong(Some("+" + t))
      && ParseLong(Some("-0" + t)) == ParseLong(Some("-" + t))
    ensures ParseLong(None) == None
    ensures ParseLong(Some("")) == None
    ensures ParseLong(Some("-")) == None
    ensures ParseLong(Some("+")) == None
    ensures ParseLong(Some("12a")) == None
    ensures ParseLong(Some(" 1")) == None
    ensures ParseLong(Some("-007")) == Some(-7)
  {
    ParseLongNonDigit(t, k);
    if |t| > 0 && AllDigits(t) {
      ParseLongLeadingZero(t);
    }
    assert !IsDigit('a');
    assert !IsDigit(' ');
    assert "12a"[2] == 'a';
    assert "-007"[1..] == "007";
    assert DigitsValue("007") == 7 by {
      assert "007"[..2] == "00";
      assert "00"[..1] == "0";
      assert "0"[..0] == "";
    }
  }

  /** The largest and smallest `long` are accepted; one step beyond either
      is a `NumberFormatException`. */
  lemma ParseLongRange()
    ensures ParseLong(Some(NatToString(LongMax))) == Some(LongMax)
    ensures ParseLong(Some(NatToString(LongMax + 1))) == None
    ensures ParseLong(Some("-" + NatToString(-LongMin))) == Some(LongMin)
    ensures ParseLong(Some("-" + NatToString(-LongMin + 1))) == None
  {
    ParseLongRoundTrip(LongMax);
    ParseLongRoundTrip(LongMin);
    var tooHigh := NatToString(LongMax + 1);
    NatToStringValue(LongMax + 1);
    assert LiteralValue(tooHigh) == LongMax + 1 by {
      assert tooHigh[0] != '-' && tooHigh[0] != '+';
    }
    var tooLow := "-" + NatToString(-LongMin + 1);
    NatToStringValue(-LongMin + 1);
    assert tooLow[1..] == NatToString(-LongMin + 1);
  }

  // ---------------------------------------------------------------------
  // String concatenation of possibly-null references
  // ---------------------------------------------------------------------

  /** What `"..." + x` appends for a `String` reference `x`: its text, or
      the four characters "null" when it is null. */
  function JavaString(s: Option<string>): string {
    match s
    case Some(v) => v
    case None => "null"
  }
}
