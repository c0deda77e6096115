/** The pieces of Python's built-in string behaviour that the system relies
    on: `str.lower()` on country keys, `str(n)` and `int(s)` for integers,
    and the `","` thousands-separator format specifier. */
module Strings {
  import opened Wrappers

  // ---------------------------------------------------------------------
  // str.lower()

  /** KELVIN SIGN: the one character outside A-Z whose lower-case form is an
      ASCII letter that occurs in the country keys ("k"). */
  const KelvinSign: char := '\U{212A}'

  function LowerChar(c: char): char {
    if 'A' <= c <= 'Z' then (c as int + 32) as char
    else if c == KelvinSign then 'k'
    else c
  }

  /** `s.lower()`, character by character. */
  function Lower(s: string): (r: string)
    ensures |r| == |s|
    ensures forall i :: 0 <= i < |s| ==> r[i] == LowerChar(s[i])
  {
    if s == [] then [] else [LowerChar(s[0])] + Lower(s[1..])
  }

  /** Lowering twice is lowering once: the admin handler lowers the country
      key and the manager lowers it again. */
  lemma LowerIdempotent(s: string)
    ensures Lower(Lower(s)) == Lower(s)
  {
    var once := Lower(s);
    var twice := Lower(once);
    assert |twice| == |once|;
    forall i | 0 <= i < |once| ensures twice[i] == once[i] {
      assert once[i] == LowerChar(s[i]);
    }
  }

  // ---------------------------------------------------------------------
  // str(n) for integers

  predicate IsDigit(c: char) {
    '0' <= c <= '9'
  }

  predicate AllDigits(s: string) {
    forall i :: 0 <= i < |s| ==> IsDigit(s[i])
  }

  function DigitChar(d: nat): (c: char)
    requires d < 10
    ensures IsDigit(c)
    ensures c == '0' <==> d == 0
  {
    (d + '0' as int) as char
  }

  function DigitValue(c: char): (d: nat)
    requires IsDigit(c)
    ensures d < 10 && DigitChar(d) == c
  {
    c as int - '0' as int
  }

  /** Decimal digits of a natural number, most significant first, with no
      leading zero. */
  function NatToDecimal(n: nat): (s: string)
    ensures |s| >= 1 && AllDigits(s)
    ensures s[0] == '0' <==> n == 0
    decreases n
  {
    if n < 10 then [DigitChar(n)] else NatToDecimal(n / 10) + [DigitChar(n % 10)]
  }

  /** The number a string of decimal digits denotes. */
  function DigitsValue(s: string): nat
    requires AllDigits(s)
    decreases |s|
  {
    if s == [] then 0 else DigitsValue(s[..|s| - 1]) * 10 + DigitValue(s[|s| - 1])
  }

  lemma {:induction false} DecimalRoundTrip(n: nat)
    ensures DigitsValue(NatToDecimal(n)) == n
  {
    if n >= 10 {
      DecimalRoundTrip(n / 10);
      var s := NatToDecimal(n);
      assert s[..|s| - 1] == NatToDecimal(n / 10);
    }
  }

  /** Numbers below 1000 have at most three digits, the others at least four. */
  lemma {:induction false} DecimalLength(n: nat)
    ensures n < 1000 <==> |NatToDecimal(n)| <= 3
  {
    if n >= 10 {
      assert |NatToDecimal(n)| == |NatToDecimal(n / 10)| + 1;
      if n / 10 >= 10 {
        assert |NatToDecimal(n / 10)| == |NatToDecimal(n / 100)| + 1;
        if n / 100 >= 10 {
          assert |NatToDecimal(n / 100)| == |NatToDecimal(n / 1000)| + 1;
        }
      }
    }
  }

  /** Python's `str(n)`. */
  function IntToString(n: int): (s: string)
    ensures |s| >= 1 && IsDigit(s[|s| - 1])
    ensures s[0] == '-' <==> n < 0
    ensures n >= 0 ==> AllDigits(s)
  {
    if n < 0 then "-" + NatToDecimal(-n) else NatToDecimal(n)
  }

  // ---------------------------------------------------------------------
  // int(s) for strings

  /** The ASCII characters Python's `int()` strips as whitespace: space and
      tab through carriage return. The separators U+001C..U+001F count as
      whitespace for `str.isspace()` but are not stripped by `int()`. */
  predicate IsSpace(c: char) {
    c == ' ' || '\t' <= c <= '\r'
  }

  function StripLeft(s: string): (r: string)
    ensures |r| <= |s| && r == s[|s| - |r|..]
    ensures forall i :: 0 <= i < |s| - |r| ==> IsSpace(s[i])
    ensures r != [] ==> !IsSpace(r[0])
    ensures forall c :: c in s && !IsSpace(c) ==> c in r
    decreases |s|
  {
    if s != [] && IsSpace(s[0]) then StripLeft(s[1..]) else s
  }

  function StripRight(s: string): (r: string)
    ensures |r| <= |s| && r == s[..|r|]
    ensures forall i :: |r| <= i < |s| ==> IsSpace(s[i])
    ensures r != [] ==> !IsSpace(r[|r| - 1])
    ensures forall c :: c in s && !IsSpace(c) ==> c in r
    decreases |s|
  {
    if s != [] && IsSpace(s[|s| - 1]) then StripRight(s[..|s| - 1]) else s
  }

  function Strip(s: string): (r: string)
    ensures forall c :: c in s && !IsSpace(c) ==> c in r
  {
    StripRight(StripLeft(s))
  }

  /** What `int()` accepts after the optional sign: decimal digits, with
      single underscores allowed only between two digits. */
  predicate IsDigitBody(b: string) {
    && |b| > 0 && IsDigit(b[0]) && IsDigit(b[|b| - 1])
    && forall i :: 0 <= i < |b| && !IsDigit(b[i]) ==> b[i] == '_' && i + 1 < |b| && IsDigit(b[i + 1])
  }

  function DropUnderscores(b: string): (r: string)
    ensures forall c :: c in r ==> c in b && c != '_'
    ensures '_' !in b ==> r == b
  {
    if b == [] then [] else (if b[0] == '_' then [] else [b[0]]) + DropUnderscores(b[1..])
  }

  function BodyValue(b: string): nat
    requires IsDigitBody(b)
  {
    var ds := DropUnderscores(b);
    assert AllDigits(ds) by {
      forall i | 0 <= i < |ds| ensures IsDigit(ds[i]) {
        assert ds[i] in b;
      }
    }
    DigitsValue(ds)
  }

  /** Python's `int(s)` for a string: `None` where it raises ValueError. */
  function ParseInt(s: string): (r: Option<int>)
    ensures r.Some? ==> Strip(s) != [] && IsDigit(Strip(s)[|Strip(s)| - 1])
    ensures r.Some? && r.value < 0 ==> Strip(s)[0] == '-'
  {
    var t := Strip(s);
    if |t| > 0 && (t[0] == '-' || t[0] == '+') then
      var b := t[1..];
      if IsDigitBody(b) then Some(if t[0] == '-' then -(BodyValue(b) as int) else BodyValue(b)) else None
    else if IsDigitBody(t) then Some(BodyValue(t))
    else None
  }

  lemma DigitsHaveNoSeparator(ds: string)
    requires AllDigits(ds)
    ensures ',' !in ds && '_' !in ds
  {
    assert forall i :: 0 <= i < |ds| ==> ds[i] != ',' && ds[i] != '_';
  }

  /** `int(str(n)) == n`. */
  lemma ParseIntRoundTrip(n: int)
    ensures ParseInt(IntToString(n)) == Some(n)
  {
    var s := IntToString(n);
    assert !IsSpace(s[0]) && !IsSpace(s[|s| - 1]);
    assert Strip(s) == s;
    var m: nat := if n < 0 then -n else n;
    var ds := NatToDecimal(m);
    DecimalRoundTrip(m);
    DigitsHaveNoSeparator(ds);
    assert IsDigitBody(ds);
    assert BodyValue(ds) == m;
    if n < 0 {
      assert s[1..] == ds;
    } else {
      assert s == ds;
    }
  }

  lemma CommaIsNotDigitBody(b: string)
    requires ',' in b
    ensures !IsDigitBody(b)
  {
    var i :| 0 <= i < |b| && b[i] == ',';
    assert !IsDigit(b[i]);
  }

  /** `int()` rejects any string holding a comma. */
  lemma ParseIntRejectsComma(s: string)
    requires ',' in s
    ensures ParseInt(s) == None
  {
    var t := Strip(s);
    assert ',' in t;
    if |t| > 0 && (t[0] == '-' || t[0] == '+') {
      var i :| 0 <= i < |t| && t[i] == ',';
      assert t[1..][i - 1] == ',';
      CommaIsNotDigitBody(t[1..]);
    } else {
      CommaIsNotDigitBody(t);
    }
  }

  // ---------------------------------------------------------------------
  // f"{n:,}"

  /** Digits grouped in threes from the right, separated by commas. */
  function GroupThousands(ds: string): (r: string)
    ensures |ds| >= 1 ==> |r| >= 1 && r[0] == ds[0] && r[|r| - 1] == ds[|ds| - 1]
    decreases |ds|
  {
    if |ds| <= 3 then ds else GroupThousands(ds[..|ds| - 3]) + "," + ds[|ds| - 3..]
  }

  /** Python's `f"{n:,}"` for an integer. */
  function FormatThousands(n: int): (r: string)
    ensures |r| >= 1 && (r[0] == '-' <==> n < 0) && IsDigit(r[|r| - 1])
  {
    if n < 0 then "-" + GroupThousands(NatToDecimal(-n)) else GroupThousands(NatToDecimal(n))
  }

  function RemoveCommas(s: string): (r: string)
    ensures ',' !in r
  {
    if s == [] then [] else (if s[0] == ',' then [] else [s[0]]) + RemoveCommas(s[1..])
  }

  lemma {:induction false} RemoveCommasAppend(a: string, b: string)
    ensures RemoveCommas(a + b) == RemoveCommas(a) + RemoveCommas(b)
  {
    if a != [] {
      assert (a + b)[1..] == a[1..] + b;
      RemoveCommasAppend(a[1..], b);
    } else {
      assert a + b == b;
    }
  }

  lemma {:induction false} RemoveCommasNoComma(s: string)
    requires ',' !in s
    ensures RemoveCommas(s) == s
  {
    if s != [] {
      RemoveCommasNoComma(s[1..]);
    }
  }

  /** Deleting the separators gives back the digits. */
  lemma {:induction false} GroupThousandsRoundTrip(ds: string)
    requires AllDigits(ds)
    ensures RemoveCommas(GroupThousands(ds)) == ds
  {
    if |ds| <= 3 {
      DigitsHaveNoSeparator(ds);
      RemoveCommasNoComma(ds);
    } else {
      var head, tail := ds[..|ds| - 3], ds[|ds| - 3..];
      assert AllDigits(head) && AllDigits(tail);
      var g := GroupThousands(head);
      assert GroupThousands(ds) == g + "," + tail;
      calc {
        RemoveCommas(g + "," + tail);
        { RemoveCommasAppend(g + ",", tail); }
        RemoveCommas(g + ",") + RemoveCommas(tail);
        { RemoveCommasAppend(g, ","); }
        RemoveCommas(g) + RemoveCommas(",") + RemoveCommas(tail);
        { GroupThousandsRoundTrip(head); DigitsHaveNoSeparator(tail); RemoveCommasNoComma(tail); }
        head + RemoveCommas(",") + tail;
        { assert RemoveCommas(",") == []; }
        head + tail;
        ds;
      }
    }
  }

  /** Counting from the right, every fourth character is a comma and no
      other character is: groups of three digits, except the leading group,
      which has one to three. */
  predicate CommaEveryFourth(r: string) {
    forall i :: 0 <= i < |r| ==> (r[i] == ',' <==> (|r| - i) % 4 == 0)
  }

  /** Digits grouped in threes from the right: a comma at every fourth
      place, none at either end, and exactly one per full group of three. */
  predicate GroupedInThrees(g: string) {
    && CommaEveryFourth(g)
    && |g| >= 1 && g[0] != ',' && g[|g| - 1] != ','
    && |g| == |RemoveCommas(g)| + (|RemoveCommas(g)| - 1) / 3
  }

  lemma CommaEveryFourthStep(g: string, tail: string)
    requires CommaEveryFourth(g) && |tail| == 3 && AllDigits(tail)
    ensures CommaEveryFourth(g + "," + tail)
  {
    var r := g + "," + tail;
    forall i | 0 <= i < |r| ensures r[i] == ',' <==> (|r| - i) % 4 == 0 {
      if i < |g| {
        assert r[i] == g[i];
        assert (|r| - i) % 4 == (|g| - i) % 4;
      } else if i > |g| {
        assert r[i] == tail[i - |g| - 1];
        assert 0 < |r| - i < 4;
      }
    }
  }

  lemma {:induction false} GroupThousandsLayout(ds: string)
    requires |ds| >= 1 && AllDigits(ds)
    ensures |GroupThousands(ds)| == |ds| + (|ds| - 1) / 3
    ensures CommaEveryFourth(GroupThousands(ds))
  {
    if |ds| > 3 {
      var head, tail := ds[..|ds| - 3], ds[|ds| - 3..];
      assert AllDigits(head) && AllDigits(tail);
      GroupThousandsLayout(head);
      assert GroupThousands(ds) == GroupThousands(head) + "," + tail;
      CommaEveryFourthStep(GroupThousands(head), tail);
    } else {
      assert forall i :: 0 <= i < |ds| ==> ds[i] != ',';
    }
  }

  lemma GroupThousandsHasComma(ds: string)
    requires |ds| > 3
    ensures ',' in GroupThousands(ds)
  {
    var g := GroupThousands(ds[..|ds| - 3]);
    assert GroupThousands(ds)[|g|] == ',';
  }

  /** `f"{n:,}"` with its commas deleted is `str(n)`. */
  lemma FormatThousandsRoundTrip(n: int)
    ensures RemoveCommas(FormatThousands(n)) == IntToString(n)
  {
    var m: nat := if n < 0 then -n else n;
    var ds := NatToDecimal(m);
    GroupThousandsRoundTrip(ds);
    if n < 0 {
      RemoveCommasAppend("-", GroupThousands(ds));
      assert RemoveCommas("-") == "-";
    }
  }
}
