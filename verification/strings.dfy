/** Text helpers behind the pandas string operations the pipeline uses: Python's notion of
    whitespace, substring search (`str.contains`), the trailing-field regex that derives
    `country`, numeral parsing (`pd.to_numeric` on text) and code-point string order. */
module Strings {
  import opened Options

  /** Python's `str.isspace` / regex `\s` on `str` patterns: the code points of Unicode
      categories Zs, B and S. */
  predicate IsSpace(c: char) {
    var n := c as int;
    (9 <= n <= 13) || (28 <= n <= 32) || n == 0x85 || n == 0xA0 || n == 0x1680
    || (0x2000 <= n <= 0x200A) || n == 0x2028 || n == 0x2029 || n == 0x202F
    || n == 0x205F || n == 0x3000
  }

  predicate IsDigit(c: char) {
    '0' <= c <= '9'
  }

  predicate AllDigits(s: string) {
    forall i {:trigger IsDigit(s[i])} | 0 <= i < |s| :: IsDigit(s[i])
  }

  // ---------------------------------------------------------------------------
  // Substring search
  // ---------------------------------------------------------------------------

  /** `t` occurs in `s` starting at index `i`. */
  ghost predicate OccursAt(s: string, t: string, i: int) {
    0 <= i && i + |t| <= |s| && s[i..i + |t|] == t
  }

  /** Substring test, as `Series.str.contains(t)` for a pattern without regex metacharacters. */
  function Contains(s: string, t: string): (r: bool)
    ensures r <==> exists i :: OccursAt(s, t, i)
    decreases |s|
  {
    if t <= s then
      assert OccursAt(s, t, 0);
      true
    else if |s| == 0 then
      assert forall i :: !OccursAt(s, t, i);
      false
    else
      var r := Contains(s[1..], t);
      assert forall i :: OccursAt(s[1..], t, i) <==> OccursAt(s, t, i + 1) by {
        forall i ensures OccursAt(s[1..], t, i) <==> OccursAt(s, t, i + 1) {
          if 0 <= i && i + |t| <= |s| - 1 {
            assert s[1..][i..i + |t|] == s[i + 1..i + 1 + |t|];
          }
        }
      }
      assert !OccursAt(s, t, 0);
      assert (exists i :: OccursAt(s, t, i)) ==> exists i :: OccursAt(s[1..], t, i) by {
        if exists i :: OccursAt(s, t, i) {
          var i :| OccursAt(s, t, i);
          assert i != 0;
          assert OccursAt(s[1..], t, i - 1);
        }
      }
      r
  }

  // ---------------------------------------------------------------------------
  // The trailing field of a place description: regex `,\s*([^,]+)$`
  // ---------------------------------------------------------------------------

  predicate CommaFree(s: string) {
    forall i | 0 <= i < |s| :: s[i] != ','
  }

  /** The index just past the last comma of `s`, or None when `s` has no comma. */
  function AfterLastComma(s: string): (r: Option<nat>)
    ensures r.None? <==> CommaFree(s)
    ensures r.Some? ==> 1 <= r.value <= |s| && s[r.value - 1] == ',' && CommaFree(s[r.value..])
  {
    if |s| == 0 then None
    else if s[|s| - 1] == ',' then Some(|s|)
    else
      var r := AfterLastComma(s[..|s| - 1]);
      assert r.Some? ==> s[r.value..] == s[..|s| - 1][r.value..] + [s[|s| - 1]];
      r
  }

  /** How many leading whitespace characters `\s*` consumes when `[^,]+$` must still match
      the rest: all of them, but never the last character. */
  function LeadingSpaces(s: string): (n: nat)
    requires |s| > 0
    ensures n < |s|
    ensures forall i | 0 <= i < n :: IsSpace(s[i])
    ensures n == |s| - 1 || !IsSpace(s[n])
  {
    if |s| > 1 && IsSpace(s[0]) then 1 + LeadingSpaces(s[1..]) else 0
  }

  /** The regex `,\s*([^,]+)$` matches `s` with its comma at `k - 1` and its group starting at
      `j`: no comma after the one matched, only whitespace before the group, and the greedy
      `\s*` stops at the first non-space or at the last character. */
  ghost predicate FieldMatch(s: string, k: int, j: int) {
    && 0 < k <= j < |s| && s[k - 1] == ','
    && (forall i | k <= i < |s| :: s[i] != ',')
    && (forall i | k <= i < j :: IsSpace(s[i]))
    && (j == |s| - 1 || !IsSpace(s[j]))
  }

  /** The capture of `,\s*([^,]+)$` searched with `re.search`: the text after the last comma
      with leading whitespace skipped, or None when `s` has no comma or ends with one. */
  function TrailingField(s: string): (r: Option<string>)
    ensures r.None? <==> (CommaFree(s) || s[|s| - 1] == ',')
    ensures r.Some? ==> exists k, j :: FieldMatch(s, k, j) && r.value == s[j..]
    ensures r.Some? ==> |r.value| > 0 && CommaFree(r.value)
  {
    match AfterLastComma(s)
    case None => None
    case Some(k) =>
      if k == |s| then None
      else
        var j := k + LeadingSpaces(s[k..]);
        assert FieldMatch(s, k, j) by {
          assert forall i | k <= i < |s| :: s[i] == s[k..][i - k];
        }
        FieldMatchIsCommaFree(s, k, j);
        Some(s[j..])
  }

  /** A group that `FieldMatch` describes is non-empty and holds no comma. */
  lemma FieldMatchIsCommaFree(s: string, k: int, j: int)
    requires FieldMatch(s, k, j)
    ensures |s[j..]| > 0 && CommaFree(s[j..])
  {
    assert forall i | 0 <= i < |s[j..]| :: s[j..][i] == s[j + i];
  }

  /** The regex has at most one match: the comma is the last one and the group start is fixed. */
  lemma FieldMatchUnique(s: string, k1: int, j1: int, k2: int, j2: int)
    requires FieldMatch(s, k1, j1) && FieldMatch(s, k2, j2)
    ensures k1 == k2 && j1 == j2
  {
  }

  /** Reading the field back: after a comma and one space, a non-empty comma-free `name` that
      does not start with whitespace is exactly what the regex captures. */
  lemma TrailingFieldAfterSeparator(prefix: string, name: string)
    requires |name| > 0 && CommaFree(name) && !IsSpace(name[0])
    ensures TrailingField(prefix + ", " + name) == Some(name)
  {
    var s := prefix + ", " + name;
    var k := |prefix| + 1;
    var j := k + 1;
    assert s[k - 1] == ',' && s[k] == ' ';
    assert s[j..] == name;
    assert forall i | j <= i < |s| :: s[i] == name[i - j];
    assert FieldMatch(s, k, j);
    assert s[|s| - 1] == name[|name| - 1];
    var r := TrailingField(s);
    var k', j' :| FieldMatch(s, k', j') && r.value == s[j'..];
    FieldMatchUnique(s, k, j, k', j');
  }

  const Unknown: string := "unknown"

  // ---------------------------------------------------------------------------
  // Numerals, as `pd.to_numeric` reads them from text
  // ---------------------------------------------------------------------------

  function DigitValue(c: char): nat
    requires IsDigit(c)
  {
    c as int - '0' as int
  }

  function DigitChar(d: nat): (c: char)
    requires d < 10
    ensures IsDigit(c) && DigitValue(c) == d
  {
    ('0' as int + d) as char
  }

  /** The natural number a run of decimal digits denotes (most significant first). */
  function DigitsValue(ds: string): nat
    requires AllDigits(ds)
  {
    if |ds| == 0 then 0 else DigitsValue(ds[..|ds| - 1]) * 10 + DigitValue(ds[|ds| - 1])
  }

  function Pow10(n: nat): (r: nat)
    ensures r >= 1
  {
    if n == 0 then 1 else 10 * Pow10(n - 1)
  }

  function IndexOf(s: string, c: char): (r: Option<nat>)
    ensures r.None? <==> c !in s
    ensures r.Some? ==> r.value < |s| && s[r.value] == c && c !in s[..r.value]
  {
    if |s| == 0 then None
    else if s[0] == c then Some(0)
    else
      match IndexOf(s[1..], c)
      case None => None
      case Some(i) =>
        assert s[..i + 1] == [s[0]] + s[1..][..i];
        Some(i + 1)
  }

  /** `r / 10^n`, one decimal place at a time. */
  function Scaled(r: nat, n: nat): real {
    if n == 0 then r as real else Scaled(r, n - 1) / 10.0
  }

  lemma {:induction false} ScaledIsQuotient(r: nat, n: nat)
    ensures Scaled(r, n) * Pow10(n) as real == r as real
  {
    if n > 0 {
      ScaledIsQuotient(r, n - 1);
      assert Pow10(n) as real == 10.0 * Pow10(n - 1) as real;
    }
  }

  /** The value of the numeral `whole.frac`, either part possibly empty. */
  function DecimalValue(whole: string, frac: string): real
    requires AllDigits(whole) && AllDigits(frac)
  {
    DigitsValue(whole) as real + Scaled(DigitsValue(frac), |frac|)
  }

  /** Reads `[+-]? (digits ('.' digits*)? | '.' digits)`; anything else is not a number. */
  function ParseNumber(s: string): (r: Option<real>)
    ensures r.Some? ==> |s| > 0
    ensures r.Some? && (s[0] == '-' || s[0] == '+') ==> |s| > 1 && (IsDigit(s[1]) || (|s| > 2 && IsDigit(s[2])))
    ensures r.Some? && s[0] != '-' && s[0] != '+' ==> IsDigit(s[0]) || (|s| > 1 && IsDigit(s[1]))
  {
    var signed := |s| > 0 && (s[0] == '-' || s[0] == '+');
    var body := if signed then s[1..] else s;
    match ParseUnsigned(body)
    case None => None
    case Some(magnitude) =>
      var k := if signed then 1 else 0;
      assert body == s[k..];
      Some(if |s| > 0 && s[0] == '-' then -magnitude else magnitude)
  }

  /** Whatever reads as a number contains a digit. */
  lemma ParseNumberHasDigit(s: string)
    requires ParseNumber(s).Some?
    ensures exists i | 0 <= i < |s| :: IsDigit(s[i])
  {
    if s[0] == '-' || s[0] == '+' {
      if !IsDigit(s[1]) {
        assert IsDigit(s[2]);
      }
    } else if !IsDigit(s[0]) {
      assert IsDigit(s[1]);
    }
  }

  /** Reads `digits ('.' digits*)? | '.' digits`. */
  function ParseUnsigned(body: string): (r: Option<real>)
    ensures r.Some? ==> |body| > 0 && (IsDigit(body[0]) || (|body| > 1 && IsDigit(body[1])))
  {
    var dot := IndexOf(body, '.');
    var whole := if dot.None? then body else body[..dot.value];
    var frac := if dot.None? then "" else body[dot.value + 1..];
    if AllDigits(whole) && AllDigits(frac) && |whole| + |frac| > 0 then
      assert |whole| > 0 ==> body[0] == whole[0];
      assert |whole| == 0 ==> body[dot.value + 1] == frac[0];
      Some(DecimalValue(whole, frac))
    else None
  }

  /** Decimal rendering of a natural number, without leading zeros. */
  function ShowNat(n: nat): (s: string)
    ensures 0 < |s| && AllDigits(s)
  {
    if n < 10 then [DigitChar(n)] else ShowNat(n / 10) + [DigitChar(n % 10)]
  }

  /** Decimal rendering of an integer, with a leading '-' when negative. */
  function ShowInt(i: int): (s: string)
    ensures 0 < |s|
  {
    if i < 0 then "-" + ShowNat(-i) else ShowNat(i)
  }

  lemma {:induction false} DigitsValueOfShowNat(n: nat)
    ensures DigitsValue(ShowNat(n)) == n
  {
    var s := ShowNat(n);
    if n >= 10 {
      DigitsValueOfShowNat(n / 10);
      assert s[..|s| - 1] == ShowNat(n / 10);
    }
  }

  /** Parsing inverts rendering: every integer written out in decimal reads back as itself. */
  lemma ParseShowInt(i: int)
    ensures ParseNumber(ShowInt(i)) == Some(i as real)
  {
    var s := ShowInt(i);
    var digits := if i < 0 then ShowNat(-i) else ShowNat(i);
    DigitsValueOfShowNat(if i < 0 then -i else i);
    assert '.' !in digits by {
      forall k | 0 <= k < |digits| ensures digits[k] != '.' {
        assert IsDigit(digits[k]);
      }
    }
    if i < 0 {
      assert s[1..] == digits;
    } else {
      assert IsDigit(s[0]);
    }
  }

  /** The last `n` decimal digits of `r`, zero-padded on the left. */
  function FracDigits(r: nat, n: nat): (s: string)
    ensures |s| == n && AllDigits(s)
  {
    if n == 0 then "" else FracDigits(r / 10, n - 1) + [DigitChar(r % 10)]
  }

  lemma {:induction false} DigitsValueOfFracDigits(r: nat, n: nat)
    requires r < Pow10(n)
    ensures DigitsValue(FracDigits(r, n)) == r
  {
    if n > 0 {
      var s := FracDigits(r, n);
      DigitsValueOfFracDigits(r / 10, n - 1);
      assert s[..|s| - 1] == FracDigits(r / 10, n - 1);
    }
  }

  /** Fixed-point rendering of `q + r / 10^n`: whole part, '.', then exactly `n` fraction
      digits. */
  function ShowFixed(q: nat, r: nat, n: nat): string
    requires r < Pow10(n)
  {
    ShowNat(q) + "." + FracDigits(r, n)
  }

  /** The number `q + r / 10^n`. */
  function FixedValue(q: nat, r: nat, n: nat): real {
    q as real + Scaled(r, n)
  }

  /** Parsing inverts fixed-point rendering: every decimal fraction `q + r / 10^n` written out
      with `n` fraction digits reads back as itself. */
  lemma ParseShowFixed(q: nat, r: nat, n: nat)
    requires r < Pow10(n)
    ensures IsDigit(ShowFixed(q, r, n)[0])
    ensures ParseNumber(ShowFixed(q, r, n)) == Some(FixedValue(q, r, n))
  {
    var whole, frac := ShowNat(q), FracDigits(r, n);
    DigitsValueOfShowNat(q);
    DigitsValueOfFracDigits(r, n);
    assert '.' !in whole by {
      forall i | 0 <= i < |whole| ensures whole[i] != '.' {
        assert IsDigit(whole[i]);
      }
    }
    ParseDigitsDotDigits(whole, frac);
    assert DecimalValue(whole, frac) == FixedValue(q, r, n);
    assert IsDigit(whole[0]);
  }

  /** A leading '-' negates what a numeral starting with a digit reads as. */
  lemma ParseNegated(body: string, x: real)
    requires |body| > 0 && IsDigit(body[0]) && ParseNumber(body) == Some(x)
    ensures ParseNumber("-" + body) == Some(-x)
  {
    ParseDigitFirst(body);
    ParseMinus(body);
  }

  /** A numeral starting with a digit carries no sign. */
  lemma ParseDigitFirst(s: string)
    requires |s| > 0 && IsDigit(s[0])
    ensures ParseNumber(s) == ParseUnsigned(s)
  {
    assert s[0] != '-' && s[0] != '+';
  }

  /** After a leading '-', the rest is read unsigned and negated. */
  lemma ParseMinus(body: string)
    ensures ParseNumber("-" + body) == if ParseUnsigned(body).Some? then Some(-ParseUnsigned(body).value) else None
  {
    var s := "-" + body;
    assert s[0] == '-' && s[1..] == body;
  }

  /** An unsigned numeral with a fraction part: digits, '.', digits. */
  lemma ParseDigitsDotDigits(whole: string, frac: string)
    requires |whole| > 0 && AllDigits(whole) && AllDigits(frac) && '.' !in whole
    ensures ParseNumber(whole + "." + frac) == Some(DecimalValue(whole, frac))
  {
    var body := whole + "." + frac;
    assert body[|whole|] == '.' && body[..|whole|] == whole && body[|whole| + 1..] == frac;
    IndexOfAt(body, '.', |whole|);
    assert body[0] == whole[0] && IsDigit(body[0]);
  }

  /** The first occurrence is where `c` stands with no `c` before it. */
  lemma IndexOfAt(s: string, c: char, i: nat)
    requires i < |s| && s[i] == c && c !in s[..i]
    ensures IndexOf(s, c) == Some(i)
  {
    assert c in s;
  }

  // ---------------------------------------------------------------------------
  // Code-point order on strings (Python's `<=` on `str`)
  // ---------------------------------------------------------------------------

  predicate TextLe(a: string, b: string) {
    |a| == 0 || (|b| > 0 && (a[0] < b[0] || (a[0] == b[0] && TextLe(a[1..], b[1..]))))
  }

  lemma {:induction false} TextLeTotal(a: string, b: string)
    ensures TextLe(a, b) || TextLe(b, a)
  {
    if |a| > 0 && |b| > 0 && a[0] == b[0] {
      TextLeTotal(a[1..], b[1..]);
    }
  }

  lemma {:induction false} TextLeTransitive(a: string, b: string, c: string)
    requires TextLe(a, b) && TextLe(b, c)
    ensures TextLe(a, c)
  {
    if |a| > 0 && a[0] == b[0] && b[0] == c[0] {
      TextLeTransitive(a[1..], b[1..], c[1..]);
    }
  }

  lemma {:induction false} TextLeAntisymmetric(a: string, b: string)
    requires TextLe(a, b) && TextLe(b, a)
    ensures a == b
  {
    if |a| > 0 && |b| > 0 {
      TextLeAntisymmetric(a[1..], b[1..]);
      assert a == [a[0]] + a[1..] && b == [b[0]] + b[1..];
    }
  }
}
