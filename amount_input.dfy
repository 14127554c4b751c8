/**
 * The calculator's amount text fields. A typed value is accepted only when it
 * matches the regular expression `^\d*\.?\d*$` (digits, at most one decimal
 * point, more digits; the empty string included), and an accepted value is
 * read as a decimal number with `parseFloat(value) || 0`.
 */
module AmountInput {
  import opened Wrappers

  /** `\d` without the Unicode flag: an ASCII digit. */
  predicate IsDigit(c: char) {
    '0' <= c <= '9'
  }

  predicate AllDigits(s: string) {
    forall i :: 0 <= i < |s| ==> IsDigit(s[i])
  }

  /** Reference reading of the pattern: a run of digits, optionally followed
      by one '.' and a second run of digits. */
  ghost predicate MatchesAmountPattern(s: string) {
    AllDigits(s) || exists k :: PointAt(s, k)
  }

  /** `s` is digits, a '.' at index `k`, and digits. */
  ghost predicate PointAt(s: string, k: int) {
    0 <= k < |s| && s[k] == '.' && AllDigits(s[..k]) && AllDigits(s[k + 1..])
  }

  /** The matcher for `\d*$`, left to right. */
  predicate ScanFraction(s: string) {
    s == [] || (IsDigit(s[0]) && ScanFraction(s[1..]))
  }

  /** The matcher for `^\d*\.?\d*$`, left to right: digits, then either the
      end, or a '.' followed by `\d*$`. This is the check the input handlers
      apply. */
  predicate AcceptsAmount(s: string)
    ensures AcceptsAmount(s) <==> DigitsAndOnePoint(s)
  {
    if s == [] then true
    else if IsDigit(s[0]) then
      DigitsAndOnePointCons(s[0], s[1..]);
      AcceptsAmount(s[1..])
    else
      ScanFractionCorrect(s[1..]);
      DigitsAndOnePointCons(s[0], s[1..]);
      s[0] == '.' && ScanFraction(s[1..])
  }

  /** The pattern read character by character: only digits and points, and
      no two points. */
  ghost predicate DigitsAndOnePoint(s: string) {
    && (forall i :: 0 <= i < |s| ==> IsDigit(s[i]) || s[i] == '.')
    && (forall i, j :: 0 <= i < j < |s| && s[i] == '.' ==> s[j] != '.')
  }

  lemma DigitsAndOnePointCons(c: char, t: string)
    ensures IsDigit(c) ==> (DigitsAndOnePoint([c] + t) <==> DigitsAndOnePoint(t))
    ensures c == '.' ==> (DigitsAndOnePoint([c] + t) <==> AllDigits(t))
  {
    var s := [c] + t;
    assert forall i :: 0 <= i < |t| ==> s[i + 1] == t[i];
    if IsDigit(c) && DigitsAndOnePoint(t) {
      forall i, j | 0 <= i < j < |s| && s[i] == '.' ensures s[j] != '.' {
        assert i > 0 && t[i - 1] == '.' && s[j] == t[j - 1];
      }
    }
    if c == '.' && DigitsAndOnePoint(s) {
      forall i | 0 <= i < |t| ensures IsDigit(t[i]) {
        assert s[0] == '.' && s[i + 1] == t[i];
      }
    }
  }

  lemma {:induction false} ScanFractionCorrect(s: string)
    ensures ScanFraction(s) <==> AllDigits(s)
  {
    if s != [] {
      ScanFractionCorrect(s[1..]);
      if AllDigits(s) {
        assert forall i :: 0 <= i < |s| - 1 ==> s[1..][i] == s[i + 1];
      }
    }
  }

  lemma AllDigitsCons(c: char, s: string)
    requires IsDigit(c)
    ensures AllDigits([c] + s) <==> AllDigits(s)
  {
    assert forall i :: 0 <= i < |s| ==> ([c] + s)[i + 1] == s[i];
  }

  /** A point that splits `t` still splits `t` behind a leading digit. */
  lemma PointAtCons(c: char, t: string, k: int)
    requires IsDigit(c) && 0 <= k < |t|
    ensures PointAt([c] + t, k + 1) <==> PointAt(t, k)
  {
    var s := [c] + t;
    assert s[..k + 1] == [c] + t[..k] && s[k + 2..] == t[k + 1..] && s[k + 1] == t[k];
    AllDigitsCons(c, t[..k]);
  }

  /** A leading digit does not change whether the pattern matches. */
  lemma DigitHeadMatches(c: char, t: string)
    requires IsDigit(c)
    ensures MatchesAmountPattern([c] + t) <==> MatchesAmountPattern(t)
  {
    var s := [c] + t;
    AllDigitsCons(c, t);
    if k :| PointAt(t, k) {
      PointAtCons(c, t, k);
    }
    if k :| PointAt(s, k) {
      assert k > 0 by { assert s[0] == c; }
      PointAtCons(c, t, k - 1);
    }
  }

  /** A leading point matches exactly when digits alone follow it. */
  lemma DotHeadMatches(t: string)
    ensures MatchesAmountPattern(['.'] + t) <==> AllDigits(t)
  {
    var s := ['.'] + t;
    assert !IsDigit(s[0]);
    assert s[1..] == t;
    if AllDigits(t) {
      assert s[..0] == [];
      assert PointAt(s, 0);
    }
    forall k | 0 < k <= |s| ensures !AllDigits(s[..k]) {
      assert s[..k][0] == '.';
    }
  }

  /** The scanner accepts exactly the strings the pattern describes. */
  lemma {:induction false} AcceptsAmountCorrect(s: string)
    ensures AcceptsAmount(s) <==> MatchesAmountPattern(s)
  {
    if s == [] {
      assert AllDigits(s);
    } else {
      var c, t := s[0], s[1..];
      assert s == [c] + t;
      if IsDigit(c) {
        AcceptsAmountCorrect(t);
        DigitHeadMatches(c, t);
      } else if c == '.' {
        ScanFractionCorrect(t);
        DotHeadMatches(t);
      } else {
        assert !AllDigits(s);
      }
    }
  }

  /** Examples of accepted and rejected values. */
  lemma AcceptsAmountExamples()
    ensures AcceptsAmount("") && AcceptsAmount(".") && AcceptsAmount("12.34")
    ensures AcceptsAmount("12.") && AcceptsAmount(".5")
    ensures !AcceptsAmount("12.34.5") && !AcceptsAmount("abc") && !AcceptsAmount("-1")
  {
    assert "12.34"[1..] == "2.34" && "2.34"[1..] == ".34" && ".34"[1..] == "34";
    assert "34"[1..] == "4" && "4"[1..] == "";
    assert "12.34.5"[1..] == "2.34.5" && "2.34.5"[1..] == ".34.5" && ".34.5"[1..] == "34.5";
    assert "34.5"[1..] == "4.5" && "4.5"[1..] == ".5" && ".5"[1..] == "5";
    assert "12."[1..] == "2." && "2."[1..] == "." && "."[1..] == "";
    assert "5"[1..] == "";
  }

  // ---- Reading an accepted value as a number (parseFloat) ----

  function DigitValue(c: char): nat
    requires IsDigit(c)
  {
    c as int - '0' as int
  }

  /** The value of a run of decimal digits, most significant first. */
  function DigitsValue(ds: string): nat
    requires AllDigits(ds)
  {
    if ds == [] then 0 else DigitsValue(ds[..|ds| - 1]) * 10 + DigitValue(ds[|ds| - 1])
  }

  function Pow10(n: nat): (p: nat)
    ensures p > 0
  {
    if n == 0 then 1 else 10 * Pow10(n - 1)
  }

  /** The longest run of digits at the start of `s`. */
  function IntegerPart(s: string): (ip: string)
    ensures |ip| <= |s| && ip == s[..|ip|]
    ensures AllDigits(ip)
    ensures |ip| < |s| ==> !IsDigit(s[|ip|])
  {
    if s == [] || !IsDigit(s[0]) then []
    else
      var rest := IntegerPart(s[1..]);
      AllDigitsCons(s[0], rest);
      [s[0]] + rest
  }

  /** What follows the integer part of an accepted value: nothing, or a '.'
      and a run of digits. */
  lemma {:induction false} AcceptedShape(s: string)
    requires AcceptsAmount(s)
    ensures var rest := s[|IntegerPart(s)|..];
      rest == [] || (rest[0] == '.' && AllDigits(rest[1..]))
  {
    if s != [] {
      if IsDigit(s[0]) {
        AcceptedShape(s[1..]);
        assert s[|IntegerPart(s)|..] == s[1..][|IntegerPart(s[1..])|..];
      } else {
        ScanFractionCorrect(s[1..]);
      }
    }
  }

  /** The digits after the decimal point of an accepted value (none when
      it has no point). */
  function FractionPart(s: string): (fp: string)
    requires AcceptsAmount(s)
    ensures AllDigits(fp)
    ensures IntegerPart(s) == [] && fp == [] <==> s == "" || s == "."
  {
    AcceptedShape(s);
    var ip := IntegerPart(s);
    var rest := s[|ip|..];
    assert s == ip + rest;
    if rest == [] then [] else rest[1..]
  }

  /** The decimal value of digits `ip`, a point, and digits `fp`. */
  function DecimalValue(ip: string, fp: string): (v: real)
    requires AllDigits(ip) && AllDigits(fp)
    ensures v >= 0.0
  {
    DigitsValue(ip) as real + DigitsValue(fp) as real / Pow10(|fp|) as real
  }

  /** `parseFloat` applied to an accepted value: no number when the value
      has no digit at all, otherwise its exact decimal value. */
  function ParseAmount(s: string): (r: Option<real>)
    requires AcceptsAmount(s)
    ensures r.None? <==> s == "" || s == "."
    ensures r.Some? ==> r.value >= 0.0
  {
    var ip := IntegerPart(s);
    var fp := FractionPart(s);
    if ip == [] && fp == [] then None else Some(DecimalValue(ip, fp))
  }

  /** `parseFloat(value) || 0`: an accepted value with no number reads as 0. */
  function AmountOrZero(s: string): (a: real)
    requires AcceptsAmount(s)
    ensures a >= 0.0
    ensures s == "" || s == "." ==> a == 0.0
    ensures ParseAmount(s).Some? ==> a == ParseAmount(s).value
  {
    match ParseAmount(s)
    case None => 0.0
    case Some(v) => v
  }

  // ---- Properties of the reading ----

  lemma {:induction false} IntegerPartOfDigits(d: string, rest: string)
    requires AllDigits(d)
    requires rest == [] || !IsDigit(rest[0])
    ensures IntegerPart(d + rest) == d
  {
    if d != [] {
      assert (d + rest)[1..] == d[1..] + rest;
      IntegerPartOfDigits(d[1..], rest);
    }
  }

  /** A run of digits is accepted and is read as a whole number. */
  lemma WholeNumber(d: string)
    requires AllDigits(d)
    ensures AcceptsAmount(d)
    ensures IntegerPart(d) == d && FractionPart(d) == []
  {
    AcceptsAmountCorrect(d);
    IntegerPartOfDigits(d, []);
    assert d + [] == d;
  }

  /** Digits, a point and digits are accepted and split at the point. */
  lemma SplitAtPoint(ip: string, fp: string)
    requires AllDigits(ip) && AllDigits(fp)
    ensures AcceptsAmount(ip + "." + fp)
    ensures IntegerPart(ip + "." + fp) == ip && FractionPart(ip + "." + fp) == fp
  {
    AcceptsPointed(ip, fp);
    IntegerPartAtPoint(ip, fp);
    FractionAfterPoint(ip + "." + fp, ip, fp);
  }

  lemma {:induction false} IntegerPartAtPoint(ip: string, fp: string)
    requires AllDigits(ip)
    ensures IntegerPart(ip + "." + fp) == ip
  {
    if ip != [] {
      assert (ip + "." + fp)[1..] == ip[1..] + "." + fp;
      IntegerPartAtPoint(ip[1..], fp);
    } else {
      assert ip + "." + fp == "." + fp;
    }
  }

  lemma AcceptsPointed(ip: string, fp: string)
    requires AllDigits(ip) && AllDigits(fp)
    ensures AcceptsAmount(ip + "." + fp)
  {
    var s := ip + "." + fp;
    assert s[..|ip|] == ip && s[|ip|] == '.' && s[|ip| + 1..] == fp;
    assert PointAt(s, |ip|);
    AcceptsAmountCorrect(s);
  }

  lemma FractionAfterPoint(s: string, ip: string, fp: string)
    requires AcceptsAmount(s) && IntegerPart(s) == ip && s == ip + "." + fp
    ensures FractionPart(s) == fp
  {
    assert s[|ip|..] == "." + fp;
    assert ("." + fp)[1..] == fp;
  }

  /** A value with a point and at least one digit reads as its exact
      decimal value. */
  lemma PointedValue(ip: string, fp: string)
    requires AllDigits(ip) && AllDigits(fp) && (ip != [] || fp != [])
    ensures AcceptsAmount(ip + "." + fp)
    ensures ParseAmount(ip + "." + fp) == Some(DecimalValue(ip, fp))
  {
    SplitAtPoint(ip, fp);
  }

  /** A trailing point does not change the value: "12." reads as 12. */
  lemma TrailingPoint(d: string)
    requires AllDigits(d) && d != []
    ensures AcceptsAmount(d + ".") && AcceptsAmount(d)
    ensures ParseAmount(d + ".") == ParseAmount(d) == Some(DigitsValue(d) as real)
  {
    WholeNumber(d);
    assert AllDigits("");
    PointedValue(d, "");
    assert d + "." + "" == d + ".";
    assert DecimalValue(d, []) == DigitsValue(d) as real;
  }

  lemma DigitsValueAppendZero(f: string)
    requires AllDigits(f)
    ensures AllDigits(f + "0")
    ensures DigitsValue(f + "0") == 10 * DigitsValue(f)
  {
    assert (f + "0")[..|f|] == f;
  }

  /** A zero appended to the fraction digits does not change the value. */
  lemma DecimalValueAppendZero(ip: string, fp: string)
    requires AllDigits(ip) && AllDigits(fp) && AllDigits(fp + "0")
    ensures DecimalValue(ip, fp + "0") == DecimalValue(ip, fp)
  {
    DigitsValueAppendZero(fp);
    var a, b := DigitsValue(fp) as real, Pow10(|fp|) as real;
    assert DigitsValue(fp + "0") as real == 10.0 * a;
    assert Pow10(|fp + "0"|) as real == 10.0 * b;
    CancelTen(a, b);
  }

  lemma CancelTen(a: real, b: real)
    requires b > 0.0
    ensures (10.0 * a) / (10.0 * b) == a / b
  {
    var q := a / b;
    assert a == q * b;
    assert 10.0 * a == q * (10.0 * b);
  }

  /** A trailing zero after the point does not change the value: "1.50"
      reads as "1.5". */
  lemma TrailingZero(ip: string, fp: string)
    requires AllDigits(ip) && AllDigits(fp)
    ensures AllDigits(fp + "0")
    ensures AcceptsAmount(ip + "." + fp) && AcceptsAmount(ip + "." + (fp + "0"))
    ensures ip + "." + fp != "." ==> ParseAmount(ip + "." + (fp + "0")) == ParseAmount(ip + "." + fp)
  {
    var fz := fp + "0";
    var s, t := ip + "." + fp, ip + "." + fz;
    DigitsValueAppendZero(fp);
    SplitAtPoint(ip, fp);
    SplitAtPoint(ip, fz);
    DecimalValueAppendZero(ip, fp);
    assert ParseAmount(t) == Some(DecimalValue(ip, fz));
    if s != "." {
      assert ip != [] || fp != [];
      assert ParseAmount(s) == Some(DecimalValue(ip, fp));
    }
  }

  /** The decimal digits of a whole number, as a text field displays it. */
  function NatDigits(n: nat): (d: string)
    ensures AllDigits(d) && d != []
  {
    if n < 10 then ["0123456789"[n]]
    else
      var d := NatDigits(n / 10) + ["0123456789"[n % 10]];
      assert d[..|d| - 1] == NatDigits(n / 10);
      d
  }

  lemma {:induction false} NatDigitsValue(n: nat)
    ensures DigitsValue(NatDigits(n)) == n
  {
    var d := NatDigits(n);
    if n >= 10 {
      NatDigitsValue(n / 10);
      assert d[..|d| - 1] == NatDigits(n / 10);
    }
  }

  /** A whole amount, written out in decimal and typed back, reads as itself. */
  lemma WholeAmountRoundTrip(n: nat)
    ensures AcceptsAmount(NatDigits(n))
    ensures ParseAmount(NatDigits(n)) == Some(n as real)
  {
    WholeNumber(NatDigits(n));
    NatDigitsValue(n);
  }

  /** Examples of how accepted values read. */
  lemma ParseAmountExamples()
    ensures AcceptsAmount("12.34") && ParseAmount("12.34") == Some(12.34)
    ensures AcceptsAmount(".5") && ParseAmount(".5") == Some(0.5)
    ensures AcceptsAmount("") && AmountOrZero("") == 0.0
    ensures AcceptsAmount(".") && AmountOrZero(".") == 0.0
  {
    DecimalExamples();
    assert "12.34" == "12" + "." + "34";
    assert ".5" == "" + "." + "5";
    PointedValue("12", "34");
    PointedValue("", "5");
    assert AcceptsAmount(".") by { assert "."[1..] == ""; }
  }

  lemma DecimalExamples()
    ensures AllDigits("12") && AllDigits("34") && AllDigits("5") && AllDigits("")
    ensures DecimalValue("12", "34") == 12.34 && DecimalValue("", "5") == 0.5
  {
    assert "12"[..1] == "1" && "34"[..1] == "3" && "1"[..0] == "" && "3"[..0] == "" && "5"[..0] == "";
    assert DigitsValue("1") == 1 && DigitsValue("3") == 3 && DigitsValue("5") == 5;
    assert DigitsValue("12") == 12 && DigitsValue("34") == 34;
    assert Pow10(2) == 100 && Pow10(1) == 10;
  }
}
