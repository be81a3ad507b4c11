/**
 Prices as text: the thousands grouping that prints them and the cleaning that reads them.

 The cleaner keeps digits and points and drops everything else; what is left is read as a decimal
 number, and as zero if it is none. A printed amount is a whole number with a comma before every
 third digit from the right.
 */
module PriceText {
  import opened Prelude
  import opened Decimal

  const RUPEE := '\U{20B9}'

  /** `{n:,}` */
  function Commas(n: nat): (s: string)
    ensures s != ""
  {
    if n < 1000 then Digits(n) else Commas(n / 1000) + [','] + Pad(n % 1000, 3)
  }

  predicate IsDigit(c: char) {
    '0' <= c <= '9'
  }

  /** `re.sub(r"[^\d.]", "", text.replace(",", ""))` */
  function Keep(text: string): string {
    if text == "" then ""
    else if IsDigit(text[0]) || text[0] == '.' then [text[0]] + Keep(text[1..])
    else Keep(text[1..])
  }

  function IntegerPart(s: string): string {
    if s == "" || s[0] == '.' then "" else [s[0]] + IntegerPart(s[1..])
  }

  /** `float` on a text of digits and points; None stands for ValueError. */
  function ParseFloat(s: string): Option<real> {
    IntegerPartBound(s);
    var whole := IntegerPart(s);
    var fraction := if |whole| < |s| then s[|whole| + 1..] else "";
    if whole + fraction == "" then None
    else
      match (ParseDigits(whole), ParseDigits(fraction))
      case (Some(a), Some(b)) => Some(a as real + b as real / PowerOfTenReal(|fraction|))
      case _ => None
  }

  function PowerOfTenReal(k: nat): (r: real)
    ensures r > 0.0
  {
    if k == 0 then 1.0 else 10.0 * PowerOfTenReal(k - 1)
  }

  lemma {:induction false} IntegerPartBound(s: string)
    ensures |IntegerPart(s)| <= |s|
  {
    if s != "" && s[0] != '.' {
      IntegerPartBound(s[1..]);
    }
  }

  function CleanPrice(text: string): real {
    match ParseFloat(Keep(text))
    case Some(price) => price
    case None => 0.0
  }

  // ----- Reading what was printed -----

  lemma {:induction false} KeepConcat(a: string, b: string)
    ensures Keep(a + b) == Keep(a) + Keep(b)
  {
    if a == "" {
      assert a + b == b;
    } else {
      assert (a + b)[1..] == a[1..] + b;
      KeepConcat(a[1..], b);
    }
  }

  ghost predicate AllDigits(s: string) {
    forall i :: 0 <= i < |s| ==> IsDigit(s[i])
  }

  lemma {:induction false} KeepOfDigits(s: string)
    requires AllDigits(s)
    ensures Keep(s) == s
  {
    if s != "" {
      KeepOfDigits(s[1..]);
    }
  }

  lemma {:induction false} PadDigits(n: nat, width: nat)
    ensures AllDigits(Pad(n, width))
  {
    if width > 0 {
      PadDigits(n / 10, width - 1);
    }
  }

  lemma {:induction false} DigitsDigits(n: nat)
    ensures AllDigits(Digits(n))
  {
    if n >= 10 {
      DigitsDigits(n / 10);
    }
  }

  lemma SplitLast(q: nat, t: nat, m: nat, width: nat)
    requires t >= 1 && width > 0 && Digits(t + m / 10) == Digits(q) + Pad(m / 10, width - 1)
    ensures Digits(10 * t + m) == Digits(q) + Pad(m, width)
  {
    LastDigit(t, m);
    assert Pad(m, width) == Pad(m / 10, width - 1) + [Digit(m % 10)];
  }

  /** A numeral is its leading digits followed by the rest at full width. */
  lemma {:induction false} SplitDigits(q: nat, m: nat, width: nat)
    requires q > 0 && m < PowerOfTen(width)
    ensures Digits(q * PowerOfTen(width) + m) == Digits(q) + Pad(m, width)
  {
    if width == 0 {
      assert q * PowerOfTen(0) + m == q;
    } else {
      var t := TenTimes(q, width);
      SplitDigits(q, m / 10, width - 1);
      SplitLast(q, t, m, width);
    }
  }

  /** q * 10^width is ten times a positive number. */
  lemma TenTimes(q: nat, width: nat) returns (t: nat)
    requires q > 0 && width > 0
    ensures t == q * PowerOfTen(width - 1) && t >= 1 && q * PowerOfTen(width) == 10 * t
  {
    PowerPositive(width - 1);
    var p := PowerOfTen(width - 1);
    t := q * p;
    assert q * (10 * p) == 10 * (q * p);
    assert q * p >= 1 * p;
  }

  lemma LastDigit(t: nat, m: nat)
    requires t >= 1
    ensures Digits(10 * t + m) == Digits(t + m / 10) + [Digit(m % 10)]
  {
    var n := 10 * t + m;
    assert n / 10 == t + m / 10 && n % 10 == m % 10;
  }

  lemma {:induction false} PowerPositive(k: nat)
    ensures PowerOfTen(k) >= 1
  {
    if k > 0 {
      PowerPositive(k - 1);
    }
  }

  /** Grouping in threes is only punctuation. */
  lemma SplitThousands(n: nat)
    requires n >= 1000
    ensures Digits(n) == Digits(n / 1000) + Pad(n % 1000, 3)
  {
    assert PowerOfTen(3) == 1000;
    SplitDigits(n / 1000, n % 1000, 3);
    assert n == n / 1000 * 1000 + n % 1000;
  }

  lemma {:induction false} KeepOfCommas(n: nat)
    ensures Keep(Commas(n)) == Digits(n)
  {
    DigitsDigits(n);
    if n < 1000 {
      KeepOfDigits(Digits(n));
    } else {
      KeepOfCommas(n / 1000);
      SplitThousands(n);
      PadDigits(n % 1000, 3);
      KeepOfDigits(Pad(n % 1000, 3));
      KeepConcat(Commas(n / 1000) + [','], Pad(n % 1000, 3));
      KeepConcat(Commas(n / 1000), [',']);
      assert Keep([',']) == "";
    }
  }

  lemma {:induction false} IntegerPartOf(s: string, t: string)
    requires AllDigits(s) && (t == "" || t[0] == '.')
    ensures IntegerPart(s + t) == s
  {
    if s == "" {
      assert s + t == t;
    } else {
      assert (s + t)[1..] == s[1..] + t;
      IntegerPartOf(s[1..], t);
    }
  }

  /** A text that keeps the digits of a number is read as that number. */
  lemma CleanOf(text: string, n: nat)
    requires Keep(text) == Digits(n)
    ensures CleanPrice(text) == n as real
  {
    DigitsDigits(n);
    ParseOfDigits(n);
    IntegerPartOf(Digits(n), "");
    assert Digits(n) + "" == Digits(n);
    assert ParseDigits("") == Some(0);
  }

  /** Cleaning a printed whole amount gives the amount back. */
  lemma CleanUndoesPrinting(n: nat)
    ensures CleanPrice([RUPEE] + Commas(n)) == n as real
  {
    var text := [RUPEE] + Commas(n);
    assert text[1..] == Commas(n);
    KeepOfCommas(n);
    CleanOf(text, n);
  }

  /** With two decimals, as in the listing "\U{20B9}1,299.00", the cents are read too. */
  lemma CleanReadsCents(n: nat, cents: nat)
    requires cents < 100
    ensures CleanPrice([RUPEE] + Commas(n) + ['.'] + Pad(cents, 2)) == n as real + cents as real / 100.0
  {
    KeepOfCents(n, cents);
    var kept := Digits(n) + (['.'] + Pad(cents, 2));
    DigitsDigits(n);
    IntegerPartOf(Digits(n), ['.'] + Pad(cents, 2));
    assert kept[|Digits(n)| + 1..] == Pad(cents, 2);
    ParseOfDigits(n);
    assert PowerOfTen(2) == 100;
    ParsePad(cents, 2);
    assert PowerOfTenReal(2) == 100.0;
  }

  lemma KeepOfCents(n: nat, cents: nat)
    ensures Keep([RUPEE] + Commas(n) + ['.'] + Pad(cents, 2)) == Digits(n) + (['.'] + Pad(cents, 2))
  {
    KeepOfCommas(n);
    PadDigits(cents, 2);
    KeepOfDigits(Pad(cents, 2));
    assert [RUPEE][1..] == "" && ['.'][1..] == "";
    KeepConcat([RUPEE], Commas(n));
    KeepConcat([RUPEE] + Commas(n), ['.']);
    KeepConcat([RUPEE] + Commas(n) + ['.'], Pad(cents, 2));
  }

  /** The commas stand before every third digit from the right, none of them first. */
  lemma {:induction false} CommasGroupThrees(n: nat)
    ensures Commas(n)[0] != ','
    ensures forall i :: 0 <= i < |Commas(n)| ==> (Commas(n)[i] == ',' <==> (|Commas(n)| - i) % 4 == 0)
  {
    if n < 1000 {
      DigitsDigits(n);
      AtMostThree(n);
    } else {
      CommasGroupThrees(n / 1000);
      PadDigits(n % 1000, 3);
      ThreeMore(Commas(n / 1000), Pad(n % 1000, 3));
    }
  }

  lemma AtMostThree(n: nat)
    requires n < 1000
    ensures |Digits(n)| <= 3
  {
    assert n >= 10 ==> Digits(n) == Digits(n / 10) + [Digit(n % 10)];
    assert n >= 100 ==> Digits(n / 10) == Digits(n / 10 / 10) + [Digit(n / 10 % 10)];
    assert n / 10 / 10 < 10;
  }

  lemma ThreeMore(front: string, three: string)
    requires |three| == 3 && AllDigits(three)
    requires forall i :: 0 <= i < |front| ==> (front[i] == ',' <==> (|front| - i) % 4 == 0)
    ensures var s := front + [','] + three;
            forall i :: 0 <= i < |s| ==> (s[i] == ',' <==> (|s| - i) % 4 == 0)
  {
    var s := front + [','] + three;
    forall i | 0 <= i < |s| ensures s[i] == ',' <==> (|s| - i) % 4 == 0 {
      if i < |front| {
        assert s[i] == front[i] && |s| - i == |front| - i + 4;
      } else if i > |front| {
        assert s[i] == three[i - |front| - 1];
      }
    }
  }

  /** A numeral starts with 0 only if it is 0. */
  lemma {:induction false} NoLeadingZero(n: nat)
    ensures Digits(n)[0] == '0' <==> n == 0
    ensures Digits(0) == "0"
  {
    if n >= 10 {
      NoLeadingZero(n / 10);
    }
  }

  /** Characters other than digits and points make no difference. */
  lemma CleanIgnores(before: string, c: char, after: string)
    requires !('0' <= c <= '9') && c != '.'
    ensures CleanPrice(before + [c] + after) == CleanPrice(before + after)
  {
    KeepConcat(before + [c], after);
    KeepConcat(before, [c]);
    KeepConcat(before, after);
    assert [c][1..] == "" && Keep([c]) == "";
    assert Keep(before) + "" == Keep(before);
  }

  /** Without a digit, and with a second point, the text is no number and counts as zero. */
  lemma UnreadableIsZero(text: string)
    requires (forall i :: 0 <= i < |text| ==> !('0' <= text[i] <= '9')) ||
             exists i, j :: 0 <= i < j < |text| && text[i] == '.' && text[j] == '.'
    ensures CleanPrice(text) == 0.0
  {
    if forall i :: 0 <= i < |text| ==> !('0' <= text[i] <= '9') {
      KeepsNoDigit(text);
      OnlyPoints(Keep(text));
    } else {
      var i, j :| 0 <= i < j < |text| && text[i] == '.' && text[j] == '.';
      var a, b, c := text[..i], text[i + 1..j], text[j + 1..];
      assert text == a + ['.'] + b + ['.'] + c;
      assert ['.'][1..] == "" && Keep(['.']) == ".";
      KeepConcat(a, ['.']);
      KeepConcat(a + ['.'], b);
      KeepConcat(a + ['.'] + b, ['.']);
      KeepConcat(a + ['.'] + b + ['.'], c);
      TwoPoints(Keep(a), Keep(b), Keep(c));
    }
  }

  lemma {:induction false} KeepsNoDigit(text: string)
    requires forall i :: 0 <= i < |text| ==> !('0' <= text[i] <= '9')
    ensures forall i :: 0 <= i < |Keep(text)| ==> Keep(text)[i] == '.'
  {
    if text != "" {
      KeepsNoDigit(text[1..]);
    }
  }

  lemma OnlyPoints(s: string)
    requires forall i :: 0 <= i < |s| ==> s[i] == '.'
    ensures ParseFloat(s).None?
  {
    if |s| >= 2 {
      assert s[1..][|s| - 2] == s[|s| - 1];
    }
  }

  lemma {:induction false} IntegerPartIsFront(s: string)
    ensures '.' !in IntegerPart(s) && IntegerPart(s) <= s
  {
    if s != "" && s[0] != '.' {
      IntegerPartIsFront(s[1..]);
      assert s == [s[0]] + s[1..];
    }
  }

  lemma {:induction false} ParsedAreDigits(s: string)
    requires '.' in s
    ensures ParseDigits(s).None?
  {
    var front, last := s[..|s| - 1], s[|s| - 1];
    assert s == front + [last];
    if last != '.' {
      ParsedAreDigits(front);
    }
  }

  lemma TwoPoints(a: string, b: string, c: string)
    ensures ParseFloat(a + ['.'] + b + ['.'] + c).None?
  {
    var s := a + ['.'] + b + ['.'] + c;
    var whole := IntegerPart(s);
    IntegerPartIsFront(s);
    assert s[|a|] == '.' && s[|a| + 1 + |b|] == '.';
    assert forall i :: 0 <= i < |whole| ==> whole[i] == s[i] != '.';
    var fraction := s[|whole| + 1..];
    assert fraction[|a| + |b| - |whole|] == '.';
    ParsedAreDigits(fraction);
  }
}
