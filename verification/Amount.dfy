/** Reading prices: German and plain amounts, against what they denote. */
module Amount {
  import opened Model
  import opened Text

  function DigitValue(c: char): nat
    requires IsDigit(c)
  {
    (c as int) - ('0' as int)
  }

  /** The number a digit string denotes. */
  function IntValue(s: string): nat
    requires AllDigits(s)
  {
    if s == [] then 0 else 10 * IntValue(s[..|s| - 1]) + DigitValue(s[|s| - 1])
  }

  /** The fraction that digits after a point denote. */
  function FracValue(s: string): real
    requires AllDigits(s)
  {
    if s == [] then 0.0 else (DigitValue(s[0]) as real + FracValue(s[1..])) / 10.0
  }

  /** A plain decimal: digits, at most one point, at least one digit. */
  function ParseDecimal(s: string): Option<real> {
    var i := Find(s, ".", 0);
    var whole := if i < 0 then s else s[..i];
    var frac := if i < 0 then "" else s[i + 1..];
    if AllDigits(whole) && AllDigits(frac) && |whole| + |frac| > 0
    then Some(IntValue(whole) as real + FracValue(frac))
    else None
  }

  /** German notation turned into plain: with both signs the dots group, a lone comma is the point. */
  function Plain(raw: string): string {
    if '.' in raw && ',' in raw then Swap(Remove(raw, '.'), ',', '.')
    else if ',' in raw then Swap(raw, ',', '.')
    else raw
  }

  function Positive(f: Option<real>): Option<real> {
    if f.None? || f.value <= 0.0 then None else f
  }

  function ParseAmount(raw: string): Option<real> {
    if raw == "" then None else Positive(ParseDecimal(Plain(raw)))
  }

  // ----- the forms prices are written in

  /** Digit groups, each behind a separating dot. */
  function Dotted(groups: seq<string>): string {
    if groups == [] then "" else "." + groups[0] + Dotted(groups[1..])
  }

  function Flat(groups: seq<string>): string {
    if groups == [] then "" else groups[0] + Flat(groups[1..])
  }

  /** A word of the German price grammar: one to three digits, groups of three, two decimals. */
  predicate GermanParts(head: string, groups: seq<string>, cents: string) {
    && 1 <= |head| <= 3 && AllDigits(head)
    && (forall i :: 0 <= i < |groups| ==> |groups[i]| == 3 && AllDigits(groups[i]))
    && |cents| == 2 && AllDigits(cents)
  }

  function GermanWord(head: string, groups: seq<string>, cents: string): string {
    head + Dotted(groups) + "," + cents
  }

  // ----- digits and values

  lemma {:induction false} FlatDigits(groups: seq<string>)
    requires forall i :: 0 <= i < |groups| ==> AllDigits(groups[i])
    ensures AllDigits(Flat(groups))
  {
    if groups == [] {
    } else {
      FlatDigits(groups[1..]);
    }
  }

  lemma DigitsKeep(d: string, rest: string)
    requires AllDigits(d)
    ensures Remove(d + rest, '.') == d + Remove(rest, '.')
  {
    RemoveConcat(d, rest, '.');
    RemoveAbsent(d, '.');
  }

  lemma DotGoes(rest: string)
    ensures Remove("." + rest, '.') == Remove(rest, '.')
  {
    assert ("." + rest)[1..] == rest;
  }

  lemma {:induction false} DottedWithoutDots(groups: seq<string>)
    requires forall i :: 0 <= i < |groups| ==> AllDigits(groups[i])
    ensures Remove(Dotted(groups), '.') == Flat(groups)
  {
    if groups == [] {
    } else {
      var g, rest := groups[0], Dotted(groups[1..]);
      DottedWithoutDots(groups[1..]);
      assert Dotted(groups) == "." + (g + rest);
      DotGoes(g + rest);
      DigitsKeep(g, rest);
    }
  }

  lemma {:induction false} DottedSigns(groups: seq<string>)
    requires forall i :: 0 <= i < |groups| ==> AllDigits(groups[i])
    ensures ',' !in Dotted(groups)
    ensures '.' in Dotted(groups) <==> groups != []
  {
    if groups == [] {
    } else {
      DottedSigns(groups[1..]);
      assert Dotted(groups)[0] == '.';
      assert ',' !in groups[0];
    }
  }

  lemma IntValueSnoc(s: string, c: char)
    requires AllDigits(s) && IsDigit(c)
    ensures AllDigits(s + [c]) && IntValue(s + [c]) == 10 * IntValue(s) + DigitValue(c)
  {
    assert (s + [c])[..|s|] == s;
  }

  lemma IntValueOfTwo(b: string)
    requires AllDigits(b) && |b| == 2
    ensures IntValue(b) == 10 * DigitValue(b[0]) + DigitValue(b[1])
  {
    IntValueSnoc([], b[0]);
    IntValueSnoc([b[0]], b[1]);
    assert [] + [b[0]] == [b[0]] && [b[0]] + [b[1]] == b;
  }

  lemma IntValueConcat(a: string, b: string)
    requires AllDigits(a) && AllDigits(b) && |b| == 2
    ensures AllDigits(a + b) && IntValue(a + b) == 100 * IntValue(a) + IntValue(b)
  {
    IntValueSnoc(a, b[0]);
    IntValueSnoc(a + [b[0]], b[1]);
    IntValueOfTwo(b);
    assert a + [b[0]] + [b[1]] == a + b;
  }

  lemma CentsValue(b: string)
    requires AllDigits(b) && |b| == 2
    ensures FracValue(b) == IntValue(b) as real / 100.0
  {
    IntValueOfTwo(b);
    assert FracValue(b[1..][1..]) == 0.0;
    assert FracValue(b[1..]) == DigitValue(b[1]) as real / 10.0;
  }

  /** Digits, a point, two digits. */
  lemma PointForm(d: string, b: string)
    requires AllDigits(d) && d != [] && AllDigits(b) && |b| == 2
    ensures AllDigits(d + b)
    ensures ParseDecimal(d + "." + b) == Some(IntValue(d + b) as real / 100.0)
  {
    var s := d + "." + b;
    FindAfter(d, '.', b);
    assert s[..|d|] == d && s[|d| + 1..] == b;
    IntValueConcat(d, b);
    CentsValue(b);
  }

  /** Taking the dots out of a German word. */
  lemma GermanWithoutDots(head: string, groups: seq<string>, cents: string)
    requires AllDigits(head) && AllDigits(cents)
    requires forall i :: 0 <= i < |groups| ==> AllDigits(groups[i])
    ensures Remove(GermanWord(head, groups, cents), '.') == head + Flat(groups) + "," + cents
  {
    var dotted, tail := Dotted(groups), "," + cents;
    DottedThenTail(groups, cents);
    DigitsKeep(head, dotted + tail);
    Regroup(head, dotted, tail);
    Regroup(head, Flat(groups), tail);
    Regroup(head + dotted, ",", cents);
    Regroup(head + Flat(groups), ",", cents);
  }

  lemma DottedThenTail(groups: seq<string>, cents: string)
    requires AllDigits(cents)
    requires forall i :: 0 <= i < |groups| ==> AllDigits(groups[i])
    ensures Remove(Dotted(groups) + ("," + cents), '.') == Flat(groups) + ("," + cents)
  {
    RemoveConcat(Dotted(groups), "," + cents, '.');
    DottedWithoutDots(groups);
    RemoveAbsent("," + cents, '.');
  }

  lemma CommaToPoint(d: string, b: string)
    requires AllDigits(d) && AllDigits(b)
    ensures Swap(d + "," + b, ',', '.') == d + "." + b
  {
    var r := Swap(d + "," + b, ',', '.');
    forall i | 0 <= i < |r| ensures r[i] == (d + "." + b)[i] {
      if i < |d| {
        assert (d + "," + b)[i] == d[i];
      } else if i > |d| {
        assert (d + "," + b)[i] == b[i - |d| - 1];
      }
    }
  }

  lemma GermanSigns(head: string, groups: seq<string>, cents: string)
    requires AllDigits(head) && AllDigits(cents)
    requires forall i :: 0 <= i < |groups| ==> AllDigits(groups[i])
    ensures ',' in GermanWord(head, groups, cents)
    ensures '.' in GermanWord(head, groups, cents) <==> groups != []
  {
    DottedSigns(groups);
    assert GermanWord(head, groups, cents)[|head + Dotted(groups)|] == ',';
    assert '.' !in head && '.' !in cents;
  }

  lemma GermanIsPlain(head: string, groups: seq<string>, cents: string)
    requires AllDigits(head) && AllDigits(cents)
    requires forall i :: 0 <= i < |groups| ==> AllDigits(groups[i])
    ensures Plain(GermanWord(head, groups, cents)) == head + Flat(groups) + "." + cents
  {
    FlatDigits(groups);
    GermanSigns(head, groups, cents);
    GermanWithoutDots(head, groups, cents);
    CommaToPoint(head + Flat(groups), cents);
    if groups == [] {
      RemoveAbsent(GermanWord(head, groups, cents), '.');
    }
  }

  /** The price n cents denote; zero is no price. */
  function Cents(n: nat): Option<real> {
    if n == 0 then None else Some(n as real / 100.0)
  }

  lemma PlainPoint(raw: string, d: string, b: string)
    requires raw != "" && Plain(raw) == d + "." + b
    requires AllDigits(d) && d != [] && AllDigits(b) && |b| == 2
    ensures AllDigits(d + b) && ParseAmount(raw) == Cents(IntValue(d + b))
  {
    PointForm(d, b);
  }

  /**
   Every word of the German grammar parses to the cents its digits denote, and
   to nothing exactly when that is zero.
   */
  lemma GermanWordParses(head: string, groups: seq<string>, cents: string)
    requires GermanParts(head, groups, cents)
    ensures AllDigits(head + Flat(groups) + cents)
    ensures ParseAmount(GermanWord(head, groups, cents)) == Cents(IntValue(head + Flat(groups) + cents))
  {
    FlatDigits(groups);
    GermanIsPlain(head, groups, cents);
    PlainPoint(GermanWord(head, groups, cents), head + Flat(groups), cents);
  }

  /** Characters that prices are written with. */
  predicate PriceChar(c: char) { IsDigit(c) || c == '.' || c == ',' }

  lemma {:induction false} RemoveKeeps(s: string, c: char, x: char)
    ensures x != c ==> (x in s <==> x in Remove(s, c))
  {
    if s == [] {
    } else {
      RemoveKeeps(s[1..], c, x);
      assert s == [s[0]] + s[1..];
    }
  }

  /** Apart from the two signs, the plain form has the characters of the raw one. */
  lemma PlainKeeps(raw: string, x: char)
    requires x != '.' && x != ','
    ensures x in raw ==> x in Plain(raw)
  {
    RemoveKeeps(raw, '.', x);
    var dotless := Remove(raw, '.');
    if x in raw {
      var i :| 0 <= i < |raw| && raw[i] == x;
      assert Swap(raw, ',', '.')[i] == x;
      var j :| 0 <= j < |dotless| && dotless[j] == x;
      assert Swap(dotless, ',', '.')[j] == x;
    }
  }

  lemma PointRead(whole: string, frac: string, s: string)
    requires AllDigits(whole) && AllDigits(frac) && s == whole + "." + frac
    requires Find(s, ".", 0) == |whole|
    ensures ParseDecimal(s) ==
            if whole == "" && frac == "" then None else Some(IntValue(whole) as real + FracValue(frac))
  {
    assert s[..|whole|] == whole && s[|whole| + 1..] == frac;
  }

  lemma WholeRead(whole: string)
    requires AllDigits(whole) && Find(whole, ".", 0) == -1
    ensures ParseDecimal(whole) == if whole == "" then None else Some(IntValue(whole) as real)
  {
  }

  /** Which strings are decimals, and what they denote. */
  lemma DecimalsRead(whole: string, frac: string)
    requires AllDigits(whole) && AllDigits(frac)
    ensures ParseDecimal(whole) == if whole == "" then None else Some(IntValue(whole) as real)
    ensures ParseDecimal(whole + "." + frac) ==
            if whole == "" && frac == "" then None else Some(IntValue(whole) as real + FracValue(frac))
  {
    FindAbsent(whole, '.');
    FindAfter(whole, '.', frac);
    WholeRead(whole);
    PointRead(whole, frac, whole + "." + frac);
  }

  lemma OnlyDecimalsParse(s: string)
    ensures ParseDecimal(s).Some? ==>
              AllDigits(s) || exists i :: 0 <= i < |s| && s[i] == '.' && AllDigits(s[..i]) && AllDigits(s[i + 1..])
  {
    FindExact(s, ".", 0);
    var i := Find(s, ".", 0);
    if i >= 0 {
      AtChar(s, '.', i);
    }
  }

  /** Anything but digits and the two signs is no price, and a price is positive. */
  lemma OnlyPricesParse(raw: string)
    ensures ParseAmount(raw).Some? ==> ParseAmount(raw).value > 0.0 && forall i :: 0 <= i < |raw| ==> PriceChar(raw[i])
  {
    if ParseAmount(raw).Some? {
      var s := Plain(raw);
      OnlyDecimalsParse(s);
      forall i | 0 <= i < |raw| ensures PriceChar(raw[i]) {
        if raw[i] != '.' && raw[i] != ',' {
          PlainKeeps(raw, raw[i]);
          var j :| 0 <= j < |s| && s[j] == raw[i];
          PartIsDigit(s, j);
        }
      }
    }
  }

  lemma PartIsDigit(s: string, j: nat)
    requires j < |s| && s[j] != '.' && ParseDecimal(s).Some?
    ensures IsDigit(s[j])
  {
    OnlyDecimalsParse(s);
    if !AllDigits(s) {
      var i :| 0 <= i < |s| && s[i] == '.' && AllDigits(s[..i]) && AllDigits(s[i + 1..]);
      if j < i {
        assert s[..i][j] == s[j];
      } else {
        assert s[i + 1..][j - i - 1] == s[j];
      }
    }
  }

  // ----- printing

  function Digit(n: nat): char
    requires n < 10
  {
    ('0' as int + n) as char
  }

  function Digits(n: nat): (s: string)
    ensures AllDigits(s) && s != [] && IntValue(s) == n
  {
    if n < 10 then [Digit(n)]
    else
      var front := Digits(n / 10);
      assert (front + [Digit(n % 10)])[..|front|] == front;
      front + [Digit(n % 10)]
  }

  function TwoDigits(n: nat): (s: string)
    requires n < 100
    ensures AllDigits(s) && |s| == 2 && IntValue(s) == n
  {
    var s := [Digit(n / 10), Digit(n % 10)];
    IntValueOfTwo(s);
    s
  }

  /** Cuts a digit string into groups of three from the right. */
  function Cut(d: string): (r: (string, seq<string>))
    requires AllDigits(d) && d != []
    ensures 1 <= |r.0| <= 3 && AllDigits(r.0)
    ensures forall i :: 0 <= i < |r.1| ==> |r.1[i]| == 3 && AllDigits(r.1[i])
    ensures r.0 + Flat(r.1) == d
    ensures r.1 == [] <==> |d| <= 3
  {
    if |d| <= 3 then (d, [])
    else
      var (head, groups) := Cut(d[..|d| - 3]);
      FlatSnoc(groups, d[|d| - 3..]);
      assert head + (Flat(groups) + d[|d| - 3..]) == (head + Flat(groups)) + d[|d| - 3..] == d;
      (head, groups + [d[|d| - 3..]])
  }

  lemma {:induction false} FlatSnoc(groups: seq<string>, g: string)
    ensures Flat(groups + [g]) == Flat(groups) + g
  {
    if groups == [] {
      assert groups + [g] == [g] && [g][1..] == [];
    } else {
      assert (groups + [g])[1..] == groups[1..] + [g];
      FlatSnoc(groups[1..], g);
      assert groups[0] + (Flat(groups[1..]) + g) == (groups[0] + Flat(groups[1..])) + g;
    }
  }

  /** 294999 cents as 2.949,99. */
  function PrintGerman(n: nat): string {
    var (head, groups) := Cut(Digits(n / 100));
    GermanWord(head, groups, TwoDigits(n % 100))
  }

  /** 294999 cents as 2949,99. */
  function PrintComma(n: nat): string {
    Digits(n / 100) + "," + TwoDigits(n % 100)
  }

  /** 294999 cents as 2949.99. */
  function PrintPoint(n: nat): string {
    Digits(n / 100) + "." + TwoDigits(n % 100)
  }

  lemma PrintedValue(n: nat)
    ensures IntValue(Digits(n / 100) + TwoDigits(n % 100)) == n
  {
    IntValueConcat(Digits(n / 100), TwoDigits(n % 100));
  }

  lemma GermanReadBack(n: nat)
    ensures ParseAmount(PrintGerman(n)) == Cents(n)
  {
    var (head, groups) := Cut(Digits(n / 100));
    PrintedValue(n);
    GermanWordParses(head, groups, TwoDigits(n % 100));
  }

  lemma CommaReadBack(n: nat)
    ensures ParseAmount(PrintComma(n)) == Cents(n)
  {
    var d, b := Digits(n / 100), TwoDigits(n % 100);
    PrintedValue(n);
    assert PrintComma(n)[|d|] == ',';
    assert '.' !in d && '.' !in b;
    CommaToPoint(d, b);
    PlainPoint(PrintComma(n), d, b);
  }

  lemma PointReadBack(n: nat)
    ensures ParseAmount(PrintPoint(n)) == Cents(n)
  {
    var d, b := Digits(n / 100), TwoDigits(n % 100);
    PrintedValue(n);
    assert ',' !in d && ',' !in b;
    PlainPoint(PrintPoint(n), d, b);
  }

  /** Every amount of cents is read back exactly from all three forms, and zero as no price. */
  lemma AmountRoundTrip(n: nat)
    ensures ParseAmount(PrintGerman(n)) == Cents(n)
    ensures ParseAmount(PrintComma(n)) == Cents(n)
    ensures ParseAmount(PrintPoint(n)) == Cents(n)
  {
    GermanReadBack(n);
    CommaReadBack(n);
    PointReadBack(n);
  }

  // ----- where the reading goes wrong

  /** Whole euros with grouping dots and no decimals. */
  function PrintWholeGrouped(n: nat): string {
    var (head, groups) := Cut(Digits(n));
    head + Dotted(groups)
  }

  lemma {:induction false} FracBelowOne(s: string)
    requires AllDigits(s)
    ensures 0.0 <= FracValue(s) < 1.0
  {
    if s == [] {
    } else {
      FracBelowOne(s[1..]);
    }
  }

  lemma {:induction false} DigitsBound(s: string)
    requires AllDigits(s)
    ensures |s| == 0 ==> IntValue(s) == 0
    ensures |s| <= 1 ==> IntValue(s) < 10
    ensures |s| <= 2 ==> IntValue(s) < 100
    ensures |s| <= 3 ==> IntValue(s) < 1000
  {
    if s == [] {
    } else {
      DigitsBound(s[..|s| - 1]);
    }
  }

  lemma {:induction false} DigitsLength(n: nat)
    ensures n < 10 ==> |Digits(n)| <= 1
    ensures n < 100 ==> |Digits(n)| <= 2
    ensures n < 1000 ==> |Digits(n)| <= 3
  {
    if n < 10 {
    } else {
      DigitsLength(n / 10);
    }
  }

  lemma ManyDigits(n: nat)
    ensures n >= 1000 <==> |Digits(n)| > 3
  {
    DigitsBound(Digits(n));
    DigitsLength(n);
  }

  /**
   A grouped amount without decimals is read right exactly below a thousand:
   from there on the first dot is taken for the decimal point.
   */
  lemma WholeGroupedReadRight(n: nat)
    requires n > 0
    ensures ParseAmount(PrintWholeGrouped(n)) == Some(n as real) <==> n < 1000
  {
    var d := Digits(n);
    var (head, groups) := Cut(d);
    var raw := PrintWholeGrouped(n);
    ManyDigits(n);
    DottedSigns(groups);
    assert ',' !in head && '.' !in head;
    if groups == [] {
      assert raw == d;
      FindAbsent(d, '.');
    } else {
      GroupedIsSmall(n, head, groups);
    }
  }

  /** Up to three digits before the point. */
  lemma PointedIsSmall(head: string, tail: string)
    requires AllDigits(head) && 1 <= |head| <= 3
    ensures ParseDecimal(head + "." + tail).Some? ==> ParseDecimal(head + "." + tail).value < 1000.0
  {
    var raw := head + "." + tail;
    FindAfter(head, '.', tail);
    assert raw[..|head|] == head && raw[|head| + 1..] == tail;
    DigitsBound(head);
    if AllDigits(tail) {
      FracBelowOne(tail);
    }
  }

  lemma GroupedIsSmall(n: nat, head: string, groups: seq<string>)
    requires n >= 1000 && groups != []
    requires AllDigits(head) && 1 <= |head| <= 3
    requires ',' !in head + Dotted(groups)
    ensures ParseAmount(head + Dotted(groups)) != Some(n as real)
  {
    var raw, tail := head + Dotted(groups), groups[0] + Dotted(groups[1..]);
    assert raw == head + "." + tail;
    PointedIsSmall(head, tail);
    assert Plain(raw) == raw;
  }
}
