/** Amounts printed with lakh/crore grouping, and the reader that gets them back. */
module IndianFormat {

  import opened Decimals

  // ---- grouping ----

  function Join(parts: seq<string>): string {
    if parts == [] then "" else if |parts| == 1 then parts[0] else parts[0] + "," + Join(parts[1..])
  }

  /** Commas before every second digit from the right. */
  function Pairs(head: string): string {
    if |head| <= 2 then head else Pairs(head[..|head| - 2]) + "," + head[|head| - 2..]
  }

  function Grouped(digits: string): string {
    if |digits| <= 3 then digits else Pairs(digits[..|digits| - 3]) + "," + digits[|digits| - 3..]
  }

  lemma Associates(a: string, b: string, c: string)
    ensures a + b + c == a + (b + c)
  {
  }

  lemma PairsStep(head: string, rest: string)
    requires |head| > 2
    ensures Pairs(head) + rest == Pairs(head[..|head| - 2]) + ("," + head[|head| - 2..] + rest)
  {
    var front, back := Pairs(head[..|head| - 2]), head[|head| - 2..];
    assert Pairs(head) == front + "," + back;
    Associates(front, ",", back);
    Associates(front, "," + back, rest);
  }

  /** The parts with a comma before each. */
  function After(parts: seq<string>): string {
    if parts == [] then "" else "," + Join(parts)
  }

  lemma JoinStep(part: string, parts: seq<string>)
    ensures After([part] + parts) == "," + part + After(parts) && Join([part] + parts) == part + After(parts)
  {
    assert ([part] + parts)[1..] == parts;
    Associates(",", part, After(parts));
    if parts != [] { Associates(part, ",", Join(parts)); }
  }

  method GroupDigits(digits: string) returns (grouped: string)
    ensures grouped == Grouped(digits)
  {
    hide Join, After;
    if |digits| <= 3 {
      return digits;
    }
    var head, tail := digits[..|digits| - 3], digits[|digits| - 3..];
    var parts := [];
    NoParts();
    while |head| > 2
      invariant head != []
      invariant Pairs(digits[..|digits| - 3]) == Pairs(head) + After(parts)
    {
      PairsStep(head, After(parts));
      JoinStep(head[|head| - 2..], parts);
      parts := [head[|head| - 2..]] + parts;
      head := head[..|head| - 2];
    }
    if head != [] {
      JoinStep(head, parts);
      parts := [head] + parts;
    }
    grouped := Join(parts) + "," + tail;
  }

  lemma NoParts()
    ensures After([]) == ""
  {
  }

  // ---- amounts ----

  /** Rounding to a whole number, halves to the even neighbour. */
  function RoundHalfEven(x: real): (r: int)
    ensures -0.5 <= x - r as real <= 0.5
    ensures x - r as real == 0.5 || x - r as real == -0.5 ==> r % 2 == 0
  {
    var below := x.Floor;
    var rest := x - below as real;
    if rest < 0.5 then below
    else if rest > 0.5 then below + 1
    else if below % 2 == 0 then below else below + 1
  }

  function Abs(d: real): real {
    if d < 0.0 then -d else d
  }

  function Whole(d: real): nat {
    Abs(d).Floor
  }

  function Fraction(d: real): real {
    Abs(d) - Whole(d) as real
  }

  /** The fraction in hundredths; 100 when it rounds up to a whole. */
  function Paise(d: real): (p: nat)
    ensures p <= 100
  {
    assert 0.0 <= Fraction(d) * 100.0 < 100.0;
    RoundHalfEven(Fraction(d) * 100.0)
  }

  function StripZeros(s: string): string {
    if s != [] && s[|s| - 1] == '0' then StripZeros(s[..|s| - 1]) else s
  }

  /** The two digits after the point of the rounded fraction, without trailing zeros: a fraction that
      rounds up to 1 leaves nothing here, and nothing is carried to the whole part. */
  function FractionText(d: real): string {
    StripZeros(PadTwo(Paise(d) % 100))
  }

  function Sign(d: real): string {
    if d < 0.0 then "-" else ""
  }

  function GroupIndian(d: real): string {
    Sign(d) + Grouped(Digits(Whole(d))) + if FractionText(d) == "" then "" else "." + FractionText(d)
  }

  method GroupIndianText(d: real) returns (text: string)
    ensures text == GroupIndian(d)
  {
    var grouped := GroupDigits(Digits(Whole(d)));
    if Fraction(d) != 0.0 {
      var fraction := StripZeros(PadTwo(Paise(d) % 100));
      if fraction != "" { grouped := grouped + "." + fraction; }
    } else {
      NoFraction(d);
    }
    text := Sign(d) + grouped;
  }

  lemma NoFraction(d: real)
    requires Fraction(d) == 0.0
    ensures FractionText(d) == ""
  {
    assert Paise(d) == 0;
    assert PadTwo(0) == "00";
    assert StripZeros("00") == "" by {
      assert "00"[..1] == "0" && "0"[..0] == "";
    }
  }

  /** Without `paise` the sign follows the rupee sign; with it the sign comes first and two digits are shown. */
  function Rupees(d: real, paise: bool): string {
    if paise then Sign(d) + "\U{20B9}" + Grouped(Digits(Whole(d))) + "." + PadTwo(Paise(d))
    else "\U{20B9}" + GroupIndian(d)
  }

  // ---- reading back ----

  function Without(s: string, c: char): string {
    if s == [] then [] else if s[0] == c then Without(s[1..], c) else [s[0]] + Without(s[1..], c)
  }

  function Split(s: string, c: char): (parts: seq<string>)
    ensures parts != []
  {
    if s == [] then [[]]
    else if s[0] == c then [[]] + Split(s[1..], c)
    else [[s[0]] + Split(s[1..], c)[0]] + Split(s[1..], c)[1..]
  }

  /** A plain reader: sign, separators removed, digits, and digits after a point. */
  function Parse(text: string): real {
    if text != [] && text[0] == '-' then -ParseUnsigned(text[1..]) else ParseUnsigned(text)
  }

  function ParseUnsigned(text: string): real {
    var parts := Split(Without(text, ','), '.');
    var whole := if AllDigits(parts[0]) then ParseNat(parts[0]) as real else 0.0;
    if |parts| == 1 then whole
    else whole + if AllDigits(parts[1]) && |parts[1]| <= 3 then ParseNat(parts[1]) as real / Scale(|parts[1]|) else 0.0
  }

  function Scale(n: nat): (r: real)
    requires n <= 3
    ensures r > 0.0
  {
    if n == 0 then 1.0 else if n == 1 then 10.0 else if n == 2 then 100.0 else 1000.0
  }

  lemma {:induction false} WithoutJoins(a: string, b: string, c: char)
    ensures Without(a + b, c) == Without(a, c) + Without(b, c)
  {
    if a == [] { assert a + b == b; }
    else {
      assert (a + b)[1..] == a[1..] + b;
      WithoutJoins(a[1..], b, c);
    }
  }

  lemma {:induction false} WithoutNone(s: string, c: char)
    requires c !in s
    ensures Without(s, c) == s
  {
    if s != [] { WithoutNone(s[1..], c); }
  }

  lemma {:induction false} PairsUngroup(head: string)
    requires ',' !in head
    ensures Without(Pairs(head), ',') == head
  {
    if |head| <= 2 {
      WithoutNone(head, ',');
    } else {
      var front, back := head[..|head| - 2], head[|head| - 2..];
      PairsUngroup(front);
      WithoutNone(back, ',');
      WithoutJoins(Pairs(front) + ",", back, ',');
      WithoutJoins(Pairs(front), ",", ',');
      CommaGone();
    }
  }

  lemma CommaGone()
    ensures Without(",", ',') == ""
  {
    assert ","[1..] == "";
  }

  /** Taking the separators out of a grouped number gives its digits back. */
  lemma Ungrouped(digits: string)
    requires ',' !in digits
    ensures Without(Grouped(digits), ',') == digits
  {
    if |digits| <= 3 {
      WithoutNone(digits, ',');
    } else {
      var head, tail := digits[..|digits| - 3], digits[|digits| - 3..];
      PairsUngroup(head);
      WithoutNone(tail, ',');
      WithoutJoins(Pairs(head) + ",", tail, ',');
      WithoutJoins(Pairs(head), ",", ',');
      CommaGone();
    }
  }

  // ---- the shape of the groups ----

  lemma {:induction false} SplitJoins(a: string, b: string, c: char)
    ensures Split(a + [c] + b, c) == Split(a, c) + Split(b, c)
  {
    if a == [] { assert a + [c] + b == [c] + b; }
    else {
      assert (a + [c] + b)[1..] == a[1..] + [c] + b;
      SplitJoins(a[1..], b, c);
    }
  }

  lemma {:induction false} SplitNone(s: string, c: char)
    requires c !in s
    ensures Split(s, c) == [s]
  {
    if s != [] {
      SplitNone(s[1..], c);
      assert [s[0]] + s[1..] == s;
    }
  }

  predicate PairGroups(groups: seq<string>) {
    groups != [] && 1 <= |groups[0]| <= 2 && forall i :: 1 <= i < |groups| ==> |groups[i]| == 2
  }

  lemma {:induction false} PairsShape(head: string)
    requires head != [] && ',' !in head
    ensures PairGroups(Split(Pairs(head), ','))
  {
    if |head| <= 2 {
      SplitNone(head, ',');
    } else {
      var front, back := head[..|head| - 2], head[|head| - 2..];
      PairsShape(front);
      SplitNone(back, ',');
      SplitJoins(Pairs(front), back, ',');
    }
  }

  /** The groups of a whole number: one of up to three digits, or a last one of three, earlier ones of
      two and a first one of one or two. */
  lemma GroupsShape(n: nat)
    ensures var groups, digits := Split(Grouped(Digits(n)), ','), Digits(n);
            if |digits| <= 3 then groups == [digits]
            else |groups| >= 2 && |groups[|groups| - 1]| == 3 && PairGroups(groups[..|groups| - 1])
  {
    var digits := Digits(n);
    NoSeparators(digits);
    if |digits| <= 3 {
      SplitNone(digits, ',');
    } else {
      var head, tail := digits[..|digits| - 3], digits[|digits| - 3..];
      PairsShape(head);
      SplitNone(tail, ',');
      SplitJoins(Pairs(head), tail, ',');
      assert Split(Grouped(digits), ',')[..|Split(Pairs(head), ',')|] == Split(Pairs(head), ',');
    }
  }

  lemma NoSeparators(digits: string)
    requires AllDigits(digits)
    ensures ',' !in digits && '.' !in digits && '-' !in digits
  {
  }

  // ---- round trips ----

  /** The printed fraction has at most two digits and reads as p hundredths. */
  lemma FractionValue(p: nat)
    requires p < 100
    ensures var f := StripZeros(PadTwo(p));
            && AllDigits(f) && |f| <= 2 && (f == "" <==> p == 0)
            && ParseNat(f) as real / Scale(|f|) == p as real / 100.0
  {
    PadTwoRoundTrip(p);
    var t, tens := PadTwo(p), [Digit(p / 10)];
    assert t[..1] == tens && tens[..0] == [];
    if p % 10 == 0 {
      assert StripZeros(t) == StripZeros(tens);
      if p == 0 { assert StripZeros(tens) == StripZeros([]) == []; }
    }
  }

  /** What the printed text reads as: the whole part and the rounded paise, without a carry. */
  function Shown(d: real): real {
    var size := Whole(d) as real + (Paise(d) % 100) as real / 100.0;
    if d < 0.0 then -size else size
  }

  lemma UnsignedReads(n: nat, f: string)
    requires AllDigits(f) && |f| <= 2
    ensures ParseUnsigned(Grouped(Digits(n)) + if f == "" then "" else "." + f)
            == n as real + ParseNat(f) as real / Scale(|f|)
  {
    hide Digits, Grouped;
    var digits, text := Digits(n), if f == "" then "" else "." + f;
    NoSeparators(digits);
    NoSeparators(f);
    Ungrouped(digits);
    WithoutJoins(Grouped(digits), text, ',');
    DigitsRoundTrip(n);
    SplitNone(digits, '.');
    WithoutNone(text, ',');
    if f == "" {
      assert digits + text == digits;
    } else {
      SplitNone(f, '.');
      SplitJoins(digits, f, '.');
      assert digits + text == digits + ['.'] + f;
    }
  }

  lemma GroupedStarts(digits: string)
    requires digits != []
    ensures Grouped(digits) != [] && Grouped(digits)[0] == digits[0]
  {
    if |digits| > 3 { PairsStarts(digits[..|digits| - 3]); }
  }

  lemma {:induction false} PairsStarts(head: string)
    requires head != []
    ensures Pairs(head) != [] && Pairs(head)[0] == head[0]
  {
    if |head| > 2 { PairsStarts(head[..|head| - 2]); }
  }

  /** Reading a printed amount gives its whole part and rounded paise back. */
  lemma PrintedReads(d: real)
    ensures Parse(GroupIndian(d)) == Shown(d)
  {
    hide Digits, Grouped, StripZeros, PadTwo, Paise, ParseUnsigned;
    var n, f := Whole(d), FractionText(d);
    FractionValue(Paise(d) % 100);
    UnsignedReads(n, f);
    NoSeparators(Digits(n));
    GroupedStarts(Digits(n));
    var body := Grouped(Digits(n)) + if f == "" then "" else "." + f;
    assert body[0] != '-';
    if d < 0.0 {
      assert GroupIndian(d) == "-" + body;
      assert GroupIndian(d)[1..] == body;
    } else {
      assert GroupIndian(d) == body;
    }
  }

  /** At most two decimals. */
  predicate TwoDecimals(d: real) {
    (Fraction(d) * 100.0).Floor as real == Fraction(d) * 100.0
  }

  /** Printing and reading gives the amount back exactly when it has at most two decimals, and is off
      by at most half a paisa exactly when its fraction is below .995: from there on the carry is lost. */
  lemma RoundTripExact(d: real)
    ensures Parse(GroupIndian(d)) == d <==> TwoDecimals(d)
    ensures Abs(Parse(GroupIndian(d)) - d) <= 0.005 <==> Fraction(d) < 0.995
  {
    hide GroupIndian, Parse;
    PrintedReads(d);
  }

  /** So no two amounts with at most two decimals are printed alike. */
  lemma PrintingIsInjective(d: real, e: real)
    requires TwoDecimals(d) && TwoDecimals(e) && GroupIndian(d) == GroupIndian(e)
    ensures d == e
  {
    hide GroupIndian, Parse;
    RoundTripExact(d);
    RoundTripExact(e);
  }

  /** Without paise, as the tools print amounts, the rupee sign comes first, then the sign and the grouped
      amount with up to two decimals and no zero at their end; reading it gives the amount back exactly
      when it has at most two decimals. */
  lemma RupeesPlain(d: real)
    ensures var text := Rupees(d, false);
            && text != "" && text[0] == '\U{20B9}'
            && (d < 0.0 <==> |text| > 1 && text[1] == '-')
            && (Parse(text[1..]) == d <==> TwoDecimals(d))
            && (Abs(Parse(text[1..]) - d) <= 0.005 <==> Fraction(d) < 0.995)
    ensures FractionText(d) == "" || (|FractionText(d)| <= 2 && FractionText(d)[|FractionText(d)| - 1] != '0')
  {
    hide Parse, Digits, Grouped, Paise, PadTwo;
    RoundTripExact(d);
    assert Rupees(d, false)[1..] == GroupIndian(d);
    NoSeparators(Digits(Whole(d)));
    GroupedStarts(Digits(Whole(d)));
    FractionValue(Paise(d) % 100);
    NoZeroEnd(PadTwo(Paise(d) % 100));
  }

  lemma {:induction false} NoZeroEnd(s: string)
    ensures StripZeros(s) == "" || StripZeros(s)[|StripZeros(s)| - 1] != '0'
    ensures |StripZeros(s)| <= |s| && s[..|StripZeros(s)|] == StripZeros(s)
    ensures forall k :: |StripZeros(s)| <= k < |s| ==> s[k] == '0'
  {
    if s != [] && s[|s| - 1] == '0' { NoZeroEnd(s[..|s| - 1]); }
  }

  /** With paise, two digits follow the point exactly when the fraction is below .995; then the text
      reads, after its sign and rupee sign, as the amount rounded to the paisa. */
  lemma RupeesWithPaise(d: real)
    ensures |PadTwo(Paise(d))| == 2 <==> Fraction(d) < 0.995
    ensures Fraction(d) < 0.995 ==>
              var body := Grouped(Digits(Whole(d))) + "." + PadTwo(Paise(d));
              && Rupees(d, true) == (if d < 0.0 then "-" else "") + "\U{20B9}" + body
              && ParseUnsigned(body) == Whole(d) as real + Paise(d) as real / 100.0
  {
    hide Grouped, Digits, ParseUnsigned, PadTwo;
    assert Paise(d) < 100 <==> Fraction(d) < 0.995;
    if Paise(d) < 100 {
      var t := PadTwo(Paise(d));
      PadTwoRoundTrip(Paise(d));
      UnsignedReads(Whole(d), t);
      assert Grouped(Digits(Whole(d))) + "." + t == Grouped(Digits(Whole(d))) + ("." + t);
      assert Rupees(d, true) == Sign(d) + "\U{20B9}" + (Grouped(Digits(Whole(d))) + "." + t);
    } else {
      HundredHasThree(Paise(d));
    }
  }

  lemma HundredHasThree(p: nat)
    requires p == 100
    ensures |PadTwo(p)| == 3
  {
    assert |Digits(p / 10)| == 2 by { assert |Digits(p / 10 / 10)| == 1; }
  }

  /** An amount whose carry is lost: 1.995 is printed as 1. */
  lemma CarryLost(d: real)
    requires d == 1.995
    ensures GroupIndian(d) == "1"
  {
    hide StripZeros, PadTwo;
    var one := Whole(d);
    assert one == 1 && Paise(d) == 100;
    FractionValue(Paise(d) % 100);
    assert Digits(one) == "1";
  }
}
