/**
 * What `extract_sales_data` promises about the record it returns, proved
 * about `SalesDataOf`: every labelled field holds the value of the LAST line
 * of its kind, currency and the quantity's digit form never change, the
 * product name is the first longest unclaimed name-shaped line (or the first
 * unclaimed line, or ""), and derived prices read back as the exact value
 * rounded to cents.
 */
module ReceiptProperties {
  import opened Options
  import opened Text
  import opened Numbers
  import opened Receipt

  /** The index of the last line for which `value` yields something, or -1. */
  function LastIndex(lines: seq<string>, value: string -> Option<string>): (k: int)
    ensures -1 <= k < |lines|
    ensures k >= 0 ==> value(lines[k]).Some?
    ensures forall j :: k < j < |lines| ==> value(lines[j]).None?
  {
    if lines == [] then -1
    else if value(lines[|lines| - 1]).Some? then |lines| - 1
    else LastIndex(lines[..|lines| - 1], value)
  }

  /** The value the last yielding line gives; `absent` when no line yields one. */
  function LastOf(lines: seq<string>, value: string -> Option<string>, absent: string): string
  {
    var k := LastIndex(lines, value);
    if k < 0 then absent else value(lines[k]).value
  }

  /** Appending a line: it wins if it yields a value, otherwise nothing changes. */
  lemma LastOfAppend(lines: seq<string>, line: string, value: string -> Option<string>, absent: string)
    ensures LastOf(lines + [line], value, absent)
      == if value(line).Some? then value(line).value else LastOf(lines, value, absent)
  {
    assert (lines + [line])[..|lines|] == lines;
  }

  // What each rule writes into its field, per line.

  function TaxCodeValue(line: string): Option<string>
  {
    if Classify(line) == TaxCode then Some(Strip(RemoveAll(line, TAX_CODE_LABEL))) else None
  }

  function BarcodeValue(line: string): Option<string>
  {
    if Classify(line) == Barcode then Some(Strip(RemoveAll(line, BARCODE_LABEL))) else None
  }

  function DetailsValue(line: string): Option<string>
  {
    if Classify(line) == QuantityLine then Some(line) else None
  }

  /** The text before the first '*', stripped. */
  function UnitPriceValue(line: string): Option<string>
  {
    if Classify(line) == QuantityLine then Some(Strip(Split(line, '*')[0])) else None
  }

  /** The digits of the leftmost `\d+\s*шт` between the first and second '*'. */
  function QuantityValue(line: string): Option<string>
  {
    if Classify(line) == QuantityLine then
      StarSplits(line);
      QuantityIn(Split(line, '*')[1])
    else None
  }

  function BreakdownValue(line: string): Option<string>
  {
    if Classify(line) == TaxLine then Some(line) else None
  }

  /** The leading run of digits, points and commas, when there is one. */
  function TotalValue(line: string): Option<string>
  {
    if Classify(line) == TaxLine && LeadingNumber(line) != "" then Some(LeadingNumber(line)) else None
  }

  /** The record described field by field, independently of the loop. */
  function LastMatches(lines: seq<string>): SalesData
  {
    SalesData(
      productName := "",
      uktzed := LastOf(lines, TaxCodeValue, ""),
      barcode := LastOf(lines, BarcodeValue, ""),
      quantity := LastOf(lines, QuantityValue, "1"),
      unitPrice := LastOf(lines, UnitPriceValue, ""),
      totalPrice := LastOf(lines, TotalValue, ""),
      currency := CURRENCY,
      priceDetails := LastOf(lines, DetailsValue, ""),
      priceBreakdown := LastOf(lines, BreakdownValue, ""))
  }

  /** The source's `len(parts) >= 2` test always passes: a quantity line holds a '*'. */
  lemma QuantityLineSplits(line: string)
    requires Classify(line) == QuantityLine
    ensures |Split(line, '*')| >= 2
  {
    StarSplits(line);
  }

  /** One turn of the loop agrees with the field-by-field description. */
  lemma LastMatchesStep(lines: seq<string>, line: string)
    ensures LastMatches(lines + [line]) == ApplyLine(LastMatches(lines), line)
  {
    LastOfAppend(lines, line, TaxCodeValue, "");
    LastOfAppend(lines, line, BarcodeValue, "");
    LastOfAppend(lines, line, QuantityValue, "1");
    LastOfAppend(lines, line, UnitPriceValue, "");
    LastOfAppend(lines, line, TotalValue, "");
    LastOfAppend(lines, line, DetailsValue, "");
    LastOfAppend(lines, line, BreakdownValue, "");
    if Classify(line) == QuantityLine {
      QuantityLineSplits(line);
    }
  }

  /** Last match wins: the loop's record is, field by field, the value of the
      last line of that field's kind, with currency 'UAH' and no name. */
  lemma {:induction false} ScanIsLastMatches(lines: seq<string>)
    ensures Scan(lines) == LastMatches(lines)
  {
    if lines != [] {
      var prefix := lines[..|lines| - 1];
      ScanIsLastMatches(prefix);
      assert lines == prefix + [lines[|lines| - 1]];
      LastMatchesStep(prefix, lines[|lines| - 1]);
    }
  }

  /** The quantity is always a digit string: '1' or a regular-expression group. */
  lemma QuantityIsDigits(lines: seq<string>)
    ensures IsDigitString(LastOf(lines, QuantityValue, "1"))
  {
    var k := LastIndex(lines, QuantityValue);
    if k >= 0 {
      assert QuantityValue(lines[k]).Some?;
    }
  }

  /** The lines `identified_patterns` holds are exactly those some rule claims. */
  lemma ClaimedIsClassified(lines: seq<string>, line: string)
    requires line in lines
    ensures line in Claimed(lines) <==> Classify(line) != Unclaimed
  {
  }

  /** Every unclaimed, name-shaped line is a candidate. */
  lemma {:induction false} CandidatesComplete(lines: seq<string>, identified: set<string>, x: string)
    requires x in lines && x !in identified && IsNameShaped(x)
    ensures x in Candidates(lines, identified)
  {
    var prefix := lines[..|lines| - 1];
    assert lines == prefix + [lines[|lines| - 1]];
    if x != lines[|lines| - 1] {
      CandidatesComplete(prefix, identified, x);
    }
  }

  /** Lines that are already non-empty and stripped are kept as they are, in
      order. */
  lemma {:induction false} NonBlankKeepsLines(lines: seq<string>)
    requires AllLines(lines)
    ensures NonBlank(lines) == lines
  {
    if lines != [] {
      StripTrimmed(lines[0]);
      assert AllLines(lines[1..]) by {
        forall i | 0 <= i < |lines| - 1 ensures lines[1..][i] != [] && Trimmed(lines[1..][i]) {
          assert lines[1..][i] == lines[i + 1];
        }
      }
      NonBlankKeepsLines(lines[1..]);
      assert lines == [lines[0]] + lines[1..];
    }
  }

  /** The comprehension works piece by piece: the lines of two runs of pieces
      are the lines of the first run followed by those of the second. */
  lemma {:induction false} NonBlankAppend(a: seq<string>, b: seq<string>)
    ensures NonBlank(a + b) == NonBlank(a) + NonBlank(b)
    decreases |a|
  {
    if a == [] {
      assert a + b == b;
    } else {
      assert (a + b)[1..] == a[1..] + b;
      assert (a + b)[0] == a[0];
      NonBlankAppend(a[1..], b);
      var line, x, y := Strip(a[0]), NonBlank(a[1..]), NonBlank(b);
      assert NonBlank(a + b) == if line == [] then x + y else [line] + (x + y);
      assert NonBlank(a) == if line == [] then x else [line] + x;
      ConsAssoc([line], x, y);
    }
  }

  lemma ConsAssoc(u: seq<string>, x: seq<string>, y: seq<string>)
    ensures u + (x + y) == (u + x) + y
  {
  }

  /** One piece gives its stripped text, or nothing when it is blank. */
  lemma NonBlankOne(piece: string)
    ensures NonBlank([piece]) == if Strip(piece) == [] then [] else [Strip(piece)]
  {
    assert [piece][1..] == [];
  }

  /** Round trip with the text the page scraper builds: joining non-empty,
      stripped lines with newlines and parsing the result gives back the same
      lines in the same order. */
  lemma LinesOfJoin(lines: seq<string>)
    requires |lines| >= 1
    requires forall i :: 0 <= i < |lines| ==> lines[i] != [] && Trimmed(lines[i]) && '\n' !in lines[i]
    ensures Lines(Join(lines, '\n')) == lines
  {
    SplitJoin(lines, '\n');
    NonBlankKeepsLines(lines);
  }

  /** A line the product name may come from. */
  predicate IsCandidate(lines: seq<string>, line: string)
  {
    line in lines && Classify(line) == Unclaimed && IsNameShaped(line)
  }

  /** The candidate list holds exactly the candidates. */
  lemma CandidatesAreCandidates(lines: seq<string>, x: string)
    ensures x in Candidates(lines, Claimed(lines)) <==> IsCandidate(lines, x)
  {
    if x in lines {
      ClaimedIsClassified(lines, x);
      if IsCandidate(lines, x) {
        CandidatesComplete(lines, Claimed(lines), x);
      }
    }
  }

  /** The candidates of the first `m` lines are the first candidates of all
      the lines: the list keeps the lines' order. */
  lemma {:induction false} CandidatesPrefix(lines: seq<string>, identified: set<string>, m: nat)
    requires m <= |lines|
    ensures |Candidates(lines[..m], identified)| <= |Candidates(lines, identified)|
    ensures Candidates(lines[..m], identified)
      == Candidates(lines, identified)[..|Candidates(lines[..m], identified)|]
    decreases |lines|
  {
    if m == |lines| {
      assert lines[..m] == lines;
    } else {
      var n := |lines| - 1;
      CandidatesPrefix(lines[..n], identified, m);
      assert lines[..n][..m] == lines[..m];
      var q, tail := Candidates(lines[..n], identified), Candidates(lines, identified)[|Candidates(lines[..n], identified)|..];
      PrefixOfPrefix(Candidates(lines[..m], identified), q, tail);
    }
  }

  lemma PrefixOfPrefix(p: seq<string>, q: seq<string>, tail: seq<string>)
    requires |p| <= |q| && p == q[..|p|]
    ensures p == (q + tail)[..|p|]
  {
  }

  /** The candidates of the first `j + 1` lines end with line `j` when it is a
      candidate. */
  lemma CandidatesUpTo(lines: seq<string>, j: nat)
    requires j < |lines| && IsCandidate(lines, lines[j])
    ensures var p := Candidates(lines[..j + 1], Claimed(lines));
      p != [] && p[|p| - 1] == lines[j]
  {
    ClaimedIsClassified(lines, lines[j]);
    assert lines[..j + 1][..j] == lines[..j];
  }

  /** A candidate line as long as the name comes no earlier than the line the
      name is taken from: `max` keeps the first of the longest lines. */
  lemma NameComesFirst(lines: seq<string>, j: nat)
    requires j < |lines| && IsCandidate(lines, lines[j])
    requires Candidates(lines, Claimed(lines)) != []
    requires |lines[j]| == |PickName(lines, Claimed(lines))|
    ensures exists j' :: 0 <= j' <= j && lines[j'] == PickName(lines, Claimed(lines))
  {
    var id := Claimed(lines);
    var c := Candidates(lines, id);
    var p := Candidates(lines[..j + 1], id);
    CandidatesUpTo(lines, j);
    CandidatesPrefix(lines, id, j + 1);
    LongestInPrefix(lines, j, c, p);
  }

  /** When the list `c` starts with `p`, whose entries all come from the first
      `j + 1` lines and whose last entry is line `j`, a line as long as `max`'s
      choice puts that choice among those lines. */
  lemma LongestInPrefix(lines: seq<string>, j: nat, c: seq<string>, p: seq<string>)
    requires j < |lines| && 0 < |p| <= |c| && p == c[..|p|] && p[|p| - 1] == lines[j]
    requires forall x :: x in p ==> x in lines[..j + 1]
    requires |lines[j]| == |c[LongestIndex(c)]|
    ensures exists j' :: 0 <= j' <= j && lines[j'] == c[LongestIndex(c)]
  {
    var i := LongestIndex(c);
    assert c[|p| - 1] == lines[j];
    assert i < |p|;
    assert c[i] in p by {
      assert c[i] == p[i];
    }
    var j' :| 0 <= j' < j + 1 && lines[..j + 1][j'] == c[i];
  }

  /** With a candidate present, the name is a candidate no other is longer than,
      and it is the first of the longest in the candidate list, which is the
      first of the longest candidate lines. */
  lemma NameIsLongestCandidate(lines: seq<string>, x: string)
    requires IsCandidate(lines, x)
    ensures var name := PickName(lines, Claimed(lines));
      && IsCandidate(lines, name)
      && (forall l :: IsCandidate(lines, l) ==> |l| <= |name|)
      && (var c := Candidates(lines, Claimed(lines));
          exists i :: 0 <= i < |c| && c[i] == name && forall k :: 0 <= k < i ==> |c[k]| < |name|)
      && forall j :: 0 <= j < |lines| && IsCandidate(lines, lines[j]) && |lines[j]| == |name| ==>
           exists j' :: 0 <= j' <= j && lines[j'] == name
  {
    forall j | 0 <= j < |lines| && IsCandidate(lines, lines[j])
        && |lines[j]| == |PickName(lines, Claimed(lines))|
      ensures exists j' :: 0 <= j' <= j && lines[j'] == PickName(lines, Claimed(lines))
    {
      CandidatesAreCandidates(lines, x);
      NameComesFirst(lines, j);
    }
    NameIsLongestInList(lines, x);
  }

  lemma {:induction false} NameIsLongestInList(lines: seq<string>, x: string)
    requires IsCandidate(lines, x)
    ensures var name := PickName(lines, Claimed(lines));
      && IsCandidate(lines, name)
      && (forall l :: IsCandidate(lines, l) ==> |l| <= |name|)
      && var c := Candidates(lines, Claimed(lines));
        exists i :: 0 <= i < |c| && c[i] == name && forall k :: 0 <= k < i ==> |c[k]| < |name|
  {
    var c := Candidates(lines, Claimed(lines));
    CandidatesAreCandidates(lines, x);
    var i := LongestIndex(c);
    var name := c[i];
    assert PickName(lines, Claimed(lines)) == name;
    CandidatesAreCandidates(lines, name);
    forall l | IsCandidate(lines, l)
      ensures |l| <= |name|
    {
      CandidatesAreCandidates(lines, l);
      var m :| 0 <= m < |c| && c[m] == l;
    }
  }

  /** No unclaimed line is name-shaped: the candidate list is empty. */
  lemma {:induction false} NoCandidates(lines: seq<string>, identified: set<string>)
    requires forall l :: l in lines && l !in identified ==> !IsNameShaped(l)
    ensures Candidates(lines, identified) == []
  {
    if lines != [] {
      NoCandidates(lines[..|lines| - 1], identified);
    }
  }

  /** Without candidates, the name is the first unclaimed line, or "" when every
      line is claimed. */
  lemma NameFallback(lines: seq<string>)
    requires forall i :: 0 <= i < |lines| ==> lines[i] != []
    requires forall l :: l in lines && Classify(l) == Unclaimed ==> !IsNameShaped(l)
    ensures var name := PickName(lines, Claimed(lines));
      && (name == "" <==> forall i :: 0 <= i < |lines| ==> Classify(lines[i]) != Unclaimed)
      && (name != "" ==>
            exists i :: && 0 <= i < |lines| && lines[i] == name
                        && Classify(name) == Unclaimed
                        && (forall j :: 0 <= j < i ==> Classify(lines[j]) != Unclaimed))
  {
    var identified := Claimed(lines);
    var c := Candidates(lines, identified);
    forall l | l in lines && l !in identified
      ensures !IsNameShaped(l)
    {
      ClaimedIsClassified(lines, l);
    }
    NoCandidates(lines, identified);
    var i := FirstUnidentified(lines, identified);
    forall j | 0 <= j < i
      ensures Classify(lines[j]) != Unclaimed
    {
      ClaimedIsClassified(lines, lines[j]);
    }
    if i < |lines| {
      ClaimedIsClassified(lines, lines[i]);
    }
  }

  /** `extract_sales_data` on non-empty content: the record the loop builds,
      described field by field, named, then priced.  Currency is 'UAH', the
      quantity is a digit string `int()` accepts, and the fields no price
      derivation touches hold the last line of their kind. */
  lemma ExtractedRecord(content: string)
    requires content != ""
    ensures var d := SalesDataOf(content).value;
      var lines := Lines(content);
      && d == CalculateMissingPrices(LastMatches(lines).(productName := d.productName))
      && d.productName == PickName(lines, Claimed(lines))
      && d.currency == CURRENCY
      && IsDigitString(d.quantity)
      && ParseInt(d.quantity) == Some(DigitsValue(d.quantity) as int)
      && d.uktzed == LastOf(lines, TaxCodeValue, "")
      && d.barcode == LastOf(lines, BarcodeValue, "")
      && d.priceDetails == LastOf(lines, DetailsValue, "")
      && d.priceBreakdown == LastOf(lines, BreakdownValue, "")
  {
    var lines := Lines(content);
    ScanIsLastMatches(lines);
    QuantityIsDigits(lines);
    DigitStringParsesAsInt(LastOf(lines, QuantityValue, "1"));
  }

  /** Every extracted quantity is a digit string, so both `float(quantity)`
      calls of `_calculate_missing_prices` succeed and read its value. */
  lemma ExtractedQuantityParses(content: string)
    requires content != ""
    ensures var q := SalesDataOf(content).value.quantity;
      IsDigitString(q) && ParseFloat(q) == Some(Decimal(false, DigitsValue(q), 0))
  {
    ExtractedRecord(content);
    DigitStringParsesAsFloat(SalesDataOf(content).value.quantity);
  }

  /** On an extracted record that needs a total, the total is filled exactly
      when `float()` accepts the unit price, and then with the derived product. */
  lemma ExtractedTotalPrice(content: string)
    requires content != ""
    ensures var d := SalesDataOf(content).value;
      var before := LastMatches(Lines(content)).(productName := d.productName);
      NeedsTotalPrice(before) ==>
        && (d.totalPrice != "" <==> ParseFloat(CommaToPoint(before.unitPrice)).Some?)
        && (d.totalPrice != "" ==> DerivedTotalPrice(before) == Some(d.totalPrice))
  {
    ExtractedQuantityParses(content);
    ExtractedRecord(content);
  }

  /** On an extracted record that needs a unit price, the price is filled
      exactly when `float()` accepts the total and the quantity, whose value
      `ExtractedQuantityParses` gives, is not zero; and then with the derived
      quotient. */
  lemma ExtractedUnitPrice(content: string)
    requires content != ""
    ensures var d := SalesDataOf(content).value;
      var before := LastMatches(Lines(content)).(productName := d.productName);
      NeedsUnitPrice(before) ==>
        && (d.unitPrice != "" <==>
              ParseFloat(CommaToPoint(before.totalPrice)).Some?
              && ParseFloat(d.quantity).Some? && ParseFloat(d.quantity).value.units != 0)
        && (d.unitPrice != "" ==> DerivedUnitPrice(before) == Some(d.unitPrice))
  {
    ExtractedQuantityParses(content);
    ExtractedRecord(content);
  }

  /** `cents` is the integer nearest to n / d. */
  predicate NearestCents(cents: int, n: int, d: int)
  {
    2 * (n - cents * d) <= d && 2 * (cents * d - n) <= d
  }

  /** When the unit price and the quantity both parse, a total price is derived,
      and it reads back as their exact product rounded to the nearest cent,
      with the product's sign. */
  lemma DerivedTotalPriceValue(d: SalesData, u: Decimal, q: Decimal)
    requires ParseFloat(CommaToPoint(d.unitPrice)) == Some(u) && ParseFloat(d.quantity) == Some(q)
    ensures DerivedTotalPrice(d).Some?
    ensures var p := ParseFloat(DerivedTotalPrice(d).value);
      && p.Some? && p.value.scale == 2 && p.value.negative == (u.negative != q.negative)
      && NearestCents(p.value.units, 100 * u.units * q.units, Pow10(u.scale + q.scale))
  {
    var (negative, cents) := Product(u, q);
    assert DerivedTotalPrice(d) == Some(FormatFixed2(negative, cents));
    FormatFixed2Parses(negative, cents);
    ProductIsNearest(u, q);
  }

  /** `Product` keeps the sign rule and rounds to the nearest cent. */
  lemma ProductIsNearest(a: Decimal, b: Decimal)
    ensures Product(a, b).0 == (a.negative != b.negative)
    ensures NearestCents(Product(a, b).1, 100 * a.units * b.units, Pow10(a.scale + b.scale))
  {
    var n, d := 100 * a.units * b.units, Pow10(a.scale + b.scale);
    var cents := RoundHalfEven(n, d);
    assert 2 * (n - cents * d) <= d && 2 * (cents * d - n) <= d;
  }

  /** When the total price and the quantity both parse, a unit price is derived
      exactly when the quantity is not zero, and it reads back as their exact
      quotient rounded to the nearest cent, with the quotient's sign. */
  lemma DerivedUnitPriceValue(d: SalesData, t: Decimal, q: Decimal)
    requires ParseFloat(CommaToPoint(d.totalPrice)) == Some(t) && ParseFloat(d.quantity) == Some(q)
    ensures DerivedUnitPrice(d).Some? <==> q.units != 0
    ensures DerivedUnitPrice(d).Some? ==>
      var p := ParseFloat(DerivedUnitPrice(d).value);
      && p.Some? && p.value.scale == 2 && p.value.negative == (t.negative != q.negative)
      && NearestCents(p.value.units, 100 * t.units * Pow10(q.scale), q.units * Pow10(t.scale))
  {
    if q.units != 0 {
      var (negative, cents) := Quotient(t, q).value;
      assert DerivedUnitPrice(d) == Some(FormatFixed2(negative, cents));
      FormatFixed2Parses(negative, cents);
      QuotientIsNearest(t, q);
    } else {
      assert Quotient(t, q) == None;
    }
  }

  /** `Quotient` keeps the sign rule and rounds to the nearest cent. */
  lemma QuotientIsNearest(a: Decimal, b: Decimal)
    requires b.units != 0
    ensures Quotient(a, b).value.0 == (a.negative != b.negative)
    ensures NearestCents(Quotient(a, b).value.1, 100 * a.units * Pow10(b.scale), b.units * Pow10(a.scale))
  {
    var n, d := 100 * a.units * Pow10(b.scale), b.units * Pow10(a.scale);
    var cents := RoundHalfEven(n, d);
    assert 2 * (n - cents * d) <= d && 2 * (cents * d - n) <= d;
  }
}
