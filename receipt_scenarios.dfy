/**
 * Concrete receipt positions worked through `extract_sales_data`: a tax-code
 * line, a lone number, and a quantity line whose total is derived.
 */
module ReceiptScenarios {
  import opened Options
  import opened Text
  import opened Numbers
  import opened Receipt

  /** Content without a newline and without surrounding white space is one line. */
  lemma SingleLine(s: string)
    requires s != [] && Trimmed(s) && '\n' !in s
    ensures Lines(s) == [s]
  {
    SplitNoSeparator(s, '\n');
    StripTrimmed(s);
    assert NonBlank([s]) == [s] + NonBlank([]);
  }

  /** A line that is neither a tax-code, barcode, quantity nor tax line leaves
      the record untouched and is left for the name. */
  lemma OneUnclaimedLine(s: string)
    requires s != [] && Trimmed(s) && '\n' !in s
    requires Classify(s) == Unclaimed && !IsNameShaped(s)
    ensures SalesDataOf(s) == Some(INITIAL.(productName := s))
  {
    SingleLine(s);
    UnclaimedScan(s);
    UnclaimedName(s);
    var d := INITIAL.(productName := s);
    assert !NeedsUnitPrice(d) && !NeedsTotalPrice(d);
  }

  lemma UnclaimedScan(s: string)
    requires Classify(s) == Unclaimed
    ensures Scan([s]) == INITIAL && Claimed([s]) == {}
  {
    assert Scan([s]) == ApplyLine(Scan([]), s);
  }

  lemma UnclaimedName(s: string)
    requires !IsNameShaped(s)
    ensures PickName([s], {}) == s
  {
    assert [s][..0] == [];
    assert Candidates([s], {}) == Candidates([], {}) + [];
  }

  /** A receipt position that is only the number "42" is kept, with "42" as its
      product name and every other field at its initial value. */
  lemma LoneNumberIsKept()
    ensures SalesDataOf("42") == Some(INITIAL.(productName := "42"))
  {
    var s := "42";
    assert !IsSpace(s[0]) && !IsSpace(s[1]);
    assert !Contains(s, TAX_CODE_LABEL) && !Contains(s, BARCODE_LABEL);
    assert !Contains(s, "*") && !Contains(s, TAX_MARKER);
    assert IsDigitString(s);
    OneUnclaimedLine(s);
  }

  /** "УКТЗЕД 1234567890" yields the tax code "1234567890". */
  lemma TaxCodeLine()
    ensures SalesDataOf("УКТЗЕД 1234567890").value.uktzed == "1234567890"
  {
    var s := "УКТЗЕД 1234567890";
    assert Trimmed(s) && '\n' !in s by {
      assert !IsSpace(s[0]) && !IsSpace(s[|s| - 1]);
    }
    SingleLine(s);
    TaxCodeLineValue(s);
    assert Scan([s]) == ApplyLine(Scan([]), s);
  }

  lemma TaxCodeLineValue(s: string)
    requires s == "УКТЗЕД 1234567890"
    ensures Classify(s) == TaxCode
    ensures Strip(RemoveAll(s, TAX_CODE_LABEL)) == "1234567890"
  {
    var code := "1234567890";
    var rest := " " + code;
    assert s == TAX_CODE_LABEL + rest;
    assert TAX_CODE_LABEL[0] !in rest;
    LeadingLabelRemoved(TAX_CODE_LABEL, rest);
    StripCode(code);
  }

  /** A label at the start of a line, followed by text without its first letter,
      is found, and removing it leaves that text. */
  lemma LeadingLabelRemoved(pat: string, rest: string)
    requires pat != [] && pat[0] !in rest
    ensures Contains(pat + rest, pat)
    ensures RemoveAll(pat + rest, pat) == rest
  {
    var s := pat + rest;
    assert s[..|pat|] == pat;
    assert s[|pat|..] == rest;
    LabelAbsent(rest, pat);
    RemoveAllAbsent(rest, pat);
  }

  lemma StripCode(code: string)
    requires code == "1234567890"
    ensures Strip(" " + code) == code
  {
    assert AllSpace(" ") && AllSpace([]);
    assert !IsSpace(code[0]) && !IsSpace(code[|code| - 1]);
    StripPadded(" ", code, []);
    assert " " + code + [] == " " + code;
  }

  /** A label whose first letter does not occur in `s` does not occur in `s`. */
  lemma {:induction false} LabelAbsent(s: string, pat: string)
    requires pat != [] && pat[0] !in s
    ensures !Contains(s, pat)
  {
    if s != [] {
      assert !StartsWith(s, pat) by {
        if |pat| <= |s| {
          assert s[..|pat|][0] == s[0];
        }
      }
      LabelAbsent(s[1..], pat);
    }
  }

  /** "50.00 * 2 шт" alone: unit price "50.00", quantity "2", and the total
      price derived as "100.00". */
  lemma QuantityLineDerivesTotal()
    ensures var d := SalesDataOf("50.00 * 2 шт").value;
      d.unitPrice == "50.00" && d.quantity == "2" && d.totalPrice == "100.00"
  {
    var line := "50.00 * 2 шт";
    var e := QuantityScenarioRecord(line);
    QuantityScenarioTotal(e);
    assert e.unitPrice != "" && e.totalPrice == "";
    assert NeedsTotalPrice(e) && !NeedsUnitPrice(e);
  }

  /** The record before prices are derived. */
  lemma QuantityScenarioRecord(line: string) returns (e: SalesData)
    requires line == "50.00 * 2 шт"
    ensures SalesDataOf(line) == Some(CalculateMissingPrices(e))
    ensures e.unitPrice == "50.00" && e.quantity == "2" && e.totalPrice == ""
  {
    QuantityScenarioLine(line);
    QuantityScenarioFields(line);
    var lines := [line];
    assert Scan(lines) == ApplyLine(Scan([]), line);
    e := Scan(lines).(productName := PickName(lines, Claimed(lines)));
  }

  lemma QuantityScenarioLine(line: string)
    requires line == "50.00 * 2 шт"
    ensures Lines(line) == [line]
    ensures Classify(line) == QuantityLine
  {
    assert Trimmed(line) && '\n' !in line by {
      assert !IsSpace(line[0]) && !IsSpace(line[|line| - 1]);
    }
    SingleLine(line);
    QuantityScenarioUnlabelled(line);
    QuantityScenarioMarks(line);
  }

  lemma QuantityScenarioMarks(line: string)
    requires line == "50.00 * 2 шт"
    ensures Contains(line, "*") && HasDigit(line) && Contains(line, PIECES)
  {
    assert line[6..7] == "*";
    ContainsAt(line, "*", 6);
    assert IsDigit(line[0]);
    assert line[10..12] == PIECES;
    ContainsAt(line, PIECES, 10);
  }

  lemma QuantityScenarioUnlabelled(line: string)
    requires line == "50.00 * 2 шт"
    ensures !Contains(line, TAX_CODE_LABEL) && !Contains(line, BARCODE_LABEL)
  {
    assert TAX_CODE_LABEL[0] !in line;
    assert BARCODE_LABEL[0] !in line;
    LabelAbsent(line, TAX_CODE_LABEL);
    LabelAbsent(line, BARCODE_LABEL);
  }

  lemma QuantityScenarioFields(line: string)
    requires line == "50.00 * 2 шт"
    ensures Split(line, '*') == ["50.00 ", " 2 шт"]
    ensures Strip("50.00 ") == "50.00"
    ensures QuantityIn(" 2 шт") == Some("2")
  {
    QuantityScenarioSplit(line);
    StripFifty();
    PiecesInScenario(" 2 шт");
  }

  lemma QuantityScenarioSplit(line: string)
    requires line == "50.00 * 2 шт"
    ensures Split(line, '*') == ["50.00 ", " 2 шт"]
  {
    var a, b := "50.00 ", " 2 шт";
    assert line == a + ['*'] + b;
    assert '*' !in a && '*' !in b;
    SplitInTwo(a, b, '*');
  }

  lemma StripFifty()
    ensures Strip("50.00 ") == "50.00"
  {
    var v := "50.00";
    assert !IsSpace(v[0]) && !IsSpace(v[4]) && AllSpace(" ");
    StripPadded([], v, " ");
    assert [] + v + " " == "50.00 ";
  }

  lemma PiecesInScenario(b: string)
    requires b == " 2 шт"
    ensures QuantityIn(b) == Some("2")
  {
    RunEndUnique(b, 0, IsDigit, 0);
    assert MatchAt(b, 0) == None;
    RunEndUnique(b, 1, IsDigit, 2);
    RunEndUnique(b, 2, IsSpace, 3);
    assert b[3..] == PIECES;
    assert MatchAt(b, 1) == Some(b[1..2]);
    assert SearchFrom(b, 1) == Some(b[1..2]);
    assert b[1..2] == "2";
    assert SearchFrom(b, 0) == SearchFrom(b, 1);
  }

  lemma QuantityScenarioTotal(d: SalesData)
    requires d.unitPrice == "50.00" && d.quantity == "2"
    ensures DerivedTotalPrice(d) == Some("100.00")
  {
    NoCommaInFifty();
    FiftyParses();
    TwoParses();
    ScenarioProduct();
    HundredFormats();
  }

  lemma NoCommaInFifty()
    ensures CommaToPoint("50.00") == "50.00"
  {
  }

  lemma ScenarioProduct()
    ensures Product(Decimal(false, 5000, 2), Decimal(false, 2, 0)) == (false, 10000)
  {
    assert Pow10(2) == 100;
    assert RoundHalfEven(1000000, 100) == 10000;
  }

  lemma FiftyParses()
    ensures ParseFloat("50.00") == Some(Decimal(false, 5000, 2))
  {
    FiftyFormats();
    FormatFixed2Parses(false, 5000);
  }

  lemma FiftyFormats()
    ensures FormatFixed2(false, 5000) == "50.00"
  {
    assert NatToString(5) == "5";
    assert NatToString(50) == NatToString(5) + [DigitChar(0)];
  }

  lemma HundredFormats()
    ensures FormatFixed2(false, 10000) == "100.00"
  {
    assert NatToString(1) == "1";
    assert NatToString(10) == NatToString(1) + [DigitChar(0)];
    assert NatToString(100) == NatToString(10) + [DigitChar(0)];
  }

  lemma TwoParses()
    ensures ParseFloat("2") == Some(Decimal(false, 2, 0))
  {
    assert IsDigitString("2") by {
      assert IsDigit("2"[0]);
    }
    DigitStringParsesAsFloat("2");
    TwoValue();
  }

  lemma TwoValue()
    ensures DigitsValue("2") == 2
  {
    assert "2"[..0] == [];
  }
}
