/**
 * `extract_sales_data` and `_calculate_missing_prices` of app.py: the text of
 * one receipt position becomes one record of nine string fields.
 *
 * The line classifier, the per-line update and the name choice are functions;
 * `ExtractSalesData` is the source's loop over the lines and is proved equal
 * to `SalesDataOf`, the function the rest of the model and the lemmas use.
 */
module Receipt {
  import opened Options
  import opened Text
  import opened Numbers

  const TAX_CODE_LABEL := "УКТЗЕД"
  const BARCODE_LABEL := "Штрих-код"
  const PIECES := "шт"
  const TAX_MARKER := "(Б)"
  const CURRENCY := "UAH"

  /** The dictionary `extract_sales_data` fills: its nine keys are
      product_name, uktzed, barcode, quantity, unit_price, total_price,
      currency, price_details and price_breakdown. */
  datatype SalesData = SalesData(
    productName: string,
    uktzed: string,
    barcode: string,
    quantity: string,
    unitPrice: string,
    totalPrice: string,
    currency: string,
    priceDetails: string,
    priceBreakdown: string)

  /** The record every non-empty content starts from. */
  const INITIAL := SalesData("", "", "", "1", "", "", CURRENCY, "", "")

  /** The line rules in priority order; `Unclaimed` is a line no rule takes. */
  datatype Rule = TaxCode | Barcode | QuantityLine | TaxLine | Unclaimed

  function Rank(r: Rule): nat
  {
    match r
    case TaxCode => 0
    case Barcode => 1
    case QuantityLine => 2
    case TaxLine => 3
    case Unclaimed => 4
  }

  /** Each rule's own test, regardless of the others. */
  predicate Matches(r: Rule, line: string)
  {
    match r
    case TaxCode => Contains(line, TAX_CODE_LABEL)
    case Barcode => Contains(line, BARCODE_LABEL)
    case QuantityLine => Contains(line, "*") && HasDigit(line) && Contains(line, PIECES)
    case TaxLine => Contains(line, TAX_MARKER) && HasDigit(line)
    case Unclaimed => true
  }

  /** The `if`/`elif` chain: the first rule, in priority order, whose test the
      line passes. */
  function Classify(line: string): (r: Rule)
    ensures Matches(r, line)
    ensures forall q: Rule :: Rank(q) < Rank(r) ==> !Matches(q, line)
  {
    if Matches(TaxCode, line) then TaxCode
    else if Matches(Barcode, line) then Barcode
    else if Matches(QuantityLine, line) then QuantityLine
    else if Matches(TaxLine, line) then TaxLine
    else Unclaimed
  }

  /** `[line.strip() for line in content.split('\n') if line.strip()]` */
  function Lines(content: string): (lines: seq<string>)
    ensures forall i :: 0 <= i < |lines| ==> lines[i] != [] && Trimmed(lines[i])
  {
    NonBlank(Split(content, '\n'))
  }

  function NonBlank(pieces: seq<string>): (lines: seq<string>)
    ensures |lines| <= |pieces|
    ensures AllLines(lines)
  {
    if pieces == [] then []
    else
      var rest := NonBlank(pieces[1..]);
      var line := Strip(pieces[0]);
      if line == [] then rest
      else
        ConsLine(line, rest);
        [line] + rest
  }

  /** Every line is non-empty and stripped. */
  predicate AllLines(lines: seq<string>)
  {
    forall i :: 0 <= i < |lines| ==> lines[i] != [] && Trimmed(lines[i])
  }

  lemma ConsLine(line: string, rest: seq<string>)
    requires line != [] && Trimmed(line) && AllLines(rest)
    ensures AllLines([line] + rest)
  {
    var lines := [line] + rest;
    forall i | 0 < i < |lines| ensures lines[i] != [] && Trimmed(lines[i]) {
      assert lines[i] == rest[i - 1];
    }
  }

  /** A character of `[\d\.,]`. */
  predicate IsNumberChar(c: char)
  {
    IsDigit(c) || c == '.' || c == ','
  }

  /** The group of `re.search(r'^([\d\.,]+)', line)`, or "" when it does not match:
      the longest prefix made of digits, points and commas. */
  function LeadingNumber(line: string): (r: string)
    ensures |r| <= |line| && r == line[..|r|]
    ensures forall i :: 0 <= i < |r| ==> IsNumberChar(r[i])
    ensures |r| < |line| ==> !IsNumberChar(line[|r|])
  {
    line[..RunEnd(line, 0, IsNumberChar)]
  }

  /** One match of `(\d+)\s*шт` in `s`: the digits `s[i..j]` (the group), white
      space `s[j..k]`, then "шт" at `k`. */
  ghost predicate PiecesMatch(s: string, i: int, j: int, k: int)
  {
    && 0 <= i < j <= k <= |s|
    && (forall m :: i <= m < j ==> IsDigit(s[m]))
    && (forall m :: j <= m < k ==> IsSpace(s[m]))
    && StartsWith(s[k..], PIECES)
  }

  /** The regular expression tried at one start position: the greedy digit run,
      the greedy white-space run, then "шт". */
  function MatchAt(s: string, i: nat): Option<string>
    requires i <= |s|
  {
    var j := RunEnd(s, i, IsDigit);
    var k := RunEnd(s, j, IsSpace);
    if i < j && StartsWith(s[k..], PIECES) then Some(s[i..j]) else None
  }

  /** Backtracking cannot help the regular expression: it matches at `i` exactly
      when `MatchAt` says so, and always with the same group. */
  lemma MatchAtIsRegex(s: string, i: nat)
    requires i <= |s|
    ensures MatchAt(s, i).Some? ==>
      PiecesMatch(s, i, RunEnd(s, i, IsDigit), RunEnd(s, RunEnd(s, i, IsDigit), IsSpace))
    ensures forall j, k :: PiecesMatch(s, i, j, k) ==> MatchAt(s, i) == Some(s[i..j])
  {
    forall j, k | PiecesMatch(s, i, j, k)
      ensures MatchAt(s, i) == Some(s[i..j])
    {
      assert s[k..][0] == 'ш' && s[k] == 'ш';
      assert !IsDigit(s[j]) by {
        if j < k {
          assert IsSpace(s[j]);
        }
      }
      RunEndUnique(s, i, IsDigit, j);
      RunEndUnique(s, j, IsSpace, k);
    }
  }

  /** `re.search` from position `from` on: the regular expression tried at
      each start position in turn. */
  function SearchFrom(s: string, from: nat): (r: Option<string>)
    requires from <= |s|
    decreases |s| - from
  {
    if from == |s| then None
    else
      match MatchAt(s, from)
      case Some(q) => Some(q)
      case None => SearchFrom(s, from + 1)
  }

  /** The search finds the leftmost match at or after `from`, or reports that
      there is none. */
  lemma SearchFromLeftmost(s: string, from: nat)
    requires from <= |s|
    ensures SearchFrom(s, from).None? ==> forall i, j, k :: from <= i && PiecesMatch(s, i, j, k) ==> false
    ensures SearchFrom(s, from).Some? ==> exists i, j, k ::
      && from <= i && PiecesMatch(s, i, j, k) && SearchFrom(s, from).value == s[i..j]
      && forall i', j', k' :: from <= i' < i ==> !PiecesMatch(s, i', j', k')
    ensures SearchFrom(s, from).Some? ==> IsDigitString(SearchFrom(s, from).value)
  {
    if SearchFrom(s, from).None? {
      SearchFromNone(s, from);
    } else {
      var i, j, k := SearchFromFound(s, from);
      assert s[i..j] != [] && forall m :: 0 <= m < j - i ==> s[i..j][m] == s[i + m];
    }
  }

  lemma {:induction false} SearchFromNone(s: string, from: nat)
    requires from <= |s| && SearchFrom(s, from).None?
    ensures forall i, j, k :: from <= i && PiecesMatch(s, i, j, k) ==> false
    decreases |s| - from
  {
    if from < |s| {
      MatchAtIsRegex(s, from);
      SearchFromNone(s, from + 1);
    }
  }

  lemma {:induction false} SearchFromFound(s: string, from: nat) returns (i: nat, j: nat, k: nat)
    requires from <= |s| && SearchFrom(s, from).Some?
    ensures from <= i && PiecesMatch(s, i, j, k) && SearchFrom(s, from).value == s[i..j]
    ensures forall i', j', k' :: from <= i' < i ==> !PiecesMatch(s, i', j', k')
    decreases |s| - from
  {
    MatchAtIsRegex(s, from);
    if MatchAt(s, from).Some? {
      i := from;
      j := RunEnd(s, from, IsDigit);
      k := RunEnd(s, j, IsSpace);
    } else {
      i, j, k := SearchFromFound(s, from + 1);
    }
  }

  /** The group of `re.search(r'(\d+)\s*шт', s)`: the digits of the leftmost match. */
  function QuantityIn(s: string): (r: Option<string>)
    ensures r.None? ==> forall i, j, k :: !PiecesMatch(s, i, j, k)
    ensures r.Some? ==> exists i, j, k ::
      && PiecesMatch(s, i, j, k) && r.value == s[i..j]
      && forall i', j', k' :: i' < i ==> !PiecesMatch(s, i', j', k')
    ensures r.Some? ==> IsDigitString(r.value)
  {
    SearchFromLeftmost(s, 0);
    SearchFrom(s, 0)
  }

  /** A line with a '*' splits into at least two parts. */
  lemma StarSplits(line: string)
    requires Contains(line, "*")
    ensures |Split(line, '*')| >= 2
  {
    var i := ContainsWitness(line, "*");
    assert line[i] == '*';
    SplitAtSeparator(line, '*');
  }

  /** What one line does to the record in the loop of `extract_sales_data`. */
  function ApplyLine(d: SalesData, line: string): SalesData
  {
    match Classify(line)
    case TaxCode => d.(uktzed := Strip(RemoveAll(line, TAX_CODE_LABEL)))
    case Barcode => d.(barcode := Strip(RemoveAll(line, BARCODE_LABEL)))
    case QuantityLine =>
      var parts := Split(line, '*');
      if |parts| >= 2 then
        var quantity := QuantityIn(parts[1]);
        d.(priceDetails := line, unitPrice := Strip(parts[0]),
           quantity := if quantity.Some? then quantity.value else d.quantity)
      else d.(priceDetails := line)
    case TaxLine =>
      var price := LeadingNumber(line);
      d.(priceBreakdown := line, totalPrice := if price != "" then price else d.totalPrice)
    case Unclaimed => d
  }

  lemma ApplyTaxCodeLine(d: SalesData, line: string)
    requires Classify(line) == TaxCode
    ensures ApplyLine(d, line) == d.(uktzed := Strip(RemoveAll(line, TAX_CODE_LABEL)))
  {
  }

  lemma ApplyBarcodeLine(d: SalesData, line: string)
    requires Classify(line) == Barcode
    ensures ApplyLine(d, line) == d.(barcode := Strip(RemoveAll(line, BARCODE_LABEL)))
  {
  }

  lemma ApplyQuantityLine(d: SalesData, line: string)
    requires Classify(line) == QuantityLine
    ensures var parts := Split(line, '*');
      ApplyLine(d, line) ==
        if |parts| >= 2 then
          var quantity := QuantityIn(parts[1]);
          d.(priceDetails := line, unitPrice := Strip(parts[0]),
             quantity := if quantity.Some? then quantity.value else d.quantity)
        else d.(priceDetails := line)
  {
  }

  lemma ApplyTaxLine(d: SalesData, line: string)
    requires Classify(line) == TaxLine
    ensures var price := LeadingNumber(line);
      ApplyLine(d, line) == d.(priceBreakdown := line, totalPrice := if price != "" then price else d.totalPrice)
  {
  }

  lemma ApplyUnclaimedLine(d: SalesData, line: string)
    requires Classify(line) == Unclaimed
    ensures ApplyLine(d, line) == d
  {
  }

  /** The record after the loop has seen `lines`, in order. */
  function Scan(lines: seq<string>): SalesData
  {
    if lines == [] then INITIAL
    else ApplyLine(Scan(lines[..|lines| - 1]), lines[|lines| - 1])
  }

  /** The loop never sets the product name. */
  lemma {:induction false} ScanLeavesName(lines: seq<string>)
    ensures Scan(lines).productName == ""
  {
    if lines != [] {
      ScanLeavesName(lines[..|lines| - 1]);
    }
  }

  /** `identified_patterns` once the loop has seen `lines`. */
  function Claimed(lines: seq<string>): set<string>
  {
    set line | line in lines && Classify(line) != Unclaimed
  }

  /** One more turn of the loop. */
  lemma ScanStep(lines: seq<string>, i: nat)
    requires i < |lines|
    ensures Scan(lines[..i + 1]) == ApplyLine(Scan(lines[..i]), lines[i])
    ensures Claimed(lines[..i + 1])
      == Claimed(lines[..i]) + if Classify(lines[i]) != Unclaimed then {lines[i]} else {}
  {
    assert lines[..i + 1][..i] == lines[..i];
    ClaimedStep(lines[..i], lines[i]);
    assert lines[..i + 1] == lines[..i] + [lines[i]];
  }

  lemma ClaimedStep(prefix: seq<string>, line: string)
    ensures Claimed(prefix + [line])
      == Claimed(prefix) + if Classify(line) != Unclaimed then {line} else {}
  {
    var next := prefix + [line];
    forall x | x in next ensures x in prefix || x == line {
      var m :| 0 <= m < |next| && next[m] == x;
      if m < |prefix| {
        assert prefix[m] == x;
      }
    }
    assert next[|prefix|] == line;
    forall x | x in prefix ensures x in next {
      var m :| 0 <= m < |prefix| && prefix[m] == x;
      assert next[m] == x;
    }
  }

  /** `re.match(r'^\d+[\.,]\d+$', line)` */
  predicate IsDecimalToken(line: string)
  {
    exists p :: 0 < p < |line| - 1 && (line[p] == '.' || line[p] == ',')
      && IsDigitString(line[..p]) && IsDigitString(line[p + 1..])
  }

  /** The filters of `candidate_lines`, other than being unclaimed. */
  predicate IsNameShaped(line: string)
  {
    !IsDigitString(line) && !IsDecimalToken(line) && |line| >= 5
  }

  /** `candidate_lines`: the unidentified, name-shaped lines, in order. */
  function Candidates(lines: seq<string>, identified: set<string>): (c: seq<string>)
    ensures |c| <= |lines|
    ensures forall x :: x in c ==> x in lines && x !in identified && IsNameShaped(x)
  {
    if lines == [] then []
    else
      var last := lines[|lines| - 1];
      Candidates(lines[..|lines| - 1], identified)
        + (if last !in identified && IsNameShaped(last) then [last] else [])
  }

  /** `max(c, key=len)`: the index of the first longest element. */
  function LongestIndex(c: seq<string>): (i: nat)
    requires |c| > 0
    ensures i < |c|
    ensures forall k :: 0 <= k < |c| ==> |c[k]| <= |c[i]|
    ensures forall k :: 0 <= k < i ==> |c[k]| < |c[i]|
  {
    if |c| == 1 then 0
    else
      var i := LongestIndex(c[..|c| - 1]);
      if |c[|c| - 1]| > |c[i]| then |c| - 1 else i
  }

  /** Where the fallback loop stops: the first unidentified line, or |lines|. */
  function FirstUnidentified(lines: seq<string>, identified: set<string>): (i: nat)
    ensures i <= |lines|
    ensures forall k :: 0 <= k < i ==> lines[k] in identified
    ensures i < |lines| ==> lines[i] !in identified
  {
    if lines == [] then 0
    else if lines[0] !in identified then 0
    else 1 + FirstUnidentified(lines[1..], identified)
  }

  /** The product name `extract_sales_data` settles on. */
  function PickName(lines: seq<string>, identified: set<string>): string
  {
    var candidates := Candidates(lines, identified);
    if |candidates| > 0 then candidates[LongestIndex(candidates)]
    else
      var i := FirstUnidentified(lines, identified);
      if i < |lines| then lines[i] else ""
  }

  /** `unit_price` is derived when it is empty and `total_price` and a quantity
      other than '1' are present. */
  predicate NeedsUnitPrice(d: SalesData)
  {
    d.unitPrice == "" && d.totalPrice != "" && d.quantity != "" && d.quantity != "1"
  }

  /** `total_price` is derived when it is empty and `unit_price` and a quantity
      are present (the `elif`; `NeedsUnitPrice` cannot hold then). */
  predicate NeedsTotalPrice(d: SalesData)
  {
    d.unitPrice != "" && d.totalPrice == "" && d.quantity != ""
  }

  /** `s.replace(',', '.')` */
  function CommaToPoint(s: string): (r: string)
    ensures |r| == |s|
    ensures forall i :: 0 <= i < |s| ==> r[i] == if s[i] == ',' then '.' else s[i]
  {
    if s == [] then [] else [if s[0] == ',' then '.' else s[0]] + CommaToPoint(s[1..])
  }

  /** The derived unit price, or `None` for the `ValueError`/`ZeroDivisionError`
      that leaves the record as it is: a price is derived exactly when both
      `float()` calls succeed and the quantity is not zero. */
  function DerivedUnitPrice(d: SalesData): (r: Option<string>)
    ensures r.Some? <==>
      && ParseFloat(CommaToPoint(d.totalPrice)).Some?
      && ParseFloat(d.quantity).Some?
      && ParseFloat(d.quantity).value.units != 0
  {
    match (ParseFloat(CommaToPoint(d.totalPrice)), ParseFloat(d.quantity))
    case (Some(total), Some(quantity)) =>
      (match Quotient(total, quantity)
       case Some((negative, cents)) => Some(FormatFixed2(negative, cents))
       case None => None)
    case _ => None
  }

  /** The derived total price, or `None` for the `ValueError`: a price is
      derived exactly when both `float()` calls succeed. */
  function DerivedTotalPrice(d: SalesData): (r: Option<string>)
    ensures r.Some? <==> ParseFloat(CommaToPoint(d.unitPrice)).Some? && ParseFloat(d.quantity).Some?
  {
    match (ParseFloat(CommaToPoint(d.unitPrice)), ParseFloat(d.quantity))
    case (Some(unit), Some(quantity)) =>
      var (negative, cents) := Product(unit, quantity);
      Some(FormatFixed2(negative, cents))
    case _ => None
  }

  /** `_calculate_missing_prices`: fills at most one of the two prices, only an
      empty one, only under its branch's condition, and nothing else. */
  function CalculateMissingPrices(d: SalesData): (r: SalesData)
    ensures r.(unitPrice := d.unitPrice, totalPrice := d.totalPrice) == d
    ensures r.unitPrice != d.unitPrice ==>
      NeedsUnitPrice(d) && r.unitPrice != "" && r.totalPrice == d.totalPrice
    ensures r.totalPrice != d.totalPrice ==>
      NeedsTotalPrice(d) && r.totalPrice != "" && r.unitPrice == d.unitPrice
    ensures r.unitPrice != d.unitPrice ==> DerivedUnitPrice(d) == Some(r.unitPrice)
    ensures r.totalPrice != d.totalPrice ==> DerivedTotalPrice(d) == Some(r.totalPrice)
    ensures NeedsUnitPrice(d) ==>
      (r.unitPrice != d.unitPrice <==> DerivedUnitPrice(d).Some?)
    ensures NeedsTotalPrice(d) ==>
      (r.totalPrice != d.totalPrice <==> DerivedTotalPrice(d).Some?)
  {
    if NeedsUnitPrice(d) then
      match DerivedUnitPrice(d)
      case Some(price) => d.(unitPrice := price)
      case None => d
    else if NeedsTotalPrice(d) then
      match DerivedTotalPrice(d)
      case Some(price) => d.(totalPrice := price)
      case None => d
    else d
  }

  /** `extract_sales_data(content)`; `None` is the `{}` returned for "". */
  function SalesDataOf(content: string): (r: Option<SalesData>)
    ensures r.None? <==> content == ""
  {
    if content == "" then None
    else
      var lines := Lines(content);
      Some(CalculateMissingPrices(Scan(lines).(productName := PickName(lines, Claimed(lines)))))
  }

  /** The source's loops: one pass over the lines updating the record and the
      set of identified lines, the candidate choice, the fallback scan, and the
      price derivation. */
  method ExtractSalesData(content: string) returns (r: Option<SalesData>)
    ensures r == SalesDataOf(content)
  {
    if content == "" {
      return None;
    }
    var lines := Lines(content);
    var sales, identified := ScanLines(lines);
    ScanLeavesName(lines);
    var candidates := Candidates(lines, identified);
    if |candidates| > 0 {
      sales := sales.(productName := candidates[LongestIndex(candidates)]);
    } else if |lines| > 0 {
      ghost var scanned := sales;
      for i := 0 to |lines|
        invariant i <= FirstUnidentified(lines, identified)
        invariant sales == scanned
      {
        if lines[i] !in identified {
          sales := sales.(productName := lines[i]);
          assert FirstUnidentified(lines, identified) == i;
          break;
        }
      }
    }
    sales := CalculateMissingPrices(sales);
    r := Some(sales);
  }

  /** The first loop of `extract_sales_data`: each line updates the record by
      its kind, and the lines of the four kinds are collected. */
  method ScanLines(lines: seq<string>) returns (sales: SalesData, identified: set<string>)
    ensures sales == Scan(lines) && identified == Claimed(lines)
  {
    sales := INITIAL;
    identified := {};
    for i := 0 to |lines|
      invariant sales == Scan(lines[..i])
      invariant identified == Claimed(lines[..i])
    {
      var line := lines[i];
      ScanStep(lines, i);
      if Contains(line, TAX_CODE_LABEL) {
        assert Classify(line) == TaxCode;
        ApplyTaxCodeLine(sales, line);
        sales := sales.(uktzed := Strip(RemoveAll(line, TAX_CODE_LABEL)));
        identified := identified + {line};
      } else if Contains(line, BARCODE_LABEL) {
        assert Classify(line) == Barcode;
        ApplyBarcodeLine(sales, line);
        sales := sales.(barcode := Strip(RemoveAll(line, BARCODE_LABEL)));
        identified := identified + {line};
      } else if Contains(line, "*") && HasDigit(line) && Contains(line, PIECES) {
        assert Classify(line) == QuantityLine;
        ApplyQuantityLine(sales, line);
        sales := sales.(priceDetails := line);
        identified := identified + {line};
        var parts := Split(line, '*');
        if |parts| >= 2 {
          sales := sales.(unitPrice := Strip(parts[0]));
          var quantityMatch := QuantityIn(parts[1]);
          if quantityMatch.Some? {
            sales := sales.(quantity := quantityMatch.value);
          }
        }
      } else if Contains(line, TAX_MARKER) && HasDigit(line) {
        assert Classify(line) == TaxLine;
        ApplyTaxLine(sales, line);
        sales := sales.(priceBreakdown := line);
        identified := identified + {line};
        var priceMatch := LeadingNumber(line);
        if priceMatch != "" {
          sales := sales.(totalPrice := priceMatch);
        }
      } else {
        assert Classify(line) == Unclaimed;
        ApplyUnclaimedLine(sales, line);
      }
    }
    assert lines[..|lines|] == lines;
  }
}
