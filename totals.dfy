/**
 * The item count and the distinct product names of `calculate_totals` in
 * app.py, over the entries of the data file.
 */
module Totals {
  import opened Options
  import opened Text
  import opened Numbers
  import opened Receipt
  import opened Store
  import ReceiptProperties

  /** What one entry adds to `total_items`: `int(quantity)`, 1 when the entry's
      `sales_data` is `{}`, and nothing when `int()` raises. */
  function ItemsOf(e: Entry): int
  {
    match e.salesData
    case None => 1
    case Some(d) =>
      match ParseInt(d.quantity)
      case Some(n) => n
      case None => 0
  }

  /** `total_items` over `entries`. */
  function TotalItems(entries: seq<Entry>): int
  {
    if entries == [] then 0 else TotalItems(entries[..|entries| - 1]) + ItemsOf(entries[|entries| - 1])
  }

  /** The product name an entry contributes, if it has a non-empty one. */
  predicate HasName(e: Entry)
  {
    e.salesData.Some? && e.salesData.value.productName != ""
  }

  /** `unique_products`: the distinct non-empty product names. */
  function ProductNames(entries: seq<Entry>): set<string>
  {
    set i | 0 <= i < |entries| && HasName(entries[i]) :: entries[i].salesData.value.productName
  }

  /** The accumulating loop of `calculate_totals`: the item total, the set of
      names and its size (`unique_products_count`). */
  method CalculateTotals(entries: seq<Entry>) returns (totalItems: int, uniqueProducts: set<string>, uniqueCount: nat)
    ensures totalItems == TotalItems(entries)
    ensures uniqueProducts == ProductNames(entries)
    ensures uniqueCount == |uniqueProducts| <= |entries|
  {
    totalItems := 0;
    uniqueProducts := {};
    for i := 0 to |entries|
      invariant totalItems == TotalItems(entries[..i])
      invariant uniqueProducts == ProductNames(entries[..i])
    {
      var entry := entries[i];
      NamesStep(entries, i);
      assert entries[..i + 1][..i] == entries[..i];
      match entry.salesData {
        case None =>
          totalItems := totalItems + 1;
        case Some(salesData) =>
          var quantity := ParseInt(salesData.quantity);
          if quantity.Some? {
            totalItems := totalItems + quantity.value;
          }
          if salesData.productName != "" {
            uniqueProducts := uniqueProducts + {salesData.productName};
          }
      }
    }
    assert entries[..|entries|] == entries;
    NamesBounded(entries);
    uniqueCount := |uniqueProducts|;
  }

  /** One more entry adds at most its own name. */
  lemma NamesStep(entries: seq<Entry>, i: nat)
    requires i < |entries|
    ensures ProductNames(entries[..i + 1]) == ProductNames(entries[..i])
      + if HasName(entries[i]) then {entries[i].salesData.value.productName} else {}
  {
    var prefix, next := entries[..i], entries[..i + 1];
    forall name | name in ProductNames(next)
      ensures name in ProductNames(prefix) || (HasName(entries[i]) && name == entries[i].salesData.value.productName)
    {
      var k :| 0 <= k < |next| && HasName(next[k]) && name == next[k].salesData.value.productName;
      if k < i {
        assert prefix[k] == next[k];
      }
    }
    forall name | name in ProductNames(prefix)
      ensures name in ProductNames(next)
    {
      var k :| 0 <= k < |prefix| && HasName(prefix[k]) && name == prefix[k].salesData.value.productName;
      assert next[k] == prefix[k];
    }
    if HasName(entries[i]) {
      assert next[i] == entries[i];
    }
  }

  /** There are no more distinct names than entries. */
  lemma {:induction false} NamesBounded(entries: seq<Entry>)
    ensures |ProductNames(entries)| <= |entries|
  {
    if entries != [] {
      var n := |entries| - 1;
      NamesBounded(entries[..n]);
      NamesStep(entries, n);
      assert entries[..n + 1] == entries;
    }
  }

  /** Totals over two runs of entries add up. */
  lemma {:induction false} TotalItemsAppend(a: seq<Entry>, b: seq<Entry>)
    ensures TotalItems(a + b) == TotalItems(a) + TotalItems(b)
  {
    if b == [] {
      assert a + b == a;
    } else {
      var b' := b[..|b| - 1];
      TotalItemsAppend(a, b');
      assert (a + b)[..|a + b| - 1] == a + b';
      assert (a + b)[|a + b| - 1] == b[|b| - 1];
    }
  }

  function Reversed(entries: seq<Entry>): (r: seq<Entry>)
    ensures |r| == |entries|
    ensures forall i :: 0 <= i < |entries| ==> r[i] == entries[|entries| - 1 - i]
  {
    if entries == [] then [] else [entries[|entries| - 1]] + Reversed(entries[..|entries| - 1])
  }

  /** The index page reverses the entries before `calculate_totals`; the item
      total does not depend on that order. */
  lemma {:induction false} TotalItemsIgnoreOrder(entries: seq<Entry>)
    ensures TotalItems(Reversed(entries)) == TotalItems(entries)
  {
    if entries != [] {
      var n := |entries| - 1;
      var last, prefix := entries[n], entries[..n];
      TotalItemsIgnoreOrder(prefix);
      assert Reversed(entries) == [last] + Reversed(prefix);
      TotalItemsAppend([last], Reversed(prefix));
      assert [last][..0] == [];
    }
  }

  /** Nor do the names: they depend only on which entries there are. */
  lemma ProductNamesIgnoreOrder(entries: seq<Entry>)
    ensures ProductNames(Reversed(entries)) == ProductNames(entries)
  {
    var r := Reversed(entries);
    forall e | e in r ensures e in entries {
      var k :| 0 <= k < |r| && r[k] == e;
      assert entries[|entries| - 1 - k] == e;
    }
    forall e | e in entries ensures e in r {
      var k :| 0 <= k < |entries| && entries[k] == e;
      assert r[|entries| - 1 - k] == e;
    }
    NamesOfElements(r, entries);
    NamesOfElements(entries, r);
  }

  lemma NamesOfElements(a: seq<Entry>, b: seq<Entry>)
    requires forall e :: e in a ==> e in b
    ensures ProductNames(a) <= ProductNames(b)
  {
    forall name | name in ProductNames(a)
      ensures name in ProductNames(b)
    {
      var k :| 0 <= k < |a| && HasName(a[k]) && name == a[k].salesData.value.productName;
      assert a[k] in b;
      var m :| 0 <= m < |b| && b[m] == a[k];
    }
  }

  /** An entry saved by `save_data` counts its parsed quantity, or 1 for empty
      content; it never counts as a failed `int()`. */
  lemma SavedEntryItems(now: string, url: string, content: string)
    ensures content == "" ==> ItemsOf(NewEntry(now, url, content)) == 1
    ensures content != "" ==> IsDigitString(SalesDataOf(content).value.quantity)
    ensures content != "" ==>
      ItemsOf(NewEntry(now, url, content)) == DigitsValue(SalesDataOf(content).value.quantity) as int
  {
    if content != "" {
      var e := NewEntry(now, url, content);
      ExtractedQuantity(content);
      ItemsOfDigits(e);
    }
  }

  lemma ItemsOfDigits(e: Entry)
    requires e.salesData.Some? && IsDigitString(e.salesData.value.quantity)
    ensures ItemsOf(e) == DigitsValue(e.salesData.value.quantity) as int
  {
    DigitStringParsesAsInt(e.salesData.value.quantity);
  }

  lemma ExtractedQuantity(content: string)
    requires content != ""
    ensures IsDigitString(SalesDataOf(content).value.quantity)
  {
    ReceiptProperties.ExtractedRecord(content);
  }

  /** A quantity `int()` rejects, such as "1.5", adds nothing. */
  lemma FractionalQuantityCountsZero(e: Entry)
    requires e.salesData.Some? && e.salesData.value.quantity == "1.5"
    ensures ItemsOf(e) == 0
  {
    var t := "1.5";
    assert Trimmed(t) && IsDigit(t[0]) && !IsDigit(t[1]) && t[1] != '_';
    NotAnInt(t, 1);
  }

  /** A trimmed string starting with a digit and holding a character that is
      neither a digit nor '_' is rejected by `int()`. */
  lemma NotAnInt(t: string, i: nat)
    requires Trimmed(t) && t != [] && IsDigit(t[0])
    requires i < |t| && !IsDigit(t[i]) && t[i] != '_'
    ensures ParseInt(t) == None
  {
    StripTrimmed(t);
    assert Unsigned(t) == t;
  }
}
