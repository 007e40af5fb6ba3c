# pharmacy-receipt: receipt parsing, storage and totals in Dafny

This project models the core of the pharmacy-receipt collector (`app.py`), a
Flask application that polls a receipt page. The text of one receipt position
becomes a record of nine string fields. The collector appends new positions
to a JSON file of at most 1000 entries. The index page counts items and
distinct products over that file.

Modules:

- `Text` (text.dfy): the Python `str` operations the parser uses. These are
  `strip`, `split` on one character, `in`, `replace(label, '')` and ASCII
  digit strings.
- `Numbers` (numbers.dfy): `int()`, `float()` on plain decimals, and
  `f"{x:.2f}"`. Decimals are exact, with half-even rounding to cents.
- `Receipt` (receipt.dfy): `extract_sales_data` and
  `_calculate_missing_prices`. The rule classifier, the per-line update
  (`ApplyLine`), the fold over lines (`Scan`) and the name choice (`PickName`)
  are functions, and `SalesDataOf` is the whole parse. `ExtractSalesData` is
  the source's loop, proved equal to `SalesDataOf`.
- `ReceiptProperties` (receipt_props.dfy): what the parser promises. Each
  labelled field holds the value of the last line of its kind. Currency is
  always `UAH`, and the quantity is always a digit string. The product name is
  the first longest candidate line, else the first unclaimed line, else "".
  A derived price reads back as the exact value rounded to cents.
- `ReceiptScenarios` (receipt_scenarios.dfy): three receipt positions worked
  through the parser. They are a tax-code line, a lone number, and a quantity
  line whose total is derived.
- `Store` (store.dfy): `DataManager` as a class over an in-memory `Stored`
  value. `save_data` appends and keeps the newest 1000. `get_last_content` and
  `load_data` read the file. A file that fails to load is `Unreadable`.
- `Collector` (collector.dfy): `fetch_content`'s deduplication, one pass of
  `collect_and_save_data` with its save guard, and the pause after a pass.
- `Totals` (totals.dfy): `total_items` and `unique_products` of
  `calculate_totals`.

`Options` (options.dfy) holds the `Option` datatype. `None` is Python's
`None`, the `{}` of `extract_sales_data("")`, or a raised `ValueError`,
depending on the function.

## Model

| member | source | states |
|---|---|---|
| Text.Strip | app.py:253 | `strip()` leaves no white space at either end, never lengthens, and is empty exactly when the line is all white space |
| Text.Split | app.py:253 | `split(sep)` gives at least one piece, no piece holds the separator, and joining the pieces with it gives the text back |
| Text.SplitJoin | app.py:268 | splitting a join of separator-free pieces gives the pieces back |
| Text.RemoveAll | app.py:259 | `replace(label, '')` never lengthens, and shortens exactly when the label occurs |
| Text.RemoveAllAbsent | app.py:262 | `replace(label, '')` leaves text without the label unchanged |
| Text.RemoveAllSkip | app.py:258-262 | `replace(label, '')` removes the leftmost occurrence and continues after it, so every non-overlapping occurrence is removed and the text between them is kept |
| Text.NatToString | app.py:312 | the integer part that `:.2f` prints is a digit string reading back as `n`, without a leading zero |
| Numbers.ParseInt | app.py:437 | `int(s)` succeeds exactly when the stripped text is an optional sign and underscore-grouped digits |
| Numbers.DigitStringParsesAsInt | app.py:437 | `int()` of a digit string is its decimal value |
| Numbers.RoundHalfEven | app.py:312 | the result is the integer nearest n / d, ties going to the even one |
| Numbers.ParseFloat | app.py:310-318 | `float()` on a plain decimal with optional sign and surrounding white space; when it succeeds is `ParseFloatSucceeds`, its values are `ParseFloatWhole` and `ParseFloatPointed` |
| Numbers.ParseFloatSucceeds | app.py:310-321 | `float()` succeeds exactly when the stripped text, after an optional sign, is digits and at most one point with at least one digit; two points, no digit or any other character give `ValueError` (the exponent, `inf`, `nan` and underscore forms are under Left out) |
| Numbers.ParseFloatWhole | app.py:311 | `float()` of an optionally signed digit string is its value, negative exactly for '-' |
| Numbers.ParseFloatPointed | app.py:310 | `float()` of an optionally signed `w.f`, `w.` or `.f` is the digits of `w` and `f` read as one number with `|f|` of them after the point |
| Numbers.DigitStringParsesAsFloat | app.py:311 | `float()` of a digit string, such as every extracted quantity, is its value |
| Numbers.FormatFixed2 | app.py:312 | `f"{x:.2f}"` of a signed number of cents; its meaning is `FormatFixed2Parses` |
| Numbers.Product | app.py:319 | `unit * quantity` rounded to cents; its meaning is `ProductIsNearest` |
| Numbers.Quotient | app.py:312 | the division fails (`ZeroDivisionError`) exactly when the quantity is zero; the sign is the XOR of the signs |
| Numbers.FormatFixed2Parses | app.py:319 | the `.2f` text reads back under `float()` as exactly the signed number of cents it was made from |
| Receipt.Classify | app.py:257-279 | a line gets the first rule, in the order УКТЗЕД, Штрих-код, quantity line, (Б) line, whose test it passes |
| Receipt.NonBlank | app.py:253 | only non-empty stripped lines are kept, never more than there were pieces |
| ReceiptProperties.NonBlankKeepsLines | app.py:253 | lines that are already non-empty and stripped are all kept, in their order |
| Receipt.Lines | app.py:253 | the lines are non-empty and stripped; `NonBlankAppend` and `NonBlankOne` give them exactly |
| ReceiptProperties.NonBlankAppend | app.py:253 | the comprehension works piece by piece: the lines of two runs of pieces are those of the first run followed by those of the second |
| ReceiptProperties.NonBlankOne | app.py:253 | one piece gives its stripped text, padded or not, or nothing when it is blank |
| ReceiptProperties.LinesOfJoin | app.py:131 | content made by joining non-empty stripped lines with newlines parses back into exactly those lines, in order |
| Receipt.LeadingNumber | app.py:277-279 | the group of `^([\d\.,]+)` is the longest prefix of digits, points and commas |
| Receipt.MatchAtIsRegex | app.py:271 | at one start position `(\d+)\s*шт` matches exactly when the greedy runs do, with the same group |
| Receipt.SearchFromLeftmost | app.py:271 | `re.search` finds the leftmost match, whose group is a digit string, or reports that none exists |
| Receipt.QuantityIn | app.py:271-273 | the quantity is the digit group of the leftmost `(\d+)\s*шт` match, or absent when nothing matches |
| Receipt.StarSplits | app.py:268-269 | a line holding '*' splits into at least two parts |
| Receipt.ApplyLine | app.py:258-279 | one turn of the line loop; its meaning is `LastMatchesStep` and `LastOfAppend` |
| Receipt.Scan | app.py:257-279 | the line loop over all lines; its meaning is `ScanIsLastMatches` |
| Receipt.Claimed | app.py:254-276 | `identified_patterns` after the loop; its meaning is `ClaimedIsClassified` |
| Receipt.ScanLeavesName | app.py:257-279 | the line loop never sets the product name |
| Receipt.Candidates | app.py:282-288 | every candidate is an unidentified line of the content that is not all digits, not `\d+[.,]\d+`, and at least 5 long |
| Receipt.LongestIndex | app.py:291 | `max(..., key=len)` picks a longest element, and every earlier element is strictly shorter |
| Receipt.FirstUnidentified | app.py:292-297 | the fallback loop stops at the first unidentified line, or runs past the end |
| Receipt.PickName | app.py:281-297 | the name the two name loops settle on; its meaning is `NameIsLongestCandidate` and `NameFallback` |
| Receipt.NeedsUnitPrice | app.py:307-308 | the test of the unit-price branch; `CalculateMissingPrices` states how it is used |
| Receipt.NeedsTotalPrice | app.py:314-315 | the test of the total-price branch, tried only when the first fails; `CalculateMissingPrices` states how it is used |
| Receipt.DerivedUnitPrice | app.py:309-312 | a unit price is derived exactly when both `float()` calls succeed and the quantity is not zero; otherwise `ValueError` or `ZeroDivisionError` leaves the record as it is (app.py:320-321) |
| Receipt.DerivedTotalPrice | app.py:316-319 | a total price is derived exactly when both `float()` calls succeed; otherwise `ValueError` leaves the record as it is (app.py:320-321) |
| Receipt.CommaToPoint | app.py:310 | `replace(',', '.')` swaps commas for points and leaves every other character |
| Receipt.CalculateMissingPrices | app.py:304-321 | only the two prices can change, and at most one of them. An empty price is filled only under its branch's condition, with the derived value, exactly when the derivation succeeds |
| Receipt.SalesDataOf | app.py:244-245 | the result is `{}` exactly for empty content |
| Receipt.ScanLines | app.py:257-279 | the line loop builds the record of `Scan` and collects exactly the claimed lines |
| Receipt.ExtractSalesData | app.py:242-302 | the loops compute exactly `SalesDataOf` |
| ReceiptProperties.LastIndex | app.py:257-279 | finds the last line that yields a value for a field; no later line yields one |
| ReceiptProperties.LastOfAppend | app.py:257-279 | a new line overwrites a field exactly when it yields a value for it |
| ReceiptProperties.QuantityLineSplits | app.py:269 | the `len(parts) >= 2` test always passes on a quantity line |
| ReceiptProperties.LastMatchesStep | app.py:257-279 | one turn of the loop agrees with the field-by-field last-match description |
| ReceiptProperties.ScanIsLastMatches | app.py:247-279 | each field holds the value of the LAST line of its kind (or its initial value); currency is 'UAH' and the name is unset |
| ReceiptProperties.QuantityIsDigits | app.py:248-273 | the quantity is '1' or a `\d+` group: always a digit string |
| ReceiptProperties.ClaimedIsClassified | app.py:254-276 | a line is in `identified_patterns` exactly when one of the four rules claims it |
| ReceiptProperties.CandidatesComplete | app.py:282-288 | every unidentified, name-shaped line is a candidate |
| ReceiptProperties.CandidatesAreCandidates | app.py:282-288 | the candidate list holds exactly the unclaimed, name-shaped lines |
| ReceiptProperties.NoCandidates | app.py:282-288 | without unidentified name-shaped lines, the candidate list is empty |
| ReceiptProperties.CandidatesPrefix | app.py:282-288 | the candidates of the first m lines are the first entries of the candidate list: the list keeps the lines' order |
| ReceiptProperties.NameComesFirst | app.py:282-291 | a candidate line as long as the name never comes before the first line equal to the name |
| ReceiptProperties.NameIsLongestCandidate | app.py:282-291 | with a candidate present, the name is a candidate no other candidate is longer than, the first of the longest in the candidate list, and equal to a line no later than any candidate line of its length |
| ReceiptProperties.NameFallback | app.py:292-297 | without candidates, the name is the first unclaimed line; it is "" exactly when every line is claimed |
| ReceiptProperties.ExtractedRecord | app.py:242-302 | the record is the last-match fields, named, then priced. Currency is 'UAH', the quantity is a digit string `int()` accepts, and code, barcode and both detail lines are their last matches |
| ReceiptProperties.ExtractedQuantityParses | app.py:271-273 | every extracted quantity is a digit string that `float()` reads as its value |
| ReceiptProperties.ExtractedTotalPrice | app.py:314-321 | on an extracted record that needs a total, the total is filled exactly when `float()` accepts the unit price, and then with the derived product |
| ReceiptProperties.ExtractedUnitPrice | app.py:307-312 | on an extracted record that needs a unit price, it is filled exactly when `float()` accepts the total and the quantity is not zero, and then with the derived quotient |
| ReceiptProperties.DerivedTotalPriceValue | app.py:315-319 | when unit price and quantity both parse, a total is derived, and it reads back as their product rounded to the nearest cent, with the product's sign |
| ReceiptProperties.ProductIsNearest | app.py:319 | the product is rounded to the nearest cent and signed by the XOR of the signs |
| ReceiptProperties.DerivedUnitPriceValue | app.py:308-312 | when total and quantity both parse, a unit price is derived exactly when the quantity is non-zero, and it reads back as their quotient rounded to the nearest cent |
| ReceiptProperties.QuotientIsNearest | app.py:312 | the quotient is rounded to the nearest cent and signed by the XOR of the signs |
| ReceiptScenarios.SingleLine | app.py:253 | content without a newline or surrounding white space is one line |
| ReceiptScenarios.OneUnclaimedLine | app.py:290-297 | a lone unclaimed line too short or numeric for a candidate still becomes the product name |
| ReceiptScenarios.LoneNumberIsKept | app.py:290-297 | content "42" gives a record named "42", every other field initial |
| ReceiptScenarios.TaxCodeLine | app.py:258-259 | "УКТЗЕД 1234567890" gives the tax code "1234567890" |
| ReceiptScenarios.QuantityLineDerivesTotal | app.py:264-319 | "50.00 * 2 шт" gives unit price "50.00", quantity "2" and derived total "100.00" |
| Store.NewEntry | app.py:212-217 | the entry records time, url and content; its `sales_data` is `{}` exactly for empty content |
| Store.Appended | app.py:219-223 | the list after `append` and the cut to the newest 1000; its meaning is `AppendedKeepsNewest` |
| Store.SavedState | app.py:206-231 | the file after `save_data`; its meaning is `SaveThenLastContent` and `DataManager.SaveData` |
| Store.AppendedKeepsNewest | app.py:219-223 | for a file of any length, a save keeps order and ends with the new entry. It holds min(n + 1, 1000) entries: the newest of the old ones and the new one. It drops nothing below the bound and exactly the oldest at it |
| Store.AppendedBounded | app.py:222-223 | after any save the file holds at most 1000 entries, the new one last |
| Store.LastContentOf | app.py:193-204 | `get_last_content` is the last `raw_content`, or `None` for an empty list or a file that fails to load |
| Store.EntriesOf | app.py:233-240 | `load_data` gives the entries, or `[]` when the file fails to load |
| Store.SaveThenLastContent | app.py:206-228 | after a successful save, `get_last_content` returns the saved content and `load_data` ends with the new entry |
| Store.DataManager.LastContent | app.py:193-204 | `get_last_content` on the manager's file, which is `LastContentOf` |
| Store.DataManager.LoadData | app.py:233-240 | `load_data` on the manager's file, which is `EntriesOf` |
| Store.DataManager.constructor | app.py:183-191 | a missing file starts as an empty list; an existing one is kept |
| Store.DataManager.SaveData | app.py:206-231 | a file that fails to load gives `False` and stays unchanged. Otherwise the save appends, keeps the newest 1000, and returns `True`; `get_last_content` is then the content |
| Collector.Fetched | app.py:168-174 | new text is returned exactly when it is non-empty and differs from the previous text |
| Collector.LastAfter | app.py:168-169 | `last_content` after a fetch; `DataCollector.FetchContent` states how it is updated |
| Collector.ShouldSave | app.py:340-343 | the save guard: non-empty, not the placeholder, and not the file's last content; its meaning is `PassWrites` |
| Collector.Pass | app.py:338-351 | one pass of the loop; its meaning is `PassWrites`, `SameTextSavedOnce` and `StoredTextNotResaved` |
| Collector.FetchedTwice | app.py:168-171 | the same text fetched twice in a row is new at most once |
| Collector.PassWrites | app.py:338-351 | a pass writes the file only when it saves. It saves exactly when the text passes the guard and the file loads, and then appends one entry and makes the text the last content |
| Collector.PlaceholderNeverSaved | app.py:340 | "No product information available" is never saved |
| Collector.SameTextSavedOnce | app.py:338-349 | two passes that see the same text save it at most once |
| Collector.StoredTextNotResaved | app.py:341-349 | with a fresh collector, text equal to the file's last `raw_content` is not saved again |
| Collector.Pause | app.py:353-364 | a clean pass resets the error count and waits the normal interval. A failing pass counts up and waits the error interval, doubled from the fifth failure in a row |
| Collector.ErrorCount | app.py:353-357 | `consecutive_errors` after a run of passes; its meaning is `ErrorCountIsStreak` |
| Collector.ErrorCountIsStreak | app.py:353-357 | `consecutive_errors` is the number of failed passes since the last clean one |
| Collector.DoubledAfterFiveFailures | app.py:356-364 | after a failing pass the wait is doubled exactly when that pass and the four before it failed |
| Collector.DataCollector.constructor | app.py:33-35 | a new collector has the url and no previous text |
| Collector.DataCollector.FetchContent | app.py:166-174 | returns `Fetched` and updates `last_content` only when the text was new |
| Collector.CollectOnce | app.py:338-351 | one pass with a collector and a data manager does exactly what `Pass` describes |
| Totals.CalculateTotals | app.py:423-463 | the loop's item total, name set and count are `TotalItems`, `ProductNames` and its size, at most the number of entries |
| Totals.ItemsOf | app.py:433-439 | what one entry adds to `total_items`; its meaning is `SavedEntryItems`, `ItemsOfDigits` and `FractionalQuantityCountsZero` |
| Totals.TotalItems | app.py:432-439 | `total_items` over the entries; its meaning is `TotalItemsAppend` and `TotalItemsIgnoreOrder` |
| Totals.ProductNames | app.py:448-450 | `unique_products` over the entries; its meaning is `NamesStep`, `NamesBounded` and `ProductNamesIgnoreOrder` |
| Totals.NamesStep | app.py:449-450 | each entry adds at most its own non-empty name |
| Totals.NamesBounded | app.py:461 | there are no more distinct names than entries |
| Totals.TotalItemsAppend | app.py:432-439 | item totals over two runs of entries add up |
| Totals.Reversed | app.py:373 | `entries.reverse()` puts entry i at position n - 1 - i |
| Totals.TotalItemsIgnoreOrder | app.py:373-375 | reversing the entries before `calculate_totals` does not change the item total |
| Totals.ProductNamesIgnoreOrder | app.py:373-375 | reversing the entries does not change the set of names |
| Totals.NamesOfElements | app.py:449-450 | the names depend only on which entries there are |
| Totals.SavedEntryItems | app.py:437 | a saved entry counts 1 for empty content, otherwise the value of its (always digit) quantity |
| Totals.ItemsOfDigits | app.py:437 | an entry with a digit-string quantity counts its value |
| Totals.FractionalQuantityCountsZero | app.py:436-439 | a quantity "1.5" is rejected by `int()` and adds nothing |
| Totals.NotAnInt | app.py:437 | stripped text that starts with a digit and holds a character that is neither a digit nor '_' is rejected by `int()` |

## Behaviour worth noting

- `extract_sales_data` returns one record per content, however many
  products the receipt text lists.
- Content with no name-shaped line still yields a named record: content
  "42" gives product name "42" (`LoneNumberIsKept`).
- When several lines of one kind occur, the last one overwrites the field
  (`ScanIsLastMatches`).

## Left out

- Fetching the page (`requests` and Selenium) and extracting its text with
  BeautifulSoup are not modelled. Their outcome is the `extracted` parameter
  of `FetchContent`, `Pass` and `CollectOnce`, with `None` for every failure.
- Files and JSON: the data file is the `Stored` value in memory. A failed
  write in `save_data` after a successful read is not modelled: the model
  returns `true` whenever the file loads. A file holding JSON that is not a
  list, or entries without `raw_content`, are not modelled.
- `datetime.now().isoformat()` is the `now` parameter. `time.sleep`,
  threading, logging, environment variables, the Flask routes and the CSV
  export are left out. `Pause` returns the sleep duration.
- What raises inside the loop is not modelled. Each pass's failure is an
  input of `Pause` and `ErrorCount`.
- `total_sales` and `sales_by_hour` of `calculate_totals` (binary floats and
  date parsing) are left out.
- The module-level `DataManager` the web pages use shares the file with the
  loop's own manager. The model has one store per manager.
- `_calculate_missing_prices` updates the dictionary in place. The record is
  a value here, and the function returns the updated record.
- Numbers.ParseFloat: accepts only plain decimals (`d`, `d.`, `.d`, `d.d`,
  with a sign). Python's `float()` also accepts exponents, `inf`, `nan` and
  underscores. Only `unit_price` can hold such text, since `total_price` and
  `quantity` come from `[\d.,]+` and `\d+` groups.
- Numbers.Quotient: computes the exact quotient of the exact decimals,
  rounded half-even to cents. Python converts each operand to the nearest
  binary double first and rounds the double result, so the text can differ:
  - on ties such as 2.675, which no double holds exactly;
  - on integers past 2^53: content "9007199254740993 * 1 шт" gives a total
    of "9007199254740992.00" in Python and "9007199254740993.00" here;
  - on overflow: a price of 400 digits is `inf` under `float()`, so Python
    writes "inf" (or "nan" for `inf / inf`), where the model prints the
    digits.
  Numbers.Product and Numbers.ParseFloat have the same differences.
- Numbers.ParseInt: no limit on the number of digits. CPython 3.11 and later
  raises `ValueError` in `int()` for text of more than 4300 digits, which the
  model accepts.
- Text.IsDigit: ASCII digits only. Python's `isdigit` and `\d` also accept
  other Unicode digits.

