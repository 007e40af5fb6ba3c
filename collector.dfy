/**
 * `OptimizedDataCollector.fetch_content` after the page text has been
 * extracted, one pass of the `collect_and_save_data` loop, and the loop's
 * pause after a pass.  Fetching the page and extracting its text are not
 * modelled: their outcome is the `extracted` parameter (`None` for no
 * content or any failure, which `fetch_content` turns into `None` as well).
 */
module Collector {
  import opened Options
  import opened Store

  /** The placeholder text the loop never saves. */
  const NO_PRODUCT := "No product information available"

  /** What `fetch_content` returns: the extracted text when it is non-empty and
      differs from the previous one, `None` otherwise. */
  function Fetched(last: string, extracted: Option<string>): (r: Option<string>)
    ensures r.Some? <==> extracted.Some? && extracted.value != "" && extracted.value != last
    ensures r.Some? ==> r == extracted
  {
    match extracted
    case Some(content) => if content != "" && content != last then Some(content) else None
    case None => None
  }

  /** `self.last_content` after `fetch_content`: the new text when there was one. */
  function LastAfter(last: string, extracted: Option<string>): string
  {
    match Fetched(last, extracted)
    case Some(content) => content
    case None => last
  }

  /** The same text twice in a row is new at most once. */
  lemma FetchedTwice(last: string, content: string)
    ensures Fetched(LastAfter(last, Some(content)), Some(content)).None?
  {
  }

  /** The loop's save test: content that is non-empty, not the placeholder, and
      not the stored last `raw_content`. */
  predicate ShouldSave(content: Option<string>, storedLast: Option<string>)
  {
    content.Some? && content.value != "" && content.value != NO_PRODUCT && content != storedLast
  }

  /** How one pass of the loop ends, one per message it logs. */
  datatype Outcome = NoValidContent | Unchanged | Saved | SaveFailed

  /** The state the loop carries between passes: the collector's previous text
      and the data file. */
  datatype LoopState = LoopState(last: string, stored: Stored)

  /** One pass of the loop, as a function of the state before it. */
  function Pass(s: LoopState, url: string, extracted: Option<string>, now: string): (LoopState, Outcome)
  {
    var content := Fetched(s.last, extracted);
    var last := LastAfter(s.last, extracted);
    if !(content.Some? && content.value != NO_PRODUCT) then (LoopState(last, s.stored), NoValidContent)
    else if !ShouldSave(content, LastContentOf(s.stored)) then (LoopState(last, s.stored), Unchanged)
    else if s.stored.Unreadable? then (LoopState(last, s.stored), SaveFailed)
    else (LoopState(last, SavedState(s.stored, NewEntry(now, url, content.value))), Saved)
  }

  /** A pass writes the file only when it saves, and what it writes is the old
      list with one entry for the new text, whose `sales_data` is its parse. */
  lemma PassWrites(s: LoopState, url: string, extracted: Option<string>, now: string)
    ensures var (t, outcome) := Pass(s, url, extracted, now);
      && (outcome != Saved ==> t.stored == s.stored)
      && (outcome == Saved <==>
            ShouldSave(Fetched(s.last, extracted), LastContentOf(s.stored)) && s.stored.Readable?)
      && (outcome == Saved ==>
            && extracted.Some?
            && t.stored == Readable(Appended(s.stored.entries, NewEntry(now, url, extracted.value)))
            && LastContentOf(t.stored) == extracted)
  {
    var (t, outcome) := Pass(s, url, extracted, now);
    if outcome == Saved {
      SaveThenLastContent(s.stored, now, url, extracted.value);
    }
  }

  /** The placeholder text is never saved. */
  lemma PlaceholderNeverSaved(s: LoopState, url: string, now: string)
    ensures Pass(s, url, Some(NO_PRODUCT), now).0.stored == s.stored
  {
  }

  /** Two passes that see the same text save it at most once: the second pass
      finds it either as the collector's previous text or as the file's last
      `raw_content`. */
  lemma {:induction false} SameTextSavedOnce(s: LoopState, url: string, content: string, now: string, later: string)
    ensures var (t, first) := Pass(s, url, Some(content), now);
      Pass(t, url, Some(content), later).1 != Saved
  {
    var (t, first) := Pass(s, url, Some(content), now);
    if first == Saved {
      PassWrites(s, url, Some(content), now);
    }
  }

  /** Even with a fresh collector (after a restart, `last_content` is ""), text
      equal to the file's last `raw_content` is not saved again. */
  lemma StoredTextNotResaved(stored: Stored, url: string, content: string, now: string)
    requires LastContentOf(stored) == Some(content)
    ensures Pass(LoopState("", stored), url, Some(content), now).0.stored == stored
  {
  }

  /** `consecutive_errors` after a pass and the seconds the loop then sleeps:
      a pass without an exception resets the count and waits `normal`; a
      failing pass waits `error`, or twice that from the fifth failure in a
      row on. */
  function Pause(errors: nat, failed: bool, normal: int, error: int): (r: (nat, int))
    ensures !failed ==> r == (0, normal)
    ensures failed ==> r.0 == errors + 1
    ensures failed ==> r.1 == if errors + 1 >= 5 then 2 * error else error
  {
    if !failed then (0, normal)
    else
      var count := errors + 1;
      (count, if count >= 5 then error * 2 else error)
  }

  /** `consecutive_errors` after passes that failed (`true`) or not, in order. */
  function ErrorCount(failures: seq<bool>): nat
  {
    if failures == [] then 0
    else Pause(ErrorCount(failures[..|failures| - 1]), failures[|failures| - 1], 0, 0).0
  }

  /** The count is the number of passes that failed since the last one that did
      not: the trailing run of failures. */
  lemma {:induction false} ErrorCountIsStreak(failures: seq<bool>)
    ensures var n := ErrorCount(failures);
      && n <= |failures|
      && (forall j :: |failures| - n <= j < |failures| ==> failures[j])
      && (n < |failures| ==> !failures[|failures| - n - 1])
  {
    if failures != [] {
      ErrorCountIsStreak(failures[..|failures| - 1]);
    }
  }

  /** After a failing pass the loop sleeps twice `error` exactly when that pass
      and the four before it all failed. */
  lemma DoubledAfterFiveFailures(failures: seq<bool>, normal: int, error: int)
    requires failures != [] && failures[|failures| - 1]
    ensures Pause(ErrorCount(failures[..|failures| - 1]), true, normal, error).1
      == if |failures| >= 5 && forall j :: |failures| - 5 <= j < |failures| ==> failures[j]
         then 2 * error else error
  {
    ErrorCountIsStreak(failures);
    ErrorCountIsStreak(failures[..|failures| - 1]);
  }

  class DataCollector {
    const url: string
    /** The text of the previous page that was new. */
    var lastContent: string

    constructor (url: string)
      ensures this.url == url && lastContent == ""
    {
      this.url := url;
      lastContent := "";
    }

    /** `fetch_content` once the page's text is `extracted`. */
    method FetchContent(extracted: Option<string>) returns (content: Option<string>)
      modifies this
      ensures content == Fetched(old(lastContent), extracted)
      ensures lastContent == LastAfter(old(lastContent), extracted)
    {
      content := None;
      if extracted.Some? {
        var text := extracted.value;
        if text != "" && text != lastContent {
          lastContent := text;
          content := Some(text);
        }
      }
    }
  }

  /** One pass of `collect_and_save_data` with its collector and data manager. */
  method CollectOnce(collector: DataCollector, manager: DataManager, extracted: Option<string>, now: string)
    returns (outcome: Outcome)
    modifies collector, manager
    ensures (LoopState(collector.lastContent, manager.stored), outcome)
      == Pass(LoopState(old(collector.lastContent), old(manager.stored)), collector.url, extracted, now)
  {
    var content := collector.FetchContent(extracted);
    if content.Some? && content.value != "" && content.value != NO_PRODUCT {
      var last := manager.LastContent();
      if content != last {
        var ok := manager.SaveData(collector.url, content.value, now);
        outcome := if ok then Saved else SaveFailed;
      } else {
        outcome := Unchanged;
      }
    } else {
      outcome := NoValidContent;
    }
  }
}
