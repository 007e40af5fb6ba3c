/**
 * `DataManager` of app.py: the JSON data file as a list of entries that
 * `save_data` appends to, keeping at most the newest 1000, and that
 * `get_last_content` and `load_data` read.  The file is held in memory as a
 * `Stored` value; a file that cannot be read or parsed is `Unreadable`.
 */
module Store {
  import opened Options
  import opened Receipt

  /** `save_data` keeps only the last 1000 entries. */
  const MAX_ENTRIES: nat := 1000

  /** One element of the JSON list: `timestamp`, `url`, `raw_content` and
      `sales_data` (`None` is the `{}` stored for empty content). */
  datatype Entry = Entry(timestamp: string, url: string, rawContent: string, salesData: Option<SalesData>)

  /** The data file: a readable list of entries, or one that fails to load. */
  datatype Stored = Readable(entries: seq<Entry>) | Unreadable

  /** The entry `save_data` builds for `content` at time `now`. */
  function NewEntry(now: string, url: string, content: string): (e: Entry)
    ensures e.rawContent == content && e.url == url && e.timestamp == now
    ensures e.salesData.None? <==> content == ""
  {
    Entry(now, url, content, SalesDataOf(content))
  }

  /** The list after `data.append(entry)` and `data = data[-1000:]` when longer. */
  function Appended(entries: seq<Entry>, e: Entry): seq<Entry>
  {
    var data := entries + [e];
    if |data| > MAX_ENTRIES then data[|data| - MAX_ENTRIES..] else data
  }

  /** Saving keeps the newest entries in their order, ends with the new one, and
      holds min(n + 1, 1000) of them; below the bound nothing is dropped, at
      the bound exactly the oldest is. */
  lemma AppendedKeepsNewest(entries: seq<Entry>, e: Entry)
    ensures var r := Appended(entries, e);
      && |r| == (if |entries| < MAX_ENTRIES then |entries| + 1 else MAX_ENTRIES)
      && r[|r| - 1] == e
      && r == (entries + [e])[|entries| + 1 - |r|..]
      && (|entries| < MAX_ENTRIES ==> r == entries + [e])
      && (|entries| == MAX_ENTRIES ==> r == entries[1..] + [e])
  {
    if |entries| == MAX_ENTRIES {
      assert (entries + [e])[1..] == entries[1..] + [e];
    }
  }

  /** A file that somehow holds more than 1000 entries is cut down to the
      newest 1000 by the next save. */
  lemma AppendedBounded(entries: seq<Entry>, e: Entry)
    ensures |Appended(entries, e)| <= MAX_ENTRIES
    ensures |Appended(entries, e)| == if |entries| < MAX_ENTRIES then |entries| + 1 else MAX_ENTRIES
    ensures Appended(entries, e)[|Appended(entries, e)| - 1] == e
  {
  }

  /** `get_last_content` on a file: the last entry's `raw_content`, `None` for
      an empty list or a file that fails to load. */
  function LastContentOf(stored: Stored): (r: Option<string>)
    ensures r.Some? <==> stored.Readable? && stored.entries != []
    ensures r.Some? ==> r.value == stored.entries[|stored.entries| - 1].rawContent
  {
    match stored
    case Unreadable => None
    case Readable(entries) => if entries == [] then None else Some(entries[|entries| - 1].rawContent)
  }

  /** `load_data`: the entries, or `[]` when the file fails to load. */
  function EntriesOf(stored: Stored): (r: seq<Entry>)
    ensures stored.Unreadable? ==> r == []
    ensures stored.Readable? ==> r == stored.entries
  {
    match stored
    case Unreadable => []
    case Readable(entries) => entries
  }

  /** What `save_data` leaves in the file: the new list when the file loads,
      the file as it was otherwise. */
  function SavedState(stored: Stored, e: Entry): Stored
  {
    match stored
    case Unreadable => Unreadable
    case Readable(entries) => Readable(Appended(entries, e))
  }

  /** Round trip: after a save that succeeds, `get_last_content` returns the
      saved content and `load_data` ends with the saved entry. */
  lemma SaveThenLastContent(stored: Stored, now: string, url: string, content: string)
    requires stored.Readable?
    ensures LastContentOf(SavedState(stored, NewEntry(now, url, content))) == Some(content)
    ensures var saved := EntriesOf(SavedState(stored, NewEntry(now, url, content)));
      saved != [] && saved[|saved| - 1] == NewEntry(now, url, content)
  {
    AppendedBounded(stored.entries, NewEntry(now, url, content));
  }

  class DataManager {
    /** The data file's content. */
    var stored: Stored

    /** `_ensure_data_file`: a missing file (`None`) is created holding `[]`. */
    constructor (existing: Option<Stored>)
      ensures stored == if existing.None? then Readable([]) else existing.value
    {
      stored := if existing.None? then Readable([]) else existing.value;
    }

    /** `get_last_content` */
    function LastContent(): Option<string>
      reads this
    {
      LastContentOf(stored)
    }

    /** `load_data` */
    function LoadData(): seq<Entry>
      reads this
    {
      EntriesOf(stored)
    }

    /** `save_data(url, content)` with `now` as `datetime.now().isoformat()`:
        `false` and nothing written when the file fails to load; otherwise the
        entry is appended, the list cut to its newest 1000, and `true`. */
    method SaveData(url: string, content: string, now: string) returns (ok: bool)
      modifies this
      ensures ok <==> old(stored).Readable?
      ensures stored == SavedState(old(stored), NewEntry(now, url, content))
      ensures ok ==> LastContent() == Some(content)
    {
      if stored.Unreadable? {
        return false;
      }
      var salesData := ExtractSalesData(content);
      SaveThenLastContent(stored, now, url, content);
      stored := Readable(Appended(stored.entries, Entry(now, url, content, salesData)));
      ok := true;
    }
  }
}
