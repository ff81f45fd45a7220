/**
 * scrap_berwarna.ts's `HistoryManager`: a most-recently-used list of the
 * comics opened, kept in memory and mirrored to a history file. Adding a
 * comic moves it (or puts it) at the front, dropping the earlier entry with
 * the same URL and, when the list grows past MAX_HISTORY, the oldest entry.
 */
module History {
  import opened Wrappers
  import opened Selection

  /** CONFIG.MAX_HISTORY. */
  const MAX_HISTORY: nat := 10

  /** One `ComicHistory` record; `lastAccessed` is the ISO timestamp taken when it was added. */
  datatype Entry = Entry(url: string, title: string, lastAccessed: string)

  /**
   * What reading the history file gives: no file, a read or JSON error, or
   * the list it holds.
   */
  datatype HistoryFile = Missing | Unreadable | Holds(entries: seq<Entry>)

  /** The URLs of the entries, in order. */
  function Urls(h: seq<Entry>): seq<string> {
    seq(|h|, i requires 0 <= i < |h| => h[i].url)
  }

  /** No URL occurs twice in the list. */
  predicate UniqueUrls(h: seq<Entry>) {
    forall i, j :: 0 <= i < j < |h| ==> h[i].url != h[j].url
  }

  /** `loadHistory`: a missing file keeps the list, an error empties it, otherwise the file's list replaces it. */
  function Loaded(file: HistoryFile, current: seq<Entry>): seq<Entry> {
    match file
    case Missing => current
    case Unreadable => []
    case Holds(entries) => entries
  }

  /** The list after `findIndex` by URL and `splice(existingIndex, 1)`: the first entry with `url` removed, if any. */
  function Without(h: seq<Entry>, url: string): seq<Entry> {
    var i := FindIndex(Urls(h), url);
    if i == -1 then h else h[..i] + h[i + 1..]
  }

  /** `addToHistory` on the list: remove the entry with the same URL, `unshift` the new one, `pop` once if too long. */
  function AddEntry(h: seq<Entry>, e: Entry, max: nat): seq<Entry> {
    var pushed := [e] + Without(h, e.url);
    if |pushed| > max then pushed[..|pushed| - 1] else pushed
  }

  /** `getUrlByIndex`: `history[index - 1]?.url || null`, so 1-based and `None` for a missing entry or an empty URL. */
  function UrlByIndex(h: seq<Entry>, index: int): (r: Option<string>)
    ensures r.Some? <==> 1 <= index <= |h| && h[index - 1].url != ""
    ensures r.Some? ==> r.value == h[index - 1].url
  {
    if 1 <= index <= |h| && h[index - 1].url != "" then Some(h[index - 1].url) else None
  }

  /** When no entry has `url`, nothing is removed. */
  lemma WithoutAbsent(h: seq<Entry>, url: string)
    requires forall j :: 0 <= j < |h| ==> h[j].url != url
    ensures Without(h, url) == h
  {
    assert url !in Urls(h) by {
      forall j | 0 <= j < |h| ensures Urls(h)[j] != url {
      }
    }
  }

  /** Only the first entry with `url` is removed; entries before and after it keep their order. */
  lemma WithoutFirstOccurrence(h: seq<Entry>, url: string, i: nat)
    requires i < |h| && h[i].url == url
    requires forall j :: 0 <= j < i ==> h[j].url != url
    ensures Without(h, url) == h[..i] + h[i + 1..]
  {
    var urls := Urls(h);
    assert urls[i] == url;
    assert url !in urls[..i];
  }

  /** Removing the first entry with `url` keeps the URLs unique, and `url` no longer occurs. */
  lemma WithoutUnique(h: seq<Entry>, url: string)
    requires UniqueUrls(h)
    ensures UniqueUrls(Without(h, url))
    ensures forall j :: 0 <= j < |Without(h, url)| ==> Without(h, url)[j].url != url
  {
    var urls := Urls(h);
    var k := FindIndex(urls, url);
    if k == -1 {
      forall j | 0 <= j < |h| ensures h[j].url != url {
        assert urls[j] == h[j].url;
      }
    } else {
      var w := h[..k] + h[k + 1..];
      assert h[k].url == url by { assert urls[k] == h[k].url; }
      forall a, b | 0 <= a < b < |w| ensures w[a].url != w[b].url {
        var a', b' := if a < k then a else a + 1, if b < k then b else b + 1;
        assert w[a] == h[a'] && w[b] == h[b'];
      }
      forall j | 0 <= j < |w| ensures w[j].url != url {
        var j' := if j < k then j else j + 1;
        assert w[j] == h[j'];
      }
    }
  }

  /**
   * After adding `e` (with room for at least one entry) the new entry is at
   * index 0, and the rest is the earlier list without its first entry with
   * the same URL, in the same order; exactly one tail entry is cut, and only
   * when the list would otherwise exceed `max`.
   */
  lemma AddEntryShape(h: seq<Entry>, e: Entry, max: nat)
    requires max >= 1
    ensures var r := AddEntry(h, e, max); var w := Without(h, e.url);
      && |r| >= 1 && r[0] == e
      && |r| == (if |w| + 1 > max then |w| else |w| + 1)
      && r[1..] == w[..|r| - 1]
  {
    var w := Without(h, e.url);
    var pushed := [e] + w;
    assert pushed[1..] == w;
  }

  /** Re-adding a URL already in the list does not make the list longer. */
  lemma AddEntryNoGrowth(h: seq<Entry>, e: Entry, max: nat, i: nat)
    requires i < |h| && h[i].url == e.url
    ensures |AddEntry(h, e, max)| <= |h|
  {
    var urls := Urls(h);
    assert urls[i] == e.url;
    assert e.url in urls;
  }

  /** A list within MAX_HISTORY stays within it. */
  lemma AddEntryBounded(h: seq<Entry>, e: Entry, max: nat)
    requires |h| <= max
    ensures |AddEntry(h, e, max)| <= max
  {
  }

  /** Adding a new URL to a list with room for it evicts nothing: the entry goes in front of the whole list. */
  lemma AddEntryWithRoom(h: seq<Entry>, e: Entry, max: nat)
    requires |h| < max
    requires forall j :: 0 <= j < |h| ==> h[j].url != e.url
    ensures AddEntry(h, e, max) == [e] + h
  {
    WithoutAbsent(h, e.url);
  }

  /** Adding a new URL to a full list evicts the oldest entry, the last one. */
  lemma AddEntryEvictsOldest(h: seq<Entry>, e: Entry, max: nat)
    requires max >= 1 && |h| == max
    requires forall j :: 0 <= j < |h| ==> h[j].url != e.url
    ensures AddEntry(h, e, max) == [e] + h[..max - 1]
  {
    WithoutAbsent(h, e.url);
    assert ([e] + h)[..max] == [e] + h[..max - 1];
  }

  /** Adding keeps the URLs of the list unique. */
  lemma AddEntryKeepsUrlsUnique(h: seq<Entry>, e: Entry, max: nat)
    requires UniqueUrls(h)
    ensures UniqueUrls(AddEntry(h, e, max))
  {
    var w := Without(h, e.url);
    WithoutUnique(h, e.url);
    var pushed := [e] + w;
    forall a, b | 0 <= a < b < |pushed| ensures pushed[a].url != pushed[b].url {
      if a > 0 {
        assert pushed[a] == w[a - 1] && pushed[b] == w[b - 1];
      } else {
        assert pushed[b] == w[b - 1];
      }
    }
    var r := AddEntry(h, e, max);
    forall a, b | 0 <= a < b < |r| ensures r[a].url != r[b].url {
      assert r[a] == pushed[a] && r[b] == pushed[b];
    }
  }

  /** The comic just added is history entry number 1. */
  lemma AddEntryThenFirst(h: seq<Entry>, e: Entry, max: nat)
    requires max >= 1 && e.url != ""
    ensures UrlByIndex(AddEntry(h, e, max), 1) == Some(e.url)
  {
    AddEntryShape(h, e, max);
  }

  /**
   * The in-memory history and the history file. Every change to the list
   * goes through `addToHistory`, which writes the file afterwards.
   */
  class HistoryManager {
    var history: seq<Entry>
    var file: HistoryFile

    /** `new HistoryManager()`: an empty list, then `loadHistory`. */
    constructor (stored: HistoryFile)
      ensures file == stored
      ensures history == Loaded(stored, [])
    {
      history := [];
      file := stored;
      new;
      LoadHistory();
    }

    /** `loadHistory`. */
    method LoadHistory()
      modifies this
      ensures file == old(file)
      ensures history == Loaded(file, old(history))
    {
      match file
      case Missing =>
      case Unreadable => history := [];
      case Holds(entries) => history := entries;
    }

    /** `saveHistory`: the list is written when the file can be written; an error is swallowed. The list never changes. */
    method SaveHistory(writable: bool)
      modifies this
      ensures history == old(history)
      ensures file == if writable then Holds(history) else old(file)
    {
      if writable {
        file := Holds(history);
      }
    }

    /** `addToHistory(url, title)` at time `now`. */
    method AddToHistory(url: string, title: string, now: string, writable: bool)
      modifies this
      ensures history == AddEntry(old(history), Entry(url, title, now), MAX_HISTORY)
      ensures file == if writable then Holds(history) else old(file)
    {
      var existingIndex := FindIndex(Urls(history), url);
      var newEntry := Entry(url, title, now);
      if existingIndex != -1 {
        history := history[..existingIndex] + history[existingIndex + 1..];
      }
      history := [newEntry] + history;
      if |history| > MAX_HISTORY {
        history := history[..|history| - 1];
      }
      SaveHistory(writable);
    }

    /** `getUrlByIndex(index)`. */
    method GetUrlByIndex(index: int) returns (url: Option<string>)
      ensures url.Some? <==> 1 <= index <= |history| && history[index - 1].url != ""
      ensures url.Some? ==> url.value == history[index - 1].url
    {
      url := UrlByIndex(history, index);
    }
  }
}
