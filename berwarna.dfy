/**
 * scrap_berwarna.ts: the One Piece colour downloader. It picks a comic from
 * the history or a pasted URL, lists chapters "1" to "1200", offers to resume
 * after the highest chapter already on disk, and runs the always-upscale
 * variant of the per-chapter pipeline on each chapter of the range in turn,
 * writing to `OUTPUT_DIR/one-piece-berwarna-indo/<chapter>`.
 */
module Berwarna {
  import opened Wrappers
  import opened Strings
  import opened Numerals
  import opened Disk
  import opened Pipeline
  import opened Selection
  import opened History

  /** The title directory every chapter is written under, whatever the comic's title. */
  const TITLE_DIR := "one-piece-berwarna-indo"

  /** `latest` in `listChapters`: the number of the newest chapter. */
  const LATEST: nat := 1200

  const CHAPTER_MARKER := "one-piece-berwarna-chapter-"

  const SITE := "https://onepieceberwarna.com/"

  // ---------------------------------------------------------------------
  // Image sources

  /**
   * The filter in `scrapeImages`: the source ends in ".jpg", ".jpeg" or ".png"
   * and holds none of "logo", "banner", "iklan", "ads", "wp-content/themes",
   * all compared without regard to case.
   */
  predicate KeepSrc(src: string) {
    var s := Lower(src);
    && (EndsWith(s, ".jpg") || EndsWith(s, ".jpeg") || EndsWith(s, ".png"))
    && !Includes(s, "logo") && !Includes(s, "banner") && !Includes(s, "iklan")
    && !Includes(s, "ads") && !Includes(s, "wp-content/themes")
  }

  /** Lower case is idempotent. */
  lemma LowerTwice(s: string)
    ensures Lower(Lower(s)) == Lower(s)
  {
    forall i | 0 <= i < |s| ensures Lower(Lower(s))[i] == Lower(s)[i] {
      assert Lower(s)[i] == LowerChar(s[i]);
    }
  }

  /** The filter does not depend on case: a source and its lower-case form are kept alike. */
  lemma KeepSrcIgnoresCase(src: string)
    ensures KeepSrc(Lower(src)) == KeepSrc(src)
  {
    LowerTwice(src);
  }

  /** The images `scrapeImages` returns: the page's images whose source passes the filter, in page order. */
  function KeptPages(pages: seq<Page>): seq<Page>
    decreases |pages|
  {
    if pages == [] then []
    else (if KeepSrc(pages[0].src) then [pages[0]] else []) + KeptPages(pages[1..])
  }

  /** The kept images are exactly the page's images that pass the filter. */
  lemma {:induction false} KeptPagesMembers(pages: seq<Page>)
    ensures forall p :: p in KeptPages(pages) <==> p in pages && KeepSrc(p.src)
    ensures |KeptPages(pages)| <= |pages|
    decreases |pages|
  {
    if pages != [] {
      KeptPagesMembers(pages[1..]);
      assert pages == [pages[0]] + pages[1..];
    }
  }

  /** Filtering keeps page order: filtering two runs of images one after the other is filtering their concatenation. */
  lemma {:induction false} KeptPagesConcat(a: seq<Page>, b: seq<Page>)
    ensures KeptPages(a + b) == KeptPages(a) + KeptPages(b)
    decreases |a|
  {
    if a == [] {
      assert a + b == b;
    } else {
      KeptPagesConcat(a[1..], b);
      assert (a + b)[0] == a[0];
      assert (a + b)[1..] == a[1..] + b;
      var head := if KeepSrc(a[0].src) then [a[0]] else [];
      assert KeptPages(a + b) == head + KeptPages(a[1..] + b);
      assert KeptPages(a) == head + KeptPages(a[1..]);
      assert head + (KeptPages(a[1..]) + KeptPages(b)) == (head + KeptPages(a[1..])) + KeptPages(b);
    }
  }

  /** `api.scrapeImages(url)` with the page's images supplied by `scraped`. */
  function ScrapeImages(scraped: map<string, seq<Page>>, url: string): seq<Page> {
    KeptPages(Scrape(scraped, url))
  }

  // ---------------------------------------------------------------------
  // Title and chapter list

  /** `/one-piece-berwarna-chapter-(\d+)/i` matches: the marker, in any case, followed by a digit. */
  predicate HasChapterMarker(url: string) {
    exists i: nat | i + |CHAPTER_MARKER| < |url| ::
      MatchAt(Lower(url), CHAPTER_MARKER, i) && IsDigit(url[i + |CHAPTER_MARKER|])
  }

  /** `api.getComicTitle(url)`. */
  function ComicTitle(url: string): string {
    if HasChapterMarker(url) then "one-piece-berwarna" else "unknown"
  }

  /** The page `processChapter` scrapes for chapter `chapterNum`. */
  function ChapterPageUrl(chapterNum: string): string {
    SITE + CHAPTER_MARKER + chapterNum + "/"
  }

  /** Lower case works character by character. */
  lemma LowerConcat(a: string, b: string)
    ensures Lower(a + b) == Lower(a) + Lower(b)
  {
  }

  /** Text without capital letters is its own lower case. */
  lemma LowerOfLowercase(s: string)
    requires forall i :: 0 <= i < |s| ==> !('A' <= s[i] <= 'Z')
    ensures Lower(s) == s
  {
    forall i | 0 <= i < |s| ensures Lower(s)[i] == s[i] {
      assert Lower(s)[i] == LowerChar(s[i]);
    }
  }

  /** A chapter page address the script builds, pasted as the comic URL, is titled "one-piece-berwarna". */
  lemma ChapterPageTitled(chapterNum: string)
    requires chapterNum != [] && IsDigit(chapterNum[0])
    ensures ComicTitle(ChapterPageUrl(chapterNum)) == "one-piece-berwarna"
  {
    var url := ChapterPageUrl(chapterNum);
    var tail := chapterNum + "/";
    assert url == SITE + CHAPTER_MARKER + tail;
    LowerOfLowercase(SITE);
    LowerOfLowercase(CHAPTER_MARKER);
    LowerConcat(SITE + CHAPTER_MARKER, tail);
    LowerConcat(SITE, CHAPTER_MARKER);
    var i: nat := |SITE|;
    assert Lower(url) == SITE + CHAPTER_MARKER + Lower(tail);
    assert Lower(url)[i..i + |CHAPTER_MARKER|] == CHAPTER_MARKER;
    assert MatchAt(Lower(url), CHAPTER_MARKER, i);
    assert url[i + |CHAPTER_MARKER|] == chapterNum[0];
    assert HasChapterMarker(url);
  }

  /** A URL that does not hold the marker in any case is titled "unknown". */
  lemma UnmarkedUrlUnknown(url: string)
    requires !Includes(Lower(url), CHAPTER_MARKER)
    ensures ComicTitle(url) == "unknown"
  {
  }

  /** `api.listChapters()`: "1" up to "1200", in order. */
  function ListChapters(): seq<string> {
    seq(LATEST, i requires 0 <= i < LATEST => NatToString(i + 1))
  }

  /** Chapter "n" of the list sits at index n-1, and every other text is absent. */
  lemma ChapterPosition(n: nat)
    ensures 1 <= n <= LATEST ==> FindIndex(ListChapters(), NatToString(n)) == n - 1
    ensures !(1 <= n <= LATEST) ==> FindIndex(ListChapters(), NatToString(n)) == -1
  {
    var chapters := ListChapters();
    var r := FindIndex(chapters, NatToString(n));
    if r != -1 {
      assert chapters[r] == NatToString(r + 1);
      NatToStringInjective(r + 1, n);
    }
    if 1 <= n <= LATEST {
      assert chapters[n - 1] == NatToString(n);
    }
  }

  // ---------------------------------------------------------------------
  // Chapters already on disk

  /**
   * The number `parseFloat` reads from a chapter directory name, taken as its
   * leading decimal digits; -1 stands for NaN.
   */
  function ChapterNumber(name: string): int {
    var d := DigitPrefix(name);
    if d == [] then -1 else DigitsValue(d)
  }

  /** A chapter name written by the script reads back as its number. */
  lemma ChapterNumberOf(n: nat)
    ensures ChapterNumber(NatToString(n)) == n
  {
    DigitPrefixOfDigits(NatToString(n));
    DigitsValueOfNatToString(n);
  }

  /** The names in ascending chapter-number order. */
  predicate SortedByNumber(names: seq<string>) {
    forall i, j :: 0 <= i < j < |names| ==> ChapterNumber(names[i]) <= ChapterNumber(names[j])
  }

  /** One insertion step of a stable sort: `x` goes after every name whose number is not larger. */
  function InsertByNumber(x: string, sorted: seq<string>): seq<string>
    decreases |sorted|
  {
    if sorted == [] || ChapterNumber(x) < ChapterNumber(sorted[0]) then [x] + sorted
    else [sorted[0]] + InsertByNumber(x, sorted[1..])
  }

  /** `.sort((a, b) => parseFloat(a) - parseFloat(b))`, as a stable insertion sort. */
  function SortByNumber(names: seq<string>): seq<string>
    decreases |names|
  {
    if names == [] then []
    else InsertByNumber(names[|names| - 1], SortByNumber(names[..|names| - 1]))
  }

  /** Every name in `names` has a number of at least `low`. */
  predicate NumbersAtLeast(names: seq<string>, low: int) {
    forall i :: 0 <= i < |names| ==> low <= ChapterNumber(names[i])
  }

  lemma SortedCons(x: string, rest: seq<string>)
    requires SortedByNumber(rest) && NumbersAtLeast(rest, ChapterNumber(x))
    ensures SortedByNumber([x] + rest)
  {
    var r := [x] + rest;
    forall i, j | 0 <= i < j < |r| ensures ChapterNumber(r[i]) <= ChapterNumber(r[j]) {
      assert r[j] == rest[j - 1];
      if i > 0 {
        assert r[i] == rest[i - 1];
      }
    }
  }

  lemma SortedTail(sorted: seq<string>)
    requires sorted != [] && SortedByNumber(sorted)
    ensures SortedByNumber(sorted[1..]) && NumbersAtLeast(sorted[1..], ChapterNumber(sorted[0]))
  {
    var rest := sorted[1..];
    forall i | 0 <= i < |rest| ensures ChapterNumber(sorted[0]) <= ChapterNumber(rest[i]) {
      assert rest[i] == sorted[i + 1];
    }
    forall i, j | 0 <= i < j < |rest| ensures ChapterNumber(rest[i]) <= ChapterNumber(rest[j]) {
      assert rest[i] == sorted[i + 1] && rest[j] == sorted[j + 1];
    }
  }

  /** Inserting a name whose number is at least `low` into names whose numbers are keeps that lower bound. */
  lemma {:induction false} InsertByNumberAtLeast(x: string, names: seq<string>, low: int)
    requires NumbersAtLeast(names, low) && low <= ChapterNumber(x)
    ensures NumbersAtLeast(InsertByNumber(x, names), low)
    decreases |names|
  {
    if names != [] && ChapterNumber(x) >= ChapterNumber(names[0]) {
      var rest := names[1..];
      assert NumbersAtLeast(rest, low) by {
        forall i | 0 <= i < |rest| ensures low <= ChapterNumber(rest[i]) {
          assert rest[i] == names[i + 1];
        }
      }
      InsertByNumberAtLeast(x, rest, low);
      var r := [names[0]] + InsertByNumber(x, rest);
      forall i | 0 <= i < |r| ensures low <= ChapterNumber(r[i]) {
        if i > 0 {
          assert r[i] == InsertByNumber(x, rest)[i - 1];
        }
      }
    } else {
      var r := [x] + names;
      forall i | 0 <= i < |r| ensures low <= ChapterNumber(r[i]) {
        if i > 0 {
          assert r[i] == names[i - 1];
        }
      }
    }
  }

  lemma {:induction false} InsertByNumberSorted(x: string, sorted: seq<string>)
    requires SortedByNumber(sorted)
    ensures SortedByNumber(InsertByNumber(x, sorted))
    decreases |sorted|
  {
    if sorted == [] {
      SortedCons(x, sorted);
    } else if ChapterNumber(x) < ChapterNumber(sorted[0]) {
      SortedTail(sorted);
      assert NumbersAtLeast(sorted, ChapterNumber(x)) by {
        forall i | 0 <= i < |sorted| ensures ChapterNumber(x) <= ChapterNumber(sorted[i]) {
          if i > 0 {
            assert sorted[i] == sorted[1..][i - 1];
          }
        }
      }
      SortedCons(x, sorted);
    } else {
      SortedTail(sorted);
      InsertByNumberSorted(x, sorted[1..]);
      InsertByNumberAtLeast(x, sorted[1..], ChapterNumber(sorted[0]));
      SortedCons(sorted[0], InsertByNumber(x, sorted[1..]));
    }
  }

  lemma {:induction false} InsertByNumberPermutes(x: string, sorted: seq<string>)
    ensures multiset(InsertByNumber(x, sorted)) == multiset(sorted) + multiset{x}
    decreases |sorted|
  {
    if sorted != [] && ChapterNumber(x) >= ChapterNumber(sorted[0]) {
      InsertByNumberPermutes(x, sorted[1..]);
      assert sorted == [sorted[0]] + sorted[1..];
    }
  }

  /** The sort orders the names by number and neither loses nor adds a name. */
  lemma {:induction false} SortByNumberCorrect(names: seq<string>)
    ensures SortedByNumber(SortByNumber(names))
    ensures multiset(SortByNumber(names)) == multiset(names)
    decreases |names|
  {
    if names != [] {
      var init := names[..|names| - 1];
      SortByNumberCorrect(init);
      InsertByNumberSorted(names[|names| - 1], SortByNumber(init));
      InsertByNumberPermutes(names[|names| - 1], SortByNumber(init));
      assert names == init + [names[|names| - 1]];
    }
  }

  /** The directory of the title, where it exists. */
  function TitleDirOf(tree: Tree): Option<TitleDir> {
    if TITLE_DIR in tree then Some(tree[TITLE_DIR]) else None
  }

  /** A chapter directory counted as downloaded: it exists and holds at least one ".png" file. */
  predicate HasPng(dir: TitleDir, name: string) {
    name in dir && PngNames(dir[name]) != {}
  }

  /** The `filter` in `getDownloadedChapters`; a listed name that is no directory is dropped. */
  function PngFolders(dir: TitleDir, names: seq<string>): seq<string>
    decreases |names|
  {
    if names == [] then []
    else (if HasPng(dir, names[0]) then [names[0]] else []) + PngFolders(dir, names[1..])
  }

  lemma {:induction false} PngFoldersMembers(dir: TitleDir, names: seq<string>)
    ensures forall x :: x in PngFolders(dir, names) <==> x in names && HasPng(dir, x)
    decreases |names|
  {
    if names != [] {
      PngFoldersMembers(dir, names[1..]);
      assert names == [names[0]] + names[1..];
    }
  }

  /** `readdirSync` names every entry of the directory, so every chapter directory is among `names`. */
  predicate ListsDirectories(dir: TitleDir, names: seq<string>) {
    forall c :: c in dir ==> c in names
  }

  /**
   * `utils.getDownloadedChapters()`: `titleDir` is the title directory if it
   * exists, `listing` what `readdirSync` lists in it (`None` where reading the
   * directories throws, which the `catch` turns into an empty list).
   */
  function DownloadedChapters(titleDir: Option<TitleDir>, listing: Option<seq<string>>): seq<string> {
    match titleDir
    case None => []
    case Some(dir) =>
      match listing
      case None => []
      case Some(names) => SortByNumber(PngFolders(dir, names))
  }

  /**
   * The downloaded chapters are the listed directories holding at least one
   * ".png" file (a partly downloaded chapter included), sorted by number, so
   * the last one has the highest number. When the listing names every
   * directory, as `readdirSync` does, every chapter directory holding a
   * ".png" file is among them.
   */
  lemma DownloadedChaptersSpec(dir: TitleDir, names: seq<string>)
    ensures var r := DownloadedChapters(Some(dir), Some(names));
      && SortedByNumber(r)
      && (forall x :: x in r <==> x in names && HasPng(dir, x))
      && (ListsDirectories(dir, names) ==> forall x :: x in r <==> HasPng(dir, x))
      && (r != [] ==> forall x :: x in r ==> ChapterNumber(x) <= ChapterNumber(r[|r| - 1]))
  {
    var kept := PngFolders(dir, names);
    var r := DownloadedChapters(Some(dir), Some(names));
    assert r == SortByNumber(kept);
    SortByNumberCorrect(kept);
    DownloadedMembers(dir, names);
    if r != [] {
      SortedLastIsHighest(r);
    }
    if ListsDirectories(dir, names) {
      ListedDirectoriesWithPng(dir, names);
      assert forall x :: x in r <==> HasPng(dir, x);
    }
  }

  lemma DownloadedMembers(dir: TitleDir, names: seq<string>)
    ensures forall x :: x in DownloadedChapters(Some(dir), Some(names)) <==> x in names && HasPng(dir, x)
  {
    var kept := PngFolders(dir, names);
    SortByNumberCorrect(kept);
    PngFoldersMembers(dir, names);
    SameMembers(SortByNumber(kept), kept);
  }

  lemma ListedDirectoriesWithPng(dir: TitleDir, names: seq<string>)
    requires ListsDirectories(dir, names)
    ensures forall x :: x in names && HasPng(dir, x) <==> HasPng(dir, x)
  {
  }

  lemma SameMembers(a: seq<string>, b: seq<string>)
    requires multiset(a) == multiset(b)
    ensures forall x :: x in a <==> x in b
  {
    forall x ensures x in a <==> x in b {
      assert x in a <==> x in multiset(a);
      assert x in b <==> x in multiset(b);
    }
  }

  lemma SortedLastIsHighest(r: seq<string>)
    requires r != [] && SortedByNumber(r)
    ensures forall x :: x in r ==> ChapterNumber(x) <= ChapterNumber(r[|r| - 1])
  {
    forall x | x in r ensures ChapterNumber(x) <= ChapterNumber(r[|r| - 1]) {
      var m :| 0 <= m < |r| && r[m] == x;
    }
  }

  /** No title directory, or an error while reading it, means nothing is downloaded. */
  lemma NothingDownloadedWithoutDirectory(tree: Tree, listing: Option<seq<string>>)
    requires TITLE_DIR !in tree || listing.None?
    ensures DownloadedChapters(TitleDirOf(tree), listing) == []
  {
  }

  /**
   * A chapter in which at least one image finished holds a ".png" file
   * afterwards, so a later run lists it among the downloaded chapters.
   */
  lemma FinishedChapterIsListed(tree: Tree, chapterNum: string, scraped: map<string, seq<Page>>, names: seq<string>, k: nat)
    requires chapterNum in names
    requires var outcome := ChapterEffect(AlwaysUpscale, tree, FolderPath(TITLE_DIR, chapterNum),
                                          ScrapeImages(scraped, ChapterPageUrl(chapterNum))).1;
      outcome.Processed? && k < |outcome.reports| && Succeeded(outcome.reports[k])
    ensures var after := ChapterStep(tree, chapterNum, scraped);
      TITLE_DIR in after && chapterNum in DownloadedChapters(TitleDirOf(after), Some(names))
  {
    var v, p := AlwaysUpscale, FolderPath(TITLE_DIR, chapterNum);
    var pages := ScrapeImages(scraped, ChapterPageUrl(chapterNum));
    var f := Contents(tree, p);
    EveryImageVisited(v, tree, p, pages);
    var before := ImagesEffect(v, f, pages, k).0;
    ImagePngs(v, before, k, pages[k]);
    assert ImagesEffect(v, f, pages, k + 1).0 == ImageEffect(v, before, k, pages[k]).0;
    PngsOnlyGrow(v, f, pages, k + 1, |pages|);
    var done := ImagesEffect(v, f, pages, |pages|).0;
    assert FinishedName(ChapterEffect(v, tree, p, pages).1.reports[k].outcome, k) in PngNames(done);
    var after := ChapterStep(tree, chapterNum, scraped);
    assert Lookup(after, p) == Some(done);
    DownloadedChaptersSpec(after[TITLE_DIR], names);
  }

  /** Later images never remove the ".png" files earlier ones left. */
  lemma {:induction false} PngsOnlyGrow(v: Variant, f: Folder, pages: seq<Page>, m: nat, n: nat)
    requires m <= n <= |pages|
    ensures PngNames(ImagesEffect(v, f, pages, m).0) <= PngNames(ImagesEffect(v, f, pages, n).0)
    decreases n - m
  {
    if m < n {
      PngsOnlyGrow(v, f, pages, m + 1, n);
      ImagePngs(v, ImagesEffect(v, f, pages, m).0, m, pages[m]);
    }
  }

  // ---------------------------------------------------------------------
  // Resume and selection in `start`

  /** `lastDownloadedChapter`, where it is truthy: the last downloaded chapter, unless there is none or it is "". */
  function LastDownloaded(downloaded: seq<string>): (r: Option<string>)
    ensures r.Some? ==> r.value != "" && r.value in downloaded
    ensures r.Some? ==> r.value == downloaded[|downloaded| - 1]
    ensures r.None? <==> downloaded == [] || downloaded[|downloaded| - 1] == ""
  {
    if downloaded != [] && downloaded[|downloaded| - 1] != "" then Some(downloaded[|downloaded| - 1]) else None
  }

  /** `(parseInt(last) + 1).toString()`; `NaN + 1` prints as "NaN". */
  function NextChapterName(last: string): string {
    match ParseInt(last)
    case None => "NaN"
    case Some(n) => IntToString(n + 1)
  }

  /** `nextChapterIndex`: where the chapter after the last downloaded one sits in the list, -1 when nowhere. */
  function ResumeIndex(chapters: seq<string>, downloaded: seq<string>): (r: int)
    ensures -1 <= r < |chapters|
    ensures r == -1 <==>
      LastDownloaded(downloaded).None? || NextChapterName(LastDownloaded(downloaded).value) !in chapters
    ensures r >= 0 ==>
      && LastDownloaded(downloaded).Some?
      && chapters[r] == NextChapterName(LastDownloaded(downloaded).value)
      && NextChapterName(LastDownloaded(downloaded).value) !in chapters[..r]
  {
    match LastDownloaded(downloaded)
    case None => -1
    case Some(last) => FindIndex(chapters, NextChapterName(last))
  }

  /**
   * Resuming after chapter `k` (the highest on disk) starts at chapter k+1,
   * which sits at index `k`; after the newest chapter there is nothing to resume.
   */
  lemma ResumeAfterChapter(downloaded: seq<string>, k: nat)
    requires downloaded != [] && downloaded[|downloaded| - 1] == NatToString(k)
    ensures ResumeIndex(ListChapters(), downloaded) == if k < LATEST then k else -1
  {
    ParseIntOfIntToString(k);
    assert NextChapterName(NatToString(k)) == NatToString(k + 1);
    ChapterPosition(k + 1);
  }

  /** A last chapter name with no leading number asks for chapter "NaN", which is never in the list. */
  lemma ResumeAfterUnnumbered(downloaded: seq<string>)
    requires downloaded != [] && ParseInt(downloaded[|downloaded| - 1]).None?
    ensures ResumeIndex(ListChapters(), downloaded) == -1
  {
    var chapters := ListChapters();
    forall i | 0 <= i < |chapters| ensures chapters[i] != "NaN" {
      assert chapters[i] == NatToString(i + 1);
      assert IsDigit(chapters[i][0]) && !IsDigit("NaN"[0]);
    }
  }

  /** Why `start` returns before downloading anything. */
  datatype StartError =
    | NoInput              // no history number or URL typed
    | InvalidHistoryIndex  // `getUrlByIndex` gave null
    | InvalidComicUrl      // the URL lacks "https://"
    | NoOption             // no download option typed
    | ResumeUnavailable    // option "2" with no next chapter
    | NoChapterInput       // option other than "2" and no chapter typed
    | ChapterNotFound      // the typed chapter is not in the list
    | InvalidCount         // the count is NaN or below 1

  /** `/^\d+$/`: the answer is a history number rather than a URL. */
  predicate IsHistoryNumber(s: string) {
    s != [] && AllDigits(s)
  }

  /**
   * The comic URL `start` settles on: a history number is looked up (its
   * `parseInt` is the value of its digits), anything else is taken as the URL,
   * and either must contain "https://".
   */
  function ChooseComicUrl(choice: Option<string>, h: seq<Entry>): (r: Result<string, StartError>)
    ensures r == Err(NoInput) <==> choice.None? || choice.value == ""
    ensures r.Ok? ==> Includes(r.value, "https://")
    ensures r.Ok? && IsHistoryNumber(choice.value) ==>
      1 <= DigitsValue(choice.value) <= |h| && r.value == h[DigitsValue(choice.value) - 1].url
    ensures r.Ok? && !IsHistoryNumber(choice.value) ==> r.value == choice.value
    ensures choice.Some? && IsHistoryNumber(choice.value) ==>
      var url := UrlByIndex(h, DigitsValue(choice.value));
      (r == Err(InvalidHistoryIndex) <==> url.None?)
      && (url.Some? && Includes(url.value, "https://") ==> r == Ok(url.value))
      && (url.Some? && !Includes(url.value, "https://") ==> r == Err(InvalidComicUrl))
    ensures choice.Some? && choice.value != "" && !IsHistoryNumber(choice.value) ==>
      && (r == Ok(choice.value) <==> Includes(choice.value, "https://"))
      && (r == Err(InvalidComicUrl) <==> !Includes(choice.value, "https://"))
  {
    if choice.None? || choice.value == "" then Err(NoInput)
    else
      var url := if IsHistoryNumber(choice.value) then UrlByIndex(h, DigitsValue(choice.value)) else Some(choice.value);
      if url.None? then Err(InvalidHistoryIndex)
      else if !Includes(url.value, "https://") then Err(InvalidComicUrl)
      else Ok(url.value)
  }

  /** The comic just opened is history number 1, so answering "1" next time reopens it. */
  lemma ReopenLatest(h: seq<Entry>, url: string, now: string)
    requires Includes(url, "https://")
    ensures ChooseComicUrl(Some("1"), AddEntry(h, Entry(url, ComicTitle(url), now), MAX_HISTORY)) == Ok(url)
  {
    var e := Entry(url, ComicTitle(url), now);
    AddEntryThenFirst(h, e, MAX_HISTORY);
    assert DigitsValue("1") == 1;
  }

  /** An answer that is not a number and holds "https://" is used as the comic URL as it is. */
  lemma PastedUrlUsed(url: string, h: seq<Entry>)
    requires Includes(url, "https://")
    ensures ChooseComicUrl(Some(url), h) == Ok(url)
  {
    var i: nat :| i <= |url| && MatchAt(url, "https://", i);
    assert url[i] == 'h';
  }

  /** The start index: resume after the last downloaded chapter for option "2", otherwise the typed chapter. */
  function SelectStart(chapters: seq<string>, downloaded: seq<string>, option: Option<string>, chapterInput: Option<string>)
    : (r: Result<nat, StartError>)
    ensures r.Ok? ==> r.value < |chapters|
    ensures r == Err(NoOption) <==> option.None? || option.value == ""
    ensures option == Some("2") ==> (r.Ok? <==> ResumeIndex(chapters, downloaded) != -1)
    ensures option == Some("2") && r.Ok? ==> r.value == ResumeIndex(chapters, downloaded)
    ensures r.Ok? && option != Some("2") ==>
      chapterInput.Some? && chapters[r.value] == chapterInput.value && chapterInput.value !in chapters[..r.value]
  {
    if option.None? || option.value == "" then Err(NoOption)
    else if option.value == "2" then
      var next := ResumeIndex(chapters, downloaded);
      if next == -1 then Err(ResumeUnavailable) else Ok(next)
    else if chapterInput.None? || chapterInput.value == "" then Err(NoChapterInput)
    else
      var start := FindIndex(chapters, chapterInput.value);
      if start == -1 then Err(ChapterNotFound) else Ok(start)
  }

  /** The start index, then the count: `totalChapters` is what remains from the start. */
  function SelectRange(chapters: seq<string>, downloaded: seq<string>, option: Option<string>,
                       chapterInput: Option<string>, countAnswer: Option<string>)
    : (r: Result<(nat, nat), StartError>)
    ensures r.Ok? ==> SelectStart(chapters, downloaded, option, chapterInput) == Ok(r.value.0)
    ensures r.Ok? ==> r.value.0 < |chapters| && r.value.1 >= 1
    ensures r.Ok? ==> HowMany(countAnswer, |chapters| - r.value.0) == Some(r.value.1)
    ensures SelectStart(chapters, downloaded, option, chapterInput).Err? ==>
      r == Err(SelectStart(chapters, downloaded, option, chapterInput).error)
    ensures SelectStart(chapters, downloaded, option, chapterInput).Ok? ==>
      (r == Err(InvalidCount) <==>
        HowMany(countAnswer, |chapters| - SelectStart(chapters, downloaded, option, chapterInput).value).None?)
  {
    match SelectStart(chapters, downloaded, option, chapterInput)
    case Err(e) => Err(e)
    case Ok(start) =>
      match HowMany(countAnswer, |chapters| - start)
      case None => Err(InvalidCount)
      case Some(n) => Ok((start, n))
  }

  /** What `start` settles on before its download loop: the comic URL, the start index and the count. */
  datatype Plan = Plan(comicUrl: string, start: nat, howMany: nat)

  /** `start` up to its download loop, from the answers typed and the chapters found on disk. */
  function PlanRun(choice: Option<string>, h: seq<Entry>, downloaded: seq<string>, option: Option<string>,
                   chapterInput: Option<string>, countAnswer: Option<string>)
    : (r: Result<Plan, StartError>)
    ensures ChooseComicUrl(choice, h).Err? ==> r == Err(ChooseComicUrl(choice, h).error)
    ensures r.Ok? ==>
      && ChooseComicUrl(choice, h) == Ok(r.value.comicUrl)
      && SelectStart(ListChapters(), downloaded, option, chapterInput) == Ok(r.value.start)
      && r.value.start < LATEST && r.value.howMany >= 1
      && SelectRange(ListChapters(), downloaded, option, chapterInput, countAnswer) == Ok((r.value.start, r.value.howMany))
    ensures ChooseComicUrl(choice, h).Ok? && r.Err? ==>
      SelectRange(ListChapters(), downloaded, option, chapterInput, countAnswer) == Err(r.error)
  {
    match ChooseComicUrl(choice, h)
    case Err(e) => Err(e)
    case Ok(url) =>
      match SelectRange(ListChapters(), downloaded, option, chapterInput, countAnswer)
      case Err(e) => Err(e)
      case Ok((start, n)) => Ok(Plan(url, start, n))
  }

  /**
   * Option "2" with the default count after chapter `k` (k < 1200) on disk
   * downloads chapters k+1 to 1200, that is indices `k` to the end of the list.
   */
  lemma ResumeRunsToEnd(downloaded: seq<string>, k: nat, chapterInput: Option<string>)
    requires downloaded != [] && downloaded[|downloaded| - 1] == NatToString(k) && k < LATEST
    ensures SelectRange(ListChapters(), downloaded, Some("2"), chapterInput, None) == Ok((k, LATEST - k))
    ensures RangeEnd(k, LATEST - k, LATEST) == LATEST
  {
    var chapters := ListChapters();
    ResumeAfterChapter(downloaded, k);
    assert SelectStart(chapters, downloaded, Some("2"), chapterInput) == Ok(k);
    DefaultCountIsRemaining(None, LATEST - k);
  }

  /** With chapter 1200 on disk, option "2" is refused: there is no next chapter. */
  lemma NothingAfterLatest(downloaded: seq<string>, chapterInput: Option<string>)
    requires downloaded != [] && downloaded[|downloaded| - 1] == NatToString(LATEST)
    ensures SelectStart(ListChapters(), downloaded, Some("2"), chapterInput) == Err(ResumeUnavailable)
  {
    ResumeAfterChapter(downloaded, LATEST);
  }

  /** Typing chapter "n" (1 to 1200) under any option but "2" starts at index n-1; other numbers are not found. */
  lemma TypedChapterStart(downloaded: seq<string>, option: string, n: nat)
    requires option != "" && option != "2"
    ensures 1 <= n <= LATEST ==> SelectStart(ListChapters(), downloaded, Some(option), Some(NatToString(n))) == Ok(n - 1)
    ensures !(1 <= n <= LATEST) ==>
      SelectStart(ListChapters(), downloaded, Some(option), Some(NatToString(n))) == Err(ChapterNotFound)
  {
    ChapterPosition(n);
  }

  // ---------------------------------------------------------------------
  // Processing

  /** `processChapter(chapterNum)` on the directory tree, with the scraper's answers in `scraped`. */
  function ChapterStep(tree: Tree, chapterNum: string, scraped: map<string, seq<Page>>): Tree {
    ChapterEffect(AlwaysUpscale, tree, FolderPath(TITLE_DIR, chapterNum), ScrapeImages(scraped, ChapterPageUrl(chapterNum))).0
  }

  /** The tree after processing `chapters` one after another. */
  function ChaptersRun(tree: Tree, chapters: seq<string>, scraped: map<string, seq<Page>>): Tree
    decreases |chapters|
  {
    if chapters == [] then tree
    else ChapterStep(ChaptersRun(tree, chapters[..|chapters| - 1], scraped), chapters[|chapters| - 1], scraped)
  }

  lemma ChaptersRunNext(tree: Tree, chapters: seq<string>, start: nat, i: nat, scraped: map<string, seq<Page>>)
    requires start <= i < |chapters|
    ensures ChaptersRun(tree, chapters[start..i + 1], scraped)
      == ChapterStep(ChaptersRun(tree, chapters[start..i], scraped), chapters[i], scraped)
  {
    var run := chapters[start..i + 1];
    assert run[..|run| - 1] == chapters[start..i] && run[|run| - 1] == chapters[i];
  }

  /** Processing chapters changes nothing outside the title directory. */
  lemma {:induction false} ChaptersRunFrame(tree: Tree, chapters: seq<string>, scraped: map<string, seq<Page>>, title: string)
    requires title != TITLE_DIR
    ensures var after := ChaptersRun(tree, chapters, scraped);
      (title in after <==> title in tree) && (title in tree ==> after[title] == tree[title])
    decreases |chapters|
  {
    if chapters != [] {
      ChaptersRunFrame(tree, chapters[..|chapters| - 1], scraped, title);
    }
  }

  /** `ImageProcessor.processImage(src, index, chapter)`: download, upscale, delete the raw file. */
  method ProcessImage(out: OutputDir, p: FolderPath, index: nat, page: Page) returns (report: ImageReport)
    modifies out
    ensures out.tree == Store(old(out.tree), p, AlwaysUpscaleImage(Contents(old(out.tree), p), index, page).0)
    ensures report == AlwaysUpscaleImage(Contents(old(out.tree), p), index, page).1
  {
    ghost var t0 := out.tree;
    ghost var f := Contents(t0, p);
    var raw, scaled := RawName(index), ScaledName(index);
    // `getImageSavePath` creates the chapter directory, once for each of the two paths.
    out.EnsureFolder(p);
    out.EnsureFolder(p);
    StoreTwice(t0, p, f, f);
    out.Download(p, raw, page.download);
    ghost var downloaded := AfterDownload(f, raw, page.download);
    StoreTwice(t0, p, f, downloaded);
    var ok := out.Upscale(p, raw, scaled, page.upscale);
    if !ok {
      return ImageReport(Failed(UpscalerError), 1);
    }
    ghost var upscaled := downloaded[scaled := page.upscale.size];
    StoreTwice(t0, p, downloaded, upscaled);
    // The upscaler only succeeds on an existing raw file, so `unlinkSync` finds it.
    RawNameDistinct(index, index);
    ok := out.Unlink(p, raw);
    StoreTwice(t0, p, upscaled, upscaled - {raw});
    report := ImageReport(Upscaled, 1);
  }

  /** The option question of `start`: the resume index is computed, the option chosen, the start index settled. */
  method ChooseStart(chapters: seq<string>, downloaded: seq<string>, option: Option<string>, chapterInput: Option<string>)
    returns (r: Result<nat, StartError>)
    ensures r == SelectStart(chapters, downloaded, option, chapterInput)
  {
    var lastDownloaded := LastDownloaded(downloaded);
    var nextChapterIndex := -1;
    if lastDownloaded.Some? {
      nextChapterIndex := FindIndex(chapters, NextChapterName(lastDownloaded.value));
    }
    if option.None? || option.value == "" {
      return Err(NoOption);
    }
    if option.value == "2" {
      if lastDownloaded.None? || nextChapterIndex == -1 {
        return Err(ResumeUnavailable);
      }
      return Ok(nextChapterIndex);
    }
    if chapterInput.None? || chapterInput.value == "" {
      return Err(NoChapterInput);
    }
    var startIndex := FindIndex(chapters, chapterInput.value);
    if startIndex == -1 {
      return Err(ChapterNotFound);
    }
    r := Ok(startIndex);
  }

  /** The range is the start's error, or the count's verdict once the start is settled. */
  lemma SelectRangeSteps(chapters: seq<string>, downloaded: seq<string>, option: Option<string>,
                         chapterInput: Option<string>, countAnswer: Option<string>)
    ensures SelectRange(chapters, downloaded, option, chapterInput, countAnswer) ==
      match SelectStart(chapters, downloaded, option, chapterInput)
      case Err(e) => Err(e)
      case Ok(start) =>
        match HowMany(countAnswer, |chapters| - start)
        case None => Err(InvalidCount)
        case Some(n) => Ok((start, n))
  {
  }

  /** The second half of `start`: the start index, then the count of chapters to download. */
  method SelectRun(chapters: seq<string>, downloaded: seq<string>, option: Option<string>,
                   chapterInput: Option<string>, countAnswer: Option<string>)
    returns (r: Result<(nat, nat), StartError>)
    ensures r == SelectRange(chapters, downloaded, option, chapterInput, countAnswer)
  {
    SelectRangeSteps(chapters, downloaded, option, chapterInput, countAnswer);
    var start := ChooseStart(chapters, downloaded, option, chapterInput);
    if start.Err? {
      return Err(start.error);
    }
    var howMany := HowMany(countAnswer, |chapters| - start.value);
    if howMany.None? {
      return Err(InvalidCount);
    }
    r := Ok((start.value, howMany.value));
  }

  /** `ComicProcessor`: the history and the download flow built on it. */
  class ComicProcessor {
    var historyManager: HistoryManager

    /** `new ComicProcessor()`: a history manager loaded from `stored`. */
    constructor (stored: HistoryFile)
      ensures fresh(historyManager)
      ensures historyManager.history == Loaded(stored, []) && historyManager.file == stored
    {
      historyManager := new HistoryManager(stored);
    }

    /**
     * `processChapter(chapterNum)`: no image or a complete directory ends it,
     * otherwise every image is processed in index order.
     */
    method ProcessChapter(out: OutputDir, chapterNum: string, scraped: map<string, seq<Page>>)
      modifies out
      ensures out.tree == ChapterStep(old(out.tree), chapterNum, scraped)
    {
      var url := ChapterPageUrl(chapterNum);
      var images := ScrapeImages(scraped, url);
      if |images| == 0 {
        return;
      }
      var p := FolderPath(TITLE_DIR, chapterNum);
      if AreImagesComplete(out.tree, p, |images|) {
        return;
      }
      ghost var v := AlwaysUpscale;
      ghost var t0 := out.tree;
      ghost var f := Contents(t0, p);
      var i := 0;
      while i < |images|
        invariant 0 <= i <= |images|
        invariant i == 0 ==> out.tree == t0
        invariant i > 0 ==> out.tree == Store(t0, p, ImagesEffect(v, f, images, i).0)
      {
        var _ := ProcessImage(out, p, i, images[i]);
        if i > 0 {
          StoreTwice(t0, p, ImagesEffect(v, f, images, i).0, ImagesEffect(v, f, images, i + 1).0);
        }
        i := i + 1;
      }
    }

    /** The download loop of `start`: chapters `start` up to (not including) `end`, in order. */
    method DownloadChapters(out: OutputDir, chapters: seq<string>, start: nat, end: nat, scraped: map<string, seq<Page>>)
      requires start <= end <= |chapters|
      modifies out
      ensures out.tree == ChaptersRun(old(out.tree), chapters[start..end], scraped)
    {
      var i := start;
      while i < end
        invariant start <= i <= end
        invariant out.tree == ChaptersRun(old(out.tree), chapters[start..i], scraped)
      {
        ProcessChapter(out, chapters[i], scraped);
        ChaptersRunNext(old(out.tree), chapters, start, i, scraped);
        i := i + 1;
      }
    }

    /**
     * `start()`, with the answers to its prompts as parameters, `now` the
     * time stamp, `writable` whether the history file can be written and
     * `listing` what reading the title directory gives (every directory in
     * it, or `None` where reading throws). A valid comic URL is
     * recorded in the history before any chapter question is asked, so it is
     * recorded even when the run stops later; nothing is written to the
     * output directory unless a plan is settled.
     */
    method Start(out: OutputDir, choice: Option<string>, now: string, writable: bool, listing: Option<seq<string>>,
                 option: Option<string>, chapterInput: Option<string>, countAnswer: Option<string>,
                 scraped: map<string, seq<Page>>)
      returns (r: Result<Plan, StartError>)
      requires TitleDirOf(out.tree).Some? && listing.Some? ==> ListsDirectories(TitleDirOf(out.tree).value, listing.value)
      modifies historyManager, out
      ensures r == PlanRun(choice, old(historyManager.history), DownloadedChapters(TitleDirOf(old(out.tree)), listing),
                           option, chapterInput, countAnswer)
      ensures historyManager.history == match ChooseComicUrl(choice, old(historyManager.history))
        case Err(_) => old(historyManager.history)
        case Ok(url) => AddEntry(old(historyManager.history), Entry(url, ComicTitle(url), now), MAX_HISTORY)
      ensures historyManager.file ==
        if ChooseComicUrl(choice, old(historyManager.history)).Ok? && writable then Holds(historyManager.history)
        else old(historyManager.file)
      ensures r.Err? ==> out.tree == old(out.tree)
      ensures r.Ok? ==> (out.tree ==
        ChaptersRun(old(out.tree), ListChapters()[r.value.start..RangeEnd(r.value.start, r.value.howMany, LATEST)], scraped))
    {
      var url := ChooseUrl(choice);
      if url.Err? {
        return Err(url.error);
      }
      var comicTitle := ComicTitle(url.value);
      historyManager.AddToHistory(url.value, comicTitle, now, writable);
      var chapters := ListChapters();
      var downloaded := DownloadedChapters(TitleDirOf(out.tree), listing);
      var range := SelectRun(chapters, downloaded, option, chapterInput, countAnswer);
      if range.Err? {
        return Err(range.error);
      }
      var (startIndex, howMany) := range.value;
      r := Ok(Plan(url.value, startIndex, howMany));
      DownloadChapters(out, chapters, startIndex, RangeEnd(startIndex, howMany, |chapters|), scraped);
    }

    /** The first half of `start`: the history number or URL typed, up to the "https://" check. */
    method ChooseUrl(choice: Option<string>) returns (r: Result<string, StartError>)
      ensures r == ChooseComicUrl(choice, historyManager.history)
    {
      if choice.None? || choice.value == "" {
        return Err(NoInput);
      }
      var comicUrl: string;
      if IsHistoryNumber(choice.value) {
        var historyUrl := historyManager.GetUrlByIndex(DigitsValue(choice.value));
        if historyUrl.None? {
          return Err(InvalidHistoryIndex);
        }
        comicUrl := historyUrl.value;
      } else {
        comicUrl := choice.value;
      }
      if !Includes(comicUrl, "https://") {
        return Err(InvalidComicUrl);
      }
      r := Ok(comicUrl);
    }
  }
}
