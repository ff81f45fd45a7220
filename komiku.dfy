/**
 * scrap.ts: the komiku.id downloader. It reads a comic URL, lists its
 * chapters (oldest first), asks for a starting chapter and a count, and runs
 * the size-threshold variant of the per-chapter pipeline on each chapter of
 * the range in turn, writing to `OUTPUT_DIR/<comic title>/<chapter key>`.
 */
module Komiku {
  import opened Wrappers
  import opened Strings
  import opened Numerals
  import opened Disk
  import opened Pipeline
  import opened Selection

  const BASE_KOMIKU_URL := "https://komiku.id"

  /** The `TypeError` `parseChapter` throws when the URL holds no "chapter-", so that `chapterRaw` is undefined. */
  datatype ParseError = NoChapterMarker

  /**
   * `parseChapter`: the text after the first "chapter-", cut at
   * "-bahasa-indonesia" and then at "/"; when that text splits on "-" into
   * more than two pieces only the first is kept, and an empty text becomes
   * "unknown".
   */
  function ParseChapter(url: string): Result<string, ParseError> {
    var afterMarker := Split(url, "chapter-");
    if |afterMarker| < 2 then Err(NoChapterMarker)
    else
      var chapterRaw := Split(Split(afterMarker[1], "-bahasa-indonesia")[0], "/")[0];
      var parts := Split(chapterRaw, "-");
      if |parts| > 2 then Ok(parts[0])
      else if chapterRaw == "" then Ok("unknown")
      else Ok(chapterRaw)
  }

  /** `parseChapter` throws exactly for the URLs that hold no "chapter-". */
  lemma ParseChapterFails(url: string)
    ensures ParseChapter(url).Err? <==> !Includes(url, "chapter-")
  {
    SplitPieces(url, "chapter-");
  }

  /** The characters of a chapter key in komiku's URLs: digits and dashes ("35", "35-1"). */
  predicate IsKeyText(key: string) {
    forall i :: 0 <= i < |key| ==> IsDigit(key[i]) || key[i] == '-'
  }

  /** The piece after the first "chapter-" of `prefix + "chapter-" + tail` is `tail` when neither part holds another one. */
  lemma PieceAfterMarker(prefix: string, tail: string)
    requires !Includes(prefix, "chapter-") && !Includes(tail, "chapter-")
    ensures |Split(prefix + "chapter-" + tail, "chapter-")| >= 2
    ensures Split(prefix + "chapter-" + tail, "chapter-")[1] == tail
  {
    var url := prefix + "chapter-" + tail;
    assert LastCharUnique("chapter-");
    FirstOccurrenceAfter(prefix, "chapter-", tail);
    SplitAt(url, "chapter-", |prefix|);
    assert url[|prefix| + 8..] == tail;
    SplitWithout(tail, "chapter-");
  }

  /** The text before the first "-bahasa-indonesia" of `key + "-bahasa-indonesia/" + rest`, cut at "/", is `key`. */
  lemma KeyBeforeSuffix(key: string, rest: string)
    requires IsKeyText(key)
    ensures Split(Split(key + "-bahasa-indonesia/" + rest, "-bahasa-indonesia")[0], "/")[0] == key
  {
    var cut := "-bahasa-indonesia";
    var tail := key + "-bahasa-indonesia/" + rest;
    forall j: nat | j < |key| ensures !MatchAt(tail, cut, j) {
      if j + |cut| <= |tail| {
        assert tail[j..j + |cut|][1] == tail[j + 1];
      }
    }
    assert tail[|key|..|key| + |cut|] == cut;
    IndexOfIs(tail, cut, |key|);
    SplitAt(tail, cut, |key|);
    assert tail[..|key|] == key;
    NotIncludesMissingChar(key, "/", 0);
    SplitWithout(key, "/");
  }

  /** In a chapter URL `prefix + "chapter-" + key + "-bahasa-indonesia/" + rest`, the text `parseChapter` cuts out is `key`. */
  lemma ChapterRawOfUrl(prefix: string, key: string, rest: string)
    requires !Includes(prefix, "chapter-") && !Includes(rest, "chapter-")
    requires IsKeyText(key)
    ensures var url := prefix + "chapter-" + key + "-bahasa-indonesia/" + rest;
      && |Split(url, "chapter-")| >= 2
      && Split(Split(Split(url, "chapter-")[1], "-bahasa-indonesia")[0], "/")[0] == key
  {
    var known := key + "-bahasa-indonesia/";
    var tail := known + rest;
    assert prefix + "chapter-" + key + "-bahasa-indonesia/" + rest == prefix + "chapter-" + tail;
    forall i | 0 <= i < |known| ensures known[i] != "chapter-"[0] {
      if i >= |key| {
        assert known[i] == "-bahasa-indonesia/"[i - |key|];
      }
    }
    NotIncludesConcat(known, rest, "chapter-");
    PieceAfterMarker(prefix, tail);
    KeyBeforeSuffix(key, rest);
  }

  /** Round trip: a chapter key with at most one dash is read back from its chapter URL unchanged. */
  lemma ParseChapterOfUrl(prefix: string, key: string, rest: string)
    requires !Includes(prefix, "chapter-") && !Includes(rest, "chapter-")
    requires IsKeyText(key) && key != "" && multiset(key)['-'] <= 1
    ensures ParseChapter(prefix + "chapter-" + key + "-bahasa-indonesia/" + rest) == Ok(key)
  {
    ChapterRawOfUrl(prefix, key, rest);
    SplitCharCount(key, '-');
  }

  /** A key with two or more dashes ("35-1-2") is cut to the part before its first dash. */
  lemma ParseChapterKeepsFirstNumber(prefix: string, number: string, more: string, rest: string)
    requires !Includes(prefix, "chapter-") && !Includes(rest, "chapter-")
    requires AllDigits(number) && IsKeyText(more) && '-' in more
    ensures ParseChapter(prefix + "chapter-" + (number + "-" + more) + "-bahasa-indonesia/" + rest) == Ok(number)
  {
    var key := number + "-" + more;
    assert IsKeyText(key) by {
      forall i | 0 <= i < |key| ensures IsDigit(key[i]) || key[i] == '-' {
        if i > |number| {
          assert key[i] == more[i - |number| - 1];
        }
      }
    }
    ChapterRawOfUrl(prefix, key, rest);
    SplitCharCount(key, '-');
    assert multiset(key) == multiset(number) + multiset("-") + multiset(more) by {
      assert multiset(number + "-" + more) == multiset(number + "-") + multiset(more);
    }
    assert multiset(more)['-'] >= 1;
    NotIncludesMissingChar(number, "-", 0);
    FirstOccurrenceAfter(number, "-", more);
    SplitAt(key, "-", |number|);
    assert key[..|number|] == number;
  }

  /** A URL that ends right after "chapter-" gives the key "unknown". */
  lemma ParseChapterEmptyKey(prefix: string)
    requires !Includes(prefix, "chapter-")
    ensures ParseChapter(prefix + "chapter-") == Ok("unknown")
  {
    var url := prefix + "chapter-";
    assert LastCharUnique("chapter-");
    FirstOccurrenceAfter(prefix, "chapter-", "");
    assert url == prefix + "chapter-" + "";
    SplitAt(url, "chapter-", |prefix|);
    assert url[|prefix| + 8..] == "";
    SplitWithout("", "chapter-");
    SplitWithout("", "-bahasa-indonesia");
    SplitWithout("", "/");
    SplitWithout("", "-");
  }

  /** `targetChapter.replace("chapter-", "")`. */
  function CleanTarget(targetChapter: string): string {
    ReplaceFirst(targetChapter, "chapter-", "")
  }

  /** The prefix the main flow adds is exactly what the lookup strips. */
  lemma CleanTargetStripsMarker(key: string)
    ensures CleanTarget("chapter-" + key) == key
  {
    var s := "chapter-" + key;
    assert MatchAt(s, "chapter-", 0);
    IndexOfIs(s, "chapter-", 0);
    assert s[8..] == key;
  }

  /**
   * The `findIndex` inside `findChapterIndex`, from position `from` on:
   * the first chapter whose key equals `clean`, -1 when none does, and the
   * error of the first chapter whose key cannot be parsed before that.
   */
  function FindChapterFrom(chapters: seq<string>, clean: string, from: nat): (r: Result<int, ParseError>)
    requires from <= |chapters|
    decreases |chapters| - from
    ensures r.Ok? ==> r.value == -1 || from <= r.value < |chapters|
    ensures r.Ok? && r.value >= 0 ==> ParseChapter(chapters[r.value]) == Ok(clean)
    ensures r.Ok? ==> forall j {:trigger ParseChapter(chapters[j])} :: from <= j < (if r.value == -1 then |chapters| else r.value) ==>
      ParseChapter(chapters[j]).Ok? && ParseChapter(chapters[j]) != Ok(clean)
    ensures r.Err? ==> exists j {:trigger ParseChapter(chapters[j])} :: from <= j < |chapters| && ParseChapter(chapters[j]).Err?
  {
    if from == |chapters| then Ok(-1)
    else
      match ParseChapter(chapters[from])
      case Err(e) => Err(e)
      case Ok(key) => if key == clean then Ok(from) else FindChapterFrom(chapters, clean, from + 1)
  }

  /** `findChapterIndex(chapters, targetChapter)`. */
  function FindChapterIndex(chapters: seq<string>, targetChapter: string): Result<int, ParseError> {
    FindChapterFrom(chapters, CleanTarget(targetChapter), 0)
  }

  /** `targetChapter?.replace(".", "-") || ""`: the first "." of the typed chapter becomes "-". */
  function FormatChapterInput(answer: Option<string>): string {
    match answer
    case None => ""
    case Some(typed) => ReplaceFirst(typed, ".", "-")
  }

  /** "35.1" is looked up as "35-1"; only the first dot is replaced ("1.2.3" gives "1-2.3"). */
  lemma FormatReplacesFirstDot(before: string, after: string)
    requires '.' !in before
    ensures FormatChapterInput(Some(before + "." + after)) == before + "-" + after
  {
    var s := before + "." + after;
    NotIncludesMissingChar(before, ".", 0);
    assert LastCharUnique(".");
    FirstOccurrenceAfter(before, ".", after);
    assert s[..|before|] == before && s[|before| + 1..] == after;
  }

  /** `comicUrl.split("manga/")[1]?.split("/")[0] || "unknown_comic"`. */
  function ComicTitle(comicUrl: string): string {
    var pieces := Split(comicUrl, "manga/");
    if |pieces| < 2 then "unknown_comic"
    else
      var slug := Split(pieces[1], "/")[0];
      if slug == "" then "unknown_comic" else slug
  }

  /** The title of `.../manga/<slug>/...` is the slug. */
  lemma ComicTitleOfUrl(prefix: string, slug: string, rest: string)
    requires !Includes(prefix, "manga/") && !Includes(slug + "/" + rest, "manga/")
    requires slug != "" && '/' !in slug
    ensures ComicTitle(prefix + "manga/" + slug + "/" + rest) == slug
  {
    var tail := slug + "/" + rest;
    var url := prefix + "manga/" + tail;
    assert url == prefix + "manga/" + slug + "/" + rest;
    assert LastCharUnique("manga/");
    FirstOccurrenceAfter(prefix, "manga/", tail);
    SplitAt(url, "manga/", |prefix|);
    assert url[|prefix| + 6..] == tail;
    SplitWithout(tail, "manga/");
    NotIncludesMissingChar(slug, "/", 0);
    FirstOccurrenceAfter(slug, "/", rest);
    SplitAt(tail, "/", |slug|);
    assert tail[..|slug|] == slug;
  }

  /** A URL without "manga/" gets the title "unknown_comic". */
  lemma ComicTitleUnknown(comicUrl: string)
    requires !Includes(comicUrl, "manga/")
    ensures ComicTitle(comicUrl) == "unknown_comic"
  {
    SplitWithout(comicUrl, "manga/");
  }

  /**
   * `listChapters` once the series page's links are known: each `href` is
   * prefixed with BASE_KOMIKU_URL and the list is reversed, so the page's
   * newest-first order becomes oldest first.
   */
  function ChapterUrls(hrefs: seq<string>): (chapters: seq<string>)
    ensures |chapters| == |hrefs|
    ensures forall i :: 0 <= i < |hrefs| ==> chapters[i] == BASE_KOMIKU_URL + hrefs[|hrefs| - 1 - i]
  {
    if hrefs == [] then [] else [BASE_KOMIKU_URL + hrefs[|hrefs| - 1]] + ChapterUrls(hrefs[..|hrefs| - 1])
  }

  /** Image `index` of `processChapter`: the body of the per-image `try` and its `catch`. */
  method ProcessImage(out: OutputDir, p: FolderPath, index: nat, page: Page, cfg: Config) returns (report: ImageReport)
    modifies out
    ensures out.tree == Store(old(out.tree), p, ThresholdImage(Contents(old(out.tree), p), index, page, cfg).0)
    ensures report == ThresholdImage(Contents(old(out.tree), p), index, page, cfg).1
  {
    ghost var t0 := out.tree;
    ghost var f := Contents(t0, p);
    var raw, scaled, skip := RawName(index), ScaledName(index), SkipName(index);
    RawNameDistinct(index, index);
    out.EnsureFolder(p);
    out.Download(p, raw, page.download);
    ghost var downloaded := AfterDownload(f, raw, page.download);
    StoreTwice(t0, p, f, downloaded);
    var rawSize := out.Stat(p, raw);
    if rawSize.None? {
      return ImageReport(Failed(RawMissing), 0);
    }
    if rawSize.value > cfg.minImageSize * 1024 {
      out.Rename(p, raw, skip);
      StoreTwice(t0, p, downloaded, (downloaded - {raw})[skip := downloaded[raw]]);
      return ImageReport(KeptLarge, 0);
    }
    var ok := out.Upscale(p, raw, scaled, page.upscale);
    if !ok {
      return ImageReport(Failed(UpscalerError), 1);
    }
    ghost var once := downloaded[scaled := page.upscale.size];
    StoreTwice(t0, p, downloaded, once);
    var scaledSize := out.Stat(p, scaled);
    var runs := 1;
    if scaledSize.Some? && scaledSize.value < cfg.maxImageSize * 1024 {
      ok := out.Upscale(p, raw, scaled, page.retry);
      runs := 2;
      if !ok {
        return ImageReport(Failed(UpscalerError), 2);
      }
      StoreTwice(t0, p, once, once[scaled := page.retry.size]);
      ok := out.Unlink(p, raw);
      StoreTwice(t0, p, once[scaled := page.retry.size], once[scaled := page.retry.size] - {raw});
    } else {
      ok := out.Unlink(p, raw);
      StoreTwice(t0, p, once, once - {raw});
    }
    report := ImageReport(Upscaled, runs);
  }

  /**
   * `processChapter(chapterUrl, comicTitle)` with the scraper's answers in
   * `scraped`: the key is parsed first (where `parseChapter` throws, nothing
   * is written), an empty image list or a complete directory ends it, and
   * otherwise every image is processed in index order.
   */
  method ProcessChapter(out: OutputDir, chapterUrl: string, comicTitle: string, scraped: map<string, seq<Page>>, cfg: Config)
    modifies out
    ensures out.tree == ChapterStep(old(out.tree), comicTitle, chapterUrl, scraped, cfg)
  {
    var parsed := ParseChapter(chapterUrl);
    if parsed.Err? {
      return;
    }
    var images := Scrape(scraped, chapterUrl);
    if |images| == 0 {
      return;
    }
    var p := FolderPath(comicTitle, parsed.value);
    if AreImagesComplete(out.tree, p, |images|) {
      return;
    }
    ghost var v := SizeThreshold(cfg);
    ghost var t0 := out.tree;
    ghost var f := Contents(t0, p);
    // The first image's path lookup creates the chapter directory.
    out.EnsureFolder(p);
    var i := 0;
    while i < |images|
      invariant 0 <= i <= |images|
      invariant out.tree == Store(t0, p, ImagesEffect(v, f, images, i).0)
    {
      var _ := ProcessImage(out, p, i, images[i], cfg);
      StoreTwice(t0, p, ImagesEffect(v, f, images, i).0, ImagesEffect(v, f, images, i + 1).0);
      i := i + 1;
    }
  }

  /** Every chapter URL has a key, so printing the keys of the listing does not throw. */
  predicate AllChaptersParse(chapters: seq<string>) {
    forall k {:trigger ParseChapter(chapters[k])} :: 0 <= k < |chapters| ==> ParseChapter(chapters[k]).Ok?
  }

  /** The main flow's `!comicUrl || !comicUrl.includes("https://")` check, negated. */
  predicate ValidComicUrl(comicUrl: Option<string>) {
    comicUrl.Some? && comicUrl.value != "" && Includes(comicUrl.value, "https://")
  }

  /** Why the main flow stops before downloading anything. */
  datatype RunError = InvalidComicUrl | NoChapters | UnparsableChapter | ChapterNotFound | InvalidCount

  /** What the main flow settles on before its download loop. */
  datatype Plan = Plan(title: string, chapters: seq<string>, start: nat, howMany: nat)

  /** The key the typed chapter is looked up by: `cleanTarget` of `"chapter-" + formattedChapterInput`. */
  function TypedKey(chapterAnswer: Option<string>): string {
    CleanTarget("chapter-" + FormatChapterInput(chapterAnswer))
  }

  /** Some chapter URL of the listing has key `key`. */
  predicate HasKey(chapters: seq<string>, key: string) {
    exists j {:trigger ParseChapter(chapters[j])} :: 0 <= j < |chapters| && ParseChapter(chapters[j]) == Ok(key)
  }

  /**
   * The main flow from the chapter listing to the start index: every key is
   * printed (which throws where one has no key) and the typed chapter is
   * looked up.
   */
  function PlanStart(chapters: seq<string>, chapterAnswer: Option<string>): (r: Result<nat, RunError>)
    ensures r == Err(NoChapters) <==> chapters == []
    ensures r == Err(UnparsableChapter) <==> chapters != [] && !AllChaptersParse(chapters)
    ensures r == Err(ChapterNotFound) <==>
      chapters != [] && AllChaptersParse(chapters) && !HasKey(chapters, TypedKey(chapterAnswer))
    ensures r.Ok? ==>
      && r.value < |chapters| && AllChaptersParse(chapters)
      && ParseChapter(chapters[r.value]) == Ok(TypedKey(chapterAnswer))
      && forall j {:trigger ParseChapter(chapters[j])} :: 0 <= j < r.value ==> ParseChapter(chapters[j]) != Ok(TypedKey(chapterAnswer))
    ensures chapters != [] && AllChaptersParse(chapters) && HasKey(chapters, TypedKey(chapterAnswer)) ==> r.Ok?
  {
    if |chapters| == 0 then Err(NoChapters)
    else if !AllChaptersParse(chapters) then Err(UnparsableChapter)
    else
      // Every key parsed above, so the lookup itself cannot throw.
      var found := FindChapterIndex(chapters, "chapter-" + FormatChapterInput(chapterAnswer));
      if found.Ok? && found.value >= 0 then Ok(found.value) else Err(ChapterNotFound)
  }

  /** The main flow from the chapter listing to its download loop: the start index, then the count. */
  function PlanRange(chapters: seq<string>, chapterAnswer: Option<string>, countAnswer: Option<string>)
    : (r: Result<(nat, nat), RunError>)
    ensures r == Err(NoChapters) <==> chapters == []
    ensures r.Ok? ==>
      && r.value.0 < |chapters| && r.value.1 >= 1
      && AllChaptersParse(chapters)
      && ParseChapter(chapters[r.value.0]) == Ok(TypedKey(chapterAnswer))
      && (forall j {:trigger ParseChapter(chapters[j])} :: 0 <= j < r.value.0 ==>
            ParseChapter(chapters[j]) != Ok(TypedKey(chapterAnswer)))
      && HowMany(countAnswer, |chapters| - r.value.0) == Some(r.value.1)
    ensures r == Err(UnparsableChapter) <==> chapters != [] && !AllChaptersParse(chapters)
    ensures r == Err(ChapterNotFound) <==>
      chapters != [] && AllChaptersParse(chapters) && !HasKey(chapters, TypedKey(chapterAnswer))
    ensures PlanStart(chapters, chapterAnswer).Err? ==> r == Err(PlanStart(chapters, chapterAnswer).error)
    ensures PlanStart(chapters, chapterAnswer).Ok? ==>
      (r == Err(InvalidCount) <==> HowMany(countAnswer, |chapters| - PlanStart(chapters, chapterAnswer).value).None?)
    ensures PlanStart(chapters, chapterAnswer).Ok? ==>
      (HowMany(countAnswer, |chapters| - PlanStart(chapters, chapterAnswer).value).Some? ==> r.Ok?)
  {
    match PlanStart(chapters, chapterAnswer)
    case Err(e) => Err(e)
    case Ok(start) =>
      match HowMany(countAnswer, |chapters| - start)
      case None => Err(InvalidCount)
      case Some(n) => Ok((start, n))
  }

  /**
   * The main flow up to its download loop, given the three answers typed at
   * the prompts and the links listed on the series page.
   */
  function PlanRun(comicUrl: Option<string>, hrefs: seq<string>, chapterAnswer: Option<string>, countAnswer: Option<string>)
    : (r: Result<Plan, RunError>)
    ensures r == Err(InvalidComicUrl) <==> !ValidComicUrl(comicUrl)
    ensures ValidComicUrl(comicUrl) ==> (r == Err(NoChapters) <==> hrefs == [])
    ensures r.Ok? ==>
      && r.value.chapters == ChapterUrls(hrefs)
      && r.value.title == ComicTitle(comicUrl.value)
      && r.value.start < |r.value.chapters| && r.value.howMany >= 1
      && AllChaptersParse(r.value.chapters)
      && ParseChapter(r.value.chapters[r.value.start]) == Ok(TypedKey(chapterAnswer))
      && PlanRange(r.value.chapters, chapterAnswer, countAnswer) == Ok((r.value.start, r.value.howMany))
    ensures ValidComicUrl(comicUrl) && r.Err? ==> PlanRange(ChapterUrls(hrefs), chapterAnswer, countAnswer) == Err(r.error)
  {
    if !ValidComicUrl(comicUrl) then Err(InvalidComicUrl)
    else
      var chapters := ChapterUrls(hrefs);
      match PlanRange(chapters, chapterAnswer, countAnswer)
      case Err(e) => Err(e)
      case Ok((start, n)) => Ok(Plan(ComicTitle(comicUrl.value), chapters, start, n))
  }

  /** When every chapter has a key and chapter `k`'s key is `clean`, the lookup finds a chapter with that key at or before `k`. */
  lemma {:induction false} FindChapterFromFinds(chapters: seq<string>, clean: string, from: nat, k: nat)
    requires from <= k < |chapters|
    requires AllChaptersParse(chapters)
    requires ParseChapter(chapters[k]) == Ok(clean)
    ensures FindChapterFrom(chapters, clean, from).Ok?
    ensures from <= FindChapterFrom(chapters, clean, from).value <= k
    decreases |chapters| - from
  {
    if ParseChapter(chapters[from]) != Ok(clean) {
      FindChapterFromFinds(chapters, clean, from + 1, k);
    }
  }

  /**
   * Typing "b.c" for a chapter whose key is "b-c", with the default count,
   * starts the run at the first chapter with that key and runs to the end of
   * the list.
   */
  lemma TypedChapterStartsRun(chapters: seq<string>, before: string, after: string, k: nat)
    requires '.' !in before
    requires k < |chapters| && AllChaptersParse(chapters)
    requires ParseChapter(chapters[k]) == Ok(before + "-" + after)
    ensures var r := PlanRange(chapters, Some(before + "." + after), None);
      && r.Ok? && r.value.0 <= k
      && ParseChapter(chapters[r.value.0]) == Ok(before + "-" + after)
      && RangeEnd(r.value.0, r.value.1, |chapters|) == |chapters|
  {
    var typed := Some(before + "." + after);
    TypedChapterFound(chapters, before, after, k);
    var start := PlanStart(chapters, typed).value;
    DefaultCountRunsToEnd(chapters, typed, start);
    assert RangeEnd(start, |chapters| - start, |chapters|) == |chapters|;
  }

  /** The lookup of "b.c" finds a chapter keyed "b-c" at or before any chapter `k` with that key. */
  lemma TypedChapterFound(chapters: seq<string>, before: string, after: string, k: nat)
    requires '.' !in before
    requires k < |chapters| && AllChaptersParse(chapters)
    requires ParseChapter(chapters[k]) == Ok(before + "-" + after)
    ensures var r := PlanStart(chapters, Some(before + "." + after));
      r.Ok? && r.value <= k && ParseChapter(chapters[r.value]) == Ok(before + "-" + after)
  {
    var clean := before + "-" + after;
    FormatReplacesFirstDot(before, after);
    CleanTargetStripsMarker(clean);
    FindChapterFromFinds(chapters, clean, 0, k);
  }

  /** With no typed count, the range runs from the start chapter to the end of the list. */
  lemma DefaultCountRunsToEnd(chapters: seq<string>, chapterAnswer: Option<string>, start: nat)
    requires PlanStart(chapters, chapterAnswer) == Ok(start)
    ensures PlanRange(chapters, chapterAnswer, None) == Ok((start, |chapters| - start))
  {
    DefaultCountIsRemaining(None, |chapters| - start);
  }

  /**
   * The directory after `processChapter(chapterUrl, title)`: unchanged where
   * the key cannot be parsed, otherwise the pipeline's effect on
   * `OUTPUT_DIR/<title>/<key>`.
   */
  function ChapterStep(tree: Tree, title: string, chapterUrl: string, scraped: map<string, seq<Page>>, cfg: Config): Tree {
    match ParseChapter(chapterUrl)
    case Err(_) => tree
    case Ok(chapter) => ChapterEffect(SizeThreshold(cfg), tree, FolderPath(title, chapter), Scrape(scraped, chapterUrl)).0
  }

  /** The directory after processing the chapters of `urls` one after another. */
  function ChaptersEffect(tree: Tree, title: string, urls: seq<string>, scraped: map<string, seq<Page>>, cfg: Config): Tree
    decreases |urls|
  {
    if urls == [] then tree
    else ChapterStep(ChaptersEffect(tree, title, urls[..|urls| - 1], scraped, cfg), title, urls[|urls| - 1], scraped, cfg)
  }

  lemma ChaptersEffectNext(tree: Tree, title: string, chapters: seq<string>, start: nat, i: nat,
                           scraped: map<string, seq<Page>>, cfg: Config)
    requires start <= i < |chapters|
    ensures ChaptersEffect(tree, title, chapters[start..i + 1], scraped, cfg)
      == ChapterStep(ChaptersEffect(tree, title, chapters[start..i], scraped, cfg), title, chapters[i], scraped, cfg)
  {
    var urls := chapters[start..i + 1];
    assert urls[..|urls| - 1] == chapters[start..i] && urls[|urls| - 1] == chapters[i];
  }

  /** The download loop of the main flow: chapters `start` up to (not including) `end`, in order. */
  method DownloadChapters(out: OutputDir, title: string, chapters: seq<string>, start: nat, end: nat,
                          scraped: map<string, seq<Page>>, cfg: Config)
    requires start <= end <= |chapters|
    modifies out
    ensures out.tree == ChaptersEffect(old(out.tree), title, chapters[start..end], scraped, cfg)
  {
    var i := start;
    while i < end
      invariant start <= i <= end
      invariant out.tree == ChaptersEffect(old(out.tree), title, chapters[start..i], scraped, cfg)
    {
      ProcessChapter(out, chapters[i], title, scraped, cfg);
      ChaptersEffectNext(old(out.tree), title, chapters, start, i, scraped, cfg);
      i := i + 1;
    }
  }

  /**
   * The main flow: plan, then process chapters `start` up to (not including)
   * `min(start + howMany, chapters.length)` in order. Nothing is written when
   * the plan fails.
   */
  method Run(out: OutputDir, comicUrl: Option<string>, hrefs: seq<string>, chapterAnswer: Option<string>,
             countAnswer: Option<string>, scraped: map<string, seq<Page>>, cfg: Config)
    returns (r: Result<Plan, RunError>)
    modifies out
    ensures r == PlanRun(comicUrl, hrefs, chapterAnswer, countAnswer)
    ensures r.Err? ==> out.tree == old(out.tree)
    ensures r.Ok? ==> out.tree == ChaptersEffect(old(out.tree), r.value.title,
      r.value.chapters[r.value.start..RangeEnd(r.value.start, r.value.howMany, |r.value.chapters|)], scraped, cfg)
  {
    r := PlanRun(comicUrl, hrefs, chapterAnswer, countAnswer);
    if r.Err? {
      return;
    }
    var plan := r.value;
    DownloadChapters(out, plan.title, plan.chapters, plan.start,
      RangeEnd(plan.start, plan.howMany, |plan.chapters|), scraped, cfg);
  }
}
