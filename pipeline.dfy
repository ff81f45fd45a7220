/**
 * The per-chapter fetch-and-scale state machine of the two scripts, as a
 * function of the chapter directory and of the oracle outcomes of each image.
 *
 * - `SizeThreshold` (scrap.ts): download; a raw file larger than
 *   MIN_IMAGE_SIZE KiB is renamed to its `_skip_` name; otherwise the upscaler
 *   runs, runs once more when its output is smaller than MAX_IMAGE_SIZE KiB,
 *   and the raw file is deleted.
 * - `AlwaysUpscale` (scrap_berwarna.ts): download, upscale, delete the raw file.
 *
 * In both, an error on one image ends that image only; the chapter is skipped
 * when the scraper found no image or when its directory already holds as many
 * ".png" files as there are images.
 */
module Pipeline {
  import opened Wrappers
  import opened Strings
  import opened Disk

  /** MIN_IMAGE_SIZE and MAX_IMAGE_SIZE, in KiB (900 and 1024 by default). */
  datatype Config = Config(minImageSize: nat, maxImageSize: nat)

  const DEFAULT_CONFIG := Config(900, 1024)

  datatype Variant = SizeThreshold(cfg: Config) | AlwaysUpscale

  /** Why an image's processing threw: `statSync`/`unlinkSync` found no raw file, or the upscaler command failed. */
  datatype Failure = RawMissing | UpscalerError

  datatype ImageOutcome = KeptLarge | Upscaled | Failed(reason: Failure)

  /** What happened to one image and how many times the upscaler was started for it. */
  datatype ImageReport = ImageReport(outcome: ImageOutcome, upscalerRuns: nat)

  datatype ChapterOutcome = NoImages | AlreadyComplete | Processed(reports: seq<ImageReport>)

  predicate Succeeded(r: ImageReport) {
    !r.outcome.Failed?
  }

  /** The finished file a successful image leaves. */
  function FinishedName(outcome: ImageOutcome, i: nat): string {
    if outcome == KeptLarge then SkipName(i) else ScaledName(i)
  }

  /** Image `i` in scrap.ts: the body of the `try` in the per-image loop. */
  function ThresholdImage(f: Folder, i: nat, page: Page, cfg: Config): (Folder, ImageReport) {
    var raw, scaled := RawName(i), ScaledName(i);
    var downloaded := AfterDownload(f, raw, page.download);
    if raw !in downloaded then
      (downloaded, ImageReport(Failed(RawMissing), 0))
    else if downloaded[raw] > cfg.minImageSize * 1024 then
      ((downloaded - {raw})[SkipName(i) := downloaded[raw]], ImageReport(KeptLarge, 0))
    else
      match page.upscale
      case UpscalerFailed => (downloaded, ImageReport(Failed(UpscalerError), 1))
      case Produced(first) =>
        var once := downloaded[scaled := first];
        if first < cfg.maxImageSize * 1024 then
          match page.retry
          case UpscalerFailed => (once, ImageReport(Failed(UpscalerError), 2))
          case Produced(second) => (once[scaled := second] - {raw}, ImageReport(Upscaled, 2))
        else
          (once - {raw}, ImageReport(Upscaled, 1))
  }

  /**
   * Image `i` in scrap_berwarna.ts: `ImageProcessor.processImage`. The
   * upscaler is started whether or not the download wrote the raw file; with
   * no input file it writes nothing and fails.
   */
  function AlwaysUpscaleImage(f: Folder, i: nat, page: Page): (Folder, ImageReport) {
    var raw, scaled := RawName(i), ScaledName(i);
    var downloaded := AfterDownload(f, raw, page.download);
    if raw !in downloaded then (downloaded, ImageReport(Failed(UpscalerError), 1))
    else
      match page.upscale
      case UpscalerFailed => (downloaded, ImageReport(Failed(UpscalerError), 1))
      case Produced(size) => (downloaded[scaled := size] - {raw}, ImageReport(Upscaled, 1))
  }

  function ImageEffect(v: Variant, f: Folder, i: nat, page: Page): (Folder, ImageReport) {
    match v
    case SizeThreshold(cfg) => ThresholdImage(f, i, page, cfg)
    case AlwaysUpscale => AlwaysUpscaleImage(f, i, page)
  }

  /** The directory and the reports after images `0 .. n-1`, each started from what the previous one left. */
  function ImagesEffect(v: Variant, f: Folder, pages: seq<Page>, n: nat): (r: (Folder, seq<ImageReport>))
    requires n <= |pages|
    ensures |r.1| == n
  {
    if n == 0 then (f, [])
    else
      var before := ImagesEffect(v, f, pages, n - 1);
      var step := ImageEffect(v, before.0, n - 1, pages[n - 1]);
      (step.0, before.1 + [step.1])
  }

  /** `processChapter` once the chapter's directory `p` and its scraped images are known. */
  function ChapterEffect(v: Variant, tree: Tree, p: FolderPath, pages: seq<Page>): (Tree, ChapterOutcome) {
    if |pages| == 0 then (tree, NoImages)
    else if AreImagesComplete(tree, p, |pages|) then (tree, AlreadyComplete)
    else
      var done := ImagesEffect(v, Contents(tree, p), pages, |pages|);
      (Store(tree, p, done.0), Processed(done.1))
  }

  /**
   * `processChapter` changes the tree only when it processes the chapter,
   * which it does exactly when there are images and the directory is not
   * complete; even then every other chapter directory keeps its files.
   */
  lemma ChapterTouchedOnlyWhenProcessed(v: Variant, tree: Tree, p: FolderPath, pages: seq<Page>)
    ensures var r := ChapterEffect(v, tree, p, pages);
      && (r.1.Processed? <==> |pages| > 0 && !AreImagesComplete(tree, p, |pages|))
      && (!r.1.Processed? ==> r.0 == tree)
      && forall q :: q != p ==> Lookup(r.0, q) == Lookup(tree, q)
  {
  }

  /**
   * The completeness check counts exactly: a stray ".png" file (say, a
   * leftover from an earlier page count) makes a complete chapter incomplete.
   */
  lemma ExtraPngMakesIncomplete(tree: Tree, p: FolderPath, n: nat, name: string, size: nat)
    requires AreImagesComplete(tree, p, n)
    requires EndsWith(name, ".png") && name !in Contents(tree, p)
    ensures !AreImagesComplete(Store(tree, p, Contents(tree, p)[name := size]), p, n)
  {
    var f := Contents(tree, p);
    PngNamesUpdate(f, name, size);
    assert name !in PngNames(f);
  }

  lemma PngNamesUpdate(f: Folder, name: string, size: nat)
    ensures PngNames(f[name := size]) == if EndsWith(name, ".png") then PngNames(f) + {name} else PngNames(f)
  {
  }

  lemma PngNamesRemove(f: Folder, name: string)
    ensures PngNames(f - {name}) == PngNames(f) - {name}
  {
  }

  lemma SubsetCard<T>(a: set<T>, b: set<T>)
    requires a <= b
    ensures |a| <= |b|
  {
    assert b == a + (b - a);
  }

  /**
   * scrap.ts, a raw file over the threshold: it is renamed to its `_skip_`
   * name with its size, the raw name is gone, and the upscaler never runs.
   */
  lemma LargeImageIsNeverUpscaled(f: Folder, i: nat, page: Page, cfg: Config)
    requires RawName(i) in AfterDownload(f, RawName(i), page.download)
    requires AfterDownload(f, RawName(i), page.download)[RawName(i)] > cfg.minImageSize * 1024
    ensures var r := ThresholdImage(f, i, page, cfg);
      && r.1 == ImageReport(KeptLarge, 0)
      && SkipName(i) in r.0 && r.0[SkipName(i)] == AfterDownload(f, RawName(i), page.download)[RawName(i)]
      && RawName(i) !in r.0
  {
    RawNameDistinct(i, i);
  }

  /**
   * scrap.ts: the upscaler is started at most twice; it is started at all
   * exactly when a raw file at most MIN_IMAGE_SIZE KiB is there, and a second
   * time exactly when the first run produced an output smaller than
   * MAX_IMAGE_SIZE KiB.
   */
  lemma UpscalerAtMostTwice(f: Folder, i: nat, page: Page, cfg: Config)
    ensures var r := ThresholdImage(f, i, page, cfg);
      var downloaded := AfterDownload(f, RawName(i), page.download);
      && r.1.upscalerRuns <= 2
      && (r.1.upscalerRuns >= 1 <==>
            RawName(i) in downloaded && downloaded[RawName(i)] <= cfg.minImageSize * 1024)
      && (r.1.upscalerRuns == 2 <==>
            && RawName(i) in downloaded && downloaded[RawName(i)] <= cfg.minImageSize * 1024
            && page.upscale.Produced? && page.upscale.size < cfg.maxImageSize * 1024)
  {
  }

  /**
   * scrap.ts: when the second upscaler run fails, the image is reported as
   * failed, yet the first, undersized output stays under the plain finished
   * name (and the raw file stays too), so it counts towards completeness.
   */
  lemma FailedRetryKeepsFirstOutput(f: Folder, i: nat, page: Page, cfg: Config)
    requires RawName(i) in AfterDownload(f, RawName(i), page.download)
    requires AfterDownload(f, RawName(i), page.download)[RawName(i)] <= cfg.minImageSize * 1024
    requires page.upscale.Produced? && page.upscale.size < cfg.maxImageSize * 1024
    requires page.retry == UpscalerFailed
    ensures var r := ThresholdImage(f, i, page, cfg);
      && r.1 == ImageReport(Failed(UpscalerError), 2)
      && ScaledName(i) in r.0 && r.0[ScaledName(i)] == page.upscale.size
      && RawName(i) in r.0
      && PngNames(r.0) == PngNames(f) + {ScaledName(i)}
  {
    NamesAndPng(i);
    var downloaded := AfterDownload(f, RawName(i), page.download);
    DownloadAddsNoPng(f, i, page.download);
    PngNamesUpdate(downloaded, ScaledName(i), page.upscale.size);
  }

  /** scrap_berwarna.ts: no threshold and no retry; the upscaler is started exactly once per image. */
  lemma UpscalerExactlyOnce(f: Folder, i: nat, page: Page)
    ensures AlwaysUpscaleImage(f, i, page).1.upscalerRuns == 1
    ensures AlwaysUpscaleImage(f, i, page).1.outcome != KeptLarge
  {
  }

  /**
   * Both variants: the raw file is gone afterwards exactly when the image
   * succeeded or no raw file was there; a failure after the download leaves it.
   */
  lemma RawRemovedUnlessFailed(v: Variant, f: Folder, i: nat, page: Page)
    ensures var r := ImageEffect(v, f, i, page);
      RawName(i) in r.0 <==>
        r.1.outcome.Failed? && RawName(i) in AfterDownload(f, RawName(i), page.download)
  {
    RawNameDistinct(i, i);
  }

  /** Both variants: image `i` touches only its raw name and its two finished names. */
  lemma ImageFrame(v: Variant, f: Folder, i: nat, page: Page, name: string)
    requires name != RawName(i) && !IsOutputOf(name, i)
    ensures var g := ImageEffect(v, f, i, page).0;
      (name in g <==> name in f) && (name in f ==> g[name] == f[name])
  {
  }

  /**
   * Both variants: an image never removes a ".png" file, adds at most one
   * (one of its own finished names), and a successful image adds exactly its
   * finished file.
   */
  lemma ImagePngs(v: Variant, f: Folder, i: nat, page: Page)
    ensures var r := ImageEffect(v, f, i, page);
      && PngNames(f) <= PngNames(r.0)
      && (PngNames(r.0) <= PngNames(f) + {ScaledName(i)} || PngNames(r.0) <= PngNames(f) + {SkipName(i)})
      && (Succeeded(r.1) ==> PngNames(r.0) == PngNames(f) + {FinishedName(r.1.outcome, i)})
  {
    match v
    case SizeThreshold(cfg) => ThresholdPngs(f, i, page, cfg);
    case AlwaysUpscale => AlwaysUpscalePngs(f, i, page);
  }

  /** The ".png" files before and after an image: none removed, at most one of its own added, its finished file on success. */
  predicate PngStep(f: Folder, g: Folder, i: nat, report: ImageReport) {
    && PngNames(f) <= PngNames(g)
    && (PngNames(g) <= PngNames(f) + {ScaledName(i)} || PngNames(g) <= PngNames(f) + {SkipName(i)})
    && (Succeeded(report) ==> PngNames(g) == PngNames(f) + {FinishedName(report.outcome, i)})
  }

  /** The download touches only the raw name, which is no ".png". */
  lemma DownloadAddsNoPng(f: Folder, i: nat, d: Download)
    ensures PngNames(AfterDownload(f, RawName(i), d)) == PngNames(f)
  {
    NamesAndPng(i);
    if d.Wrote? {
      PngNamesUpdate(f, RawName(i), d.size);
    }
  }

  lemma ThresholdPngs(f: Folder, i: nat, page: Page, cfg: Config)
    ensures var r := ThresholdImage(f, i, page, cfg); PngStep(f, r.0, i, r.1)
  {
    NamesAndPng(i);
    var raw, scaled := RawName(i), ScaledName(i);
    var downloaded := AfterDownload(f, raw, page.download);
    DownloadAddsNoPng(f, i, page.download);
    if raw !in downloaded {
    } else if downloaded[raw] > cfg.minImageSize * 1024 {
      PngNamesRemove(downloaded, raw);
      PngNamesUpdate(downloaded - {raw}, SkipName(i), downloaded[raw]);
    } else if page.upscale.Produced? {
      var once := downloaded[scaled := page.upscale.size];
      PngNamesUpdate(downloaded, scaled, page.upscale.size);
      PngNamesRemove(once, raw);
      if page.upscale.size < cfg.maxImageSize * 1024 && page.retry.Produced? {
        PngNamesUpdate(once, scaled, page.retry.size);
        PngNamesRemove(once[scaled := page.retry.size], raw);
      }
    }
  }

  lemma AlwaysUpscalePngs(f: Folder, i: nat, page: Page)
    ensures var r := AlwaysUpscaleImage(f, i, page); PngStep(f, r.0, i, r.1)
  {
    NamesAndPng(i);
    var raw, scaled := RawName(i), ScaledName(i);
    var downloaded := AfterDownload(f, raw, page.download);
    DownloadAddsNoPng(f, i, page.download);
    if page.upscale.Produced? {
      var upscaled := downloaded[scaled := page.upscale.size];
      PngNamesUpdate(downloaded, scaled, page.upscale.size);
      PngNamesRemove(upscaled, raw);
    }
  }

  /**
   * Each variant's failures that leave no finished file: nothing downloaded
   * (both scripts), or a failed first upscaler run: on a raw file no larger
   * than MIN_IMAGE_SIZE KiB in scrap.ts, on any input in scrap_berwarna.ts,
   * which has no size check before it.
   */
  predicate FinishesNothing(v: Variant, page: Page) {
    match v
    case SizeThreshold(cfg) =>
      || page.download == WroteNothing
      || (page.download.Wrote? && page.download.size <= cfg.minImageSize * 1024 && page.upscale == UpscalerFailed)
    case AlwaysUpscale => page.download == WroteNothing || page.upscale == UpscalerFailed
  }

  /** An image whose download wrote nothing (and no raw file was left over), or whose upscaler failed, adds no ".png". */
  lemma FailedImageAddsNoPng(v: Variant, f: Folder, i: nat, page: Page)
    requires FinishesNothing(v, page) && RawName(i) !in f
    ensures PngNames(ImageEffect(v, f, i, page).0) == PngNames(f)
  {
    NamesAndPng(i);
    if page.download.Wrote? {
      PngNamesUpdate(f, RawName(i), page.download.size);
    }
  }

  /**
   * Processing one image after another never stops early: image `k`'s report
   * is what it gives when started from the directory images `0 .. k-1` left,
   * whatever happened to them.
   */
  lemma {:induction false} ImagesVisitedInOrder(v: Variant, f: Folder, pages: seq<Page>, n: nat)
    requires n <= |pages|
    ensures forall k :: 0 <= k < n ==>
      ImagesEffect(v, f, pages, n).1[k] == ImageEffect(v, ImagesEffect(v, f, pages, k).0, k, pages[k]).1
  {
    if n > 0 {
      ImagesVisitedInOrder(v, f, pages, n - 1);
      var before := ImagesEffect(v, f, pages, n - 1);
      var step := ImageEffect(v, before.0, n - 1, pages[n - 1]);
      assert ImagesEffect(v, f, pages, n).1 == before.1 + [step.1];
      forall k | 0 <= k < n
        ensures ImagesEffect(v, f, pages, n).1[k] == ImageEffect(v, ImagesEffect(v, f, pages, k).0, k, pages[k]).1
      {
        if k < n - 1 {
          assert ImagesEffect(v, f, pages, n).1[k] == before.1[k];
        } else {
          assert ImagesEffect(v, f, pages, n).1[k] == step.1;
        }
      }
    }
  }

  /** `processChapter` produces one report per scraped image, in index order. */
  lemma EveryImageVisited(v: Variant, tree: Tree, p: FolderPath, pages: seq<Page>)
    requires ChapterEffect(v, tree, p, pages).1.Processed?
    ensures var reports := ChapterEffect(v, tree, p, pages).1.reports;
      && |reports| == |pages|
      && forall k :: 0 <= k < |pages| ==>
           reports[k] == ImageEffect(v, ImagesEffect(v, Contents(tree, p), pages, k).0, k, pages[k]).1
  {
    ImagesVisitedInOrder(v, Contents(tree, p), pages, |pages|);
  }

  /**
   * Starting from a directory without ".png" files, after `n` images that all
   * succeeded there are exactly `n` of them, each the finished file of one of
   * those images.
   */
  lemma {:induction false} CleanImagesFinishOneEach(v: Variant, f: Folder, pages: seq<Page>, n: nat)
    requires n <= |pages| && PngNames(f) == {}
    requires forall k :: 0 <= k < n ==> Succeeded(ImagesEffect(v, f, pages, n).1[k])
    ensures |PngNames(ImagesEffect(v, f, pages, n).0)| == n
    ensures forall name :: name in PngNames(ImagesEffect(v, f, pages, n).0) ==>
      exists k :: 0 <= k < n && IsOutputOf(name, k)
  {
    if n > 0 {
      var before := ImagesEffect(v, f, pages, n - 1);
      var step := ImageEffect(v, before.0, n - 1, pages[n - 1]);
      assert ImagesEffect(v, f, pages, n).1 == before.1 + [step.1];
      forall k | 0 <= k < n - 1 ensures Succeeded(before.1[k]) {
        assert before.1[k] == ImagesEffect(v, f, pages, n).1[k];
      }
      CleanImagesFinishOneEach(v, f, pages, n - 1);
      assert Succeeded(step.1) by {
        assert step.1 == ImagesEffect(v, f, pages, n).1[n - 1];
      }
      ImagePngs(v, before.0, n - 1, pages[n - 1]);
      var finished := FinishedName(step.1.outcome, n - 1);
      assert IsOutputOf(finished, n - 1);
      assert finished !in PngNames(before.0) by {
        if finished in PngNames(before.0) {
          var k :| 0 <= k < n - 1 && IsOutputOf(finished, k);
          OutputOwnerUnique(finished, k, n - 1);
        }
      }
      assert ImagesEffect(v, f, pages, n).0 == step.0;
      assert PngNames(step.0) == PngNames(before.0) + {finished};
      forall name | name in PngNames(step.0) ensures exists k :: 0 <= k < n && IsOutputOf(name, k) {
        if name == finished {
          assert IsOutputOf(name, n - 1);
        } else {
          assert name in PngNames(before.0);
        }
      }
    }
  }

  /**
   * Idempotence: a chapter processed from a directory without ".png" files,
   * every image of which succeeded, is complete afterwards, and processing it
   * again with the same number of scraped images changes nothing.
   */
  lemma CleanRunCompletesChapter(v: Variant, tree: Tree, p: FolderPath, pages: seq<Page>, again: seq<Page>)
    requires |pages| > 0 && PngNames(Contents(tree, p)) == {}
    requires forall k :: 0 <= k < |pages| ==>
      Succeeded(ImagesEffect(v, Contents(tree, p), pages, |pages|).1[k])
    requires |again| == |pages|
    ensures AreImagesComplete(ChapterEffect(v, tree, p, pages).0, p, |pages|)
    ensures var after := ChapterEffect(v, tree, p, pages).0;
      ChapterEffect(v, after, p, again) == (after, AlreadyComplete)
  {
    CleanImagesFinishOneEach(v, Contents(tree, p), pages, |pages|);
    assert !AreImagesComplete(tree, p, |pages|);
  }

  /** An image never creates another image's raw file. */
  lemma {:induction false} RawAbsentUntil(v: Variant, f: Folder, pages: seq<Page>, n: nat, k: nat)
    requires n <= k < |pages| && RawName(k) !in f
    ensures RawName(k) !in ImagesEffect(v, f, pages, n).0
  {
    if n > 0 {
      RawAbsentUntil(v, f, pages, n - 1, k);
      RawNameDistinct(k, n - 1);
      RawNameDistinct(n - 1, k);
      ImageFrame(v, ImagesEffect(v, f, pages, n - 1).0, n - 1, pages[n - 1], RawName(k));
    }
  }

  /** After `n` images there are at most `n` new ".png" files, one fewer when image `k < n` finished nothing. */
  lemma {:induction false} PngGrowth(v: Variant, f: Folder, pages: seq<Page>, n: nat, k: nat)
    requires n <= |pages| && k < |pages|
    requires RawName(k) !in f && FinishesNothing(v, pages[k])
    ensures |PngNames(ImagesEffect(v, f, pages, n).0)| <= |PngNames(f)| + n - (if k < n then 1 else 0)
  {
    if n > 0 {
      PngGrowth(v, f, pages, n - 1, k);
      var before := ImagesEffect(v, f, pages, n - 1).0;
      var after := ImagesEffect(v, f, pages, n).0;
      if n - 1 == k {
        RawAbsentUntil(v, f, pages, n - 1, k);
        FailedImageAddsNoPng(v, before, k, pages[k]);
      } else {
        ImageAddsAtMostOnePng(v, before, n - 1, pages[n - 1]);
      }
    }
  }

  /** One image adds at most one ".png" file. */
  lemma ImageAddsAtMostOnePng(v: Variant, f: Folder, i: nat, page: Page)
    ensures |PngNames(ImageEffect(v, f, i, page).0)| <= |PngNames(f)| + 1
  {
    var after := ImageEffect(v, f, i, page).0;
    ImagePngs(v, f, i, page);
    if PngNames(after) <= PngNames(f) + {ScaledName(i)} {
      SubsetCard(PngNames(after), PngNames(f) + {ScaledName(i)});
    } else {
      SubsetCard(PngNames(after), PngNames(f) + {SkipName(i)});
    }
  }

  /**
   * Partial failure: starting from a directory without ".png" files or the
   * raw file of image `k`, a chapter in which image `k` wrote no finished
   * file (its download failed, or its first upscaler run failed as
   * `FinishesNothing` says) is left incomplete, so the next run processes the whole chapter again.
   */
  lemma FailedImageLeavesChapterIncomplete(v: Variant, tree: Tree, p: FolderPath, pages: seq<Page>, k: nat)
    requires k < |pages| && PngNames(Contents(tree, p)) == {} && RawName(k) !in Contents(tree, p)
    requires FinishesNothing(v, pages[k])
    ensures var after := ChapterEffect(v, tree, p, pages).0;
      && !AreImagesComplete(after, p, |pages|)
      && ChapterEffect(v, after, p, pages).1.Processed?
  {
    PngGrowth(v, Contents(tree, p), pages, |pages|, k);
    assert !AreImagesComplete(tree, p, |pages|);
  }
}
