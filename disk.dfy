/**
 * The output tree both scripts write to (`OUTPUT_DIR/<title>/<chapter>/<file>`),
 * the file names of one chapter's images, and the outcomes of the two external
 * effects the per-image pipeline waits on: the streaming download and one run
 * of the waifu2x upscaler.
 */
module Disk {
  import opened Wrappers
  import opened Strings
  import opened Numerals

  /** One chapter directory: file name to size in bytes. */
  type Folder = map<string, nat>

  /** One title directory: chapter directory name to its files. */
  type TitleDir = map<string, Folder>

  /** The output root: title directory name to title directory. */
  type Tree = map<string, TitleDir>

  /** Where one chapter's images go: `OUTPUT_DIR/<title>/<chapter>`. */
  datatype FolderPath = FolderPath(title: string, chapter: string)

  /** The chapter directory at `p`, `None` when it does not exist. */
  function Lookup(tree: Tree, p: FolderPath): Option<Folder> {
    if p.title in tree && p.chapter in tree[p.title] then Some(tree[p.title][p.chapter]) else None
  }

  /** The files at `p`; an absent directory has none. */
  function Contents(tree: Tree, p: FolderPath): Folder {
    match Lookup(tree, p)
    case None => map[]
    case Some(f) => f
  }

  /** The tree with the directory at `p` (created with its parents if missing) holding exactly `f`. */
  function Store(tree: Tree, p: FolderPath, f: Folder): (t: Tree)
    ensures Lookup(t, p) == Some(f)
    ensures forall q :: q != p ==> Lookup(t, q) == Lookup(tree, q)
  {
    var titleDir := if p.title in tree then tree[p.title] else map[];
    tree[p.title := titleDir[p.chapter := f]]
  }

  lemma StoreTwice(tree: Tree, p: FolderPath, f: Folder, g: Folder)
    ensures Store(Store(tree, p, f), p, g) == Store(tree, p, g)
  {
    var titleDir := if p.title in tree then tree[p.title] else map[];
    assert Store(tree, p, f)[p.title] == titleDir[p.chapter := f];
    assert titleDir[p.chapter := f][p.chapter := g] == titleDir[p.chapter := g];
  }

  /** The names that the completeness check counts: those ending in ".png". */
  function PngNames(f: Folder): set<string> {
    set n | n in f && EndsWith(n, ".png")
  }

  /**
   * `areImagesComplete(folderPath, expectedCount)`, identical in both scripts:
   * false for a missing directory, otherwise the number of ".png" names equals
   * the expected count exactly, so both fewer and more files give false.
   */
  predicate AreImagesComplete(tree: Tree, p: FolderPath, expectedCount: nat) {
    match Lookup(tree, p)
    case None => false
    case Some(f) => |PngNames(f)| == expectedCount
  }

  /** `raw_image_{i+1}.jpg`: where image `i` is downloaded to. */
  function RawName(i: nat): string {
    "raw_image_" + NatToString(i + 1) + ".jpg"
  }

  /** `scaled_image_{i+1}.png`: the upscaler's output for image `i`. */
  function ScaledName(i: nat): string {
    "scaled_image_" + NatToString(i + 1) + ".png"
  }

  /** `scaled_image_{i+1}_skip_.png`: image `i` kept unscaled because it was already large. */
  function SkipName(i: nat): string {
    "scaled_image_" + NatToString(i + 1) + "_skip_.png"
  }

  /** `name` is one of the two finished files image `i` can leave behind. */
  predicate IsOutputOf(name: string, i: nat) {
    name == ScaledName(i) || name == SkipName(i)
  }

  /** Both finished names are counted by the completeness check; the raw name is not. */
  lemma {:induction false} NamesAndPng(i: nat)
    ensures EndsWith(ScaledName(i), ".png") && EndsWith(SkipName(i), ".png")
    ensures !EndsWith(RawName(i), ".png")
  {
    var d := NatToString(i + 1);
    assert ScaledName(i)[|ScaledName(i)| - 4..] == ".png";
    assert SkipName(i)[|SkipName(i)| - 4..] == ".png";
    assert RawName(i)[|RawName(i)| - 1] == 'g';
  }

  /** `"<head>" + a + "<tail>" == "<head>" + b + "<tail>"` forces `a == b`. */
  lemma CancelAround(head: string, a: string, b: string, tail: string)
    requires head + a + tail == head + b + tail
    ensures a == b
  {
    var s := head + a + tail;
    assert |a| == |b|;
    assert s[|head|..|head| + |a|] == a;
    assert (head + b + tail)[|head|..|head| + |b|] == b;
  }

  /** No finished file name belongs to two images: names from different images never collide. */
  lemma {:induction false} OutputOwnerUnique(name: string, i: nat, j: nat)
    requires IsOutputOf(name, i) && IsOutputOf(name, j)
    ensures i == j
  {
    var a, b := NatToString(i + 1), NatToString(j + 1);
    if name == ScaledName(i) && name == ScaledName(j) {
      CancelAround("scaled_image_", a, b, ".png");
      NatToStringInjective(i + 1, j + 1);
    } else if name == SkipName(i) && name == SkipName(j) {
      CancelAround("scaled_image_", a, b, "_skip_.png");
      NatToStringInjective(i + 1, j + 1);
    } else if name == ScaledName(i) {
      ScaledIsNotSkip(a, b);
    } else {
      ScaledIsNotSkip(b, a);
    }
  }

  /** A plain finished name never equals a `_skip_` one, since the number part holds digits only. */
  lemma ScaledIsNotSkip(a: string, b: string)
    requires AllDigits(a) && AllDigits(b)
    ensures "scaled_image_" + a + ".png" != "scaled_image_" + b + "_skip_.png"
  {
    var s, t := "scaled_image_" + a + ".png", "scaled_image_" + b + "_skip_.png";
    if |s| == |t| {
      assert |a| == |b| + 6;
      assert s[13 + |b|] == a[|b|];
      assert t[13 + |b|] == '_';
    }
  }

  /** Raw names are distinct per image, and never equal a finished name. */
  lemma {:induction false} RawNameDistinct(i: nat, j: nat)
    ensures RawName(i) == RawName(j) ==> i == j
    ensures !IsOutputOf(RawName(i), j)
  {
    if RawName(i) == RawName(j) {
      CancelAround("raw_image_", NatToString(i + 1), NatToString(j + 1), ".jpg");
      NatToStringInjective(i + 1, j + 1);
    }
    assert RawName(i)[0] == 'r';
    assert ScaledName(j)[0] == 's' && SkipName(j)[0] == 's';
  }

  /**
   * What the streaming download leaves behind. It catches its own errors, so
   * it either wrote a file of some size at the raw path or wrote nothing.
   */
  datatype Download = Wrote(size: nat) | WroteNothing

  /** One run of the external upscaler: the command failed, or it wrote an output file of some size. */
  datatype Upscale = UpscalerFailed | Produced(size: nat)

  /**
   * One image as the scraper lists it, together with what the network and the
   * upscaler will do for it: the download, the first upscaler run and, where
   * the script runs it again, the second.
   */
  datatype Page = Page(src: string, download: Download, upscale: Upscale, retry: Upscale)

  /** The scraper's answer for a page URL; a URL it has nothing for (or fails on) gives the empty list. */
  function Scrape(scraped: map<string, seq<Page>>, url: string): seq<Page> {
    if url in scraped then scraped[url] else []
  }

  /** The folder after a download to `raw`. */
  function AfterDownload(f: Folder, raw: string, d: Download): Folder {
    match d
    case WroteNothing => f
    case Wrote(size) => f[raw := size]
  }

  /**
   * The output directory, whose contents the scripts change one awaited call
   * at a time (mkdir, write, rename, unlink, the upscaler's output).
   */
  class OutputDir {
    var tree: Tree

    constructor (initial: Tree)
      ensures tree == initial
    {
      tree := initial;
    }

    /** `ensureFolderExists`: `mkdirSync(path, { recursive: true })` when the directory is missing. */
    method EnsureFolder(p: FolderPath)
      modifies this
      ensures tree == Store(old(tree), p, Contents(old(tree), p))
    {
      tree := Store(tree, p, Contents(tree, p));
    }

    /** The bytes a download or the upscaler leaves at `name`, replacing any earlier file. */
    method WriteFile(p: FolderPath, name: string, size: nat)
      modifies this
      ensures tree == Store(old(tree), p, Contents(old(tree), p)[name := size])
    {
      tree := Store(tree, p, Contents(tree, p)[name := size]);
    }

    /** `statSync(path).size`; `None` where `statSync` throws because the file is missing. */
    method Stat(p: FolderPath, name: string) returns (size: Option<nat>)
      ensures size == if name in Contents(tree, p) then Some(Contents(tree, p)[name]) else None
    {
      var f := Contents(tree, p);
      size := if name in f then Some(f[name]) else None;
    }

    /** `renameSync(from, to)` within one directory; the target is replaced. */
    method Rename(p: FolderPath, from: string, to: string)
      requires from in Contents(tree, p)
      modifies this
      ensures tree == Store(old(tree), p, (Contents(old(tree), p) - {from})[to := Contents(old(tree), p)[from]])
    {
      var f := Contents(tree, p);
      tree := Store(tree, p, (f - {from})[to := f[from]]);
    }

    /** `unlinkSync(path)`; `ok` is false where it throws because the file is missing. */
    method Unlink(p: FolderPath, name: string) returns (ok: bool)
      modifies this
      ensures ok <==> name in Contents(old(tree), p)
      ensures tree == if ok then Store(old(tree), p, Contents(old(tree), p) - {name}) else old(tree)
    {
      var f := Contents(tree, p);
      ok := name in f;
      if ok {
        tree := Store(tree, p, f - {name});
      }
    }

    /** The awaited download: a write at `raw` or nothing (its own errors are swallowed). */
    method Download(p: FolderPath, raw: string, d: Download)
      modifies this
      ensures tree == if d.Wrote? then Store(old(tree), p, AfterDownload(Contents(old(tree), p), raw, d)) else old(tree)
    {
      if d.Wrote? {
        WriteFile(p, raw, d.size);
      }
    }

    /**
     * One awaited upscaler run from `input` to `output`; `ok` is false where
     * the command fails, which it always does when `input` is missing.
     */
    method Upscale(p: FolderPath, input: string, output: string, run: Upscale) returns (ok: bool)
      modifies this
      ensures ok <==> input in Contents(old(tree), p) && run.Produced?
      ensures tree == if ok then Store(old(tree), p, Contents(old(tree), p)[output := run.size]) else old(tree)
    {
      ok := input in Contents(tree, p) && run.Produced?;
      if ok {
        WriteFile(p, output, run.size);
      }
    }
  }
}
