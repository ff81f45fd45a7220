# Comic scraper download pipeline, modelled in Dafny

Two command-line scripts download comic chapters and upscale every page with waifu2x:

- `scrap.ts` downloads from komiku.id. It reads a comic URL and lists the chapter links, oldest first. It looks up a typed chapter by its key, reads how many chapters to fetch, and processes them one after another. Each image is downloaded. An image larger than MIN_IMAGE_SIZE KiB is kept under a `_skip_.png` name. Otherwise the upscaler runs, runs once more when its output is smaller than MAX_IMAGE_SIZE KiB, and the raw file is deleted.
- `scrap_berwarna.ts` downloads the One Piece colour edition. It keeps a most-recently-used history of comics in a file and lists chapters "1" to "1200". It offers to resume after the highest chapter already on disk. Every image is downloaded, upscaled once and its raw file deleted.

Both scripts share one rule for resuming. A chapter directory counts as complete exactly when it holds as many ".png" files as the page has images; a complete chapter is skipped. An error on one image is caught and the loop goes on to the next image.

The model is sequential, as the scripts are: every call is awaited one at a time. Its modules:

- `Wrappers`: `Option` and `Result`.
- `Strings`: the JavaScript string operations the scripts chain: `indexOf`, `includes`, `split`, `replace` with a string pattern, `endsWith`, and the ASCII case folding of a regular expression with the `i` flag.
- `Numerals`: `String(n)` and the global `parseInt` without a radix (white space, sign, `0x`, longest digit run, `NaN` as `None`).
- `Disk`: the output tree `OUTPUT_DIR/<title>/<chapter>/<file>` as maps from names to sizes, and the file names of one image. It also holds the outcomes of the download and of one upscaler run, which are oracle inputs. Its `OutputDir` class owns the tree and changes it one file operation at a time.
- `Pipeline`: the per-image state machine in both variants, the per-chapter effect, and the completeness check.
- `Selection`: `findIndex`, the `howMany` prompt and the bound of the download loop, shared by both scripts.
- `Komiku`: `scrap.ts`.
- `History`: the `HistoryManager` class of `scrap_berwarna.ts`.
- `Berwarna`: the rest of `scrap_berwarna.ts`: the image filter, the title, the chapter list, the chapters on disk, resume and selection, and the `ComicProcessor` class.

Two behaviours of the code are easy to misread:

- `parseChapter` (scrap.ts:34-44) throws on a URL without "chapter-": line 39 calls `split` on `undefined`. `Komiku.ParseChapter` returns `Err(NoChapterMarker)` there. The main flow prints the key of every chapter before asking for one (scrap.ts:225-227), so one such URL in the listing stops the run. `Komiku.PlanStart` returns `UnparsableChapter` for it.
- Resuming (scrap_berwarna.ts:327-334) looks for the exact text `String(parseInt(last) + 1)` in the chapter list, so a last chapter with no leading number asks for "NaN" and finds nothing.

## Model

| member | source | states |
|---|---|---|
| Strings.IndexFromFirst | scrap.ts:35-39 | `indexOf` from a position returns a real occurrence and no earlier one at or after that position; `None` means no occurrence after it at all |
| Strings.IndexOfFirst | scrap.ts:35-39 | `indexOf` returns the first occurrence, and -1 exactly when the text does not include the pattern |
| Strings.IndexOfIs | scrap.ts:199 | a match with no match before it is what `indexOf` returns |
| Strings.SplitPieces | scrap.ts:35-39 | `split` gives more than one piece exactly when the separator occurs, and no piece contains the separator |
| Strings.SplitThenJoin | scrap.ts:35-39 | splitting loses nothing: joining the pieces with the separator gives the text back |
| Strings.SplitWithout | scrap.ts:35-39 | without the separator, `split` returns the whole text as its one piece |
| Strings.SplitAt | scrap.ts:35-39 | the first piece ends at the first occurrence, and the rest after it is split again |
| Strings.SplitCharCount | scrap.ts:39-40 | splitting on one character gives one piece more than the number of times it occurs |
| Strings.FirstOccurrenceAfter | scrap.ts:35-36 | if `p` is absent from `a` and its last character occurs only once in `p`, the first `p` in `a + p + b` starts right after `a` |
| Strings.NotIncludesMissingChar | scrap.ts:37-38 | a text lacking one of the pattern's characters does not include it |
| Strings.NotIncludesConcat | scrap.ts:35-38 | prefixing characters that cannot start the pattern creates no occurrence |
| Numerals.NatToString | scrap_berwarna.ts:179 | `String(n)` is a non-empty run of decimal digits |
| Numerals.DigitsValueOfNatToString | scrap_berwarna.ts:179 | reading the digits of `String(n)` gives back `n` |
| Numerals.NatToStringInjective | scrap_berwarna.ts:179 | different numbers print differently |
| Numerals.DigitPrefix | scrap.ts:239-242 | the digit prefix `parseInt` reads is the longest one, and only digits |
| Numerals.HexPrefix | scrap.ts:239-242 | the hexadecimal prefix after `0x` is the longest prefix made of hexadecimal digits |
| Numerals.DigitPrefixOfDigits | scrap.ts:239-242 | an all-digit text is its own digit prefix |
| Numerals.DigitPrefixStops | scrap.ts:239-242 | the digit prefix stops at the first non-digit |
| Numerals.MagnitudeOfDigits | scrap.ts:239-242 | a digit run followed by something other than a digit or `x` has the run's value |
| Numerals.MagnitudeOfAllDigits | scrap.ts:239-242 | an all-digit text has its digits' value as magnitude |
| Numerals.ParseIntOfDigits | scrap.ts:239-242 | `parseInt` of a run of digits is its value |
| Numerals.ParseIntOfLeadingDigits | scrap.ts:239-242 | `parseInt` stops at the first non-digit: "3 chapters" reads 3 |
| Numerals.ParseIntOfNegativeDigits | scrap.ts:239-242 | `parseInt("-" + digits)` is minus their value |
| Numerals.ParseIntOfIntToString | scrap_berwarna.ts:333 | `parseInt(String(n)) == n` for every integer, negative ones included |
| Disk.Store | scrap.ts:27-31 | writing one chapter directory sets that directory and leaves every other one as it was |
| Disk.StoreTwice | scrap.ts:101-109 | a second write to the same directory overrides the first |
| Disk.NamesAndPng | scrap.ts:136-138 | both finished names end in ".png" and the raw name does not |
| Disk.OutputOwnerUnique | scrap.ts:136-138 | a finished file name belongs to exactly one image |
| Disk.ScaledIsNotSkip | scrap.ts:137-138 | a plain finished name is never a `_skip_` name |
| Disk.RawNameDistinct | scrap.ts:136-138 | raw names differ per image and never equal a finished name |
| Disk.OutputDir.constructor | scrap.ts:14 | the output directory starts with the given tree |
| Disk.OutputDir.EnsureFolder | scrap.ts:27-31 | `mkdirSync` creates the chapter directory if missing and keeps its files |
| Disk.OutputDir.WriteFile | scrap.ts:72-77 | a write replaces the file at that name |
| Disk.OutputDir.Stat | scrap.ts:156 | `statSync` gives the file's size, or fails when it is missing |
| Disk.OutputDir.Rename | scrap.ts:161 | `renameSync` moves the file and its size to the new name |
| Disk.OutputDir.Unlink | scrap.ts:172 | `unlinkSync` removes the file, and fails exactly when it is missing |
| Disk.OutputDir.Download | scrap.ts:65-81 | the download writes the raw file or nothing, never throwing |
| Disk.OutputDir.Upscale | scrap.ts:84-89 | one upscaler run writes its output or fails; it fails exactly when its input file is missing or the oracle says so |
| Pipeline.ChapterTouchedOnlyWhenProcessed | scrap.ts:119-131 | a chapter is processed exactly when it has images and is not complete; otherwise the tree is unchanged, and other chapter directories never change |
| Pipeline.ExtraPngMakesIncomplete | scrap.ts:92-98 | the completeness check needs the exact count: one more ".png" file makes a complete chapter incomplete |
| Pipeline.LargeImageIsNeverUpscaled | scrap.ts:156-161 | a raw file above MIN_IMAGE_SIZE*1024 is renamed to its `_skip_` name with its size, the raw name is gone, and the upscaler never runs |
| Pipeline.UpscalerAtMostTwice | scrap.ts:162-172 | the upscaler runs at most twice; it runs at all exactly when the raw file is at most MIN_IMAGE_SIZE*1024, and twice exactly when the first output is below MAX_IMAGE_SIZE*1024 |
| Pipeline.FailedRetryKeepsFirstOutput | scrap.ts:162-172 | when the second upscaler run fails, the image is reported failed but its first, undersized output stays as its ".png" file, next to the raw file |
| Pipeline.UpscalerExactlyOnce | scrap_berwarna.ts:191-215 | the colour variant starts the upscaler exactly once per image and never keeps a large image |
| Pipeline.RawRemovedUnlessFailed | scrap.ts:152-176 | the raw file remains exactly when the image failed after a raw file was there |
| Pipeline.ImageFrame | scrap.ts:135-177 | an image touches only its raw name and its two finished names |
| Pipeline.ImagePngs | scrap.ts:135-177 | an image removes no ".png" file and adds at most one of its own; a successful image adds exactly its finished file |
| Pipeline.DownloadAddsNoPng | scrap.ts:154 | the download adds no ".png" file |
| Pipeline.ThresholdPngs | scrap.ts:152-176 | the ".png" effect of one image in the size-threshold variant |
| Pipeline.AlwaysUpscalePngs | scrap_berwarna.ts:202-214 | the ".png" effect of one image in the always-upscale variant |
| Pipeline.FailedImageAddsNoPng | scrap_berwarna.ts:202-214 | an image whose download wrote nothing, or whose first upscaler run failed (on a small raw file in scrap.ts, on any input in the colour variant), adds no ".png" file |
| Pipeline.ImagesVisitedInOrder | scrap.ts:135-177 | every image is processed, in index order, each from the directory the previous ones left; an error does not stop the loop |
| Pipeline.EveryImageVisited | scrap.ts:119-177 | a processed chapter has one report per scraped image, each the image's effect on what came before |
| Pipeline.CleanImagesFinishOneEach | scrap.ts:135-177 | from a directory without ".png" files, `n` successful images leave exactly `n` of them, each belonging to one image |
| Pipeline.CleanRunCompletesChapter | scrap.ts:92-98 | after a clean run the chapter is complete, and running it again with the same number of images skips it |
| Pipeline.RawAbsentUntil | scrap.ts:135-177 | an image's raw file does not appear before that image is processed |
| Pipeline.PngGrowth | scrap.ts:135-177 | `n` images add at most `n` ".png" files, one fewer when one of them finished nothing |
| Pipeline.ImageAddsAtMostOnePng | scrap.ts:152-176 | one image adds at most one ".png" file |
| Pipeline.FailedImageLeavesChapterIncomplete | scrap.ts:92-98 | a chapter in which one image wrote no finished file (its download failed in either script, or its first upscaler run failed: on a raw file of at most MIN_IMAGE_SIZE KiB in scrap.ts, on any input in scrap_berwarna.ts) stays incomplete and is processed again on the next run |
| Selection.FindIndex | scrap_berwarna.ts:373 | `findIndex` by string equality: the first position holding the target, and -1 exactly when it is absent |
| Selection.HowMany | scrap.ts:238-246 | a typed count is accepted exactly when `parseInt` reads a number of at least 1, and is that number; with no answer the count is the number of remaining chapters, refused only when none remain |
| Selection.DefaultCountIsRemaining | scrap.ts:238-242 | with no answer the count is every chapter from the start to the end |
| Selection.TypedCountReadsLeadingNumber | scrap.ts:239-242 | a typed count is read up to its first non-digit |
| Selection.NonPositiveCountRefused | scrap.ts:243-246 | a count of zero or below is refused |
| Selection.RangeEnd | scrap.ts:251-255 | the loop stops at `min(start + howMany, length)`: within the list, after at most `howMany` chapters, and after exactly `howMany` unless the list ends first |
| Selection.DefaultRangeRunsToEnd | scrap_berwarna.ts:380-393 | with the default count the loop runs to the end of the list |
| Komiku.ParseChapterFails | scrap.ts:34-39 | `parseChapter` throws exactly for the URLs without "chapter-" |
| Komiku.PieceAfterMarker | scrap.ts:35-36 | the piece after the first "chapter-" is the rest of the URL when it holds no other "chapter-" |
| Komiku.KeyBeforeSuffix | scrap.ts:37-38 | cutting at "-bahasa-indonesia" and then at "/" leaves the key |
| Komiku.ChapterRawOfUrl | scrap.ts:35-38 | the raw text cut from a chapter URL is its key |
| Komiku.ParseChapterOfUrl | scrap.ts:34-44 | round trip: a key with at most one dash is read back from its chapter URL unchanged |
| Komiku.ParseChapterKeepsFirstNumber | scrap.ts:39-42 | a key of more than two dash-separated parts is cut to its first part |
| Komiku.ParseChapterEmptyKey | scrap.ts:43 | an empty key gives "unknown" |
| Komiku.CleanTargetStripsMarker | scrap.ts:199 | the lookup strips exactly the "chapter-" the main flow adds |
| Komiku.FindChapterFrom | scrap.ts:198-201 | the lookup returns the first chapter whose key equals the target, or -1 when none does; it throws when an earlier chapter has no key |
| Komiku.FormatReplacesFirstDot | scrap.ts:229-230 | only the first "." of the typed chapter becomes "-" |
| Komiku.ComicTitleOfUrl | scrap.ts:214-215 | the title of `.../manga/<slug>/...` is the slug |
| Komiku.ComicTitleUnknown | scrap.ts:214-215 | a URL without "manga/" is titled "unknown_comic" |
| Komiku.ChapterUrls | scrap.ts:186-190 | the chapter list is the links prefixed with the site and reversed |
| Komiku.ProcessImage | scrap.ts:136-176 | one image changes the directory as the threshold state machine says and reports its outcome |
| Komiku.ProcessChapter | scrap.ts:112-179 | `processChapter` changes the tree as the chapter's effect says: nothing without images or when complete, otherwise every image in order |
| Komiku.PlanStart | scrap.ts:218-236 | an empty list is refused; a chapter without a key stops the lookup; otherwise a typed key that some chapter has is accepted, the start is the first chapter with that key, and "not found" means no chapter has it |
| Komiku.PlanRange | scrap.ts:218-246 | an empty list, a chapter without a key and a missing key are refused as by the lookup, and any lookup error is passed on; once the start is found, the range is refused as an invalid count exactly when `howMany` refuses, and otherwise accepted; an accepted range starts at the first chapter with the typed key and its count is `howMany` of the answer for the chapters from there |
| Komiku.PlanRun | scrap.ts:208-246 | the run is refused as an invalid URL exactly when the answer is missing, empty or lacks "https://"; with a valid URL the outcome is `PlanRange` on the reversed list (the same error, or its start and `howMany` count), with the URL's title |
| Komiku.FindChapterFromFinds | scrap.ts:198-201 | when chapter `k` has the key, the lookup finds one at or before `k` |
| Komiku.TypedChapterStartsRun | scrap.ts:229-257 | typing "b.c" for a chapter keyed "b-c" with the default count starts at the first such chapter and runs to the end of the list |
| Komiku.TypedChapterFound | scrap.ts:229-236 | typing "b.c" finds a chapter keyed "b-c" at or before any chapter with that key |
| Komiku.DefaultCountRunsToEnd | scrap.ts:238-242 | the default count covers the chapters from the start to the end |
| Komiku.ChaptersEffectNext | scrap.ts:251-257 | one more chapter of the loop is one more chapter step |
| Komiku.DownloadChapters | scrap.ts:251-257 | the loop processes chapters `start` up to `end`, in ascending order |
| Komiku.Run | scrap.ts:204-258 | the main flow's result is its plan; nothing is written when the plan fails; otherwise exactly the chosen range is processed in order |
| History.UrlByIndex | scrap_berwarna.ts:82-84 | lookup is 1-based and returns null for 0, an index past the end, and an empty URL |
| History.WithoutAbsent | scrap_berwarna.ts:59-61 | when no entry has the URL, nothing is removed |
| History.WithoutFirstOccurrence | scrap_berwarna.ts:59-61 | only the first entry with the URL is removed |
| History.WithoutUnique | scrap_berwarna.ts:59-61 | removing the entry keeps URLs unique, and the URL no longer occurs |
| History.AddEntryShape | scrap_berwarna.ts:58-63 | the new entry is at index 0, followed by the earlier list without its first entry with that URL, in order; one tail entry is cut exactly when the list would exceed the maximum |
| History.AddEntryWithRoom | scrap_berwarna.ts:58-63 | a new URL added to a list with room goes in front of the whole list, so nothing is evicted |
| History.AddEntryNoGrowth | scrap_berwarna.ts:61-63 | re-adding a URL already in the list does not make it longer |
| History.AddEntryBounded | scrap_berwarna.ts:63 | a list within MAX_HISTORY stays within it |
| History.AddEntryEvictsOldest | scrap_berwarna.ts:62-63 | adding a new URL to a full list drops the oldest entry |
| History.AddEntryKeepsUrlsUnique | scrap_berwarna.ts:58-63 | adding keeps the URLs unique |
| History.AddEntryThenFirst | scrap_berwarna.ts:58-84 | the comic just added is history entry number 1 |
| History.HistoryManager.constructor | scrap_berwarna.ts:35-39 | a new manager starts empty and then loads the file |
| History.HistoryManager.LoadHistory | scrap_berwarna.ts:41-50 | a missing file keeps the list, an unreadable one empties it, and otherwise the file's list replaces it |
| History.HistoryManager.SaveHistory | scrap_berwarna.ts:52-56 | saving writes the list when possible, swallows errors and never changes the list |
| History.HistoryManager.AddToHistory | scrap_berwarna.ts:58-65 | the list becomes the deduplicate, unshift and pop of the old list, and is then saved |
| History.HistoryManager.GetUrlByIndex | scrap_berwarna.ts:82-84 | the 1-based lookup on the current list |
| Berwarna.LowerTwice | scrap_berwarna.ts:140-141 | case folding is idempotent |
| Berwarna.KeepSrcIgnoresCase | scrap_berwarna.ts:139-145 | the image filter ignores case |
| Berwarna.KeptPagesMembers | scrap_berwarna.ts:135-148 | the kept images are exactly the page's images whose source ends in .jpg, .jpeg or .png and holds none of the excluded words |
| Berwarna.KeptPagesConcat | scrap_berwarna.ts:135-148 | filtering keeps page order |
| Berwarna.ChapterPageTitled | scrap_berwarna.ts:169-173 | a chapter page address the script builds is titled "one-piece-berwarna" |
| Berwarna.UnmarkedUrlUnknown | scrap_berwarna.ts:169-173 | a URL without the marker, in any case, is titled "unknown" |
| Berwarna.ChapterPosition | scrap_berwarna.ts:175-180 | chapter "n" of the list is at index n-1 for n from 1 to 1200, and every other number is absent |
| Berwarna.ChapterNumberOf | scrap_berwarna.ts:116 | a chapter name written by the script reads back as its number |
| Berwarna.InsertByNumberAtLeast | scrap_berwarna.ts:116 | an insertion step keeps a lower bound on the numbers |
| Berwarna.InsertByNumberSorted | scrap_berwarna.ts:116 | an insertion step keeps the names sorted by number |
| Berwarna.InsertByNumberPermutes | scrap_berwarna.ts:116 | an insertion step adds exactly the inserted name |
| Berwarna.SortByNumberCorrect | scrap_berwarna.ts:116 | the sort is ascending by number and a permutation of its input |
| Berwarna.PngFoldersMembers | scrap_berwarna.ts:109-115 | the filter keeps exactly the listed directories holding a ".png" file |
| Berwarna.DownloadedChaptersSpec | scrap_berwarna.ts:103-120 | the downloaded chapters are exactly the listed directories holding a ".png" file, sorted by number, so the last has the highest number; when the listing names every directory, every chapter directory holding a ".png" file is among them |
| Berwarna.SortedLastIsHighest | scrap_berwarna.ts:328-330 | in a sorted list the last chapter has the highest number |
| Berwarna.NothingDownloadedWithoutDirectory | scrap_berwarna.ts:103-120 | no title directory, or an error reading it, gives no downloaded chapter |
| Berwarna.FinishedChapterIsListed | scrap_berwarna.ts:103-120 | a chapter in which one image finished is listed as downloaded by the next run |
| Berwarna.PngsOnlyGrow | scrap_berwarna.ts:242-244 | later images never remove the ".png" files earlier ones left |
| Berwarna.LastDownloaded | scrap_berwarna.ts:328-332 | the result is the list's last element, and there is none exactly when the list is empty or its last name is empty |
| Berwarna.ResumeIndex | scrap_berwarna.ts:331-334 | the resume index is -1 exactly when there is no last chapter or `String(parseInt(last) + 1)` is not in the list; otherwise it is that name's first position |
| Berwarna.ResumeAfterChapter | scrap_berwarna.ts:328-334 | after chapter `k` the resume index is `k` when `k` < 1200, and -1 after chapter 1200 |
| Berwarna.ResumeAfterUnnumbered | scrap_berwarna.ts:333 | a last chapter without a leading number asks for "NaN", which is never found |
| Berwarna.ChooseComicUrl | scrap_berwarna.ts:295-316 | no answer is refused; an accepted URL contains "https://"; a number is refused as an index exactly when it names no entry, an entry holding "https://" is accepted and any other entry is refused as an invalid URL; any other answer is accepted as the URL itself exactly when it holds "https://", and refused as an invalid URL otherwise |
| Berwarna.ReopenLatest | scrap_berwarna.ts:302-308 | after opening a comic, answering "1" reopens it |
| Berwarna.PastedUrlUsed | scrap_berwarna.ts:309-311 | a pasted URL with "https://" is used as it is |
| Berwarna.SelectStart | scrap_berwarna.ts:348-378 | no option is refused; option "2" succeeds exactly when the resume index is not -1 and starts there; any other option starts at the first position of the typed chapter |
| Berwarna.SelectRange | scrap_berwarna.ts:348-387 | a refused start is refused with the same error; otherwise the count is `howMany` of the answer for the chapters from the start, and the range is refused exactly when that count is |
| Berwarna.PlanRun | scrap_berwarna.ts:295-387 | a refused URL refuses the run with the same error; after an accepted URL the outcome is the selected range on the 1200 chapters, with the chosen URL |
| Berwarna.ResumeRunsToEnd | scrap_berwarna.ts:357-393 | option "2" with the default count after chapter `k` < 1200 runs from index `k` to the end of the list |
| Berwarna.NothingAfterLatest | scrap_berwarna.ts:357-365 | with chapter 1200 on disk, option "2" is refused |
| Berwarna.TypedChapterStart | scrap_berwarna.ts:367-378 | a typed chapter "n" starts at index n-1 for n from 1 to 1200, and any other number is not found |
| Berwarna.ChaptersRunNext | scrap_berwarna.ts:391-393 | one more chapter of the loop is one more chapter step |
| Berwarna.ChaptersRunFrame | scrap_berwarna.ts:93-97 | processing chapters changes nothing outside the title directory |
| Berwarna.ProcessImage | scrap_berwarna.ts:191-215 | one image changes the directory as the always-upscale state machine says and reports its outcome |
| Berwarna.ChooseStart | scrap_berwarna.ts:327-378 | the option question gives the selected start |
| Berwarna.SelectRun | scrap_berwarna.ts:327-387 | the option and count questions give the selected start and count |
| Berwarna.ComicProcessor.constructor | scrap_berwarna.ts:221-223 | a new processor holds a fresh history manager loaded from the file |
| Berwarna.ComicProcessor.ProcessChapter | scrap_berwarna.ts:225-246 | `processChapter` changes the tree as the chapter's effect says: nothing without kept images or when complete, otherwise every image in order |
| Berwarna.ComicProcessor.DownloadChapters | scrap_berwarna.ts:391-393 | the loop processes chapters `start` up to `end`, in ascending order |
| Berwarna.ComicProcessor.Start | scrap_berwarna.ts:283-396 | with a listing that names every directory of the title, the result is the plan made from the chapters on disk; a valid URL is recorded in the history even when selection fails later; nothing is written unless a plan is settled, and then exactly the chosen range is processed in order |
| Berwarna.ComicProcessor.ChooseUrl | scrap_berwarna.ts:295-316 | the URL question gives the chosen URL or the error |

## Left out

- HTTP requests (axios) and HTML selection (cheerio), including the selector fallbacks at scrap_berwarna.ts:132-135. The scraper is an oracle from a page URL to its list of images. A URL it has nothing for gives the empty list, as the `catch` does.
- The streaming download is an oracle. It either wrote a raw file of some size or wrote nothing, since it swallows its own errors.
- The waifu2x command is an oracle per run: it fails, or it writes an output file of some size. The shell command text is not modelled.
- Console output, the ora spinner, `console.clear` and `prompt`. The answers to the prompts are parameters.
- `showHistory`, `getHistory`, `displayChaptersInfo` and `formatChapterDisplay` print or return data without changing anything.
- dotenv and the environment. The thresholds are the `Config` parameter, with 900 and 1024 as defaults. Paths are the names in the tree.
- JSON parsing and printing of the history file, and `new Date().toISOString()`. Loading is modelled as "missing, unreadable or a list"; the time stamp is a parameter. A file holding JSON that is not a list is not modelled.
- Berwarna.DownloadedChapters: the `parseFloat` comparator is modelled as the value of the leading decimal digits, with -1 for a name without one, and `sort` as a stable insertion sort. Floating-point values, names such as "1e3" or "1.5", and the inconsistent order JavaScript gives to `NaN` names are not modelled.
- Berwarna.DownloadedChapters: the title directory holds only directories. A listed name with no directory stands for a plain file and is dropped, as `isDirectory` drops it. An error from `readdirSync` or `statSync` is the listing `None`. `ComicProcessor.Start` requires a listing that names every chapter directory of the title, as `readdirSync` does.
- Numerals.ParseInt: integers are unbounded, so the loss of precision of very long digit runs is not modelled.
- Berwarna.ChooseComicUrl: a history number is read as the value of its digits. That is `parseInt` of an all-digit answer, up to floating-point precision.
- Disk.Scrape: the scraper and the per-image oracles are fixed for a whole run, so a chapter URL processed twice in one run gets the same images and outcomes both times.
- Errors of `mkdirSync` and `renameSync` (permissions, a full disk) are not modelled; these calls always succeed in the model.
- Komiku.ChapterStep: leaves the tree unchanged for a chapter URL without a key. The real `processChapter` would throw out of the run there. That case cannot arise, because the main flow stops earlier when any chapter has no key.
- index.ts (a file-serving HTTP server) and public/script.js (the browser reader) are not part of this model.
