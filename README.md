# Manhwa narration pipeline: timing core

This project models, in Dafny, the timing core of a pipeline that turns
manhwa chapter images into narrated videos. It follows the path from a
marked narration script to chapter-wide mark timestamps, and from those to
the interval each image is shown. It also covers the checkable pieces of
the script generator that writes those scripts.

* **Mark insertion** (`TextCleanup`, text_cleanup.py): every `*` of a
  script becomes `<mark name="pN"/>`, with N counting from 1 in document
  order. The model walks the characters with the same counter as the
  `re.sub` callback.
* **SSML chunker** (`SsmlChunker`, `_split_ssml` in tts_pipeline.py):
  1. strip the text, then remove one leading `<speak>` and one trailing
     `</speak>`;
  2. keep the text whole when it fits the budget;
  3. otherwise split it at the mark tags with the capturing regular
     expression, where the model's `Tokenize` is that `re.split`;
  4. pack the parts greedily and re-wrap each chunk.
* **Timeline accumulator** (`TtsPipeline`, `process_chapter` and
  `process_all`): each chunk is synthesized in turn, its audio written to a
  chunk file in the shared temp folder, and the running offset is added to
  its local timepoints. On success the chapter unlinks its chunk files and
  removes the temp folder, and `rmdir` raises when anything else is left
  in it. `process_all` runs the chapters in sorted order and drops a
  chapter whose processing raises. The chunk files such a chapter wrote
  stay in the folder, so every later chapter of another number raises at
  `rmdir` too (see "## Findings"). The temp folder is modelled as the set
  of names it holds.
* **Interval builder** (`VideoMaker`, `_load_timepoints` and
  `create_chapter_video`):
  1. sort the mark times;
  2. order the images by their numeric prefix;
  3. cut the transitions to the image count;
  4. frame them with `0.0` and the audio length;
  5. emit one clip per positive interval, clip `idx` showing `images[idx]`.
* **Script generator** (`ScriptGenerator`, manhwa_script_generator.py):
  * `validate_response`;
  * image ordering, and chapters visited in sorted order;
  * batches of five images, sent within one running conversation;
  * trimming the context to the seed messages plus the last twenty;
  * joining the replies into the chapter's script.

Python's string and integer primitives are modelled in `PyText`:

* `strip`, `split`, `join`, `lower` on ASCII;
* `str(n)` and `int(s)`;
* `re.search(r"\d+")`, `PurePath.stem` and `str` ordering.

`Sorting` models `sorted`/`list.sort` as a stable insertion sort, and
`sorted(..., key=int(...))` as a keyed sort that fails where a key raises.

What the code takes from the outside world becomes a parameter:

* `TtsPipeline`:
  * the speech service is `service`, a function from the request's SSML to
    the reply (an HTTP error, or a body with optional `audioContent` and
    `timepoints`);
  * pydub's measured length of the decoded audio is `durationMs`;
  * reading a script is `read`, which gives `None` when reading raises;
  * the script folder's listing is `entries`.
* `VideoMaker`:
  * the audio's length is `audioDuration`, and the parsed timepoints are
    `points`; each is `None` when its file is missing;
  * the image folder's entry names are `imageEntries`, `None` when the
    folder is missing.
* `ScriptGenerator`:
  * the model call is `ask`, from the messages sent to the reply text;
  * the chapter listing is `entries`, the directory test `isDir`, and each
    folder's listing `listing`;
  * the conversation functions take the reply check as a parameter
    `check`, and `ProcessChapters` fixes it to `validate_response(·, 5)`.

Times are `real`.

### Behaviour of the code that the model keeps

* The chunk budget counts only the inner text. The `<speak>` wrapper is
  not counted (tts_pipeline.py:56).
* A chunk can be empty:
  * in mid-stream, when the next part alone is over the budget;
  * at the start, when the first part already is.

  Either one is always followed by that over-long part as a chunk of its
  own (`SsmlChunker.EmptyChunkBeforeOverLong`).
* The chapter timeline is in time order when every chunk's own
  timepoints lie in order within its audio (`TtsPipeline.TimelineSorted`).
  The code checks none of this.
* In `process_all`, the chapter number is read outside the `try`
  (tts_pipeline.py:130). A script whose stem has no digit therefore aborts
  the whole run rather than being skipped.
* In `process_chapters`, a rejected reply or an image name without an
  integer prefix raises. This ends the whole run, after the earlier
  chapters' scripts have already been written.
* The script generator reads the image key from the whole file name, not
  the stem (manhwa_script_generator.py:127). A name without `-`, such as
  `3.jpg`, keeps its extension in the text given to `int` and raises
  (`ScriptGenerator.KeyNeedsSeparator`). The video maker reads the key from
  the stem instead, so `3.jpg` has key 3 there.
* `create_chapter_video` raises when the image folder is missing. It also
  raises at `clips[0]` when every interval is non-positive. These are the
  outcomes `ImageFolderMissing` and `NoClips`.

## Model

| member | source | states |
|---|---|---|
| TextCleanup.ReplaceAsterisksWithMarks | text_cleanup.py:11-23 | the updated text is the script with the k-th `*` replaced by the k-th mark tag and every other character kept; the reported count `counter - 1` is the number of `*` in the input |
| TextCleanup.Marked | text_cleanup.py:15-21 | defines the text `re.sub` produces, built up from the end: each `*` becomes the mark tag numbered one more than the stars before it, and every other character is kept; the lemmas below state its properties |
| TextCleanup.StarBecomesTag | text_cleanup.py:13-21 | the `*` at index i is the (stars before it + 1)-th one, and its tag `<mark name="pN"/>` with that N stands whole in the output, right after the output of the text before it |
| TextCleanup.OtherCharacterKept | text_cleanup.py:21 | every non-`*` character is copied unchanged, at the position right after the output of the text before it |
| TextCleanup.MarkedPrefix | text_cleanup.py:21 | the output of a prefix of the script is a prefix of the output, so the text keeps its order |
| TextCleanup.MarkTagHasNoStar | text_cleanup.py:8 | the mark template holds no `*` whatever the number |
| TextCleanup.MarkedHasNoStar | text_cleanup.py:8-21 | the output holds no `*` |
| TextCleanup.MarkedWithoutStars | text_cleanup.py:21 | a script without `*` comes back unchanged |
| TextCleanup.LaterStarLargerNumber | text_cleanup.py:13-19 | a later `*` gets a strictly larger mark number |
| TextCleanup.MarkTagInjective | text_cleanup.py:8 | two equal mark tags carry the same number, so mark names are unique |
| PyText.Strip | tts_pipeline.py:44 | `strip()` gives the slice of the text left when the whitespace at both ends is cut off; the result has no whitespace at either end, and is empty exactly when the text is all whitespace |
| PyText.StripNoop | tts_pipeline.py:97 | a text whose two ends are not whitespace is its own strip |
| PyText.SplitOnCount | manhwa_script_generator.py:64 | `s.split(c)` gives one more piece than `s` has occurrences of `c` |
| PyText.SplitOnPieces | manhwa_script_generator.py:64 | no piece of `s.split(c)` holds `c` |
| PyText.SplitOnJoin | manhwa_script_generator.py:64 | joining the pieces of `s.split(c)` with `c` gives `s` back |
| PyText.SplitOnOfJoin | manhwa_script_generator.py:64 | splitting undoes joining when no piece holds the separator |
| PyText.Decimal | text_cleanup.py:17 | `str(n)` is a non-empty run of digits with no leading zero |
| PyText.PyIntDecimal | video_maker.py:55 | `int(str(n)) == n` |
| PyText.PyIntRejects | manhwa_script_generator.py:127 | `int` raises on a string with no surrounding whitespace or sign that holds a character other than a digit or `_` |
| PyText.FirstDigitIndex | tts_pipeline.py:130 | the index where `re.search(r"\d+")` starts: no character before it is a digit, and the character there is one, unless the text has no digit |
| PyText.FirstDigitRun | tts_pipeline.py:130 | `re.search(r"\d+", s)` finds nothing exactly when `s` has no digit; otherwise it finds the non-empty run of digits that starts at the first digit and runs on until a non-digit or the end |
| PyText.FirstDigitRunAfter | tts_pipeline.py:130 | any non-empty run of digits `d`, leading zeros included, written after a digit-free prefix and before the end or a non-digit, is the run found |
| PyText.Stem | tts_pipeline.py:130 | the stem is a prefix of the name; when it differs from the name, the rest is a suffix starting at the last `.`, which is neither the first nor the last character |
| PyText.StemOfSuffixed | video_maker.py:55 | the stem of `base.ext` is `base` for a non-empty base and a dot-free extension |
| PyText.FirstPiece | video_maker.py:55 | `s.split(c)[0]` is the prefix of `s` before the first `c`, or all of `s` |
| PyText.FirstPieceOfSplit | manhwa_script_generator.py:127 | the first piece of the split is `FirstPiece` |
| PyText.LexLeTotal | tts_pipeline.py:128 | `str` ordering is total |
| PyText.AsciiLowerAt | manhwa_script_generator.py:126 | `lower()` works character by character |
| Sorting.SortByCorrect | tts_pipeline.py:128 | `sorted` gives an ordered sequence of the same length that is a permutation of its input, also through any projection |
| Sorting.SortByPermutes | manhwa_script_generator.py:117 | `sorted` is a permutation of its input |
| Sorting.InsertSorted | video_maker.py:20 | inserting into a sorted sequence keeps it sorted and adds one element |
| Sorting.FilterMembers | video_maker.py:54 | the filtered list holds exactly the elements that satisfy the condition |
| Sorting.KeyedBy | video_maker.py:55 | the keys are computed for every element, or the result names an element whose key raises |
| Sorting.SortByKeyCorrect | manhwa_script_generator.py:125-128 | the sort by an integer key succeeds exactly when every key can be computed, and then gives a permutation of the input in non-decreasing key order |
| Sorting.FilterSortByKeyCorrect | video_maker.py:53-56 | sorting the selected elements by key fails exactly when one of them has no key, naming such an element; otherwise it holds exactly the selected elements, in non-decreasing key order |
| SsmlChunker.Unwrap | tts_pipeline.py:43-47 | defines the text after `strip()`, with one leading `<speak>` and one trailing `</speak>` removed when each is present; `UnwrapWrap` states its property |
| SsmlChunker.UnwrapWrap | tts_pipeline.py:44-48 | removing the wrapper undoes adding it: `<speak>` + text + `</speak>` unwraps to the text |
| SsmlChunker.MatchLength | tts_pipeline.py:53 | the regular expression matches at an index exactly with the length of the mark tag starting there, and that length is unique |
| SsmlChunker.TagEndsAtFirstQuote | tts_pipeline.py:53 | a mark tag closes at the first quote after its opening |
| SsmlChunker.Tokenize | tts_pipeline.py:53 | `re.split` with the capturing group gives an odd number of parts that concatenate to the text, with a mark tag at every odd position |
| SsmlChunker.ScanShape | tts_pipeline.py:53 | the scan over the match lengths alternates text parts and tags, starts and ends with text, and concatenates to the text |
| SsmlChunker.ScanParts | tts_pipeline.py:53 | the scan cuts at every match, leftmost first: no position inside a text part starts a match, and each tag part is the match at its own offset |
| SsmlChunker.TokenizeParts | tts_pipeline.py:53 | no mark tag starts at any position inside an even part, and each odd part is the one mark tag starting at its offset in the text |
| SsmlChunker.SplitSsml | tts_pipeline.py:43-62 | `_split_ssml` returns the wrapped chunk contents; when the unwrapped text fits the budget, the result is that text wrapped, alone |
| SsmlChunker.ChunkInners | tts_pipeline.py:43-62 | defines the inner texts of the chunks: the unwrapped text alone when it fits the limit, otherwise the texts of the groups of its parts; the Chunks lemmas state its properties |
| SsmlChunker.PackChunks | tts_pipeline.py:54-61 | the packing loop gives exactly the wrapped texts of the greedy groups |
| SsmlChunker.Groups | tts_pipeline.py:53-61 | defines the greedy packing as groups of parts: a part that would take the current group over the limit makes the loop emit that group, even empty, and start a new one holding the part; the last group is emitted when its text is not empty; the Groups lemmas state its properties |
| SsmlChunker.GroupsConcat | tts_pipeline.py:55-61 | the groups' texts concatenate to the pending group followed by all parts |
| SsmlChunker.GroupsFlatten | tts_pipeline.py:55-61 | the groups hold the parts in order, each once; only trailing empty parts are left out |
| SsmlChunker.GroupsFit | tts_pipeline.py:56-59 | every group is within the budget, or is a single part that alone is over it |
| SsmlChunker.GroupsMembers | tts_pipeline.py:55-59 | every element of every group is one of the parts |
| SsmlChunker.GroupsStartWithOverLong | tts_pipeline.py:56-58 | a pending group already over the budget is emitted first |
| SsmlChunker.GroupsOfNothing | tts_pipeline.py:60-61 | no group is emitted when there is no text at all |
| SsmlChunker.GroupsLastNotEmpty | tts_pipeline.py:60-61 | when there is text, the last group emitted holds some |
| SsmlChunker.GroupsEmptyBeforeOverLong | tts_pipeline.py:56-59 | an empty group is always followed by a group over the budget |
| SsmlChunker.ChunksRoundTrip | tts_pipeline.py:53-61 | the chunks' inner contents concatenate to the unwrapped text |
| SsmlChunker.ChunksWrapped | tts_pipeline.py:50-61 | there is at least one chunk, and each one starts with `<speak>` and ends with `</speak>` |
| SsmlChunker.ChunksWithinBudget | tts_pipeline.py:56-61 | each chunk's inner content is within the budget, or is a single split part that alone is over it |
| SsmlChunker.FirstTokenOverLong | tts_pipeline.py:56-58 | when the first part alone is over the budget, the first chunk is empty |
| SsmlChunker.LastChunkNotEmpty | tts_pipeline.py:60-61 | when the text is split, the last chunk is not empty |
| SsmlChunker.EmptyChunkBeforeOverLong | tts_pipeline.py:56-59 | when the text is split, an empty chunk is followed by a chunk over the budget |
| SsmlChunker.MarkTagsNeverSplit | tts_pipeline.py:53-59 | no chunk boundary falls strictly inside a split part, and the odd parts are the mark tags, so every tag lies whole inside one chunk |
| SsmlChunker.BoundaryOutsideTokens | tts_pipeline.py:55-59 | a group boundary of the packing falls between parts, never inside one |
| SsmlChunker.WholeTextOutsideTokens | tts_pipeline.py:50-51 | the two boundaries of an unsplit text, its start and its end, fall outside every part |
| TtsPipeline.Seconds | tts_pipeline.py:84 | the duration in seconds is non-negative and is the millisecond length divided by 1000 |
| TtsPipeline.SynthesizeChunk | tts_pipeline.py:64-85 | an HTTP error and a body without `audioContent` raise; otherwise the chunk's audio, its length in seconds and its timepoints (none when absent) are returned |
| TtsPipeline.SynthesizeAllChunkwise | tts_pipeline.py:103-105 | synthesis succeeds exactly when every chunk does, giving each chunk's own result in order; otherwise it fails with the first failing chunk's error |
| TtsPipeline.SynthesizeAllErrPrefix | tts_pipeline.py:105 | once a chunk fails, the chapter fails with that error |
| TtsPipeline.Shift | tts_pipeline.py:107-111 | a chunk's timepoints moved by the offset keep their names and order |
| TtsPipeline.Timeline | tts_pipeline.py:102-112 | the timeline holds as many timepoints as all chunks reported together |
| TtsPipeline.Segments | tts_pipeline.py:106 | the chunk audio is kept in chunk order |
| TtsPipeline.AccumulateOne | tts_pipeline.py:107-112 | appending a chunk appends its timepoints shifted by the sum of the earlier durations, and adds its duration to the offset |
| TtsPipeline.TimelinePrefix | tts_pipeline.py:102-112 | the timeline of the first n chunks is a prefix of the whole timeline |
| TtsPipeline.TimelineAt | tts_pipeline.py:107-111 | timepoint j of chunk i stands at position (count of earlier timepoints + j), with its name unchanged and its time increased by the sum of the earlier chunks' durations |
| TtsPipeline.TimelineSorted | tts_pipeline.py:102-112 | when each chunk's timepoints are in order within its audio, the whole timeline is in time order and within [0, total duration] |
| TtsPipeline.DurationsNonNegative | tts_pipeline.py:112 | the final offset is non-negative when every duration is |
| TtsPipeline.SynthesizeChapter | tts_pipeline.py:102-112 | the accumulation loop gives the chunk audio, the rebased timeline and the sum of durations, or the first chunk's error; the temp folder then holds, besides what it held, the chunk files of exactly the chunks synthesized before any failure |
| TtsPipeline.AppendShifted | tts_pipeline.py:107-111 | the inner loop appends the chunk's timepoints moved by the offset |
| TtsPipeline.ProcessChapter | tts_pipeline.py:90-125 | `process_chapter` from a temp folder's contents: the stripped script is wrapped, split and synthesized; on success the chapter's chunk files are unlinked and `rmdir` raises when anything is left; the result and the folder left are `ChapterInFolder` |
| TtsPipeline.ChapterInFolder | tts_pipeline.py:90-125 | defines `process_chapter` from a temp folder's contents: a failing synthesis leaves the chunk files written before it; on success the chapter's chunk files are removed, and `rmdir` raises when anything else is left; `ChapterInFolderEffect` states its properties |
| TtsPipeline.UnlinkChunkFiles | tts_pipeline.py:118-120 | the unlink loop removes the chapter's chunk files `1..k` from the folder and nothing else |
| TtsPipeline.ChapterInFolderEffect | tts_pipeline.py:103-121 | a chapter succeeds exactly when its synthesis does and the folder held nothing but its own chunk files, and it then leaves the folder empty; a failing synthesis keeps everything in the folder; a file that is not one of its chunk files makes it raise and stays; a synthesis that fails after its first chunk leaves that chunk's file |
| TtsPipeline.Synthesized | tts_pipeline.py:103-106 | the number of chunks synthesized, from the first, before one raises: all of them exactly when the whole synthesis succeeds, and otherwise the index of the chunk that fails |
| TtsPipeline.SynthesizedFirstFailure | tts_pipeline.py:103-106 | when the first `i` chunks succeed and chunk `i` fails, exactly `i` chunk files are written |
| TtsPipeline.ChunkFileNumber | tts_pipeline.py:104 | a chunk file's name determines its chapter number |
| TtsPipeline.ChunkFilesOfOthers | tts_pipeline.py:104 | no chunk file of one chapter is among the chunk files of another |
| TtsPipeline.ChapterChunksRoundTrip | tts_pipeline.py:97-99 | the chapter's chunks, unwrapped and concatenated, are the stripped script |
| TtsPipeline.ChapterShape | tts_pipeline.py:102-112 | a synthesized chapter has one audio segment per chunk, as many timepoints as all chunks reported, and a total duration that is the sum of the durations and is non-negative |
| TtsPipeline.OneChunkScenario | tts_pipeline.py:102-112 | one chunk of 4.0 s keeps its timepoints at 1.0 s and 2.5 s, and the total is 4.0 s |
| TtsPipeline.TwoChunkScenario | tts_pipeline.py:102-112 | a second chunk's timepoint at 0.5 s lands at 4.5 s after a first chunk of 4.0 s |
| TtsPipeline.ChapterNumber | tts_pipeline.py:130 | a file has no chapter number exactly when its stem holds no digit |
| TtsPipeline.ChapterNumberOfName | tts_pipeline.py:130 | `chapterN.txt` is chapter N |
| TtsPipeline.ChapterNumberOfStem | tts_pipeline.py:130 | a stem made of a digit-free prefix, a non-empty digit run `d`, then the end or a non-digit, gives the chapter number `int(d)` |
| TtsPipeline.NumberedFile | tts_pipeline.py:130 | a name made of a digit-free prefix, a digit run `d` and an extension gives the chapter number `int(d)` |
| TtsPipeline.LeadingZeros | tts_pipeline.py:130 | `chapter007.txt` is chapter 7 |
| TtsPipeline.ProcessAll | tts_pipeline.py:126-136 | `process_all` as written: the chapters run in sorted order in one temp folder, each from the folder the previous one left; the result is the summaries and the folder left, or the first file whose stem has no digit |
| TtsPipeline.Processed | tts_pipeline.py:126-136 | defines `process_all` as written: the loop over the files from one temp folder that every chapter shares; `RunAppend`, `ProcessedClean` and `StaleChunkDropsLaterChapters` state its properties |
| TtsPipeline.FileTurn | tts_pipeline.py:129-135 | one file of the loop: a stem without a digit ends the whole run with that file; otherwise the chapter is tried and the run goes on |
| TtsPipeline.TryChapter | tts_pipeline.py:131-135 | a chapter contributes a summary when it reads and processes, nothing when it raises, and passes on the temp folder as the chapter leaves it |
| TtsPipeline.RunAppend | tts_pipeline.py:129-135 | the run over `a + b` is the run over `b` from the folder the run over `a` left, after the summaries of `a` |
| TtsPipeline.RunErrPrefix | tts_pipeline.py:130 | once a file without a digit in its stem is reached, the whole run ends with it |
| TtsPipeline.ProcessedAbortsAlike | tts_pipeline.py:130 | the run as written and the isolated run stop at the same file without a chapter number, or both go through |
| TtsPipeline.ProcessedClean | tts_pipeline.py:126-136 | from an empty temp folder, when no chapter raises after writing a chunk file, the run as written gives the isolated run's summaries and leaves the folder empty |
| TtsPipeline.LeftoverStays | tts_pipeline.py:119-121 | a chunk file of chapter `m` in the folder stays there while no file of chapter `m` comes, and the run adds no summary meanwhile |
| TtsPipeline.StaleChunkDropsLaterChapters | tts_pipeline.py:119-135 | as written, a chapter that raises after writing its first chunk file makes the run keep no summary of any later chapter of another number, where the isolated run keeps each of them that succeeds |
| TtsPipeline.Summaries | tts_pipeline.py:129-135 | defines the run with each chapter in an empty temp folder of its own, the corrected definition of "## Findings": a file without a digit in its stem aborts, and a chapter adds its summary when it succeeds; `SummariesAppend`, `SummariesOne` and `SummariesErrPrefix` state its properties |
| TtsPipeline.SummariesAppend | tts_pipeline.py:129-135 | failure isolation for the run with each chapter in a temp folder of its own: the run over `a + b` is the run over `a` followed by the run over `b`, so a chapter that fails changes nothing for the others |
| TtsPipeline.SummariesErrPrefix | tts_pipeline.py:130 | a file without a digit in its stem ends the whole run |
| TtsPipeline.SummariesOne | tts_pipeline.py:130-135 | one file aborts without a chapter number; otherwise it gives a summary exactly when its chapter processes, reporting the number, the audio name and the number of timepoints |
| TtsPipeline.ScriptFilesSorted | tts_pipeline.py:128 | the scripts are visited in `str` order, and they are exactly the folder's `.txt` names |
| VideoMaker.LoadTimepoints | video_maker.py:17-21 | the loaded times are non-decreasing and are a permutation of the input's times |
| VideoMaker.OrderImagesCorrect | video_maker.py:53-56 | the images are the entries whose name starts with a digit, each as often as listed, in non-decreasing order of the integer before the first `-` of the stem; the ordering fails exactly when one of them has no such integer |
| VideoMaker.ImageKeyOfName | video_maker.py:55 | `N-rest.jpg` has the key N |
| VideoMaker.Truncated | video_maker.py:61-62 | the transitions are cut to the first `len(images)` when there are more of them, and are otherwise unchanged |
| VideoMaker.Boundaries | video_maker.py:64-65 | the boundaries are `0.0`, the truncated transitions, then the audio length |
| VideoMaker.BoundariesTruncate | video_maker.py:61-65 | the boundaries hold no more interior points than images or transitions, keep the first transitions, and stop at one of the two counts |
| VideoMaker.ClipsUpTo | video_maker.py:68-76 | defines the clips of the pairs before `n`, in index order, one per pair whose interval is positive; `ClipsFaithful` and `ClipsComplete` state its properties |
| VideoMaker.BuildClips | video_maker.py:67-76 | the clip loop with its `break` and `continue` builds the clips of all visited pairs |
| VideoMaker.ClipsFaithful | video_maker.py:71-75 | clip for pair `idx` shows `images[idx]`, starts at `boundary[idx]` and lasts `boundary[idx+1] - boundary[idx] > 0`; indices strictly increase, and there are at most as many clips as pairs visited |
| VideoMaker.ClipsComplete | video_maker.py:72-74 | a visited pair has a clip exactly when its interval is positive, so no image shifts into a skipped interval |
| VideoMaker.ClipsContiguous | video_maker.py:67-76 | with all intervals positive there is one clip per pair, clip k showing image k, each starting where the previous one ends |
| VideoMaker.ChapterVideo | video_maker.py:40-76 | defines the outcome of `create_chapter_video`: missing files, a missing image folder, a bad image name, no images, no clips, or the clips with the audio length; `RenderedClips` and `NoMarksOneClip` state its properties |
| VideoMaker.CreateChapterVideo | video_maker.py:40-76 | the outcomes are: missing audio or timepoints returns before anything else; a missing folder raises; an unparsable image name raises; no images returns; no positive interval fails at `clips[0]`; otherwise the clips are rendered |
| VideoMaker.RenderedClips | video_maker.py:67-79 | a rendered chapter has between one and `min(len(images), len(boundaries)-1)` clips, each showing the image of its own index over that interval with positive length, in increasing index order |
| VideoMaker.NoMarksOneClip | video_maker.py:61-76 | with no marks, one clip shows the first image over the whole audio |
| VideoMaker.TwoImagesScenario | video_maker.py:61-76 | marks at 1.0 s and 2.5 s over 7.0 s of audio with two images give clips [0, 1.0) and [1.0, 2.5) |
| ScriptGenerator.ValidateResponse | manhwa_script_generator.py:63-69 | a reply is accepted exactly when it has `expected` non-blank stripped `*`-separated lines; it is then returned unchanged, and otherwise the error reports the count found |
| ScriptGenerator.StarredLinesValid | manhwa_script_generator.py:63-69 | a reply of lines each ending with `*`, none blank, has exactly those lines, stripped, and passes validation for their number |
| ScriptGenerator.StrippedLines | manhwa_script_generator.py:64 | non-blank pieces followed by an empty one give the stripped pieces |
| ScriptGenerator.StrippedNonBlankCons | manhwa_script_generator.py:64 | the comprehension keeps a piece exactly when it is non-blank after stripping |
| ScriptGenerator.OrderImagesCorrect | manhwa_script_generator.py:125-128 | the images are the files with a `.jpg`, `.jpeg` or `.png` extension in any case, each as often as listed, in non-decreasing key order; the ordering fails exactly when one of them has no integer before its first `-` |
| ScriptGenerator.KeyNeedsSeparator | manhwa_script_generator.py:127 | a file named `N.jpg` cannot be ordered |
| ScriptGenerator.BatchesPartition | manhwa_script_generator.py:134-135 | the batches concatenate back to the image list; each holds one to five images, all but the last exactly five, and there are `ceil(n / 5)` of them |
| ScriptGenerator.BatchCount | manhwa_script_generator.py:134 | there are `ceil(n / 5)` batches |
| ScriptGenerator.BatchAt | manhwa_script_generator.py:134-135 | batch k is the slice `[5k, 5k + 5)` of the list, cut at its end |
| ScriptGenerator.Trim | manhwa_script_generator.py:153-154 | above the seed messages plus twenty, the context becomes the seed messages followed by the last twenty, exactly that long; otherwise it is unchanged |
| ScriptGenerator.BatchMessage | manhwa_script_generator.py:136-137 | the user message holds one image per file of the batch, in order |
| ScriptGenerator.StepKeepsContext | manhwa_script_generator.py:137-154 | one batch keeps the context as the seed messages plus at most twenty; the request starts with the seed messages; a grown context is cut to its last twenty; the reply is appended to the responses |
| ScriptGenerator.RunKeepsContext | manhwa_script_generator.py:134-154 | the context invariant holds after every batch, and a successful run records one response per batch after the earlier ones |
| ScriptGenerator.RunResponsesValid | manhwa_script_generator.py:148-150 | every recorded response passed validation |
| ScriptGenerator.RunAfterStep | manhwa_script_generator.py:134-154 | a run is its first batch followed by the run of the remaining batches, or the first batch's failure |
| ScriptGenerator.RunFirstRejection | manhwa_script_generator.py:148 | a first reply without five lines ends the chapter with that reply and its count |
| ScriptGenerator.ChapterScriptReplies | manhwa_script_generator.py:125-159 | a chapter's script exists exactly when its images can be ordered and every reply passes; it is then the replies, one per batch, in batch order, joined by a blank line, each with exactly five lines |
| ScriptGenerator.Step | manhwa_script_generator.py:135-154 | defines one batch: the request is sent, and a reply that fails the check raises; otherwise the reply is recorded and the messages trimmed; `StepKeepsContext` states its properties |
| ScriptGenerator.Run | manhwa_script_generator.py:134-154 | defines the batches in order from a conversation state, stopping at the first reply that raises; `RunKeepsContext`, `RunResponsesValid` and `RunFirstRejection` state its properties |
| ScriptGenerator.SendBatch | manhwa_script_generator.py:135-154 | the batch body sends the request, validates the reply, records it and trims |
| ScriptGenerator.RunBatches | manhwa_script_generator.py:130-155 | the batch loop runs every batch of the ordered images from the seed messages |
| ScriptGenerator.GenerateChapter | manhwa_script_generator.py:125-159 | one chapter folder orders its images, runs the batches and joins the replies |
| ScriptGenerator.ChapterScript | manhwa_script_generator.py:125-159 | defines one chapter folder's script: a bad image name raises; otherwise the batches run from the seed messages and the replies are joined by blank lines; `ChapterScriptReplies` states its properties |
| ScriptGenerator.ProcessChapters | manhwa_script_generator.py:74-160 | the run visits the entries in sorted order, skipping `.ipynb_checkpoints` and non-directories, writes `{chapter}.txt` for each chapter, and stops at the first chapter that raises |
| ScriptGenerator.Generate | manhwa_script_generator.py:117-159 | defines what the run over the sorted entries writes and the exception that stops it; `GenerateWritesChapters` and `GenerateExactly` state its properties |
| ScriptGenerator.GenerateWritesChapters | manhwa_script_generator.py:117-159 | every saved script belongs to a chapter folder and is that chapter's joined replies |
| ScriptGenerator.GenerateExactly | manhwa_script_generator.py:117-159 | the saved scripts are those of the chapter folders in sorted order, the j-th script for the j-th folder, up to the first folder that raises; the run ends without an exception exactly when every folder got its script, and otherwise the exception is the next folder's failure |

## Left out

- HTTP, base64 and audio I/O are left out: the POST to the speech endpoint, base64 decoding, the bytes of the MP3 files, pydub's length measurement, audio concatenation and export (tts_pipeline.py:76-84, 113-116). The service is the parameter `service`, which returns the decoded reply, and the length is `durationMs`. Of the temp folder only the names it holds are modelled: a written chunk adds its file name, an unlink removes it, and `rmdir` succeeds exactly when the set is empty.
- Chunk failures after the chunk's file is written are not modelled. In the source such a chunk leaves its own file in the temp folder as well, which feeds the `rmdir` failure of "## Findings". In the model a chunk either fails before its file is written (HTTP error, no `audioContent`) or succeeds. The cases left out:
  - pydub cannot decode the written audio (tts_pipeline.py:84);
  - the reply's `timepoints` member is JSON null, and iterating it raises `TypeError` (tts_pipeline.py:107);
  - a timepoint entry lacks `markName` or `timeSeconds`, and the lookup raises `KeyError` (tts_pipeline.py:109-110).
- Timepoint entries are assumed well formed. A `Timepoint` always carries a mark name and a time.
- Failures of the export and of the JSON write after `rmdir` are not modelled either.
- Negative SSML length limits are excluded: `maxLen` is a `nat`, where `max_ssml_length` is an `int` (tts_pipeline.py:25) whose default is 4900. Under a negative limit even an empty part with an empty current chunk would flush a chunk (tts_pipeline.py:49, 55), and the model does not describe that case.
- The JSON written with the global timepoints is left out (tts_pipeline.py:123). So is the JSON read by `_load_timepoints`: the parsed points are a parameter.
- A saved script's path is modelled as `{chapter}.txt`, without the `scripts_out` folder that `os.path.join` puts in front (manhwa_script_generator.py:157). A failing `open` or `write` of the script (lines 158-159) is not modelled.
- `str(audio_out)` in a summary is modelled as the file name `chapterN.mp3`, without the output folder.
- Rendering is left out: moviepy clip and composite construction, `set_audio`, `write_videofile` and the ffmpeg step (video_maker.py:48-49, 75, 79-116). A clip is the record (image index, image, start, duration). The audio length is a parameter.
- `process_all_chapters` is not part of this model, because its process pool exists only for concurrency.
- image_processing.py and zip_utility.py are not part of this model: they hold image numerics and filesystem I/O.
- `encode_image` is left out: it resizes with PIL using float scale factors and base64-encodes. An image in a message is named by its folder and file.
- `ask` is total and image encoding cannot fail. In the source a raising `client.messages.create` (manhwa_script_generator.py:140-146), an empty `reply.content` at `reply.content[0]` (line 147) or a failing `encode_image` (line 136) propagates out of `process_chapters`. Like a rejected reply, it would stop the run at that chapter, and the model has no `Failure` for it.
- The Anthropic client call is the parameter `ask`. Its model, token limit, temperature and system prompt, the `isinstance` fallback on `reply.content` and `time.sleep` are left out.
- The tolerance between the measured audio length and the accumulated offset is not modelled, because it depends on codec rounding the code does not show.
- `argparse` entry points, logging, prints and `os.makedirs` are left out.
- Characters are restricted to ASCII in a few places: `\d`, `str.isdigit` and `int()` digits, and `lower()` letters. Other Unicode digits and letters are not recognised.
- Sorting.SortBy: stability is part of the definition, but no lemma states it. Only order and permutation are proved.
- VideoMaker.LoadTimepoints: `points.sort` works in place on a list, and the model sorts a sequence by value. Aliasing of that list is not modelled because nothing else refers to it.
- A file that cannot be read counts as raising. `read` returns `None` for it.
- TextCleanup.ReplaceAsterisksWithMarks: the file is read and written back in text mode (text_cleanup.py:12, 22), with newline translation, and the function returns `None` after a `print` (text_cleanup.py:23). The model takes the content read and returns the updated text with the number of marks. Newline translation and the print are not modelled.

## Findings

| source | as written | input that shows it | evidently intended | confidence | as-written member | corrected member |
|---|---|---|---|---|---|---|
| tts_pipeline.py:119-135 | every chapter works in one temp folder; a chapter whose synthesis raises after its first chunk leaves that chunk's file there, so every later chapter of another number raises at `temp_dir.rmdir()` and the `except` drops its summary | `chapter1.txt` whose second chunk's request fails, followed by `chapter2.txt` that synthesizes: `process_all` returns no summary for chapter 2 | one chapter's failure does not stop the others: chapter 2 gets its summary | not executed | TtsPipeline.StaleChunkDropsLaterChapters | TtsPipeline.SummariesAppend |

`TtsPipeline.ProcessAll` models the code as written (`Processed`). The
isolated run `Summaries` is the corrected definition, and
`TtsPipeline.ProcessedClean` shows that the two agree whenever no chapter
leaves a chunk file behind.
