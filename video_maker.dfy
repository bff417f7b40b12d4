/** The interval builder of video_maker.py (`create_chapter_video`): the
    chapter's mark times, sorted, become the transitions between images;
    they are cut to the number of images, framed by 0.0 and the audio's
    length, and every consecutive pair of boundaries with a positive length
    becomes one clip showing the image of the same index. Rendering itself
    (moviepy, ffmpeg) is outside the model: the result is the list of clips
    that would be composited. */
module VideoMaker {
  import opened Wrappers
  import opened PyText
  import opened Sorting
  import TtsPipeline

  type Timepoint = TtsPipeline.Timepoint

  /** `ImageClip(images[idx]).set_start(start).set_duration(dur)`. */
  datatype Clip = Clip(imageIndex: nat, image: string, start: real, duration: real)

  /** How `create_chapter_video` ends: it returns early on missing inputs or
      an image folder with no usable image, raises on a missing image folder,
      on an image name whose prefix is not an integer, or when no clip is
      built (`clips[0]`), and otherwise renders the clips over the audio. */
  datatype VideoOutcome =
    | MissingFiles
    | NoImages
    | ImageFolderMissing
    | BadImageName(name: string)
    | NoClips
    | Rendered(clips: seq<Clip>, duration: real)

  // ---------------------------------------------------------------------
  // Timepoints
  // ---------------------------------------------------------------------

  predicate TimeLe(a: Timepoint, b: Timepoint) {
    a.timeSeconds <= b.timeSeconds
  }

  function TimeOf(p: Timepoint): real {
    p.timeSeconds
  }

  /** `_load_timepoints` after the JSON is parsed: the points sorted by time
      (stably, as `list.sort`), then their times. The result is in
      non-decreasing order and holds exactly the input's times. */
  function LoadTimepoints(points: seq<Timepoint>): (times: seq<real>)
    ensures |times| == |points|
    ensures forall k :: 0 < k < |times| ==> times[k - 1] <= times[k]
    ensures multiset(times) == multiset(MapSeq(points, TimeOf))
  {
    assert IsTotal(TimeLe);
    SortByCorrect(points, TimeLe, TimeOf);
    var sorted := SortBy(points, TimeLe);
    assert forall k :: 0 < k < |sorted| ==> TimeLe(sorted[k - 1], sorted[k]);
    MapSeq(sorted, TimeOf)
  }

  // ---------------------------------------------------------------------
  // Images
  // ---------------------------------------------------------------------

  /** `img.name[0].isdigit()`. */
  predicate IsImageEntry(name: string) {
    |name| > 0 && IsDigit(name[0])
  }

  /** `int(p.stem.split("-")[0])`, `None` where `int` raises. */
  function ImageKey(name: string): Option<int> {
    PyInt(FirstPiece(Stem(name), '-'))
  }

  /** The chapter's images: the folder entries whose name starts with a
      digit, sorted by the integer before the first `-` of the stem. */
  function OrderImages(entries: seq<string>): Result<seq<string>, string> {
    SortByKey(Filter(entries, IsImageEntry), ImageKey)
  }

  /** The ordered images are the entries whose name starts with a digit,
      each once, in non-decreasing key order; the ordering fails exactly when
      one of them has no integer before its first `-`, and then names it. */
  lemma OrderImagesCorrect(entries: seq<string>)
    ensures OrderedSelection(entries, IsImageEntry, ImageKey, OrderImages(entries))
  {
    FilterSortByKeyCorrect(entries, IsImageEntry, ImageKey);
  }

  /** "12-panel.jpg" has the key 12. */
  lemma ImageKeyOfName(n: nat, rest: string)
    requires '-' !in rest && '.' !in rest && rest != []
    ensures ImageKey(Decimal(n) + "-" + rest + ".jpg") == Some(n)
  {
    var name := Decimal(n) + "-" + rest + ".jpg";
    var base := Decimal(n) + "-" + rest;
    assert name == base + "." + "jpg";
    StemOfSuffixed(base, "jpg");
    var d := Decimal(n);
    assert base == d + ['-'] + rest;
    assert '-' !in d;
    FirstPieceBefore(d, rest, '-');
    PyIntDecimal(n);
  }

  // ---------------------------------------------------------------------
  // Boundaries and clips
  // ---------------------------------------------------------------------

  /** The transitions cut to the image count when there are more of them. */
  function Truncated(times: seq<real>, imageCount: nat): (t: seq<real>)
    ensures |t| == if imageCount < |times| then imageCount else |times|
    ensures t == times[..|t|]
  {
    if imageCount < |times| then times[..imageCount] else times
  }

  /** The boundary list: 0.0, the truncated transitions, the audio length. */
  function Boundaries(times: seq<real>, imageCount: nat, total: real): (b: seq<real>)
    ensures |b| == |Truncated(times, imageCount)| + 2
    ensures b[0] == 0.0 && b[|b| - 1] == total
    ensures b[1..|b| - 1] == Truncated(times, imageCount)
  {
    [0.0] + Truncated(times, imageCount) + [total]
  }

  /** The clips the loop builds over the pairs `idx < n`: in index order, one
      per pair whose length is positive. */
  function ClipsUpTo(images: seq<string>, b: seq<real>, n: nat): seq<Clip>
    requires n <= |images| && n < |b|
    decreases n
  {
    if n == 0 then []
    else
      var idx := n - 1;
      var dur := b[idx + 1] - b[idx];
      ClipsUpTo(images, b, idx) + (if dur <= 0.0 then [] else [Clip(idx, images[idx], b[idx], dur)])
  }

  /** All the pairs the loop visits before it runs out of boundaries or images. */
  function Clips(images: seq<string>, b: seq<real>): seq<Clip>
    requires |b| > 0
  {
    ClipsUpTo(images, b, Min(|images|, |b| - 1))
  }

  /** The clip loop of `create_chapter_video`, with its `break` and `continue`. */
  method BuildClips(images: seq<string>, transitions: seq<real>) returns (clips: seq<Clip>)
    requires |transitions| > 0
    ensures clips == Clips(images, transitions)
  {
    clips := [];
    var idx := 0;
    while idx < |transitions| - 1
      invariant 0 <= idx <= |transitions| - 1 && idx <= |images|
      invariant clips == ClipsUpTo(images, transitions, idx)
    {
      if idx >= |images| {
        break;
      }
      var start, end := transitions[idx], transitions[idx + 1];
      var dur := end - start;
      if dur <= 0.0 {
        idx := idx + 1;
        continue;
      }
      clips := clips + [Clip(idx, images[idx], start, dur)];
      idx := idx + 1;
    }
  }

  /** Every clip shows the image of its own pair: clip for `idx` uses
      `images[idx]`, starts at `b[idx]` and lasts `b[idx+1] - b[idx] > 0`;
      indices strictly increase and stay below `min(|images|, |b| - 1)`, so
      there are at most that many clips. */
  lemma {:induction false} ClipsFaithful(images: seq<string>, b: seq<real>, n: nat)
    requires n <= |images| && n < |b|
    ensures var cs := ClipsUpTo(images, b, n);
      && |cs| <= n
      && (forall k :: 0 <= k < |cs| ==>
            && cs[k].imageIndex < n
            && cs[k].image == images[cs[k].imageIndex]
            && cs[k].start == b[cs[k].imageIndex]
            && cs[k].duration == b[cs[k].imageIndex + 1] - b[cs[k].imageIndex]
            && cs[k].duration > 0.0)
      && (forall k :: 0 < k < |cs| ==> cs[k - 1].imageIndex < cs[k].imageIndex)
    decreases n
  {
    if n > 0 {
      ClipsFaithful(images, b, n - 1);
    }
  }

  /** No positive interval is lost: each pair `idx < n` of positive length
      has its clip, and a pair of non-positive length has none (the next
      clip keeps its own index instead of taking this image). */
  lemma {:induction false} ClipsComplete(images: seq<string>, b: seq<real>, n: nat, idx: nat)
    requires n <= |images| && n < |b| && idx < n
    ensures (exists k :: 0 <= k < |ClipsUpTo(images, b, n)| && ClipsUpTo(images, b, n)[k].imageIndex == idx)
      <==> b[idx + 1] - b[idx] > 0.0
    decreases n
  {
    var prev := ClipsUpTo(images, b, n - 1);
    var dur := b[n] - b[n - 1];
    var tail := if dur <= 0.0 then [] else [Clip(n - 1, images[n - 1], b[n - 1], dur)];
    assert ClipsUpTo(images, b, n) == prev + tail;
    ShowsAppend(prev, tail, idx);
    ClipsFaithful(images, b, n - 1);
    if idx < n - 1 {
      ClipsComplete(images, b, n - 1, idx);
    } else if dur > 0.0 {
      assert tail[0].imageIndex == idx;
    }
  }

  /** Some clip of `cs` shows the image at index `idx`. */
  predicate Shows(cs: seq<Clip>, idx: nat) {
    exists k :: 0 <= k < |cs| && cs[k].imageIndex == idx
  }

  lemma ShowsAppend(a: seq<Clip>, b: seq<Clip>, idx: nat)
    ensures Shows(a + b, idx) <==> Shows(a, idx) || Shows(b, idx)
  {
    if Shows(a + b, idx) {
      var k :| 0 <= k < |a + b| && (a + b)[k].imageIndex == idx;
      if k >= |a| {
        assert b[k - |a|].imageIndex == idx;
      }
    }
    if Shows(a, idx) {
      var k :| 0 <= k < |a| && a[k].imageIndex == idx;
      assert (a + b)[k].imageIndex == idx;
    }
    if Shows(b, idx) {
      var k :| 0 <= k < |b| && b[k].imageIndex == idx;
      assert (a + b)[|a| + k].imageIndex == idx;
    }
  }

  /** When every interval is positive, the clips are one per pair, clip `k`
      showing image `k`, each starting where the previous one ends, the
      first at `b[0]`. */
  lemma {:induction false} ClipsContiguous(images: seq<string>, b: seq<real>, n: nat)
    requires n <= |images| && n < |b|
    requires forall i :: 0 <= i < n ==> b[i] < b[i + 1]
    ensures var cs := ClipsUpTo(images, b, n);
      && |cs| == n
      && (forall k :: 0 <= k < n ==> cs[k] == Clip(k, images[k], b[k], b[k + 1] - b[k]))
      && (forall k :: 0 < k < n ==> cs[k - 1].start + cs[k - 1].duration == cs[k].start)
    decreases n
  {
    if n > 0 {
      ClipsContiguous(images, b, n - 1);
    }
  }

  // ---------------------------------------------------------------------
  // One chapter
  // ---------------------------------------------------------------------

  /** What `create_chapter_video` does for one chapter, given the audio's
      length (`None` when the MP3 is missing), the parsed timepoints (`None`
      when the JSON is missing) and the image folder's entry names (`None`
      when the folder is missing). */
  function ChapterVideo(audioDuration: Option<real>, points: Option<seq<Timepoint>>,
                        imageEntries: Option<seq<string>>): VideoOutcome
  {
    if audioDuration.None? || points.None? then MissingFiles
    else if imageEntries.None? then ImageFolderMissing
    else
      match OrderImages(imageEntries.value)
      case Err(name) => BadImageName(name)
      case Ok(images) =>
        if images == [] then NoImages
        else
          var b := Boundaries(LoadTimepoints(points.value), |images|, audioDuration.value);
          var clips := Clips(images, b);
          if clips == [] then NoClips else Rendered(clips, audioDuration.value)
  }

  /** `create_chapter_video` up to the clip list that is composited. */
  method CreateChapterVideo(audioDuration: Option<real>, points: Option<seq<Timepoint>>,
                            imageEntries: Option<seq<string>>) returns (outcome: VideoOutcome)
    ensures outcome == ChapterVideo(audioDuration, points, imageEntries)
    ensures audioDuration.None? || points.None? ==> outcome == MissingFiles
  {
    if audioDuration.None? || points.None? {
      return MissingFiles;
    }
    var durationTotal := audioDuration.value;
    var transitions := LoadTimepoints(points.value);
    if imageEntries.None? {
      return ImageFolderMissing;
    }
    var ordered := OrderImages(imageEntries.value);
    if ordered.Err? {
      return BadImageName(ordered.error);
    }
    var images := ordered.value;
    if images == [] {
      return NoImages;
    }
    if |images| < |transitions| {
      transitions := transitions[..|images|];
    }
    transitions := [0.0] + transitions;
    transitions := transitions + [durationTotal];
    var clips := BuildClips(images, transitions);
    if clips == [] {
      return NoClips;
    }
    return Rendered(clips, durationTotal);
  }

  /** A rendered chapter's clips each show the image of their own index,
      over that interval of the boundary list, with positive length, and in
      increasing index order; at most one clip per image and per interval. */
  lemma RenderedClips(audioDuration: Option<real>, points: Option<seq<Timepoint>>, imageEntries: Option<seq<string>>)
    requires ChapterVideo(audioDuration, points, imageEntries).Rendered?
    ensures var images := OrderImages(imageEntries.value).value;
      var b := Boundaries(LoadTimepoints(points.value), |images|, audioDuration.value);
      var cs := ChapterVideo(audioDuration, points, imageEntries).clips;
      && 0 < |cs| <= Min(|images|, |b| - 1)
      && (forall k :: 0 <= k < |cs| ==>
            && cs[k].imageIndex < Min(|images|, |b| - 1)
            && cs[k].image == images[cs[k].imageIndex]
            && cs[k].start == b[cs[k].imageIndex]
            && cs[k].duration == b[cs[k].imageIndex + 1] - b[cs[k].imageIndex] > 0.0)
      && (forall k :: 0 < k < |cs| ==> cs[k - 1].imageIndex < cs[k].imageIndex)
  {
    var images := OrderImages(imageEntries.value).value;
    var b := Boundaries(LoadTimepoints(points.value), |images|, audioDuration.value);
    ClipsFaithful(images, b, Min(|images|, |b| - 1));
  }

  /** With no marks and a positive audio length, a single clip shows the
      first image over the whole audio; the other images get no clip. */
  lemma NoMarksOneClip(images: seq<string>, total: real)
    requires |images| > 0 && total > 0.0
    ensures Clips(images, Boundaries([], |images|, total)) == [Clip(0, images[0], 0.0, total)]
  {
    var b := Boundaries([], |images|, total);
    assert b == [0.0, total];
    assert ClipsUpTo(images, b, 0) == [];
  }

  /** Marks at 1.0 s and 2.5 s, 7.0 s of audio and two images: the images
      cover [0, 1.0) and [1.0, 2.5); the interval [2.5, 7.0) has no image. */
  lemma TwoImagesScenario(img0: string, img1: string)
    ensures Clips([img0, img1], Boundaries([1.0, 2.5], 2, 7.0))
      == [Clip(0, img0, 0.0, 1.0), Clip(1, img1, 1.0, 1.5)]
  {
    var b := Boundaries([1.0, 2.5], 2, 7.0);
    assert b == [0.0, 1.0, 2.5, 7.0];
    assert ClipsUpTo([img0, img1], b, 0) == [];
    assert ClipsUpTo([img0, img1], b, 1) == [Clip(0, img0, 0.0, 1.0)];
  }

  /** The boundaries never hold more interior points than there are images,
      and keep the first transitions when cutting. */
  lemma BoundariesTruncate(times: seq<real>, imageCount: nat, total: real)
    ensures var b := Boundaries(times, imageCount, total);
      && |b| - 2 <= imageCount
      && |b| - 2 <= |times|
      && (|b| - 2 == imageCount || |b| - 2 == |times|)
      && forall k :: 0 < k < |b| - 1 ==> b[k] == times[k - 1]
  {
    var t := Truncated(times, imageCount);
    var b := Boundaries(times, imageCount, total);
    forall k | 0 < k < |b| - 1 ensures b[k] == times[k - 1] {
      assert b[k] == t[k - 1];
    }
  }
}
