/** The narration script generator (`ManhwaScriptGenerator` in
    manhwa_script_generator.py): each chapter folder's images are sent to a
    language model five at a time inside one running conversation, each
    reply must hold exactly five `*`-terminated lines, the conversation is
    trimmed back to the seed messages plus the last twenty, and the replies
    are saved as the chapter's script.

    The model call is a parameter `ask` from the messages sent to the reply
    text; directory listings are parameters too. */
module ScriptGenerator {
  import opened Wrappers
  import opened PyText
  import opened Sorting

  datatype Role = User | Assistant

  /** One content block: text, or an encoded image (named by its chapter
      folder and file; the encoding is not modelled). */
  datatype Part = Text(text: string) | Image(chapter: string, file: string)

  datatype Message = Message(role: Role, content: seq<Part>)

  /** Why `process_chapters` raises. */
  datatype Failure =
    | BadImageName(name: string)
    | Rejected(reply: string, lineCount: nat)

  /** A script file written: `{chapter}.txt` and its text. */
  datatype Written = Written(path: string, text: string)

  /** The run's effect: the scripts saved, in order, and the exception that
      ended it early, if any. */
  datatype Generation = Generation(written: seq<Written>, failure: Option<Failure>)

  /** The conversation state between batches. */
  datatype Conversation = Conversation(messages: seq<Message>, responses: seq<string>)

  /** Replies must have this many lines. */
  const ExpectedLines: nat := 5

  /** Images sent per request (`range(0, n, 5)`). */
  const BatchSize: nat := 5

  /** Messages kept after the seed ones when the context is trimmed. */
  const KeptMessages: nat := 20

  // ---------------------------------------------------------------------
  // validate_response
  // ---------------------------------------------------------------------

  predicate NonBlank(s: string) {
    s != ""
  }

  /** `[ln.strip() for ln in pieces if ln.strip()]`. */
  function StrippedNonBlank(pieces: seq<string>): seq<string>
    decreases |pieces|
  {
    if pieces == [] then []
    else
      var t := Strip(pieces[0]);
      (if NonBlank(t) then [t] else []) + StrippedNonBlank(pieces[1..])
  }

  /** The reply's lines: `[ln.strip() for ln in resp.split("*") if ln.strip()]`. */
  function Lines(resp: string): seq<string> {
    StrippedNonBlank(SplitOn(resp, '*'))
  }

  /** `validate_response(resp, expected)`: the reply itself when it has
      `expected` non-blank lines, otherwise the `ValueError`, modelled as
      `Err` with the count found. */
  function ValidateResponse(resp: string, expected: int): (r: Result<string, nat>)
    ensures r.Ok? <==> |Lines(resp)| == expected
    ensures r.Ok? ==> r.value == resp
    ensures r.Err? ==> r.error == |Lines(resp)| && r.error != expected
  {
    var n := |Lines(resp)|;
    if n != expected then Err(n) else Ok(resp)
  }

  /** A reply made of lines each ending with `*` (`l1*l2*...ln*`), none of
      them blank and none holding another `*`, has exactly those lines,
      stripped, and so passes validation for `n`. */
  lemma StarredLinesValid(ls: seq<string>)
    requires forall k :: 0 <= k < |ls| ==> '*' !in ls[k] && NonBlank(Strip(ls[k]))
    ensures Lines(Join(ls + [""], "*")) == MapSeq(ls, Strip)
    ensures ValidateResponse(Join(ls + [""], "*"), |ls|) == Ok(Join(ls + [""], "*"))
  {
    var pieces := ls + [""];
    assert forall k :: 0 <= k < |pieces| ==> '*' !in pieces[k];
    SplitOnOfJoin(pieces, '*');
    StrippedLines(ls);
  }

  lemma {:induction false} StrippedLines(ls: seq<string>)
    requires forall k :: 0 <= k < |ls| ==> NonBlank(Strip(ls[k]))
    ensures StrippedNonBlank(ls + [""]) == MapSeq(ls, Strip)
    decreases |ls|
  {
    if ls == [] {
      StrippedNonBlankCons("", []);
      assert ls + [""] == [""] + [];
    } else {
      var rest := ls[1..];
      StrippedLines(rest);
      assert ls + [""] == [ls[0]] + (rest + [""]);
      StrippedNonBlankCons(ls[0], rest + [""]);
      assert ls == [ls[0]] + rest;
      MapSeqCons(ls[0], rest, Strip);
    }
  }

  lemma StrippedNonBlankCons(p: string, rest: seq<string>)
    ensures StrippedNonBlank([p] + rest)
      == (if NonBlank(Strip(p)) then [Strip(p)] else []) + StrippedNonBlank(rest)
  {
    assert ([p] + rest)[1..] == rest;
  }

  // ---------------------------------------------------------------------
  // Images and batches
  // ---------------------------------------------------------------------

  /** `f.lower().endswith((".jpg", ".jpeg", ".png"))`. */
  predicate IsImageFile(f: string) {
    var l := AsciiLower(f);
    EndsWith(l, ".jpg") || EndsWith(l, ".jpeg") || EndsWith(l, ".png")
  }

  /** `int(x.split("-")[0])` on the whole file name, `None` where it raises. */
  function FileKey(f: string): Option<int> {
    PyInt(FirstPiece(f, '-'))
  }

  /** The chapter's image files in key order, or the name whose key raises. */
  function OrderImages(files: seq<string>): Result<seq<string>, string> {
    SortByKey(Filter(files, IsImageFile), FileKey)
  }

  /** The ordered images are the folder's image files, each once, in
      non-decreasing key order; the ordering fails exactly when some image
      file has no integer before its first `-`, and then names that file. */
  lemma OrderImagesCorrect(files: seq<string>)
    ensures OrderedSelection(files, IsImageFile, FileKey, OrderImages(files))
  {
    FilterSortByKeyCorrect(files, IsImageFile, FileKey);
  }

  /** The key is read from the whole name, so a name with no `-` keeps its
      extension in the text given to `int` and cannot be ordered. */
  lemma KeyNeedsSeparator(n: nat)
    ensures FileKey(Decimal(n) + ".jpg") == None
  {
    var d := Decimal(n);
    var f := d + ".jpg";
    assert f[0] == d[0] && f[|f| - 1] == 'g' && f[|d|] == '.';
    assert '-' !in f;
    FirstPieceBefore(f, "", '-');
    PyIntRejects(f, |d|);
  }

  /** `[s[i:i + 5] for i in range(0, len(s), 5)]`. */
  function Batches<T>(s: seq<T>): seq<seq<T>>
    decreases |s|
  {
    if |s| == 0 then []
    else if |s| <= BatchSize then [s]
    else [s[..BatchSize]] + Batches(s[BatchSize..])
  }

  function FlattenAll<T>(xss: seq<seq<T>>): seq<T>
    decreases |xss|
  {
    if xss == [] then [] else xss[0] + FlattenAll(xss[1..])
  }

  /** The batches put back together are the whole list; each holds between
      one and five items, every one but the last exactly five, and there are
      `ceil(|s| / 5)` of them. */
  lemma {:induction false} BatchCount<T>(s: seq<T>)
    ensures |Batches(s)| == (|s| + BatchSize - 1) / BatchSize
    decreases |s|
  {
    if |s| > BatchSize {
      BatchCount(s[BatchSize..]);
    }
  }

  lemma {:induction false} BatchesPartition<T>(s: seq<T>)
    ensures FlattenAll(Batches(s)) == s
    ensures |Batches(s)| == (|s| + BatchSize - 1) / BatchSize
    ensures forall k :: 0 <= k < |Batches(s)| ==> 0 < |Batches(s)[k]| <= BatchSize
    ensures forall k :: 0 <= k < |Batches(s)| - 1 ==> |Batches(s)[k]| == BatchSize
    decreases |s|
  {
    if |s| > BatchSize {
      var rest := s[BatchSize..];
      BatchesPartition(rest);
      BatchCount(s);
      var bs := Batches(s);
      assert bs == [s[..BatchSize]] + Batches(rest);
      assert bs[1..] == Batches(rest);
      assert s == s[..BatchSize] + rest;
      assert forall k :: 1 <= k < |bs| ==> bs[k] == Batches(rest)[k - 1];
    } else if |s| > 0 {
      assert FlattenAll(Batches(s)) == s + FlattenAll([]);
    }
  }

  /** Batch `k` of the list is its slice `[5k, 5k + 5)`, cut at the end. */
  lemma {:induction false} BatchAt<T>(s: seq<T>, k: nat)
    requires k < |Batches(s)|
    ensures BatchSize * k < |s|
    ensures Batches(s)[k] == s[BatchSize * k..Min(BatchSize * k + BatchSize, |s|)]
    decreases |s|
  {
    if |s| > BatchSize && k > 0 {
      var rest := s[BatchSize..];
      assert Batches(s) == [s[..BatchSize]] + Batches(rest);
      assert Batches(s)[k] == Batches(rest)[k - 1];
      BatchAt(rest, k - 1);
      var lo, hi := BatchSize * (k - 1), Min(BatchSize * (k - 1) + BatchSize, |rest|);
      assert BatchSize * k == lo + BatchSize;
      assert Min(BatchSize * k + BatchSize, |s|) == hi + BatchSize;
      forall i | 0 <= i < hi - lo ensures rest[lo..hi][i] == s[lo + BatchSize..hi + BatchSize][i] {
        assert rest[lo + i] == s[BatchSize + lo + i];
      }
      assert rest[lo..hi] == s[lo + BatchSize..hi + BatchSize];
    }
  }

  // ---------------------------------------------------------------------
  // The conversation
  // ---------------------------------------------------------------------

  /** The context-trimming policy: above the seed messages plus twenty, the
      messages become the seed messages followed by the last twenty. */
  function Trim(messages: seq<Message>, base: seq<Message>): (r: seq<Message>)
    ensures |messages| > |base| + KeptMessages ==>
      r == base + messages[|messages| - KeptMessages..] && |r| == |base| + KeptMessages
    ensures |messages| <= |base| + KeptMessages ==> r == messages
  {
    if |messages| > |base| + KeptMessages then base + messages[|messages| - KeptMessages..] else messages
  }

  /** The context invariant: the seed messages first, at most twenty more. */
  predicate InContext(messages: seq<Message>, base: seq<Message>) {
    |base| <= |messages| <= |base| + KeptMessages && messages[..|base|] == base
  }

  /** The user message carrying one batch of images. */
  function BatchMessage(chapter: string, batch: seq<string>): (m: Message)
    ensures m.role == User && |m.content| == |batch|
    ensures forall k :: 0 <= k < |batch| ==> m.content[k] == Image(chapter, batch[k])
  {
    Message(User, seq(|batch|, k requires 0 <= k < |batch| => Image(chapter, batch[k])))
  }

  function ReplyMessage(text: string): Message {
    Message(Assistant, [Text(text)])
  }

  /** The request sent for a batch. */
  function Request(c: Conversation, chapter: string, batch: seq<string>): seq<Message> {
    c.messages + [BatchMessage(chapter, batch)]
  }

  /** A reply check: the reply itself, or the line count that rejects it. */
  type Validator = string -> Result<string, nat>

  /** `validate_response(content_text, 5)`, the check applied to every
      reply. The conversation functions below take the check as a parameter
      `check`; `process_chapters` runs them with this one. */
  function Validate(text: string): Result<string, nat> {
    ValidateResponse(text, ExpectedLines)
  }

  /** One batch of the loop: send the images, validate the reply, record it
      in the conversation and the responses, trim. */
  function Step(c: Conversation, chapter: string, batch: seq<string>, base: seq<Message>,
                ask: seq<Message> -> string, check: Validator): Result<Conversation, Failure>
  {
    var sent := Request(c, chapter, batch);
    var text := ask(sent);
    match check(text)
    case Err(n) => Err(Rejected(text, n))
    case Ok(_) => Ok(Conversation(Trim(sent + [ReplyMessage(text)], base), c.responses + [text]))
  }

  /** All remaining batches, from conversation state `c`. */
  function Run(c: Conversation, chapter: string, batches: seq<seq<string>>, base: seq<Message>,
               ask: seq<Message> -> string, check: Validator): Result<Conversation, Failure>
    decreases |batches|
  {
    if batches == [] then Ok(c)
    else
      match Step(c, chapter, batches[0], base, ask, check)
      case Err(f) => Err(f)
      case Ok(c') => Run(c', chapter, batches[1..], base, ask, check)
  }

  /** One step keeps the context invariant. The request it sends starts with
      the seed messages and is at most twenty-one messages longer. When the
      conversation grows past the limit it is cut to exactly the seed
      messages plus twenty, the last twenty of the grown conversation. The
      reply is appended to the responses. */
  lemma StepKeepsContext(c: Conversation, chapter: string, batch: seq<string>, base: seq<Message>,
                         ask: seq<Message> -> string, check: Validator)
    requires InContext(c.messages, base)
    ensures var sent := Request(c, chapter, batch);
      sent[..|base|] == base && |sent| <= |base| + KeptMessages + 1
    ensures var r := Step(c, chapter, batch, base, ask, check);
      r.Ok? ==> (InContext(r.value.messages, base)
        && r.value.responses == c.responses + [ask(Request(c, chapter, batch))])
    ensures var r := Step(c, chapter, batch, base, ask, check);
      var grown := Request(c, chapter, batch) + [ReplyMessage(ask(Request(c, chapter, batch)))];
      r.Ok? && |grown| > |base| + KeptMessages ==>
        |r.value.messages| == |base| + KeptMessages
        && r.value.messages[|base|..] == grown[|grown| - KeptMessages..]
  {
    var sent := Request(c, chapter, batch);
    assert sent[..|base|] == c.messages[..|base|];
    var grown := sent + [ReplyMessage(ask(sent))];
    assert grown[..|base|] == base;
    var t := Trim(grown, base);
    if |grown| > |base| + KeptMessages {
      assert t[..|base|] == base;
      assert t[|base|..] == grown[|grown| - KeptMessages..];
    }
  }

  /** Over a whole chapter, the context invariant holds after every batch,
      and a successful run records one validated response per batch, in
      batch order, after the earlier ones. */
  lemma {:induction false} RunKeepsContext(c: Conversation, chapter: string, batches: seq<seq<string>>,
                                           base: seq<Message>, ask: seq<Message> -> string, check: Validator)
    requires InContext(c.messages, base)
    ensures var r := Run(c, chapter, batches, base, ask, check);
      r.Ok? ==> (InContext(r.value.messages, base)
        && |r.value.responses| == |c.responses| + |batches|
        && r.value.responses[..|c.responses|] == c.responses
)
    decreases |batches|
  {
    if batches != [] {
      var s := Step(c, chapter, batches[0], base, ask, check);
      StepKeepsContext(c, chapter, batches[0], base, ask, check);
      if s.Ok? {
        var c' := s.value;
        RunKeepsContext(c', chapter, batches[1..], base, ask, check);
        var r := Run(c, chapter, batches, base, ask, check);
        if r.Ok? {
          var rs := r.value.responses;
          assert rs[..|c'.responses|] == c'.responses;
          assert rs[..|c.responses|] == c'.responses[..|c.responses|];
          var text := ask(Request(c, chapter, batches[0]));
          assert c'.responses[|c.responses|] == text;
        }
      }
    }
  }

  /** Every response a successful run records past the earlier ones passed
      validation. */
  lemma {:induction false} RunResponsesValid(c: Conversation, chapter: string, batches: seq<seq<string>>,
                                             base: seq<Message>, ask: seq<Message> -> string, check: Validator)
    ensures var r := Run(c, chapter, batches, base, ask, check);
      r.Ok? ==> (|c.responses| <= |r.value.responses|
        && r.value.responses[..|c.responses|] == c.responses
        && forall k :: |c.responses| <= k < |r.value.responses| ==> check(r.value.responses[k]).Ok?)
    decreases |batches|
  {
    var r := Run(c, chapter, batches, base, ask, check);
    if batches != [] && r.Ok? {
      var sent := Request(c, chapter, batches[0]);
      var text := ask(sent);
      var s := Step(c, chapter, batches[0], base, ask, check);
      assert s.Ok?;
      var c' := s.value;
      assert check(text).Ok?;
      assert c'.responses == c.responses + [text];
      RunResponsesValid(c', chapter, batches[1..], base, ask, check);
      assert r == Run(c', chapter, batches[1..], base, ask, check);
      var rs := r.value.responses;
      assert rs[..|c'.responses|] == c'.responses;
      assert rs[..|c.responses|] == c'.responses[..|c.responses|];
      forall k | |c.responses| <= k < |rs|
        ensures check(rs[k]).Ok?
      {
        if k > |c.responses| {
          assert check(rs[k]).Ok?;
        } else {
          assert rs[k] == c'.responses[k] == text;
        }
      }
    }
  }

  /** A run is its first step followed by the run of the remaining batches. */
  lemma RunAfterStep(c: Conversation, chapter: string, batches: seq<seq<string>>, base: seq<Message>,
                     ask: seq<Message> -> string, check: Validator)
    requires batches != []
    ensures var s := Step(c, chapter, batches[0], base, ask, check);
      Run(c, chapter, batches, base, ask, check)
        == if s.Ok? then Run(s.value, chapter, batches[1..], base, ask, check) else Err(s.error)
  {
  }

  /** The run fails exactly at the first reply that does not have five lines,
      with that reply and its line count. */
  lemma RunFirstRejection(c: Conversation, chapter: string, batches: seq<seq<string>>, base: seq<Message>,
                          ask: seq<Message> -> string)
    requires batches != []
    requires |Lines(ask(Request(c, chapter, batches[0])))| != ExpectedLines
    ensures Run(c, chapter, batches, base, ask, Validate)
      == Err(Rejected(ask(Request(c, chapter, batches[0])), |Lines(ask(Request(c, chapter, batches[0])))|))
  {
  }

  // ---------------------------------------------------------------------
  // process_chapters
  // ---------------------------------------------------------------------

  /** The seed texts of `initial_messages`: the first assistant turn, the
      second user turn and the second assistant turn. */
  const SummaryHeader: string := "Chain of Thought Summary:\n"
  const IntroRequest: string := "intro"
  const IntroReply: string := "In a world where power knows no bounds, imagine being the strongest martial artist alive \U{2026}"

  /** `initial_messages` for the given title. */
  function InitialMessages(manhwaName: string): seq<Message> {
    [ Message(User, [Text(manhwaName)]),
      Message(Assistant, [Text(SummaryHeader)]),
      Message(User, [Text(IntroRequest)]),
      Message(Assistant, [Text(IntroReply)])
    ]
  }

  /** The script of one chapter folder, or why it raises. */
  function ChapterScript(chapter: string, files: seq<string>, base: seq<Message>,
                         ask: seq<Message> -> string, check: Validator): Result<string, Failure>
  {
    match OrderImages(files)
    case Err(name) => Err(BadImageName(name))
    case Ok(images) =>
      match Run(Conversation(base, []), chapter, Batches(images), base, ask, check)
      case Err(f) => Err(f)
      case Ok(c) => Ok(Join(c.responses, "\n\n"))
  }

  /** A chapter's script exists exactly when its images can be ordered and
      every reply passes; it is then the replies joined by blank lines, one
      reply per batch, each with exactly five lines. */
  lemma ChapterScriptReplies(chapter: string, files: seq<string>, base: seq<Message>, ask: seq<Message> -> string)
    ensures OrderImages(files).Err? ==> ChapterScript(chapter, files, base, ask, Validate).Err?
    ensures OrderImages(files).Ok? ==>
      var images := OrderImages(files).value;
      var run := Run(Conversation(base, []), chapter, Batches(images), base, ask, Validate);
      var r := ChapterScript(chapter, files, base, ask, Validate);
      && (r.Ok? <==> run.Ok?)
      && (r.Ok? && run.Ok? ==> (r.value == Join(run.value.responses, "\n\n")
        && |run.value.responses| == |Batches(images)|
        && forall k :: 0 <= k < |run.value.responses| ==> |Lines(run.value.responses[k])| == ExpectedLines))
  {
    var images := OrderImages(files);
    if images.Ok? {
      var c := Conversation(base, []);
      RunKeepsContext(c, chapter, Batches(images.value), base, ask, Validate);
      RunResponsesValid(c, chapter, Batches(images.value), base, ask, Validate);
    }
  }

  /** The chapter folders visited: all entries but `.ipynb_checkpoints` and
      non-directories, in the order given. */
  predicate IsChapter(name: string, isDir: string -> bool) {
    name != ".ipynb_checkpoints" && isDir(name)
  }

  /** `w` is the script file of chapter folder `name`: `{name}.txt` holding
      the chapter's script. */
  predicate WritesScript(name: string, w: Written, isDir: string -> bool, listing: string -> seq<string>,
                         base: seq<Message>, ask: seq<Message> -> string, check: Validator)
  {
    && IsChapter(name, isDir)
    && ChapterScript(name, listing(name), base, ask, check).Ok?
    && w == Written(name + ".txt", ChapterScript(name, listing(name), base, ask, check).value)
  }

  /** The chapter folders among `chapters`, in the order given. */
  function ChapterFolders(chapters: seq<string>, isDir: string -> bool): (r: seq<string>)
    ensures |r| <= |chapters|
    ensures forall k :: 0 <= k < |r| ==> IsChapter(r[k], isDir) && r[k] in chapters
    decreases |chapters|
  {
    if chapters == [] then []
    else (if IsChapter(chapters[0], isDir) then [chapters[0]] else []) + ChapterFolders(chapters[1..], isDir)
  }

  /** What the run over `chapters` writes, and the exception that stops it. */
  function Generate(chapters: seq<string>, isDir: string -> bool, listing: string -> seq<string>,
                    base: seq<Message>, ask: seq<Message> -> string, check: Validator): Generation
    decreases |chapters|
  {
    if chapters == [] then Generation([], None)
    else
      var name := chapters[0];
      var rest := Generate(chapters[1..], isDir, listing, base, ask, check);
      if !IsChapter(name, isDir) then rest
      else
        match ChapterScript(name, listing(name), base, ask, check)
        case Err(f) => Generation([], Some(f))
        case Ok(text) => Generation([Written(name + ".txt", text)] + rest.written, rest.failure)
  }

  /** The body of the batch loop: send the batch, validate the reply, record
      it and trim the context. */
  method SendBatch(messages: seq<Message>, responses: seq<string>, chapter: string, batch: seq<string>,
                   base: seq<Message>, ask: seq<Message> -> string, check: Validator)
    returns (r: Result<Conversation, Failure>)
    ensures r == Step(Conversation(messages, responses), chapter, batch, base, ask, check)
  {
    var sent := messages + [BatchMessage(chapter, batch)];
    var contentText := ask(sent);
    var valid := check(contentText);
    if valid.Err? {
      return Err(Rejected(contentText, valid.error));
    }
    var grown := sent + [ReplyMessage(contentText)];
    if |grown| > |base| + KeptMessages {
      grown := base + grown[|grown| - KeptMessages..];
    }
    return Ok(Conversation(grown, responses + [contentText]));
  }

  /** The batch loop of `process_chapters` over one chapter's ordered
      images, from the seed messages. */
  method RunBatches(chapter: string, images: seq<string>, base: seq<Message>, ask: seq<Message> -> string,
                    check: Validator)
    returns (r: Result<Conversation, Failure>)
    ensures r == Run(Conversation(base, []), chapter, Batches(images), base, ask, check)
  {
    var responses: seq<string> := [];
    var messages := base;
    var i := 0;
    while i < |images|
      invariant Run(Conversation(messages, responses), chapter, Batches(images[Min(i, |images|)..]), base, ask, check)
        == Run(Conversation(base, []), chapter, Batches(images), base, ask, check)
      decreases |images| - i
    {
      var batch := images[i..Min(i + BatchSize, |images|)];
      ghost var remaining := images[i..];
      BatchesFrom(images, i);
      var next := SendBatch(messages, responses, chapter, batch, base, ask, check);
      RunAfterStep(Conversation(messages, responses), chapter, Batches(remaining), base, ask, check);
      if next.Err? {
        return Err(next.error);
      }
      messages, responses := next.value.messages, next.value.responses;
      i := i + BatchSize;
    }
    assert images[Min(i, |images|)..] == [];
    return Ok(Conversation(messages, responses));
  }

  /** The batches from index `i` on are the batch at `i` and the batches
      after it. */
  lemma BatchesFrom<T>(s: seq<T>, i: nat)
    requires i < |s|
    ensures |Batches(s[i..])| > 0
    ensures Batches(s[i..])[0] == s[i..Min(i + BatchSize, |s|)]
    ensures Batches(s[i..])[1..] == Batches(s[Min(i + BatchSize, |s|)..])
  {
    var rest := s[i..];
    if |rest| > BatchSize {
      assert rest[BatchSize..] == s[i + BatchSize..];
      assert rest[..BatchSize] == s[i..i + BatchSize];
    } else {
      assert s[Min(i + BatchSize, |s|)..] == [];
    }
  }

  /** One chapter folder of `process_chapters`: order the images, run the
      batches, join the replies. */
  method GenerateChapter(chapter: string, files: seq<string>, base: seq<Message>, ask: seq<Message> -> string,
                         check: Validator)
    returns (r: Result<string, Failure>)
    ensures r == ChapterScript(chapter, files, base, ask, check)
  {
    var ordered := OrderImages(files);
    if ordered.Err? {
      return Err(BadImageName(ordered.error));
    }
    var run := RunBatches(chapter, ordered.value, base, ask, check);
    if run.Err? {
      return Err(run.error);
    }
    return Ok(Join(run.value.responses, "\n\n"));
  }

  /** `process_chapters`, with the folder listing `entries`, the directory
      test `isDir` and the per-chapter listing as parameters. */
  method ProcessChapters(entries: seq<string>, isDir: string -> bool, listing: string -> seq<string>,
                         manhwaName: string, ask: seq<Message> -> string)
    returns (g: Generation)
    ensures g == Generate(SortBy(entries, LexLe), isDir, listing, InitialMessages(manhwaName), ask, Validate)
  {
    var base := InitialMessages(manhwaName);
    var chapters := SortBy(entries, LexLe);
    var written: seq<Written> := [];
    var i := 0;
    while i < |chapters|
      invariant 0 <= i <= |chapters|
      invariant Generate(chapters, isDir, listing, base, ask, Validate)
        == var rest := Generate(chapters[i..], isDir, listing, base, ask, Validate);
           Generation(written + rest.written, rest.failure)
    {
      var chapterName := chapters[i];
      GenerateStep(chapters, i, written, isDir, listing, base, ask, Validate);
      if chapterName == ".ipynb_checkpoints" || !isDir(chapterName) {
        i := i + 1;
        continue;
      }
      var script := GenerateChapter(chapterName, listing(chapterName), base, ask, Validate);
      if script.Err? {
        return Generation(written, Some(script.error));
      }
      written := written + [Written(chapterName + ".txt", script.value)];
      i := i + 1;
    }
    assert chapters[i..] == [];
    assert written + [] == written;
    return Generation(written, None);
  }

  /** One turn of the chapter loop, in terms of `Generate`: the scripts
      saved so far, followed by what the remaining chapters give, make up the
      whole generation. */
  lemma GenerateStep(chapters: seq<string>, i: nat, written: seq<Written>, isDir: string -> bool,
                     listing: string -> seq<string>, base: seq<Message>, ask: seq<Message> -> string,
                     check: Validator)
    requires i < |chapters|
    requires Generate(chapters, isDir, listing, base, ask, check)
      == var rest := Generate(chapters[i..], isDir, listing, base, ask, check);
         Generation(written + rest.written, rest.failure)
    ensures var name := chapters[i];
      var rest := Generate(chapters[i + 1..], isDir, listing, base, ask, check);
      var script := ChapterScript(name, listing(name), base, ask, check);
      && (!IsChapter(name, isDir) ==>
        Generate(chapters, isDir, listing, base, ask, check) == Generation(written + rest.written, rest.failure))
      && (IsChapter(name, isDir) && script.Err? ==>
        Generate(chapters, isDir, listing, base, ask, check) == Generation(written, Some(script.error)))
      && (IsChapter(name, isDir) && script.Ok? ==>
        Generate(chapters, isDir, listing, base, ask, check)
          == Generation((written + [Written(name + ".txt", script.value)]) + rest.written, rest.failure))
  {
    assert chapters[i..][0] == chapters[i] && chapters[i..][1..] == chapters[i + 1..];
    var name := chapters[i];
    var rest := Generate(chapters[i + 1..], isDir, listing, base, ask, check);
    var script := ChapterScript(name, listing(name), base, ask, check);
    if IsChapter(name, isDir) {
      if script.Err? {
        assert written + [] == written;
      } else {
        var w := Written(name + ".txt", script.value);
        assert written + ([w] + rest.written) == (written + [w]) + rest.written;
      }
    }
  }

  /** Each saved script belongs to a chapter folder and is that chapter's
      script: its replies, one per batch of five images in key order, joined
      by blank lines. */
  lemma {:induction false} GenerateWritesChapters(chapters: seq<string>, isDir: string -> bool,
                                                  listing: string -> seq<string>, base: seq<Message>,
                                                  ask: seq<Message> -> string, check: Validator)
    ensures forall w :: w in Generate(chapters, isDir, listing, base, ask, check).written ==>
      (exists j :: 0 <= j < |chapters| && WritesScript(chapters[j], w, isDir, listing, base, ask, check))
    decreases |chapters|
  {
    if chapters != [] {
      var rest := chapters[1..];
      GenerateWritesChapters(rest, isDir, listing, base, ask, check);
      var g := Generate(chapters, isDir, listing, base, ask, check);
      forall w | w in g.written
        ensures exists j :: 0 <= j < |chapters| && WritesScript(chapters[j], w, isDir, listing, base, ask, check)
      {
        if WritesScript(chapters[0], w, isDir, listing, base, ask, check) {
        } else {
          assert w in Generate(rest, isDir, listing, base, ask, check).written;
          var j :| 0 <= j < |rest| && WritesScript(rest[j], w, isDir, listing, base, ask, check);
          assert rest[j] == chapters[j + 1];
        }
      }
    }
  }

  /** `g` saves the scripts of the folders `cs` in order, up to the first
      one whose script raises: it stops with that folder's error, and with
      none when every folder in `cs` succeeds. */
  predicate SavesInOrder(g: Generation, cs: seq<string>, isDir: string -> bool, listing: string -> seq<string>,
                         base: seq<Message>, ask: seq<Message> -> string, check: Validator)
  {
    && |g.written| <= |cs|
    && (forall j :: 0 <= j < |g.written| ==> WritesScript(cs[j], g.written[j], isDir, listing, base, ask, check))
    && (g.failure.None? <==> |g.written| == |cs|)
    && (g.failure.Some? ==>
          |g.written| < |cs|
          && ChapterScript(cs[|g.written|], listing(cs[|g.written|]), base, ask, check) == Err(g.failure.value))
  }

  /** The saved scripts are exactly those of the chapter folders, in order,
      up to the first folder whose script raises: the run stops with that
      folder's error, and with none when every chapter folder succeeds. */
  lemma {:induction false} GenerateExactly(chapters: seq<string>, isDir: string -> bool,
                                           listing: string -> seq<string>, base: seq<Message>,
                                           ask: seq<Message> -> string, check: Validator)
    ensures SavesInOrder(Generate(chapters, isDir, listing, base, ask, check), ChapterFolders(chapters, isDir),
                         isDir, listing, base, ask, check)
    decreases |chapters|
  {
    if chapters != [] {
      var name := chapters[0];
      var tail := chapters[1..];
      GenerateExactly(tail, isDir, listing, base, ask, check);
      var rest := Generate(tail, isDir, listing, base, ask, check);
      var cs' := ChapterFolders(tail, isDir);
      if IsChapter(name, isDir) {
        assert ChapterFolders(chapters, isDir) == [name] + cs';
        match ChapterScript(name, listing(name), base, ask, check)
        case Err(f) =>
          assert ([name] + cs')[0] == name;
        case Ok(text) =>
          SavesOneMore(name, Written(name + ".txt", text), rest, cs', isDir, listing, base, ask, check);
      } else {
        assert ChapterFolders(chapters, isDir) == cs';
      }
    }
  }

  /** A chapter folder whose script is saved, put in front of a run that
      saves in order, gives a run that saves in order. */
  lemma SavesOneMore(name: string, w: Written, rest: Generation, cs: seq<string>, isDir: string -> bool,
                     listing: string -> seq<string>, base: seq<Message>, ask: seq<Message> -> string,
                     check: Validator)
    requires WritesScript(name, w, isDir, listing, base, ask, check)
    requires SavesInOrder(rest, cs, isDir, listing, base, ask, check)
    ensures SavesInOrder(Generation([w] + rest.written, rest.failure), [name] + cs, isDir, listing, base, ask, check)
  {
    WritesShift(name, w, rest.written, cs, isDir, listing, base, ask, check);
    if rest.failure.Some? {
      FailureShift(name, w, rest.written, cs);
    }
  }

  /** Putting a folder in front of `cs` and a script in front of `ws` keeps
      the folder after the saved scripts the same one. */
  lemma FailureShift<W>(name: string, w: W, ws: seq<W>, cs: seq<string>)
    requires |ws| < |cs|
    ensures |[w] + ws| < |[name] + cs| && ([name] + cs)[|[w] + ws|] == cs[|ws|]
  {
  }

  lemma WritesShift(name: string, w: Written, ws: seq<Written>, cs: seq<string>, isDir: string -> bool,
                    listing: string -> seq<string>, base: seq<Message>, ask: seq<Message> -> string,
                    check: Validator)
    requires WritesScript(name, w, isDir, listing, base, ask, check) && |ws| <= |cs|
    requires forall j :: 0 <= j < |ws| ==> WritesScript(cs[j], ws[j], isDir, listing, base, ask, check)
    ensures forall j :: 0 <= j < |ws| + 1 ==>
      WritesScript(([name] + cs)[j], ([w] + ws)[j], isDir, listing, base, ask, check)
  {
    var written, cs1 := [w] + ws, [name] + cs;
    forall j | 0 <= j < |written| ensures WritesScript(cs1[j], written[j], isDir, listing, base, ask, check) {
      if j > 0 {
        assert written[j] == ws[j - 1] && cs1[j] == cs[j - 1];
      }
    }
  }
}
