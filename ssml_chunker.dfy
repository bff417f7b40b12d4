/** The SSML chunker of the speech pipeline (`TTSPipeline._split_ssml`): the
    `<speak>` wrapper is taken off, and text longer than the length budget is
    cut into chunks at the mark tags, each chunk wrapped again. The text is
    first split into tokens by the capturing regular expression
    `(<mark name="[^"]+"/>)`, and the tokens are then packed greedily. */
module SsmlChunker {
  import opened PyText

  const SpeakOpen: string := "<speak>"
  const SpeakClose: string := "</speak>"
  const MarkOpen: string := "<mark name=\""
  const MarkClose: string := "\"/>"

  /** `f"<speak>{inner}</speak>"`. */
  function Wrap(inner: string): string {
    SpeakOpen + inner + SpeakClose
  }

  function WrapAll(inners: seq<string>): (r: seq<string>)
    ensures |r| == |inners| && forall k :: 0 <= k < |r| ==> r[k] == Wrap(inners[k])
  {
    seq(|inners|, k requires 0 <= k < |inners| => Wrap(inners[k]))
  }

  /** The input after `strip()` and the removal of one leading `<speak>` and
      one trailing `</speak>`, each only when present. */
  function Unwrap(ssml: string): string {
    var s := Strip(ssml);
    var s1 := if StartsWith(s, SpeakOpen) then s[7..] else s;
    if EndsWith(s1, SpeakClose) then s1[..|s1| - 8] else s1
  }

  /** Unwrapping undoes wrapping, whatever the text. */
  lemma UnwrapWrap(text: string)
    ensures Unwrap(Wrap(text)) == text
  {
    var w := Wrap(text);
    assert w[0] == '<' && w[|w| - 1] == '>';
    StripNoop(w);
    assert w[..7] == SpeakOpen;
    var s1 := w[7..];
    assert s1 == text + SpeakClose;
    assert s1[|s1| - 8..] == SpeakClose;
    assert s1[..|s1| - 8] == text;
  }

  /** Concatenation of a sequence of strings (`"".join`). */
  function Concat(xs: seq<string>): string
    decreases |xs|
  {
    if xs == [] then "" else xs[0] + Concat(xs[1..])
  }

  lemma {:induction false} ConcatAppend(a: seq<string>, b: seq<string>)
    ensures Concat(a + b) == Concat(a) + Concat(b)
    decreases |a|
  {
    if a == [] {
      assert a + b == b;
    } else {
      assert (a + b)[0] == a[0];
      assert (a + b)[1..] == a[1..] + b;
      ConcatAppend(a[1..], b);
    }
  }

  lemma ConcatSplit(xs: seq<string>, i: nat)
    requires i <= |xs|
    ensures Concat(xs) == Concat(xs[..i]) + Concat(xs[i..])
  {
    assert xs == xs[..i] + xs[i..];
    ConcatAppend(xs[..i], xs[i..]);
  }

  /** A string that the regular expression `<mark name="[^"]+"/>` matches whole. */
  predicate IsMarkTag(t: string) {
    && |t| > 15
    && t[..12] == MarkOpen
    && t[|t| - 3..] == MarkClose
    && forall m :: 12 <= m < |t| - 3 ==> t[m] != '"'
  }

  /** The first index at or after `j` holding a double quote, or `|s|`. */
  function QuoteFrom(s: string, j: nat): (k: nat)
    requires j <= |s|
    ensures j <= k <= |s|
    ensures k < |s| ==> s[k] == '"'
    ensures forall m :: j <= m < k ==> s[m] != '"'
    decreases |s| - j
  {
    if j == |s| || s[j] == '"' then j else QuoteFrom(s, j + 1)
  }

  /** A mark tag of length `m` starts at index `i` of `s`. */
  predicate TagAt(s: string, i: nat, m: nat) {
    i + m <= |s| && IsMarkTag(s[i..i + m])
  }

  /** The length of the match of `<mark name="[^"]+"/>` starting at index `i`,
      or 0 when the pattern does not match there. `[^"]+` can only stop at the
      first quote, so the match is the mark tag starting at `i`, if any. */
  function MatchLength(s: string, i: nat): (n: nat)
    requires i <= |s|
    ensures n > 0 ==> TagAt(s, i, n)
    ensures forall m :: TagAt(s, i, m) ==> n == m
  {
    if i + 12 <= |s| && s[i..i + 12] == MarkOpen then
      var k := QuoteFrom(s, i + 12);
      if k > i + 12 && k + 3 <= |s| && s[k..k + 3] == MarkClose then
        MatchFound(s, i, k);
        k + 3 - i
      else
        NoTagWithoutClose(s, i, k);
        0
    else
      NoTagWithoutOpen(s, i);
      0
  }

  lemma MatchFound(s: string, i: nat, k: nat)
    requires i + 12 <= |s| && s[i..i + 12] == MarkOpen
    requires k == QuoteFrom(s, i + 12)
    requires k > i + 12 && k + 3 <= |s| && s[k..k + 3] == MarkClose
    ensures TagAt(s, i, k + 3 - i)
    ensures forall m :: TagAt(s, i, m) ==> m == k + 3 - i
  {
    var t := s[i..k + 3];
    assert t[..12] == MarkOpen;
    assert t[|t| - 3..] == MarkClose;
    forall m | 12 <= m < |t| - 3 ensures t[m] != '"' {
      assert t[m] == s[i + m];
    }
    forall m | TagAt(s, i, m) ensures m == k + 3 - i {
      TagEndsAtFirstQuote(s, i, m);
    }
  }

  /** A tag starting at `i` closes at the first quote after its opening. */
  lemma TagEndsAtFirstQuote(s: string, i: nat, m: nat)
    requires TagAt(s, i, m)
    ensures i + 12 <= |s| && s[i..i + 12] == MarkOpen
    ensures QuoteFrom(s, i + 12) == i + m - 3
  {
    var t := s[i..i + m];
    assert s[i..i + 12] == t[..12];
    assert s[i + m - 3] == t[m - 3] == '"';
    forall p | i + 12 <= p < i + m - 3 ensures s[p] != '"' {
      assert s[p] == t[p - i];
    }
  }

  lemma NoTagWithoutClose(s: string, i: nat, k: nat)
    requires i + 12 <= |s| && s[i..i + 12] == MarkOpen
    requires k == QuoteFrom(s, i + 12)
    requires !(k > i + 12 && k + 3 <= |s| && s[k..k + 3] == MarkClose)
    ensures forall m :: !TagAt(s, i, m)
  {
    forall m | TagAt(s, i, m) ensures false {
      TagEndsAtFirstQuote(s, i, m);
    }
  }

  lemma NoTagWithoutOpen(s: string, i: nat)
    requires !(i + 12 <= |s| && s[i..i + 12] == MarkOpen)
    ensures forall m :: !TagAt(s, i, m)
  {
    forall m | TagAt(s, i, m) ensures false {
      TagEndsAtFirstQuote(s, i, m);
    }
  }

  /** `ml` tabulates `MatchLength` over the positions of `s`. */
  predicate Tabulates(s: string, ml: seq<nat>) {
    |ml| == |s| + 1 && forall p {:trigger MatchLength(s, p)} :: 0 <= p <= |s| ==> MatchLength(s, p) == ml[p]
  }

  /** The length of the match at every position of `s`. */
  function Matches(s: string): (ml: seq<nat>)
    ensures Tabulates(s, ml)
  {
    seq(|s| + 1, p requires 0 <= p <= |s| => MatchLength(s, p))
  }

  /** `re.split` with a capturing group, scanning from index `i` with the
      current text part starting at `st`, `ml` giving the length of the match
      at each position: text parts and matched tags alternate, the first and
      the last part being text (possibly empty). */
  function Scan(s: string, ml: seq<nat>, st: nat, i: nat): seq<string>
    requires |ml| == |s| + 1 && st <= i <= |s|
    decreases |s| - i
  {
    if i == |s| then
      [s[st..]]
    else if 0 < ml[i] <= |s| - i then
      [s[st..i], s[i..i + ml[i]]] + Scan(s, ml, i + ml[i], i + ml[i])
    else
      Scan(s, ml, st, i + 1)
  }

  /** Over the match lengths of `s`, the parts alternate text and tags, the
      first and the last being text, and concatenate to `s[st..]`. */
  lemma {:induction false} ScanShape(s: string, ml: seq<nat>, st: nat, i: nat)
    requires Tabulates(s, ml) && st <= i <= |s|
    ensures var parts := Scan(s, ml, st, i);
      && |parts| % 2 == 1
      && Concat(parts) == s[st..]
      && forall k :: 0 <= k < |parts| && k % 2 == 1 ==> IsMarkTag(parts[k])
    decreases |s| - i
  {
    if i == |s| {
      assert Concat([s[st..]]) == s[st..] + Concat([]);
    } else if 0 < ml[i] <= |s| - i {
      var n := ml[i];
      ScanShape(s, ml, i + n, i + n);
      TableTag(s, ml, i);
      ScanStep(s, st, i, n, Scan(s, ml, i + n, i + n));
    } else {
      ScanShape(s, ml, st, i + 1);
    }
  }

  /** A positive entry of the table is the length of a mark tag. */
  lemma TableTag(s: string, ml: seq<nat>, i: nat)
    requires Tabulates(s, ml) && i <= |s| && ml[i] > 0
    ensures i + ml[i] <= |s| && IsMarkTag(s[i..i + ml[i]])
  {
    assert MatchLength(s, i) == ml[i];
  }

  /** A text part and a tag put in front of the parts of the rest of `s`
      keep the alternation and still concatenate to `s[st..]`. */
  lemma ScanStep(s: string, st: nat, i: nat, n: nat, rest: seq<string>)
    requires st <= i && i + n <= |s| && IsMarkTag(s[i..i + n])
    requires |rest| % 2 == 1 && Concat(rest) == s[i + n..]
    requires forall k :: 0 <= k < |rest| && k % 2 == 1 ==> IsMarkTag(rest[k])
    ensures var parts := [s[st..i], s[i..i + n]] + rest;
      && |parts| % 2 == 1
      && Concat(parts) == s[st..]
      && forall k :: 0 <= k < |parts| && k % 2 == 1 ==> IsMarkTag(parts[k])
  {
    var parts := [s[st..i], s[i..i + n]] + rest;
    ConcatPair(s[st..i], s[i..i + n], rest);
    assert s[st..] == s[st..i] + s[i..i + n] + s[i + n..];
    forall k | 0 <= k < |parts| && k % 2 == 1 ensures IsMarkTag(parts[k]) {
      if k > 1 {
        assert parts[k] == rest[k - 2];
      }
    }
  }

  /** The offset of part `k` in the concatenation of `parts`. */
  function Offset(parts: seq<string>, k: nat): nat
    requires k <= |parts|
  {
    if k == 0 then 0 else Offset(parts, k - 1) + |parts[k - 1]|
  }

  lemma {:induction false} OffsetConcat(parts: seq<string>, k: nat)
    requires k <= |parts|
    ensures Offset(parts, k) == |Concat(parts[..k])|
  {
    if k > 0 {
      OffsetConcat(parts, k - 1);
      TokenRange(parts, k - 1);
    }
  }

  /** What the scan leaves in part `k`, found at offset `a` of `s` with match
      lengths `ml`: a text part holds no position where a match starts (shown
      for its position `t`), and a tag part is exactly the match at its
      offset. */
  predicate PartMatches(ml: seq<nat>, a: nat, part: string, odd: bool, t: nat) {
    && a + |part| < |ml|
    && (!odd && t < |part| ==> ml[a + t] == 0)
    && (odd ==> 0 < ml[a] == |part|)
  }

  lemma {:induction false} ScanParts(s: string, ml: seq<nat>, st: nat, i: nat, parts: seq<string>, k: nat, t: nat)
    requires |ml| == |s| + 1 && st <= i <= |s|
    requires forall p :: 0 <= p <= |s| ==> ml[p] <= |s| - p
    requires forall p :: st <= p < i ==> ml[p] == 0
    requires parts == Scan(s, ml, st, i) && k < |parts|
    ensures PartMatches(ml, st + Offset(parts, k), parts[k], k % 2 == 1, t)
    decreases |s| - i
  {
    if i == |s| {
      assert k == 0;
    } else if ml[i] == 0 {
      ScanParts(s, ml, st, i + 1, parts, k, t);
    } else {
      var n := ml[i];
      var rest := Scan(s, ml, i + n, i + n);
      if k < 2 {
        ScanTag(ml, n, st, i, parts, rest, k, t);
      } else {
        ScanParts(s, ml, i + n, i + n, rest, k - 2, t);
        ScanAfterTag(ml, st, i, n, parts, rest, k, t);
      }
    }
  }

  lemma ScanTag(ml: seq<nat>, n: nat, st: nat, i: nat, parts: seq<string>, rest: seq<string>, k: nat, t: nat)
    requires st <= i && i + n < |ml| && 0 < ml[i] == n && k < 2
    requires forall p :: st <= p < i ==> ml[p] == 0
    requires |parts| == 2 + |rest| && |parts[0]| == i - st && |parts[1]| == n
    ensures PartMatches(ml, st + Offset(parts, k), parts[k], k % 2 == 1, t)
  {
    if k == 1 {
      assert Offset(parts, 1) == |parts[0]|;
    }
  }

  lemma ScanAfterTag(ml: seq<nat>, st: nat, i: nat, n: nat, parts: seq<string>, rest: seq<string>, k: nat, t: nat)
    requires st <= i && 2 <= k < |rest| + 2
    requires |parts| == 2 + |rest| && |parts[0]| == i - st && |parts[1]| == n && parts[2..] == rest
    requires PartMatches(ml, i + n + Offset(rest, k - 2), rest[k - 2], (k - 2) % 2 == 1, t)
    ensures PartMatches(ml, st + Offset(parts, k), parts[k], k % 2 == 1, t)
  {
    assert (k - 2) % 2 == k % 2;
    PairOffset(parts, rest, k);
  }

  /** Part `k` of two parts put in front of `rest` is part `k - 2` of
      `rest`, found after those two. */
  lemma {:induction false} PairOffset(parts: seq<string>, rest: seq<string>, k: nat)
    requires 2 <= k <= |parts| && parts[2..] == rest
    ensures Offset(parts, k) == |parts[0]| + |parts[1]| + Offset(rest, k - 2)
    ensures k < |parts| ==> parts[k] == rest[k - 2]
  {
    if k > 2 {
      PairOffset(parts, rest, k - 1);
      assert parts[k - 1] == rest[k - 3];
    } else {
      assert Offset(parts, 1) == |parts[0]|;
    }
  }

  lemma ConcatPair(a: string, b: string, rest: seq<string>)
    ensures Concat([a, b] + rest) == a + b + Concat(rest)
  {
    ConcatAppend([a, b], rest);
    assert [a, b][1..] == [b];
  }

  /** `re.split(r"(<mark name=\"[^\"]+\"/>)", s)`: the text parts and the mark
      tags between them, in order, reproducing `s` when concatenated. */
  function Tokenize(s: string): (parts: seq<string>)
    ensures |parts| % 2 == 1
    ensures Concat(parts) == s
    ensures forall k :: 0 <= k < |parts| && k % 2 == 1 ==> IsMarkTag(parts[k])
  {
    ScanShape(s, Matches(s), 0, 0);
    Scan(s, Matches(s), 0, 0)
  }

  /** `re.split` cuts at every match, leftmost first: the pattern matches at
      no position inside a text part, and each tag part is the match that
      starts at its own offset. */
  lemma TokenizeParts(s: string, k: nat)
    requires k < |Tokenize(s)|
    ensures var parts := Tokenize(s);
      var a := |Concat(parts[..k])|;
      && a + |parts[k]| <= |s|
      && (k % 2 == 0 ==> forall p, m :: a <= p < a + |parts[k]| ==> !TagAt(s, p, m))
      && (k % 2 == 1 ==> TagAt(s, a, |parts[k]|) && forall m :: TagAt(s, a, m) ==> m == |parts[k]|)
  {
    var parts := Tokenize(s);
    var ml := Matches(s);
    TableBounded(s, ml);
    OffsetConcat(parts, k);
    var a, part, odd := Offset(parts, k), parts[k], k % 2 == 1;
    forall t: nat ensures PartMatches(ml, a, part, odd, t) {
      ScanParts(s, ml, 0, 0, parts, k, t);
    }
    PartOfTable(s, ml, a, part, odd);
  }

  lemma TableBounded(s: string, ml: seq<nat>)
    requires Tabulates(s, ml)
    ensures forall p :: 0 <= p <= |s| ==> ml[p] <= |s| - p
  {
    forall p | 0 <= p <= |s| ensures ml[p] <= |s| - p {
      assert MatchLength(s, p) == ml[p];
    }
  }

  /** A part the table says holds no match start, or starts with a match of
      its own length, in terms of the mark tags of `s`. */
  lemma PartOfTable(s: string, ml: seq<nat>, a: nat, part: string, odd: bool)
    requires Tabulates(s, ml)
    requires forall t: nat :: PartMatches(ml, a, part, odd, t)
    ensures a + |part| <= |s|
    ensures !odd ==> forall p, m :: a <= p < a + |part| ==> !TagAt(s, p, m)
    ensures odd ==> TagAt(s, a, |part|) && forall m :: TagAt(s, a, m) ==> m == |part|
  {
    assert PartMatches(ml, a, part, odd, 0);
    if odd {
      assert MatchLength(s, a) == ml[a];
    } else {
      forall p, m | a <= p < a + |part| ensures !TagAt(s, p, m) {
        assert PartMatches(ml, a, part, odd, p - a);
        assert MatchLength(s, p) == ml[a + (p - a)];
      }
    }
  }

  /** The greedy packing of the split loop, as the groups of tokens that form
      each chunk. `cur` is the group being accumulated: a token is added to it
      unless that would take the group's length over `maxLen`, in which case
      the group is emitted (even when empty) and a new one starts with the
      token. A final group is emitted only if its text is not empty. */
  function Groups(parts: seq<string>, cur: seq<string>, maxLen: nat): seq<seq<string>>
    decreases |parts|
  {
    if parts == [] then
      if Concat(cur) != "" then [cur] else []
    else if |Concat(cur)| + |parts[0]| > maxLen then
      [cur] + Groups(parts[1..], [parts[0]], maxLen)
    else
      Groups(parts[1..], cur + [parts[0]], maxLen)
  }

  function MapConcat(groups: seq<seq<string>>): (r: seq<string>)
    ensures |r| == |groups| && forall k :: 0 <= k < |r| ==> r[k] == Concat(groups[k])
  {
    seq(|groups|, k requires 0 <= k < |groups| => Concat(groups[k]))
  }

  function Flatten(groups: seq<seq<string>>): seq<string>
    decreases |groups|
  {
    if groups == [] then [] else groups[0] + Flatten(groups[1..])
  }

  /** The inner contents of the chunks `_split_ssml` returns. */
  function ChunkInners(ssml: string, maxLen: nat): seq<string> {
    var u := Unwrap(ssml);
    if |u| <= maxLen then [u] else MapConcat(Groups(Tokenize(u), [], maxLen))
  }

  /** `_split_ssml(ssml)` with `max_ssml_length == maxLen`. */
  method SplitSsml(ssml: string, maxLen: nat) returns (chunks: seq<string>)
    ensures chunks == WrapAll(ChunkInners(ssml, maxLen))
    ensures |Unwrap(ssml)| <= maxLen ==> chunks == [Wrap(Unwrap(ssml))]
  {
    var s := Strip(ssml);
    if StartsWith(s, SpeakOpen) {
      s := s[7..];
    }
    if EndsWith(s, SpeakClose) {
      s := s[..|s| - 8];
    }
    assert s == Unwrap(ssml);
    if |s| <= maxLen {
      return [Wrap(s)];
    }
    chunks := PackChunks(Tokenize(s), maxLen);
  }

  /** The accumulation loop of `_split_ssml` over the tokens of the split. */
  method PackChunks(parts: seq<string>, maxLen: nat) returns (chunks: seq<string>)
    ensures chunks == WrapAll(MapConcat(Groups(parts, [], maxLen)))
  {
    chunks := [];
    var current := "";
    ghost var group: seq<string> := [];
    ghost var done: seq<seq<string>> := [];
    var i := 0;
    while i < |parts|
      invariant 0 <= i <= |parts|
      invariant Concat(group) == current
      invariant chunks == WrapAll(MapConcat(done))
      invariant done + Groups(parts[i..], group, maxLen) == Groups(parts, [], maxLen)
    {
      var part := parts[i];
      PackStep(parts, i, group, done, maxLen);
      if |current| + |part| > maxLen {
        EmitGroup(done, group);
        chunks := chunks + [Wrap(current)];
        done := done + [group];
        current := part;
        group := [part];
        assert Concat(group) == part + Concat([]);
      } else {
        ConcatAppend(group, [part]);
        current := current + part;
        group := group + [part];
      }
      i := i + 1;
    }
    assert parts[i..] == [];
    if current != "" {
      EmitGroup(done, group);
      chunks := chunks + [Wrap(current)];
      done := done + [group];
    }
    assert done == Groups(parts, [], maxLen);
  }

  /** One turn of the split loop, in terms of `Groups`. */
  lemma GroupsStep(parts: seq<string>, i: nat, group: seq<string>, maxLen: nat)
    requires i < |parts|
    ensures Groups(parts[i..], group, maxLen) ==
      if |Concat(group)| + |parts[i]| > maxLen
      then [group] + Groups(parts[i + 1..], [parts[i]], maxLen)
      else Groups(parts[i + 1..], group + [parts[i]], maxLen)
  {
    assert parts[i..][0] == parts[i];
    assert parts[i..][1..] == parts[i + 1..];
  }

  /** The loop's account of the groups, `done` followed by the groups still
      to come from the pending group, survives one turn. */
  lemma PackStep(parts: seq<string>, i: nat, group: seq<string>, done: seq<seq<string>>, maxLen: nat)
    requires i < |parts|
    requires done + Groups(parts[i..], group, maxLen) == Groups(parts, [], maxLen)
    ensures |Concat(group)| + |parts[i]| > maxLen ==>
      (done + [group]) + Groups(parts[i + 1..], [parts[i]], maxLen) == Groups(parts, [], maxLen)
    ensures |Concat(group)| + |parts[i]| <= maxLen ==>
      done + Groups(parts[i + 1..], group + [parts[i]], maxLen) == Groups(parts, [], maxLen)
  {
    GroupsStep(parts, i, group, maxLen);
    if |Concat(group)| + |parts[i]| > maxLen {
      var G := Groups(parts[i + 1..], [parts[i]], maxLen);
      assert (done + [group]) + G == done + ([group] + G);
    }
  }

  lemma EmitGroup(done: seq<seq<string>>, group: seq<string>)
    ensures WrapAll(MapConcat(done + [group])) == WrapAll(MapConcat(done)) + [Wrap(Concat(group))]
  {
  }

  // ---------------------------------------------------------------------
  // Properties of the packing
  // ---------------------------------------------------------------------

  /** The groups' texts, concatenated, are the pending group followed by all tokens. */
  lemma {:induction false} GroupsConcat(parts: seq<string>, cur: seq<string>, maxLen: nat)
    ensures Concat(MapConcat(Groups(parts, cur, maxLen))) == Concat(cur) + Concat(parts)
    decreases |parts|
  {
    var G := Groups(parts, cur, maxLen);
    if parts == [] {
      if Concat(cur) != "" {
        assert MapConcat(G) == [Concat(cur)];
      }
    } else {
      var p, rest := parts[0], parts[1..];
      ConcatAppend([p], rest);
      if |Concat(cur)| + |p| > maxLen {
        GroupsConcat(rest, [p], maxLen);
        var G' := Groups(rest, [p], maxLen);
        assert MapConcat(G) == [Concat(cur)] + MapConcat(G');
        ConcatAppend([Concat(cur)], MapConcat(G'));
      } else {
        GroupsConcat(rest, cur + [p], maxLen);
        ConcatAppend(cur, [p]);
      }
    }
  }

  /** The groups hold the tokens in order, each exactly once; only trailing
      empty tokens can be left out (an empty final group is not emitted). */
  lemma {:induction false} GroupsFlatten(parts: seq<string>, cur: seq<string>, maxLen: nat)
    ensures var F := Flatten(Groups(parts, cur, maxLen));
      |F| <= |cur + parts| && F == (cur + parts)[..|F|]
      && forall k :: |F| <= k < |cur + parts| ==> (cur + parts)[k] == ""
    decreases |parts|
  {
    var G := Groups(parts, cur, maxLen);
    if parts == [] {
      if Concat(cur) != "" {
        assert Flatten(G) == cur + Flatten([]);
      } else {
        ConcatEmpty(cur);
      }
    } else {
      var p, rest := parts[0], parts[1..];
      assert cur + parts == cur + [p] + rest;
      if |Concat(cur)| + |p| > maxLen {
        GroupsFlatten(rest, [p], maxLen);
        var G' := Groups(rest, [p], maxLen);
        assert G == [cur] + G';
        assert Flatten(G) == cur + Flatten(G');
        assert cur + parts == cur + ([p] + rest);
      } else {
        GroupsFlatten(rest, cur + [p], maxLen);
      }
    }
  }

  lemma {:induction false} ConcatEmpty(xs: seq<string>)
    requires Concat(xs) == ""
    ensures forall k :: 0 <= k < |xs| ==> xs[k] == ""
    decreases |xs|
  {
    if xs != [] {
      ConcatEmpty(xs[1..]);
      assert forall k :: 1 <= k < |xs| ==> xs[k] == xs[1..][k - 1];
    }
  }

  /** A group within the budget, or a single token that alone is over it. */
  predicate Fits(g: seq<string>, maxLen: nat) {
    |Concat(g)| <= maxLen || (|g| == 1 && |g[0]| > maxLen)
  }

  lemma {:induction false} GroupsFit(parts: seq<string>, cur: seq<string>, maxLen: nat)
    requires Fits(cur, maxLen)
    ensures forall k :: 0 <= k < |Groups(parts, cur, maxLen)| ==> Fits(Groups(parts, cur, maxLen)[k], maxLen)
    decreases |parts|
  {
    if parts != [] {
      var p, rest := parts[0], parts[1..];
      assert Concat([p]) == p;
      if |Concat(cur)| + |p| > maxLen {
        GroupsFit(rest, [p], maxLen);
        var G' := Groups(rest, [p], maxLen);
        assert forall k :: 1 <= k < |G'| + 1 ==> ([cur] + G')[k] == G'[k - 1];
      } else {
        ConcatAppend(cur, [p]);
        GroupsFit(rest, cur + [p], maxLen);
      }
    }
  }

  /** Every token of every group comes from the pending group or the tokens. */
  lemma {:induction false} GroupsMembers(parts: seq<string>, cur: seq<string>, maxLen: nat)
    ensures forall k, j :: (0 <= k < |Groups(parts, cur, maxLen)| && 0 <= j < |Groups(parts, cur, maxLen)[k]|
      ==> Groups(parts, cur, maxLen)[k][j] in cur + parts)
    decreases |parts|
  {
    if parts != [] {
      var p, rest := parts[0], parts[1..];
      assert cur + parts == (cur + [p]) + rest;
      if |Concat(cur)| + |p| > maxLen {
        GroupsMembers(rest, [p], maxLen);
        var G' := Groups(rest, [p], maxLen);
        assert forall k :: 1 <= k < |G'| + 1 ==> ([cur] + G')[k] == G'[k - 1];
        assert forall x :: x in [p] + rest ==> x in cur + parts;
      } else {
        GroupsMembers(rest, cur + [p], maxLen);
        assert forall x :: x in cur + [p] + rest ==> x in cur + parts;
      }
    }
  }

  /** A pending group already over the budget is emitted as the first group. */
  lemma GroupsStartWithOverLong(parts: seq<string>, cur: seq<string>, maxLen: nat)
    requires |Concat(cur)| > maxLen
    ensures |Groups(parts, cur, maxLen)| > 0 && Groups(parts, cur, maxLen)[0] == cur
  {
  }

  /** Nothing is emitted for an empty pending group and empty tokens. */
  lemma {:induction false} GroupsOfNothing(parts: seq<string>, cur: seq<string>, maxLen: nat)
    requires Concat(cur) + Concat(parts) == ""
    ensures Groups(parts, cur, maxLen) == []
    decreases |parts|
  {
    if parts != [] {
      ConcatAppend([parts[0]], parts[1..]);
      ConcatAppend(cur, [parts[0]]);
      GroupsOfNothing(parts[1..], cur + [parts[0]], maxLen);
    }
  }

  /** When there is text at all, the last group emitted holds some. */
  lemma {:induction false} GroupsLastNotEmpty(parts: seq<string>, cur: seq<string>, maxLen: nat)
    requires Concat(cur) + Concat(parts) != ""
    ensures var G := Groups(parts, cur, maxLen); |G| > 0 && Concat(G[|G| - 1]) != ""
    decreases |parts|
  {
    if parts != [] {
      var p, rest := parts[0], parts[1..];
      ConcatAppend([p], rest);
      assert Concat([p]) == p;
      if |Concat(cur)| + |p| > maxLen {
        if Concat([p]) + Concat(rest) != "" {
          GroupsLastNotEmpty(rest, [p], maxLen);
        } else {
          GroupsOfNothing(rest, [p], maxLen);
        }
      } else {
        ConcatAppend(cur, [p]);
        GroupsLastNotEmpty(rest, cur + [p], maxLen);
      }
    }
  }

  /** An empty group is emitted only when the next token alone is over the
      budget, and that token is then emitted by itself as the next group. */
  lemma {:induction false} GroupsEmptyBeforeOverLong(parts: seq<string>, cur: seq<string>, maxLen: nat, k: nat)
    requires k < |Groups(parts, cur, maxLen)| && Concat(Groups(parts, cur, maxLen)[k]) == ""
    ensures k + 1 < |Groups(parts, cur, maxLen)| && |Concat(Groups(parts, cur, maxLen)[k + 1])| > maxLen
    decreases |parts|
  {
    var p, rest := parts[0], parts[1..];
    if |Concat(cur)| + |p| > maxLen {
      var G' := Groups(rest, [p], maxLen);
      assert Groups(parts, cur, maxLen) == [cur] + G';
      if k == 0 {
        GroupsStartWithOverLong(rest, [p], maxLen);
        assert Concat([p]) == p;
      } else {
        GroupsEmptyBeforeOverLong(rest, [p], maxLen, k - 1);
      }
    } else {
      assert Groups(parts, cur, maxLen) == Groups(rest, cur + [p], maxLen);
      GroupsEmptyBeforeOverLong(rest, cur + [p], maxLen, k);
    }
  }

  lemma {:induction false} ConcatOfMapConcat(G: seq<seq<string>>)
    ensures Concat(MapConcat(G)) == Concat(Flatten(G))
    decreases |G|
  {
    if G != [] {
      ConcatOfMapConcat(G[1..]);
      assert MapConcat(G) == [Concat(G[0])] + MapConcat(G[1..]);
      ConcatAppend([Concat(G[0])], MapConcat(G[1..]));
      ConcatAppend(G[0], Flatten(G[1..]));
    }
  }

  lemma {:induction false} FlattenAppend(A: seq<seq<string>>, B: seq<seq<string>>)
    ensures Flatten(A + B) == Flatten(A) + Flatten(B)
    decreases |A|
  {
    if A != [] {
      assert (A + B)[1..] == A[1..] + B;
      assert (A + B)[0] == A[0];
      FlattenAppend(A[1..], B);
    } else {
      assert A + B == B;
    }
  }

  // ---------------------------------------------------------------------
  // Properties of the chunks
  // ---------------------------------------------------------------------

  /** Concatenating the chunks' inner contents gives the unwrapped text back. */
  lemma ChunksRoundTrip(ssml: string, maxLen: nat)
    ensures Concat(ChunkInners(ssml, maxLen)) == Unwrap(ssml)
  {
    var u := Unwrap(ssml);
    if |u| > maxLen {
      GroupsConcat(Tokenize(u), [], maxLen);
    } else {
      assert Concat([u]) == u;
    }
  }

  /** There is always at least one chunk, and every chunk is a wrapped inner content. */
  lemma ChunksWrapped(ssml: string, maxLen: nat, chunks: seq<string>)
    requires chunks == WrapAll(ChunkInners(ssml, maxLen))
    ensures |chunks| > 0
    ensures forall k :: 0 <= k < |chunks| ==>
      |chunks[k]| >= 15 && chunks[k][..7] == SpeakOpen && chunks[k][|chunks[k]| - 8..] == SpeakClose
  {
    var u := Unwrap(ssml);
    if |u| > maxLen {
      GroupsLastNotEmpty(Tokenize(u), [], maxLen);
    }
  }

  /** Each chunk's inner content is within the budget, or is a single token
      of the split that alone is over it. */
  lemma ChunksWithinBudget(ssml: string, maxLen: nat)
    ensures var inners := ChunkInners(ssml, maxLen);
      forall k :: 0 <= k < |inners| ==>
        |inners[k]| <= maxLen || inners[k] in Tokenize(Unwrap(ssml))
  {
    var u := Unwrap(ssml);
    if |u| > maxLen {
      var parts := Tokenize(u);
      var G := Groups(parts, [], maxLen);
      GroupsFit(parts, [], maxLen);
      GroupsMembers(parts, [], maxLen);
      forall k | 0 <= k < |G| && |Concat(G[k])| > maxLen ensures Concat(G[k]) in parts {
        assert G[k] == [G[k][0]];
        assert Concat(G[k]) == G[k][0];
        assert [] + parts == parts;
      }
    }
  }

  /** When the first token alone is over the budget, an empty chunk comes first. */
  lemma FirstTokenOverLong(ssml: string, maxLen: nat)
    requires |Unwrap(ssml)| > maxLen
    requires |Tokenize(Unwrap(ssml))[0]| > maxLen
    ensures ChunkInners(ssml, maxLen)[0] == ""
  {
  }

  /** When the text is split, the last chunk is not empty. */
  lemma LastChunkNotEmpty(ssml: string, maxLen: nat)
    requires |Unwrap(ssml)| > maxLen
    ensures var inners := ChunkInners(ssml, maxLen); |inners| > 0 && |inners[|inners| - 1]| > 0
  {
    SplitLastNotEmpty(Unwrap(ssml), maxLen);
  }

  lemma SplitLastNotEmpty(u: string, maxLen: nat)
    requires |u| > maxLen
    ensures var inners := MapConcat(Groups(Tokenize(u), [], maxLen));
      |inners| > 0 && |inners[|inners| - 1]| > 0
  {
    var parts := Tokenize(u);
    assert Concat([]) + Concat(parts) == u;
    GroupsLastNotEmpty(parts, [], maxLen);
  }

  /** When the text is split, an empty chunk is always followed by a chunk
      that is over the budget (a single over-long token). */
  lemma EmptyChunkBeforeOverLong(ssml: string, maxLen: nat, k: nat)
    requires |Unwrap(ssml)| > maxLen
    requires k < |ChunkInners(ssml, maxLen)| && ChunkInners(ssml, maxLen)[k] == ""
    ensures k + 1 < |ChunkInners(ssml, maxLen)| && |ChunkInners(ssml, maxLen)[k + 1]| > maxLen
  {
    var G := Groups(Tokenize(Unwrap(ssml)), [], maxLen);
    assert ChunkInners(ssml, maxLen) == MapConcat(G);
    GroupsEmptyBeforeOverLong(Tokenize(Unwrap(ssml)), [], maxLen, k);
  }

  /** No chunk boundary falls strictly inside a token of the split, in
      particular inside a mark tag: with `c` the offset in the unwrapped text
      where chunk `g` begins and [`a`, `b`) the range of token `j`, either
      `c <= a` or `b <= c`. */
  lemma MarkTagsNeverSplit(ssml: string, maxLen: nat, g: nat, j: nat)
    requires g <= |ChunkInners(ssml, maxLen)|
    requires j < |Tokenize(Unwrap(ssml))|
    ensures var parts := Tokenize(Unwrap(ssml));
      var c := |Concat(ChunkInners(ssml, maxLen)[..g])|;
      var a := |Concat(parts[..j])|;
      (j % 2 == 1 ==> IsMarkTag(parts[j]))
      && (c <= a || a + |parts[j]| <= c)
  {
    var u := Unwrap(ssml);
    var parts := Tokenize(u);
    if |u| <= maxLen {
      WholeTextOutsideTokens(parts, g, j);
    } else {
      BoundaryOutsideTokens(parts, maxLen, g, j);
    }
  }

  /** The single chunk of an unsplit text begins at offset 0 or at its end. */
  lemma WholeTextOutsideTokens(parts: seq<string>, g: nat, j: nat)
    requires g <= 1 && j < |parts|
    ensures var c := |Concat([Concat(parts)][..g])|;
      var a := |Concat(parts[..j])|;
      c <= a || a + |parts[j]| <= c
  {
    if g == 1 {
      var u := Concat(parts);
      assert [u][..g] == [u];
      assert Concat([u]) == u;
      ConcatSplit(parts, j + 1);
      TokenRange(parts, j);
    }
  }

  /** The offset of token `j` plus its length is the offset of token `j + 1`. */
  lemma TokenRange(parts: seq<string>, j: nat)
    requires j < |parts|
    ensures |Concat(parts[..j + 1])| == |Concat(parts[..j])| + |parts[j]|
  {
    ConcatSplit(parts[..j + 1], j);
    assert parts[..j + 1][..j] == parts[..j];
    assert parts[..j + 1][j..] == [parts[j]];
    assert Concat([parts[j]]) == parts[j];
  }

  /** A group boundary of the split falls between tokens: the offset where
      group `g` begins is at or before the start of token `j`, or at or after
      its end. */
  lemma BoundaryOutsideTokens(parts: seq<string>, maxLen: nat, g: nat, j: nat)
    requires g <= |Groups(parts, [], maxLen)| && j < |parts|
    ensures var c := |Concat(MapConcat(Groups(parts, [], maxLen))[..g])|;
      var a := |Concat(parts[..j])|;
      c <= a || a + |parts[j]| <= c
  {
    var G := Groups(parts, [], maxLen);
    TokenRange(parts, j);
    assert MapConcat(G)[..g] == MapConcat(G[..g]);
    ConcatOfMapConcat(G[..g]);
    assert G == G[..g] + G[g..];
    FlattenAppend(G[..g], G[g..]);
    GroupsFlatten(parts, [], maxLen);
    assert [] + parts == parts;
    var F := Flatten(G);
    var m := |Flatten(G[..g])|;
    assert Flatten(G[..g]) == F[..m];
    assert Flatten(G[..g]) == parts[..m];
    if m <= j {
      ConcatSplit(parts[..j], m);
      assert parts[..j][..m] == parts[..m];
    } else {
      ConcatSplit(parts[..m], j + 1);
      assert parts[..m][..j + 1] == parts[..j + 1];
    }
  }
}
