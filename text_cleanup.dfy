/** Mark insertion: every `*` of a narration script becomes a numbered SSML
    mark tag `<mark name="pN"/>`, N counting from 1 in document order. The
    source does this with `re.sub` and a callback that bumps a counter per
    match; the model walks the characters with the same counter. */
module TextCleanup {
  import opened PyText

  /** `_marker_tpl.format(n)`. */
  function MarkTag(n: nat): string {
    "<mark name=\"p" + Decimal(n) + "\"/>"
  }

  /** Number of `*` characters. */
  function Stars(s: string): nat {
    multiset(s)['*']
  }

  /** The text with the k-th `*` (1-based) replaced by `MarkTag(k)` and every
      other character kept. */
  function Marked(s: string): string
    decreases |s|
  {
    if s == [] then []
    else
      var init := s[..|s| - 1];
      Marked(init) + (if s[|s| - 1] == '*' then MarkTag(Stars(init) + 1) else [s[|s| - 1]])
  }

  /** `replace_asterisks_with_marks` without the file I/O: returns the updated
      text and the number of marks it reports (`counter - 1`). */
  method ReplaceAsterisksWithMarks(content: string) returns (updated: string, marks: nat)
    ensures updated == Marked(content)
    ensures marks == Stars(content)
  {
    var counter: nat := 1;
    updated := "";
    var i := 0;
    while i < |content|
      invariant 0 <= i <= |content|
      invariant updated == Marked(content[..i])
      invariant counter == Stars(content[..i]) + 1
    {
      var c := content[i];
      MarkedStep(content, i);
      if c == '*' {
        updated := updated + MarkTag(counter);
        counter := counter + 1;
      } else {
        updated := updated + [c];
      }
      i := i + 1;
    }
    assert content[..i] == content;
    marks := counter - 1;
  }

  lemma MarkTagHasNoStar(n: nat)
    ensures '*' !in MarkTag(n)
  {
    var d := Decimal(n);
    assert forall k :: 0 <= k < |d| ==> d[k] != '*';
  }

  /** The output holds no `*`: the template has none. */
  lemma {:induction false} MarkedHasNoStar(s: string)
    ensures '*' !in Marked(s)
    decreases |s|
  {
    if s != [] {
      MarkedHasNoStar(s[..|s| - 1]);
      if s[|s| - 1] == '*' {
        MarkTagHasNoStar(Stars(s[..|s| - 1]) + 1);
      }
    }
  }

  /** Text without `*` is returned unchanged. */
  lemma {:induction false} MarkedWithoutStars(s: string)
    requires '*' !in s
    ensures Marked(s) == s
    decreases |s|
  {
    if s != [] {
      assert s == s[..|s| - 1] + [s[|s| - 1]];
      MarkedWithoutStars(s[..|s| - 1]);
    }
  }

  /** The output of a prefix of the text is a prefix of the output. */
  lemma {:induction false} MarkedPrefix(s: string, j: nat)
    requires j <= |s|
    ensures |Marked(s[..j])| <= |Marked(s)|
    ensures Marked(s)[..|Marked(s[..j])|] == Marked(s[..j])
    decreases |s|
  {
    if j < |s| {
      var init := s[..|s| - 1];
      assert init[..j] == s[..j];
      MarkedPrefix(init, j);
    } else {
      assert s[..j] == s;
    }
  }

  /** The star at index `i` is the (Stars(s[..i]) + 1)-th one, and its tag
      `MarkTag(Stars(s[..i]) + 1)` stands whole in the output right after the
      output of the text before it. */
  lemma StarBecomesTag(s: string, i: nat)
    requires i < |s| && s[i] == '*'
    ensures var p := |Marked(s[..i])|; var tag := MarkTag(Stars(s[..i]) + 1);
      p + |tag| <= |Marked(s)| && Marked(s)[p..p + |tag|] == tag
  {
    MarkedStep(s, i);
    MarkedPrefix(s, i + 1);
    InsidePrefix(Marked(s), Marked(s[..i]), MarkTag(Stars(s[..i]) + 1));
  }

  /** Every other character is copied: the character at index `j` stands in the
      output right after the output of the text before it. */
  lemma OtherCharacterKept(s: string, j: nat)
    requires j < |s| && s[j] != '*'
    ensures |Marked(s[..j])| < |Marked(s)| && Marked(s)[|Marked(s[..j])|] == s[j]
  {
    MarkedStep(s, j);
    MarkedPrefix(s, j + 1);
    InsidePrefix(Marked(s), Marked(s[..j]), [s[j]]);
    assert Marked(s)[|Marked(s[..j])|] == [s[j]][0];
  }

  /** The output of `s[..i + 1]` is that of `s[..i]` followed by what the
      character at `i` becomes. */
  lemma MarkedStep(s: string, i: nat)
    requires i < |s|
    ensures Marked(s[..i + 1]) == Marked(s[..i])
      + (if s[i] == '*' then MarkTag(Stars(s[..i]) + 1) else [s[i]])
    ensures Stars(s[..i + 1]) == Stars(s[..i]) + if s[i] == '*' then 1 else 0
  {
    assert s[..i + 1][..i] == s[..i];
    assert s[..i + 1] == s[..i] + [s[i]];
  }

  /** The part `t` of a prefix `a + t` of `m` stands in `m` right after `a`. */
  lemma InsidePrefix(m: string, a: string, t: string)
    requires |a + t| <= |m| && m[..|a + t|] == a + t
    ensures |a| + |t| <= |m| && m[|a|..|a| + |t|] == t
  {
    assert m[|a|..|a| + |t|] == m[..|a + t|][|a|..];
  }

  /** Mark numbers grow strictly along the document. */
  lemma LaterStarLargerNumber(s: string, i: nat, j: nat)
    requires i < j < |s| && s[i] == '*'
    ensures Stars(s[..i]) + 1 <= Stars(s[..j])
  {
    assert s[..j] == s[..i] + [s[i]] + s[i + 1..j];
  }

  /** Distinct numbers give distinct tags, so the mark names are unique. */
  lemma MarkTagInjective(n: nat, m: nat)
    requires MarkTag(n) == MarkTag(m)
    ensures n == m
  {
    var a, b := MarkTag(n), MarkTag(m);
    assert a[13..|a| - 3] == Decimal(n);
    assert b[13..|b| - 3] == Decimal(m);
    PyIntDecimal(n);
    PyIntDecimal(m);
  }
}
