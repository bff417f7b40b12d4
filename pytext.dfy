/** The few Python string and integer primitives the pipeline relies on:
    `str.strip`, `startswith`/`endswith`, ASCII `lower`, `str.split(sep)`,
    `sep.join`, `str(n)` for a natural number, `int(s)` in base 10, the
    first `\d+` run of a string, and `str` ordering. */
module PyText {
  import opened Wrappers

  /** Python's `str.isspace` for one code point: the characters `strip()` removes. */
  predicate IsSpace(c: char) {
    var n := c as int;
    n == 0x20 || 0x09 <= n <= 0x0D || 0x1C <= n <= 0x1F || n == 0x85 || n == 0xA0
    || n == 0x1680 || 0x2000 <= n <= 0x200A || n == 0x2028 || n == 0x2029
    || n == 0x202F || n == 0x205F || n == 0x3000
  }

  /** ASCII decimal digit (`\d` and `str.isdigit` restricted to ASCII). */
  predicate IsDigit(c: char) {
    '0' <= c <= '9'
  }

  function DigitValue(c: char): (d: nat)
    requires IsDigit(c)
    ensures d < 10
  {
    c as int - '0' as int
  }

  function DigitChar(d: nat): (c: char)
    requires d < 10
    ensures IsDigit(c) && DigitValue(c) == d
  {
    ('0' as int + d) as char
  }

  predicate StartsWith(s: string, prefix: string) {
    |prefix| <= |s| && s[..|prefix|] == prefix
  }

  predicate EndsWith(s: string, suffix: string) {
    |suffix| <= |s| && s[|s| - |suffix|..] == suffix
  }

  /** The first index at or after `i` that does not hold whitespace, or `|s|`. */
  function SpanSpaces(s: string, i: nat): (j: nat)
    requires i <= |s|
    ensures i <= j <= |s|
    ensures forall k :: i <= k < j ==> IsSpace(s[k])
    ensures j < |s| ==> !IsSpace(s[j])
    decreases |s| - i
  {
    if i < |s| && IsSpace(s[i]) then SpanSpaces(s, i + 1) else i
  }

  /** The end of `s[lo..e]` once the whitespace at its end is cut off. */
  function TrimSpaces(s: string, lo: nat, e: nat): (j: nat)
    requires lo <= e <= |s|
    ensures lo <= j <= e
    ensures forall k :: j <= k < e ==> IsSpace(s[k])
    ensures j > lo ==> !IsSpace(s[j - 1])
    decreases e
  {
    if e > lo && IsSpace(s[e - 1]) then TrimSpaces(s, lo, e - 1) else e
  }

  /** Python's `s.strip()`. The result is the slice of `s` left after the
      whitespace at both ends is cut off; it is empty exactly when `s` is all
      whitespace. */
  function Strip(s: string): (r: string)
    ensures var i := SpanSpaces(s, 0);
      i + |r| <= |s| && r == s[i..i + |r|]
      && (forall k :: 0 <= k < i ==> IsSpace(s[k]))
      && (forall k :: i + |r| <= k < |s| ==> IsSpace(s[k]))
    ensures r != [] ==> !IsSpace(r[0]) && !IsSpace(r[|r| - 1])
    ensures r == [] <==> forall k :: 0 <= k < |s| ==> IsSpace(s[k])
  {
    var i := SpanSpaces(s, 0);
    var e := TrimSpaces(s, i, |s|);
    assert e > i ==> s[i..e][0] == s[i] && s[i..e][e - i - 1] == s[e - 1];
    s[i..e]
  }

  /** A string whose two ends are not whitespace is its own strip. */
  lemma StripNoop(s: string)
    requires s != [] ==> !IsSpace(s[0]) && !IsSpace(s[|s| - 1])
    ensures Strip(s) == s
  {
    assert SpanSpaces(s, 0) == 0;
    assert TrimSpaces(s, 0, |s|) == |s|;
    assert s[0..|s|] == s;
  }

  /** Python's `c.lower()` on an ASCII letter; other characters are kept. */
  function LowerChar(c: char): char {
    if 'A' <= c <= 'Z' then (c as int + 32) as char else c
  }

  /** Python's `s.lower()` on ASCII letters; other characters are kept. */
  function AsciiLower(s: string): (r: string)
    ensures |r| == |s|
    decreases |s|
  {
    if s == [] then [] else [LowerChar(s[0])] + AsciiLower(s[1..])
  }

  /** Lowering works character by character. */
  lemma {:induction false} AsciiLowerAt(s: string, k: nat)
    requires k < |s|
    ensures AsciiLower(s)[k] == LowerChar(s[k])
    decreases |s|
  {
    if k > 0 {
      AsciiLowerAt(s[1..], k - 1);
    }
  }

  /** Python's `sep.join(parts)`. */
  function Join(parts: seq<string>, sep: string): string
    decreases |parts|
  {
    if parts == [] then ""
    else if |parts| == 1 then parts[0]
    else parts[0] + sep + Join(parts[1..], sep)
  }

  lemma JoinCons(x: string, ys: seq<string>, sep: string)
    ensures Join([x] + ys, sep) == if ys == [] then x else x + sep + Join(ys, sep)
  {
    assert ([x] + ys)[1..] == ys;
  }

  /** Python's `s.split(c)` for a one-character separator. */
  function SplitOn(s: string, c: char): (r: seq<string>)
    ensures |r| > 0
    decreases |s|
  {
    if s == [] then [""]
    else
      var rest := SplitOn(s[1..], c);
      if s[0] == c then [""] + rest
      else [[s[0]] + rest[0]] + rest[1..]
  }

  /** `s.split(c)` gives one more piece than `s` has occurrences of `c`. */
  lemma {:induction false} SplitOnCount(s: string, c: char)
    ensures |SplitOn(s, c)| == multiset(s)[c] + 1
    decreases |s|
  {
    if s != [] {
      SplitOnCount(s[1..], c);
      assert s == [s[0]] + s[1..];
      assert multiset(s) == multiset{s[0]} + multiset(s[1..]);
    }
  }

  /** No piece of `s.split(c)` holds `c`. */
  lemma {:induction false} SplitOnPieces(s: string, c: char)
    ensures forall k :: 0 <= k < |SplitOn(s, c)| ==> c !in SplitOn(s, c)[k]
    decreases |s|
  {
    if s != [] {
      var rest := SplitOn(s[1..], c);
      SplitOnPieces(s[1..], c);
      var r := SplitOn(s, c);
      if s[0] == c {
        assert r == [""] + rest;
        forall k | 0 <= k < |r| ensures c !in r[k] {
          if k > 0 { assert r[k] == rest[k - 1]; }
        }
      } else {
        assert r == [[s[0]] + rest[0]] + rest[1..];
        forall k | 0 <= k < |r| ensures c !in r[k] {
          if k > 0 { assert r[k] == rest[k]; }
        }
      }
    }
  }

  /** Joining the pieces of `s.split(c)` with `c` gives `s` back. */
  lemma {:induction false} SplitOnJoin(s: string, c: char)
    ensures Join(SplitOn(s, c), [c]) == s
    decreases |s|
  {
    if s != [] {
      var rest := SplitOn(s[1..], c);
      SplitOnJoin(s[1..], c);
      if s[0] == c {
        assert SplitOn(s, c) == [""] + rest;
        JoinCons("", rest, [c]);
      } else {
        assert SplitOn(s, c) == [[s[0]] + rest[0]] + rest[1..];
        assert rest == [rest[0]] + rest[1..];
        JoinConsHead(s[0], rest[0], rest[1..], [c]);
      }
      assert s == [s[0]] + s[1..];
    }
  }

  /** A character in front of the first part comes out in front of the join. */
  lemma JoinConsHead(x: char, a: string, ys: seq<string>, sep: string)
    ensures Join([[x] + a] + ys, sep) == [x] + Join([a] + ys, sep)
  {
    JoinCons([x] + a, ys, sep);
    JoinCons(a, ys, sep);
    if ys != [] {
      assert ([x] + a) + sep + Join(ys, sep) == [x] + (a + sep + Join(ys, sep));
    }
  }

  /** Python's `str(n)` for a natural number: decimal digits, no leading zero. */
  function Decimal(n: nat): (r: string)
    ensures |r| > 0 && forall k :: 0 <= k < |r| ==> IsDigit(r[k])
    ensures |r| > 1 ==> r[0] != '0'
    decreases n
  {
    if n < 10 then [DigitChar(n)] else Decimal(n / 10) + [DigitChar(n % 10)]
  }

  /** The value of a run of ASCII digits, with `_` separators ignored. */
  function DigitsValue(s: string): nat
    requires forall k :: 0 <= k < |s| ==> IsDigit(s[k]) || s[k] == '_'
    decreases |s|
  {
    if s == [] then 0
    else if s[|s| - 1] == '_' then DigitsValue(s[..|s| - 1])
    else 10 * DigitsValue(s[..|s| - 1]) + DigitValue(s[|s| - 1])
  }

  /** The digit body `int()` accepts: digits, with single `_` between two digits. */
  predicate ValidDigits(b: string) {
    && |b| > 0
    && (forall k :: 0 <= k < |b| ==> IsDigit(b[k]) || b[k] == '_')
    && b[0] != '_' && b[|b| - 1] != '_'
    && (forall i, j :: 0 <= i < |b| && 0 <= j < |b| && j == i + 1 && b[i] == '_' ==> IsDigit(b[j]))
  }

  /** Python's `int(s)` in base 10 on ASCII input: surrounding whitespace, an
      optional sign, then a digit body; any other text raises `ValueError`,
      modelled as `None`. */
  function PyInt(s: string): Option<int> {
    var t := Strip(s);
    if |t| > 0 && (t[0] == '+' || t[0] == '-') then
      var b := t[1..];
      if ValidDigits(b) then
        var v: int := DigitsValue(b);
        Some(if t[0] == '-' then -v else v)
      else None
    else if ValidDigits(t) then Some(DigitsValue(t))
    else None
  }

  lemma {:induction false} DecimalValue(n: nat)
    ensures DigitsValue(Decimal(n)) == n
    decreases n
  {
    if n >= 10 {
      DecimalValue(n / 10);
      var d := Decimal(n);
      assert d[..|d| - 1] == Decimal(n / 10);
    }
  }

  /** `int(str(n)) == n`. */
  lemma PyIntDecimal(n: nat)
    ensures PyInt(Decimal(n)) == Some(n)
  {
    var d := Decimal(n);
    assert !IsSpace(d[0]) && !IsSpace(d[|d| - 1]);
    StripNoop(d);
    assert d[0] != '+' && d[0] != '-';
    assert ValidDigits(d);
    DecimalValue(n);
  }

  /** `int(s)` raises on a string without surrounding whitespace or sign
      that holds a character other than a digit or `_`. */
  lemma PyIntRejects(s: string, i: nat)
    requires i < |s| && !IsDigit(s[i]) && s[i] != '_'
    requires !IsSpace(s[0]) && !IsSpace(s[|s| - 1]) && s[0] != '+' && s[0] != '-'
    ensures PyInt(s) == None
  {
    StripNoop(s);
  }

  /** The longest run of ASCII digits at the front of `s`. */
  function DigitPrefix(s: string): (r: string)
    ensures |r| <= |s| && r == s[..|r|]
    ensures forall k :: 0 <= k < |r| ==> IsDigit(r[k])
    ensures |r| < |s| ==> !IsDigit(s[|r|])
    decreases |s|
  {
    if s != [] && IsDigit(s[0]) then [s[0]] + DigitPrefix(s[1..]) else []
  }

  /** Where `re.search(r"\d+", s)` starts looking at a digit: the index of
      the first digit, or `|s|` when there is none. */
  function FirstDigitIndex(s: string): (i: nat)
    ensures i <= |s|
    ensures forall k :: 0 <= k < i ==> !IsDigit(s[k])
    ensures i < |s| ==> IsDigit(s[i])
    decreases |s|
  {
    if s == [] || IsDigit(s[0]) then 0
    else
      var i := FirstDigitIndex(s[1..]);
      assert forall k :: 1 <= k < 1 + i ==> s[k] == s[1..][k - 1];
      1 + i
  }

  /** `re.search(r"\d+", s).group()`: the first maximal run of digits, or
      `None` when `s` has no digit (where Python's `.group()` raises). The
      run starts at the first digit of `s` and stops before the next
      non-digit or at the end. */
  function FirstDigitRun(s: string): (r: Option<string>)
    ensures r.None? <==> forall k :: 0 <= k < |s| ==> !IsDigit(s[k])
    ensures r.Some? ==>
      var i := FirstDigitIndex(s);
      && |r.value| > 0 && i + |r.value| <= |s|
      && s[i..i + |r.value|] == r.value
      && (forall k :: 0 <= k < |r.value| ==> IsDigit(r.value[k]))
      && (i + |r.value| < |s| ==> !IsDigit(s[i + |r.value|]))
  {
    var i := FirstDigitIndex(s);
    if i == |s| then None else Some(DigitPrefix(s[i..]))
  }

  /** Any run of digits written after a digit-free prefix and before a
      non-digit is the first digit run, leading zeros included:
      `re.search(r"\d+", "chapter007.v2")` finds "007". */
  lemma FirstDigitRunAfter(p: string, d: string, q: string)
    requires forall k :: 0 <= k < |p| ==> !IsDigit(p[k])
    requires |d| > 0 && forall k :: 0 <= k < |d| ==> IsDigit(d[k])
    requires q == [] || !IsDigit(q[0])
    ensures FirstDigitRun(p + d + q) == Some(d)
  {
    var s := p + d + q;
    assert s[|p|] == d[0];
    assert FirstDigitIndex(s) == |p|;
    assert s[|p|..] == d + q;
    DigitPrefixOf(d, q);
  }

  lemma {:induction false} DigitPrefixOf(d: string, q: string)
    requires forall k :: 0 <= k < |d| ==> IsDigit(d[k])
    requires q == [] || !IsDigit(q[0])
    ensures DigitPrefix(d + q) == d
    decreases |d|
  {
    if d != [] {
      assert (d + q)[1..] == d[1..] + q;
      DigitPrefixOf(d[1..], q);
    }
  }

  function Min(a: int, b: int): int {
    if a < b then a else b
  }

  /** Python's ordering on `str`: code point by code point, a prefix first. */
  predicate LexLe(a: string, b: string)
    decreases |a|
  {
    a == [] || (b != [] && (a[0] < b[0] || (a[0] == b[0] && LexLe(a[1..], b[1..]))))
  }

  lemma {:induction false} LexLeTotal(a: string, b: string)
    ensures LexLe(a, b) || LexLe(b, a)
    decreases |a|
  {
    if a != [] && b != [] && a[0] == b[0] {
      LexLeTotal(a[1..], b[1..]);
    }
  }

  /** Position of the last `c` in `s` (`str.rfind`), `None` when there is none. */
  function LastIndexOf(s: string, c: char): (r: Option<nat>)
    ensures r.Some? ==> r.value < |s| && s[r.value] == c && forall k :: r.value < k < |s| ==> s[k] != c
    ensures r.None? ==> forall k :: 0 <= k < |s| ==> s[k] != c
    decreases |s|
  {
    if s == [] then None
    else if s[|s| - 1] == c then Some(|s| - 1)
    else LastIndexOf(s[..|s| - 1], c)
  }

  /** `PurePath.stem` of a file name: the name without its suffix, the suffix
      being the text from the last `.` on, provided that `.` is neither the
      first nor the last character of the name. */
  function Stem(name: string): (r: string)
    ensures |r| <= |name| && r == name[..|r|]
    ensures r != name ==> (|r| > 0 && name[|r|] == '.' && |r| < |name| - 1
      && forall k :: |r| < k < |name| ==> name[k] != '.')
  {
    match LastIndexOf(name, '.')
    case Some(i) => if 0 < i < |name| - 1 then name[..i] else name
    case None => name
  }

  /** The stem of `base.ext` is `base` when `base` is not empty and `ext` is a
      non-empty suffix without a dot: the stem of "chapter12.txt" is "chapter12". */
  lemma StemOfSuffixed(base: string, ext: string)
    requires base != [] && ext != [] && '.' !in ext
    ensures Stem(base + "." + ext) == base
  {
    var name := base + "." + ext;
    assert name[|base|] == '.';
    assert forall k :: |base| < k < |name| ==> name[k] == ext[k - |base| - 1];
    assert name[..|base|] == base;
  }

  /** A string without `c` splits into itself alone. */
  lemma {:induction false} SplitOnNone(s: string, c: char)
    requires c !in s
    ensures SplitOn(s, c) == [s]
    decreases |s|
  {
    if s != [] {
      SplitOnNone(s[1..], c);
      assert s == [s[0]] + s[1..];
    }
  }

  /** Splitting `d + [c] + rest` at `c`, where `d` has no `c`, gives `d` then
      the pieces of `rest`. */
  lemma {:induction false} SplitOnFirst(d: string, rest: string, c: char)
    requires c !in d
    ensures SplitOn(d + [c] + rest, c) == [d] + SplitOn(rest, c)
    decreases |d|
  {
    var s := d + [c] + rest;
    if d == [] {
      assert s == [c] + rest && s[1..] == rest;
    } else {
      assert s[1..] == d[1..] + [c] + rest;
      SplitOnFirst(d[1..], rest, c);
      assert d == [d[0]] + d[1..];
    }
  }

  /** `s.split(c)[0]`: the text before the first `c`, or all of `s` when it
      has none. */
  function FirstPiece(s: string, c: char): (r: string)
    ensures |r| <= |s| && r == s[..|r|] && c !in r
    ensures |r| < |s| ==> s[|r|] == c
    decreases |s|
  {
    if s == [] || s[0] == c then [] else [s[0]] + FirstPiece(s[1..], c)
  }

  lemma {:induction false} FirstPieceOfSplit(s: string, c: char)
    ensures SplitOn(s, c)[0] == FirstPiece(s, c)
    decreases |s|
  {
    if s != [] && s[0] != c {
      FirstPieceOfSplit(s[1..], c);
    }
  }

  /** The first piece of a string with no `c` is the whole string, and the
      first piece of `d + [c] + rest`, where `d` has no `c`, is `d`. */
  lemma {:induction false} FirstPieceBefore(d: string, rest: string, c: char)
    requires c !in d
    ensures FirstPiece(d, c) == d
    ensures FirstPiece(d + [c] + rest, c) == d
    decreases |d|
  {
    var s := d + [c] + rest;
    if d == [] {
      assert s[0] == c;
    } else {
      FirstPieceBefore(d[1..], rest, c);
      assert s[1..] == d[1..] + [c] + rest;
      assert d == [d[0]] + d[1..];
    }
  }

  /** Splitting undoes joining when no piece holds the separator. */
  lemma {:induction false} SplitOnOfJoin(xs: seq<string>, c: char)
    requires |xs| > 0
    requires forall k :: 0 <= k < |xs| ==> c !in xs[k]
    ensures SplitOn(Join(xs, [c]), c) == xs
    decreases |xs|
  {
    if |xs| == 1 {
      SplitOnNone(xs[0], c);
    } else {
      var ys := xs[1..];
      assert forall k :: 0 <= k < |ys| ==> ys[k] == xs[k + 1];
      SplitOnOfJoin(ys, c);
      assert Join(xs, [c]) == xs[0] + [c] + Join(ys, [c]);
      SplitOnFirst(xs[0], Join(ys, [c]), c);
      assert xs == [xs[0]] + ys;
    }
  }
}
