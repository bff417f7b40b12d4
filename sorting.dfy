/** Python's `sorted(xs, key=k)` / `xs.sort(key=k)`, modelled as a stable
    insertion sort under a total "key less-or-equal" relation: each element is
    inserted after every earlier element whose key is not greater, so equal
    keys keep their input order, as in Python. */
module Sorting {
  import opened Wrappers

  ghost predicate IsTotal<T(!new)>(le: (T, T) -> bool) {
    forall a, b :: le(a, b) || le(b, a)
  }

  /** Every element's key is no greater than the next one's. */
  predicate SortedBy<T>(s: seq<T>, le: (T, T) -> bool) {
    forall i :: 0 < i < |s| ==> le(s[i - 1], s[i])
  }

  function MapSeq<T, U>(s: seq<T>, f: T -> U): (r: seq<U>)
    ensures |r| == |s| && forall i :: 0 <= i < |s| ==> r[i] == f(s[i])
  {
    seq(|s|, i requires 0 <= i < |s| => f(s[i]))
  }

  /** `x` placed after the leading elements whose key is not greater than its own. */
  function Insert<T>(x: T, s: seq<T>, le: (T, T) -> bool): seq<T>
    decreases |s|
  {
    if s == [] then [x]
    else if le(s[0], x) then [s[0]] + Insert(x, s[1..], le)
    else [x] + s
  }

  function SortBy<T>(s: seq<T>, le: (T, T) -> bool): seq<T>
    decreases |s|
  {
    if s == [] then [] else Insert(s[|s| - 1], SortBy(s[..|s| - 1], le), le)
  }

  lemma {:induction false} InsertSorted<T(!new)>(x: T, s: seq<T>, le: (T, T) -> bool)
    requires IsTotal(le)
    requires SortedBy(s, le)
    ensures SortedBy(Insert(x, s, le), le)
    ensures |Insert(x, s, le)| == |s| + 1
    ensures Insert(x, s, le)[0] == x || Insert(x, s, le)[0] == s[0]
    decreases |s|
  {
    if s != [] {
      if le(s[0], x) {
        var t := Insert(x, s[1..], le);
        InsertSorted(x, s[1..], le);
        assert s[1..] != [] ==> s[1..][0] == s[1];
        var r := [s[0]] + t;
        forall i | 0 < i < |r| ensures le(r[i - 1], r[i]) {
          if i > 1 { assert r[i - 1] == t[i - 2] && r[i] == t[i - 1]; }
        }
      } else {
        assert le(x, s[0]);
        var r := [x] + s;
        forall i | 0 < i < |r| ensures le(r[i - 1], r[i]) {
          if i > 1 { assert r[i - 1] == s[i - 2] && r[i] == s[i - 1]; }
        }
      }
    }
  }

  lemma MapSeqCons<T, U>(a: T, s: seq<T>, f: T -> U)
    ensures MapSeq([a] + s, f) == [f(a)] + MapSeq(s, f)
  {
  }

  /** Inserting adds one occurrence of `x` (seen through any projection `f`). */
  lemma {:induction false} InsertPermutes<T, U>(x: T, s: seq<T>, le: (T, T) -> bool, f: T -> U)
    ensures multiset(MapSeq(Insert(x, s, le), f)) == multiset(MapSeq(s, f)) + multiset{f(x)}
    decreases |s|
  {
    if s == [] {
      assert MapSeq(Insert(x, s, le), f) == [f(x)];
    } else {
      assert s == [s[0]] + s[1..];
      MapSeqCons(s[0], s[1..], f);
      if le(s[0], x) {
        var t := Insert(x, s[1..], le);
        InsertPermutes(x, s[1..], le, f);
        assert Insert(x, s, le) == [s[0]] + t;
        MapSeqCons(s[0], t, f);
      } else {
        assert Insert(x, s, le) == [x] + s;
        MapSeqCons(x, s, f);
      }
    }
  }

  /** The sorted sequence is ordered by `le` and, through any projection `f`,
      a permutation of the input. */
  lemma {:induction false} SortByCorrect<T(!new), U>(s: seq<T>, le: (T, T) -> bool, f: T -> U)
    requires IsTotal(le)
    ensures SortedBy(SortBy(s, le), le)
    ensures |SortBy(s, le)| == |s|
    ensures multiset(MapSeq(SortBy(s, le), f)) == multiset(MapSeq(s, f))
    decreases |s|
  {
    if s != [] {
      var init := s[..|s| - 1];
      SortByCorrect(init, le, f);
      InsertSorted(s[|s| - 1], SortBy(init, le), le);
      InsertPermutes(s[|s| - 1], SortBy(init, le), le, f);
      assert MapSeq(s, f) == MapSeq(init, f) + [f(s[|s| - 1])];
    }
  }

  /** A sort is a permutation of its input. */
  lemma SortByPermutes<T(!new)>(s: seq<T>, le: (T, T) -> bool)
    requires IsTotal(le)
    ensures multiset(SortBy(s, le)) == multiset(s)
  {
    SortByCorrect(s, le, (x: T) => x);
    assert MapSeq(SortBy(s, le), (x: T) => x) == SortBy(s, le);
    assert MapSeq(s, (x: T) => x) == s;
  }

  /** `[x for x in s if p(x)]`. */
  function Filter<T>(s: seq<T>, p: T -> bool): (r: seq<T>)
    ensures |r| <= |s|
    ensures forall k :: 0 <= k < |r| ==> p(r[k])
    decreases |s|
  {
    if s == [] then [] else (if p(s[0]) then [s[0]] else []) + Filter(s[1..], p)
  }

  /** The filtered list holds exactly the elements of `s` that satisfy `p`. */
  lemma {:induction false} FilterMembers<T>(s: seq<T>, p: T -> bool)
    ensures forall x :: x in Filter(s, p) <==> x in s && p(x)
    decreases |s|
  {
    if s != [] {
      FilterMembers(s[1..], p);
      assert s == [s[0]] + s[1..];
    }
  }

  /** The keys of `xs` paired with the elements, or the first element whose
      key cannot be computed (`key=lambda x: int(...)` raising). */
  function KeyedBy<T>(xs: seq<T>, key: T -> Option<int>): (r: Result<seq<(int, T)>, T>)
    ensures r.Ok? <==> forall k :: 0 <= k < |xs| ==> key(xs[k]).Some?
    ensures r.Ok? ==> (|r.value| == |xs|
      && forall k :: 0 <= k < |xs| ==> r.value[k] == (key(xs[k]).value, xs[k]))
    ensures r.Err? ==> r.error in xs && key(r.error).None?
    decreases |xs|
  {
    if xs == [] then Ok([])
    else
      match key(xs[0])
      case None => Err(xs[0])
      case Some(k0) =>
        var rest := KeyedBy(xs[1..], key);
        assert forall k :: 1 <= k < |xs| ==> xs[k] == xs[1..][k - 1];
        match rest
        case Err(x) => Err(x)
        case Ok(kv) => Ok([(k0, xs[0])] + kv)
  }

  predicate KeyLe<T>(a: (int, T), b: (int, T)) {
    a.0 <= b.0
  }

  function Second<T>(p: (int, T)): T {
    p.1
  }

  /** `sorted(xs, key=key)` with an integer key: a stable sort on the keys,
      failing when some key raises. */
  function SortByKey<T>(xs: seq<T>, key: T -> Option<int>): Result<seq<T>, T> {
    match KeyedBy(xs, key)
    case Err(x) => Err(x)
    case Ok(kv) => Ok(MapSeq(SortBy(kv, KeyLe), Second))
  }

  /** The sort by key succeeds exactly when every key can be computed; it then
      gives a permutation of the input in non-decreasing key order. */
  lemma SortByKeyCorrect<T(!new)>(xs: seq<T>, key: T -> Option<int>)
    ensures SortByKey(xs, key).Ok? <==> forall k :: 0 <= k < |xs| ==> key(xs[k]).Some?
    ensures SortByKey(xs, key).Ok? ==>
      var ys := SortByKey(xs, key).value;
      && multiset(ys) == multiset(xs)
      && (forall k :: 0 <= k < |ys| ==> key(ys[k]).Some?)
      && (forall i, j :: 0 <= i < j < |ys| ==> key(ys[i]).value <= key(ys[j]).value)
  {
    var r := KeyedBy(xs, key);
    if r.Ok? {
      var kv := r.value;
      var sorted := SortBy(kv, KeyLe);
      assert IsTotal(KeyLe<T>);
      SortByCorrect(kv, KeyLe, Second);
      SortByPermutes(kv, KeyLe);
      assert MapSeq(kv, Second) == xs;
      var ys := MapSeq(sorted, Second);
      forall k | 0 <= k < |sorted| ensures key(ys[k]).Some? && sorted[k].0 == key(ys[k]).value {
        assert sorted[k] in multiset(kv);
        var j :| 0 <= j < |kv| && kv[j] == sorted[k];
      }
      KeysAscend(sorted);
    }
  }

  /** `r` is what ordering the elements of `s` that satisfy `p` by `key`
      must give: it fails exactly when one of them has no key, naming such an
      element; otherwise it holds those elements, each as often as in `s`,
      in non-decreasing key order. */
  ghost predicate OrderedSelection<T>(s: seq<T>, p: T -> bool, key: T -> Option<int>, r: Result<seq<T>, T>) {
    var sel := Filter(s, p);
    && (r.Ok? <==> forall k :: 0 <= k < |sel| ==> key(sel[k]).Some?)
    && (r.Err? ==> r.error in s && p(r.error) && key(r.error).None?)
    && (r.Ok? ==> (multiset(r.value) == multiset(sel)
      && (forall k :: 0 <= k < |r.value| ==> p(r.value[k]) && key(r.value[k]).Some?)
      && (forall i, j :: 0 <= i < j < |r.value| ==> key(r.value[i]).value <= key(r.value[j]).value)))
  }

  /** `sorted((x for x in s if p(x)), key=key)` meets `OrderedSelection`. */
  lemma FilterSortByKeyCorrect<T(!new)>(s: seq<T>, p: T -> bool, key: T -> Option<int>)
    ensures OrderedSelection(s, p, key, SortByKey(Filter(s, p), key))
  {
    var sel := Filter(s, p);
    SortByKeyCorrect(sel, key);
    FilterMembers(s, p);
    var r := SortByKey(sel, key);
    if r.Ok? {
      forall k | 0 <= k < |r.value| ensures p(r.value[k]) {
        assert r.value[k] in multiset(sel);
      }
    } else {
      var kr := KeyedBy(sel, key);
      assert kr.Err? && r.error == kr.error;
    }
  }

  /** Keys sorted pair by pair are sorted between any two positions. */
  lemma {:induction false} KeysAscend<T>(s: seq<(int, T)>)
    requires SortedBy(s, KeyLe)
    ensures forall i, j :: 0 <= i < j < |s| ==> s[i].0 <= s[j].0
    decreases |s|
  {
    if |s| > 1 {
      var init := s[..|s| - 1];
      assert SortedBy(init, KeyLe) by {
        forall i | 0 < i < |init| ensures KeyLe(init[i - 1], init[i]) {
          assert init[i - 1] == s[i - 1] && init[i] == s[i];
        }
      }
      KeysAscend(init);
      forall i, j | 0 <= i < j < |s| ensures s[i].0 <= s[j].0 {
        if j < |s| - 1 {
          assert s[i] == init[i] && s[j] == init[j];
        } else if i < |s| - 2 {
          assert s[i] == init[i] && s[|s| - 2] == init[|s| - 2];
          assert KeyLe(s[|s| - 2], s[|s| - 1]);
        } else {
          assert KeyLe(s[|s| - 2], s[|s| - 1]);
        }
      }
    }
  }
}
