/** The "seen set" filter that the aggregator and the MLB adapter run: walk a list in
    order, drop an element whose key is empty or was kept before, keep the rest. It is
    specified once here, generically in the key, and proved to keep exactly the first
    occurrence of every non-empty key, in order. */
module Dedup {

  /** The keys of the elements of `s`. */
  function Keys<T>(s: seq<T>, key: T -> string): set<string> {
    set i | 0 <= i < |s| :: key(s[i])
  }

  lemma {:induction false} KeysAppend<T>(s: seq<T>, x: T, key: T -> string)
    ensures Keys(s + [x], key) == Keys(s, key) + {key(x)}
  {
    var l, r := Keys(s + [x], key), Keys(s, key) + {key(x)};
    forall k | k in r ensures k in l {
      if k == key(x) {
        assert (s + [x])[|s|] == x;
      } else {
        var i :| 0 <= i < |s| && key(s[i]) == k;
        assert (s + [x])[i] == s[i];
      }
    }
  }

  /** The elements of `s` whose key is non-empty and not the key of an earlier kept
      element, in their order in `s`. Defined from the end so that a loop that has
      read `s[..i]` holds `FirstOccurrences(s[..i], key)`. */
  function FirstOccurrences<T>(s: seq<T>, key: T -> string): (r: seq<T>)
    ensures |r| <= |s|
    ensures forall i :: 0 <= i < |r| ==> key(r[i]) != ""
    ensures forall i, j :: 0 <= i < j < |r| ==> key(r[i]) != key(r[j])
    decreases |s|
  {
    if s == [] then []
    else
      var init := FirstOccurrences(s[..|s| - 1], key);
      var x := s[|s| - 1];
      if key(x) == "" || key(x) in Keys(init, key) then init
      else
        assert forall i :: 0 <= i < |init| ==> key(init[i]) in Keys(init, key);
        init + [x]
  }

  /** Reading one more element: it is kept exactly when its key is non-empty and not
      among the keys kept so far. */
  lemma FirstOccurrencesSnoc<T>(p: seq<T>, x: T, key: T -> string)
    ensures FirstOccurrences(p + [x], key) ==
      if key(x) == "" || key(x) in Keys(FirstOccurrences(p, key), key) then FirstOccurrences(p, key)
      else FirstOccurrences(p, key) + [x]
  {
    var s := p + [x];
    assert s[..|s| - 1] == p;
    assert s[|s| - 1] == x;
  }

  /** The keys kept are exactly the non-empty keys of the input: nothing with a
      non-empty key is lost, and nothing new appears. */
  lemma {:induction false} FirstOccurrencesKeys<T>(s: seq<T>, key: T -> string)
    ensures Keys(FirstOccurrences(s, key), key) == Keys(s, key) - {""}
    decreases |s|
  {
    if s != [] {
      var p, x := s[..|s| - 1], s[|s| - 1];
      assert s == p + [x];
      FirstOccurrencesKeys(p, key);
      KeysAppend(p, x, key);
      var init := FirstOccurrences(p, key);
      if !(key(x) == "" || key(x) in Keys(init, key)) {
        KeysAppend(init, x, key);
      }
    }
  }

  /** Element `j` of `s` is the first one carrying its (non-empty) key. */
  ghost predicate IsFirst<T>(s: seq<T>, key: T -> string, j: int) {
    && 0 <= j < |s|
    && key(s[j]) != ""
    && forall m :: 0 <= m < j ==> key(s[m]) != key(s[j])
  }

  /** `idx` lists, in increasing order, every position of `s` that holds the first
      occurrence of its key, and `r` is the elements at those positions. */
  ghost predicate PicksFirsts<T>(s: seq<T>, key: T -> string, r: seq<T>, idx: seq<int>) {
    && |idx| == |r|
    && (forall i :: 0 <= i < |idx| ==> IsFirst(s, key, idx[i]) && s[idx[i]] == r[i])
    && (forall i, i' :: 0 <= i < i' < |idx| ==> idx[i] < idx[i'])
    && (forall j :: 0 <= j < |s| && IsFirst(s, key, j) ==> j in idx)
  }

  /** The filter keeps the first occurrence of every non-empty key and nothing else,
      in the order of the input. */
  lemma {:induction false} FirstOccurrencesAreFirsts<T>(s: seq<T>, key: T -> string)
    ensures exists idx :: PicksFirsts(s, key, FirstOccurrences(s, key), idx)
    decreases |s|
  {
    if s == [] {
      assert PicksFirsts(s, key, FirstOccurrences(s, key), []);
    } else {
      var p, x := s[..|s| - 1], s[|s| - 1];
      assert s == p + [x];
      FirstOccurrencesAreFirsts(p, key);
      var idx :| PicksFirsts(p, key, FirstOccurrences(p, key), idx);
      var idx' := PicksFirstsStep(p, x, key, idx);
      assert PicksFirsts(s, key, FirstOccurrences(s, key), idx');
    }
  }

  /** One step of the induction above: from the picks for `p` to those for `p + [x]`. */
  lemma {:induction false} PicksFirstsStep<T>(p: seq<T>, x: T, key: T -> string, idx: seq<int>) returns (idx': seq<int>)
    requires PicksFirsts(p, key, FirstOccurrences(p, key), idx)
    ensures PicksFirsts(p + [x], key, FirstOccurrences(p + [x], key), idx')
  {
    var s := p + [x];
    assert s[..|s| - 1] == p;
    var init := FirstOccurrences(p, key);
    IsFirstExtend(p, x, key);
    if key(x) == "" || key(x) in Keys(init, key) {
      PicksFirstsSkip(p, x, key, idx);
      idx' := idx;
    } else {
      PicksFirstsKeep(p, x, key, idx);
      idx' := idx + [|p|];
    }
  }

  lemma {:induction false} IsFirstExtend<T>(p: seq<T>, x: T, key: T -> string)
    ensures forall j :: 0 <= j < |p| ==> IsFirst(p + [x], key, j) == IsFirst(p, key, j)
  {
    var s := p + [x];
    forall j | 0 <= j < |p| ensures IsFirst(s, key, j) == IsFirst(p, key, j) {
      assert s[j] == p[j];
      forall m | 0 <= m < j ensures s[m] == p[m] {}
    }
  }

  lemma {:induction false} PicksFirstsSkip<T>(p: seq<T>, x: T, key: T -> string, idx: seq<int>)
    requires PicksFirsts(p, key, FirstOccurrences(p, key), idx)
    requires forall j :: 0 <= j < |p| ==> IsFirst(p + [x], key, j) == IsFirst(p, key, j)
    requires key(x) == "" || key(x) in Keys(FirstOccurrences(p, key), key)
    ensures PicksFirsts(p + [x], key, FirstOccurrences(p, key), idx)
  {
    var s := p + [x];
    var init := FirstOccurrences(p, key);
    if key(x) != "" {
      var i :| 0 <= i < |init| && key(init[i]) == key(x);
      assert s[idx[i]] == init[i];
      assert !IsFirst(s, key, |p|);
    }
    forall i | 0 <= i < |idx| ensures IsFirst(s, key, idx[i]) && s[idx[i]] == init[i] {
      assert s[idx[i]] == p[idx[i]];
    }
  }

  lemma {:induction false} PicksFirstsKeep<T>(p: seq<T>, x: T, key: T -> string, idx: seq<int>)
    requires PicksFirsts(p, key, FirstOccurrences(p, key), idx)
    requires forall j :: 0 <= j < |p| ==> IsFirst(p + [x], key, j) == IsFirst(p, key, j)
    requires key(x) != "" && key(x) !in Keys(FirstOccurrences(p, key), key)
    ensures PicksFirsts(p + [x], key, FirstOccurrences(p, key) + [x], idx + [|p|])
  {
    var s := p + [x];
    var init := FirstOccurrences(p, key);
    FirstOccurrencesKeys(p, key);
    forall m | 0 <= m < |p| ensures key(s[m]) != key(x) {
      assert key(p[m]) in Keys(p, key);
      assert s[m] == p[m];
    }
    assert IsFirst(s, key, |p|);
    var idx' := idx + [|p|];
    forall i | 0 <= i < |idx'| ensures IsFirst(s, key, idx'[i]) && s[idx'[i]] == (init + [x])[i] {
      if i < |idx| {
        assert s[idx[i]] == p[idx[i]];
      }
    }
  }

  /** Reading more input only appends to what was kept before. */
  lemma {:induction false} FirstOccurrencesPrefix<T>(s: seq<T>, t: seq<T>, key: T -> string)
    requires s <= t
    ensures FirstOccurrences(s, key) <= FirstOccurrences(t, key)
    decreases |t|
  {
    if |s| < |t| {
      var p := t[..|t| - 1];
      assert s <= p;
      FirstOccurrencesPrefix(s, p, key);
    } else {
      assert s == t;
    }
  }

  /** A list whose keys are already non-empty and distinct passes unchanged. */
  lemma {:induction false} FirstOccurrencesOfDistinct<T>(s: seq<T>, key: T -> string)
    requires forall i :: 0 <= i < |s| ==> key(s[i]) != ""
    requires forall i, j :: 0 <= i < j < |s| ==> key(s[i]) != key(s[j])
    ensures FirstOccurrences(s, key) == s
    decreases |s|
  {
    if s != [] {
      var p, x := s[..|s| - 1], s[|s| - 1];
      FirstOccurrencesOfDistinct(p, key);
      assert key(x) !in Keys(p, key);
      assert s == p + [x];
    }
  }

  /** The filter only drops elements. */
  lemma {:induction false} FirstOccurrencesFrom<T>(s: seq<T>, key: T -> string)
    ensures forall x :: x in FirstOccurrences(s, key) ==> x in s
    decreases |s|
  {
    if s != [] {
      var p := s[..|s| - 1];
      FirstOccurrencesFrom(p, key);
      assert s == p + [s[|s| - 1]];
    }
  }

  /** Filtering twice is filtering once. */
  lemma FirstOccurrencesIdempotent<T>(s: seq<T>, key: T -> string)
    ensures FirstOccurrences(FirstOccurrences(s, key), key) == FirstOccurrences(s, key)
  {
    FirstOccurrencesOfDistinct(FirstOccurrences(s, key), key);
  }
}
