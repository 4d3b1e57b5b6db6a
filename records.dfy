/** The uniform record shapes of the pipeline and the per-source cap. A result dict
    `{title, url, snippet}` becomes an `Item`; the aggregated dict with its extra
    `source` label becomes an `Entry`. A key the dict lacks reads as `""`, which is
    what the source's `.get(key, "")` gives. */
module Records {
  import opened Results

  datatype Item = Item(title: string, url: string, snippet: string)

  datatype Entry = Entry(source: string, title: string, snippet: string, url: string)

  /** One `(label, items)` pair of the sections list. */
  datatype Section = Section(name: string, items: seq<Item>)

  function ItemUrl(item: Item): string {
    item.url
  }

  function EntryUrl(entry: Entry): string {
    entry.url
  }

  /** The default `limit` of every adapter and of the aggregator. */
  const DefaultLimit: int := 10

  /** How many results a loop that appends first and then tests `len(results) >= limit`
      can return: `limit`, but never fewer than one, because the first append happens
      before the first test. */
  function Cap(limit: int): (c: nat)
    ensures 1 <= c
    ensures 1 <= limit ==> c == limit
  {
    if 1 <= limit then limit else 1
  }

  /** The first `Cap(limit)` elements of `s`, or all of `s` when it is shorter. */
  function Capped<T>(s: seq<T>, limit: int): (r: seq<T>)
    ensures r <= s
    ensures |r| == if |s| < Cap(limit) then |s| else Cap(limit)
  {
    if |s| < Cap(limit) then s else s[..Cap(limit)]
  }

  /** Once the part of a list read so far already holds `Cap(limit)` elements, the
      rest of the list cannot change the capped result. */
  lemma CappedOfExtension<T>(s: seq<T>, t: seq<T>, limit: int)
    requires s <= t && Cap(limit) <= |s|
    ensures Capped(t, limit) == Capped(s, limit)
  {
  }

  /** The results of `f` that are present, in input order: the shape of an adapter
      loop that `continue`s past the elements it rejects. Defined from the end, like
      the loops that compute it. */
  function KeepSome<A, B>(s: seq<A>, f: A -> Option<B>): seq<B> {
    if s == [] then []
    else
      var init := KeepSome(s[..|s| - 1], f);
      match f(s[|s| - 1])
      case Some(b) => init + [b]
      case None => init
  }

  lemma KeepSomeSnoc<A, B>(s: seq<A>, x: A, f: A -> Option<B>)
    ensures KeepSome(s + [x], f) == match f(x) case Some(b) => KeepSome(s, f) + [b] case None => KeepSome(s, f)
  {
    assert (s + [x])[..|s|] == s;
  }

  lemma {:induction false} KeepSomePrefix<A, B>(s: seq<A>, t: seq<A>, f: A -> Option<B>)
    requires s <= t
    ensures KeepSome(s, f) <= KeepSome(t, f)
    decreases |t|
  {
    if |s| < |t| {
      assert s <= t[..|t| - 1];
      KeepSomePrefix(s, t[..|t| - 1], f);
    } else {
      assert s == t;
    }
  }

  /** Every element kept is the result of `f` on some element of the input. */
  lemma {:induction false} KeepSomeFrom<A, B>(s: seq<A>, f: A -> Option<B>)
    ensures forall y :: y in KeepSome(s, f) ==> exists j :: 0 <= j < |s| && f(s[j]) == Some(y)
    decreases |s|
  {
    if s != [] {
      var p := s[..|s| - 1];
      KeepSomeFrom(p, f);
      forall y | y in KeepSome(p, f) ensures exists j :: 0 <= j < |s| && f(s[j]) == Some(y) {
        var j :| 0 <= j < |p| && f(p[j]) == Some(y);
        assert s[j] == p[j];
      }
    }
  }

  /** The lists of `ss`, one after the other. */
  function Flatten<T>(ss: seq<seq<T>>): seq<T> {
    if ss == [] then [] else ss[0] + Flatten(ss[1..])
  }

  lemma {:induction false} FlattenMember<T>(ss: seq<seq<T>>, i: nat, x: T)
    requires i < |ss| && x in ss[i]
    ensures x in Flatten(ss)
    decreases i
  {
    if 0 < i {
      FlattenMember(ss[1..], i - 1, x);
    }
  }

  /** The list of `ss` that an element of the flattened list comes from. */
  lemma {:induction false} FlattenFrom<T>(ss: seq<seq<T>>, x: T) returns (i: nat)
    requires x in Flatten(ss)
    ensures i < |ss| && x in ss[i]
    decreases |ss|
  {
    if x in ss[0] {
      i := 0;
    } else {
      var j := FlattenFrom(ss[1..], x);
      i := j + 1;
    }
  }
}
