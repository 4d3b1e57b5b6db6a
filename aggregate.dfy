/** `aggregate_items`: merge the per-source sections into one list in which every url
    appears once, tagged with the name of the section it first came from, and stop as
    soon as the cap is reached. */
module Aggregation {
  import opened Records
  import opened Dedup

  /** The aggregated record built for `item` read in section `name`. */
  function ToEntry(name: string, item: Item): Entry {
    Entry(name, item.title, item.snippet, item.url)
  }

  /** The items of one section, tagged with its name, in order. */
  function Tag(name: string, items: seq<Item>): (r: seq<Entry>)
    ensures |r| == |items|
    ensures forall i :: 0 <= i < |items| ==> r[i] == ToEntry(name, items[i])
  {
    if items == [] then [] else Tag(name, items[..|items| - 1]) + [ToEntry(name, items[|items| - 1])]
  }

  /** Every item of every section, tagged, in section-then-item order: the order in
      which the nested loops read them. */
  function Tagged(sections: seq<Section>): seq<Entry> {
    if sections == [] then []
    else
      var last := sections[|sections| - 1];
      Tagged(sections[..|sections| - 1]) + Tag(last.name, last.items)
  }

  /** What `aggregate_items(sections, limit)` returns: the first occurrence of every
      non-empty url, capped. */
  function Aggregated(sections: seq<Section>, limit: int): seq<Entry> {
    Capped(FirstOccurrences(Tagged(sections), EntryUrl), limit)
  }

  lemma {:induction false} TaggedAppend(s: seq<Section>, t: seq<Section>)
    ensures Tagged(s + t) == Tagged(s) + Tagged(t)
    decreases |t|
  {
    if t == [] {
      assert s + t == s;
    } else {
      var t', last := t[..|t| - 1], t[|t| - 1];
      var st := s + t;
      assert st[..|st| - 1] == s + t';
      assert st[|st| - 1] == last;
      assert Tagged(st) == Tagged(s + t') + Tag(last.name, last.items);
      assert Tagged(t) == Tagged(t') + Tag(last.name, last.items);
      TaggedAppend(s, t');
    }
  }

  lemma TagPrefix(name: string, items: seq<Item>, k: nat)
    requires k <= |items|
    ensures Tag(name, items[..k]) <= Tag(name, items)
  {
  }

  /** Having read sections `[..si]` completely and `k` items of section `si`, the
      tagged input read so far is a prefix of the whole tagged input. */
  lemma ReadSoFarIsPrefix(sections: seq<Section>, si: nat, k: nat)
    requires si < |sections| && k <= |sections[si].items|
    ensures Tagged(sections[..si]) + Tag(sections[si].name, sections[si].items[..k]) <= Tagged(sections)
  {
    var sec := sections[si];
    assert sections[..si + 1][..si] == sections[..si];
    assert Tagged(sections[..si + 1]) == Tagged(sections[..si]) + Tag(sec.name, sec.items);
    TagPrefix(sec.name, sec.items, k);
    assert sections == sections[..si + 1] + sections[si + 1..];
    TaggedAppend(sections[..si + 1], sections[si + 1..]);
  }

  /** Reading item `k` of section `si` extends the tagged input read so far by one. */
  lemma ReadOneMore(before: seq<Entry>, name: string, items: seq<Item>, k: nat)
    requires k < |items|
    ensures before + Tag(name, items[..k + 1]) == (before + Tag(name, items[..k])) + [ToEntry(name, items[k])]
  {
    assert items[..k + 1][..k] == items[..k];
  }

  /** The early `return`: once the entries kept from the input read so far reach the
      cap, they are the aggregated list. */
  lemma EarlyExit(sections: seq<Section>, si: nat, k: nat, combined: seq<Entry>, limit: int)
    requires si < |sections| && k <= |sections[si].items|
    requires combined == FirstOccurrences(Tagged(sections[..si]) + Tag(sections[si].name, sections[si].items[..k]), EntryUrl)
    requires |combined| == Cap(limit)
    ensures combined == Aggregated(sections, limit)
  {
    ReadSoFarIsPrefix(sections, si, k);
    FirstOccurrencesPrefix(Tagged(sections[..si]) + Tag(sections[si].name, sections[si].items[..k]), Tagged(sections), EntryUrl);
  }

  /** The loops of `aggregate_items`, with the early `return` once `limit` entries
      have been collected. */
  method AggregateItems(sections: seq<Section>, limit: int) returns (combined: seq<Entry>)
    ensures combined == Aggregated(sections, limit)
  {
    combined := [];
    var seen: set<string> := {};
    var si := 0;
    while si < |sections|
      invariant 0 <= si <= |sections|
      invariant combined == FirstOccurrences(Tagged(sections[..si]), EntryUrl)
      invariant seen == Keys(combined, EntryUrl)
      invariant |combined| < Cap(limit)
    {
      var name, items := sections[si].name, sections[si].items;
      ghost var before := Tagged(sections[..si]);
      var ii := 0;
      assert before + Tag(name, items[..0]) == before;
      while ii < |items|
        invariant 0 <= ii <= |items|
        invariant combined == FirstOccurrences(before + Tag(name, items[..ii]), EntryUrl)
        invariant seen == Keys(combined, EntryUrl)
        invariant |combined| < Cap(limit)
      {
        var item := items[ii];
        var url := item.url;
        ReadOneMore(before, name, items, ii);
        FirstOccurrencesSnoc(before + Tag(name, items[..ii]), ToEntry(name, item), EntryUrl);
        if url != "" && url !in seen {
          KeysAppend(combined, ToEntry(name, item), EntryUrl);
          seen := seen + {url};
          combined := combined + [ToEntry(name, item)];
          if |combined| >= limit {
            EarlyExit(sections, si, ii + 1, combined, limit);
            return;
          }
        }
        ii := ii + 1;
      }
      assert items[..ii] == items;
      assert sections[..si + 1][..si] == sections[..si];
      si := si + 1;
    }
    assert sections[..si] == sections;
  }

  /** `len(aggregate_items(sections, limit)) <= limit` for every `limit >= 1`, and at
      most one entry otherwise. */
  lemma AggregatedLength(sections: seq<Section>, limit: int)
    ensures |Aggregated(sections, limit)| <= Cap(limit)
    ensures 1 <= limit ==> |Aggregated(sections, limit)| <= limit
  {
  }

  /** Every aggregated url is non-empty and no two aggregated entries share a url. */
  lemma AggregatedDistinct(sections: seq<Section>, limit: int)
    ensures forall i :: 0 <= i < |Aggregated(sections, limit)| ==> Aggregated(sections, limit)[i].url != ""
    ensures forall i, j :: 0 <= i < j < |Aggregated(sections, limit)| ==>
              Aggregated(sections, limit)[i].url != Aggregated(sections, limit)[j].url
  {
    var all := FirstOccurrences(Tagged(sections), EntryUrl);
    assert forall i :: 0 <= i < |all| ==> EntryUrl(all[i]) == all[i].url;
  }

  /** The aggregated list is a prefix of the list of first occurrences of every
      non-empty url in section-then-item order, where each entry keeps the title and
      snippet of that first item and the name of its section. */
  lemma AggregatedAreFirsts(sections: seq<Section>, limit: int)
    ensures exists idx :: PicksFirsts(Tagged(sections), EntryUrl, FirstOccurrences(Tagged(sections), EntryUrl), idx)
    ensures Aggregated(sections, limit) <= FirstOccurrences(Tagged(sections), EntryUrl)
  {
    FirstOccurrencesAreFirsts(Tagged(sections), EntryUrl);
  }

  /** Once the sections read so far yield a full list, later sections are never
      consulted: appending any sections after them changes nothing. */
  lemma AggregatedIgnoresLaterSections(s: seq<Section>, t: seq<Section>, limit: int)
    requires Cap(limit) <= |FirstOccurrences(Tagged(s), EntryUrl)|
    ensures Aggregated(s + t, limit) == Aggregated(s, limit)
  {
    TaggedAppend(s, t);
    FirstOccurrencesPrefix(Tagged(s), Tagged(s + t), EntryUrl);
    CappedOfExtension(FirstOccurrences(Tagged(s), EntryUrl), FirstOccurrences(Tagged(s + t), EntryUrl), limit);
  }

  /** The item an aggregated entry was made from. */
  function ItemOf(e: Entry): Item {
    Item(e.title, e.url, e.snippet)
  }

  function Untag(entries: seq<Entry>): (r: seq<Item>)
    ensures |r| == |entries| && forall i :: 0 <= i < |entries| ==> r[i] == ItemOf(entries[i])
  {
    seq(|entries|, i requires 0 <= i < |entries| => ItemOf(entries[i]))
  }

  lemma TaggedSingle(name: string, items: seq<Item>)
    ensures Tagged([Section(name, items)]) == Tag(name, items)
  {
    assert [Section(name, items)][..0] == [];
  }

  /** Tagging items whose urls are non-empty and distinct gives entries the
      filter keeps in full. */
  lemma TagDistinct(name: string, items: seq<Item>)
    requires forall i :: 0 <= i < |items| ==> items[i].url != ""
    requires forall i, j :: 0 <= i < j < |items| ==> items[i].url != items[j].url
    ensures FirstOccurrences(Tag(name, items), EntryUrl) == Tag(name, items)
  {
    var tag := Tag(name, items);
    forall i | 0 <= i < |tag| ensures EntryUrl(tag[i]) != "" {
      assert EntryUrl(tag[i]) == items[i].url;
    }
    forall i, j | 0 <= i < j < |tag| ensures EntryUrl(tag[i]) != EntryUrl(tag[j]) {
      assert EntryUrl(tag[i]) == items[i].url && EntryUrl(tag[j]) == items[j].url;
    }
    FirstOccurrencesOfDistinct(tag, EntryUrl);
  }

  /** One section whose urls are already non-empty, distinct and within the cap
      aggregates to all of its items. */
  lemma AggregateOfDistinct(name: string, items: seq<Item>, limit: int)
    requires forall i :: 0 <= i < |items| ==> items[i].url != ""
    requires forall i, j :: 0 <= i < j < |items| ==> items[i].url != items[j].url
    requires |items| <= Cap(limit)
    ensures Aggregated([Section(name, items)], limit) == Tag(name, items)
  {
    TaggedSingle(name, items);
    TagDistinct(name, items);
  }

  /** Re-aggregating one section made of an aggregated list gives it back unchanged
      (with its entries re-tagged with the new section's name). */
  lemma AggregateOfAggregated(sections: seq<Section>, limit: int, name: string)
    ensures var agg := Aggregated(sections, limit);
      var again := Aggregated([Section(name, Untag(agg))], limit);
      |again| == |agg| && forall i :: 0 <= i < |agg| ==> again[i] == agg[i].(source := name)
  {
    var agg := Aggregated(sections, limit);
    AggregatedDistinct(sections, limit);
    AggregatedLength(sections, limit);
    AggregateOfDistinct(name, Untag(agg), limit);
  }

  /** Every tagged entry is an item of some section, tagged with that section's name. */
  lemma {:induction false} TaggedFrom(sections: seq<Section>)
    ensures forall e :: e in Tagged(sections) ==>
      exists k, i :: 0 <= k < |sections| && 0 <= i < |sections[k].items| && e == ToEntry(sections[k].name, sections[k].items[i])
    decreases |sections|
  {
    if sections != [] {
      var p, last := sections[..|sections| - 1], sections[|sections| - 1];
      TaggedFrom(p);
      forall e | e in Tagged(sections)
        ensures exists k, i :: 0 <= k < |sections| && 0 <= i < |sections[k].items| && e == ToEntry(sections[k].name, sections[k].items[i])
      {
        if e in Tagged(p) {
          var k, i :| 0 <= k < |p| && 0 <= i < |p[k].items| && e == ToEntry(p[k].name, p[k].items[i]);
          assert sections[k] == p[k];
        } else {
          var tag := Tag(last.name, last.items);
          var i :| 0 <= i < |tag| && tag[i] == e;
          assert sections[|p|] == last;
        }
      }
    }
  }

  /** Every aggregated entry is an item of one of the input sections, carrying its
      title, url and snippet and that section's name. */
  lemma AggregatedFrom(sections: seq<Section>, limit: int)
    ensures forall e :: e in Aggregated(sections, limit) ==>
      exists k, i :: 0 <= k < |sections| && 0 <= i < |sections[k].items|
        && sections[k].name == e.source && sections[k].items[i] == Item(e.title, e.url, e.snippet)
  {
    TaggedFrom(sections);
    FirstOccurrencesFrom(Tagged(sections), EntryUrl);
  }

  /** Two sections, the first with one item and the second with two, tag in order. */
  lemma TaggedTwoSections(first: string, second: string, a: Item, b: Item, c: Item)
    ensures Tagged([Section(first, [a]), Section(second, [b, c])]) == [ToEntry(first, a), ToEntry(second, b), ToEntry(second, c)]
  {
    var s1, s2 := Section(first, [a]), Section(second, [b, c]);
    var t1, t2 := Tag(first, [a]), Tag(second, [b, c]);
    assert t1 == [ToEntry(first, a)];
    assert t2 == [ToEntry(second, b), ToEntry(second, c)];
    TaggedSingle(first, [a]);
    assert [s1, s2][..1] == [s1];
  }

  lemma FirstsOfOne(e1: Entry)
    requires e1.url != ""
    ensures FirstOccurrences([e1], EntryUrl) == [e1]
    ensures Keys([e1], EntryUrl) == {e1.url}
  {
    FirstOccurrencesSnoc([], e1, EntryUrl);
    assert [] + [e1] == [e1];
    KeysAppend([], e1, EntryUrl);
  }

  lemma FirstsOfTwo(e1: Entry, e2: Entry)
    requires e1.url != "" && e2.url == e1.url
    ensures FirstOccurrences([e1, e2], EntryUrl) == [e1]
  {
    FirstsOfOne(e1);
    assert [e1] + [e2] == [e1, e2];
    FirstOccurrencesSnoc([e1], e2, EntryUrl);
  }

  /** Of three entries where the first two share a url and the third has another,
      the second is dropped. */
  lemma FirstsOfThree(e1: Entry, e2: Entry, e3: Entry)
    requires e1.url != "" && e3.url != ""
    requires e2.url == e1.url && e3.url != e1.url
    ensures FirstOccurrences([e1, e2, e3], EntryUrl) == [e1, e3]
  {
    FirstsOfTwo(e1, e2);
    FirstsOfOne(e1);
    assert [e1, e2] + [e3] == [e1, e2, e3];
    FirstOccurrencesSnoc([e1, e2], e3, EntryUrl);
  }

  /** An item whose url already came from an earlier section is dropped, and the
      first section keeps its own item; with a cap of one only that item is taken. */
  lemma DuplicateAcrossSections(first: string, second: string, a: Item, b: Item, c: Item, limit: int)
    requires a.url != "" && c.url != ""
    requires b.url == a.url && c.url != a.url
    requires 2 <= limit
    ensures Aggregated([Section(first, [a]), Section(second, [b, c])], limit) == [ToEntry(first, a), ToEntry(second, c)]
    ensures Aggregated([Section(first, [a]), Section(second, [b, c])], 1) == [ToEntry(first, a)]
  {
    TaggedTwoSections(first, second, a, b, c);
    FirstsOfThree(ToEntry(first, a), ToEntry(second, b), ToEntry(second, c));
  }
}
