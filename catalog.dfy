/**
 * The kaomoji catalogue and the tag search of `KaomojiHelper.search`.
 * The catalogue is the JSON dictionary in insertion order: one entry per
 * kaomoji, holding the kaomoji itself and its `original_tags`.
 */
module Catalog {
  import opened PyList
  import opened Text

  datatype Entry = Entry(symbol: string, originalTags: seq<string>)

  /** Dictionary keys are unique. */
  predicate UniqueSymbols(catalog: seq<Entry>)
  {
    forall i, j :: 0 <= i < j < |catalog| ==> catalog[i].symbol != catalog[j].symbol
  }

  /** `list(self.kaomojis.keys())` */
  function Keys(catalog: seq<Entry>): (r: seq<string>)
    ensures |r| == |catalog|
    ensures forall i :: 0 <= i < |catalog| ==> r[i] == catalog[i].symbol
  {
    seq(|catalog|, i requires 0 <= i < |catalog| => catalog[i].symbol)
  }

  /** `query.lower() in ' '.join(info['original_tags']).lower()` */
  predicate Matches(entry: Entry, query: string)
  {
    Contains(Lower(Join(entry.originalTags, " ")), Lower(query))
  }

  /** The kaomojis, in catalogue order, whose tags match the query. */
  function Filter(catalog: seq<Entry>, query: string): seq<string>
    decreases |catalog|
  {
    if catalog == [] then []
    else
      var last := catalog[|catalog| - 1];
      Filter(catalog[..|catalog| - 1], query) + (if Matches(last, query) then [last.symbol] else [])
  }

  /** Filtering a catalogue in two parts is filtering each part, in order:
      the result keeps the catalogue's order. */
  lemma {:induction false} FilterAppend(a: seq<Entry>, b: seq<Entry>, query: string)
    ensures Filter(a + b, query) == Filter(a, query) + Filter(b, query)
    decreases |b|
  {
    if b == [] {
      assert a + b == a;
    } else {
      var b' := b[..|b| - 1];
      assert (a + b)[..|a + b| - 1] == a + b';
      FilterAppend(a, b', query);
    }
  }

  /** A kaomoji is among the results exactly when some catalogue entry for it matches. */
  lemma {:induction false} FilterMembers(catalog: seq<Entry>, query: string, s: string)
    ensures s in Filter(catalog, query) <==>
            exists i :: 0 <= i < |catalog| && catalog[i].symbol == s && Matches(catalog[i], query)
    decreases |catalog|
  {
    if catalog != [] {
      var init := catalog[..|catalog| - 1];
      FilterMembers(init, query, s);
      assert forall i :: 0 <= i < |init| ==> init[i] == catalog[i];
    }
  }

  /** The empty query matches every entry, so it keeps every key in catalogue order. */
  lemma {:induction false} FilterEmptyQuery(catalog: seq<Entry>)
    ensures Filter(catalog, "") == Keys(catalog)
    decreases |catalog|
  {
    if catalog != [] {
      var init := catalog[..|catalog| - 1];
      var last := catalog[|catalog| - 1];
      FilterEmptyQuery(init);
      ContainsEmpty(Lower(Join(last.originalTags, " ")));
      assert Lower("") == "";
      assert Keys(catalog) == Keys(init) + [last.symbol];
    }
  }

  /** With unique keys, no kaomoji is listed twice. */
  lemma {:induction false} FilterNoDup(catalog: seq<Entry>, query: string)
    requires UniqueSymbols(catalog)
    ensures NoDup(Filter(catalog, query))
    decreases |catalog|
  {
    if catalog != [] {
      var init := catalog[..|catalog| - 1];
      var last := catalog[|catalog| - 1];
      FilterNoDup(init, query);
      if Matches(last, query) {
        FilterMembers(init, query, last.symbol);
        assert forall i :: 0 <= i < |init| ==> init[i].symbol == catalog[i].symbol != last.symbol;
        assert last.symbol !in Filter(init, query);
      }
    }
  }

  /** Two matching entries appear in the results in the order they have in the catalogue. */
  lemma FilterKeepsOrder(catalog: seq<Entry>, query: string, i: nat, j: nat)
    requires i < j < |catalog|
    requires Matches(catalog[i], query) && Matches(catalog[j], query)
    ensures exists a, b :: 0 <= a < b < |Filter(catalog, query)| &&
                           Filter(catalog, query)[a] == catalog[i].symbol &&
                           Filter(catalog, query)[b] == catalog[j].symbol
  {
    var front, back := catalog[..j], catalog[j..];
    assert catalog == front + back;
    FilterAppend(front, back, query);
    FilterMembers(front, query, catalog[i].symbol);
    assert front[i] == catalog[i];
    FilterMembers(back, query, catalog[j].symbol);
    assert back[0] == catalog[j];
    var f, g := Filter(front, query), Filter(back, query);
    var a :| 0 <= a < |f| && f[a] == catalog[i].symbol;
    var b :| 0 <= b < |g| && g[b] == catalog[j].symbol;
    assert (f + g)[a] == catalog[i].symbol && (f + g)[|f| + b] == catalog[j].symbol;
  }

  /** Matching ignores ASCII case: a query and its lower-cased form find the same entries. */
  lemma MatchesIgnoresCase(entry: Entry, query: string)
    ensures Matches(entry, query) == Matches(entry, Lower(query))
  {
    LowerIdempotent(query);
  }

  /** A query that is part of any single tag (ignoring case) finds the entry. */
  lemma TagHitMatches(entry: Entry, query: string, t: nat)
    requires t < |entry.originalTags|
    requires Contains(Lower(entry.originalTags[t]), Lower(query))
    ensures Matches(entry, query)
  {
    var tags := LowerAll(entry.originalTags);
    LowerJoin(entry.originalTags);
    PartInJoin(tags, " ", t, Lower(query));
  }

  function LowerAll(tags: seq<string>): (r: seq<string>)
    ensures |r| == |tags|
    ensures forall i :: 0 <= i < |tags| ==> r[i] == Lower(tags[i])
  {
    seq(|tags|, i requires 0 <= i < |tags| => Lower(tags[i]))
  }

  lemma {:induction false} LowerJoin(tags: seq<string>)
    ensures Lower(Join(tags, " ")) == Join(LowerAll(tags), " ")
    decreases |tags|
  {
    if |tags| > 1 {
      LowerJoin(tags[1..]);
      LowerConcat(tags[0] + " ", Join(tags[1..], " "));
      LowerConcat(tags[0], " ");
      assert LowerAll(tags)[1..] == LowerAll(tags[1..]);
    }
  }
}
