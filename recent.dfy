/**
 * The recently-used list of `KaomojiHelper.insert`: a kaomoji is appended
 * unless it is among the last `rpp` entries (one page), and the list is
 * then cut to its last `maxRecent` entries.
 */
module Recent {
  import opened PyList

  /** `recent_slice = recent[-rpp:]`; append if absent from it; `recent = recent[-maxRecent:]`. */
  function RecordUse(recent: seq<string>, kaomoji: string, rpp: nat, maxRecent: nat): seq<string>
  {
    var grown := if kaomoji in LastN(recent, rpp) then recent else recent + [kaomoji];
    LastN(grown, maxRecent)
  }

  /** The last `n` of the last `m` are the last `n`. */
  lemma SuffixOfSuffix<T>(s: seq<T>, n: nat, m: nat)
    requires n <= m
    ensures Suffix(Suffix(s, m), n) == Suffix(s, n)
  {
  }

  /** After appending `x`, the last `n` are the last `n - 1` before it, then `x`. */
  lemma SuffixAppend<T>(s: seq<T>, x: T, n: nat)
    requires n > 0
    ensures Suffix(s + [x], n) == Suffix(s, n - 1) + [x]
  {
    var a := |s| - Min(n - 1, |s|);
    assert (s + [x])[a..] == s[a..] + [x];
  }

  /** The last `n - 1` are the tail of the last `n`. */
  lemma SuffixShorter<T>(s: seq<T>, n: nat)
    requires n > 0
    ensures Suffix(s, n - 1) == Suffix(s, n)[|Suffix(s, n)| - Min(n - 1, |s|)..]
  {
  }

  /** The page of recents after an insert: unchanged when the kaomoji was on it,
      otherwise its newest `rpp - 1` entries followed by the kaomoji. */
  lemma RecordUseWindow(recent: seq<string>, kaomoji: string, rpp: nat, maxRecent: nat)
    requires 0 < rpp <= maxRecent
    ensures LastN(RecordUse(recent, kaomoji, rpp, maxRecent), rpp) ==
            if kaomoji in Suffix(recent, rpp) then Suffix(recent, rpp)
            else Suffix(recent, rpp - 1) + [kaomoji]
  {
    LastNIsSuffix(recent, rpp);
    var grown := if kaomoji in LastN(recent, rpp) then recent else recent + [kaomoji];
    LastNIsSuffix(grown, maxRecent);
    var r := Suffix(grown, maxRecent);
    LastNIsSuffix(r, rpp);
    SuffixOfSuffix(grown, rpp, maxRecent);
    if kaomoji !in Suffix(recent, rpp) {
      SuffixAppend(recent, kaomoji, rpp);
    }
  }

  /** The list never grows beyond `maxRecent` entries. */
  lemma RecordUseBounded(recent: seq<string>, kaomoji: string, rpp: nat, maxRecent: nat)
    requires maxRecent > 0
    ensures |RecordUse(recent, kaomoji, rpp, maxRecent)| <= maxRecent
  {
    var grown := if kaomoji in LastN(recent, rpp) then recent else recent + [kaomoji];
    LastNIsSuffix(grown, maxRecent);
  }

  /** Afterwards the kaomoji is among the last `rpp` entries, that is, on the page shown. */
  lemma RecordUseIsRecent(recent: seq<string>, kaomoji: string, rpp: nat, maxRecent: nat)
    requires 0 < rpp <= maxRecent
    ensures kaomoji in LastN(RecordUse(recent, kaomoji, rpp, maxRecent), rpp)
  {
    RecordUseWindow(recent, kaomoji, rpp, maxRecent);
  }

  /** No kaomoji appears twice among the last `rpp` entries, if that held before. */
  lemma RecordUseKeepsWindowDistinct(recent: seq<string>, kaomoji: string, rpp: nat, maxRecent: nat)
    requires 0 < rpp <= maxRecent
    requires NoDup(LastN(recent, rpp))
    ensures NoDup(LastN(RecordUse(recent, kaomoji, rpp, maxRecent), rpp))
  {
    RecordUseWindow(recent, kaomoji, rpp, maxRecent);
    LastNIsSuffix(recent, rpp);
    if kaomoji !in Suffix(recent, rpp) {
      SuffixShorter(recent, rpp);
      NoDupTailAppend(Suffix(recent, rpp), |Suffix(recent, rpp)| - Min(rpp - 1, |recent|), kaomoji);
    }
  }

  /** A tail of a duplicate-free list, followed by an element not in the list, is duplicate-free. */
  lemma NoDupTailAppend<T>(w: seq<T>, from: nat, x: T)
    requires NoDup(w) && from <= |w| && x !in w
    ensures NoDup(w[from..] + [x])
  {
    var r := w[from..] + [x];
    forall i, j | 0 <= i < j < |r|
      ensures r[i] != r[j]
    {
      assert r[i] == w[from + i];
      if j < |r| - 1 {
        assert r[j] == w[from + j];
      }
    }
  }

  /** A kaomoji already on the recent page leaves a list within bounds as it was. */
  lemma RecordUseAlreadyRecent(recent: seq<string>, kaomoji: string, rpp: nat, maxRecent: nat)
    requires maxRecent > 0 && |recent| <= maxRecent
    requires kaomoji in LastN(recent, rpp)
    ensures RecordUse(recent, kaomoji, rpp, maxRecent) == recent
  {
    LastNIsSuffix(recent, maxRecent);
    assert Suffix(recent, maxRecent) == recent;
  }

  /** Otherwise it is appended, and the oldest entry drops out when the list was full. */
  lemma RecordUseAppends(recent: seq<string>, kaomoji: string, rpp: nat, maxRecent: nat)
    requires maxRecent > 0 && |recent| <= maxRecent
    requires kaomoji !in LastN(recent, rpp)
    ensures RecordUse(recent, kaomoji, rpp, maxRecent) ==
            (if |recent| < maxRecent then recent else recent[1..]) + [kaomoji]
  {
    LastNIsSuffix(recent + [kaomoji], maxRecent);
    if |recent| == maxRecent {
      assert (recent + [kaomoji])[1..] == recent[1..] + [kaomoji];
    }
  }

  /** The de-duplication window is one page, not the whole list: a kaomoji in
      the list but not among its last `rpp` entries is appended a second time. */
  lemma DuplicateBeyondWindow(recent: seq<string>, kaomoji: string, rpp: nat, maxRecent: nat)
    requires |recent| < maxRecent
    requires kaomoji in recent && kaomoji !in LastN(recent, rpp)
    ensures var r := RecordUse(recent, kaomoji, rpp, maxRecent);
            r == recent + [kaomoji] && !NoDup(r)
  {
    RecordUseAppends(recent, kaomoji, rpp, maxRecent);
    var r := recent + [kaomoji];
    var i :| 0 <= i < |recent| && recent[i] == kaomoji;
    assert r[i] == r[|recent|];
  }

  /** With the picker's page of 10, an 11-entry list whose oldest entry is reused. */
  lemma DuplicateBeyondTenEntries()
    ensures var before := ["a", "b", "c", "d", "e", "f", "g", "h", "i", "j", "k"];
            RecordUse(before, "a", 10, 100) == before + ["a"]
  {
    var before := ["a", "b", "c", "d", "e", "f", "g", "h", "i", "j", "k"];
    LastNIsSuffix(before, 10);
    assert LastN(before, 10) == before[1..];
    DuplicateBeyondWindow(before, "a", 10, 100);
  }
}
