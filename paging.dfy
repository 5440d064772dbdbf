/**
 * The page arithmetic of `KaomojiHelper`: the number of pages, the page
 * slice `results[start_index:end_index]`, the status line
 * "start-end results | total (total)", and the page moves of the
 * `<`, `>`, `<<` and `>>` buttons.
 */
module Paging {
  import opened PyList

  /** `(total + rpp - 1) // rpp`: the ceiling of `total / rpp`, zero for no results. */
  function TotalPages(total: nat, rpp: nat): (r: nat)
    requires rpp > 0
    ensures r * rpp >= total
    ensures r > 0 ==> (r - 1) * rpp < total
    ensures r == 0 <==> total == 0
  {
    var q := (total + rpp - 1) / rpp;
    var m := (total + rpp - 1) % rpp;
    assert total + rpp - 1 == q * rpp + m && 0 <= m < rpp;
    assert (q - 1) * rpp == q * rpp - rpp;
    q
  }

  /** `results[(page - 1) * rpp : (page - 1) * rpp + rpp]` */
  function PageSlice<T>(s: seq<T>, page: int, rpp: nat): seq<T>
  {
    var start := (page - 1) * rpp;
    Slice(s, start, start + rpp)
  }

  /** A page never holds more than `rpp` rows, whatever the page number. */
  lemma PageSliceFits<T>(s: seq<T>, page: int, rpp: nat)
    ensures |PageSlice(s, page, rpp)| <= rpp
  {
    var start := (page - 1) * rpp;
    SliceLength(s, start, start + rpp);
  }

  lemma MulMonotone(a: int, b: int, c: nat)
    requires a <= b
    ensures a * c <= b * c
  {
    assert b * c - a * c == (b - a) * c;
  }

  /** For a page from 1 on, the slice is the run of rows whose index is in
      [(page - 1) * rpp, page * rpp), cut at the end of the list. */
  lemma PageSliceWindow<T>(s: seq<T>, page: int, rpp: nat)
    requires page >= 1
    ensures var start := (page - 1) * rpp;
            PageSlice(s, page, rpp) == s[Min(start, |s|)..Min(start + rpp, |s|)]
  {
    var start := (page - 1) * rpp;
    MulMonotone(0, page - 1, rpp);
    SliceWindow(s, start, start + rpp);
  }

  /** Page 0, which `last_page` reaches on an empty result list, shows nothing:
      its slice is `results[-rpp:0]`. */
  lemma PageZeroIsEmpty<T>(s: seq<T>, rpp: nat)
    ensures PageSlice(s, 0, rpp) == []
  {
  }

  /** A page is non-empty exactly when it is one of pages 1 .. TotalPages, and every
      page but the last is full. */
  lemma PageSliceLength<T>(s: seq<T>, page: int, rpp: nat)
    requires rpp > 0 && page >= 0
    ensures PageSlice(s, page, rpp) != [] <==> 1 <= page <= TotalPages(|s|, rpp)
    ensures 1 <= page < TotalPages(|s|, rpp) ==> |PageSlice(s, page, rpp)| == rpp
    ensures page == TotalPages(|s|, rpp) >= 1 ==> |PageSlice(s, page, rpp)| == |s| - (page - 1) * rpp
  {
    var t := TotalPages(|s|, rpp);
    if page >= 1 {
      PageSliceWindow(s, page, rpp);
      var start := (page - 1) * rpp;
      assert start + rpp == page * rpp;
      if page <= t {
        MulMonotone(page - 1, t - 1, rpp);
        assert start < |s|;
      } else {
        MulMonotone(t, page - 1, rpp);
        assert start >= |s|;
      }
      if page < t {
        MulMonotone(page, t - 1, rpp);
        assert start + rpp < |s|;
      }
      if page == t {
        assert start + rpp >= |s|;
      }
    }
  }

  /** The status line "first-last results | total (total)". */
  datatype Status = Status(first: int, last: int, total: nat)

  /** `update_pages`: `start_index = (page - 1) * rpp + 1`,
      `end_index = min(start_index + rpp - 1, total)`. */
  function StatusOf(page: int, rpp: nat, total: nat): (r: Status)
    ensures r.last <= r.total == total
  {
    var first := (page - 1) * rpp + 1;
    Status(first, Min(first + rpp - 1, total), total)
  }

  /** On a page in range the status line names exactly the rows the page slice shows:
      positions `first` to `last`, counted from 1. */
  lemma StatusDescribesPage<T>(s: seq<T>, page: int, rpp: nat)
    requires rpp > 0 && 1 <= page <= TotalPages(|s|, rpp)
    ensures var st := StatusOf(page, rpp, |s|);
            && 1 <= st.first <= st.last <= st.total
            && st.last - st.first + 1 == |PageSlice(s, page, rpp)|
            && PageSlice(s, page, rpp) == s[st.first - 1..st.last]
  {
    PageSliceLength(s, page, rpp);
    PageSliceWindow(s, page, rpp);
    assert (page - 1) * rpp >= 0 by {
      assert (page - 1) * rpp >= 0 * rpp;
    }
  }

  /** `prev_page`: one page back, only from a page above 1. */
  function PageBefore(page: int): (r: int)
    ensures page >= 1 ==> r >= 1
    ensures r <= page
    ensures r == page <==> page <= 1
  {
    if page > 1 then page - 1 else page
  }

  /** `next_page`: one page on, only while below the last page. */
  function PageAfter(page: int, total: nat, rpp: nat): (r: int)
    requires rpp > 0
    ensures page <= TotalPages(total, rpp) ==> r <= TotalPages(total, rpp)
    ensures r >= page
    ensures r == page <==> page >= TotalPages(total, rpp)
  {
    if page < TotalPages(total, rpp) then page + 1 else page
  }

  /** `k` presses of `>` */
  function PagesAfter(page: int, total: nat, rpp: nat, k: nat): int
    requires rpp > 0
    decreases k
  {
    if k == 0 then page else PagesAfter(PageAfter(page, total, rpp), total, rpp, k - 1)
  }

  /** `k` presses of `<` */
  function PagesBefore(page: int, k: nat): int
    decreases k
  {
    if k == 0 then page else PagesBefore(PageBefore(page), k - 1)
  }

  /** Pressing `>` any number of times never passes the last page. */
  lemma {:induction false} PagesAfterStopAtLast(page: int, total: nat, rpp: nat, k: nat)
    requires rpp > 0
    decreases k
    ensures var t := TotalPages(total, rpp);
            PagesAfter(page, total, rpp, k) == if page >= t then page else Min(page + k, t)
  {
    if k > 0 {
      PagesAfterStopAtLast(PageAfter(page, total, rpp), total, rpp, k - 1);
    }
  }

  /** Pressing `<` any number of times never goes below page 1. */
  lemma {:induction false} PagesBeforeStopAtFirst(page: int, k: nat)
    decreases k
    ensures PagesBefore(page, k) == if page <= 1 then page else Max(page - k, 1)
  {
    if k > 0 {
      PagesBeforeStopAtFirst(PageBefore(page), k - 1);
    }
  }

  /** Away from the boundaries `<` undoes `>` and `>` undoes `<`. */
  lemma PageMovesInverse(page: int, total: nat, rpp: nat)
    requires rpp > 0
    ensures 1 <= page < TotalPages(total, rpp) ==> PageBefore(PageAfter(page, total, rpp)) == page
    ensures 1 < page <= TotalPages(total, rpp) ==> PageAfter(PageBefore(page), total, rpp) == page
  {
  }
}
