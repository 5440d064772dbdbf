/**
 * The picker window's view-model: the catalogue, the search text, the
 * result list, the current page, the recently-used list, and what one
 * refresh of the window selects for display.
 */
module KaomojiView {
  import opened Wrappers
  import opened PyList
  import opened Text
  import opened Catalog
  import opened Paging
  import opened Recent

  /** The heading shown above the rows. */
  datatype Title = AllKaomojis | RecentlyUsed | SearchResults

  /** The events the keyboard listener forwards to the window's thread. */
  datatype Keybind = Show | Hide | Prev | Next

  /** The result list a refresh settles on: with blank search text the recent
      list when there is one, else every catalogue key; otherwise the current
      search results. */
  function ResultsShown(text: string, recent: seq<string>, keys: seq<string>, results: seq<string>): seq<string>
  {
    if IsBlank(text) then (if recent != [] then recent else keys) else results
  }

  /** The rows a refresh selects (`displayed_results`). */
  function RowsShown(text: string, recent: seq<string>, keys: seq<string>, results: seq<string>,
                     page: int, rpp: nat): seq<string>
  {
    if IsBlank(text) then
      if recent != [] then LastN(recent, rpp) else PageSlice(keys, page, rpp)
    else if results == [] then []
    else PageSlice(results, page, rpp)
  }

  function TitleShown(text: string, recent: seq<string>): Title
  {
    if IsBlank(text) then (if recent != [] then RecentlyUsed else AllKaomojis) else SearchResults
  }

  /** A refresh never selects more rows than fit on one page, so `update_results`
      shows every selected row (its `i < results_per_page` guard never fails). */
  lemma RowsFitOnePage(text: string, recent: seq<string>, keys: seq<string>, results: seq<string>,
                       page: int, rpp: nat)
    requires rpp > 0
    ensures |RowsShown(text, recent, keys, results, page, rpp)| <= rpp
  {
    PageSliceFits(keys, page, rpp);
    PageSliceFits(results, page, rpp);
    LastNIsSuffix(recent, rpp);
  }

  /** Outside the recently-used view the rows are the current page of the result
      list the refresh settles on; an empty result list shows no rows. */
  lemma RowsArePage(text: string, recent: seq<string>, keys: seq<string>, results: seq<string>,
                    page: int, rpp: nat)
    requires !(IsBlank(text) && recent != [])
    ensures var shown := ResultsShown(text, recent, keys, results);
            RowsShown(text, recent, keys, results, page, rpp) == PageSlice(shown, page, rpp)
  {
  }

  /** In the recently-used view the rows are the last `rpp` uses, whatever the page. */
  lemma RecentRowsIgnorePage(text: string, recent: seq<string>, keys: seq<string>, results: seq<string>,
                             page: int, rpp: nat)
    requires IsBlank(text) && recent != [] && rpp > 0
    ensures RowsShown(text, recent, keys, results, page, rpp) == recent[|recent| - Min(rpp, |recent|)..]
  {
    LastNIsSuffix(recent, rpp);
  }

  /** Outside the recently-used view, on a page in range, the status line counts
      exactly the rows shown: they are the result rows `first` to `last`. */
  lemma StatusMatchesRows(text: string, recent: seq<string>, keys: seq<string>, results: seq<string>,
                          page: int, rpp: nat)
    requires !(IsBlank(text) && recent != []) && rpp > 0
    requires 1 <= page <= TotalPages(|ResultsShown(text, recent, keys, results)|, rpp)
    ensures var shown := ResultsShown(text, recent, keys, results);
            var st := StatusOf(page, rpp, |shown|);
            && 1 <= st.first <= st.last <= st.total
            && RowsShown(text, recent, keys, results, page, rpp) == shown[st.first - 1..st.last]
  {
    var shown := ResultsShown(text, recent, keys, results);
    RowsArePage(text, recent, keys, results, page, rpp);
    StatusDescribesPage(shown, page, rpp);
  }

  /** In the recently-used view the status line still follows the page number, so
      with more recent entries than one page it names rows other than those shown:
      with 11 entries on page 1 it reads "1-10" while entries 2 to 11 are shown. */
  lemma RecentStatusFollowsPage(recent: seq<string>, keys: seq<string>, results: seq<string>)
    requires |recent| == 11
    ensures StatusOf(1, 10, |recent|) == Status(1, 10, 11)
    ensures RowsShown("", recent, keys, results, 1, 10) == recent[1..]
  {
    BlankIffAllSpace("");
    LastNIsSuffix(recent, 10);
  }

  class KaomojiHelper {
    const resultsPerPage: nat := 10
    const maxRecentKaomojis: nat := 100
    /** `self.kaomojis`, the catalogue loaded from the JSON file. */
    const catalog: seq<Entry>

    var recentKaomojis: seq<string>
    var results: seq<string>
    var currentPage: int
    /** The text of the search entry. */
    var searchText: string
    /** Whether the window is shown. */
    var visible: bool
    var title: Title
    /** The rows last handed to `update_results`. */
    var displayed: seq<string>
    /** Whether "No kaomoji found with your search terms" is shown. */
    var noMatchVisible: bool
    /** The status line; it keeps its last text while the result list is empty. */
    var status: Status
    /** How many times the window was refreshed. */
    ghost var refreshes: nat

    /** The window shows what `update` selects from the current state, given
        the result list `prior` it found and the status line it found. */
    ghost predicate Refreshed(prior: seq<string>, priorStatus: Status)
      reads this
    {
      && results == ResultsShown(searchText, recentKaomojis, Keys(catalog), prior)
      && displayed == RowsShown(searchText, recentKaomojis, Keys(catalog), prior, currentPage, resultsPerPage)
      && title == TitleShown(searchText, recentKaomojis)
      && noMatchVisible == (!IsBlank(searchText) && prior == [])
      && status == (if results == [] then priorStatus else StatusOf(currentPage, resultsPerPage, |results|))
    }

    /** The recently-used view ignores the page number. */
    predicate ShowsRecent()
      reads this
    {
      IsBlank(searchText) && recentKaomojis != []
    }

    ghost predicate Valid()
      reads this
    {
      && UniqueSymbols(catalog)
      && (!IsBlank(searchText) ==> results == Filter(catalog, searchText))
      && Refreshed(results, status)
      && |recentKaomojis| <= maxRecentKaomojis
      && NoDup(LastN(recentKaomojis, resultsPerPage))
      && currentPage >= 0
      && (!ShowsRecent() ==>
            && currentPage <= Max(1, TotalPages(|results|, resultsPerPage))
            && (currentPage == 0 ==> results == []))
    }

    /** `__init__` up to the first `update` (window construction left out). */
    constructor (catalog: seq<Entry>)
      requires UniqueSymbols(catalog)
      ensures Valid()
      ensures this.catalog == catalog && recentKaomojis == [] && searchText == "" && !visible
      ensures currentPage == 1 && results == Keys(catalog)
      ensures displayed == PageSlice(Keys(catalog), 1, resultsPerPage)
      ensures status == if catalog == [] then Status(0, 0, 0) else StatusOf(1, resultsPerPage, |catalog|)
    {
      this.catalog := catalog;
      recentKaomojis := [];
      results := [];
      currentPage := 1;
      searchText := "";
      visible := false;
      title := AllKaomojis;
      displayed := [];
      noMatchVisible := false;
      status := Status(0, 0, 0);
      refreshes := 0;
      new;
      BlankIffAllSpace("");
      Update();
      assert Keys(catalog) != [] ==> TotalPages(|Keys(catalog)|, resultsPerPage) >= 1;
    }

    /** An edit of the search entry: Qt's `textChanged` signal calls `search` with the new text. */
    method SetSearchText(text: string)
      requires Valid()
      modifies this
      ensures Valid()
      ensures searchText == text && currentPage == 1
      ensures recentKaomojis == old(recentKaomojis) && visible == old(visible)
      ensures results == if IsBlank(text) then (if recentKaomojis != [] then recentKaomojis else Keys(catalog))
                         else Filter(catalog, text)
      ensures status == if results == [] then old(status) else StatusOf(currentPage, resultsPerPage, |results|)
      ensures refreshes == old(refreshes) + 1
    {
      searchText := text;
      Search(text);
      if IsBlank(text) && recentKaomojis == [] && Keys(catalog) != [] {
        assert TotalPages(|Keys(catalog)|, resultsPerPage) >= 1;
      }
    }

    /** `search`: the results become the matching kaomojis in catalogue order,
        the page goes back to 1, and the window is refreshed. */
    method Search(query: string)
      modifies this
      ensures currentPage == 1
      ensures Refreshed(Filter(catalog, query), old(status))
      ensures searchText == old(searchText) && recentKaomojis == old(recentKaomojis) && visible == old(visible)
      ensures refreshes == old(refreshes) + 1
    {
      results := [];
      var i := 0;
      while i < |catalog|
        invariant 0 <= i <= |catalog|
        invariant results == Filter(catalog[..i], query)
        invariant searchText == old(searchText) && recentKaomojis == old(recentKaomojis)
        invariant visible == old(visible) && status == old(status) && refreshes == old(refreshes)
      {
        var entry := catalog[i];
        assert catalog[..i + 1][..i] == catalog[..i];
        assert Filter(catalog[..i + 1], query) ==
               Filter(catalog[..i], query) + (if Matches(entry, query) then [entry.symbol] else []);
        if Matches(entry, query) {
          results := results + [entry.symbol];
        }
        i := i + 1;
      }
      assert catalog[..|catalog|] == catalog;
      currentPage := 1;
      Update();
    }

    /** `update`: choose the result list, the rows and the heading, then the status line. */
    method Update()
      modifies this
      ensures Refreshed(old(results), old(status))
      ensures searchText == old(searchText) && recentKaomojis == old(recentKaomojis)
      ensures currentPage == old(currentPage) && visible == old(visible)
      ensures refreshes == old(refreshes) + 1
    {
      noMatchVisible := false;
      var startIndex := (currentPage - 1) * resultsPerPage;
      var endIndex := startIndex + resultsPerPage;
      var rows: seq<string>;
      if IsBlank(searchText) {
        if recentKaomojis != [] {
          title := RecentlyUsed;
          results := recentKaomojis;
          rows := SliceFrom(results, -(resultsPerPage as int));
        } else {
          title := AllKaomojis;
          results := Keys(catalog);
          rows := Slice(results, startIndex, endIndex);
        }
      } else {
        title := SearchResults;
        if results == [] {
          noMatchVisible := true;
          rows := [];
        } else {
          rows := Slice(results, startIndex, endIndex);
        }
      }
      displayed := rows;
      UpdatePages();
      refreshes := refreshes + 1;
    }

    /** `update_pages`: the status line follows the current page, except that an
        empty result list leaves it as it was. */
    method UpdatePages()
      modifies this`status
      ensures status == if results == [] then old(status) else StatusOf(currentPage, resultsPerPage, |results|)
    {
      var totalResults := |results|;
      if results == [] {
        return;
      }
      var startIndex := (currentPage - 1) * resultsPerPage + 1;
      var endIndex := Min(startIndex + resultsPerPage - 1, totalResults);
      status := Status(startIndex, endIndex, totalResults);
    }

    /** `insert`: a blank kaomoji is ignored; otherwise the window hides, the
        kaomoji is typed into the focused application, recorded as recently
        used, and the window is refreshed. */
    method Insert(kaomoji: string) returns (typed: Option<string>)
      requires Valid()
      modifies this
      ensures Valid()
      ensures IsBlank(kaomoji) ==> typed == None && unchanged(this)
      ensures !IsBlank(kaomoji) ==>
                && typed == Some(kaomoji) && !visible
                && recentKaomojis == RecordUse(old(recentKaomojis), kaomoji, resultsPerPage, maxRecentKaomojis)
                && searchText == old(searchText) && currentPage == old(currentPage)
                && refreshes == old(refreshes) + 1
      ensures status == if results == [] then old(status) else StatusOf(currentPage, resultsPerPage, |results|)
    {
      if IsBlank(kaomoji) {
        return None;
      }
      visible := false;
      typed := Some(kaomoji);
      ghost var before := recentKaomojis;
      var recentSlice := SliceFrom(recentKaomojis, -(resultsPerPage as int));
      if kaomoji !in recentSlice {
        recentKaomojis := recentKaomojis + [kaomoji];
      }
      recentKaomojis := SliceFrom(recentKaomojis, -(maxRecentKaomojis as int));
      RecordUseBounded(before, kaomoji, resultsPerPage, maxRecentKaomojis);
      RecordUseKeepsWindowDistinct(before, kaomoji, resultsPerPage, maxRecentKaomojis);
      RecordUseIsRecent(before, kaomoji, resultsPerPage, maxRecentKaomojis);
      Update();
    }

    /** `prev_page` */
    method PrevPage()
      requires Valid()
      modifies this
      ensures Valid()
      ensures currentPage == PageBefore(old(currentPage))
      ensures old(currentPage) <= 1 ==> unchanged(this)
      ensures old(currentPage) > 1 ==> refreshes == old(refreshes) + 1
      ensures results == old(results) && searchText == old(searchText)
      ensures recentKaomojis == old(recentKaomojis) && visible == old(visible)
      ensures status == if results == [] then old(status) else StatusOf(currentPage, resultsPerPage, |results|)
    {
      if currentPage > 1 {
        currentPage := currentPage - 1;
        Update();
      }
    }

    /** `next_page` */
    method NextPage()
      requires Valid()
      modifies this
      ensures Valid()
      ensures currentPage == PageAfter(old(currentPage), |old(results)|, resultsPerPage)
      ensures old(currentPage) >= TotalPages(|old(results)|, resultsPerPage) ==> unchanged(this)
      ensures old(currentPage) < TotalPages(|old(results)|, resultsPerPage) ==> refreshes == old(refreshes) + 1
      ensures results == old(results) && searchText == old(searchText)
      ensures recentKaomojis == old(recentKaomojis) && visible == old(visible)
      ensures status == if results == [] then old(status) else StatusOf(currentPage, resultsPerPage, |results|)
    {
      var totalPages := (|results| + resultsPerPage - 1) / resultsPerPage;
      if currentPage < totalPages {
        currentPage := currentPage + 1;
        Update();
      }
    }

    /** `first_page` */
    method FirstPage()
      requires Valid()
      modifies this
      ensures Valid()
      ensures currentPage == 1
      ensures old(currentPage) == 1 ==> unchanged(this)
      ensures old(currentPage) != 1 ==> refreshes == old(refreshes) + 1
      ensures results == old(results) && searchText == old(searchText)
      ensures recentKaomojis == old(recentKaomojis) && visible == old(visible)
      ensures status == if results == [] then old(status) else StatusOf(currentPage, resultsPerPage, |results|)
    {
      if currentPage != 1 {
        currentPage := 1;
        Update();
      }
    }

    /** `last_page`: with no results the last page is 0, as there is no `max(1, ...)`. */
    method LastPage()
      requires Valid()
      modifies this
      ensures Valid()
      ensures currentPage == TotalPages(|old(results)|, resultsPerPage)
      ensures old(currentPage) == currentPage ==> unchanged(this)
      ensures old(currentPage) != currentPage ==> refreshes == old(refreshes) + 1
      ensures results == old(results) && searchText == old(searchText)
      ensures recentKaomojis == old(recentKaomojis) && visible == old(visible)
      ensures status == if results == [] then old(status) else StatusOf(currentPage, resultsPerPage, |results|)
    {
      var totalResults := |results|;
      var totalPages := (totalResults + resultsPerPage - 1) / resultsPerPage;
      if currentPage != totalPages {
        currentPage := totalPages;
        Update();
      }
    }

    /** `control_gui`: the slot the keyboard listener's signal is delivered to. */
    method ControlGui(key: Keybind)
      requires Valid()
      modifies this
      ensures Valid()
      ensures visible == match key
                         case Show => true
                         case Hide => false
                         case _ => old(visible)
      ensures currentPage == match key
                             case Prev => PageBefore(old(currentPage))
                             case Next => PageAfter(old(currentPage), |old(results)|, resultsPerPage)
                             case _ => old(currentPage)
      ensures results == old(results) && searchText == old(searchText) && recentKaomojis == old(recentKaomojis)
      ensures status == if results == [] then old(status) else StatusOf(currentPage, resultsPerPage, |results|)
      ensures (key == Show || key == Hide) ==>
                && refreshes == old(refreshes) && displayed == old(displayed)
                && title == old(title) && noMatchVisible == old(noMatchVisible)
      ensures key == Prev && old(currentPage) <= 1 ==> unchanged(this)
      ensures key == Prev && old(currentPage) > 1 ==> refreshes == old(refreshes) + 1
      ensures key == Next && old(currentPage) >= TotalPages(|old(results)|, resultsPerPage) ==> unchanged(this)
      ensures key == Next && old(currentPage) < TotalPages(|old(results)|, resultsPerPage) ==> refreshes == old(refreshes) + 1
    {
      if key == Show {
        visible := true;
      }
      if key == Hide {
        visible := false;
      }
      if key == Prev {
        PrevPage();
      }
      if key == Next {
        NextPage();
      }
    }
  }
}
