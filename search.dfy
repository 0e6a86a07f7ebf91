/**
 * The search preferences shared by the home page's grids (pages/index.tsx):
 * the persisted `searchTerm`, `isKaraoke` and `activeIndex`, the rule that a
 * new search term brings back the results tab, and which grid a tab shows.
 */
module Search {
  import opened Wrappers
  import opened Catalog

  /** The three grids the bottom navigation switches between. */
  datatype Grid = SearchResultGrid | ListSingerGrid | ListTopicsGrid

  /** `[<SearchResultGrid/>, <ListSingerGrid/>, <ListTopicsGrid/>][activeIndex]`; other indexes show nothing. */
  function GridAt(activeIndex: int): (g: Option<Grid>)
    ensures g.Some? <==> 0 <= activeIndex < 3
    ensures g == Some(SearchResultGrid) <==> activeIndex == 0
    ensures g == Some(ListSingerGrid) <==> activeIndex == 1
    ensures g == Some(ListTopicsGrid) <==> activeIndex == 2
  {
    if activeIndex == 0 then Some(SearchResultGrid)
    else if activeIndex == 1 then Some(ListSingerGrid)
    else if activeIndex == 2 then Some(ListTopicsGrid)
    else None
  }

  class Prefs {
    var searchTerm: string
    var isKaraoke: bool
    var activeIndex: int

    /** First visit: the stores' defaults (no term, karaoke mode on, the results tab). */
    constructor ()
      ensures searchTerm == "" && isKaraoke && activeIndex == 0
    {
      searchTerm := "";
      isKaraoke := true;
      activeIndex := 0;
    }

    /**
     * A later visit: the cells are read back, and the tab-reset effect runs once
     * on mount, so a stored search term always reopens the results tab.
     */
    constructor Restore(storedTerm: string, storedKaraoke: bool, storedIndex: int)
      ensures searchTerm == storedTerm && isKaraoke == storedKaraoke
      ensures activeIndex == if storedTerm != "" then 0 else storedIndex
      ensures storedTerm != "" ==> GridAt(activeIndex) == Some(SearchResultGrid)
    {
      searchTerm := storedTerm;
      isKaraoke := storedKaraoke;
      activeIndex := if storedTerm != "" then 0 else storedIndex;
    }

    /**
     * The search box's `setSearchTerm`, followed by the effect on `[searchTerm]`:
     * the effect runs only when the term really changed, and then resets the tab
     * when the new term is non-empty.
     */
    method SetSearchTerm(term: string)
      modifies this
      ensures searchTerm == term && isKaraoke == old(isKaraoke)
      ensures activeIndex == if term != old(searchTerm) && term != "" then 0 else old(activeIndex)
      ensures term != old(searchTerm) && term != "" ==> GridAt(activeIndex) == Some(SearchResultGrid)
    {
      var changed := term != searchTerm;
      searchTerm := term;
      if changed && searchTerm != "" {
        activeIndex := 0;
      }
    }

    /** Clicking an artist card: only the term is set; the effect does the tab reset. */
    method SelectArtist(name: string)
      modifies this
      ensures searchTerm == name && isKaraoke == old(isKaraoke)
      ensures activeIndex == if name != old(searchTerm) && name != "" then 0 else old(activeIndex)
    {
      SetSearchTerm(name);
    }

    /** Clicking a topic card: the term is set and the results tab chosen directly (the term effect then has nothing left to change). */
    method SelectTopic(title: string)
      modifies this
      ensures searchTerm == title && isKaraoke == old(isKaraoke)
      ensures activeIndex == 0 && GridAt(activeIndex) == Some(SearchResultGrid)
    {
      searchTerm := title;
      activeIndex := 0;
    }

    /** A bottom-navigation button: switches the tab and nothing else. */
    method SelectTab(index: int)
      modifies this
      ensures activeIndex == index && searchTerm == old(searchTerm) && isKaraoke == old(isKaraoke)
    {
      activeIndex := index;
    }

    /** The karaoke switch. */
    method SetKaraoke(checked: bool)
      modifies this
      ensures isKaraoke == checked && searchTerm == old(searchTerm) && activeIndex == old(activeIndex)
    {
      isKaraoke := checked;
    }

    /** The query the results grid sends for the current preferences; changes nothing. */
    method Query() returns (q: string)
      ensures q == SearchQuery(isKaraoke, searchTerm)
      ensures isKaraoke ==> q == KaraokePrefix + searchTerm
      ensures !isKaraoke ==> q == searchTerm
    {
      var prefix := if isKaraoke then KaraokePrefix else "";
      q := prefix + searchTerm;
    }
  }

  /**
   * A new search while the topics tab is open: the results tab comes back;
   * picking the same term again after switching tabs leaves the tab alone.
   */
  method TabResetSession()
  {
    var prefs := new Prefs();
    prefs.SelectTab(2);
    prefs.SetSearchTerm("son tung");
    assert prefs.activeIndex == 0;
    prefs.SelectTab(1);
    prefs.SelectArtist("son tung");
    assert prefs.activeIndex == 1;
  }
}
