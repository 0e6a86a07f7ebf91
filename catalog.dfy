/**
 * The search-results grid's pure rules (pages/index.tsx, `SearchResultGrid`):
 * the karaoke title test, the karaoke `select` filter applied to both the
 * recommended videos and the search results, the search-query prefix and the
 * choice of which list to render.
 */
module Catalog {
  import opened Wrappers
  import opened Text

  /** A catalog video (search result or recommended video); only the fields the core reads. */
  datatype VideoRef = VideoRef(videoId: string, title: string, author: string)

  const KaraokeWord: string := "karaoke"
  const BeatWord: string := "beat"
  /** The token put in front of the search term in karaoke mode: `"karaoke"` and a space. */
  const KaraokePrefix: string := "\"karaoke\" "

  /** `word` occurs somewhere in the lower-cased `title`. */
  ghost predicate Mentions(title: string, word: string) {
    exists i :: OccursAt(Lower(title), word, i)
  }

  /** `titleIncludesKaraoke`: the lower-cased title contains "karaoke" or "beat". */
  function IsKaraokeTitle(title: string): (b: bool)
    ensures b <==> Mentions(title, KaraokeWord) || Mentions(title, BeatWord)
  {
    var lcTitle := Lower(title);
    Contains(lcTitle, KaraokeWord) || Contains(lcTitle, BeatWord)
  }

  /** The title test ignores ASCII case: a title and its lower-cased form are judged alike. */
  lemma IsKaraokeTitleIgnoresCase(title: string)
    ensures IsKaraokeTitle(Lower(title)) == IsKaraokeTitle(title)
  {
    LowerIdempotent(title);
  }

  /** `a` can be obtained from `b` by deleting elements, keeping the order of the rest. */
  ghost predicate IsSubsequence<T>(a: seq<T>, b: seq<T>)
    decreases |b|
  {
    a == [] || (b != [] && (IsSubsequence(a, b[1..]) || (a[0] == b[0] && IsSubsequence(a[1..], b[1..]))))
  }

  /** `items.filter(titleIncludesKaraoke)`. */
  function KaraokeOnly(items: seq<VideoRef>): (r: seq<VideoRef>)
    ensures |r| <= |items|
    ensures forall k :: 0 <= k < |r| ==> IsKaraokeTitle(r[k].title)
    ensures forall v :: v in r ==> v in items
    ensures forall v :: v in items && IsKaraokeTitle(v.title) ==> v in r
  {
    if items == [] then []
    else (if IsKaraokeTitle(items[0].title) then [items[0]] else []) + KaraokeOnly(items[1..])
  }

  /** The filter keeps the items it keeps in their original order. */
  lemma {:induction false} KaraokeOnlyIsSubsequence(items: seq<VideoRef>)
    ensures IsSubsequence(KaraokeOnly(items), items)
  {
    if items != [] {
      KaraokeOnlyIsSubsequence(items[1..]);
      var rest := KaraokeOnly(items[1..]);
      if IsKaraokeTitle(items[0].title) {
        assert KaraokeOnly(items) == [items[0]] + rest;
        assert ([items[0]] + rest)[1..] == rest;
      } else {
        assert KaraokeOnly(items) == rest;
      }
    }
  }

  /**
   * Occurrence by occurrence: every copy of a karaoke-titled video is kept and
   * every copy of any other video is dropped.
   */
  lemma {:induction false} KaraokeOnlyCounts(items: seq<VideoRef>, v: VideoRef)
    ensures multiset(KaraokeOnly(items))[v] == if IsKaraokeTitle(v.title) then multiset(items)[v] else 0
  {
    if items != [] {
      KaraokeOnlyCounts(items[1..], v);
      assert items == [items[0]] + items[1..];
      assert multiset(items) == multiset{items[0]} + multiset(items[1..]);
      var rest := KaraokeOnly(items[1..]);
      if IsKaraokeTitle(items[0].title) {
        assert KaraokeOnly(items) == [items[0]] + rest;
        assert multiset(KaraokeOnly(items)) == multiset{items[0]} + multiset(rest);
      } else {
        assert KaraokeOnly(items) == rest;
      }
    }
  }

  /** A list whose titles all pass the test goes through the filter unchanged. */
  lemma {:induction false} KaraokeOnlyKeepsAll(items: seq<VideoRef>)
    requires forall k :: 0 <= k < |items| ==> IsKaraokeTitle(items[k].title)
    ensures KaraokeOnly(items) == items
  {
    if items != [] {
      KaraokeOnlyKeepsAll(items[1..]);
      assert [items[0]] + items[1..] == items;
    }
  }

  /** Filtering twice is filtering once. */
  lemma KaraokeOnlyIdempotent(items: seq<VideoRef>)
    ensures KaraokeOnly(KaraokeOnly(items)) == KaraokeOnly(items)
  {
    KaraokeOnlyKeepsAll(KaraokeOnly(items));
  }

  /**
   * The `select` transform of both catalog queries: in karaoke mode the list is
   * narrowed to karaoke titles, otherwise it is returned as it came.
   */
  function Select(isKaraoke: bool, items: seq<VideoRef>): (r: seq<VideoRef>)
    ensures !isKaraoke ==> r == items
    ensures isKaraoke ==> forall k :: 0 <= k < |r| ==> IsKaraokeTitle(r[k].title)
    ensures isKaraoke ==> forall v :: v in items && IsKaraokeTitle(v.title) ==> v in r
    ensures forall v :: v in r ==> v in items
  {
    if isKaraoke then KaraokeOnly(items) else items
  }

  /** Re-applying the transform to its own output changes nothing. */
  lemma SelectIdempotent(isKaraoke: bool, items: seq<VideoRef>)
    ensures Select(isKaraoke, Select(isKaraoke, items)) == Select(isKaraoke, items)
  {
    if isKaraoke {
      KaraokeOnlyIdempotent(items);
    }
  }

  /** A title in which "karaoke" or "beat" appears in any mix of ASCII case passes the test. */
  lemma CasedWordPasses(title: string, word: string, i: int)
    requires Lower(word) == KaraokeWord || Lower(word) == BeatWord
    requires OccursAt(title, word, i)
    ensures IsKaraokeTitle(title)
  {
    var lt := Lower(title);
    assert lt[i..i + |word|] == Lower(word) by {
      forall k | 0 <= k < |word|
        ensures lt[i..i + |word|][k] == Lower(word)[k]
      {
        assert title[i + k] == word[k];
      }
    }
    assert OccursAt(lt, Lower(word), i);
  }

  /** A title with no `k` and no `b` in either case cannot contain either word, so it fails the test. */
  lemma NoInitialFails(title: string)
    requires forall k :: 0 <= k < |title| ==> LowerChar(title[k]) != 'k' && LowerChar(title[k]) != 'b'
    ensures !IsKaraokeTitle(title)
  {
    var lt := Lower(title);
    assert 'k' !in lt && 'b' !in lt;
    ContainsInitial(lt, KaraokeWord);
    ContainsInitial(lt, BeatWord);
  }

  /** Three titles: the first two pass the test (whatever their case), the plain one does not. */
  lemma SelectExample(a: VideoRef, b: VideoRef, c: VideoRef)
    requires a.title == "Title Karaoke Version" && b.title == "Title Beat" && c.title == "Plain Title"
    ensures Select(true, [a, b, c]) == [a, b]
    ensures Select(false, [a, b, c]) == [a, b, c]
  {
    ExampleFirstTitle(a.title);
    ExampleSecondTitle(b.title);
    ExampleThirdTitle(c.title);
    KaraokeOnlyOfThree(a, b, c);
  }

  /** Helper for the example: the first title passes. */
  lemma ExampleFirstTitle(t: string)
    requires t == "Title Karaoke Version"
    ensures IsKaraokeTitle(t)
  {
    assert Lower("Karaoke") == KaraokeWord;
    assert OccursAt(t, "Karaoke", 6);
    CasedWordPasses(t, "Karaoke", 6);
  }

  /** Helper for the example: the second title passes. */
  lemma ExampleSecondTitle(t: string)
    requires t == "Title Beat"
    ensures IsKaraokeTitle(t)
  {
    assert Lower("Beat") == BeatWord;
    assert OccursAt(t, "Beat", 6);
    CasedWordPasses(t, "Beat", 6);
  }

  /** Helper for the example: the third title fails. */
  lemma ExampleThirdTitle(t: string)
    requires t == "Plain Title"
    ensures !IsKaraokeTitle(t)
  {
    NoInitialFails(t);
  }

  /** Helper for the example: filtering three videos of which only the last fails. */
  lemma KaraokeOnlyOfThree(a: VideoRef, b: VideoRef, c: VideoRef)
    requires IsKaraokeTitle(a.title) && IsKaraokeTitle(b.title) && !IsKaraokeTitle(c.title)
    ensures KaraokeOnly([a, b, c]) == [a, b]
  {
    assert [c][1..] == [];
    assert KaraokeOnly([c]) == [];
    assert [b, c][1..] == [c];
    assert KaraokeOnly([b, c]) == [b];
    assert [a, b, c][1..] == [b, c];
  }

  /** The query sent to the catalog: `prefix + searchTerm`. */
  function SearchQuery(isKaraoke: bool, searchTerm: string): (q: string)
    ensures |q| >= |searchTerm| && q[|q| - |searchTerm|..] == searchTerm
    ensures isKaraoke ==> q[..|q| - |searchTerm|] == KaraokePrefix
    ensures !isKaraoke ==> q == searchTerm
  {
    (if isKaraoke then KaraokePrefix else "") + searchTerm
  }

  /** Within one mode, distinct search terms give distinct queries (and so distinct query keys). */
  lemma SearchQueryInjective(isKaraoke: bool, t1: string, t2: string)
    requires SearchQuery(isKaraoke, t1) == SearchQuery(isKaraoke, t2)
    ensures t1 == t2
  {
    var q := SearchQuery(isKaraoke, t1);
    assert |t1| == |t2|;
    assert t1 == q[|q| - |t1|..] == t2;
  }

  /** In karaoke mode the query itself asks for "karaoke", whatever the user typed. */
  lemma SearchQueryAsksForKaraoke(searchTerm: string)
    ensures Contains(Lower(SearchQuery(true, searchTerm)), KaraokeWord)
  {
    var q := SearchQuery(true, searchTerm);
    var lq := Lower(q);
    assert q[..|KaraokePrefix|] == KaraokePrefix;
    assert forall k :: 1 <= k < 8 ==> lq[k] == KaraokeWord[k - 1];
    assert lq[1..8] == KaraokeWord;
    assert OccursAt(lq, KaraokeWord, 1);
  }

  /**
   * `renderList`: the search results when a search term is set or there are no
   * recommendations to show, the recommendations otherwise.
   */
  function RenderList(searchTerm: string, searchResults: Option<seq<VideoRef>>,
                      recommended: Option<seq<VideoRef>>): (r: Option<seq<VideoRef>>)
    ensures r == searchResults || r == recommended
    ensures searchTerm != "" ==> r == searchResults
    ensures recommended.None? || recommended.value == [] ==> r == searchResults
    ensures searchTerm == "" && recommended.Some? && recommended.value != [] ==> r == recommended
  {
    if searchTerm != "" || recommended.None? || |recommended.value| == 0 then searchResults
    else recommended
  }

  /**
   * In karaoke mode, whichever list is rendered, every video shown has a karaoke
   * title: both candidate lists went through the same `select`.
   */
  lemma RenderedAreKaraoke(searchTerm: string, results: Option<seq<VideoRef>>,
                           recommended: Option<seq<VideoRef>>)
    ensures var shown := RenderList(searchTerm,
                                    if results.Some? then Some(Select(true, results.value)) else None,
                                    if recommended.Some? then Some(Select(true, recommended.value)) else None);
            shown.Some? ==> forall k :: 0 <= k < |shown.value| ==> IsKaraokeTitle(shown.value[k].title)
  {
  }
}
