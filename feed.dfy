/** Feed assembly on the home page: the first page (sort, truncate to 20,
    category filter, "has more"), "load more" (guard, filter, append what is
    not yet shown, advance the cursor), and the refresh of one post's
    reactions. The backend's pages arrive as inputs. */
module Feed {
  import opened Wrappers
  import Categories

  datatype SortBy = Newest | MostReactions

  /** A post record as the backend returns it. `createdAt` is the creation time
      as an integer; `reactionData` is the stored JSON text. */
  datatype RawPost = RawPost(
    id: string,
    content: string,
    author: string,
    authorImage: Option<string>,
    reactions: Option<int>,
    category: Option<string>,
    reactionData: Option<string>,
    createdAt: int)

  /** A post as the feed shows it. */
  datatype FeedPost = FeedPost(
    id: string,
    content: string,
    author: string,
    authorImage: Option<string>,
    reactions: int,
    category: Option<string>,
    reactionData: Option<string>,
    createdAt: int)

  /** One page from the backend: its records (`None` for a null `data`) and its
      continuation token. */
  datatype Response = Response(data: Option<seq<RawPost>>, nextToken: Option<string>)

  const PageSize: nat := 20

  /** The filter value meaning "no filter". */
  const AllCategories: string := "すべて"

  /** The options of the category selector. */
  const CategoryOptions: seq<string> := [
    "すべて",
    "仕事・職場",
    "人間関係",
    "お金・買い物",
    "健康・生活",
    "学習・スキル",
    "趣味・娯楽",
    "技術・IT",
    "日常生活",
    "その他"
  ]

  /** The selector offers "no filter" followed by exactly the classifier's categories. */
  lemma CategoryOptionsMatchClassifier()
    ensures CategoryOptions == [AllCategories] + Categories.AvailableCategories
  {
  }

  // ---------------------------------------------------------------- sorting

  /** The sort key: `createdAt`, or `reactions || 0`. */
  function SortKey(p: RawPost, order: SortBy): int {
    match order
    case Newest => p.createdAt
    case MostReactions => p.reactions.GetOr(0)
  }

  ghost predicate SortedDesc(s: seq<RawPost>, order: SortBy) {
    forall i, j :: 0 <= i < j < |s| ==> SortKey(s[i], order) >= SortKey(s[j], order)
  }

  /** Putting an element with the largest key in front keeps a list sorted. */
  lemma ConsSorted(x: RawPost, s: seq<RawPost>, order: SortBy)
    requires SortedDesc(s, order)
    requires s == [] || SortKey(x, order) >= SortKey(s[0], order)
    ensures SortedDesc([x] + s, order)
  {
  }

  /** Places `x` before the first element whose key is not larger, so that
      elements with equal keys keep their order. */
  function Insert(x: RawPost, s: seq<RawPost>, order: SortBy): (r: seq<RawPost>)
    requires SortedDesc(s, order)
    ensures SortedDesc(r, order)
    ensures multiset(r) == multiset(s) + multiset{x}
    ensures |r| == |s| + 1
    ensures r[0] == x || (s != [] && r[0] == s[0])
    decreases |s|
  {
    if s == [] || SortKey(s[0], order) <= SortKey(x, order) then
      ConsSorted(x, s, order);
      [x] + s
    else
      var t := Insert(x, s[1..], order);
      ConsSorted(s[0], t, order);
      assert s == [s[0]] + s[1..];
      [s[0]] + t
  }

  /** The stable descending sort of `data.sort((a, b) => key(b) - key(a))`. */
  function SortDescending(s: seq<RawPost>, order: SortBy): (r: seq<RawPost>)
    ensures SortedDesc(r, order)
    ensures multiset(r) == multiset(s)
    ensures |r| == |s|
    decreases |s|
  {
    if s == [] then []
    else
      assert s == [s[0]] + s[1..];
      Insert(s[0], SortDescending(s[1..], order), order)
  }

  function Min(a: int, b: int): int {
    if a < b then a else b
  }

  /** `.sort(...).slice(0, 20)`: the page is sorted and drawn from the records. */
  function TopPage(data: seq<RawPost>, order: SortBy): (r: seq<RawPost>)
    ensures |r| == Min(PageSize, |data|)
    ensures SortedDesc(r, order)
    ensures multiset(r) <= multiset(data)
  {
    var sorted := SortDescending(data, order);
    var n := Min(PageSize, |data|);
    assert sorted == sorted[..n] + sorted[n..];
    sorted[..n]
  }

  /** No record left out of the page ranks strictly above a record on it. */
  lemma TopPageRanks(data: seq<RawPost>, order: SortBy, x: RawPost, y: RawPost)
    requires x in TopPage(data, order) && y in data
    requires SortKey(y, order) > SortKey(x, order)
    ensures y in TopPage(data, order)
  {
    var sorted := SortDescending(data, order);
    var n := Min(PageSize, |data|);
    assert y in multiset(sorted);
    var j :| 0 <= j < |sorted| && sorted[j] == y;
    var i :| 0 <= i < n && sorted[i] == x;
    assert j < n;
    assert sorted[..n][j] == y;
  }

  // -------------------------------------------------------------- filtering

  /** The category filter: "すべて" shows everything, otherwise the category
      must equal the selection (a missing category never does). */
  predicate Shown(category: Option<string>, selected: string) {
    selected == AllCategories || category == Some(selected)
  }

  /** `r` is `s` with some elements left out, the rest in their order. */
  predicate IsSubsequence<T(==)>(r: seq<T>, s: seq<T>)
    decreases |s|
  {
    r == [] || (s != [] && ((r[0] == s[0] && IsSubsequence(r[1..], s[1..])) || IsSubsequence(r, s[1..])))
  }

  /** `selected === 'すべて' ? s : s.filter(p => p.category === selected)` */
  function FilterCategory(s: seq<RawPost>, selected: string): (r: seq<RawPost>)
    ensures forall p :: p in r <==> p in s && Shown(p.category, selected)
    ensures IsSubsequence(r, s)
    ensures |r| <= |s|
    ensures (exists p :: p in s && !Shown(p.category, selected)) ==> |r| < |s|
    ensures selected == AllCategories ==> r == s
    decreases |s|
  {
    if s == [] then []
    else
      assert s == [s[0]] + s[1..];
      var t := FilterCategory(s[1..], selected);
      if Shown(s[0].category, selected) then [s[0]] + t else t
  }

  /** The filter keeps every shown record as many times as it occurs, and no hidden one. */
  lemma {:induction false} FilterCategoryCounts(s: seq<RawPost>, selected: string)
    ensures forall p ::
      multiset(FilterCategory(s, selected))[p] == if Shown(p.category, selected) then multiset(s)[p] else 0
    decreases |s|
  {
    if s != [] {
      FilterCategoryCounts(s[1..], selected);
      assert s == [s[0]] + s[1..];
      assert multiset(s) == multiset([s[0]]) + multiset(s[1..]);
    }
  }

  /** Filtering keeps a sorted list sorted. */
  lemma {:induction false} FilterKeepsSorted(s: seq<RawPost>, selected: string, order: SortBy)
    requires SortedDesc(s, order)
    ensures SortedDesc(FilterCategory(s, selected), order)
    decreases |s|
  {
    if s != [] {
      FilterKeepsSorted(s[1..], selected, order);
      var t := FilterCategory(s[1..], selected);
      forall k | 0 <= k < |t| ensures SortKey(s[0], order) >= SortKey(t[k], order) {
        assert t[k] in s[1..];
      }
    }
  }

  // ------------------------------------------------------------- formatting

  /** The view of one record: missing reactions count as 0, every other field
      is copied, so a shown post keeps the key its record was sorted by. */
  function Format(p: RawPost): (f: FeedPost)
    ensures f.id == p.id && f.content == p.content && f.author == p.author && f.authorImage == p.authorImage
    ensures f.category == p.category && f.reactionData == p.reactionData && f.createdAt == p.createdAt
    ensures f.reactions == if p.reactions.Some? then p.reactions.value else 0
    ensures forall order :: FeedKey(f, order) == SortKey(p, order)
  {
    FeedPost(p.id, p.content, p.author, p.authorImage, p.reactions.GetOr(0),
             p.category, p.reactionData, p.createdAt)
  }

  function FormatAll(s: seq<RawPost>): (r: seq<FeedPost>)
    ensures |r| == |s| && forall i :: 0 <= i < |s| ==> r[i] == Format(s[i])
  {
    seq(|s|, i requires 0 <= i < |s| => Format(s[i]))
  }

  /** The key a shown post was sorted by. */
  function FeedKey(p: FeedPost, order: SortBy): int {
    match order
    case Newest => p.createdAt
    case MostReactions => p.reactions
  }

  /** `response.nextToken || null`: an empty token counts as none. */
  function Cursor(token: Option<string>): (c: Option<string>)
    ensures token == Some("") ==> c == None
    ensures token != Some("") ==> c == token
  {
    if token == Some("") then None else token
  }

  // ------------------------------------------------------------ first page

  /** The posts the first page shows: at most 20, each one shown by the filter. */
  function InitialPosts(data: seq<RawPost>, order: SortBy, selected: string): (r: seq<FeedPost>)
    ensures |r| <= PageSize
    ensures forall i :: 0 <= i < |r| ==> Shown(r[i].category, selected)
  {
    var kept := FilterCategory(TopPage(data, order), selected);
    assert forall i :: 0 <= i < |kept| ==> kept[i] in kept;
    FormatAll(kept)
  }

  /** The first page is sorted by the chosen key, descending. */
  lemma InitialPostsSorted(data: seq<RawPost>, order: SortBy, selected: string)
    ensures var r := InitialPosts(data, order, selected);
      forall i, j :: 0 <= i < j < |r| ==> FeedKey(r[i], order) >= FeedKey(r[j], order)
  {
    var page := TopPage(data, order);
    var kept := FilterCategory(page, selected);
    FilterKeepsSorted(page, selected, order);
    var r := FormatAll(kept);
    forall i, j | 0 <= i < j < |r| ensures FeedKey(r[i], order) >= FeedKey(r[j], order) {
      assert SortKey(kept[i], order) >= SortKey(kept[j], order);
    }
  }

  /** Every post on the first page is formatted from a fetched record. */
  lemma InitialPostsFromData(data: seq<RawPost>, order: SortBy, selected: string)
    ensures forall f :: f in InitialPosts(data, order, selected) ==>
      exists p :: p in data && f == Format(p)
  {
    var page := TopPage(data, order);
    var kept := FilterCategory(page, selected);
    var r := FormatAll(kept);
    forall f | f in r ensures exists p :: p in data && f == Format(p) {
      var i :| 0 <= i < |r| && r[i] == f;
      assert kept[i] in kept;
      assert kept[i] in multiset(page);
      assert kept[i] in data;
    }
  }

  /** Without a filter the first page is the top `min(20, n)` records. */
  lemma InitialPostsUnfiltered(data: seq<RawPost>, order: SortBy)
    ensures |InitialPosts(data, order, AllCategories)| == Min(PageSize, |data|)
  {
  }

  /** The filter-after-fetch gap: when the filter hides any record of a full
      first page, fewer than 20 posts remain, so "has more" is false even if
      the backend has more. */
  lemma FilteredPageEndsPaging(data: seq<RawPost>, order: SortBy, selected: string)
    requires |data| >= PageSize
    requires exists p :: p in TopPage(data, order) && !Shown(p.category, selected)
    ensures |InitialPosts(data, order, selected)| < PageSize
  {
  }

  // ------------------------------------------------------------- load more

  function Ids(s: seq<FeedPost>): set<string> {
    set p | p in s :: p.id
  }

  predicate UniqueIds(s: seq<FeedPost>) {
    forall i, j :: 0 <= i < j < |s| ==> s[i].id != s[j].id
  }

  /** `page.filter(p => !seen.has(p.id))` */
  function Unseen(page: seq<FeedPost>, seen: set<string>): (r: seq<FeedPost>)
    ensures forall p :: p in r <==> p in page && p.id !in seen
    ensures IsSubsequence(r, page)
    ensures UniqueIds(page) ==> UniqueIds(r)
    decreases |page|
  {
    if page == [] then []
    else
      assert page == [page[0]] + page[1..];
      var t := Unseen(page[1..], seen);
      if page[0].id in seen then t
      else
        assert UniqueIds(page) ==> forall k :: 0 <= k < |t| ==> t[k] in page[1..];
        [page[0]] + t
  }

  /** `Unseen` keeps every post with an unseen id as many times as it occurs, and no other. */
  lemma {:induction false} UnseenCounts(page: seq<FeedPost>, seen: set<string>)
    ensures forall p :: multiset(Unseen(page, seen))[p] == if p.id !in seen then multiset(page)[p] else 0
    decreases |page|
  {
    if page != [] {
      UnseenCounts(page[1..], seen);
      assert page == [page[0]] + page[1..];
      assert multiset(page) == multiset([page[0]]) + multiset(page[1..]);
    }
  }

  /** `[...prev, ...page.filter(p => !ids(prev).has(p.id))]` */
  function AppendUnique(prev: seq<FeedPost>, page: seq<FeedPost>): (r: seq<FeedPost>)
    ensures |r| >= |prev| && r[..|prev|] == prev
    ensures forall k :: |prev| <= k < |r| ==> r[k] in page && r[k].id !in Ids(prev)
    ensures forall p :: p in page && p.id !in Ids(prev) ==> p in r
    ensures r[|prev|..] == Unseen(page, Ids(prev)) && IsSubsequence(r[|prev|..], page)
  {
    var r := prev + Unseen(page, Ids(prev));
    assert r[..|prev|] == prev;
    assert r[|prev|..] == Unseen(page, Ids(prev));
    forall k | |prev| <= k < |r| ensures r[k] in page && r[k].id !in Ids(prev) {
      assert r[k] == Unseen(page, Ids(prev))[k - |prev|];
    }
    r
  }

  /** Appending never duplicates an id when the list and the page are each free
      of duplicates. */
  lemma AppendKeepsIdsUnique(prev: seq<FeedPost>, page: seq<FeedPost>)
    requires UniqueIds(prev) && UniqueIds(page)
    ensures UniqueIds(AppendUnique(prev, page))
  {
    var added := Unseen(page, Ids(prev));
    var r := AppendUnique(prev, page);
    assert r == prev + added;
    forall i, j | 0 <= i < j < |r| ensures r[i].id != r[j].id {
      if j >= |prev| && i < |prev| {
        assert r[i] in prev;
        assert r[j].id !in Ids(prev);
      } else if i >= |prev| {
        assert r[i] == added[i - |prev|] && r[j] == added[j - |prev|];
      }
    }
  }

  /** Appending the same page a second time adds nothing. */
  lemma AppendTwice(prev: seq<FeedPost>, page: seq<FeedPost>)
    ensures AppendUnique(AppendUnique(prev, page), page) == AppendUnique(prev, page)
  {
  }

  // ------------------------------------------------------- refresh one post

  /** Replaces `reactions` and `reactionData` of every post with id `postId`
      by the freshly fetched values, and nothing else. */
  function MergeReactions(posts: seq<FeedPost>, postId: string, updated: RawPost): (r: seq<FeedPost>)
    ensures |r| == |posts|
    ensures forall i :: 0 <= i < |r| ==>
      r[i].(reactions := posts[i].reactions, reactionData := posts[i].reactionData) == posts[i]
    ensures forall i :: 0 <= i < |r| && posts[i].id == postId ==>
      r[i].reactions == updated.reactions.GetOr(0) && r[i].reactionData == updated.reactionData
    ensures forall i :: 0 <= i < |r| && posts[i].id != postId ==> r[i] == posts[i]
  {
    seq(|posts|, i requires 0 <= i < |posts| =>
      if posts[i].id == postId
      then posts[i].(reactions := updated.reactions.GetOr(0), reactionData := updated.reactionData)
      else posts[i])
  }

  // ------------------------------------------------------------ the feed

  /** The state of the home page's feed, and its handlers. A handler that awaits
      the backend is split at the await: `Begin...` runs up to the call and
      `Finish...` runs when the response (or the error) arrives. */
  class FeedState {
    var posts: seq<FeedPost>
    var sortBy: SortBy
    var selectedCategory: string
    var isLoading: bool
    var isLoadingMore: bool
    var hasMore: bool
    var nextToken: Option<string>

    /** Every shown post passes the current filter; a stored cursor is never empty. */
    ghost predicate Valid()
      reads this
    {
      && (forall i :: 0 <= i < |posts| ==> Shown(posts[i].category, selectedCategory))
      && nextToken != Some("")
    }

    constructor ()
      ensures Valid()
      ensures posts == [] && sortBy == Newest && selectedCategory == AllCategories
      ensures isLoading && !isLoadingMore && hasMore && nextToken == None
    {
      posts := [];
      sortBy := Newest;
      selectedCategory := AllCategories;
      isLoading := true;
      isLoadingMore := false;
      hasMore := true;
      nextToken := None;
    }

    /** `fetchInitialPosts` up to the backend call: the feed is reset. */
    method BeginInitialLoad()
      modifies this
      ensures Valid()
      ensures posts == [] && nextToken == None && hasMore && isLoading
      ensures sortBy == old(sortBy) && selectedCategory == old(selectedCategory)
      ensures isLoadingMore == old(isLoadingMore)
    {
      isLoading := true;
      posts := [];
      nextToken := None;
      hasMore := true;
    }

    /** `fetchInitialPosts` after the backend call; `response` is `None` when the call threw. */
    method FinishInitialLoad(response: Option<Response>)
      requires Valid()
      modifies this
      ensures Valid()
      ensures !isLoading
      ensures sortBy == old(sortBy) && selectedCategory == old(selectedCategory)
      ensures isLoadingMore == old(isLoadingMore)
      ensures response.Some? && response.value.data.Some? ==>
        && posts == InitialPosts(response.value.data.value, sortBy, selectedCategory)
        && nextToken == Cursor(response.value.nextToken)
        && hasMore == (|posts| == PageSize && nextToken.Some?)
      ensures !(response.Some? && response.value.data.Some?) ==>
        posts == old(posts) && nextToken == old(nextToken) && hasMore == old(hasMore)
    {
      if response.Some? && response.value.data.Some? {
        var formattedPosts := InitialPosts(response.value.data.value, sortBy, selectedCategory);
        posts := formattedPosts;
        nextToken := Cursor(response.value.nextToken);
        hasMore := |formattedPosts| == PageSize && nextToken.Some?;
      }
      isLoading := false;
    }

    /** Choosing a sort order; a change restarts the first page. */
    method SelectSort(order: SortBy)
      requires Valid()
      modifies this
      ensures Valid()
      ensures sortBy == order && selectedCategory == old(selectedCategory)
      ensures order != old(sortBy) ==> posts == [] && nextToken == None && hasMore && isLoading
      ensures order == old(sortBy) ==>
        posts == old(posts) && nextToken == old(nextToken) && hasMore == old(hasMore) && isLoading == old(isLoading)
      ensures isLoadingMore == old(isLoadingMore)
    {
      if order != sortBy {
        sortBy := order;
        BeginInitialLoad();
      }
    }

    /** Choosing a category filter; a change restarts the first page. */
    method SelectCategory(category: string)
      requires Valid()
      modifies this
      ensures Valid()
      ensures selectedCategory == category && sortBy == old(sortBy)
      ensures category != old(selectedCategory) ==> posts == [] && nextToken == None && hasMore && isLoading
      ensures category == old(selectedCategory) ==>
        posts == old(posts) && nextToken == old(nextToken) && hasMore == old(hasMore) && isLoading == old(isLoading)
      ensures isLoadingMore == old(isLoadingMore)
    {
      if category != selectedCategory {
        selectedCategory := category;
        BeginInitialLoad();
      }
    }

    /** `loadMorePosts` up to the backend call. Returns the cursor to request
        with, or `None` when the guard returns early and nothing changes. */
    method BeginLoadMore() returns (cursor: Option<string>)
      requires Valid()
      modifies this
      ensures Valid()
      ensures old(isLoadingMore) || !old(hasMore) || old(nextToken).None? ==>
        cursor == None && isLoadingMore == old(isLoadingMore)
      ensures !(old(isLoadingMore) || !old(hasMore) || old(nextToken).None?) ==>
        cursor == old(nextToken) && isLoadingMore
      ensures posts == old(posts) && nextToken == old(nextToken) && hasMore == old(hasMore)
      ensures sortBy == old(sortBy) && selectedCategory == old(selectedCategory) && isLoading == old(isLoading)
    {
      if isLoadingMore || !hasMore || nextToken.None? {
        return None;
      }
      isLoadingMore := true;
      cursor := nextToken;
    }

    /** `loadMorePosts` after the backend call; `response` is `None` when the call threw. */
    method FinishLoadMore(response: Option<Response>)
      requires Valid()
      modifies this
      ensures Valid()
      ensures !isLoadingMore
      ensures sortBy == old(sortBy) && selectedCategory == old(selectedCategory) && isLoading == old(isLoading)
      ensures match response
        case None =>
          posts == old(posts) && nextToken == old(nextToken) && hasMore == old(hasMore)
        case Some(Response(data, token)) =>
          if data.Some? && |data.value| > 0 then
            && posts == AppendUnique(old(posts), FormatAll(FilterCategory(data.value, selectedCategory)))
            && nextToken == Cursor(token)
            && hasMore == nextToken.Some?
          else
            posts == old(posts) && nextToken == old(nextToken) && !hasMore
    {
      if response.Some? {
        var data := response.value.data;
        if data.Some? && |data.value| > 0 {
          var formattedNewPosts := FormatAll(FilterCategory(data.value, selectedCategory));
          var merged := AppendUnique(posts, formattedNewPosts);
          forall k | |posts| <= k < |merged| ensures Shown(merged[k].category, selectedCategory) {
            var j :| 0 <= j < |formattedNewPosts| && formattedNewPosts[j] == merged[k];
          }
          posts := merged;
          nextToken := Cursor(response.value.nextToken);
          hasMore := nextToken.Some?;
        } else {
          hasMore := false;
        }
      }
      isLoadingMore := false;
    }

    /** `handleReactionUpdate(postId)`; `fetched` is what `Post.get` returned
        (`None` when it found nothing or threw). */
    method RefreshPost(postId: string, fetched: Option<RawPost>)
      requires Valid()
      modifies this
      ensures Valid()
      ensures posts == if fetched.Some? then MergeReactions(old(posts), postId, fetched.value) else old(posts)
      ensures sortBy == old(sortBy) && selectedCategory == old(selectedCategory)
      ensures isLoading == old(isLoading) && isLoadingMore == old(isLoadingMore)
      ensures hasMore == old(hasMore) && nextToken == old(nextToken)
    {
      if fetched.Some? {
        var merged := MergeReactions(posts, postId, fetched.value);
        forall i | 0 <= i < |merged| ensures merged[i].category == posts[i].category {
          assert merged[i].(reactions := posts[i].reactions, reactionData := posts[i].reactionData) == posts[i];
        }
        posts := merged;
      }
    }
  }
}
