# failnet core logic in Dafny

This project models the bookkeeping at the heart of the "share your failures"
web application and proves properties of it. The backend, the LLM agents and
the browser are outside the model. Their results enter as inputs.

- **Reactions** (`reactions.dfy`). This is the add and remove server action on a
  post's emoji tally. The stored JSON is parsed, and absent or unparseable data
  counts as empty. One count is incremented, or decremented or deleted. The total
  is recomputed as the sum of the counts, and one update is issued with both.
- **Feed** (`feed.dfy`). This is the home page's feed as a class, `FeedState`,
  whose handlers are split at their await points. The first page is sorted by
  `createdAt` or by reactions, cut to 20 and filtered by category, and then "has
  more" is decided. "Load more" has a guard, then filters the page, appends the
  posts whose id is not yet shown and advances the cursor. Refreshing one post
  replaces only its reaction fields.
- **Avatars** (`avatars.dfy`). The avatar is chosen from the post id. Each
  UTF-16 code unit of the id updates the hash to ToInt32(31 * hash + code unit),
  with ToInt32 as in section 7.1.6 of ECMA-262. The index is then `abs` of the
  hash modulo the number of avatars.
- **Categories** (`categories.dfy`). The closed list has nine categories. The
  result is the first category, in list order, that the trimmed model reply
  contains, and the fallback is "その他".
- **Moderation** (`moderation.dfy`, `mastra_moderation.dfy`). The first call
  site has a keyword gate with a chain of global replacements and falls back to
  "appropriate". The second cuts a JSON span out of the agent's reply and falls
  back to "inappropriate".
- **Text** (`text.dfy`). These are JavaScript's `includes`, `replace(/…/g)` and
  `trim`, with the lemmas the other modules need about them.

Inputs that stand for I/O:
- `Option<StoredPost>` and `Option<RawPost>` are the results of `Post.get`.
- `updateSucceeds` says whether `Post.update` returned normally.
- `Option<Response>` is the result of a list call, with `None` meaning it threw.
- `BedrockReply` and `AgentReply` are the outcomes of the model calls.
- `JsonParser` stands for `JSON.parse`.

Adding "😅" twice and removing it once leaves `{😅: 1}` with total 1, because
`removeReactionAction` decrements a count above one
(src/app/actions/reactions.ts:89-90). `Reactions.AddTwiceRemoveOnce` states it.

## Model

| member | source | states |
|---|---|---|
| `Reactions.Parsed` | src/app/actions/reactions.ts:29-42 | absent or unparseable stored reaction data becomes the empty tally |
| `Reactions.Increment` | src/app/actions/reactions.ts:43-44 | the emoji's count becomes old count + 1, or 1 if absent; key set grows by the emoji only; every other count unchanged |
| `Reactions.Decrement` | src/app/actions/reactions.ts:88-93 | a count above 1 drops by exactly one; otherwise the key is deleted (never stored as 0 or less); other keys unchanged; an absent emoji leaves the tally unchanged |
| `Reactions.Total` | src/app/actions/reactions.ts:47-48 | the computed total equals the sum of all counts |
| `Reactions.AddReaction` | src/app/actions/reactions.ts:9-66 | missing post: failure and no update; otherwise the update carries the incremented tally and its sum, and success returns exactly what was persisted, with total = sum of the returned tally |
| `Reactions.RemoveReaction` | src/app/actions/reactions.ts:68-110 | same as add with the decremented tally and the remove error message |
| `Reactions.Sum` | src/app/actions/reactions.ts:48 | the total of a tally's counts; on a tally whose counts are all at least one it is at least the number of emoji, so never negative and zero only when empty |
| `Reactions.SumRemove` | src/app/actions/reactions.ts:48 | the sum of a tally does not depend on the order in which counts are added |
| `Reactions.SumUpdate` | src/app/actions/reactions.ts:96 | setting one count changes the sum by the difference at that key |
| `Reactions.AddRaisesTotal` | src/app/actions/reactions.ts:44-48 | add raises the total by exactly one |
| `Reactions.RemoveLowersTotal` | src/app/actions/reactions.ts:89-96 | remove lowers the total by one for an emoji with a positive count, and leaves it alone for an absent emoji |
| `Reactions.ActionsKeepWellFormed` | src/app/actions/reactions.ts:88-93 | both actions keep every count at least one |
| `Reactions.AddThenRemove` | src/app/actions/reactions.ts:43-93 | add then remove of one emoji restores the tally when it was absent or had count >= 1 |
| `Reactions.RemoveThenAdd` | src/app/actions/reactions.ts:43-93 | remove then add restores a positive count; an absent emoji comes back with count 1 |
| `Reactions.AddToMissingData` | src/app/actions/reactions.ts:29-48 | adding to a post without parseable data gives `{emoji: 1}` with total 1 |
| `Reactions.AddTwiceRemoveOnce` | src/app/actions/reactions.ts:43-96 | two adds give count 2, total 2; one remove then gives count 1, total 1 |
| `Feed.CategoryOptionsMatchClassifier` | src/app/page.tsx:23-34 | the selector lists "すべて" followed by exactly the classifier's nine categories |
| `Feed.Insert` | src/app/page.tsx:89-93 | inserting into a sorted list keeps it sorted and adds exactly that element |
| `Feed.SortDescending` | src/app/page.tsx:88-94 | the sort result is descending by the chosen key and a permutation of the records |
| `Feed.TopPage` | src/app/page.tsx:88-94 | the page has min(20, n) records, is sorted and is drawn from the fetched records |
| `Feed.TopPageRanks` | src/app/page.tsx:88-94 | no record left out ranks strictly above a record on the page |
| `Feed.FilterCategory` | src/app/page.tsx:99-102 | keeps exactly the posts whose category equals the selection, as a subsequence of the input; "すべて" keeps all; a hidden post shortens the list |
| `Feed.FilterCategoryCounts` | src/app/page.tsx:99-102 | each shown record occurs in the result exactly as often as in the input, a hidden record not at all |
| `Feed.FilterKeepsSorted` | src/app/page.tsx:96-102 | filtering a sorted page keeps it sorted |
| `Feed.Format` | src/app/page.tsx:104-127 | every field is copied, a missing reaction count becomes 0, so a post keeps the sort key of its record |
| `Feed.FormatAll` | src/app/page.tsx:104-127 | the same length as the records, each post formatted from the record at its position |
| `Feed.Cursor` | src/app/page.tsx:129 | an empty token is stored as no cursor; any other token is kept |
| `Feed.InitialPosts` | src/app/page.tsx:88-127 | the first page has at most 20 posts, all passing the filter |
| `Feed.InitialPostsSorted` | src/app/page.tsx:88-128 | the first page is descending by `createdAt` or by reactions (missing as 0) |
| `Feed.InitialPostsFromData` | src/app/page.tsx:84-128 | every post shown is formatted from a fetched record |
| `Feed.InitialPostsUnfiltered` | src/app/page.tsx:88-102 | with no filter the first page holds min(20, n) posts |
| `Feed.FilteredPageEndsPaging` | src/app/page.tsx:100-130 | when the filter hides a record of a full page, fewer than 20 posts remain, so "has more" is false |
| `Feed.Unseen` | src/app/page.tsx:210-211 | keeps exactly the page's posts whose id was not seen, as a subsequence of the page, without duplicate ids if the page has none |
| `Feed.UnseenCounts` | src/app/page.tsx:210-211 | each post with an unseen id occurs exactly as often as in the page, any other not at all |
| `Feed.AppendUnique` | src/app/page.tsx:209-213 | the previous list is a prefix, followed by exactly `Unseen(page, ids of the list)`: the page's posts with unseen ids, in page order and multiplicity; every such post is appended |
| `Feed.AppendKeepsIdsUnique` | src/app/page.tsx:209-213 | appending keeps ids unique when the list and the page each have unique ids |
| `Feed.AppendTwice` | src/app/page.tsx:209-213 | appending the same page twice adds nothing the second time |
| `Feed.MergeReactions` | src/app/page.tsx:237-251 | only `reactions`/`reactionData` of the posts with the id change, to the fetched values; length, order and other fields unchanged |
| `Feed.FeedState.constructor` | src/app/page.tsx:37-45 | initial state: no posts, newest, no filter, loading, has more, no cursor |
| `Feed.FeedState.BeginInitialLoad` | src/app/page.tsx:52-57 | the reset: no posts, no cursor, has more, loading; sort and filter unchanged |
| `Feed.FeedState.FinishInitialLoad` | src/app/page.tsx:84-136 | with data: posts are the first page, cursor the normalised token, has more iff 20 posts and a cursor; without data or on error nothing else changes; loading ends |
| `Feed.FeedState.SelectSort` | src/app/page.tsx:48-50 | a change of sort order resets the feed and starts loading; the same order changes nothing |
| `Feed.FeedState.SelectCategory` | src/app/page.tsx:48-50 | a change of category resets the feed and starts loading; the same category changes nothing |
| `Feed.FeedState.BeginLoadMore` | src/app/page.tsx:139-143 | a no-op when already loading, without "has more" or without a cursor; otherwise marks loading and returns the cursor |
| `Feed.FeedState.FinishLoadMore` | src/app/page.tsx:172-224 | a non-empty page appends the filtered unseen posts and has more iff a cursor came back; an empty or null page sets has more false and keeps the posts; loading ends |
| `Feed.FeedState.RefreshPost` | src/app/page.tsx:232-257 | a fetched post merges its reaction fields into the list; nothing else changes |
| `Avatars.ToInt32` | src/lib/userUtils.ts:29-30 | the result is a signed 32-bit integer congruent to the input modulo 2^32 |
| `Avatars.ShiftStep` | src/lib/userUtils.ts:29-30 | `((h << 5) - h) + c` then `& itself` equals ToInt32(31 * h + c) |
| `Avatars.PostIdHash` | src/lib/userUtils.ts:26-31 | the hash is a signed 32-bit value after every step |
| `Avatars.HashIsTruncatedPolynomial` | src/lib/userUtils.ts:26-31 | per-step truncation equals ToInt32 of the exact polynomial sum of c_i * 31^(n-1-i) |
| `Avatars.AvatarIndex` | src/lib/userUtils.ts:34 | the index lies in [0, count) for every hash, including -2^31 |
| `Avatars.UserInfoFromPostId` | src/lib/userUtils.ts:24-40 | the loop computes the hash of the id, so the same id always yields the name and image of the one selected avatar |
| `Avatars.EmptyIdPicksFirst` | src/lib/userUtils.ts:26-34 | an empty id hashes to 0 and picks index 0 |
| `Avatars.MinHashIndex` | src/lib/userUtils.ts:34 | the hash -2^31 gives index 2^31 mod count |
| `Avatars.SmallHashes` | src/lib/userUtils.ts:26-31 | "a" hashes to 97 and "ab" to 3105 |
| `Categories.FirstMatch` | src/lib/categoryClassification.ts:33-35 | finds the first category in list order that the text includes, or reports that none does |
| `Categories.ClassifyContent` | src/lib/categoryClassification.ts:17-44 | the result is always one of the nine categories: the first in list order contained in the trimmed reply, else "その他"; any error gives "その他" |
| `Categories.CategoryListShape` | src/lib/categoryClassification.ts:3-13 | nine distinct categories with "その他" last |
| `Categories.CategoriesHaveNoSpace` | src/lib/categoryClassification.ts:3-13 | no category contains a character `trim` removes |
| `Categories.TrimDoesNotMatter` | src/lib/categoryClassification.ts:30-35 | trimming the reply never changes the chosen category |
| `Categories.ListOrderWins` | src/lib/categoryClassification.ts:33-35 | list order decides, not position in the text |
| `Text.Contains` | src/lib/categoryClassification.ts:34 | an included pattern is no longer than the text; a prefix is included; a pattern as long as the text is included only when equal to it |
| `Text.ContainsAt` | src/lib/categoryClassification.ts:34 | `includes` holds iff the pattern occurs at some index |
| `Text.Trim` | src/lib/categoryClassification.ts:30 | the result is no longer than the text and neither starts nor ends with a `trim` character |
| `Text.TrimSpec` | src/lib/categoryClassification.ts:30 | the result is one contiguous piece of the text with only `trim` characters before and after it |
| `Text.ContainsTrim` | src/lib/categoryClassification.ts:30 | trimming does not change whether a pattern free of whitespace occurs |
| `Text.ReplaceAll` | src/lib/contentModeration.ts:27 | a global replace with no occurrence changes nothing |
| `Text.ReplacePairFree` | src/lib/contentModeration.ts:27 | replacing a two-character keyword by a non-empty text that cannot form a pair leaves no such pair |
| `Moderation.HasBlockedKeyword` | src/lib/contentModeration.ts:22 | the gate holds iff the content includes one of the four blocked keywords |
| `Moderation.SuggestedEdit` | src/lib/contentModeration.ts:27 | the rewrite never contains "くそ"; content without a keyword comes back unchanged |
| `Moderation.ModerateContent` | src/lib/contentModeration.ts:20-99 | a keyword gives inappropriate, 0.8 with the rewrite; an error or empty text gives appropriate, 0.0; a parsed reply is returned unchanged; an unparseable one gives appropriate, 0.5; inappropriate only via the gate or the model's own JSON |
| `Moderation.GateIgnoresModel` | src/lib/contentModeration.ts:22-29 | gated content is decided without the model: any reply and parser give the same result |
| `Moderation.FailuresAreAppropriate` | src/lib/contentModeration.ts:71-97 | every failure past the gate lets the post through |
| `Moderation.SuggestedEditClean` | src/lib/contentModeration.ts:27 | without "死ね" in the content, the rewrite contains none of the four keywords |
| `Moderation.DeletionCanFormKeyword` | src/lib/contentModeration.ts:22-27 | deleting "死ね" can join a keyword: "バ死ねカ" is rewritten to "バカ" |
| `MastraModeration.FirstIndexOf` | src/lib/mastraContentModeration.ts:35 | the index of a `{` with none before it, or none when the text has no `{` |
| `MastraModeration.LastIndexOf` | src/lib/mastraContentModeration.ts:35 | the index of a `}` with none after it, or none when the text has no `}` |
| `MastraModeration.ExtractJson` | src/lib/mastraContentModeration.ts:35-37 | a span starts with `{` and ends with `}` |
| `MastraModeration.ExtractJsonSpan` | src/lib/mastraContentModeration.ts:35-37 | the span is the substring from the first `{` to the last `}` after it, inclusive |
| `MastraModeration.ExtractJsonNone` | src/lib/mastraContentModeration.ts:35-40 | there is no span exactly when no `}` follows a `{` |
| `MastraModeration.ModerateWithMastra` | src/lib/mastraContentModeration.ts:10-64 | agent error gives inappropriate, 0.0; no span or an unparseable span gives inappropriate, 0.5; a parsed span is returned unchanged; appropriate only via the parsed span |
| `MastraModeration.FallbacksBlockWithAdvice` | src/lib/mastraContentModeration.ts:41-62 | both fallbacks are inappropriate and carry a non-empty reason and suggested edit |
| `MastraModeration.OppositeFallbacks` | src/lib/mastraContentModeration.ts:53-62 | on a model failure this call site blocks while the Bedrock one lets the post through |
| `MastraModeration.ExtractFromProse` | src/lib/mastraContentModeration.ts:35-37 | prose around the object is dropped |
| `MastraModeration.NoSpanWhenBracesReversed` | src/lib/mastraContentModeration.ts:35-40 | a `}` only before the first `{` gives no span |

## Left out

- The backend calls (`Post.get`, `Post.update`, `Post.list`, `listPostByTypeAndCreatedAt`) are network I/O. The choice between the secondary index and the plain list, with its fallback (src/app/page.tsx:59-82, :144-170), is left out too. Only the calls' results are inputs.
- Reactions.Increment: a tally is a map, not a JavaScript object. Emoji names that `Object.prototype` provides (`__proto__`, `constructor`, `toString`, ...) are not modelled, and neither are non-integer counts. For those, `reactionData[emoji] || 0` reads an inherited value, and the total can become a string. The same holds for `Reactions.AddReaction` and `Reactions.AddRaisesTotal`. The server action accepts any string. Only the picker offers a fixed palette.
- Concurrent reaction calls can lose updates through their read-modify-write. That is concurrency, which a sequential model does not cover.
- Feed.FeedState.FinishLoadMore: filters by the category current when the page arrives, while `loadMorePosts` uses the `selectedCategory` it captured when created. The two differ only when a load-more is in flight across a change of filter.
- `JSON.parse` and `JSON.stringify` are abstract. For reactions, stored data that parses to something other than an object of numbers (`null`, an array, a string count) is not modelled. For moderation, the parser yields a moderation result, and the source's unchecked cast of any other JSON value is not modelled.
- Dates are integer `createdAt` keys. Invalid or missing dates, which make the comparator return NaN, are not modelled, and neither is the locale-formatted `displayDate`.
- A record's `reactionData` arrives as text. The branch that `JSON.stringify`s a structured value (src/app/page.tsx:111-116) is not modelled.
- `Feed.SortDescending`: the sort is stable like `Array.prototype.sort`, but stability itself is not proved.
- `getRandomUserInfo` (src/lib/userUtils.ts:11-19) depends on `Math.random`.
- Confidence values are floating point in the source. They are modelled as the constants 0.8, 0.5 and 0.0.
- src/constants is not part of this model. The avatar list is a parameter and is required to be non-empty, as that constant list is.
- The `ContentModerationService` client, its model id, the prompts and the agent definitions are foreign calls. Only the reply text enters. The classifier agent is not registered with the agent registry, so the lookup may always throw. That is the `None` case of `Categories.ClassifyContent`.
- Strings are sequences of Unicode code points, while JavaScript uses UTF-16 code units. The keywords, categories and braces searched for are all in the Basic Multilingual Plane, so matching agrees. The hash input is given as code units explicitly.
- URL and history handling, the modal, JSX, the components, image generation, post creation and configuration are left out. `handleNewPost` is the same reset as `BeginInitialLoad`.
