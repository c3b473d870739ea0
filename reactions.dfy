/** The reaction server actions: add or remove one emoji on a post's tally,
    recompute the denormalised total, and persist both in one update. */
module Reactions {
  import opened Wrappers

  /** Emoji key to count. Counts are integers because the tally is whatever the
      stored JSON parsed to; the tallies the actions produce are `WellFormed`. */
  type Tally = map<string, int>

  /** The post as the backend's `get` returns it. `reactionData` is `None` when
      the field is absent, empty, or not parseable JSON. */
  datatype StoredPost = StoredPost(id: string, reactions: Option<int>, reactionData: Option<Tally>)

  /** The single `update` call an action issues (JSON serialisation abstracted). */
  datatype PostUpdate = PostUpdate(id: string, reactions: int, reactionData: Tally)

  datatype ReactionResult =
    | Success(reactionData: Tally, totalReactions: int)
    | Failure(error: string)

  const AddFailed := "Failed to add reaction"
  const RemoveFailed := "Failed to remove reaction"

  /** Every count is at least one: no zero or negative entry. */
  ghost predicate WellFormed(m: Tally) {
    forall e :: e in m ==> m[e] >= 1
  }

  /** The sum of a tally's values (`Object.values(m).reduce(+, 0)`). On a
      well-formed tally it is at least the number of emoji, so never negative,
      and zero only when the tally is empty. */
  ghost function Sum(m: Tally): (s: int)
    ensures WellFormed(m) ==> s >= |m|
    decreases |m|
  {
    if m == map[] then 0
    else
      var e :| e in m;
      m[e] + Sum(m - {e})
  }

  /** Any key may be taken out first: the sum does not depend on order. */
  lemma {:induction false} SumRemove(m: Tally, e: string)
    requires e in m
    ensures Sum(m) == m[e] + Sum(m - {e})
    decreases |m|
  {
    var f :| f in m && Sum(m) == m[f] + Sum(m - {f});
    if f != e {
      SumRemove(m - {f}, e);
      SumRemove(m - {e}, f);
      assert m - {f} - {e} == m - {e} - {f};
    }
  }

  /** Setting one key changes the sum by the difference at that key. */
  lemma SumUpdate(m: Tally, e: string, v: int)
    ensures Sum(m[e := v]) == Sum(m) - (if e in m then m[e] else 0) + v
  {
    var u := m[e := v];
    SumRemove(u, e);
    assert u - {e} == m - {e};
    if e in m {
      SumRemove(m, e);
    } else {
      assert m - {e} == m;
    }
  }

  /** The tally the stored field yields: absent or unparseable data is the empty tally. */
  function Parsed(post: StoredPost): (m: Tally)
    ensures post.reactionData.None? ==> m == map[]
  {
    post.reactionData.GetOr(map[])
  }

  /** `reactionData[emoji] = (reactionData[emoji] || 0) + 1` */
  function Increment(m: Tally, emoji: string): (r: Tally)
    ensures r.Keys == m.Keys + {emoji}
    ensures r[emoji] == (if emoji in m then m[emoji] + 1 else 1)
    ensures forall e :: e in m && e != emoji ==> r[e] == m[e]
  {
    m[emoji := (if emoji in m then m[emoji] else 0) + 1]
  }

  /** `if (m[emoji] && m[emoji] > 1) m[emoji] -= 1; else delete m[emoji]` */
  function Decrement(m: Tally, emoji: string): (r: Tally)
    ensures emoji in m && m[emoji] > 1 ==> r.Keys == m.Keys && r[emoji] == m[emoji] - 1
    ensures !(emoji in m && m[emoji] > 1) ==> r.Keys == m.Keys - {emoji}
    ensures emoji in r ==> r[emoji] >= 1
    ensures forall e :: e in m && e != emoji ==> e in r && r[e] == m[e]
    ensures emoji !in m ==> r == m
  {
    if emoji in m && m[emoji] > 1 then m[emoji := m[emoji] - 1] else m - {emoji}
  }

  /** Computes the total of a tally, the fold at reactions.ts:48 and :96. */
  method Total(m: Tally) returns (total: int)
    ensures total == Sum(m)
  {
    total := 0;
    var rest := m;
    while rest != map[]
      invariant total + Sum(rest) == Sum(m)
      decreases |rest|
    {
      var e :| e in rest;
      SumRemove(rest, e);
      total := total + rest[e];
      rest := rest - {e};
    }
  }

  /** `addReactionAction(postId, emoji)`. `lookup` is what `Post.get` returned
      (`None`: no post, or the call threw) and `updateSucceeds` whether
      `Post.update` returned normally. */
  method AddReaction(postId: string, emoji: string, lookup: Option<StoredPost>, updateSucceeds: bool)
    returns (result: ReactionResult, update: Option<PostUpdate>)
    ensures lookup.None? ==> result == Failure(AddFailed) && update == None
    ensures lookup.Some? ==>
      var m := Increment(Parsed(lookup.value), emoji);
      update == Some(PostUpdate(postId, Sum(m), m)) &&
      result == (if updateSucceeds then Success(m, Sum(m)) else Failure(AddFailed))
    ensures result.Success? ==> result.totalReactions == Sum(result.reactionData)
    ensures result.Success? ==> update == Some(PostUpdate(postId, result.totalReactions, result.reactionData))
  {
    if lookup.None? {
      return Failure(AddFailed), None;
    }
    var reactionData: Tally := map[];
    if lookup.value.reactionData.Some? {
      reactionData := lookup.value.reactionData.value;
    }
    reactionData := reactionData[emoji := (if emoji in reactionData then reactionData[emoji] else 0) + 1];
    var totalReactions := Total(reactionData);
    update := Some(PostUpdate(postId, totalReactions, reactionData));
    if !updateSucceeds {
      return Failure(AddFailed), update;
    }
    result := Success(reactionData, totalReactions);
  }

  /** `removeReactionAction(postId, emoji)`, with the same inputs as `AddReaction`. */
  method RemoveReaction(postId: string, emoji: string, lookup: Option<StoredPost>, updateSucceeds: bool)
    returns (result: ReactionResult, update: Option<PostUpdate>)
    ensures lookup.None? ==> result == Failure(RemoveFailed) && update == None
    ensures lookup.Some? ==>
      var m := Decrement(Parsed(lookup.value), emoji);
      update == Some(PostUpdate(postId, Sum(m), m)) &&
      result == (if updateSucceeds then Success(m, Sum(m)) else Failure(RemoveFailed))
    ensures result.Success? ==> result.totalReactions == Sum(result.reactionData)
    ensures result.Success? ==> update == Some(PostUpdate(postId, result.totalReactions, result.reactionData))
  {
    if lookup.None? {
      return Failure(RemoveFailed), None;
    }
    var reactionData: Tally := map[];
    if lookup.value.reactionData.Some? {
      reactionData := lookup.value.reactionData.value;
    }
    if emoji in reactionData && reactionData[emoji] > 1 {
      reactionData := reactionData[emoji := reactionData[emoji] - 1];
    } else {
      reactionData := reactionData - {emoji};
    }
    var totalReactions := Total(reactionData);
    update := Some(PostUpdate(postId, totalReactions, reactionData));
    if !updateSucceeds {
      return Failure(RemoveFailed), update;
    }
    result := Success(reactionData, totalReactions);
  }

  /** Adding raises the total by exactly one. */
  lemma AddRaisesTotal(m: Tally, emoji: string)
    ensures Sum(Increment(m, emoji)) == Sum(m) + 1
  {
    SumUpdate(m, emoji, if emoji in m then m[emoji] + 1 else 1);
  }

  /** Removing lowers the total by one when the emoji had a positive count
      (always, on a well-formed tally), and leaves it alone when the emoji is absent. */
  lemma RemoveLowersTotal(m: Tally, emoji: string)
    ensures emoji in m && m[emoji] >= 1 ==> Sum(Decrement(m, emoji)) == Sum(m) - 1
    ensures emoji !in m ==> Sum(Decrement(m, emoji)) == Sum(m)
  {
    if emoji in m {
      if m[emoji] > 1 {
        SumUpdate(m, emoji, m[emoji] - 1);
      } else {
        SumRemove(m, emoji);
      }
    }
  }

  /** Both actions keep a tally free of zero and negative counts. */
  lemma ActionsKeepWellFormed(m: Tally, emoji: string)
    requires WellFormed(m)
    ensures WellFormed(Increment(m, emoji))
    ensures WellFormed(Decrement(m, emoji))
  {
  }

  /** Adding then removing the same emoji restores the tally when the emoji was
      absent or had a count of at least one. */
  lemma AddThenRemove(m: Tally, emoji: string)
    requires emoji !in m || m[emoji] >= 1
    ensures Decrement(Increment(m, emoji), emoji) == m
  {
  }

  /** Removing then adding restores the tally when the emoji was present with a
      positive count; an absent emoji comes back with count one instead. */
  lemma RemoveThenAdd(m: Tally, emoji: string)
    ensures emoji in m && m[emoji] >= 1 ==> Increment(Decrement(m, emoji), emoji) == m
    ensures emoji !in m ==> Increment(Decrement(m, emoji), emoji) == m[emoji := 1]
  {
  }

  /** Adding to a post without parseable reaction data gives `{emoji: 1}`, total 1. */
  lemma AddToMissingData(post: StoredPost, emoji: string)
    requires post.reactionData.None?
    ensures Increment(Parsed(post), emoji) == map[emoji := 1]
    ensures Sum(Increment(Parsed(post), emoji)) == 1
  {
    AddRaisesTotal(map[], emoji);
  }

  /** Adding "😅" twice to an empty tally gives count 2, total 2; one removal
      then leaves count 1, total 1. */
  lemma AddTwiceRemoveOnce()
    ensures Increment(Increment(map[], "😅"), "😅") == map["😅" := 2]
    ensures Sum(map["😅" := 2]) == 2
    ensures Decrement(map["😅" := 2], "😅") == map["😅" := 1]
    ensures Sum(map["😅" := 1]) == 1
  {
    AddRaisesTotal(map[], "😅");
    AddRaisesTotal(map["😅" := 1], "😅");
    assert Increment(map["😅" := 1], "😅") == map["😅" := 2];
  }
}
