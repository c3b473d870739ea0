/** Category resolution (`classifyContent`): the first category of the closed
    list, in list order, that occurs in the trimmed model reply, else "その他". */
module Categories {
  import opened Wrappers
  import opened Text

  const AvailableCategories: seq<string> := [
    "仕事・職場",
    "人間関係",
    "お金・買い物",
    "健康・生活",
    "学習・スキル",
    "趣味・娯楽",
    "技術・IT",
    "日常生活",
    "その他"
  ]

  /** The fallback category. */
  const Other: string := "その他"

  /** The index of the first category in `cats` that `text` includes
      (`AVAILABLE_CATEGORIES.find(c => text.includes(c))`). */
  function FirstMatch(cats: seq<string>, text: string): (r: Option<nat>)
    ensures r.Some? ==> r.value < |cats| && Contains(text, cats[r.value])
    ensures r.Some? ==> forall j :: 0 <= j < r.value ==> !Contains(text, cats[j])
    ensures r.None? ==> forall j :: 0 <= j < |cats| ==> !Contains(text, cats[j])
    decreases |cats|
  {
    if cats == [] then None
    else if Contains(text, cats[0]) then Some(0)
    else
      match FirstMatch(cats[1..], text)
      case None => None
      case Some(i) => Some(i + 1)
  }

  /** `classifyContent`: `reply` is the model's response text, or `None` when
      the agent lookup or the call threw. */
  function ClassifyContent(reply: Option<string>): (category: string)
    ensures category in AvailableCategories
    ensures reply.None? ==> category == Other
    ensures reply.Some? ==>
      var text := Trim(reply.value);
      (exists i :: 0 <= i < |AvailableCategories| && Contains(text, AvailableCategories[i])) ==>
        exists i :: 0 <= i < |AvailableCategories| && category == AvailableCategories[i] &&
          Contains(text, AvailableCategories[i]) &&
          forall j :: 0 <= j < i ==> !Contains(text, AvailableCategories[j])
    ensures reply.Some? ==>
      (forall i :: 0 <= i < |AvailableCategories| ==> !Contains(Trim(reply.value), AvailableCategories[i])) ==>
        category == Other
  {
    match reply
    case None => Other
    case Some(text) =>
      match FirstMatch(AvailableCategories, Trim(text))
      case Some(i) => AvailableCategories[i]
      case None => Other
  }

  /** The list holds nine distinct categories with the fallback last. */
  lemma CategoryListShape()
    ensures |AvailableCategories| == 9
    ensures AvailableCategories[8] == Other
    ensures forall i, j :: 0 <= i < j < 9 ==> AvailableCategories[i] != AvailableCategories[j]
  {
  }

  /** No category contains a character that `trim` removes. */
  lemma CategoriesHaveNoSpace()
    ensures forall i :: 0 <= i < |AvailableCategories| ==>
      |AvailableCategories[i]| > 0 && NoSpace(AvailableCategories[i])
  {
  }

  /** Trimming the reply never changes the chosen category. */
  lemma TrimDoesNotMatter(text: string)
    ensures ClassifyContent(Some(text)) == ClassifyContent(Some(Trim(text)))
  {
    var t := Trim(text);
    TrimKeepsMatch(t);
    ChosenByFirstMatch(text);
    ChosenByFirstMatch(t);
  }

  /** The category chosen for a reply is determined by the first match in its trimmed text. */
  lemma ChosenByFirstMatch(text: string)
    ensures var m := FirstMatch(AvailableCategories, Trim(text));
      ClassifyContent(Some(text)) == if m.Some? then AvailableCategories[m.value] else Other
  {
  }

  /** Trimming a text once more does not change the first category it includes. */
  lemma TrimKeepsMatch(t: string)
    ensures FirstMatch(AvailableCategories, Trim(t)) == FirstMatch(AvailableCategories, t)
  {
    CategoriesHaveNoSpace();
    var cats := AvailableCategories;
    forall i | 0 <= i < |cats|
      ensures Contains(Trim(t), cats[i]) == Contains(t, cats[i])
    {
      ContainsTrim(t, cats[i]);
    }
    SameMatches(cats, Trim(t), t);
  }

  /** Two texts that include the same categories choose the same one. */
  lemma {:induction false} SameMatches(cats: seq<string>, t: string, u: string)
    requires forall i :: 0 <= i < |cats| ==> Contains(t, cats[i]) == Contains(u, cats[i])
    ensures FirstMatch(cats, t) == FirstMatch(cats, u)
    decreases |cats|
  {
    if cats != [] {
      SameMatches(cats[1..], t, u);
    }
  }

  /** List order decides, not position in the text: a reply naming
      "人間関係" before "仕事・職場" is classified as "仕事・職場". */
  lemma ListOrderWins()
    ensures ClassifyContent(Some("人間関係と仕事・職場")) == "仕事・職場"
  {
    var text := "人間関係と仕事・職場";
    assert !IsJsSpace(text[0]) && !IsJsSpace(text[|text| - 1]);
    assert TrimStart(text) == text;
    assert TrimEnd(text) == text;
    assert OccursAt(text, AvailableCategories[0], 5);
    ContainsAt(text, AvailableCategories[0]);
    assert FirstMatch(AvailableCategories, text) == Some(0);
  }
}
