/** The moderation result shared by both moderation call sites, and the
    Bedrock-based `ContentModerationService.moderateContent`: a keyword gate
    with a suggested rewrite, then a model call whose reply is parsed as JSON.
    On failure this call site falls back to "appropriate". */
module Moderation {
  import opened Wrappers
  import opened Text

  /** `confidence` is a floating-point number in the source; the model only
      ever produces the constants 0.8, 0.5 and 0.0 itself. */
  datatype ModerationResult = ModerationResult(
    isAppropriate: bool,
    confidence: real,
    reason: Option<string>,
    suggestedEdit: Option<string>)

  /** `JSON.parse` read as a moderation result: `None` when it throws. */
  type JsonParser = string -> Option<ModerationResult>

  /** What `client.send(command)` produced: it threw, or it returned a response
      whose first content block has the text `text` (`None` when any part of
      `output.message.content[0].text` is missing). */
  datatype BedrockReply = SendFailed | Replied(text: Option<string>)

  const BlockedKeywords: seq<string> := ["バカ", "最悪", "死ね", "くそ"]

  const KeywordReason := "攻撃的または不適切な表現が含まれている可能性があります"
  const ParseFailedReason := "モデレーション結果の解析に失敗しました"
  const ErrorReason := "モデレーション処理でエラーが発生しました"

  /** The gate: the content includes one of the blocked keywords. */
  function HasBlockedKeyword(content: string): (r: bool)
    ensures r <==> exists k :: k in BlockedKeywords && Contains(content, k)
  {
    assert forall k :: k in BlockedKeywords ==>
      k == BlockedKeywords[0] || k == BlockedKeywords[1] || k == BlockedKeywords[2] || k == BlockedKeywords[3];
    assert forall i :: 0 <= i < |BlockedKeywords| ==> BlockedKeywords[i] in BlockedKeywords;
    Contains(content, BlockedKeywords[0]) || Contains(content, BlockedKeywords[1]) ||
    Contains(content, BlockedKeywords[2]) || Contains(content, BlockedKeywords[3])
  }

  /** The rewrite offered for gated content: each keyword replaced globally, in
      this order. The last replacement leaves no "くそ", and content without a
      keyword comes back unchanged. */
  function SuggestedEdit(content: string): (r: string)
    ensures !Contains(r, "くそ")
    ensures !HasBlockedKeyword(content) ==> r == content
  {
    var s1 := ReplaceAll(content, "バカ", "困った");
    var s2 := ReplaceAll(s1, "最悪", "つらい");
    var s3 := ReplaceAll(s2, "死ね", "");
    ReplacePairFree(s3, 'く', 'そ', "とても", 'く', 'そ');
    var s4 := ReplaceAll(s3, "くそ", "とても");
    ContainsPair(s4, 'く', 'そ');
    s4
  }

  /** The result when the model's reply is not JSON: appropriate, confidence 0.5. */
  const ParseFallback := ModerationResult(true, 0.5, Some(ParseFailedReason), None)

  /** The result on any other error: appropriate, confidence 0.0. */
  const ErrorFallback := ModerationResult(true, 0.0, Some(ErrorReason), None)

  /** `moderateContent(content)` given the outcome of the model call and the JSON parser. */
  function ModerateContent(content: string, reply: BedrockReply, parse: JsonParser): (r: ModerationResult)
    ensures HasBlockedKeyword(content) ==>
      r == ModerationResult(false, 0.8, Some(KeywordReason), Some(SuggestedEdit(content)))
    ensures !HasBlockedKeyword(content) ==>
      match reply
      case SendFailed => r == ErrorFallback
      case Replied(None) => r == ErrorFallback
      case Replied(Some(text)) =>
        if text == "" then r == ErrorFallback
        else if parse(text).Some? then r == parse(text).value
        else r == ParseFallback
    ensures !r.isAppropriate ==>
      HasBlockedKeyword(content) || (reply.Replied? && reply.text.Some? && parse(reply.text.value).Some?)
  {
    if HasBlockedKeyword(content) then
      ModerationResult(false, 0.8, Some(KeywordReason), Some(SuggestedEdit(content)))
    else
      match reply
      case SendFailed => ErrorFallback
      case Replied(t) =>
        if t.None? || t.value == "" then ErrorFallback
        else
          match parse(t.value)
          case Some(result) => result
          case None => ParseFallback
  }

  /** A gated content is decided without looking at the model at all. */
  lemma GateIgnoresModel(content: string, r1: BedrockReply, p1: JsonParser, r2: BedrockReply, p2: JsonParser)
    requires HasBlockedKeyword(content)
    ensures ModerateContent(content, r1, p1) == ModerateContent(content, r2, p2)
    ensures !ModerateContent(content, r1, p1).isAppropriate
  {
  }

  /** Every failure of the model path lets the post through. */
  lemma FailuresAreAppropriate(content: string, reply: BedrockReply, parse: JsonParser)
    requires !HasBlockedKeyword(content)
    requires reply.SendFailed? || reply.text.None? || reply.text.value == "" || parse(reply.text.value).None?
    ensures ModerateContent(content, reply, parse).isAppropriate
  {
  }

  /** The suggested edit is free of all four keywords when the content does not
      contain "死ね": none of the non-empty replacements can form a keyword. */
  lemma SuggestedEditClean(content: string)
    requires !Contains(content, "死ね")
    ensures !HasBlockedKeyword(SuggestedEdit(content))
  {
    var s1 := ReplaceAll(content, "バカ", "困った");
    var s2 := ReplaceAll(s1, "最悪", "つらい");
    var s3 := ReplaceAll(s2, "死ね", "");
    var s4 := ReplaceAll(s3, "くそ", "とても");
    ContainsPair(content, '死', 'ね');
    // step 1 removes バカ and cannot form 死ね
    ReplacePairFree(content, 'バ', 'カ', "困った", 'バ', 'カ');
    ReplacePairFree(content, 'バ', 'カ', "困った", '死', 'ね');
    // step 2 removes 最悪 and forms neither バカ nor 死ね
    ReplacePairFree(s1, '最', '悪', "つらい", '最', '悪');
    ReplacePairFree(s1, '最', '悪', "つらい", 'バ', 'カ');
    ReplacePairFree(s1, '最', '悪', "つらい", '死', 'ね');
    // step 3 has nothing to delete
    ContainsPair(s2, '死', 'ね');
    // step 4 removes くそ and forms none of the others
    ReplacePairFree(s3, 'く', 'そ', "とても", 'く', 'そ');
    ReplacePairFree(s3, 'く', 'そ', "とても", 'バ', 'カ');
    ReplacePairFree(s3, 'く', 'そ', "とても", '最', '悪');
    ReplacePairFree(s3, 'く', 'そ', "とても", '死', 'ね');
    ContainsPair(s4, 'バ', 'カ');
    ContainsPair(s4, '最', '悪');
    ContainsPair(s4, '死', 'ね');
    ContainsPair(s4, 'く', 'そ');
  }

  /** Deleting "死ね" can join its neighbours into a keyword: "バ死ねカ" is
      gated, and its suggested edit is "バカ", which would be gated again. */
  lemma DeletionCanFormKeyword()
    ensures HasBlockedKeyword("バ死ねカ")
    ensures SuggestedEdit("バ死ねカ") == "バカ"
    ensures HasBlockedKeyword(SuggestedEdit("バ死ねカ"))
  {
    var s := "バ死ねカ";
    assert IsPrefix("死ね", s[1..]);
    assert Contains(s, "死ね");
    assert ReplaceAll(s, "バカ", "困った") == s;
    assert ReplaceAll(s, "最悪", "つらい") == s;
    assert ReplaceAll(s, "死ね", "") == "バカ";
    assert ReplaceAll("バカ", "くそ", "とても") == "バカ";
    assert IsPrefix("バカ", "バカ");
  }
}
