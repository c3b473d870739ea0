/** `moderateContentWithMastra`: the JSON object is cut out of the agent's reply
    (from the first `{` to the last `}` after it, the greedy match of
    `/\{[\s\S]*\}/`) and parsed. On failure this call site falls back to
    "inappropriate", the opposite direction of `ModerateContent`. */
module MastraModeration {
  import opened Wrappers
  import Moderation

  /** What the agent produced: the lookup or the call threw, or the reply text. */
  datatype AgentReply = AgentFailed | Generated(text: string)

  const ParseFailedReason := "レスポンスの解析に失敗しました。安全のため確認が必要です。"
  const ParseFailedEdit := "より適切な表現に修正してください。"
  const ErrorReason := "コンテンツモデレーションサービスでエラーが発生しました。"
  const ErrorEdit := "内容を確認して再度投稿してください。"

  /** No JSON span, or a span that is not JSON: inappropriate, confidence 0.5. */
  const ParseFallback := Moderation.ModerationResult(false, 0.5, Some(ParseFailedReason), Some(ParseFailedEdit))

  /** The agent lookup or call failed: inappropriate, confidence 0.0. */
  const ErrorFallback := Moderation.ModerationResult(false, 0.0, Some(ErrorReason), Some(ErrorEdit))

  /** The index of the first `c` in `s`. */
  function FirstIndexOf(s: string, c: char): (r: Option<nat>)
    ensures r.Some? ==> r.value < |s| && s[r.value] == c && forall k :: 0 <= k < r.value ==> s[k] != c
    ensures r.None? ==> forall k :: 0 <= k < |s| ==> s[k] != c
    decreases |s|
  {
    if s == [] then None
    else if s[0] == c then Some(0)
    else
      match FirstIndexOf(s[1..], c)
      case None => None
      case Some(i) => Some(i + 1)
  }

  /** The index of the last `c` among the first `n` characters of `s`. */
  function LastIndexBefore(s: string, c: char, n: nat): (r: Option<nat>)
    requires n <= |s|
    ensures r.Some? ==> r.value < n && s[r.value] == c && forall k :: r.value < k < n ==> s[k] != c
    ensures r.None? ==> forall k :: 0 <= k < n ==> s[k] != c
    decreases n
  {
    if n == 0 then None
    else if s[n - 1] == c then Some(n - 1)
    else LastIndexBefore(s, c, n - 1)
  }

  /** The index of the last `c` in `s`. */
  function LastIndexOf(s: string, c: char): (r: Option<nat>)
    ensures r.Some? ==> r.value < |s| && s[r.value] == c && forall k :: r.value < k < |s| ==> s[k] != c
    ensures r.None? ==> forall k :: 0 <= k < |s| ==> s[k] != c
  {
    LastIndexBefore(s, c, |s|)
  }

  /** `text.match(/\{[\s\S]*\}/)?.[0]`: the span from the first `{` to the last
      `}`, when some `}` comes after the first `{`. */
  function ExtractJson(text: string): (span: Option<string>)
    ensures span.Some? ==> |span.value| >= 2 && span.value[0] == '{' && span.value[|span.value| - 1] == '}'
  {
    match (FirstIndexOf(text, '{'), LastIndexOf(text, '}'))
    case (Some(i), Some(j)) =>
      if i < j then Some(text[i..j + 1]) else None
    case _ => None
  }

  /** The span is the piece of the reply from its first `{` to its last `}`. */
  lemma ExtractJsonSpan(text: string)
    requires ExtractJson(text).Some?
    ensures exists i, j ::
              && 0 <= i < j < |text| && ExtractJson(text).value == text[i..j + 1]
              && text[i] == '{' && text[j] == '}'
              && (forall k :: 0 <= k < i ==> text[k] != '{')
              && (forall k :: j < k < |text| ==> text[k] != '}')
  {
    var i, j := FirstIndexOf(text, '{').value, LastIndexOf(text, '}').value;
    assert ExtractJson(text).value == text[i..j + 1];
  }

  /** There is no span exactly when no `}` follows a `{`. */
  lemma ExtractJsonNone(text: string)
    ensures ExtractJson(text).None? <==>
      forall i, j :: 0 <= i < j < |text| && text[i] == '{' ==> text[j] != '}'
  {
    var first, last := FirstIndexOf(text, '{'), LastIndexOf(text, '}');
    if first.Some? && last.Some? && first.value < last.value {
      assert text[first.value] == '{' && text[last.value] == '}';
    }
  }

  /** `moderateContentWithMastra(content)` given the agent's outcome and the JSON parser. */
  function ModerateWithMastra(reply: AgentReply, parse: Moderation.JsonParser): (r: Moderation.ModerationResult)
    ensures reply.AgentFailed? ==> r == ErrorFallback
    ensures reply.Generated? ==>
      match ExtractJson(reply.text)
      case None => r == ParseFallback
      case Some(span) => r == (if parse(span).Some? then parse(span).value else ParseFallback)
    ensures r.isAppropriate ==>
      reply.Generated? && ExtractJson(reply.text).Some? && parse(ExtractJson(reply.text).value) == Some(r)
  {
    match reply
    case AgentFailed => ErrorFallback
    case Generated(text) =>
      match ExtractJson(text)
      case None => ParseFallback
      case Some(span) =>
        match parse(span)
        case Some(result) => result
        case None => ParseFallback
  }

  /** The two fallbacks of this call site block the post and still say why and what to do. */
  lemma FallbacksBlockWithAdvice()
    ensures !ParseFallback.isAppropriate && !ErrorFallback.isAppropriate
    ensures ParseFallback.reason.Some? && |ParseFallback.reason.value| > 0
    ensures ParseFallback.suggestedEdit.Some? && |ParseFallback.suggestedEdit.value| > 0
    ensures ErrorFallback.reason.Some? && |ErrorFallback.reason.value| > 0
    ensures ErrorFallback.suggestedEdit.Some? && |ErrorFallback.suggestedEdit.value| > 0
  {
  }

  /** The two call sites fall back in opposite directions: on a model failure the
      Bedrock path lets content through and this one blocks it. */
  lemma OppositeFallbacks(content: string, parse: Moderation.JsonParser)
    requires !Moderation.HasBlockedKeyword(content)
    ensures Moderation.ModerateContent(content, Moderation.SendFailed, parse).isAppropriate
    ensures !ModerateWithMastra(AgentFailed, parse).isAppropriate
  {
  }

  /** The span around a reply's JSON object: prose before and after is ignored. */
  lemma ExtractFromProse()
    ensures ExtractJson("ok {x} end") == Some("{x}")
  {
    var t := "ok {x} end";
    assert FirstIndexOf(t, '{') == Some(3);
    assert LastIndexBefore(t, '}', 6) == Some(5);
    assert LastIndexBefore(t, '}', 8) == Some(5);
    assert LastIndexOf(t, '}') == Some(5);
    assert t[3..6] == "{x}";
  }

  /** A reply with a `}` only before its first `{` has no span. */
  lemma NoSpanWhenBracesReversed()
    ensures ExtractJson("} {") == None
  {
    var t := "} {";
    assert FirstIndexOf(t, '{') == Some(2);
    assert LastIndexBefore(t, '}', 1) == Some(0);
    assert LastIndexOf(t, '}') == Some(0);
  }
}
