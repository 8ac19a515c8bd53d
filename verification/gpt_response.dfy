/**
 * parseGptResponse: parse the model's reply as a JSON array and enrich every
 * record with `meaning` (a copy of `title`), `grammar` and `expression`
 * (the `/`-separated pieces of `after_detail` that mention grammar or
 * expression) and `before_intention` (an alias of `before_intent`).
 */
module GptResponse {
  import opened Js
  import opened Strings

  const FailurePrefix := "GPT 응답 파싱에 실패했습니다: "
  const NotArrayMessage := "GPT 응답이 배열 형식이 아닙니다"

  const GrammarKo := "문법"
  const GrammarEn := "grammar"
  const ExpressionKo := "표현"
  const ExpressionEn := "expression"

  /** The keys the enrichment writes over the spread of the input record. */
  const DerivedKeys: set<string> := {"meaning", "grammar", "expression", "before_intention"}

  predicate IsGrammarSegment(segment: string) {
    Includes(segment, GrammarKo) || Includes(segment, GrammarEn)
  }

  predicate IsExpressionSegment(segment: string) {
    Includes(segment, ExpressionKo) || Includes(segment, ExpressionEn)
  }

  /** extractGrammarPoints: the grammar segments of the details, untrimmed, joined by " / ". */
  function GrammarPoints(details: string): string {
    Join(Filter(Split(details, '/'), IsGrammarSegment), " / ")
  }

  /** extractExpressionPoints: the expression segments of the details, untrimmed, joined by " / ". */
  function ExpressionPoints(details: string): string {
    Join(Filter(Split(details, '/'), IsExpressionSegment), " / ")
  }

  /** A record the enrichment can handle: an object whose `after_detail` is a string. */
  predicate Enrichable(item: Value) {
    item.Obj? && Field(item.fields, "after_detail").Str?
  }

  /**
   * One step of `analysis.map(...)`: `{...item, meaning: item.title,
   * grammar, expression, before_intention: item.before_intent}`. None stands
   * for the TypeError thrown when `item` is null or `after_detail` is not a
   * string (it has no `split`).
   */
  function Enrich(item: Value): (r: Option<Value>)
    ensures r.Some? <==> Enrichable(item)
    ensures r.Some? ==> r.value.Obj? && r.value.fields.Keys == item.fields.Keys + DerivedKeys
  {
    if !Enrichable(item) then None
    else
      var details := Field(item.fields, "after_detail").s;
      Some(Obj(item.fields
        ["meaning" := Field(item.fields, "title")]
        ["grammar" := Str(GrammarPoints(details))]
        ["expression" := Str(ExpressionPoints(details))]
        ["before_intention" := Field(item.fields, "before_intent")]))
  }

  /** `analysis.map(Enrich)`, which stops at the first item that throws. */
  function EnrichAll(items: seq<Value>): (r: Option<seq<Value>>)
    ensures r.Some? <==> forall i :: 0 <= i < |items| ==> Enrichable(items[i])
    ensures r.Some? ==> |r.value| == |items|
    ensures r.Some? ==> forall i :: 0 <= i < |items| ==> Enrich(items[i]) == Some(r.value[i])
    decreases |items|
  {
    if |items| == 0 then Some([])
    else
      match (Enrich(items[0]), EnrichAll(items[1..]))
      case (Some(head), Some(tail)) => Some([head] + tail)
      case _ => None
  }

  /**
   * parseGptResponse. `jsonParse` is `JSON.parse` (Err carries the
   * SyntaxError's message); `typeErrorText` is the message of the TypeError
   * the runtime raises for a record without a string `after_detail`.
   * Every failure is rethrown as an Error whose message is the prefix
   * followed by the original message.
   */
  function ParseGptResponse(response: string, jsonParse: string -> Result<Value, string>, typeErrorText: string)
    : (r: Result<seq<Value>, string>)
    ensures r.Ok? <==> (jsonParse(response).Ok? && jsonParse(response).value.Arr?
                        && forall i :: 0 <= i < |jsonParse(response).value.items| ==>
                             Enrichable(jsonParse(response).value.items[i]))
    ensures r.Ok? ==> |r.value| == |jsonParse(response).value.items|
    ensures r.Ok? ==> forall i :: 0 <= i < |r.value| ==> Enrich(jsonParse(response).value.items[i]) == Some(r.value[i])
    ensures r.Err? ==> StartsWith(r.error, FailurePrefix)
    ensures jsonParse(response).Ok? && !jsonParse(response).value.Arr? ==> r == Err(FailurePrefix + NotArrayMessage)
  {
    match jsonParse(response)
    case Err(syntaxMessage) => Failed(syntaxMessage)
    case Ok(analysis) =>
      if !analysis.Arr? then Failed(NotArrayMessage)
      else
        match EnrichAll(analysis.items)
        case None => Failed(typeErrorText)
        case Some(records) => Ok(records)
  }

  /** The catch block: rethrow with the prefix in front of the original message. */
  function Failed(message: string): (r: Result<seq<Value>, string>)
    ensures r.Err? && StartsWith(r.error, FailurePrefix)
    ensures r.error[|FailurePrefix|..] == message
  {
    var m := FailurePrefix + message;
    assert m[..|FailurePrefix|] == FailurePrefix;
    Err(m)
  }

  /**
   * What an enriched record holds: `meaning` is the input's `title`,
   * `before_intention` its `before_intent` (undefined when absent),
   * `grammar` and `expression` are derived from `after_detail`, and every
   * other field is copied unchanged.
   */
  lemma EnrichedRecord(item: Value)
    requires Enrichable(item)
    ensures var out := Enrich(item).value.fields;
      var details := Field(item.fields, "after_detail").s;
      && out["meaning"] == Field(item.fields, "title")
      && out["before_intention"] == Field(item.fields, "before_intent")
      && out["grammar"] == Str(GrammarPoints(details))
      && out["expression"] == Str(ExpressionPoints(details))
      && (forall k :: k in item.fields && k !in DerivedKeys ==> k in out && out[k] == item.fields[k])
  {
  }

  /**
   * The grammar points are the matching segments of the split, in their
   * original order, each kept whole; nothing that matches is dropped.
   */
  lemma GrammarSegments(details: string)
    ensures var segments := Split(details, '/');
      var kept := Filter(segments, IsGrammarSegment);
      && GrammarPoints(details) == Join(kept, " / ")
      && IsSubsequence(kept, segments)
      && (forall x :: x in kept ==> IsGrammarSegment(x) && '/' !in x)
      && (forall x :: x in segments && IsGrammarSegment(x) ==> x in kept)
  {
    FilterIsSubsequence(Split(details, '/'), IsGrammarSegment);
  }

  /** Likewise for the expression points. */
  lemma ExpressionSegments(details: string)
    ensures var segments := Split(details, '/');
      var kept := Filter(segments, IsExpressionSegment);
      && ExpressionPoints(details) == Join(kept, " / ")
      && IsSubsequence(kept, segments)
      && (forall x :: x in kept ==> IsExpressionSegment(x) && '/' !in x)
      && (forall x :: x in segments && IsExpressionSegment(x) ==> x in kept)
  {
    FilterIsSubsequence(Split(details, '/'), IsExpressionSegment);
  }

  /** A segment that mentions a keyword is not empty. */
  lemma KeywordSegmentNonEmpty(segment: string, keyword: string)
    requires |keyword| > 0 && Includes(segment, keyword)
    ensures segment != ""
  {
  }

  /** The grammar field is "" exactly when no segment of the details mentions grammar. */
  lemma {:induction false} GrammarEmptyIffNoMatch(details: string)
    ensures GrammarPoints(details) == "" <==> forall x :: x in Split(details, '/') ==> !IsGrammarSegment(x)
  {
    var kept := Filter(Split(details, '/'), IsGrammarSegment);
    JoinEmpty(kept, " / ");
    if |kept| == 1 {
      assert kept[0] in kept;
      if Includes(kept[0], GrammarKo) { KeywordSegmentNonEmpty(kept[0], GrammarKo); }
      else { KeywordSegmentNonEmpty(kept[0], GrammarEn); }
    }
    if |kept| > 0 {
      assert kept[0] in kept;
    }
  }

  /** The expression field is "" exactly when no segment of the details mentions an expression. */
  lemma {:induction false} ExpressionEmptyIffNoMatch(details: string)
    ensures ExpressionPoints(details) == "" <==> forall x :: x in Split(details, '/') ==> !IsExpressionSegment(x)
  {
    var kept := Filter(Split(details, '/'), IsExpressionSegment);
    JoinEmpty(kept, " / ");
    if |kept| == 1 {
      assert kept[0] in kept;
      if Includes(kept[0], ExpressionKo) { KeywordSegmentNonEmpty(kept[0], ExpressionKo); }
      else { KeywordSegmentNonEmpty(kept[0], ExpressionEn); }
    }
    if |kept| > 0 {
      assert kept[0] in kept;
    }
  }
}
