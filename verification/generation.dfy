/**
 * The generation view (`Generation` component): the pipeline that turns the
 * analysis text into cards (strip code fences, pick out flat `{...}`
 * objects, keep those that parse to an object with the four required keys),
 * the recording/transcribing dot animation, and the view's state: the
 * cards, the current card, and the set of cards already saved.
 */
module Generation {
  import opened Js
  import opened Strings
  import Pager

  const Fence := "```"
  const JsonFence := "```json"

  /** The keys a card object must have; only their presence is checked. */
  const RequiredKeys: seq<string> := ["title", "before_sentence", "after_sentence", "after_detail"]

  // ---------------------------------------------------------------------
  // Cleaning: `.replace(/```json/g, '').replace(/```/g, '').trim()`

  function RemoveFences(s: string): string {
    ReplaceAll(s, Fence, "")
  }

  lemma NotFenceStart(y: string)
    requires |y| < 3 || y[0] != '`' || y[1] != '`' || y[2] != '`'
    ensures !StartsWith(y, Fence)
  {
    if |y| >= 3 {
      assert y[..3][0] == y[0] && y[..3][1] == y[1] && y[..3][2] == y[2];
    }
  }

  /** After removing every fence from left to right, no fence is left (none can form across a removal). */
  lemma {:induction false} NoFenceAfterRemoval(s: string)
    ensures !Includes(RemoveFences(s), Fence)
    decreases |s|
  {
    if |s| == 0 {
    } else if StartsWith(s, Fence) {
      assert |Fence| == 3;
      NoFenceAfterRemoval(s[3..]);
      assert RemoveFences(s) == "" + RemoveFences(s[3..]);
      assert RemoveFences(s) == RemoveFences(s[3..]);
    } else {
      NoFenceAfterRemoval(s[1..]);
      var x := RemoveFences(s[1..]);
      assert RemoveFences(s) == [s[0]] + x;
      assert ([s[0]] + x)[1..] == x;
      if s[0] == '`' {
        // s starts with a backtick but not with a fence: x cannot start with two backticks
        assert |x| < 2 || x[0] != '`' || x[1] != '`' by {
          if |s| == 1 {
            assert x == "";
          } else if |s| == 2 {
            assert RemoveFences(s[1..][1..]) == "";
            assert x == [s[1]] + "";
          } else if s[1] != '`' {
            assert !StartsWith(s[1..], Fence);
            assert x[0] == s[1];
          } else {
            assert s[2] != '`' by { assert s[..3] != Fence; }
            var t := s[1..];
            assert !StartsWith(t, Fence);
            assert x == [t[0]] + RemoveFences(t[1..]);
            assert t[1..] == s[2..];
            assert !StartsWith(s[2..], Fence);
            assert RemoveFences(s[2..]) == [s[2]] + RemoveFences(s[3..]);
            assert x[1] == s[2];
          }
        }
      }
      var y := [s[0]] + x;
      assert |y| < 3 || y[0] != '`' || y[1] != '`' || y[2] != '`' by {
        if |y| >= 3 { assert y[1] == x[0] && y[2] == x[1]; }
      }
      NotFenceStart(y);
    }
  }

  /**
   * The cleaned analysis text: no code fence remains, and it neither starts
   * nor ends with white space; it is a substring of the text with the fences
   * removed.
   */
  function CleanAnalysis(text: string): (r: string)
    ensures !Includes(r, Fence)
    ensures |r| > 0 ==> !IsJsSpace(r[0]) && !IsJsSpace(r[|r| - 1])
    ensures IsTrimOf(r, RemoveFences(ReplaceAll(text, JsonFence, "")))
  {
    var removed := RemoveFences(ReplaceAll(text, JsonFence, ""));
    NoFenceAfterRemoval(ReplaceAll(text, JsonFence, ""));
    var r := Trim(removed);
    var a, b :| 0 <= a <= b <= |removed| && r == removed[a..b];
    IncludesOfSlice(removed, Fence, a, b);
    r
  }

  // ---------------------------------------------------------------------
  // Candidates: `jsonStr.match(/\{[^{}]*\}/g)`

  predicate IsBrace(c: char) {
    c == '{' || c == '}'
  }

  /** s[a..b] is a flat object: `{`, no brace, `}`. */
  ghost predicate FlatAt(s: string, a: int, b: int) {
    && 0 <= a && a + 2 <= b <= |s|
    && s[a] == '{' && s[b - 1] == '}'
    && forall i :: a < i < b - 1 ==> !IsBrace(s[i])
  }

  /** The first brace at or after k (|s| when there is none). */
  function NextBrace(s: string, k: nat): (j: nat)
    requires k <= |s|
    ensures k <= j <= |s|
    ensures j < |s| ==> IsBrace(s[j])
    ensures forall i :: k <= i < j ==> !IsBrace(s[i])
    decreases |s| - k
  {
    if k == |s| || IsBrace(s[k]) then k else NextBrace(s, k + 1)
  }

  /**
   * The global match from position k: at a `{` whose next brace is a `}`
   * the regex matches up to that `}` and resumes after it; anywhere else it
   * moves one character on. The spans are exactly the flat objects of s
   * that start at or after k, in increasing order.
   */
  function Spans(s: string, k: nat): (spans: seq<(nat, nat)>)
    requires k <= |s|
    ensures forall n :: 0 <= n < |spans| ==> k <= spans[n].0 && FlatAt(s, spans[n].0, spans[n].1)
    ensures forall m, n :: 0 <= m < n < |spans| ==> spans[m].1 <= spans[n].0
    ensures forall a, b :: k <= a && FlatAt(s, a, b) ==> (a, b) in spans
    decreases |s| - k
  {
    if k == |s| then []
    else if s[k] == '{' then
      var j := NextBrace(s, k + 1);
      if j < |s| && s[j] == '}' then
        var rest := Spans(s, j + 1);
        assert forall a, b :: k <= a && FlatAt(s, a, b) ==> a == k || j + 1 <= a by {
          forall a, b | k <= a && FlatAt(s, a, b) && a != k ensures j + 1 <= a {
            assert IsBrace(s[a]);
          }
        }
        assert forall b :: FlatAt(s, k, b) ==> b == j + 1 by {
          forall b | FlatAt(s, k, b) ensures b == j + 1 {
            assert IsBrace(s[b - 1]);
          }
        }
        [(k, j + 1)] + rest
      else
        assert forall b :: !FlatAt(s, k, b) by {
          forall b | FlatAt(s, k, b) ensures false {
            assert IsBrace(s[b - 1]);
          }
        }
        Spans(s, k + 1)
    else Spans(s, k + 1)
  }

  /** The matched substrings, in order; [] stands for `match` returning null. */
  function Candidates(s: string): (cs: seq<string>)
    ensures forall n :: 0 <= n < |cs| ==> |cs[n]| >= 2 && cs[n][0] == '{' && cs[n][|cs[n]| - 1] == '}'
    ensures forall n :: 0 <= n < |cs| ==> forall i :: 0 < i < |cs[n]| - 1 ==> !IsBrace(cs[n][i])
  {
    var spans := Spans(s, 0);
    seq(|spans|, n requires 0 <= n < |spans| => s[spans[n].0..spans[n].1])
  }

  // ---------------------------------------------------------------------
  // Validation: parse each candidate and keep the objects with the required keys

  /** `obj && typeof obj === 'object' && 'title' in obj && ...` */
  predicate IsCard(v: Value) {
    v.Obj? && forall k :: k in RequiredKeys ==> k in v.fields
  }

  /** The `map(...).filter(Boolean)`: a failed parse or a non-card becomes null and is dropped. */
  function KeepCards(candidates: seq<string>, jsonParse: string -> Option<Value>): (cards: seq<Value>)
    ensures |cards| <= |candidates|
    ensures forall v :: v in cards ==> IsCard(v) && exists c :: c in candidates && jsonParse(c) == Some(v)
    ensures forall c :: c in candidates && jsonParse(c).Some? && IsCard(jsonParse(c).value) ==>
      jsonParse(c).value in cards
    ensures cards == [] <==> forall c :: c in candidates ==> !(jsonParse(c).Some? && IsCard(jsonParse(c).value))
    decreases |candidates|
  {
    if |candidates| == 0 then []
    else
      var rest := KeepCards(candidates[1..], jsonParse);
      assert forall c :: c in candidates[1..] ==> c in candidates;
      assert forall c :: c in candidates ==> c == candidates[0] || c in candidates[1..];
      match jsonParse(candidates[0])
      case Some(v) => if IsCard(v) then [v] + rest else rest
      case None => rest
  }

  /** The `map` step alone: the parsed object when it is a card, null otherwise. */
  function Validated(candidate: string, jsonParse: string -> Option<Value>): (v: Value)
    ensures Truthy(v) <==> jsonParse(candidate).Some? && IsCard(jsonParse(candidate).value)
    ensures Truthy(v) ==> jsonParse(candidate) == Some(v)
  {
    match jsonParse(candidate)
    case Some(v) => if IsCard(v) then v else Null
    case None => Null
  }

  /** `candidates.map(...)`, one value per candidate. */
  function ValidatedAll(candidates: seq<string>, jsonParse: string -> Option<Value>): (vs: seq<Value>)
    ensures |vs| == |candidates|
    ensures forall i :: 0 <= i < |candidates| ==> vs[i] == Validated(candidates[i], jsonParse)
  {
    seq(|candidates|, i requires 0 <= i < |candidates| => Validated(candidates[i], jsonParse))
  }

  /**
   * The kept cards are exactly `candidates.map(...).filter(Boolean)`: the
   * valid cards, in the order of their candidates, repeats included.
   */
  lemma {:induction false} KeepCardsIsMapThenFilter(candidates: seq<string>, jsonParse: string -> Option<Value>)
    ensures KeepCards(candidates, jsonParse) == Filter(ValidatedAll(candidates, jsonParse), Truthy)
    ensures IsSubsequence(KeepCards(candidates, jsonParse), ValidatedAll(candidates, jsonParse))
    decreases |candidates|
  {
    var vs := ValidatedAll(candidates, jsonParse);
    if |candidates| > 0 {
      KeepCardsIsMapThenFilter(candidates[1..], jsonParse);
      assert vs[1..] == ValidatedAll(candidates[1..], jsonParse);
      assert vs == [vs[0]] + vs[1..];
    }
    FilterIsSubsequence(vs, Truthy);
  }

  /**
   * The whole effect body: None when no flat object is found (the thrown
   * and caught error); otherwise the valid cards, which may be none.
   */
  function ExtractCards(analysisResult: string, jsonParse: string -> Option<Value>): (r: Option<seq<Value>>)
    ensures r.None? <==> Candidates(CleanAnalysis(analysisResult)) == []
    ensures r.Some? ==> r.value == KeepCards(Candidates(CleanAnalysis(analysisResult)), jsonParse)
  {
    var candidates := Candidates(CleanAnalysis(analysisResult));
    if |candidates| == 0 then None else Some(KeepCards(candidates, jsonParse))
  }

  /** The candidates are exactly the flat objects of the cleaned text, left to right, without overlap. */
  lemma CandidatesAreTheFlatObjects(s: string)
    ensures var spans := Spans(s, 0);
      && (forall n :: 0 <= n < |spans| ==> FlatAt(s, spans[n].0, spans[n].1)
                                           && Candidates(s)[n] == s[spans[n].0..spans[n].1])
      && (forall m, n :: 0 <= m < n < |spans| ==> spans[m].1 <= spans[n].0)
      && (forall a, b :: FlatAt(s, a, b) ==> (a, b) in spans)
  {
  }

  // ---------------------------------------------------------------------
  // The dot animation: '' -> '.' -> '..' -> '...' -> ''

  function NextDots(dots: string): (r: string)
    ensures |r| <= 3
  {
    if dots == "" then "."
    else if dots == "." then ".."
    else if dots == ".." then "..."
    else ""
  }

  function Ticks(dots: string, n: nat): string
    decreases n
  {
    if n == 0 then dots else Ticks(NextDots(dots), n - 1)
  }

  /** The animation has period exactly 4 from '' (and from any of its four frames). */
  lemma DotsCycle(dots: string)
    requires dots in {"", ".", "..", "..."}
    ensures Ticks(dots, 4) == dots
    ensures Ticks(dots, 1) != dots && Ticks(dots, 2) != dots && Ticks(dots, 3) != dots
  {
  }

  /** Any other value (never produced) falls back to '' after one tick. */
  lemma DotsRecover(dots: string)
    requires dots !in {"", ".", ".."}
    ensures NextDots(dots) == ""
  {
  }

  // ---------------------------------------------------------------------
  // The explanation of the card on show: one bullet per '/'-separated reason

  /** `"* " + detail.trim()` for every piece of `after_detail.split('/')`. */
  function Bullets(pieces: seq<string>): (lines: seq<string>)
    ensures |lines| == |pieces|
    ensures forall i :: 0 <= i < |pieces| ==> lines[i] == "* " + Trim(pieces[i])
  {
    seq(|pieces|, i requires 0 <= i < |pieces| => "* " + Trim(pieces[i]))
  }

  /** The markdown list under the explanation heading. */
  function DetailBullets(detail: string): string {
    Join(Bullets(Split(detail, '/')), "\n")
  }

  /**
   * For an explanation on one line, the list has exactly one line per
   * '/'-separated reason, in order, each the reason trimmed behind a bullet.
   */
  lemma BulletPerReason(detail: string)
    requires '\n' !in detail
    ensures Split(DetailBullets(detail), '\n') == Bullets(Split(detail, '/'))
    ensures |Split(DetailBullets(detail), '\n')| == |Split(detail, '/')|
  {
    var pieces := Split(detail, '/');
    var lines := Bullets(pieces);
    JoinSplit(detail, '/');
    forall i | 0 <= i < |lines| ensures '\n' !in lines[i] {
      NoBreakInPiece(pieces, i, detail);
      BulletHasNoBreak(pieces[i]);
    }
    SplitUnique(lines, '\n');
  }

  /** A bullet made of a piece without line breaks has none either. */
  lemma BulletHasNoBreak(piece: string)
    requires '\n' !in piece
    ensures '\n' !in "* " + Trim(piece)
  {
    var a, b :| 0 <= a <= b <= |piece| && Trim(piece) == piece[a..b];
    assert forall c :: c in piece[a..b] ==> c in piece;
  }

  /** A piece of a split of a text without line breaks has none either. */
  lemma NoBreakInPiece(pieces: seq<string>, i: nat, detail: string)
    requires i < |pieces| && Join(pieces, "/") == detail && '\n' !in detail
    ensures '\n' !in pieces[i]
  {
    JoinContainsPieces(pieces, "/", i);
    var p := pieces[i];
    forall k | 0 <= k < |p| ensures p[k] != '\n' {
      assert p[k] in Join(pieces, "/");
    }
  }

  // ---------------------------------------------------------------------
  // Reading the analysis reply (the try block of `handleAnalyze`)

  /**
   * The value `handleAnalyze` hands to `onAnalysisComplete`: a reply that
   * starts with `[` and ends with `]` is parsed as it is; any other reply is
   * parsed and its `content` is taken, parsed again when it is a string.
   * Err is the parse or type error that ends in the alert. A reply that is
   * not an object (an array with white space round it, say) has no
   * `content`, and undefined is handed up.
   */
  function DecodeAnalysis(responseText: string, jsonParse: string -> Result<Value, string>, typeErrorText: string)
    : (r: Result<Value, string>)
    ensures StartsWith(responseText, "[") && EndsWith(responseText, "]") ==> r == jsonParse(responseText)
    ensures jsonParse(responseText).Err? ==> r == jsonParse(responseText)
    ensures !(StartsWith(responseText, "[") && EndsWith(responseText, "]")) && jsonParse(responseText).Ok?
            && (jsonParse(responseText).value.Null? || jsonParse(responseText).value.Undefined?) ==>
      r == Err(typeErrorText)
    ensures !(StartsWith(responseText, "[") && EndsWith(responseText, "]")) && jsonParse(responseText).Ok?
            && !jsonParse(responseText).value.Obj?
            && !jsonParse(responseText).value.Null? && !jsonParse(responseText).value.Undefined? ==>
      r == Ok(Undefined)
  {
    if StartsWith(responseText, "[") && EndsWith(responseText, "]") then jsonParse(responseText)
    else
      match jsonParse(responseText)
      case Err(e) => Err(e)
      case Ok(data) =>
        match Member(data, "content")
        case None => Err(typeErrorText)
        case Some(content) => if content.Str? then jsonParse(content.s) else Ok(content)
  }

  /**
   * A reply that is an object without a `content` string is handed up as
   * it is read: without the key, `onAnalysisComplete` receives undefined
   * rather than an error.
   */
  lemma ContentlessReplyHandsUpUndefined(responseText: string, jsonParse: string -> Result<Value, string>,
                                         typeErrorText: string, fields: map<string, Value>)
    requires !(StartsWith(responseText, "[") && EndsWith(responseText, "]")) && jsonParse(responseText) == Ok(Obj(fields))
    ensures "content" !in fields ==> DecodeAnalysis(responseText, jsonParse, typeErrorText) == Ok(Undefined)
    ensures "content" in fields && !fields["content"].Str? ==>
      DecodeAnalysis(responseText, jsonParse, typeErrorText) == Ok(fields["content"])
  {
  }

  /** A reply whose `content` is a string (the JSON text of the cards) has that string parsed in turn. */
  lemma ContentStringParsedAgain(responseText: string, jsonParse: string -> Result<Value, string>,
                                 typeErrorText: string, fields: map<string, Value>, content: string)
    requires !(StartsWith(responseText, "[") && EndsWith(responseText, "]")) && jsonParse(responseText) == Ok(Obj(fields))
    requires "content" in fields && fields["content"] == Str(content)
    ensures DecodeAnalysis(responseText, jsonParse, typeErrorText) == jsonParse(content)
  {
  }

  // ---------------------------------------------------------------------
  // Saving

  /** The situation row `handleSaveCard` inserts first. */
  datatype SituationInsert = SituationInsert(title: string, kind: string, description: string, datelist: seq<string>)

  /** The correction row `handleSaveCard` inserts second. */
  datatype CorrectionInsert = CorrectionInsert(
    title: string, situationId: string,
    beforeSentence: Value, beforeIntention: Value, afterSentence: Value, afterDetail: Value,
    meaning: Value, grammar: Value, expression: Value,
    datelist: seq<string>, score: int)

  const SituationTitle := "음성 학습 기록"
  const CardTitlePrefix := "음성 분석 "

  function SituationFor(transcript: string, today: string): SituationInsert {
    SituationInsert(SituationTitle, "speech", transcript, [today])
  }

  /**
   * The correction row for card number cardIndex; None is the TypeError of
   * reading a field of a missing card.
   */
  function CorrectionFor(card: Value, cardIndex: int, situationId: string, today: string): (r: Option<CorrectionInsert>)
    ensures r.None? <==> card.Undefined? || card.Null?
    ensures r.Some? ==> && r.value.title == CardTitlePrefix + IntToString(cardIndex + 1)
                        && r.value.situationId == situationId
                        && r.value.score == 0 && r.value.datelist == [today]
                        && (r.value.meaning == Null || Truthy(r.value.meaning))
                        && (r.value.grammar == Null || Truthy(r.value.grammar))
                        && (r.value.expression == Null || Truthy(r.value.expression))
    ensures r.Some? ==> && Member(card, "before_sentence") == Some(r.value.beforeSentence)
                        && Member(card, "before_intent") == Some(r.value.beforeIntention)
                        && Member(card, "after_sentence") == Some(r.value.afterSentence)
                        && Member(card, "after_detail") == Some(r.value.afterDetail)
    ensures r.Some? ==> && (Truthy(Member(card, "meaning").value) ==> Member(card, "meaning") == Some(r.value.meaning))
                        && (Truthy(Member(card, "grammar").value) ==> Member(card, "grammar") == Some(r.value.grammar))
                        && (Truthy(Member(card, "expression").value) ==> Member(card, "expression") == Some(r.value.expression))
    ensures r.Some? ==> && (!Truthy(Member(card, "meaning").value) ==> r.value.meaning == Null)
                        && (!Truthy(Member(card, "grammar").value) ==> r.value.grammar == Null)
                        && (!Truthy(Member(card, "expression").value) ==> r.value.expression == Null)
  {
    if card.Undefined? || card.Null? then None
    else
      Some(CorrectionInsert(
        CardTitlePrefix + IntToString(cardIndex + 1), situationId,
        OptionalMember(card, "before_sentence"), OptionalMember(card, "before_intent"),
        OptionalMember(card, "after_sentence"), OptionalMember(card, "after_detail"),
        Or(OptionalMember(card, "meaning"), Null), Or(OptionalMember(card, "grammar"), Null),
        Or(OptionalMember(card, "expression"), Null),
        [today], 0))
  }

  /** `analysisCards[cardIndex]`, undefined out of range. */
  function CardAt(cards: seq<Value>, cardIndex: int): Value {
    if 0 <= cardIndex < |cards| then cards[cardIndex] else Undefined
  }

  class GenerationView {
    var analysisCards: seq<Value>
    var currentCardIndex: int
    var savedCardIndices: set<int>
    var whisperResult: string
    var recordingDots: string
    var transcribingDots: string

    constructor ()
      ensures analysisCards == [] && currentCardIndex == 0 && savedCardIndices == {}
      ensures whisperResult == "" && recordingDots == "" && transcribingDots == ""
    {
      analysisCards := [];
      currentCardIndex := 0;
      savedCardIndices := {};
      whisperResult := "";
      recordingDots := "";
      transcribingDots := "";
    }

    /** The text area (or the transcription) sets the transcript. */
    method SetTranscript(text: string)
      modifies this`whisperResult
      ensures whisperResult == text
    {
      whisperResult := text;
    }

    /** One 500 ms tick of the recording animation. */
    method TickRecording()
      modifies this`recordingDots
      ensures recordingDots == NextDots(old(recordingDots))
    {
      recordingDots := NextDots(recordingDots);
    }

    /** One 500 ms tick of the transcribing animation. */
    method TickTranscribing()
      modifies this`transcribingDots
      ensures transcribingDots == NextDots(old(transcribingDots))
    {
      transcribingDots := NextDots(transcribingDots);
    }

    /**
     * The effect run when `analysisResult` changes: an empty result does
     * nothing; a result with no flat object leaves the cards as they were;
     * otherwise the cards become the valid ones. The current index and the
     * saved set are not reset.
     */
    method OnAnalysisResult(analysisResult: string, jsonParse: string -> Option<Value>)
      modifies this`analysisCards
      ensures analysisResult == "" ==> analysisCards == old(analysisCards)
      ensures analysisResult != "" ==>
        analysisCards == match ExtractCards(analysisResult, jsonParse)
                         case None => old(analysisCards)
                         case Some(cards) => cards
      ensures forall v :: v in analysisCards && v !in old(analysisCards) ==> IsCard(v)
    {
      if analysisResult != "" {
        var extracted := ExtractCards(analysisResult, jsonParse);
        if extracted.Some? {
          analysisCards := extracted.value;
        }
      }
    }

    method PrevCard()
      modifies this`currentCardIndex
      ensures currentCardIndex == Pager.PrevIndex(old(currentCardIndex))
    {
      currentCardIndex := Pager.PrevIndex(currentCardIndex);
    }

    method NextCard()
      modifies this`currentCardIndex
      ensures currentCardIndex == Pager.NextIndex(old(currentCardIndex), |analysisCards|)
    {
      currentCardIndex := Pager.NextIndex(currentCardIndex, |analysisCards|);
    }

    /**
     * handleSaveCard. `situation` is the outcome of the situation insert
     * (its id, or the error), `inserted` whether the correction insert
     * succeeded. A card already saved is a no-op; the index is added only
     * when both inserts succeed.
     */
    method SaveCard(cardIndex: int, today: string, situation: Result<string, string>, inserted: bool)
      returns (situationSent: Option<SituationInsert>, correctionSent: Option<CorrectionInsert>)
      modifies this`savedCardIndices
      ensures cardIndex in old(savedCardIndices) ==>
        situationSent == None && correctionSent == None && savedCardIndices == old(savedCardIndices)
      ensures cardIndex !in old(savedCardIndices) ==> situationSent == Some(SituationFor(whisperResult, today))
      ensures correctionSent.Some? <==>
        cardIndex !in old(savedCardIndices) && situation.Ok?
        && CorrectionFor(CardAt(analysisCards, cardIndex), cardIndex, situation.value, today).Some?
      ensures correctionSent.Some? ==>
        correctionSent == CorrectionFor(CardAt(analysisCards, cardIndex), cardIndex, situation.value, today)
      ensures savedCardIndices == if correctionSent.Some? && inserted then old(savedCardIndices) + {cardIndex}
                                  else old(savedCardIndices)
    {
      situationSent, correctionSent := None, None;
      if cardIndex in savedCardIndices {
        return;
      }
      situationSent := Some(SituationFor(whisperResult, today));
      if situation.Err? {
        return;
      }
      correctionSent := CorrectionFor(CardAt(analysisCards, cardIndex), cardIndex, situation.value, today);
      if correctionSent.Some? && inserted {
        savedCardIndices := savedCardIndices + {cardIndex};
      }
    }

    /**
     * handleSaveAll as it stands: with cards, a transcript and a signed-in
     * user it marks every card saved without calling the store.
     */
    method SaveAll(isAuthenticated: bool)
      modifies this`savedCardIndices
      ensures if |analysisCards| > 0 && whisperResult != "" && isAuthenticated
              then savedCardIndices == Pager.Indices(|analysisCards|)
              else savedCardIndices == old(savedCardIndices)
    {
      if |analysisCards| == 0 || whisperResult == "" {
        return;
      }
      if !isAuthenticated {
        return;
      }
      savedCardIndices := Pager.Indices(|analysisCards|);
    }
  }
}
