/**
 * The review container (`FlashcardContainer`): it loads the stored
 * corrections, shows one at a time front (title) or back (the full answer
 * with its `<Before>`/`<After>` tags turned into headings), and steps
 * through them; stepping past the last card records a review (the date is
 * appended, the score goes up by one) and wraps round to the first card.
 */
module FlashcardReview {
  import opened Js
  import opened Strings
  import Pager

  /**
   * One row of `corrections_with_answers` as the store returns it. The
   * text columns are passed through and kept as values; `datelist` and
   * `score` are typed columns that may be null (None); the answers are JSON
   * columns of any shape; `situations` is whatever the join yields.
   */
  datatype RawRow = RawRow(
    id: string, title: Value, beforeSentence: Value, beforeIntention: Value,
    afterSentence: Value, afterDetail: Value,
    datelist: Option<seq<string>>, score: Option<int>,
    answerFirst: Value, answerFull: Value, situations: Value)

  /** A correction as the container keeps it. */
  datatype Card = Card(
    id: string, situationId: Value, title: Value, beforeSentence: Value, beforeIntention: Value,
    afterSentence: Value, afterDetail: Value,
    meaning: string, grammar: string, expression: string,
    datelist: seq<string>, score: int,
    createdAt: string, updatedAt: string,
    answerFirst: Value, answerFull: Value)

  /** `a ?? b` */
  function Nullish(a: Value, b: Value): (r: Value)
    ensures r == a || r == b
    ensures (!r.Undefined? && !r.Null?) || r == b
    ensures !a.Undefined? && !a.Null? ==> r == a
  {
    if a.Undefined? || a.Null? then b else a
  }

  /**
   * `typeof v === 'string' ? v : JSON.stringify(v)`. `stringify` is
   * `JSON.stringify`; None is its `undefined` result (for `undefined`
   * itself, among others).
   */
  function AnswerText(v: Value, stringify: Value -> Option<string>): (r: Value)
    ensures r.Str? || r.Undefined?
    ensures v.Str? ==> r == v
    ensures !v.Str? ==> (r.Str? <==> stringify(v).Some?)
    ensures !v.Str? && stringify(v).Some? ==> r == Str(stringify(v).value)
  {
    if v.Str? then v
    else match stringify(v)
      case Some(text) => Str(text)
      case None => Undefined
  }

  /** `item.situations?.[0]?.id ?? ''` */
  function SituationId(situations: Value): (r: Value)
    ensures !r.Undefined? && !r.Null?
    ensures situations.Arr? && |situations.items| > 0 && situations.items[0].Obj?
            && "id" in situations.items[0].fields
            && !situations.items[0].fields["id"].Null? && !situations.items[0].fields["id"].Undefined?
            ==> r == situations.items[0].fields["id"]
    ensures !situations.Arr? && !situations.Obj? && !situations.Str? ==> r == Str("")
    ensures situations.Obj? && "0" !in situations.fields ==> r == Str("")
  {
    Nullish(OptionalMember(OptionalFirst(situations), "id"), Str(""))
  }

  /**
   * The `data.map(...)` step for one row: the row's own columns are kept;
   * the derived text fields are empty; a null date list becomes [] and a
   * null score 0; the answers become text (or undefined).
   */
  function ProcessRow(row: RawRow, stringify: Value -> Option<string>): (c: Card)
    ensures c.id == row.id && c.title == row.title && c.beforeSentence == row.beforeSentence
            && c.beforeIntention == row.beforeIntention && c.afterSentence == row.afterSentence
            && c.afterDetail == row.afterDetail
    ensures c.meaning == "" && c.grammar == "" && c.expression == "" && c.createdAt == "" && c.updatedAt == ""
    ensures c.datelist == if row.datelist.Some? then row.datelist.value else []
    ensures c.score == if row.score.Some? then row.score.value else 0
    ensures c.answerFirst.Str? || c.answerFirst.Undefined?
    ensures c.answerFull.Str? || c.answerFull.Undefined?
    ensures !c.situationId.Undefined? && !c.situationId.Null?
    ensures c.situationId == SituationId(row.situations)
    ensures c.answerFirst == AnswerText(row.answerFirst, stringify)
    ensures c.answerFull == AnswerText(row.answerFull, stringify)
  {
    Card(
      row.id, SituationId(row.situations), row.title, row.beforeSentence, row.beforeIntention,
      row.afterSentence, row.afterDetail,
      "", "", "",
      if row.datelist.Some? then row.datelist.value else [],
      if row.score.Some? && row.score.value != 0 then row.score.value else 0,
      "", "",
      AnswerText(row.answerFirst, stringify), AnswerText(row.answerFull, stringify))
  }

  /** `data.map(...)`: the rows processed one for one, in order. */
  function ProcessRows(rows: seq<RawRow>, stringify: Value -> Option<string>): (cards: seq<Card>)
    ensures |cards| == |rows|
    ensures forall i :: 0 <= i < |rows| ==> cards[i] == ProcessRow(rows[i], stringify)
    ensures forall i :: 0 <= i < |rows| ==> cards[i].id == rows[i].id
  {
    seq(|rows|, i requires 0 <= i < |rows| => ProcessRow(rows[i], stringify))
  }

  // ---------------------------------------------------------------------
  // The back of the card: `answer_full?.replace(/<(Before|After)>/g, '### $1\n\n') || ''`

  const BeforeTag := "<Before>"
  const AfterTag := "<After>"
  const BeforeHeading := "### Before\n\n"
  const AfterHeading := "### After\n\n"

  /** The global replacement, scanning left to right. */
  function ReplaceTags(s: string): string
    decreases |s|
  {
    if |s| == 0 then ""
    else if StartsWith(s, BeforeTag) then BeforeHeading + ReplaceTags(s[|BeforeTag|..])
    else if StartsWith(s, AfterTag) then AfterHeading + ReplaceTags(s[|AfterTag|..])
    else [s[0]] + ReplaceTags(s[1..])
  }

  /** A text with neither tag is left as it is. */
  lemma {:induction false} TagFreeUnchanged(s: string)
    requires !Includes(s, BeforeTag) && !Includes(s, AfterTag)
    ensures ReplaceTags(s) == s
    decreases |s|
  {
    if |s| > 0 {
      TagFreeUnchanged(s[1..]);
      assert [s[0]] + s[1..] == s;
    }
  }

  /** Each tag at the head of a text becomes its heading, and the rest is rewritten on its own. */
  lemma TagAtHead(t: string)
    ensures ReplaceTags(BeforeTag + t) == BeforeHeading + ReplaceTags(t)
    ensures ReplaceTags(AfterTag + t) == AfterHeading + ReplaceTags(t)
  {
    assert StartsWith(BeforeTag + t, BeforeTag) && (BeforeTag + t)[|BeforeTag|..] == t;
    assert (AfterTag + t)[1] != BeforeTag[1];
    assert StartsWith(AfterTag + t, AfterTag) && (AfterTag + t)[|AfterTag|..] == t;
  }

  /** The first character of the rewrite: a heading's '#', or the text's own first character. */
  lemma HeadOfRewrite(t: string)
    requires |t| > 0
    ensures |ReplaceTags(t)| > 0
    ensures ReplaceTags(t)[0] == if StartsWith(t, BeforeTag) || StartsWith(t, AfterTag) then '#' else t[0]
  {
  }

  /** A word with neither '<' nor '#' at the head of the rewritten text was already at the head of the text. */
  lemma {:induction false} RewrittenHead(t: string, w: string)
    requires |w| > 0 && '<' !in w && '#' !in w
    ensures StartsWith(ReplaceTags(t), w) ==> StartsWith(t, w)
    decreases |w|
  {
    var x := ReplaceTags(t);
    if StartsWith(x, w) {
      assert x[0] == w[0] && w[0] in w;
      assert |t| > 0;
      HeadOfRewrite(t);
      assert !StartsWith(t, BeforeTag) && !StartsWith(t, AfterTag);
      assert x == [t[0]] + ReplaceTags(t[1..]);
      if |w| > 1 {
        var w' := w[1..];
        assert '<' !in w' && '#' !in w' by {
          forall i | 0 <= i < |w'| ensures w'[i] != '<' && w'[i] != '#' { assert w'[i] == w[i + 1]; }
        }
        assert ReplaceTags(t[1..])[..|w'|] == x[1..|w|];
        RewrittenHead(t[1..], w');
        assert t[..|w|] == [t[0]] + t[1..][..|w'|];
      } else {
        assert t[..|w|] == [t[0]];
      }
    }
  }

  /** After the rewrite no `<Before>` or `<After>` tag is left: none can form across a replacement. */
  lemma {:induction false} NoTagLeft(s: string, tag: string)
    requires tag == BeforeTag || tag == AfterTag
    ensures !Includes(ReplaceTags(s), tag)
    decreases |s|
  {
    if |s| == 0 {
    } else if StartsWith(s, BeforeTag) || StartsWith(s, AfterTag) {
      var h := if StartsWith(s, BeforeTag) then BeforeHeading else AfterHeading;
      var rest := if StartsWith(s, BeforeTag) then s[|BeforeTag|..] else s[|AfterTag|..];
      assert ReplaceTags(s) == h + ReplaceTags(rest);
      NoTagLeft(rest, tag);
      assert '<' !in h;
      IncludesAfterPrefix(h, ReplaceTags(rest), tag);
    } else {
      var y := ReplaceTags(s[1..]);
      NoTagLeft(s[1..], tag);
      var x := [s[0]] + y;
      assert ReplaceTags(s) == x;
      assert x[1..] == y;
      var w := tag[1..];
      assert '<' !in w && '#' !in w;
      RewrittenHead(s[1..], w);
      // a tag at the head of x would mean a tag at the head of s
      assert |s| >= |tag| ==> s[..|tag|] == [s[0]] + s[1..][..|w|];
      assert |x| >= |tag| ==> x[..|tag|] == [x[0]] + y[..|w|];
      assert tag[..1] + w == tag;
      assert !StartsWith(x, tag);
    }
  }

  /**
   * The markdown source of the back face: the full answer with its tags
   * rewritten; '' when there is no answer or the rewrite is empty. None is
   * the TypeError of calling `replace` on a value that is not a string.
   */
  function BackContent(answerFull: Value): (r: Option<string>)
    ensures r.None? <==> !answerFull.Str? && !answerFull.Undefined? && !answerFull.Null?
    ensures r.Some? ==> !Includes(r.value, BeforeTag) && !Includes(r.value, AfterTag)
    ensures answerFull.Undefined? || answerFull.Null? ==> r == Some("")
    ensures answerFull.Str? ==> r == Some(ReplaceTags(answerFull.s))
  {
    match answerFull
    case Undefined => Some("")
    case Null => Some("")
    case Str(s) =>
      NoTagLeft(s, BeforeTag);
      NoTagLeft(s, AfterTag);
      Some(ReplaceTags(s))
    case _ => None
  }

  /** The back face of a loaded card is always shown (its answer is text or undefined). */
  lemma LoadedCardHasBack(row: RawRow, stringify: Value -> Option<string>)
    ensures BackContent(ProcessRow(row, stringify).answerFull).Some?
  {
  }

  // ---------------------------------------------------------------------
  // The review state

  /** The update `handleComplete` sends for the current card. */
  datatype UpdatePayload = UpdatePayload(id: string, datelist: seq<string>, score: int)

  /** What the container shows. */
  datatype Screen = Spinner | ErrorMessage(message: string) | NoCards | Showing(card: Card, flipped: bool)

  class Review {
    var corrections: seq<Card>
    var currentIndex: int
    var isFlipped: bool
    var loading: bool
    var error: Option<string>

    constructor ()
      ensures corrections == [] && currentIndex == 0 && !isFlipped && loading && error.None?
    {
      corrections := [];
      currentIndex := 0;
      isFlipped := false;
      loading := true;
      error := None;
    }

    /** The current index names a card, or there are no cards and it is 0. */
    predicate Valid()
      reads this
    {
      if |corrections| == 0 then currentIndex == 0 else 0 <= currentIndex < |corrections|
    }

    /**
     * The spinner, then the error, then "no cards", then the current card.
     * An index that names no card (which Valid() rules out) would show
     * nothing but the spinner.
     */
    function Screen(): (s: Screen)
      reads this
      ensures s.NoCards? <==> !loading && error.None? && |corrections| == 0
      ensures s.Showing? ==> 0 <= currentIndex < |corrections| && s.card == corrections[currentIndex]
      ensures Valid() && !loading && error.None? && |corrections| > 0 ==>
        s == Showing(corrections[currentIndex], isFlipped)
    {
      if loading then Spinner
      else if error.Some? then ErrorMessage(error.value)
      else if |corrections| == 0 then NoCards
      else if 0 <= currentIndex < |corrections| then Showing(corrections[currentIndex], isFlipped)
      else Spinner
    }

    /**
     * loadCorrections. `fetched` is the store's answer: its error, or its
     * data (None for null). Only a non-empty result replaces the cards;
     * loading always ends false.
     */
    method Load(fetched: Result<Option<seq<RawRow>>, string>, stringify: Value -> Option<string>)
      modifies this`corrections, this`loading, this`error
      ensures !loading
      ensures error == if fetched.Err? then Some(fetched.error) else old(error)
      ensures corrections == match fetched
                             case Ok(Some(rows)) => if |rows| > 0 then ProcessRows(rows, stringify) else old(corrections)
                             case _ => old(corrections)
      ensures old(corrections) == [] && old(Valid()) ==> Valid()
    {
      loading := true;
      match fetched {
        case Err(e) =>
          error := Some(e);
        case Ok(data) =>
          if data.Some? && |data.value| > 0 {
            corrections := ProcessRows(data.value, stringify);
          }
      }
      loading := false;
    }

    /** The card flips over; nothing else changes. */
    method Flip()
      modifies this`isFlipped
      ensures isFlipped == !old(isFlipped)
    {
      isFlipped := !isFlipped;
    }

    /** The previous card, shown front up (the button is disabled on the first card). */
    method Prev()
      modifies this`isFlipped, this`currentIndex
      requires Valid() && currentIndex > 0
      ensures Valid()
      ensures !isFlipped && currentIndex == Pager.PrevIndex(old(currentIndex)) == old(currentIndex) - 1
    {
      isFlipped := false;
      currentIndex := Pager.PrevIndex(currentIndex);
    }

    /**
     * handleComplete. `updated` is whether the store accepted the update.
     * Returns the update sent (None: the current card is missing and the
     * handler failed before sending). Only the index moves, and only on
     * success: the side shown and the cards in memory stay as they were.
     */
    method HandleComplete(today: string, updated: bool) returns (sent: Option<UpdatePayload>)
      modifies this`currentIndex
      requires Valid()
      ensures Valid()
      ensures sent.Some? <==> 0 <= old(currentIndex) < |corrections|
      ensures sent.Some? ==> var card := corrections[old(currentIndex)];
        sent.value == UpdatePayload(card.id, card.datelist + [today], card.score + 1)
      ensures currentIndex == if sent.Some? && updated then (old(currentIndex) + 1) % |corrections| else old(currentIndex)
    {
      if !(0 <= currentIndex < |corrections|) {
        return None;
      }
      var card := corrections[currentIndex];
      var score := if card.score != 0 then card.score else 0;
      sent := Some(UpdatePayload(card.id, card.datelist + [today], score + 1));
      if updated {
        currentIndex := (currentIndex + 1) % |corrections|;
      }
    }

    /**
     * The next button (shown, like the previous button, only with a card on
     * screen): before the last card it shows the next card front
     * up; on the last card it records the review.
     */
    method Next(today: string, updated: bool) returns (sent: Option<UpdatePayload>)
      modifies this`isFlipped, this`currentIndex
      requires Valid() && |corrections| > 0
      ensures Valid()
      ensures old(currentIndex) != |corrections| - 1 ==>
        sent.None? && !isFlipped && currentIndex == old(currentIndex) + 1
      ensures old(currentIndex) == |corrections| - 1 ==>
        var card := corrections[old(currentIndex)];
        isFlipped == old(isFlipped)
        && sent == Some(UpdatePayload(card.id, card.datelist + [today], card.score + 1))
        && currentIndex == if updated then 0 else old(currentIndex)
    {
      if currentIndex == |corrections| - 1 {
        sent := HandleComplete(today, updated);
      } else {
        sent := None;
        isFlipped := false;
        currentIndex := currentIndex + 1;
      }
    }

    /**
     * The cards in memory are never updated after a review: a one-card deck
     * reviewed twice sends the same date list and score both times.
     */
    method ReviewTwice(today: string) returns (first: Option<UpdatePayload>, second: Option<UpdatePayload>)
      modifies this`currentIndex
      requires Valid() && |corrections| == 1
      ensures first.Some? && first == second
      ensures first.value.datelist == corrections[0].datelist + [today]
    {
      first := HandleComplete(today, true);
      second := HandleComplete(today, true);
    }
  }
}
