/**
 * The flashcard itself (`Flashcard`): two faces of which the flag
 * `isFlipped` shows one, markdown renderers whose `strong` elements use the
 * `%%` emphasis (see the Emphasis module), and a second set of renderers
 * that rewrites arrows in paragraphs and styles the `Before`/`After`
 * headings. That second set is declared but never passed to a renderer.
 */
module FlashcardFace {
  import opened Strings

  const Arrow := "->"
  const ArrowReplacement := "→ "

  /**
   * `text.replace(/(->\s*)/g, '→ ')`: each `->` together with all the
   * white space after it becomes one arrow and one space.
   */
  function RewriteArrows(text: string): string
    decreases |text|
  {
    if |text| == 0 then ""
    else if StartsWith(text, Arrow) then ArrowReplacement + RewriteArrows(TrimStart(text[2..]))
    else [text[0]] + RewriteArrows(text[1..])
  }

  /** The first character of the rewrite: the arrow, or the text's own first character. */
  lemma ArrowHead(t: string)
    requires |t| > 0
    ensures |RewriteArrows(t)| > 0
    ensures RewriteArrows(t)[0] == if StartsWith(t, Arrow) then '→' else t[0]
  {
  }

  /** After the rewrite no `->` is left: none can form across a replacement. */
  lemma {:induction false} NoArrowLeft(text: string)
    ensures !Includes(RewriteArrows(text), Arrow)
    decreases |text|
  {
    if |text| == 0 {
    } else if StartsWith(text, Arrow) {
      var rest := TrimStart(text[2..]);
      NoArrowLeft(rest);
      assert RewriteArrows(text) == ArrowReplacement + RewriteArrows(rest);
      assert '-' !in ArrowReplacement;
      IncludesAfterPrefix(ArrowReplacement, RewriteArrows(rest), Arrow);
    } else {
      var y := RewriteArrows(text[1..]);
      NoArrowLeft(text[1..]);
      var x := [text[0]] + y;
      assert RewriteArrows(text) == x;
      assert x[1..] == y;
      // an arrow at the head of x would need '>' at the head of y, hence at the head of text[1..]
      if |text| >= 2 {
        ArrowHead(text[1..]);
        assert text[1..][0] == text[1];
        assert text[..2] == [text[0], text[1]];
      }
      assert |x| >= 2 ==> x[..2] == [x[0], y[0]];
      assert !StartsWith(x, Arrow);
    }
  }

  /** A text without an arrow is left as it is. */
  lemma {:induction false} NoArrowUnchanged(text: string)
    requires !Includes(text, Arrow)
    ensures RewriteArrows(text) == text
    decreases |text|
  {
    if |text| > 0 {
      assert !Includes(text[1..], Arrow);
      NoArrowUnchanged(text[1..]);
      assert text == [text[0]] + text[1..];
    }
  }

  /** The front face is visible when the card is not flipped (`opacity-100`). */
  predicate FrontVisible(isFlipped: bool) {
    !isFlipped
  }

  /** The back face is visible when the card is flipped (`opacity-100`). */
  predicate BackVisible(isFlipped: bool) {
    isFlipped
  }

  /** Exactly one face is visible, whichever way the card lies, and a flip swaps them. */
  lemma ExactlyOneFace(isFlipped: bool)
    ensures FrontVisible(isFlipped) != BackVisible(isFlipped)
    ensures FrontVisible(!isFlipped) == BackVisible(isFlipped)
  {
  }

  /** The heading renderer gives the label style to exactly the texts "Before" and "After". */
  predicate IsLabelHeading(text: string) {
    text == "Before" || text == "After"
  }

  /** The label style goes to these two words and to no other text, whatever its case or spacing. */
  lemma LabelHeadings(text: string)
    ensures IsLabelHeading(text) <==> text in {"Before", "After"}
    ensures !IsLabelHeading("before") && !IsLabelHeading("Before ") && !IsLabelHeading("AFTER")
  {
  }
}
