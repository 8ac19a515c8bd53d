# A verified model of the flashcard app's core

The app lets a learner speak or type a sentence and have it analysed by a
chat-completion service. The analysis becomes correction cards that the
learner can save to the store and later review as flashcards. This
project models the logic behind that flow:

- **GptResponse** (`parseGptResponse`): the analysis array is enriched with
  `meaning`, `grammar`, `expression` and `before_intention`.
- **Generation** (the `Generation` component) turns the analysis text into
  cards in four steps:
  - strip the code fences;
  - match the flat `{...}` objects;
  - parse each one;
  - keep the objects that have the four required keys.

  It also models the dot animation, the decoding of the analysis reply,
  the explanation bullets, and the view's card index, saved set and save
  handlers.
- **GenerationPage** (`app/generation/page.tsx`): the page-level results,
  their saving, and the save-all count.
- **Pager**: the clamped previous/next index arithmetic that three views
  share.
- **Emphasis**: the `%%…%%` highlight format (`split(/(%%.+?%%)/)` and
  `slice(2, -2)`), as it is used in three renderers.
- **FlashcardReview** (`FlashcardContainer`): loading the stored
  corrections, the back-face rewrite of `<Before>`/`<After>` tags, flipping,
  and stepping. A completed round records the review and wraps round.
- **FlashcardFace** (`Flashcard`): the face that is visible, the arrow
  rewrite and the heading rule.
- **FlashcardStore** (`useFlashcards`): the local list kept in step with
  fetch, create, update and delete.
- **GenerateRoute** (`POST /api/generate`): the line-buffered relay of
  `data:` lines and the error responses.
- **Auth** (`useAuth`): redirects, the auth-state listener and sign-out.
- **LoginForm** (`LoginButton`): login and sign-up, the password-length
  rule, the alerts and the mode toggle.

Two support modules model the JavaScript the code leans on:

- **Js**: values, truthiness, `||`, `??`, `?.`, and a TypeError on reading
  from `null`/`undefined`.
- **Strings**: `split`/`join`, `includes`, the global `replace`, `trim` and
  the JavaScript white-space set.

External effects are parameters:

- **JSON.** `JSON.parse` is a function from text to a value or an error.
  `JSON.stringify` is a function to text or `undefined`.
- **Store, auth and network calls.** Each is its outcome: success or
  failure, or the rows returned.
- **Time.** `today` and `now` are strings.

Components whose state changes step by step are classes. Their fields are
that state and their methods are the handlers.

Some behaviours of the code as written are visible in the model:

- **The card pipeline never runs in the app.** `handleAnalyze` only ever
  sets `analysisResult` to `''` (`Generation/index.tsx:212`). The effect
  that builds cards (`Generation.GenerationView.OnAnalysisResult`) therefore
  never sees a non-empty result. The parsed reply goes to the page's
  `onAnalysisComplete` instead.
- **The endpoint streams nothing.** The endpoint asks the service for a
  non-streamed completion (`route.ts:62`), whose body has no `data:` line.
  The relay then enqueues nothing (`GenerateRoute.NoDataLineNoOutput`).
- **The page's saved set survives a new analysis.** After a new, shorter
  analysis, the save-all count can go negative while the button stays
  enabled (`GenerationPage.StaleSavedSetAfterNewAnalysis`).
- **Save-all in the generation view stores nothing.** It only marks every
  card as saved.
- **A review never updates the cards in memory.** Only the stored row
  changes, so the next round over the same card sends the same date list
  and score again (`FlashcardReview.Review.ReviewTwice`).
- **Every card gets an empty situation id.** The store's own row type
  declares the joined situation as one object or null (`types/db.ts:30-37`).
  `item.situations?.[0]?.id` reads key `"0"` of that object, which it does
  not have, so `situation_id` falls back to `''` (`FlashcardContainer.tsx:85`,
  `FlashcardReview.SituationId`). Only an array, as the container's local
  type declares it, would yield an id.
- **Some renderers are never used.** The arrow and heading renderers
  (`markdownComponents`) are declared but never passed to a renderer. The
  container's `formatText` prop is never used by `Flashcard`. The model
  states their rules anyway.

Where the documented behaviour and the code differ, the model follows the code:

- **Grammar and expression points are not trimmed.** They are joined by
  `" / "`, so a segment keeps its spaces.
- **A parse failure is an error.** A JSON parse failure in
  `parseGptResponse` is rethrown with a prefix, never returned as an empty
  list.
- **Card validation checks only that the keys exist.** It does not check
  their types.

## Model

| member | source | states |
|---|---|---|
| GptResponse.Enrich | src/lib/utils/parseGptResponse.ts:32-39 | a record is enriched exactly when it is an object whose `after_detail` is a string (otherwise the TypeError); the result keeps every input key and adds the four derived ones |
| GptResponse.EnrichAll | src/lib/utils/parseGptResponse.ts:32-39 | the map succeeds exactly when every item is enrichable; it is one-for-one and in order |
| GptResponse.ParseGptResponse | src/lib/utils/parseGptResponse.ts:24-43 | success exactly when the text parses to an array of enrichable records, each output being its input enriched; every failure message starts with the prefix; a non-array gives the "not an array" message |
| GptResponse.Failed | src/lib/utils/parseGptResponse.ts:40-43 | the rethrown message is the prefix followed by exactly the original message |
| GptResponse.EnrichedRecord | src/lib/utils/parseGptResponse.ts:32-39 | `meaning` is `title`, `before_intention` is `before_intent`, grammar and expression come from `after_detail`, and every other field is copied unchanged |
| GptResponse.GrammarSegments | src/lib/utils/parseGptResponse.ts:46-51 | the grammar points are the segments that mention grammar, kept whole and in order, and none that matches is dropped |
| GptResponse.ExpressionSegments | src/lib/utils/parseGptResponse.ts:53-58 | likewise for the segments that mention an expression |
| GptResponse.GrammarEmptyIffNoMatch | src/lib/utils/parseGptResponse.ts:46-51 | the grammar field is empty if and only if no segment mentions grammar |
| GptResponse.ExpressionEmptyIffNoMatch | src/lib/utils/parseGptResponse.ts:53-58 | the expression field is empty if and only if no segment mentions an expression |
| GptResponse.GrammarPoints | src/lib/utils/parseGptResponse.ts:46-51 | the grammar segments joined by " / " (stated by GrammarSegments and GrammarEmptyIffNoMatch) |
| GptResponse.ExpressionPoints | src/lib/utils/parseGptResponse.ts:53-58 | the expression segments joined by " / " (stated by ExpressionSegments and ExpressionEmptyIffNoMatch) |
| Emphasis.SplitMarked | src/components/Flashcard/index.tsx:113-127 | the parts concatenate back to the text; their number is odd; every odd-indexed part is a captured `%%x%%` span with a non-empty inner text free of line terminators; no match of the regex starts inside an even-indexed (plain) part; and each capture is exactly the lazy match that starts where its plain part ends |
| Emphasis.SplitMarkedUnique | src/components/Flashcard/index.tsx:115 | SplitMarked's contract has one solution: any parts that concatenate to the text, are odd in number and split it as the regex does are SplitMarked's result |
| Emphasis.SplitIsUnique | src/components/Flashcard/index.tsx:115 | from any position, parts that give back the rest of the text and split it as the regex does are the split loop's parts |
| Emphasis.CloseFrom | src/components/Flashcard/index.tsx:115 | the lazy `.+?%%`: a close ends on `%%`, with no line terminator before it and no earlier `%%` |
| Emphasis.NoCloseMeansBreak | src/components/Flashcard/index.tsx:115 | the lazy search fails only at a line terminator: when it finds no close, every later `%%` has a line terminator in front of it |
| Emphasis.MatchFailsOnlyAtBreak | src/components/Flashcard/index.tsx:115 | after an opening `%%` the regex fails only when every later `%%` it could close on lies behind a line terminator |
| Emphasis.MatchAt | src/components/Flashcard/index.tsx:115 | a match at a position is a marked span, closed at the first `%%` after its first inner character |
| Emphasis.Parts | src/components/Flashcard/index.tsx:115 | the split loop: parts concatenate to the rest of the text, captures are marked spans, plain parts contain no match start, and each capture is the lazy match found right after its plain part |
| Emphasis.SliceInner | src/components/Flashcard/index.tsx:120 | `slice(2, -2)`: the text without its first and last two characters, empty when it has fewer than four |
| Emphasis.RenderPart | src/components/Flashcard/index.tsx:119-123 | a part that starts and ends with `%%` is highlighted, any other is plain (stated by CapturedSpansHighlighted and RenderPartRoundTrip) |
| Emphasis.Render | src/components/Flashcard/index.tsx:113-127 | the renderer maps each part one for one (stated by CapturedSpansHighlighted and StrayMarkerVanishes) |
| Emphasis.CapturedSpansHighlighted | src/components/Flashcard/index.tsx:113-127 | every captured span is rendered highlighted with exactly its inner text |
| Emphasis.RenderPartRoundTrip | src/components/Flashcard/index.tsx:119-123 | a rendered part stands for its source text exactly unless the part is a bare `%%` or `%%%` |
| Emphasis.StrayMarkerVanishes | src/components/Flashcard/FlashcardContainer.tsx:166-175 | a stray `%%%` is not captured, yet it is rendered as an empty highlight |
| Pager.PrevIndex | src/components/Generation/index.tsx:437 | the previous index is never negative, never above the current one, and one less when there is room |
| Pager.NextIndex | src/components/Generation/index.tsx:448 | the next index is never past the last and one more when there is room |
| Pager.NavigationStaysInRange | src/app/generation/page.tsx:118-130 | both buttons keep an index of a non-empty list in range |
| Pager.NextThenPrev | src/app/generation/page.tsx:118-130 | next then previous returns to the same card away from the end |
| Pager.ClampedAtEnds | src/components/Generation/index.tsx:437-449 | previous at the first card and next at the last card change nothing |
| Pager.Indices | src/components/Generation/index.tsx:311 | the set of all indices of a list holds exactly 0..n-1 and has n elements |
| Generation.NoFenceAfterRemoval | src/components/Generation/index.tsx:99-102 | after the global removal no code fence is left, not even one formed across a removal |
| Generation.RemoveFences | src/components/Generation/index.tsx:99-102 | the global removal of a code fence (stated by NoFenceAfterRemoval) |
| Generation.CleanAnalysis | src/components/Generation/index.tsx:99-102 | the cleaned text has no fence, neither starts nor ends with white space, and is the text with the fences removed less only white space at its two ends |
| Strings.Trim | src/components/Generation/index.tsx:102 | `trim()`: a slice of the text with only JavaScript white space cut from either end, and no white space left at its ends |
| Strings.TrimUnique | src/components/Generation/index.tsx:102 | only one piece of a text is cut from it by white space alone and has no white space at its ends |
| Strings.TrimIsTheTrim | src/components/Generation/index.tsx:102 | any text with Trim's contract is Trim's result |
| Generation.Spans | src/components/Generation/index.tsx:107-108 | the global match yields exactly the flat `{...}` objects of the text, in order and without overlap |
| Generation.Candidates | src/components/Generation/index.tsx:107-112 | each candidate starts with `{`, ends with `}` and has no brace inside |
| Generation.CandidatesAreTheFlatObjects | src/components/Generation/index.tsx:107-108 | the candidates are the flat objects of the text: sound, complete and ordered |
| Generation.IsCard | src/components/Generation/index.tsx:120-127 | an object that has the four required keys, whatever their values |
| Generation.KeepCards | src/components/Generation/index.tsx:115-136 | every kept value is a card parsed from some candidate, and every candidate that parses to a card is kept; no more cards than candidates; none kept exactly when no candidate parses to a card |
| Generation.Validated | src/components/Generation/index.tsx:116-134 | one candidate is mapped to a truthy value exactly when it parses to a card, and that value is the parsed card |
| Generation.ValidatedAll | src/components/Generation/index.tsx:115-134 | the map is one-for-one and in order |
| Generation.KeepCardsIsMapThenFilter | src/components/Generation/index.tsx:115-136 | the kept cards are exactly the mapped candidates filtered by truthiness, so they follow the order of their candidates |
| Generation.ExtractCards | src/components/Generation/index.tsx:95-145 | no candidate means the caught error (cards untouched); otherwise the valid cards, as KeepCards and KeepCardsIsMapThenFilter characterise them |
| Generation.NextDots | src/components/Generation/index.tsx:67-72 | the animation frame never exceeds three dots |
| Generation.DotsCycle | src/components/Generation/index.tsx:67-72 | from any frame the animation returns after exactly four ticks and not sooner |
| Generation.DotsRecover | src/components/Generation/index.tsx:83-88 | any value other than the first three frames ticks to the empty frame |
| Generation.Bullets | src/components/Generation/index.tsx:501 | one bullet per piece, each the piece trimmed behind `* ` |
| Generation.BulletPerReason | src/components/Generation/index.tsx:501 | for an explanation on one line, the list has exactly one line per `/`-separated reason, in order |
| Generation.DetailBullets | src/components/Generation/index.tsx:501 | the bullets joined by line breaks (stated by BulletPerReason) |
| Generation.DecodeAnalysis | src/components/Generation/index.tsx:232-243 | a reply that is not JSON always ends in its own parse error; a bracketed reply is handed up as parsed; a `null` reply is the TypeError; any other non-object reply (an array with white space round it, say) hands up undefined |
| Generation.ContentStringParsedAgain | src/components/Generation/index.tsx:238-242 | an object reply whose `content` is a string hands up the parse of that string |
| Generation.ContentlessReplyHandsUpUndefined | src/components/Generation/index.tsx:238-242 | an object reply without `content` hands up undefined, and a non-string `content` is handed up unparsed |
| Generation.SituationFor | src/components/Generation/index.tsx:269-274 | the situation row: the fixed title, kind `speech`, the transcript as description and today as the only date (stated by GenerationView.SaveCard) |
| Generation.CardAt | src/components/Generation/index.tsx:266 | the card at the index, undefined out of range (stated by GenerationView.SaveCard) |
| Generation.CorrectionFor | src/components/Generation/index.tsx:277-292 | no row for a missing card (the TypeError); otherwise the title numbers the card from 1, the score is 0, the date list is today; the sentences and detail are the card's own, `before_intent` is stored as the intention; meaning, grammar and expression are the card's when truthy and null otherwise |
| Generation.GenerationView.constructor | src/components/Generation/index.tsx:51-60 | no cards, index 0, nothing saved, empty transcript and animation frames |
| Generation.GenerationView.SetTranscript | src/components/Generation/index.tsx:379 | the transcript becomes the text typed |
| Generation.GenerationView.TickRecording | src/components/Generation/index.tsx:66-72 | one tick advances the recording frame |
| Generation.GenerationView.TickTranscribing | src/components/Generation/index.tsx:82-88 | one tick advances the transcribing frame |
| Generation.GenerationView.OnAnalysisResult | src/components/Generation/index.tsx:95-145 | an empty result or one without a flat object keeps the cards; otherwise they become the extracted cards; every new card has the required keys |
| Generation.GenerationView.PrevCard | src/components/Generation/index.tsx:437 | the index moves by the clamped previous step |
| Generation.GenerationView.NextCard | src/components/Generation/index.tsx:448 | the index moves by the clamped next step |
| Generation.GenerationView.SaveCard | src/components/Generation/index.tsx:262-299 | a saved card is a no-op; otherwise the situation is sent first, the correction only if the situation succeeded and the card exists, and the index is saved only when both succeed |
| Generation.GenerationView.SaveAll | src/components/Generation/index.tsx:302-317 | with cards, a transcript and a signed-in user every index is marked saved; otherwise nothing changes |
| GenerationPage.RowOf | src/app/generation/page.tsx:44-51 | no row for a missing or null result (the TypeError); otherwise the five fields are read from the result |
| GenerationPage.RowsOf | src/app/generation/page.tsx:66-74 | the rows are one-for-one and in order, or none when some result throws |
| GenerationPage.UnsavedIndices | src/app/generation/page.tsx:65 | the indices kept are exactly those in range and not saved, in increasing order |
| GenerationPage.UnsavedResults | src/app/generation/page.tsx:65 | the results at the unsaved indices, one for each, in increasing index order; every result at an unsaved index is kept and only those are |
| GenerationPage.ResultAt | src/app/generation/page.tsx:44 | the result at the index, undefined out of range (stated by Page.SaveCard) |
| GenerationPage.UnsavedCount | src/app/generation/page.tsx:193-195 | the unsaved results plus the saved indices in range number exactly the results |
| GenerationPage.Page.RemainingIsUnsaved | src/app/generation/page.tsx:186-195 | while the saved indices are in range, the label counts exactly the unsaved results and the button is disabled exactly when none is left |
| GenerationPage.Page.RemainingCount | src/app/generation/page.tsx:193-195 | the label's count: results minus saved indices (stated by RemainingIsUnsaved) |
| GenerationPage.Page.SaveAllDisabled | src/app/generation/page.tsx:186 | the button is disabled when the sizes are equal (stated by RemainingIsUnsaved) |
| GenerationPage.Page.constructor | src/app/generation/page.tsx:24-26 | no results, index 0, nothing saved |
| GenerationPage.Page.HandleAnalysisComplete | src/app/generation/page.tsx:36-38 | the results are replaced by the array handed up; the index and the saved set are kept |
| GenerationPage.Page.Prev | src/app/generation/page.tsx:118 | the index moves by the clamped previous step |
| GenerationPage.Page.Next | src/app/generation/page.tsx:129 | the index moves by the clamped next step |
| GenerationPage.Page.SaveCard | src/app/generation/page.tsx:40-61 | a saved index is a no-op; otherwise the result's row is sent and the index saved only if the row exists and the insert succeeds |
| GenerationPage.Page.SaveAll | src/app/generation/page.tsx:63-84 | exactly the unsaved results are sent, in order; on success every index is saved, otherwise nothing changes |
| GenerationPage.StaleSavedSetAfterNewAnalysis | src/app/generation/page.tsx:36-38 | three saved indices and two new results give a count of -1, an enabled button and nothing to save |
| FlashcardReview.Nullish | src/components/Flashcard/FlashcardContainer.tsx:85 | `a ?? b` is `a` when `a` is neither null nor undefined, and `b` otherwise |
| FlashcardReview.AnswerText | src/components/Flashcard/FlashcardContainer.tsx:98-99 | an answer is kept when it is a string, else it is the text `JSON.stringify` gives, or undefined when that gives none |
| FlashcardReview.SituationId | src/components/Flashcard/FlashcardContainer.tsx:85 | the situation id is never null or undefined: the first situation's id when present, '' for a missing join and for a joined object (which has no key `"0"`) |
| FlashcardReview.ProcessRow | src/components/Flashcard/FlashcardContainer.tsx:83-100 | own columns kept; derived text empty; null date list becomes [] and null score 0; the situation id is the joined one (or ''); each answer is its text form |
| FlashcardReview.ProcessRows | src/components/Flashcard/FlashcardContainer.tsx:83-100 | one card per row, in order, with the row's id |
| FlashcardReview.NoTagLeft | src/components/Flashcard/FlashcardContainer.tsx:163 | after the rewrite no `<Before>` or `<After>` tag is left |
| FlashcardReview.ReplaceTags | src/components/Flashcard/FlashcardContainer.tsx:163 | the global tag rewrite, left to right (stated by NoTagLeft, TagFreeUnchanged and TagAtHead) |
| FlashcardReview.TagFreeUnchanged | src/components/Flashcard/FlashcardContainer.tsx:163 | a text with neither tag is left as it is |
| FlashcardReview.TagAtHead | src/components/Flashcard/FlashcardContainer.tsx:163 | a tag at the head becomes its heading, and the rest is rewritten on its own |
| FlashcardReview.BackContent | src/components/Flashcard/FlashcardContainer.tsx:163 | a TypeError exactly for a non-string, non-missing answer; '' for none; for text, exactly its tag rewrite, which has no tag left |
| FlashcardReview.LoadedCardHasBack | src/components/Flashcard/FlashcardContainer.tsx:98-99 | a loaded card's back face never throws |
| FlashcardReview.Review.constructor | src/components/Flashcard/FlashcardContainer.tsx:39-43 | no cards, index 0, front up, loading, no error |
| FlashcardReview.Review.Screen | src/components/Flashcard/FlashcardContainer.tsx:151-158 | "no cards" exactly when loaded without error and empty; a card shown is the current one; with a valid index, a loaded list without error shows its current card |
| FlashcardReview.Review.Load | src/components/Flashcard/FlashcardContainer.tsx:50-109 | an error is recorded; only a non-empty result replaces the cards; loading ends false |
| FlashcardReview.Review.Flip | src/components/Flashcard/FlashcardContainer.tsx:165 | the card turns over |
| FlashcardReview.Review.Prev | src/components/Flashcard/FlashcardContainer.tsx:180-185 | called only off the first card (the button is disabled there): front up, one card back, still valid |
| FlashcardReview.Review.HandleComplete | src/components/Flashcard/FlashcardContainer.tsx:111-132 | the update appends today and adds one to the score; the index wraps to the next card only on success |
| FlashcardReview.Review.Next | src/components/Flashcard/FlashcardContainer.tsx:199-206 | before the last card: front up, one on, nothing sent; on the last card: the update for that card (today appended, score plus one) is sent and the index wraps to 0 on success |
| FlashcardReview.Review.ReviewTwice | src/components/Flashcard/FlashcardContainer.tsx:111-132 | the cards in memory are not updated after a review, so a one-card deck reviewed twice sends the same date list and score both times |
| FlashcardFace.NoArrowLeft | src/components/Flashcard/index.tsx:25-28 | after the rewrite no `->` is left |
| FlashcardFace.NoArrowUnchanged | src/components/Flashcard/index.tsx:25-28 | a text without an arrow is left as it is |
| FlashcardFace.RewriteArrows | src/components/Flashcard/index.tsx:25-28 | the global arrow rewrite (stated by NoArrowLeft and NoArrowUnchanged) |
| FlashcardFace.ExactlyOneFace | src/components/Flashcard/index.tsx:103 | exactly one face is visible and a flip swaps them |
| FlashcardFace.LabelHeadings | src/components/Flashcard/index.tsx:57 | the label style goes to exactly "Before" and "After", case and spacing included |
| FlashcardStore.CardOfRecord | src/lib/hooks/useFlashcards.ts:42-50 | a TypeError exactly when the record's material cannot be read; otherwise the seven card fields come from the named record fields |
| FlashcardStore.CardsOfRecords | src/lib/hooks/useFlashcards.ts:42-50 | the map succeeds exactly when every record maps; one-for-one and in order |
| FlashcardStore.MarkCompleted | src/lib/hooks/useFlashcards.ts:117-123 | cards with the id get the new `is_completed` and keep every other field; the others are unchanged |
| FlashcardStore.MarkCompletedIdempotent | src/lib/hooks/useFlashcards.ts:117-123 | ids are kept, so a repeated update changes nothing more |
| FlashcardStore.RemoveId | src/lib/hooks/useFlashcards.ts:141 | exactly the cards without the id remain, in their order, each as many times as before |
| FlashcardStore.RemoveIdAbsent | src/lib/hooks/useFlashcards.ts:141 | deleting an id no card has changes nothing |
| FlashcardStore.RemoveIdIdempotent | src/lib/hooks/useFlashcards.ts:141 | deleting twice is deleting once |
| FlashcardStore.NewRow | src/lib/hooks/useFlashcards.ts:66-75 | the inserted row is the input, not completed, stamped with the time |
| FlashcardStore.FlashcardList.constructor | src/lib/hooks/useFlashcards.ts:8-10 | no cards, not loading, no error |
| FlashcardStore.FlashcardList.Fetch | src/lib/hooks/useFlashcards.ts:16-59 | on success the list is the mapped records; a store error or a throwing record is recorded and the list kept; loading ends false |
| FlashcardStore.FlashcardList.Create | src/lib/hooks/useFlashcards.ts:61-94 | the first returned row is appended and returned; no row or an error is recorded and the list kept |
| FlashcardStore.FlashcardList.Update | src/lib/hooks/useFlashcards.ts:96-131 | the material is looked up then updated; on success the local cards are marked and the error left as it was; any failure is recorded |
| FlashcardStore.FlashcardList.Delete | src/lib/hooks/useFlashcards.ts:133-146 | on success the cards with the id are dropped; on failure the error is recorded and the list kept |
| GenerateRoute.EmitLine | src/app/api/generate/route.ts:90-97 | only a parsable `data:` line other than the end marker emits; a payload object with a `choices` array emits `choices[0].delta.content` when that is truthy and '' when it is missing or falsy |
| GenerateRoute.IsDataLine | src/app/api/generate/route.ts:90 | a `data: ` line other than the end marker |
| GenerateRoute.ChoiceContent | src/app/api/generate/route.ts:93 | `choices[0].delta.content` read key by key, undefined when a step finds no object or no key (the reference EmitLine is stated against) |
| GenerateRoute.EmitAll | src/app/api/generate/route.ts:89-99 | no more values than lines |
| GenerateRoute.Stream | src/app/api/generate/route.ts:78-100 | the values of all complete lines of the text received (stated by Relay and UnterminatedLineDropped) |
| GenerateRoute.Relay | src/app/api/generate/route.ts:78-100 | the buffer ends as the text after the last line break, and the values enqueued are exactly those of the complete lines |
| GenerateRoute.EmitLines | src/app/api/generate/route.ts:89-99 | the lines of one chunk are enqueued after what came before, in order |
| GenerateRoute.UnterminatedLineDropped | src/app/api/generate/route.ts:86-87 | a last line without a line break is never relayed |
| GenerateRoute.ContentRelayed | src/app/api/generate/route.ts:90-94 | a complete data line whose payload object has a content string at `choices[0].delta.content` relays exactly that string |
| GenerateRoute.NoDataLineNoOutput | src/app/api/generate/route.ts:62-99 | a reply without `data:` lines relays nothing |
| GenerateRoute.ErrorBody | src/app/api/generate/route.ts:115-125 | the error body has only the `error` key: the thrown message, or the fallback text |
| GenerateRoute.Post | src/app/api/generate/route.ts:66-125 | a thrown error or a non-ok answer gives a 500 with its message; an ok answer gives the relayed stream |
| Auth.Redirects | src/lib/hooks/useAuth.ts:20-26 | at most one redirect: to login exactly without a session off the login page, home exactly with a session on it |
| Auth.RedirectSettles | src/lib/hooks/useAuth.ts:20-26 | a redirect never targets the current page and its target redirects no further |
| Auth.NoRedirectExactly | src/lib/hooks/useAuth.ts:20-26 | no redirect exactly when having a session matches being off the login page |
| Auth.AuthState.constructor | src/lib/hooks/useAuth.ts:8-9 | not signed in, loading, nothing pushed |
| Auth.AuthState.CheckAuth | src/lib/hooks/useAuth.ts:14-33 | signed in exactly with a session; redirects as above; an error redirects nowhere; loading ends false |
| Auth.AuthState.OnAuthStateChange | src/lib/hooks/useAuth.ts:37-42 | the session is tracked; a sign-out event pushes the login page |
| Auth.AuthState.SignOut | src/lib/hooks/useAuth.ts:49-56 | the login page is pushed only when sign-out returns |
| LoginForm.Utf16Length | src/components/Auth/LoginButton.tsx:38 | the password length is between the code-point count and twice it, and equals it for text inside the Basic Multilingual Plane |
| LoginForm.Toggled | src/components/Auth/LoginButton.tsx:77 | the toggled mode is the other mode |
| LoginForm.ToggleTwice | src/components/Auth/LoginButton.tsx:76-82 | two toggles restore the mode |
| LoginForm.SignUpAlert | src/components/Auth/LoginButton.tsx:56-73 | "in use" exactly for a refusal mentioning `email`; the confirmation exactly on success; the failure otherwise |
| LoginForm.Form.constructor | src/components/Auth/LoginButton.tsx:12-15 | empty fields, not loading, login mode |
| LoginForm.Form.HandleEmailLogin | src/components/Auth/LoginButton.tsx:17-32 | one sign-in call with the fields; a refusal alerts; loading ends false |
| LoginForm.Form.HandleSignUp | src/components/Auth/LoginButton.tsx:34-74 | a short password alerts and calls nothing; otherwise one call, its alert, fields emptied only on success |
| LoginForm.Form.ToggleMode | src/components/Auth/LoginButton.tsx:76-82 | the other mode, reported, with both fields emptied |
| LoginForm.Form.Submit | src/components/Auth/LoginButton.tsx:85 | login mode has exactly the effects of the login handler (one sign-in call with the fields, the alert on refusal, loading false, fields kept); sign-up mode those of the sign-up handler (a short password alerts and calls nothing; otherwise one call, its alert, loading false, fields emptied only on success) |

## Left out

- The network, the store and the auth service are not modelled. Each call is replaced by its outcome, passed as a parameter.
- `JSON.parse` and `JSON.stringify` are parameters. Their grammar and number formatting are not modelled.
- Numbers are reals or unbounded integers, not IEEE doubles. The scores and indices stay far below 2^53.
- The wording of runtime TypeErrors is a parameter (`typeErrorText`).
- Microphone recording, `MediaRecorder` and the transcription endpoint are not part of this model. The transcript enters through `SetTranscript`.
- JSX rendering, CSS classes and markdown parsing are not modelled. The model keeps the decisions the renderers make: which face shows, which parts are highlighted, which headings are labelled.
- Alerts are recorded only in `LoginForm`. Elsewhere the alert after a failure is not kept, but the state it leaves is.
- The prompt template and the reading of `request.json()` in the endpoint are not modelled. An error while reading the request counts as a thrown error.
- Text decoding is not modelled: chunks arrive as decoded text. The values enqueued are modelled instead of their UTF-8 bytes.
- A failure of the stream reader (`controller.error`) is not modelled.
- The query construction of `fetchFlashcards`, including the category filter, is not modelled. A successful query is assumed to return rows, never null.
- FlashcardStore.FlashcardList.Update: an update that succeeds but returns no data keeps the local update. The later `data[0]` TypeError is not modelled.
- Emphasis.SplitMarked: `.` is matched per code point, not per UTF-16 unit. The two differ only for characters outside the Basic Multilingual Plane.
- FlashcardFace: the arrow rewrite and the heading rule belong to renderers that no component uses. The model states their rules as written.
- Generation.GenerationView.OnAnalysisResult is never triggered with a non-empty result, because `handleAnalyze` only sets the result to `''`. Its contract states what it would do.
- Generation.GenerationView.SaveAll has no store call to model: the source has only a placeholder comment there.
- GenerationPage.Page.HandleAnalysisComplete takes the results as an array. The generation view can also hand up another value (Generation.DecodeAnalysis), which the page stores as it is. Then undefined or null makes the render fail when it reads their length; a number, a boolean, an object or an empty string renders no results (their length is not above 0); a non-empty string renders a card whose fields are all undefined. None of this is modelled.
- Generation.GenerationView.SaveCard runs as one step. In the app the inserts are awaited and the button stays enabled until the index is saved, so a second click on the same card before the first save finishes inserts it again. Interleaved handlers are not modelled.
- GenerationPage.Page.SaveCard runs as one step; a second click before the awaited insert returns inserts the row again. Not modelled.
- GenerationPage.Page.SaveAll runs as one step; a second click before the awaited insert returns inserts every unsaved row again. Not modelled.
- FlashcardReview.Review.HandleComplete runs as one step. In the app the update is awaited while the buttons stay enabled, and the index moves by a functional update, `(prev + 1) % n`, applied to whatever index other clicks left. A Prev click during the await therefore changes where the index wraps to. Not modelled.
- FlashcardReview.Review.Next runs as one step. A double click on the last card sends the same update twice and moves the index twice (to 0, then 1), where the model sends one update and ends at 0. Not modelled.
- LoginForm: the browser's own form checks (`required` fields, `type="email"`) run before the submit handler and are not modelled; the model's handlers accept any text.
