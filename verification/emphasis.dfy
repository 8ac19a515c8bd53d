/**
 * The `%%` emphasis micro-format. The `strong` renderers split their text
 * with `text.split(/(%%.+?%%)/)` and show a part that starts and ends with
 * `%%` as a highlighted span of `part.slice(2, -2)`, every other part as
 * it is. The same splitter and renderer appear in the generation view and
 * in both faces of the flashcard; they are modelled once here.
 */
module Emphasis {
  import opened Js
  import opened Strings

  /** The characters `.` does not match in a JavaScript regular expression. */
  predicate IsLineTerminator(c: char) {
    c == '\n' || c == '\r' || c == '\U{2028}' || c == '\U{2029}'
  }

  /** A text the regex matches as a whole: `%%`, one or more non-terminators, `%%`. */
  ghost predicate IsMarkedSpan(t: string) {
    && |t| >= 5
    && t[0] == '%' && t[1] == '%' && t[|t| - 2] == '%' && t[|t| - 1] == '%'
    && forall k :: 2 <= k < |t| - 2 ==> !IsLineTerminator(t[k])
  }

  /** A `%%` starts at m. */
  predicate MarkerAt(s: string, m: int) {
    0 <= m && m + 1 < |s| && s[m] == '%' && s[m + 1] == '%'
  }

  /** Some line terminator lies in s[a..b]. */
  ghost predicate BreakIn(s: string, a: int, b: int) {
    exists k :: a <= k < b && 0 <= k < |s| && IsLineTerminator(s[k])
  }

  /**
   * The lazy `.+?%%`: the inner text so far is s[open + 2..j] (non-empty);
   * try to close at j, else take one more character.
   */
  function CloseFrom(s: string, j: nat): (e: Option<nat>)
    requires 1 <= j <= |s|
    ensures e.Some? ==> j + 2 <= e.value <= |s| && s[e.value - 2] == '%' && s[e.value - 1] == '%'
    ensures e.Some? ==> forall k :: j - 1 <= k < e.value - 2 ==> !IsLineTerminator(s[k])
    ensures e.Some? ==> forall m :: j <= m < e.value - 2 ==> !MarkerAt(s, m)
    decreases |s| - j
  {
    if IsLineTerminator(s[j - 1]) then None
    else if j + 2 > |s| then None
    else if s[j] == '%' && s[j + 1] == '%' then Some(j + 2)
    else CloseFrom(s, j + 1)
  }

  /**
   * The lazy search fails only at a line terminator: every `%%` from j on
   * has one in front of it, at or after the last inner character read.
   */
  lemma {:induction false} NoCloseMeansBreak(s: string, j: nat)
    requires 1 <= j <= |s| && CloseFrom(s, j).None?
    ensures forall m :: j <= m && MarkerAt(s, m) ==> BreakIn(s, j - 1, m)
    decreases |s| - j
  {
    if !IsLineTerminator(s[j - 1]) && j + 2 <= |s| {
      NoCloseMeansBreak(s, j + 1);
      forall m | j <= m && MarkerAt(s, m)
        ensures BreakIn(s, j - 1, m)
      {
        var k :| j <= k < m && 0 <= k < |s| && IsLineTerminator(s[k]);
        assert j - 1 <= k;
      }
    }
  }

  /** The match of `%%.+?%%` that starts at q, if any: its end. */
  function MatchAt(s: string, q: nat): (e: Option<nat>)
    requires q <= |s|
    ensures e.Some? ==> q + 5 <= e.value <= |s| && IsMarkedSpan(s[q..e.value])
    ensures e.Some? ==> forall m :: q + 3 <= m < e.value - 2 ==> !MarkerAt(s, m)
  {
    if q + 3 <= |s| && s[q] == '%' && s[q + 1] == '%' then CloseFrom(s, q + 3) else None
  }

  /**
   * After an opening `%%` the regex fails only when every later `%%` it
   * could close on lies behind a line terminator.
   */
  lemma MatchFailsOnlyAtBreak(s: string, q: nat)
    requires q + 3 <= |s| && s[q] == '%' && s[q + 1] == '%' && MatchAt(s, q).None?
    ensures forall m :: q + 3 <= m && MarkerAt(s, m) ==> BreakIn(s, q + 2, m)
  {
    NoCloseMeansBreak(s, q + 3);
  }

  /** No match of the regex starts at a position in [a, b). */
  ghost predicate NoMatchIn(s: string, a: nat, b: nat) {
    forall q :: a <= q < b && q <= |s| ==> MatchAt(s, q).None?
  }

  /**
   * Read from position at, parts is what the splitter cuts: the first part
   * covers positions where the regex fails, the regex matches right after
   * it and its lazy match ends exactly where the second part does, and the
   * rest are read on from there.
   */
  ghost predicate SplitFrom(s: string, at: nat, parts: seq<string>)
    decreases |parts|
  {
    if |parts| == 0 then true
    else if |parts| == 1 then NoMatchIn(s, at, at + |parts[0]|)
    else
      && NoMatchIn(s, at, at + |parts[0]|)
      && at + |parts[0]| <= |s|
      && MatchAt(s, at + |parts[0]|) == Some(at + |parts[0]| + |parts[1]|)
      && SplitFrom(s, at + |parts[0]| + |parts[1]|, parts[2..])
  }

  /** A plain piece and a capture in front of the parts of the rest give the whole text. */
  lemma ConcatAfterCapture(s: string, p: nat, q: nat, e: nat, rest: seq<string>, r: seq<string>)
    requires p <= q <= e <= |s| && Concat(rest) == s[e..] && r == [s[p..q], s[q..e]] + rest
    ensures Concat(r) == s[p..]
  {
    assert r[1..] == [s[q..e]] + rest;
    assert r[1..][1..] == rest;
    assert s[p..] == s[p..q] + (s[q..e] + s[e..]);
  }

  /** A plain piece without a match start, then the match found after it, then a split of the rest. */
  lemma SplitAfterCapture(s: string, p: nat, q: nat, e: nat, rest: seq<string>, r: seq<string>)
    requires p <= q <= e <= |s| && NoMatchIn(s, p, q) && MatchAt(s, q) == Some(e) && SplitFrom(s, e, rest)
    requires r == [s[p..q], s[q..e]] + rest
    ensures SplitFrom(s, p, r)
  {
    assert r[2..] == rest;
    assert p + |r[0]| + |r[1]| == e;
  }

  /** A capture that is a marked span, in front of parts whose captures are. */
  lemma MarkedAfterCapture(s: string, p: nat, q: nat, e: nat, rest: seq<string>, r: seq<string>)
    requires p <= q <= e <= |s| && MatchAt(s, q) == Some(e)
    requires forall i :: 0 <= i < |rest| && i % 2 == 1 ==> IsMarkedSpan(rest[i])
    requires r == [s[p..q], s[q..e]] + rest
    ensures forall i :: 0 <= i < |r| && i % 2 == 1 ==> IsMarkedSpan(r[i])
  {
    forall i | 0 <= i < |r| && i % 2 == 1
      ensures IsMarkedSpan(r[i])
    {
      if i > 1 {
        assert r[i] == rest[i - 2];
      }
    }
  }

  /** Two parts more or fewer keep the count odd. */
  lemma OddTwoApart(n: nat, m: nat)
    requires n == m + 2
    ensures n % 2 == 1 <==> m % 2 == 1
  {
  }

  /** The capture case of the split loop keeps every property of its result. */
  lemma CaptureStep(s: string, p: nat, q: nat, e: nat, rest: seq<string>, r: seq<string>)
    requires p <= q <= e <= |s| && NoMatchIn(s, p, q) && MatchAt(s, q) == Some(e)
    requires |rest| % 2 == 1 && Concat(rest) == s[e..] && SplitFrom(s, e, rest)
    requires forall i :: 0 <= i < |rest| && i % 2 == 1 ==> IsMarkedSpan(rest[i])
    requires r == [s[p..q], s[q..e]] + rest
    ensures |r| % 2 == 1 && Concat(r) == s[p..] && SplitFrom(s, p, r)
    ensures forall i :: 0 <= i < |r| && i % 2 == 1 ==> IsMarkedSpan(r[i])
  {
    OddTwoApart(|r|, |rest|);
    ConcatAfterCapture(s, p, q, e, rest, r);
    SplitAfterCapture(s, p, q, e, rest, r);
    MarkedAfterCapture(s, p, q, e, rest, r);
  }

  /** The regex failing at q as well extends the run of failures by one. */
  lemma NoMatchStep(s: string, p: nat, q: nat)
    requires q < |s| && NoMatchIn(s, p, q) && MatchAt(s, q).None?
    ensures NoMatchIn(s, p, q + 1)
  {
  }

  /** A last piece in which the regex fails everywhere. */
  lemma SplitLastPiece(s: string, p: nat)
    requires p <= |s| && NoMatchIn(s, p, |s|)
    ensures SplitFrom(s, p, [s[p..]])
  {
  }

  /**
   * The split loop: the current piece started at p, the regex is tried at q
   * (and has failed at every position from p on). A match at q closes the
   * piece s[p..q], contributes its capture s[q..e] and starts a new piece
   * at e; otherwise the search moves on to q + 1.
   */
  function Parts(s: string, p: nat, q: nat): (r: seq<string>)
    requires p <= q <= |s|
    requires NoMatchIn(s, p, q)
    ensures |r| % 2 == 1
    ensures Concat(r) == s[p..]
    ensures forall i :: 0 <= i < |r| && i % 2 == 1 ==> IsMarkedSpan(r[i])
    ensures SplitFrom(s, p, r)
    decreases |s| - q
  {
    if q == |s| then
      SplitLastPiece(s, p);
      [s[p..]]
    else if MatchAt(s, q).Some? then
      var e := MatchAt(s, q).value;
      var rest := Parts(s, e, e);
      var r := [s[p..q], s[q..e]] + rest;
      CaptureStep(s, p, q, e, rest, r);
      r
    else
      NoMatchStep(s, p, q);
      Parts(s, p, q + 1)
  }

  /**
   * `text.split(/(%%.+?%%)/)`: the pieces put back together give the text,
   * the captures are marked spans, the regex finds no match starting in a
   * plain piece, and each capture is the lazy match starting where its
   * plain piece ends.
   */
  function SplitMarked(text: string): (parts: seq<string>)
    ensures Concat(parts) == text
    ensures |parts| % 2 == 1
    ensures forall i :: 0 <= i < |parts| && i % 2 == 1 ==> IsMarkedSpan(parts[i])
    ensures SplitFrom(text, 0, parts)
  {
    Parts(text, 0, 0)
  }

  /** The first two parts of a split cover the front of the text, the rest covers what follows. */
  lemma PartsPinned(s: string, p: nat, parts: seq<string>)
    requires p <= |s| && |parts| >= 2 && Concat(parts) == s[p..]
    ensures p + |parts[0]| + |parts[1]| <= |s|
    ensures parts[0] == s[p..p + |parts[0]|]
    ensures parts[1] == s[p + |parts[0]|..p + |parts[0]| + |parts[1]|]
    ensures Concat(parts[2..]) == s[p + |parts[0]| + |parts[1]|..]
  {
    assert parts[1..][1..] == parts[2..];
    assert s[p..] == parts[0] + (parts[1] + Concat(parts[2..]));
  }

  /** The parts after the first capture are a split of the text after it. */
  lemma SplitFromRest(s: string, at: nat, parts: seq<string>, e: nat)
    requires |parts| >= 2 && SplitFrom(s, at, parts) && e == at + |parts[0]| + |parts[1]|
    ensures SplitFrom(s, e, parts[2..])
  {
  }

  /** What SplitFrom says of the first plain part and capture, and where the parts after them start. */
  lemma SplitTail(s: string, p: nat, parts: seq<string>, end: nat, e: nat)
    requires p <= |s| && |parts| >= 2 && Concat(parts) == s[p..] && SplitFrom(s, p, parts)
    requires end == p + |parts[0]| && e == end + |parts[1]|
    ensures e <= |s| && NoMatchIn(s, p, end) && MatchAt(s, end) == Some(e)
    ensures parts[0] == s[p..end] && parts[1] == s[end..e]
    ensures Concat(parts[2..]) == s[e..]
  {
    PartsPinned(s, p, parts);
  }

  /** A split into one part is the text itself, with no match start anywhere in it. */
  lemma OnePart(s: string, p: nat, parts: seq<string>)
    requires p <= |s| && |parts| == 1 && Concat(parts) == s[p..] && SplitFrom(s, p, parts)
    ensures parts == [s[p..]] && NoMatchIn(s, p, |s|)
  {
    assert parts[1..] == [] && parts == [parts[0]];
    assert Concat(parts) == parts[0] + Concat([]);
    assert parts[0] == s[p..];
    assert NoMatchIn(s, p, p + |parts[0]|);
  }

  /** Parts that start with the plain piece and the capture the loop finds, then the loop's parts. */
  lemma CaptureThenRest(s: string, p: nat, q: nat, e: nat, parts: seq<string>)
    requires p <= q < |s| && NoMatchIn(s, p, q) && MatchAt(s, q) == Some(e)
    requires |parts| >= 2 && parts[0] == s[p..q] && parts[1] == s[q..e] && parts[2..] == Parts(s, e, e)
    ensures parts == Parts(s, p, q)
  {
    PartsAtCapture(s, p, q, e);
    assert parts == [parts[0], parts[1]] + parts[2..];
  }

  /** The loop at a position where the regex matches. */
  lemma PartsAtCapture(s: string, p: nat, q: nat, e: nat)
    requires p <= q < |s| && NoMatchIn(s, p, q) && MatchAt(s, q) == Some(e)
    ensures Parts(s, p, q) == [s[p..q], s[q..e]] + Parts(s, e, e)
  {
  }

  /** The loop at a position where the regex fails. */
  lemma PartsAtMiss(s: string, p: nat, q: nat)
    requires p <= q < |s| && NoMatchIn(s, p, q) && MatchAt(s, q).None?
    ensures NoMatchIn(s, p, q + 1) && Parts(s, p, q) == Parts(s, p, q + 1)
  {
    NoMatchStep(s, p, q);
  }

  /** A run of failures holds on any shorter stretch, and at each position in it. */
  lemma NoMatchWithin(s: string, p: nat, q: nat, r: nat)
    requires q <= r && NoMatchIn(s, p, r)
    ensures NoMatchIn(s, p, q)
    ensures p <= q < r && q <= |s| ==> MatchAt(s, q).None?
  {
  }

  /** Over a stretch where the regex fails everywhere, the loop only moves q on. */
  lemma {:induction false} PartsSkip(s: string, p: nat, q: nat, r: nat)
    requires p <= q <= r <= |s| && NoMatchIn(s, p, r)
    ensures NoMatchIn(s, p, q) && Parts(s, p, q) == Parts(s, p, r)
    decreases r - q
  {
    NoMatchWithin(s, p, q, r);
    if q < r {
      PartsAtMiss(s, p, q);
      PartsSkip(s, p, q + 1, r);
    }
  }

  /**
   * The split is the only one with its properties: parts that give back
   * s[p..], have no match start in a plain part, and capture exactly the
   * lazy match after each plain part are the parts the loop produces.
   */
  lemma {:induction false} SplitIsUnique(s: string, p: nat, parts: seq<string>)
    requires p <= |s| && |parts| % 2 == 1 && Concat(parts) == s[p..] && SplitFrom(s, p, parts)
    ensures parts == Parts(s, p, p)
    decreases |parts|
  {
    if |parts| == 1 {
      OnePart(s, p, parts);
      PartsSkip(s, p, p, |s|);
    } else {
      var end := p + |parts[0]|;
      var e := end + |parts[1]|;
      SplitTail(s, p, parts, end, e);
      PartsSkip(s, p, p, end);
      OddTwoApart(|parts|, |parts[2..]|);
      SplitFromRest(s, p, parts, e);
      SplitIsUnique(s, e, parts[2..]);
      CaptureThenRest(s, p, end, e, parts);
    }
  }

  /** SplitMarked's contract fixes its result: no other list of parts meets it. */
  lemma SplitMarkedUnique(text: string, parts: seq<string>)
    requires Concat(parts) == text && |parts| % 2 == 1 && SplitFrom(text, 0, parts)
    ensures parts == SplitMarked(text)
  {
    assert text[0..] == text;
    SplitIsUnique(text, 0, parts);
  }

  /** What the renderer shows for one part. */
  datatype Piece = Plain(text: string) | Highlighted(text: string)

  /** `part.slice(2, -2)` */
  function SliceInner(part: string): string {
    var from := if |part| < 2 then |part| else 2;
    var to := if |part| < 2 then 0 else |part| - 2;
    if from < to then part[from..to] else ""
  }

  /** The `parts.map(...)` body of the strong renderers. */
  function RenderPart(part: string): Piece {
    if StartsWith(part, "%%") && EndsWith(part, "%%") then Highlighted(SliceInner(part)) else Plain(part)
  }

  function Render(text: string): seq<Piece> {
    var parts := SplitMarked(text);
    seq(|parts|, i requires 0 <= i < |parts| => RenderPart(parts[i]))
  }

  /** The text a piece stood for in the marked-up source. */
  function Unrender(piece: Piece): string {
    match piece
    case Plain(t) => t
    case Highlighted(t) => "%%" + t + "%%"
  }

  /**
   * Every span the regex captured is shown highlighted with exactly its inner
   * text: the markers go, the inner text is kept whole.
   */
  lemma CapturedSpansHighlighted(text: string, i: nat)
    requires i < |SplitMarked(text)| && i % 2 == 1
    ensures var part := SplitMarked(text)[i];
      && RenderPart(part) == Highlighted(part[2..|part| - 2])
      && part == "%%" + part[2..|part| - 2] + "%%"
      && |part[2..|part| - 2]| >= 1
  {
    var part := SplitMarked(text)[i];
    assert IsMarkedSpan(part);
    assert part[..2] == "%%";
    assert part[|part| - 2..] == "%%";
  }

  /**
   * Rendering a part loses nothing, exactly unless the part is a bare "%%"
   * or "%%%": those start and end with the marker, so they are shown as an
   * empty highlight.
   */
  lemma RenderPartRoundTrip(part: string)
    ensures Unrender(RenderPart(part)) == part <==> part != "%%" && part != "%%%"
  {
    if StartsWith(part, "%%") && EndsWith(part, "%%") {
      if |part| == 2 {
        assert part == "%%" by { assert part == part[..2]; }
      } else if |part| == 3 {
        assert part == "%%%" by { assert part[0] == '%' && part[1] == '%' && part[2] == part[|part| - 1]; }
      } else {
        assert part[..2] == "%%" && part[|part| - 2..] == "%%";
        assert part == part[..2] + part[2..|part| - 2] + part[|part| - 2..];
      }
    } else {
      assert part != "%%" && part != "%%%";
    }
  }

  /** A stray "%%%" is not captured by the regex, yet it is rendered as an empty highlight. */
  lemma StrayMarkerVanishes()
    ensures SplitMarked("%%%") == ["%%%"]
    ensures Render("%%%") == [Highlighted("")]
  {
    assert MatchAt("%%%", 0) == None;
    assert MatchAt("%%%", 1) == None;
    assert MatchAt("%%%", 2) == None;
    assert Parts("%%%", 0, 2) == ["%%%"];
  }
}
