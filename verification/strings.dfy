/**
 * The JavaScript string operations the app relies on: `startsWith`,
 * `includes`, `split` on one character, `join`, a global literal `replace`,
 * `trim`, `Array.prototype.filter`, and decimal rendering of a number.
 */
module Strings {

  /** `s.startsWith(p)` */
  predicate StartsWith(s: string, p: string) {
    |p| <= |s| && s[..|p|] == p
  }

  /** `s.endsWith(p)` */
  predicate EndsWith(s: string, p: string) {
    |p| <= |s| && s[|s| - |p|..] == p
  }

  /** `s.includes(p)`: case-sensitive substring search. */
  predicate Includes(s: string, p: string)
    decreases |s|
  {
    StartsWith(s, p) || (|s| > 0 && Includes(s[1..], p))
  }

  /** p occurs in s at position i. */
  ghost predicate OccursAt(s: string, p: string, i: int) {
    0 <= i && i + |p| <= |s| && s[i..i + |p|] == p
  }

  /** `includes` finds exactly the positions at which p occurs. */
  lemma {:induction false} IncludesIffOccurs(s: string, p: string)
    ensures Includes(s, p) <==> exists i :: OccursAt(s, p, i)
    decreases |s|
  {
    if StartsWith(s, p) {
      assert OccursAt(s, p, 0);
    } else if |s| > 0 {
      IncludesIffOccurs(s[1..], p);
      if exists i :: OccursAt(s[1..], p, i) {
        var i :| OccursAt(s[1..], p, i);
        assert s[1..][i..i + |p|] == s[i + 1..i + 1 + |p|];
        assert OccursAt(s, p, i + 1);
      }
      if exists i :: OccursAt(s, p, i) {
        var i :| OccursAt(s, p, i);
        assert i != 0;
        assert s[1..][i - 1..i - 1 + |p|] == s[i..i + |p|];
        assert OccursAt(s[1..], p, i - 1);
      }
    }
  }

  /** A substring of a string without p is itself without p. */
  lemma IncludesOfSlice(s: string, p: string, a: nat, b: nat)
    requires a <= b <= |s|
    ensures Includes(s[a..b], p) ==> Includes(s, p)
  {
    IncludesIffOccurs(s[a..b], p);
    IncludesIffOccurs(s, p);
    if Includes(s[a..b], p) {
      var i :| OccursAt(s[a..b], p, i);
      var t := s[a..b];
      var u := s[a + i..a + i + |p|];
      assert t[i..i + |p|] == u by {
        assert |u| == |p|;
        forall k | 0 <= k < |u| ensures t[i..i + |p|][k] == u[k] { }
      }
      assert OccursAt(s, p, a + i);
    }
  }

  /** A prefix without the first character of p cannot hold or start an occurrence of p. */
  lemma {:induction false} IncludesAfterPrefix(h: string, y: string, p: string)
    requires |p| > 0 && p[0] !in h
    ensures Includes(h + y, p) <==> Includes(y, p)
    decreases |h|
  {
    if |h| > 0 {
      assert (h + y)[0] == h[0];
      assert !StartsWith(h + y, p) by { assert (h + y)[0] != p[0]; }
      assert (h + y)[1..] == h[1..] + y;
      assert p[0] !in h[1..] by {
        forall i | 0 <= i < |h[1..]| ensures h[1..][i] != p[0] { assert h[1..][i] == h[i + 1]; }
      }
      IncludesAfterPrefix(h[1..], y, p);
    } else {
      assert h + y == y;
    }
  }

  /**
   * `s.split(c)` for a one-character separator: the pieces between the
   * occurrences of c, always at least one ("" splits to [""]).
   */
  function Split(s: string, c: char): (parts: seq<string>)
    ensures |parts| >= 1
    ensures forall i :: 0 <= i < |parts| ==> c !in parts[i]
    decreases |s|
  {
    if |s| == 0 then [""]
    else
      var rest := Split(s[1..], c);
      if s[0] == c then [""] + rest
      else [[s[0]] + rest[0]] + rest[1..]
  }

  /** `parts.join(sep)` */
  function Join(parts: seq<string>, sep: string): string
    decreases |parts|
  {
    if |parts| == 0 then ""
    else if |parts| == 1 then parts[0]
    else parts[0] + sep + Join(parts[1..], sep)
  }

  /** Joining the pieces of a split with the separator gives the string back. */
  lemma {:induction false} JoinSplit(s: string, c: char)
    ensures Join(Split(s, c), [c]) == s
    decreases |s|
  {
    if |s| > 0 {
      var rest := Split(s[1..], c);
      JoinSplit(s[1..], c);
      if s[0] == c {
        assert Join(Split(s, c), [c]) == "" + [c] + Join(rest, [c]);
        assert s == [s[0]] + s[1..];
      } else if |rest| == 1 {
        assert Split(s, c) == [[s[0]] + rest[0]];
        assert s == [s[0]] + s[1..];
      } else {
        var parts := Split(s, c);
        assert parts[1..] == rest[1..];
        assert Join(parts, [c]) == [s[0]] + rest[0] + [c] + Join(rest[1..], [c]);
        assert Join(rest, [c]) == rest[0] + [c] + Join(rest[1..], [c]);
        assert s == [s[0]] + s[1..];
      }
    }
  }

  /** A string without the separator splits into itself alone. */
  lemma {:induction false} SplitWithoutSeparator(s: string, c: char)
    requires c !in s
    ensures Split(s, c) == [s]
    decreases |s|
  {
    if |s| > 0 {
      assert c !in s[1..] by {
        forall i | 0 <= i < |s[1..]| ensures s[1..][i] != c { assert s[1..][i] == s[i + 1]; }
      }
      SplitWithoutSeparator(s[1..], c);
      assert s == [s[0]] + s[1..];
    }
  }

  /** Splitting a + c + t where a has no c: a is the first piece, the rest splits t. */
  lemma {:induction false} SplitAfterPiece(a: string, c: char, t: string)
    requires c !in a
    ensures Split(a + [c] + t, c) == [a] + Split(t, c)
    decreases |a|
  {
    var s := a + [c] + t;
    if |a| == 0 {
      assert s[0] == c && s[1..] == t;
    } else {
      assert c !in a[1..] by {
        forall i | 0 <= i < |a[1..]| ensures a[1..][i] != c { assert a[1..][i] == a[i + 1]; }
      }
      SplitAfterPiece(a[1..], c, t);
      assert s[1..] == a[1..] + [c] + t;
      assert [s[0]] + a[1..] == a;
    }
  }

  /**
   * Split is determined by the round trip: any non-empty list of pieces free
   * of c that joins (with c) to s is Split(s, c).
   */
  lemma {:induction false} SplitUnique(parts: seq<string>, c: char)
    requires |parts| >= 1
    requires forall i :: 0 <= i < |parts| ==> c !in parts[i]
    ensures Split(Join(parts, [c]), c) == parts
    decreases |parts|
  {
    if |parts| == 1 {
      SplitWithoutSeparator(parts[0], c);
    } else {
      var t := Join(parts[1..], [c]);
      assert Join(parts, [c]) == parts[0] + [c] + t;
      SplitAfterPiece(parts[0], c, t);
      SplitUnique(parts[1..], c);
      assert parts == [parts[0]] + parts[1..];
    }
  }

  /** Join distributes over concatenation of two non-empty lists. */
  lemma {:induction false} JoinAppend(xs: seq<string>, ys: seq<string>, sep: string)
    requires |xs| >= 1 && |ys| >= 1
    ensures Join(xs + ys, sep) == Join(xs, sep) + sep + Join(ys, sep)
    decreases |xs|
  {
    if |xs| == 1 {
      assert (xs + ys)[1..] == ys;
    } else {
      assert (xs + ys)[1..] == xs[1..] + ys;
      JoinAppend(xs[1..], ys, sep);
    }
  }

  /** What the pieces before a non-empty tail contribute to a join: their join and a separator, or nothing. */
  function JoinLead(xs: seq<string>, sep: string): string {
    if |xs| == 0 then "" else Join(xs, sep) + sep
  }

  lemma JoinAfter(xs: seq<string>, ys: seq<string>, sep: string)
    requires |ys| >= 1
    ensures Join(xs + ys, sep) == JoinLead(xs, sep) + Join(ys, sep)
  {
    if |xs| == 0 {
      assert xs + ys == ys;
    } else {
      JoinAppend(xs, ys, sep);
    }
  }

  /** Every character of every piece appears in the join. */
  lemma {:induction false} JoinContainsPieces(parts: seq<string>, sep: string, i: nat)
    requires i < |parts|
    ensures forall c :: c in parts[i] ==> c in Join(parts, sep)
    decreases |parts|
  {
    if |parts| > 1 {
      if i > 0 {
        JoinContainsPieces(parts[1..], sep, i - 1);
      }
      assert Join(parts, sep) == parts[0] + sep + Join(parts[1..], sep);
    }
  }

  /** A join with a non-empty separator is empty exactly when it joins nothing or one empty piece. */
  lemma {:induction false} JoinEmpty(parts: seq<string>, sep: string)
    requires |sep| > 0
    ensures Join(parts, sep) == "" <==> (|parts| == 0 || (|parts| == 1 && parts[0] == ""))
  {
    if |parts| >= 2 {
      assert |Join(parts, sep)| >= |sep|;
    }
  }

  /** `xs.filter(f)` */
  function Filter<T>(xs: seq<T>, f: T -> bool): (r: seq<T>)
    ensures |r| <= |xs|
    ensures forall x :: x in r ==> x in xs && f(x)
    ensures forall x :: x in xs && f(x) ==> x in r
    decreases |xs|
  {
    if |xs| == 0 then []
    else if f(xs[0]) then [xs[0]] + Filter(xs[1..], f)
    else Filter(xs[1..], f)
  }

  /** A filter keeps every copy of what it keeps and no copy of anything else. */
  lemma {:induction false} FilterCounts<T>(xs: seq<T>, f: T -> bool)
    ensures forall x :: multiset(Filter(xs, f))[x] == if f(x) then multiset(xs)[x] else 0
    decreases |xs|
  {
    if |xs| > 0 {
      FilterCounts(xs[1..], f);
      assert xs == [xs[0]] + xs[1..];
      assert multiset(xs) == multiset{xs[0]} + multiset(xs[1..]);
    }
  }

  /** r can be obtained from s by deleting elements (order is kept). */
  ghost predicate IsSubsequence<T>(r: seq<T>, s: seq<T>)
    decreases |s|
  {
    if |r| == 0 then true
    else if |s| == 0 then false
    else if r[0] == s[0] then IsSubsequence(r[1..], s[1..])
    else IsSubsequence(r, s[1..])
  }

  /** A filter keeps the order of what it keeps. */
  lemma {:induction false} FilterIsSubsequence<T>(xs: seq<T>, f: T -> bool)
    ensures IsSubsequence(Filter(xs, f), xs)
    decreases |xs|
  {
    if |xs| > 0 {
      FilterIsSubsequence(xs[1..], f);
      var r := Filter(xs[1..], f);
      if f(xs[0]) {
        assert ([xs[0]] + r)[1..] == r;
      } else if |r| > 0 && r[0] == xs[0] {
        // r is a subsequence of xs[1..] and so of xs, starting one step later
        SubsequenceOfTail(r, xs);
      }
    }
  }

  lemma {:induction false} SubsequenceOfTail<T>(r: seq<T>, s: seq<T>)
    requires |s| > 0 && IsSubsequence(r, s[1..])
    ensures IsSubsequence(r, s)
    decreases |s|, |r|
  {
    if |r| > 0 && r[0] == s[0] {
      // r[1..] is a subsequence of s[1..] because r is one of s[1..]
      SubsequenceDropHead(r, s[1..]);
    }
  }

  lemma {:induction false} SubsequenceDropHead<T>(r: seq<T>, s: seq<T>)
    requires |r| > 0 && IsSubsequence(r, s)
    ensures IsSubsequence(r[1..], s)
    decreases |s|, |r|
  {
    if |s| > 0 {
      if r[0] == s[0] {
        SubsequenceOfTail(r[1..], s);
      } else {
        SubsequenceDropHead(r, s[1..]);
        SubsequenceOfTail(r[1..], s);
      }
    }
  }

  /**
   * `s.replace(/pat/g, rep)` for a literal pattern: occurrences are found
   * left to right without overlap, and each is replaced by rep.
   */
  function ReplaceAll(s: string, pat: string, rep: string): string
    requires |pat| > 0
    decreases |s|
  {
    if |s| == 0 then ""
    else if StartsWith(s, pat) then rep + ReplaceAll(s[|pat|..], pat, rep)
    else [s[0]] + ReplaceAll(s[1..], pat, rep)
  }

  /** The characters `String.prototype.trim` and the regex class `\s` treat as white space. */
  predicate IsJsSpace(c: char) {
    || c == '\t' || c == '\n' || c == '\U{000B}' || c == '\U{000C}' || c == '\r'
    || c == ' ' || c == '\U{00A0}' || c == '\U{1680}'
    || ('\U{2000}' <= c <= '\U{200A}')
    || c == '\U{2028}' || c == '\U{2029}' || c == '\U{202F}' || c == '\U{205F}'
    || c == '\U{3000}' || c == '\U{FEFF}'
  }

  function TrimStart(s: string): (r: string)
    ensures |r| <= |s| && r == s[|s| - |r|..]
    ensures forall i :: 0 <= i < |s| - |r| ==> IsJsSpace(s[i])
    ensures |r| > 0 ==> !IsJsSpace(r[0])
    decreases |s|
  {
    if |s| > 0 && IsJsSpace(s[0]) then TrimStart(s[1..]) else s
  }

  function TrimEnd(s: string): (r: string)
    ensures |r| <= |s| && r == s[..|r|]
    ensures forall i :: |r| <= i < |s| ==> IsJsSpace(s[i])
    ensures |r| > 0 ==> !IsJsSpace(r[|r| - 1])
    decreases |s|
  {
    if |s| > 0 && IsJsSpace(s[|s| - 1]) then TrimEnd(s[..|s| - 1]) else s
  }

  /** Everything in s before a and from b on is white space. */
  ghost predicate SpaceOutside(s: string, a: int, b: int) {
    && 0 <= a <= b <= |s|
    && (forall i :: 0 <= i < a ==> IsJsSpace(s[i]))
    && (forall i :: b <= i < |s| ==> IsJsSpace(s[i]))
  }

  /** r is s with only white space cut from its two ends. */
  ghost predicate IsTrimOf(r: string, s: string) {
    exists a, b :: SpaceOutside(s, a, b) && r == s[a..b]
  }

  /** `s.trim()`: s less its leading and trailing white space. */
  function Trim(s: string): (r: string)
    ensures exists a, b :: 0 <= a <= b <= |s| && r == s[a..b]
    ensures IsTrimOf(r, s)
    ensures |r| > 0 ==> !IsJsSpace(r[0]) && !IsJsSpace(r[|r| - 1])
  {
    var t := TrimStart(s);
    var r := TrimEnd(t);
    TrimmedTwice(s, t, r);
    r
  }

  /** Cutting white space from the front of s, then from the back of what is left, cuts s to a slice. */
  lemma TrimmedTwice(s: string, t: string, r: string)
    requires |t| <= |s| && t == s[|s| - |t|..] && forall i :: 0 <= i < |s| - |t| ==> IsJsSpace(s[i])
    requires |r| <= |t| && r == t[..|r|] && forall i :: |r| <= i < |t| ==> IsJsSpace(t[i])
    ensures SpaceOutside(s, |s| - |t|, |s| - |t| + |r|) && r == s[|s| - |t|..|s| - |t| + |r|]
  {
    var a := |s| - |t|;
    forall i | a + |r| <= i < |s|
      ensures IsJsSpace(s[i])
    {
      assert s[i] == t[i - a];
    }
  }

  /**
   * Only one piece of s is cut from it by white space alone and neither
   * starts nor ends with white space, so Trim's contract fixes its result.
   */
  lemma TrimUnique(s: string, r1: string, r2: string)
    requires IsTrimOf(r1, s) && (|r1| > 0 ==> !IsJsSpace(r1[0]) && !IsJsSpace(r1[|r1| - 1]))
    requires IsTrimOf(r2, s) && (|r2| > 0 ==> !IsJsSpace(r2[0]) && !IsJsSpace(r2[|r2| - 1]))
    ensures r1 == r2
  {
    var a1, b1 :| SpaceOutside(s, a1, b1) && r1 == s[a1..b1];
    var a2, b2 :| SpaceOutside(s, a2, b2) && r2 == s[a2..b2];
    if |r1| > 0 {
      assert s[a1] == r1[0] && s[b1 - 1] == r1[|r1| - 1];
      NonSpaceInside(s, a2, b2, a1);
      NonSpaceInside(s, a2, b2, b1 - 1);
      assert s[a2] == r2[0] && s[b2 - 1] == r2[|r2| - 1];
      NonSpaceInside(s, a1, b1, a2);
      NonSpaceInside(s, a1, b1, b2 - 1);
    }
  }

  /** A character that is not white space lies inside any slice cut from s by white space alone. */
  lemma NonSpaceInside(s: string, a: int, b: int, k: int)
    requires SpaceOutside(s, a, b) && 0 <= k < |s| && !IsJsSpace(s[k])
    ensures a <= k < b
  {
  }

  /** Trim is the only text with its contract. */
  lemma TrimIsTheTrim(s: string, r: string)
    requires IsTrimOf(r, s) && (|r| > 0 ==> !IsJsSpace(r[0]) && !IsJsSpace(r[|r| - 1]))
    ensures r == Trim(s)
  {
    TrimUnique(s, r, Trim(s));
  }

  function DigitChar(d: nat): char
    requires d < 10
  {
    "0123456789"[d]
  }

  /** The decimal rendering of n, as a template literal `${n}` writes it. */
  function NatToString(n: nat): string
    decreases n
  {
    if n < 10 then [DigitChar(n)] else NatToString(n / 10) + [DigitChar(n % 10)]
  }

  function IntToString(n: int): string {
    if n < 0 then "-" + NatToString(-n) else NatToString(n)
  }

  /** The concatenation of a list of strings. */
  function Concat(ss: seq<string>): string
    decreases |ss|
  {
    if |ss| == 0 then "" else ss[0] + Concat(ss[1..])
  }

  lemma {:induction false} ConcatSnoc(ss: seq<string>, x: string)
    ensures Concat(ss + [x]) == Concat(ss) + x
    decreases |ss|
  {
    if |ss| > 0 {
      assert (ss + [x])[1..] == ss[1..] + [x];
      ConcatSnoc(ss[1..], x);
    }
  }
}
