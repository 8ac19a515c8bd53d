/**
 * The generation page: it holds the analysis results handed up by the
 * generation view, the index of the result on show and the set of indices
 * already saved, and saves one result or all unsaved results as rows of the
 * `corrections` table.
 */
module GenerationPage {
  import opened Js
  import Pager

  /** The row inserted for one result. */
  datatype CorrectionRow = CorrectionRow(
    title: Value, beforeSentence: Value, beforeIntention: Value, afterSentence: Value, afterDetail: Value)

  /**
   * The row mapping of both save handlers. None is the TypeError of reading
   * a field of a missing (undefined) or null result.
   */
  function RowOf(result: Value): (r: Option<CorrectionRow>)
    ensures r.None? <==> result.Undefined? || result.Null?
    ensures r.Some? ==> && Member(result, "title") == Some(r.value.title)
                        && Member(result, "before_sentence") == Some(r.value.beforeSentence)
                        && Member(result, "before_intent") == Some(r.value.beforeIntention)
                        && Member(result, "after_sentence") == Some(r.value.afterSentence)
                        && Member(result, "after_detail") == Some(r.value.afterDetail)
  {
    if result.Undefined? || result.Null? then None
    else
      Some(CorrectionRow(
        OptionalMember(result, "title"), OptionalMember(result, "before_sentence"),
        OptionalMember(result, "before_intent"), OptionalMember(result, "after_sentence"),
        OptionalMember(result, "after_detail")))
  }

  /** `unsavedResults.map(...)`: None when some result throws. */
  function RowsOf(results: seq<Value>): (r: Option<seq<CorrectionRow>>)
    ensures r.Some? <==> forall i :: 0 <= i < |results| ==> RowOf(results[i]).Some?
    ensures r.Some? ==> |r.value| == |results| && forall i :: 0 <= i < |results| ==> RowOf(results[i]) == Some(r.value[i])
    decreases |results|
  {
    if |results| == 0 then Some([])
    else
      match (RowOf(results[0]), RowsOf(results[1..]))
      case (Some(row), Some(rows)) => Some([row] + rows)
      case _ => None
  }

  /** The indices below n that are not saved, in increasing order. */
  function UnsavedIndices(n: nat, saved: set<int>): (idx: seq<int>)
    ensures forall i: int :: i in idx <==> 0 <= i < n && i !in saved
    ensures forall k :: 0 <= k < |idx| ==> 0 <= idx[k] < n
    ensures forall a, b :: 0 <= a < b < |idx| ==> idx[a] < idx[b]
    decreases n
  {
    if n == 0 then []
    else if n - 1 in saved then UnsavedIndices(n - 1, saved)
    else UnsavedIndices(n - 1, saved) + [n - 1]
  }

  /** `analysisResults.filter((_, index) => !savedIndices.has(index))` */
  function UnsavedResults(results: seq<Value>, saved: set<int>): (r: seq<Value>)
    ensures |r| == |UnsavedIndices(|results|, saved)|
    ensures forall k :: 0 <= k < |r| ==> r[k] == results[UnsavedIndices(|results|, saved)[k]]
    ensures forall i :: 0 <= i < |results| && i !in saved ==> results[i] in r
    ensures forall v :: v in r ==> exists i :: 0 <= i < |results| && i !in saved && results[i] == v
  {
    var idx := UnsavedIndices(|results|, saved);
    var r := seq(|idx|, k requires 0 <= k < |idx| => results[idx[k]]);
    assert forall i :: 0 <= i < |results| && i !in saved ==> exists k :: 0 <= k < |idx| && idx[k] == i && r[k] in r;
    r
  }

  /**
   * Every unsaved result is counted once and the saved ones below the
   * length not at all: the unsaved results number len minus the saved
   * indices that are in range.
   */
  lemma UnsavedCount(n: nat, saved: set<int>)
    ensures |UnsavedIndices(n, saved)| + |saved * Pager.Indices(n)| == n
  {
    UnsavedPlusSaved(n, saved);
    SavedBelowIsCount(n, saved);
  }

  /** The number of saved indices below n. */
  function SavedBelow(n: nat, saved: set<int>): nat
    decreases n
  {
    if n == 0 then 0 else SavedBelow(n - 1, saved) + (if n - 1 in saved then 1 else 0)
  }

  lemma {:induction false} UnsavedPlusSaved(n: nat, saved: set<int>)
    ensures |UnsavedIndices(n, saved)| + SavedBelow(n, saved) == n
    decreases n
  {
    if n > 0 {
      UnsavedPlusSaved(n - 1, saved);
      UnsavedStep(n, saved);
    }
  }

  lemma {:induction false} SavedBelowIsCount(n: nat, saved: set<int>)
    ensures SavedBelow(n, saved) == |saved * Pager.Indices(n)|
    decreases n
  {
    if n == 0 {
      NoneSavedBelowZero(saved);
    } else {
      SavedBelowIsCount(n - 1, saved);
      SavedBelowStep(n, saved);
    }
  }

  lemma NoneSavedBelowZero(saved: set<int>)
    ensures |saved * Pager.Indices(0)| == 0
  {
    assert saved * Pager.Indices(0) == {};
  }

  /** Raising the bound by one adds n - 1 to the unsaved indices exactly when it is not saved. */
  lemma UnsavedStep(n: nat, saved: set<int>)
    requires n > 0
    ensures |UnsavedIndices(n, saved)| == |UnsavedIndices(n - 1, saved)| + (if n - 1 in saved then 0 else 1)
  {
  }

  /** Raising the bound by one adds n - 1 to the saved indices in range exactly when it is saved. */
  lemma SavedBelowStep(n: nat, saved: set<int>)
    requires n > 0 && SavedBelow(n - 1, saved) == |saved * Pager.Indices(n - 1)|
    ensures SavedBelow(n, saved) == |saved * Pager.Indices(n)|
  {
    assert Pager.Indices(n) == Pager.Indices(n - 1) + {n - 1};
    IntersectionGrows(saved, Pager.Indices(n - 1), n - 1);
  }

  /** Adding one new element m to b adds one to the intersection with s exactly when m is in s. */
  lemma IntersectionGrows(s: set<int>, b: set<int>, m: int)
    requires m !in b
    ensures |s * (b + {m})| == |s * b| + (if m in s then 1 else 0)
  {
    var extra: set<int> := if m in s then {m} else {};
    assert s * (b + {m}) == s * b + extra;
    assert s * b !! extra;
  }

  /** `analysisResults[index]`, undefined out of range. */
  function ResultAt(results: seq<Value>, index: int): Value {
    if 0 <= index < |results| then results[index] else Undefined
  }

  class Page {
    var analysisResults: seq<Value>
    var currentIndex: int
    var savedIndices: set<int>

    constructor ()
      ensures analysisResults == [] && currentIndex == 0 && savedIndices == {}
    {
      analysisResults := [];
      currentIndex := 0;
      savedIndices := {};
    }

    /** The saved indices all name a current result (true until a new, shorter analysis arrives). */
    predicate SavedInRange()
      reads this
    {
      forall i :: i in savedIndices ==> 0 <= i < |analysisResults|
    }

    /** The label count of the save-all button, `length - savedIndices.size`. */
    function RemainingCount(): int
      reads this
    {
      |analysisResults| - |savedIndices|
    }

    /** The save-all button is disabled when the sizes are equal. */
    predicate SaveAllDisabled()
      reads this
    {
      |savedIndices| == |analysisResults|
    }

    /**
     * While every saved index is in range, the label counts exactly the
     * unsaved results, and save-all is disabled exactly when none is left.
     */
    lemma RemainingIsUnsaved()
      requires SavedInRange()
      ensures RemainingCount() == |UnsavedResults(analysisResults, savedIndices)|
      ensures SaveAllDisabled() <==> UnsavedResults(analysisResults, savedIndices) == []
    {
      UnsavedCount(|analysisResults|, savedIndices);
      assert savedIndices * Pager.Indices(|analysisResults|) == savedIndices;
    }

    /** `handleAnalysisComplete`: the results are replaced; the index and the saved set are kept. */
    method HandleAnalysisComplete(results: seq<Value>)
      modifies this`analysisResults
      ensures analysisResults == results
    {
      analysisResults := results;
    }

    method Prev()
      modifies this`currentIndex
      ensures currentIndex == Pager.PrevIndex(old(currentIndex))
    {
      currentIndex := Pager.PrevIndex(currentIndex);
    }

    method Next()
      modifies this`currentIndex
      ensures currentIndex == Pager.NextIndex(old(currentIndex), |analysisResults|)
    {
      currentIndex := Pager.NextIndex(currentIndex, |analysisResults|);
    }

    /**
     * handleSaveCard. `inserted` is whether the store accepted the row.
     * Returns the row sent (None: nothing was sent).
     */
    method SaveCard(index: int, inserted: bool) returns (sent: Option<CorrectionRow>)
      modifies this`savedIndices
      ensures index in old(savedIndices) ==> sent.None? && savedIndices == old(savedIndices)
      ensures index !in old(savedIndices) ==> sent == RowOf(ResultAt(analysisResults, index))
      ensures savedIndices == if sent.Some? && inserted then old(savedIndices) + {index} else old(savedIndices)
    {
      if index in savedIndices {
        return None;
      }
      sent := RowOf(ResultAt(analysisResults, index));
      if sent.Some? && inserted {
        savedIndices := savedIndices + {index};
      }
    }

    /**
     * handleSaveAll: one insert of the rows of exactly the unsaved results,
     * in order; on success every index is saved, otherwise nothing changes.
     */
    method SaveAll(inserted: bool) returns (sent: Option<seq<CorrectionRow>>)
      modifies this`savedIndices
      ensures sent == RowsOf(UnsavedResults(analysisResults, old(savedIndices)))
      ensures savedIndices == if sent.Some? && inserted then Pager.Indices(|analysisResults|) else old(savedIndices)
    {
      sent := RowsOf(UnsavedResults(analysisResults, savedIndices));
      if sent.Some? && inserted {
        savedIndices := Pager.Indices(|analysisResults|);
      }
    }
  }

  /**
   * The saved set survives a new analysis: after saving all of three
   * results, a new analysis with two results shows a count of -1 and an
   * enabled save-all button, with nothing left to save.
   */
  lemma StaleSavedSetAfterNewAnalysis(saved: set<int>, newResults: seq<Value>)
    requires saved == Pager.Indices(3) && |newResults| == 2
    ensures |newResults| - |saved| == -1
    ensures |saved| != |newResults|
    ensures UnsavedResults(newResults, saved) == []
  {
    assert UnsavedIndices(2, saved) == [];
  }
}
