/**
 * The `useFlashcards` hook: a local list of flashcards kept in step with
 * the store. Fetching replaces the list with the mapped study records,
 * creating appends the row the store returns, updating sets `is_completed`
 * on the cards with a given id, deleting drops the cards with a given id.
 * Every store call's outcome is a parameter.
 */
module FlashcardStore {
  import opened Js
  import opened Strings

  /** A JavaScript object as the hook holds it: a study record, or a card. */
  type Object = map<string, Value>

  const NoDataMessage := "카드 생성 후 데이터를 받지 못했습니다"

  /** `card.id === id` */
  predicate HasId(card: Object, id: string) {
    Field(card, "id") == Str(id)
  }

  /**
   * The `data.map(...)` step of fetchFlashcards. None is the TypeError of
   * reading `is_completed` of a record without its joined material.
   */
  function CardOfRecord(record: Object): (r: Option<Object>)
    ensures r.None? <==> Member(Field(record, "learning_materials"), "is_completed").None?
    ensures r.Some? ==> r.value.Keys == {"id", "front", "back", "category", "created_at", "is_completed", "material_id"}
    ensures r.Some? ==> && r.value["id"] == Field(record, "id")
                        && r.value["front"] == Field(record, "before_sentence")
                        && r.value["back"] == Field(record, "after_sentence")
                        && r.value["category"] == Field(record, "difficulty_level")
                        && r.value["created_at"] == Field(record, "created_at")
                        && r.value["material_id"] == Field(record, "material_id")
                        && Member(Field(record, "learning_materials"), "is_completed") == Some(r.value["is_completed"])
  {
    match Member(Field(record, "learning_materials"), "is_completed")
    case None => None
    case Some(done) =>
      Some(map[
        "id" := Field(record, "id"),
        "front" := Field(record, "before_sentence"),
        "back" := Field(record, "after_sentence"),
        "category" := Field(record, "difficulty_level"),
        "created_at" := Field(record, "created_at"),
        "is_completed" := done,
        "material_id" := Field(record, "material_id")])
  }

  /** `data.map(...)`: every record mapped, in order, unless one throws. */
  function CardsOfRecords(records: seq<Object>): (r: Option<seq<Object>>)
    ensures r.Some? <==> forall i :: 0 <= i < |records| ==> CardOfRecord(records[i]).Some?
    ensures r.Some? ==> |r.value| == |records|
    ensures r.Some? ==> forall i :: 0 <= i < |records| ==> CardOfRecord(records[i]) == Some(r.value[i])
    decreases |records|
  {
    if |records| == 0 then Some([])
    else
      match (CardOfRecord(records[0]), CardsOfRecords(records[1..]))
      case (Some(card), Some(cards)) => Some([card] + cards)
      case _ => None
  }

  /**
   * The local update of updateFlashcard: every card with the id gets
   * `is_completed` set to the given value (undefined when the update left
   * it out); every other card, and every other field, stays as it was.
   */
  function MarkCompleted(cards: seq<Object>, id: string, isCompleted: Value): (r: seq<Object>)
    ensures |r| == |cards|
    ensures forall i :: 0 <= i < |cards| && HasId(cards[i], id) ==>
      r[i].Keys == cards[i].Keys + {"is_completed"} && r[i]["is_completed"] == isCompleted
      && forall k :: k in cards[i] && k != "is_completed" ==> r[i][k] == cards[i][k]
    ensures forall i :: 0 <= i < |cards| && !HasId(cards[i], id) ==> r[i] == cards[i]
  {
    seq(|cards|, i requires 0 <= i < |cards| =>
      if HasId(cards[i], id) then cards[i]["is_completed" := isCompleted] else cards[i])
  }

  /** The update keeps every card's id, so applying it twice is applying it once. */
  lemma MarkCompletedIdempotent(cards: seq<Object>, id: string, isCompleted: Value)
    ensures forall i :: 0 <= i < |cards| ==> Field(MarkCompleted(cards, id, isCompleted)[i], "id") == Field(cards[i], "id")
    ensures MarkCompleted(MarkCompleted(cards, id, isCompleted), id, isCompleted) == MarkCompleted(cards, id, isCompleted)
  {
    var once := MarkCompleted(cards, id, isCompleted);
    forall i | 0 <= i < |cards|
      ensures Field(once[i], "id") == Field(cards[i], "id")
    {
      if HasId(cards[i], id) {
        assert "id" in cards[i];
      }
    }
    var twice := MarkCompleted(once, id, isCompleted);
    forall i | 0 <= i < |cards| ensures twice[i] == once[i] {
      if HasId(cards[i], id) {
        assert once[i]["is_completed" := isCompleted] == once[i];
      }
    }
  }

  /** The local update of deleteFlashcard, `prev.filter(card => card.id !== id)`. */
  function RemoveId(cards: seq<Object>, id: string): (r: seq<Object>)
    ensures forall c :: c in r ==> c in cards && !HasId(c, id)
    ensures forall c :: c in cards && !HasId(c, id) ==> c in r
    ensures IsSubsequence(r, cards)
    ensures forall c :: multiset(r)[c] == if HasId(c, id) then 0 else multiset(cards)[c]
  {
    var keep := (c: Object) => !HasId(c, id);
    FilterIsSubsequence(cards, keep);
    FilterCounts(cards, keep);
    Filter(cards, keep)
  }

  /** Deleting an id that no card has changes nothing; deleting twice is deleting once. */
  lemma {:induction false} RemoveIdAbsent(cards: seq<Object>, id: string)
    requires forall i :: 0 <= i < |cards| ==> !HasId(cards[i], id)
    ensures RemoveId(cards, id) == cards
    decreases |cards|
  {
    if |cards| > 0 {
      RemoveIdAbsent(cards[1..], id);
      assert cards == [cards[0]] + cards[1..];
    }
  }

  lemma RemoveIdIdempotent(cards: seq<Object>, id: string)
    ensures RemoveId(RemoveId(cards, id), id) == RemoveId(cards, id)
  {
    var once := RemoveId(cards, id);
    forall i | 0 <= i < |once| ensures !HasId(once[i], id) {
      assert once[i] in once;
    }
    RemoveIdAbsent(once, id);
  }

  /** The row createFlashcard inserts: the input, not completed, stamped with the time. */
  function NewRow(input: Object, now: string): (row: Object)
    ensures row.Keys == input.Keys + {"is_completed", "created_at"}
    ensures row["is_completed"] == Bool(false) && row["created_at"] == Str(now)
    ensures forall k :: k in input && k != "is_completed" && k != "created_at" ==> row[k] == input[k]
  {
    input["is_completed" := Bool(false)]["created_at" := Str(now)]
  }

  class FlashcardList {
    var flashcards: seq<Object>
    var loading: bool
    var error: Option<string>

    constructor ()
      ensures flashcards == [] && !loading && error.None?
    {
      flashcards := [];
      loading := false;
      error := None;
    }

    /**
     * fetchFlashcards. `fetched` is the query's outcome. The error is
     * cleared first; on success the list becomes the mapped records; a
     * store error or a record that throws sets the error and keeps the list.
     * Loading ends false either way.
     */
    method Fetch(fetched: Result<seq<Object>, string>, typeErrorText: string)
      modifies this`flashcards, this`loading, this`error
      ensures !loading
      ensures fetched.Err? ==> error == Some(fetched.error) && flashcards == old(flashcards)
      ensures fetched.Ok? ==> match CardsOfRecords(fetched.value)
                              case Some(cards) => flashcards == cards && error.None?
                              case None => flashcards == old(flashcards) && error == Some(typeErrorText)
    {
      loading := true;
      error := None;
      match fetched {
        case Err(e) =>
          error := Some(e);
        case Ok(records) =>
          var cards := CardsOfRecords(records);
          if cards.Some? {
            flashcards := cards.value;
          } else {
            error := Some(typeErrorText);
          }
      }
      loading := false;
    }

    /**
     * createFlashcard. `inserted` is the insert's outcome: the rows the
     * store returns, or its error. The first row returned is appended and
     * returned; no row, or an error, sets the error, is rethrown, and
     * leaves the list as it was.
     */
    method Create(input: Object, now: string, inserted: Result<seq<Object>, string>)
      returns (sent: Object, outcome: Result<Object, string>)
      modifies this`flashcards, this`error
      ensures sent == NewRow(input, now)
      ensures inserted.Err? ==> outcome == Err(inserted.error)
      ensures inserted.Ok? && |inserted.value| == 0 ==> outcome == Err(NoDataMessage)
      ensures inserted.Ok? && |inserted.value| > 0 ==> outcome == Ok(inserted.value[0])
      ensures outcome.Ok? ==> flashcards == old(flashcards) + [outcome.value] && error.None?
      ensures outcome.Err? ==> flashcards == old(flashcards) && error == Some(outcome.error)
    {
      error := None;
      sent := NewRow(input, now);
      match inserted {
        case Err(e) =>
          outcome := Err(e);
        case Ok(rows) =>
          if |rows| == 0 {
            outcome := Err(NoDataMessage);
          } else {
            outcome := Ok(rows[0]);
          }
      }
      if outcome.Ok? {
        flashcards := flashcards + [outcome.value];
      } else {
        error := Some(outcome.error);
      }
    }

    /**
     * updateFlashcard. `lookup` is the study record's `material_id` query,
     * `updated` the material update's outcome (the rows it returns). The
     * value written is `updates.is_completed` (undefined when the update
     * left it out). The error is not cleared first.
     */
    method Update(id: string, isCompleted: Value, lookup: Result<Object, string>, updated: Result<seq<Value>, string>)
      returns (materialSent: Option<Value>, outcome: Result<Value, string>)
      modifies this`flashcards, this`error
      ensures lookup.Err? ==> materialSent.None? && outcome == Err(lookup.error)
      ensures lookup.Ok? ==> materialSent == Some(Field(lookup.value, "material_id"))
      ensures lookup.Ok? && updated.Err? ==> outcome == Err(updated.error)
      ensures lookup.Ok? && updated.Ok? ==>
        outcome == Ok(if |updated.value| > 0 then updated.value[0] else Undefined)
      ensures outcome.Ok? ==> flashcards == MarkCompleted(old(flashcards), id, isCompleted) && error == old(error)
      ensures outcome.Err? ==> flashcards == old(flashcards) && error == Some(outcome.error)
    {
      materialSent := None;
      match lookup {
        case Err(e) =>
          outcome := Err(e);
        case Ok(record) =>
          materialSent := Some(Field(record, "material_id"));
          match updated {
            case Err(e) =>
              outcome := Err(e);
            case Ok(rows) =>
              flashcards := MarkCompleted(flashcards, id, isCompleted);
              outcome := Ok(if |rows| > 0 then rows[0] else Undefined);
          }
      }
      if outcome.Err? {
        error := Some(outcome.error);
      }
    }

    /**
     * deleteFlashcard. `failure` is the delete's error, if any. On success
     * the cards with the id are dropped; on failure the error is set (and
     * rethrown) and the list is kept.
     */
    method Delete(id: string, failure: Option<string>)
      modifies this`flashcards, this`error
      ensures failure.None? ==> flashcards == RemoveId(old(flashcards), id) && error == old(error)
      ensures failure.Some? ==> flashcards == old(flashcards) && error == failure
    {
      if failure.Some? {
        error := failure;
      } else {
        flashcards := RemoveId(flashcards, id);
      }
    }
  }
}
