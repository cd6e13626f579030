/** Properties of the trade-entry form that relate several of its operations. */
module JournalFormProperties {
  import opened Outcomes
  import opened JsText
  import opened JournalForm

  /** The chain of checks the save button runs accepts a draft exactly when
      every required field is non-empty. */
  lemma CompleteIffRequiredFilled(d: Draft)
    ensures Complete(d) <==> forall f :: f in Required ==> Truthy(Get(d, f))
  {
  }

  /** Editing improvements, emotions, remarks, the position side or the
      trading type never changes whether the draft can be saved. */
  lemma OptionalEditKeepsVerdict(d: Draft, f: Field, v: string, editing: Option<TradeEntry>, now: int)
    requires f !in Required
    ensures HandleSave(Change(d, f, v), editing, now).Success? <==> HandleSave(d, editing, now).Success?
  {
  }

  /** A draft whose required fields are filled is accepted even when every
      optional free-text field is empty. */
  lemma OptionalFieldsNotValidated(d: Draft, editing: Option<TradeEntry>, now: int)
    requires forall f :: f in Required ==> Truthy(Get(d, f))
    requires d.improvements == "" && d.emotions == "" && d.remarks == ""
    ensures HandleSave(d, editing, now).Success?
  {
  }

  /** A fresh form cannot be saved: the instrument starts empty. */
  lemma FreshDraftRefused(today: string, now: int)
    ensures HandleSave(InitDraft(None, today), None, now) == Failure(MissingRequiredField)
  {
  }

  /** Opening an entry for editing and saving it untouched gives back the
      very same entry, id and date included; when a required field of the
      stored entry is empty the save is refused instead. */
  lemma EditRoundTrip(e: TradeEntry, today: string, now: int)
    ensures Complete(DraftOf(e)) ==> HandleSave(InitDraft(Some(e), today), Some(e), now) == Success(e)
    ensures !Complete(DraftOf(e)) ==> HandleSave(InitDraft(Some(e), today), Some(e), now).Failure?
  {
  }

  /** A record emitted after editing an entry keeps that entry's id, whatever
      the clock says and whatever was changed. */
  lemma EditKeepsId(e: TradeEntry, edits: seq<Edit>, today: string, now: int)
    ensures var r := HandleSave(ApplyEdits(InitDraft(Some(e), today), edits), Some(e), now);
            r.Success? ==> r.value.id == e.id && r.value.date == e.date
  {
    ApplyEditsKeepsDate(InitDraft(Some(e), today), edits);
  }

  /** The draft is built once from the entry the form opened with, while the
      id is read at save time. If the two differ, the emitted record carries
      the first entry's fields under the second entry's id. */
  lemma StaleDraftTakesNewId(original: TradeEntry, current: TradeEntry, today: string, now: int)
    requires Complete(DraftOf(original))
    ensures HandleSave(InitDraft(Some(original), today), Some(current), now)
            == Success(WithId(DraftOf(original), current.id))
  {
  }

  /** The form has no input for the date, so no series of edits changes it. */
  lemma {:induction false} ApplyEditsKeepsDate(d: Draft, edits: seq<Edit>)
    ensures ApplyEdits(d, edits).date == d.date
    decreases |edits|
  {
    if edits != [] {
      ApplyEditsKeepsDate(Change(d, edits[0].name, edits[0].value), edits[1..]);
    }
  }

  /** Applying one more edit at the end is one more change on the result. */
  lemma {:induction false} ApplyEditsSnoc(d: Draft, edits: seq<Edit>, x: Edit)
    ensures ApplyEdits(d, edits + [x]) == Change(ApplyEdits(d, edits), x.name, x.value)
    decreases |edits|
  {
    if edits == [] {
      assert edits + [x] == [x];
    } else {
      assert (edits + [x])[1..] == edits[1..] + [x];
      ApplyEditsSnoc(Change(d, edits[0].name, edits[0].value), edits[1..], x);
    }
  }

  /** After a series of edits every field shows the value of the last edit
      aimed at it, or its starting value when no edit touched it. */
  lemma {:induction false} ApplyEditsLastWins(d: Draft, edits: seq<Edit>, f: Field)
    ensures Get(ApplyEdits(d, edits), f) == FinalValue(d, edits, f)
    decreases |edits|
  {
    if edits != [] {
      var init := edits[..|edits| - 1];
      var x := edits[|edits| - 1];
      assert edits == init + [x];
      ApplyEditsSnoc(d, init, x);
      ApplyEditsLastWins(d, init, f);
    }
  }

  /** The JavaScript truthiness rule in action: a profit/loss of "0" counts
      as filled in and is passed through unchanged. */
  lemma ZeroProfitAccepted(now: int)
    ensures var d := Draft("1/1/2025", "BTC/USDT", "1", "long", "60000", "60000",
                           "59000", "62000", "0", "", "neutral", "", "crypto");
            HandleSave(d, None, now) == Success(WithId(d, now)) &&
            HandleSave(d, None, now).value.profitLoss == "0"
  {
  }
}
