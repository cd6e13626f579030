# Trading-journal entry rules, modelled in Dafny

This project models the two pieces of logic in the trading-journal web app
that go beyond presentation:

- **the trade-entry form** (`src/components/JournalForm.jsx`). It covers how the draft
  starts (defaults for a new trade, a field-by-field copy for an edit), how
  one input's change event updates the draft, and how the save button works.
  The button refuses a draft with an empty required field. Otherwise it
  emits the draft plus an id: the edited entry's id, or the clock reading
  for a new trade.
- **the reflection journal** (`src/components/Journal.jsx`). It covers
  loading the list from browser storage under `"journalEntries"`, the
  enabled-state of the save button, appending a reflection at the end,
  clearing the draft, and writing the full list back to storage.

Both components are lifted out of React as pure functions over immutable
records. The clock (`Date.now()`) and the locale date strings are
parameters (`now`, `today`, `stamp`). Browser storage is a map from key to
the stored list itself. "Empty" is JavaScript string truthiness: `""` is
empty, `"0"` is not (`JsText.Truthy`).

Files:

- `outcomes.dfy`: modules `Outcomes` (Option, Result) and `JsText` (truthiness).
- `journal_form.dfy`: module `JournalForm`, the form's draft, its edit and save rules.
- `journal_form_properties.dfy`: module `JournalFormProperties`, lemmas about the form.
- `journal.dfy`: module `Journal`, the reflection list, its storage and its events.
- `journal_properties.dfy`: module `JournalProperties`, lemmas over whole sessions.

Behaviour of the code worth knowing:

- The code does not guarantee unique ids: two saves in the same millisecond
  get the same id (`JournalProperties.SameMillisecondCollides`). Uniqueness is
  proved only for a strictly increasing clock.
- A refused save shows one generic notice; it does not say which field is missing.
- The form's inputs for `longShort` and `tradingType` are selectors offering
  only long/short and crypto/forex/stocks (`src/components/JournalForm.jsx:63-71`,
  `:133-142`). The save check never looks at these fields, and opening an
  entry copies its stored values unchecked (`:8`, `:17`). `emotions` is a free
  text area. `JournalForm.Change` lets any string reach any field, including
  the two selector fields. This is a deliberate over-approximation: every
  property proved for arbitrary strings also holds for the selector values.
- The form builds its draft once, when it opens, but reads the `entry` prop
  again at save time (`src/components/JournalForm.jsx:4`, `:41`). Nothing
  re-syncs the draft when that prop changes. If the form stays open while the
  prop switches to another entry, the save emits the old draft under the new
  entry's id (`JournalFormProperties.StaleDraftTakesNewId`).
  `JournalFormProperties.EditKeepsId` covers only the case where the draft
  and the id come from the same entry.
- Loading does not recover from unparsable stored text (see Left out).

## Model

| member | source | states |
|---|---|---|
| JournalForm.InitDraft | src/components/JournalForm.jsx:4-18 | With no entry, the date is the supplied current date and every input shows its default ("long", "neutral", "crypto", otherwise empty). With an entry, the draft equals that entry minus its id, the date included. |
| JournalForm.Change | src/components/JournalForm.jsx:21-24 | A change event sets exactly the named field to the value; every other field and the date keep their values. |
| JournalForm.HandleSave | src/components/JournalForm.jsx:27-42 | A save is refused, with nothing emitted, exactly when some required field is empty. An accepted save emits the draft unchanged plus an id: the edited entry's id, or the clock reading for a new trade. |
| JournalForm.WithId | src/components/JournalForm.jsx:41 | The emitted record carries the given id, and dropping that id gives back the draft. |
| JournalFormProperties.CompleteIffRequiredFilled | src/components/JournalForm.jsx:28-36 | The chain of seven truthiness checks accepts a draft if and only if every field in the required set is non-empty. |
| JournalFormProperties.OptionalEditKeepsVerdict | src/components/JournalForm.jsx:28-36 | Editing a field outside the required set never changes whether the draft can be saved. |
| JournalFormProperties.OptionalFieldsNotValidated | src/components/JournalForm.jsx:28-36 | A draft with every required field filled is accepted even when improvements, emotions and remarks are all empty. |
| JournalFormProperties.FreshDraftRefused | src/components/JournalForm.jsx:4-18 | A fresh form cannot be saved as it is, because the instrument starts empty. |
| JournalFormProperties.EditRoundTrip | src/components/JournalForm.jsx:5-17 | Opening an entry and saving it untouched gives back the identical entry when its required fields are filled, and is refused otherwise. |
| JournalFormProperties.EditKeepsId | src/components/JournalForm.jsx:41 | After any series of edits, a record saved from an edit form keeps the original id and date, whatever the clock reads. |
| JournalFormProperties.StaleDraftTakesNewId | src/components/JournalForm.jsx:4-18 | If the draft was opened from one entry and the save runs with another, the emitted record is the first entry's fields under the second entry's id. |
| JournalFormProperties.ApplyEditsKeepsDate | src/components/JournalForm.jsx:47-142 | No input edits the date, so no series of change events alters it. |
| JournalFormProperties.ApplyEditsSnoc | src/components/JournalForm.jsx:21-24 | Applying a series of edits followed by one more is the same as one more change on the result. |
| JournalFormProperties.ApplyEditsLastWins | src/components/JournalForm.jsx:21-24 | After a series of edits, each field shows the last value aimed at it, or its starting value if no edit touched it. |
| JournalFormProperties.ZeroProfitAccepted | src/components/JournalForm.jsx:35-41 | A profit/loss of "0" counts as filled in and passes through to the emitted record unchanged. |
| Journal.Load | src/components/Journal.jsx:10 | The list the journal starts from is the stored list, or the empty list when nothing is stored under "journalEntries". |
| Journal.Persist | src/components/Journal.jsx:25 | Writing the list and loading it back gives the same list; every other storage key is untouched. |
| Journal.Mount | src/components/Journal.jsx:4-12 | The component starts with the loaded list, an empty text area and the neutral emotion. |
| Journal.EditText | src/components/Journal.jsx:35-36 | Typing replaces the draft text and nothing else. |
| Journal.PickEmotion | src/components/Journal.jsx:42-43 | Choosing an emotion replaces the selection and nothing else. |
| Journal.HandleSave | src/components/Journal.jsx:14-26 | The list grows by one and its old prefix is unchanged. The new last entry has the clock reading as id, the draft text and emotion, and the supplied timestamp. The draft resets to "" and "neutral". Storage under the key then holds exactly the new list. |
| Journal.ClickSave | src/components/Journal.jsx:53-57 | A click while the button is disabled (empty text or neutral emotion) changes nothing. The list grows by one if and only if the button is enabled. |
| JournalProperties.MountEmptyStorage | src/components/Journal.jsx:10 | With nothing stored under the key, the journal starts with the empty list and a disabled save button. |
| JournalProperties.SaveThenReload | src/components/Journal.jsx:21-25 | Reopening the journal after a save shows exactly the list that was on screen. |
| JournalProperties.RunKeepsPrefix | src/components/Journal.jsx:21 | No series of user actions removes, alters or reorders an existing reflection. |
| JournalProperties.RunAddsOnlyGuarded | src/components/Journal.jsx:53-57 | Every reflection a session adds has non-empty text and an emotion other than "neutral". |
| JournalProperties.RunKeepsSynced | src/components/Journal.jsx:21-25 | Once the list on screen and the stored list agree, they agree after any series of user actions. |
| JournalProperties.MountSynced | src/components/Journal.jsx:10-11 | When a list is stored, the mounted component shows exactly that list. |
| JournalProperties.RunIdsIncreasing | src/components/Journal.jsx:16 | If the clock readings of the clicks strictly increase, starting above every existing id, the ids in the list stay strictly increasing. |
| JournalProperties.IncreasingIdsDistinct | src/components/Journal.jsx:16 | Strictly increasing ids are pairwise distinct. |
| JournalProperties.FreshSessionIdsDistinct | src/components/Journal.jsx:16 | From empty storage, a session with strictly increasing clock readings never gives two reflections the same id. |
| JournalProperties.SameMillisecondCollides | src/components/Journal.jsx:16 | Two enabled saves that read the same millisecond produce two reflections with the same id. |

## Left out

- Update and delete of trade entries: the form only emits a record through
  `onSave`, and the list component only dispatches `onEdit(entry)` and
  `onDelete(entry.id)` (`src/components/JournalEntry.jsx`). The handlers that
  replace or remove an entry by id are not part of this model.
- JSON serialisation and parsing. Storage holds the list itself. Parsing
  malformed stored text throws in the code and nothing catches it, so no
  "corrupt data gives an empty list" recovery is modelled. A stored JSON
  `null` is also not modelled; the code would treat it as the empty list.
- Stored entries whose fields are missing or are not strings (possible for
  records saved by older versions). Every field except the integer id is
  modelled as a string.
- Failed storage writes. `localStorage.setItem` can throw, for instance when
  the quota is exceeded or storage is disabled
  (`src/components/Journal.jsx:25`). By then the list, text and emotion have
  already been updated (`:22-24`), so the list on screen would be one longer
  than the stored one. The model assumes every write succeeds.
- JournalProperties.RunKeepsSynced: holds only under the assumption that every storage write succeeds.
- JournalProperties.SaveThenReload: holds only under the assumption that every storage write succeeds.
- Storage keys other than `"journalEntries"`: other keys hold other values,
  such as the points counter the dashboard reads. The model types every key
  as a reflection list, but only the journal key is ever read or written, and
  `Journal.Persist` leaves every other key untouched.
- `alert`, React state and effect mechanics, DOM events and rendering. The
  real clock and locale formatting are parameters.
- `src/components/Dashboard.jsx`: mock market data, charts, a timer-driven
  tip rotation and a floating-point goal percentage; all presentational.
- `src/components/Achievements.tsx` and `src/app/layout.tsx`: display and layout only.
