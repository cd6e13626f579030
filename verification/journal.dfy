/** The reflection journal: a list of dated free-text reflections, loaded
    once from browser storage, extended by the save button and written back
    in full after every save (src/components/Journal.jsx). */
module Journal {
  import opened JsText

  /** The storage key the list lives under. */
  const StorageKey: string := "journalEntries"

  /** The emotion the selector starts on; it stands for "none chosen yet". */
  const NeutralEmotion: string := "neutral"

  /** One saved reflection. `id` is the clock reading in milliseconds at the
      moment of saving and `timestamp` the locale date-time string. */
  datatype Reflection = Reflection(id: int, text: string, emotion: string, timestamp: string)

  /** Browser storage, each key holding the list itself rather than its JSON
      text. Only the journal key is meaningful here: other keys hold other
      values in the app, which this component never reads or writes. */
  type Storage = map<string, seq<Reflection>>

  /** The component's state together with the storage it writes to: the list
      on screen, the text area, the selected emotion. */
  datatype State = State(entries: seq<Reflection>, text: string, emotion: string, storage: Storage)

  /** The list the component starts with: the stored list, or the empty list
      when nothing is stored under the key. */
  function Load(storage: Storage): (es: seq<Reflection>)
    ensures StorageKey !in storage ==> es == []
    ensures StorageKey in storage ==> es == storage[StorageKey]
  {
    if StorageKey in storage then storage[StorageKey] else []
  }

  /** Writes the whole list under the journal key; no other key changes. */
  function Persist(storage: Storage, es: seq<Reflection>): (storage': Storage)
    ensures Load(storage') == es
    ensures forall k :: k != StorageKey ==> (k in storage' <==> k in storage)
    ensures forall k :: k != StorageKey && k in storage ==> storage'[k] == storage[k]
  {
    storage[StorageKey := es]
  }

  /** The state right after the component mounts: the loaded list, an empty
      text area and the neutral emotion. */
  function Mount(storage: Storage): (s: State)
    ensures s.entries == Load(storage) && s.storage == storage
    ensures s.text == "" && s.emotion == NeutralEmotion
  {
    State(Load(storage), "", NeutralEmotion, storage)
  }

  /** The save button is enabled only when some text is written and an
      emotion other than the neutral one is selected. */
  predicate SaveEnabled(s: State) {
    Truthy(s.text) && s.emotion != NeutralEmotion
  }

  /** Typing in the text area replaces the draft text only. */
  function EditText(s: State, t: string): (s': State)
    ensures s'.text == t
    ensures s'.entries == s.entries && s'.emotion == s.emotion && s'.storage == s.storage
  {
    s.(text := t)
  }

  /** Choosing in the selector replaces the emotion only. */
  function PickEmotion(s: State, e: string): (s': State)
    ensures s'.emotion == e
    ensures s'.entries == s.entries && s'.text == s.text && s'.storage == s.storage
  {
    s.(emotion := e)
  }

  /** The save handler itself, which checks nothing: `now` is the clock
      reading in milliseconds and `stamp` the locale date-time string. The
      draft becomes a reflection appended after every existing one, the draft
      is cleared, and the whole new list is persisted. */
  function HandleSave(s: State, now: int, stamp: string): (s': State)
    ensures |s'.entries| == |s.entries| + 1
    ensures s'.entries[..|s.entries|] == s.entries
    ensures s'.entries[|s.entries|] == Reflection(now, s.text, s.emotion, stamp)
    ensures s'.text == "" && s'.emotion == NeutralEmotion
    ensures s'.storage == Persist(s.storage, s'.entries)
    ensures Load(s'.storage) == s'.entries
  {
    var newEntry := Reflection(now, s.text, s.emotion, stamp);
    var updated := s.entries + [newEntry];
    State(updated, "", NeutralEmotion, Persist(s.storage, updated))
  }

  /** A click on the save button: nothing happens while it is disabled,
      otherwise the save handler runs and the list grows by exactly one. */
  function ClickSave(s: State, now: int, stamp: string): (s': State)
    ensures !SaveEnabled(s) ==> s' == s
    ensures SaveEnabled(s) <==> |s'.entries| == |s.entries| + 1
    ensures SaveEnabled(s) ==> s' == HandleSave(s, now, stamp)
  {
    if SaveEnabled(s) then HandleSave(s, now, stamp) else s
  }

  /** A user action on the component. */
  datatype Event =
    | Typed(text: string)
    | Picked(emotion: string)
    | Clicked(now: int, stamp: string)

  /** The state after one user action. */
  function Step(s: State, ev: Event): State {
    match ev
    case Typed(t) => EditText(s, t)
    case Picked(e) => PickEmotion(s, e)
    case Clicked(now, stamp) => ClickSave(s, now, stamp)
  }

  /** The state after a series of user actions, applied in order. */
  function Run(s: State, evs: seq<Event>): State
    decreases |evs|
  {
    if evs == [] then s else Run(Step(s, evs[0]), evs[1..])
  }

  /** The list on screen and the stored list agree. */
  predicate Synced(s: State) {
    StorageKey in s.storage && s.storage[StorageKey] == s.entries
  }

  /** Every reflection id is smaller than the next one in the list. */
  predicate IdsIncreasing(es: seq<Reflection>) {
    forall i, j :: 0 <= i < j < |es| ==> es[i].id < es[j].id
  }

  /** No two reflections in the list share an id. */
  predicate IdsDistinct(es: seq<Reflection>) {
    forall i, j :: 0 <= i < |es| && 0 <= j < |es| && i != j ==> es[i].id != es[j].id
  }

  /** Every click in `evs` reads a clock strictly later than `after` and than
      every earlier click. */
  predicate ClockIncreasing(evs: seq<Event>, after: int)
    decreases |evs|
  {
    if evs == [] then true
    else match evs[0]
      case Clicked(now, _) => now > after && ClockIncreasing(evs[1..], now)
      case _ => ClockIncreasing(evs[1..], after)
  }
}
