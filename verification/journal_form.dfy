/** The trade-entry form: how its draft is initialised, how a single input
    edits it, and how the save button validates the draft and emits a record
    (src/components/JournalForm.jsx). */
module JournalForm {
  import opened Outcomes
  import opened JsText

  /** The `name` attribute of each input of the form. The draft's `date` has
      no input, so no change event can carry it. */
  datatype Field =
    | Instrument | LotSize | LongShort | EntryPrice | ExitPrice | StopLoss
    | TakeProfit | ProfitLoss | Improvements | Emotions | Remarks | TradingType

  /** The form state: every value is the text an input produced. */
  datatype Draft = Draft(
    date: string,
    instrument: string,
    lotSize: string,
    longShort: string,
    entryPrice: string,
    exitPrice: string,
    stopLoss: string,
    takeProfit: string,
    profitLoss: string,
    improvements: string,
    emotions: string,
    remarks: string,
    tradingType: string)

  /** A saved trade: the draft's fields plus the numeric id. */
  datatype TradeEntry = TradeEntry(
    id: int,
    date: string,
    instrument: string,
    lotSize: string,
    longShort: string,
    entryPrice: string,
    exitPrice: string,
    stopLoss: string,
    takeProfit: string,
    profitLoss: string,
    improvements: string,
    emotions: string,
    remarks: string,
    tradingType: string)

  /** Why a save is refused: the form shows one generic notice and does not
      say which field is missing. */
  datatype SaveError = MissingRequiredField

  /** The fields the save button insists on. */
  const Required: set<Field> :=
    {Instrument, LotSize, EntryPrice, ExitPrice, StopLoss, TakeProfit, ProfitLoss}

  /** Reads one input's value out of a draft. */
  function Get(d: Draft, f: Field): string {
    match f
    case Instrument => d.instrument
    case LotSize => d.lotSize
    case LongShort => d.longShort
    case EntryPrice => d.entryPrice
    case ExitPrice => d.exitPrice
    case StopLoss => d.stopLoss
    case TakeProfit => d.takeProfit
    case ProfitLoss => d.profitLoss
    case Improvements => d.improvements
    case Emotions => d.emotions
    case Remarks => d.remarks
    case TradingType => d.tradingType
  }

  /** The value an input shows when the form opens for a new trade. */
  function DefaultValue(f: Field): string {
    match f
    case LongShort => "long"
    case Emotions => "neutral"
    case TradingType => "crypto"
    case _ => ""
  }

  /** The draft part of a saved entry: every field except the id. */
  function DraftOf(e: TradeEntry): Draft {
    Draft(e.date, e.instrument, e.lotSize, e.longShort, e.entryPrice, e.exitPrice,
          e.stopLoss, e.takeProfit, e.profitLoss, e.improvements, e.emotions,
          e.remarks, e.tradingType)
  }

  /** The record `{ ...formData, id }`: the draft extended by an id. */
  function WithId(d: Draft, id: int): (e: TradeEntry)
    ensures e.id == id
    ensures DraftOf(e) == d
  {
    TradeEntry(id, d.date, d.instrument, d.lotSize, d.longShort, d.entryPrice,
               d.exitPrice, d.stopLoss, d.takeProfit, d.profitLoss, d.improvements,
               d.emotions, d.remarks, d.tradingType)
  }

  /** The draft the form starts from. `today` stands for the locale date
      string of the current day; each field is taken from the existing entry
      when there is one and from the defaults otherwise. */
  function InitDraft(existing: Option<TradeEntry>, today: string): (d: Draft)
    ensures existing.None? ==> d.date == today
    ensures existing.None? ==> forall f :: Get(d, f) == DefaultValue(f)
    ensures existing.Some? ==> d == DraftOf(existing.value)
  {
    Draft(
      date := if existing.Some? then existing.value.date else today,
      instrument := if existing.Some? then existing.value.instrument else "",
      lotSize := if existing.Some? then existing.value.lotSize else "",
      longShort := if existing.Some? then existing.value.longShort else "long",
      entryPrice := if existing.Some? then existing.value.entryPrice else "",
      exitPrice := if existing.Some? then existing.value.exitPrice else "",
      stopLoss := if existing.Some? then existing.value.stopLoss else "",
      takeProfit := if existing.Some? then existing.value.takeProfit else "",
      profitLoss := if existing.Some? then existing.value.profitLoss else "",
      improvements := if existing.Some? then existing.value.improvements else "",
      emotions := if existing.Some? then existing.value.emotions else "neutral",
      remarks := if existing.Some? then existing.value.remarks else "",
      tradingType := if existing.Some? then existing.value.tradingType else "crypto")
  }

  /** A change event from the input called `name`: that field takes `value`
      and every other field, the date included, keeps its value. */
  function Change(d: Draft, name: Field, value: string): (d': Draft)
    ensures Get(d', name) == value
    ensures forall g :: g != name ==> Get(d', g) == Get(d, g)
    ensures d'.date == d.date
  {
    match name
    case Instrument => d.(instrument := value)
    case LotSize => d.(lotSize := value)
    case LongShort => d.(longShort := value)
    case EntryPrice => d.(entryPrice := value)
    case ExitPrice => d.(exitPrice := value)
    case StopLoss => d.(stopLoss := value)
    case TakeProfit => d.(takeProfit := value)
    case ProfitLoss => d.(profitLoss := value)
    case Improvements => d.(improvements := value)
    case Emotions => d.(emotions := value)
    case Remarks => d.(remarks := value)
    case TradingType => d.(tradingType := value)
  }

  /** The save-time test, written as the chain of truthiness checks the
      button runs; improvements, emotions and remarks are not looked at. */
  predicate Complete(d: Draft) {
    Truthy(d.instrument) && Truthy(d.lotSize) && Truthy(d.entryPrice) &&
    Truthy(d.exitPrice) && Truthy(d.stopLoss) && Truthy(d.takeProfit) &&
    Truthy(d.profitLoss)
  }

  /** The save button. `editing` is the entry the form was opened with, if
      any, and `now` the clock reading in milliseconds. A draft with an empty
      required field is refused and nothing is emitted; otherwise the emitted
      record is the draft unchanged plus an id, which is the edited entry's id
      or, for a new trade, the clock reading. */
  function HandleSave(d: Draft, editing: Option<TradeEntry>, now: int): (r: Result<TradeEntry, SaveError>)
    ensures r.Failure? <==> exists f :: f in Required && !Truthy(Get(d, f))
    ensures r.Success? ==> DraftOf(r.value) == d
    ensures r.Success? && editing.Some? ==> r.value.id == editing.value.id
    ensures r.Success? && editing.None? ==> r.value.id == now
  {
    if !Complete(d) then
      assert !Truthy(Get(d, Instrument)) || !Truthy(Get(d, LotSize)) ||
             !Truthy(Get(d, EntryPrice)) || !Truthy(Get(d, ExitPrice)) ||
             !Truthy(Get(d, StopLoss)) || !Truthy(Get(d, TakeProfit)) ||
             !Truthy(Get(d, ProfitLoss));
      Failure(MissingRequiredField)
    else
      Success(WithId(d, if editing.Some? then editing.value.id else now))
  }

  /** One change event: the input's name and the text it now holds. */
  datatype Edit = Edit(name: Field, value: string)

  /** The draft after a series of change events, applied in order. */
  function ApplyEdits(d: Draft, edits: seq<Edit>): Draft
    decreases |edits|
  {
    if edits == [] then d
    else ApplyEdits(Change(d, edits[0].name, edits[0].value), edits[1..])
  }

  /** What field `f` shows after `edits`: the value of the last edit aimed at
      it, or its starting value when no edit touched it. */
  function FinalValue(d: Draft, edits: seq<Edit>, f: Field): string
    decreases |edits|
  {
    if edits == [] then Get(d, f)
    else if edits[|edits| - 1].name == f then edits[|edits| - 1].value
    else FinalValue(d, edits[..|edits| - 1], f)
  }
}
