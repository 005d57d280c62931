/** The durable key-value slot under the key "@tasks", and what the store does with the
    string it holds: JSON.stringify on the way in, a truthiness test and JSON.parse on the
    way out. */
module Storage {
  import opened Tasks

  datatype Option<+T> = None | Some(value: T)

  /** A string the slot can hold. Serialized(ts) is the text JSON.stringify produces for
      the task list ts; Unparseable(raw) is any other text, one that JSON.parse rejects
      (the empty string among them). */
  datatype Value = Serialized(tasks: seq<Task>) | Unparseable(raw: string)

  /** JSON.parse of the stored text, read back as a task list; None when it throws. Only
      the text JSON.stringify produced for a list parses, and it parses to that list. */
  function Parse(v: Value): (r: Option<seq<Task>>)
    ensures r.Some? ==> v == Serialized(r.value)
  {
    match v
    case Serialized(ts) => Some(ts)
    case Unparseable(_) => None
  }

  /** JavaScript truthiness of the stored text: only the empty string is falsy, and the
      empty string is not JSON, so falsy text never parses. */
  predicate Truthy(v: Value)
    ensures !Truthy(v) ==> v == Unparseable("") && Parse(v).None?
  {
    match v
    case Serialized(_) => true
    case Unparseable(raw) => raw != ""
  }

  /** JSON.stringify of a task list: parsing it gives the list back, and it is never the
      empty string. */
  function Stringify(ts: seq<Task>): (v: Value)
    ensures Parse(v) == Some(ts)
    ensures Truthy(v)
  {
    Serialized(ts)
  }

  /** The slot holds the serialisation of the whole list ts. */
  predicate Holds(slot: Option<Value>, ts: seq<Task>) {
    slot.Some? && Parse(slot.value) == Some(ts)
  }

  /** The slot after AsyncStorage.setItem with the serialised list: overwritten as a
      whole, or untouched when the write fails. */
  function Written(slot: Option<Value>, ts: seq<Task>, writeFails: bool): (r: Option<Value>)
    ensures !writeFails ==> Holds(r, ts)
    ensures writeFails ==> r == slot
  {
    if writeFails then slot else Some(Stringify(ts))
  }
}
