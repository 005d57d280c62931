/** The useTasks hook: the task list and the loading flag as hook state, a load effect that
    seeds the defaults and then takes the stored list, a save effect that writes the whole
    list once loading is over, and the three list operations. */
module UseTasks {
  import opened JsString
  import opened Tasks
  import opened Storage

  /** The new list addTask computes: text whose trim is empty changes nothing; otherwise
      one record is appended after the unchanged old list, holding the trimmed text and
      not completed. */
  function Added(ts: seq<Task>, id: string, text: string): (r: seq<Task>)
    ensures AllWhitespace(text) ==> r == ts
    ensures !AllWhitespace(text) ==>
      && |r| == |ts| + 1 && r[..|ts|] == ts
      && r[|ts|] == Task(id, Trim(text), false)
  {
    if Trim(text) != "" then Appended(ts, id, Trim(text)) else ts
  }

  /** The record addTask appends carries a name that is not empty, does not start or end
      with whitespace and appears in the input as written. */
  lemma AddedLabel(ts: seq<Task>, id: string, text: string)
    requires !AllWhitespace(text)
    ensures
      var name := Added(ts, id, text)[|ts|].text;
      name != "" &&
      !IsWhitespace(name[0]) && !IsWhitespace(name[|name| - 1]) &&
      name == text[LeadingWhitespace(text)..LeadingWhitespace(text) + |name|]
  {
  }

  /** Adding again the name just stored stores the same name: the stored text is already
      trimmed. */
  lemma AddedLabelIsTrimmed(ts: seq<Task>, id: string, text: string)
    requires !AllWhitespace(text)
    ensures
      var name := Added(ts, id, text)[|ts|].text;
      Added(ts, id, name) == Added(ts, id, text)
  {
    TrimIdempotent(text);
  }

  /** addTask keeps the ids unique when the id the clock supplies is fresh. */
  lemma AddedKeepsUnique(ts: seq<Task>, id: string, text: string)
    requires UniqueIds(ts) && !HasId(ts, id)
    ensures UniqueIds(Added(ts, id, text))
  {
    if Trim(text) != "" {
      AppendedKeepsUnique(ts, id, Trim(text));
    }
  }

  /** The list the load effect leaves: the defaults, replaced by the parsed stored list
      when the read succeeds and finds a value JSON.parse accepts. An empty slot, a failed
      read and text that does not parse all leave the defaults. */
  function Loaded(stored: Option<Value>, readFails: bool): (r: seq<Task>)
    ensures !readFails && stored.Some? && Parse(stored.value).Some? ==> r == Parse(stored.value).value
    ensures readFails || stored.None? || Parse(stored.value).None? ==> r == DefaultTasks
  {
    if readFails then DefaultTasks
    else match stored
      case None => DefaultTasks
      case Some(v) =>
        match Parse(v)
        case None => DefaultTasks
        case Some(ts) => ts
  }

  /** A list that was saved is the list the next session loads. */
  lemma ReloadRestoresSaved(slot: Option<Value>, ts: seq<Task>)
    ensures Loaded(Written(slot, ts, false), false) == ts
  {
  }

  /** A failed read, followed by the successful save that clearing the loading flag
      triggers, leaves the defaults in the slot, whatever list it held before. */
  lemma FailedReadOverwritesStored(stored: Option<Value>, xs: seq<Task>)
    requires stored == Some(Stringify(xs)) && xs != DefaultTasks
    ensures var after := Written(stored, Loaded(stored, true), false);
      Holds(after, DefaultTasks) && !Holds(after, xs)
  {
  }

  /** When the stored list had unique ids, or nothing usable was stored, the loaded list
      has unique ids. */
  lemma LoadedKeepsUnique(stored: Option<Value>, readFails: bool)
    requires stored.Some? && Parse(stored.value).Some? ==> UniqueIds(Parse(stored.value).value)
    ensures UniqueIds(Loaded(stored, readFails))
  {
    DefaultTasksWellFormed();
  }

  /** The hook's state together with the storage slot it writes. */
  class TaskStore {
    var tasks: seq<Task>
    var isLoading: bool
    var slot: Option<Value>

    /** Mounting the hook: an empty list, loading, and the slot as the last session left it. */
    constructor (stored: Option<Value>)
      ensures tasks == [] && isLoading && slot == stored
    {
      tasks := [];
      isLoading := true;
      slot := stored;
    }

    /** The save effect, which runs after the list or the loading flag changes: while
        loading it writes nothing; afterwards it writes the entire current list. */
    method SaveEffect(writeFails: bool)
      modifies this
      ensures tasks == old(tasks) && isLoading == old(isLoading)
      ensures slot == if isLoading then old(slot) else Written(old(slot), tasks, writeFails)
    {
      if !isLoading && !writeFails {
        slot := Some(Stringify(tasks));
      }
    }

    /** The load effect followed by the save effect that clearing the loading flag
        triggers: the list becomes Loaded(...), loading is over whether or not the read
        failed, and the loaded list is then written back. A failed read therefore has the
        defaults written over what the slot held. */
    method Load(readFails: bool, writeFails: bool)
      modifies this
      ensures tasks == Loaded(old(slot), readFails)
      ensures !isLoading
      ensures slot == Written(old(slot), tasks, writeFails)
      ensures !writeFails ==> Holds(slot, tasks)
    {
      tasks := DefaultTasks;
      if !readFails {
        var stored := slot;
        if stored.Some? {
          var parsed := Parse(stored.value);
          if parsed.Some? {
            tasks := parsed.value;
          }
        }
      }
      isLoading := false;
      SaveEffect(writeFails);
    }

    /** addTask, then the save effect when the list changed. */
    method AddTask(text: string, freshId: string, writeFails: bool)
      modifies this
      ensures tasks == Added(old(tasks), freshId, text)
      ensures isLoading == old(isLoading)
      ensures UniqueIds(old(tasks)) && !HasId(old(tasks), freshId) ==> UniqueIds(tasks)
      ensures slot == if isLoading || AllWhitespace(text) then old(slot)
                      else Written(old(slot), tasks, writeFails)
    {
      if Trim(text) != "" {
        tasks := Appended(tasks, freshId, Trim(text));
        SaveEffect(writeFails);
      }
      if UniqueIds(old(tasks)) && !HasId(old(tasks), freshId) {
        AddedKeepsUnique(old(tasks), freshId, text);
      }
    }

    /** deleteTask, then the save effect (filter always yields a new array). */
    method DeleteTask(id: string, writeFails: bool)
      modifies this
      ensures tasks == Deleted(old(tasks), id)
      ensures isLoading == old(isLoading)
      ensures UniqueIds(old(tasks)) ==> UniqueIds(tasks)
      ensures slot == if isLoading then old(slot) else Written(old(slot), tasks, writeFails)
    {
      tasks := Deleted(tasks, id);
      SaveEffect(writeFails);
      if UniqueIds(old(tasks)) {
        DeletedKeepsUnique(old(tasks), id);
      }
    }

    /** toggleTaskCompletion, then the save effect (map always yields a new array). */
    method ToggleTaskCompletion(id: string, writeFails: bool)
      modifies this
      ensures tasks == Toggled(old(tasks), id)
      ensures isLoading == old(isLoading)
      ensures UniqueIds(old(tasks)) ==> UniqueIds(tasks)
      ensures slot == if isLoading then old(slot) else Written(old(slot), tasks, writeFails)
    {
      tasks := Toggled(tasks, id);
      SaveEffect(writeFails);
    }
  }

  /** A first session with nothing stored: the defaults, then "Buy milk" added, task "1"
      toggled and task "2" deleted, every write succeeding. */
  method FirstSessionScenario() {
    var store := new TaskStore(None);
    store.Load(false, false);
    assert store.tasks == DefaultTasks && !store.isLoading;
    TrimOfTrimmed("Buy milk");
    store.AddTask("Buy milk", "1700000000000", false);
    assert |store.tasks| == 4;
    assert store.tasks[3] == Task("1700000000000", "Buy milk", false);
    store.ToggleTaskCompletion("1", false);
    assert store.tasks[0] == Task("1", "Task 1", true);
    store.DeleteTask("2", false);
    assert !HasId(store.tasks, "2");
    assert Holds(store.slot, store.tasks);
  }

  /** A session whose read fails although a list was stored: the store ends up showing,
      and then saving, the defaults in place of the stored list. */
  method FailedReadScenario() {
    var saved := [Task("9", "X", true)];
    var store := new TaskStore(Some(Stringify(saved)));
    store.Load(true, false);
    assert store.tasks == DefaultTasks && !store.isLoading;
    assert Holds(store.slot, DefaultTasks) && !Holds(store.slot, saved);
  }
}
