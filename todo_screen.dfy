/** The to-do screen's own copy of the store: the input text and the task list as component
    state, a load effect that replaces the list only when the stored text is truthy, and
    handlers that compute the new list and write it straight to the slot. */
module TodoScreen {
  import opened JsString
  import opened Tasks
  import opened Storage
  import UseTasks

  /** The new list addTask computes from the input: input whose trim is empty changes
      nothing; otherwise one record is appended after the unchanged old list, holding the
      input exactly as typed (not trimmed) and not completed. */
  function Added(ts: seq<Task>, id: string, input: string): (r: seq<Task>)
    ensures AllWhitespace(input) ==> r == ts
    ensures !AllWhitespace(input) ==>
      && |r| == |ts| + 1 && r[..|ts|] == ts
      && r[|ts|] == Task(id, input, false)
  {
    if Trim(input) != "" then Appended(ts, id, input) else ts
  }

  /** addTask keeps the ids unique when the id the clock supplies is fresh. */
  lemma AddedKeepsUnique(ts: seq<Task>, id: string, input: string)
    requires UniqueIds(ts) && !HasId(ts, id)
    ensures UniqueIds(Added(ts, id, input))
  {
    if Trim(input) != "" {
      AppendedKeepsUnique(ts, id, input);
    }
  }

  /** The two copies of addTask compute the same list exactly when the input is all
      whitespace or has no whitespace to trim at either end. */
  lemma AddedAgreesWithHookIffTrimmed(ts: seq<Task>, id: string, input: string)
    ensures Added(ts, id, input) == UseTasks.Added(ts, id, input)
        <==> AllWhitespace(input) || Trim(input) == input
  {
    if !AllWhitespace(input) && Added(ts, id, input) == UseTasks.Added(ts, id, input) {
      assert Added(ts, id, input)[|ts|] == UseTasks.Added(ts, id, input)[|ts|];
    }
  }

  /** The list the load effect leaves: the current list, replaced by the parsed stored
      text only when the read succeeds and that text is truthy and parses. An empty slot,
      a failed read, the empty string and text that does not parse keep the current list;
      a stored empty list ("[]", which is truthy) is loaded. */
  function Loaded(current: seq<Task>, stored: Option<Value>, readFails: bool): (r: seq<Task>)
    ensures !readFails && stored.Some? && Truthy(stored.value) && Parse(stored.value).Some?
      ==> r == Parse(stored.value).value
    ensures readFails || stored.None? || !Truthy(stored.value) || Parse(stored.value).None?
      ==> r == current
  {
    if readFails || stored.None? || !Truthy(stored.value) then current
    else match Parse(stored.value)
      case None => current
      case Some(ts) => ts
  }

  /** On the list the screen starts with, the screen's load gives what the hook's load
      gives: the extra truthiness test only ever skips text that would not parse. */
  lemma LoadedAgreesWithHook(stored: Option<Value>, readFails: bool)
    ensures Loaded(DefaultTasks, stored, readFails) == UseTasks.Loaded(stored, readFails)
  {
    if !readFails && stored.Some? && !Truthy(stored.value) {
      assert Parse(stored.value).None?;
    }
  }

  /** A list that was saved is the list the next session loads. */
  lemma ReloadRestoresSaved(current: seq<Task>, slot: Option<Value>, ts: seq<Task>)
    ensures Loaded(current, Written(slot, ts, false), false) == ts
  {
  }

  /** The screen component's state together with the storage slot it writes. */
  class Screen {
    var task: string
    var tasks: seq<Task>
    var slot: Option<Value>

    /** First render: an empty input, the three default tasks, the slot as the last
        session left it. */
    constructor (stored: Option<Value>)
      ensures task == "" && tasks == DefaultTasks && slot == stored
    {
      task := "";
      tasks := DefaultTasks;
      slot := stored;
    }

    /** The text field's change handler (setTask). */
    method ChangeText(text: string)
      modifies this
      ensures task == text && tasks == old(tasks) && slot == old(slot)
    {
      task := text;
    }

    /** The load effect; it never writes the slot. */
    method Load(readFails: bool)
      modifies this
      ensures tasks == Loaded(old(tasks), old(slot), readFails)
      ensures task == old(task) && slot == old(slot)
    {
      if !readFails {
        var stored := slot;
        if stored.Some? && Truthy(stored.value) {
          var parsed := Parse(stored.value);
          if parsed.Some? {
            tasks := parsed.value;
          }
        }
      }
    }

    /** saveTasks: writes the given list as a whole; a failed write is swallowed. */
    method SaveTasks(newTasks: seq<Task>, writeFails: bool)
      modifies this
      ensures slot == Written(old(slot), newTasks, writeFails)
      ensures task == old(task) && tasks == old(tasks)
    {
      if !writeFails {
        slot := Some(Stringify(newTasks));
      }
    }

    /** addTask: on input that is not all whitespace, appends the record, clears the input
        and writes the new list; otherwise changes nothing at all. */
    method AddTask(freshId: string, writeFails: bool)
      modifies this
      ensures tasks == Added(old(tasks), freshId, old(task))
      ensures task == if AllWhitespace(old(task)) then old(task) else ""
      ensures slot == if AllWhitespace(old(task)) then old(slot)
                      else Written(old(slot), tasks, writeFails)
      ensures UniqueIds(old(tasks)) && !HasId(old(tasks), freshId) ==> UniqueIds(tasks)
    {
      if Trim(task) != "" {
        var newTasks := Appended(tasks, freshId, task);
        tasks := newTasks;
        task := "";
        SaveTasks(newTasks, writeFails);
      }
      if UniqueIds(old(tasks)) && !HasId(old(tasks), freshId) {
        AddedKeepsUnique(old(tasks), freshId, old(task));
      }
    }

    /** deleteTask: filters the list and writes the result. */
    method DeleteTask(id: string, writeFails: bool)
      modifies this
      ensures tasks == Deleted(old(tasks), id)
      ensures task == old(task)
      ensures slot == Written(old(slot), tasks, writeFails)
      ensures UniqueIds(old(tasks)) ==> UniqueIds(tasks)
    {
      var newTasks := Deleted(tasks, id);
      tasks := newTasks;
      SaveTasks(newTasks, writeFails);
      if UniqueIds(old(tasks)) {
        DeletedKeepsUnique(old(tasks), id);
      }
    }

    /** toggleTaskCompletion: maps the list and writes the result. */
    method ToggleTaskCompletion(id: string, writeFails: bool)
      modifies this
      ensures tasks == Toggled(old(tasks), id)
      ensures task == old(task)
      ensures slot == Written(old(slot), tasks, writeFails)
      ensures UniqueIds(old(tasks)) ==> UniqueIds(tasks)
    {
      var newTasks := Toggled(tasks, id);
      tasks := newTasks;
      SaveTasks(newTasks, writeFails);
    }
  }

  /** A session that finds one completed task stored: the load takes it as it is, an
      input with surrounding spaces is stored untrimmed, and every handler leaves the slot
      equal to the list. */
  method StoredListScenario() {
    var saved := [Task("9", "X", true)];
    var screen := new Screen(Some(Stringify(saved)));
    screen.Load(false);
    assert screen.tasks == saved;
    screen.ChangeText("  Buy milk ");
    assert !IsWhitespace(screen.task[2]);
    screen.AddTask("1700000000000", false);
    assert screen.tasks == saved + [Task("1700000000000", "  Buy milk ", false)];
    assert screen.task == "" && Holds(screen.slot, screen.tasks);
    screen.DeleteTask("9", false);
    assert screen.tasks == [Task("1700000000000", "  Buy milk ", false)];
    assert Holds(screen.slot, screen.tasks);
  }
}
