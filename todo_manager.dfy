/** The persisted form of the task list: what `localStorage` holds under the
    key 'progressTodoTasks' (script.js:2, 22-38), with the JSON text
    abstracted to the list it encodes. */
module Storage {
  import opened Tasks

  /** Absent: no entry, or the empty string; Unparsable: an entry that
      `JSON.parse` throws on; Holds: the serialized form of a task list. */
  datatype Slot = Absent | Unparsable | Holds(tasks: seq<Task>)

  /** `loadFromStorage()` (script.js:22-30): a missing entry and one that
      fails to parse both give the empty list; loading never fails. */
  function Load(slot: Slot): (tasks: seq<Task>)
    ensures slot.Holds? ==> tasks == slot.tasks
    ensures !slot.Holds? ==> tasks == []
  {
    match slot
    case Holds(saved) => saved
    case _ => []
  }

  /** What `saveToStorage()` writes (script.js:32-38): a list written and
      read back is the same list, order included. */
  function Save(tasks: seq<Task>): (slot: Slot)
    ensures Load(slot) == tasks
  {
    Holds(tasks)
  }
}

/** The `TodoManager` class (script.js:17-87): the authoritative task list,
    changed only by its operations, each of which writes the list to storage
    when it changes it. */
module TodoApp {
  import opened Text
  import opened Tasks
  import opened Stats
  import opened Storage

  class TodoManager {
    /** `this.tasks`, in display order. */
    var tasks: seq<Task>

    /** The last value written to storage (or, before any write, what was
        there at start-up). */
    ghost var storage: Slot

    /** How many times the list has been written to storage. */
    ghost var saves: nat

    /** `new TodoManager()` (script.js:18-20): the list is whatever storage
        holds, or empty when it holds nothing readable. */
    constructor (stored: Slot)
      ensures tasks == Load(stored)
      ensures storage == stored && saves == 0
    {
      tasks := Load(stored);
      storage := stored;
      saves := 0;
    }

    /** `saveToStorage()` (script.js:32-38). */
    method SaveToStorage()
      modifies this`storage, this`saves
      ensures storage == Save(tasks) && Load(storage) == tasks
      ensures saves == old(saves) + 1
    {
      storage := Save(tasks);
      saves := saves + 1;
    }

    /** `addTask(text)` (script.js:40-53) with the clock reading `now` used as
        the id and `stamp` as the creation time. Blank text is refused with
        nothing changed and nothing written; otherwise exactly one pending
        task with the trimmed text is appended, and the list is saved. */
    method AddTask(text: string, now: int, stamp: string) returns (added: Option<Task>)
      modifies this
      ensures IsBlank(text) ==>
                added == None && tasks == old(tasks) &&
                storage == old(storage) && saves == old(saves)
      ensures !IsBlank(text) ==>
                && added.Some?
                && added.value == Task(now, Trim(text), false, stamp)
                && tasks == old(tasks) + [added.value]
                && storage == Save(tasks) && saves == old(saves) + 1
    {
      var trimmed := Trim(text);
      if trimmed == [] {
        return None;
      }
      var task := NewTask(now, text, stamp);
      tasks := tasks + [task];
      SaveToStorage();
      added := Some(task);
    }

    /** `deleteTask(id)` (script.js:55-58): every task with the id goes, the
        rest keep their order, and the list is saved even when nothing was
        removed. */
    method DeleteTask(id: int)
      modifies this
      ensures tasks == WithoutId(old(tasks), id)
      ensures storage == Save(tasks) && saves == old(saves) + 1
    {
      tasks := WithoutId(tasks, id);
      SaveToStorage();
    }

    /** `toggleTask(id)` (script.js:60-66): the first task with the id has its
        flag flipped and the list is saved; with no such task nothing changes
        and nothing is written. */
    method ToggleTask(id: int)
      modifies this
      ensures tasks == ToggleFirst(old(tasks), id)
      ensures FirstIndexOf(old(tasks), id).None? ==> storage == old(storage) && saves == old(saves)
      ensures FirstIndexOf(old(tasks), id).Some? ==> storage == Save(tasks) && saves == old(saves) + 1
    {
      var found := FirstIndexOf(tasks, id);
      if found.Some? {
        var i := found.value;
        tasks := tasks[i := tasks[i].(completed := !tasks[i].completed)];
        SaveToStorage();
      }
    }

    /** `clearCompleted()` (script.js:68-71): only pending tasks remain, in
        order, and the list is saved. */
    method ClearCompleted()
      modifies this
      ensures tasks == PendingOnly(old(tasks))
      ensures storage == Save(tasks) && saves == old(saves) + 1
    {
      tasks := PendingOnly(tasks);
      SaveToStorage();
    }

    /** `clearAll()` (script.js:73-78), with `confirmed` the answer the user
        gave the confirmation dialog: when confirmed the list is emptied and
        saved, otherwise nothing changes and nothing is written. */
    method ClearAll(confirmed: bool)
      modifies this
      ensures confirmed ==> tasks == [] && storage == Save([]) && saves == old(saves) + 1
      ensures !confirmed ==> tasks == old(tasks) && storage == old(storage) && saves == old(saves)
    {
      if confirmed {
        tasks := [];
        SaveToStorage();
      }
    }

    /** `getStats()` (script.js:80-86): reads the list, changes nothing. The
        total is the list length, the completed figure the number of completed
        tasks, and the percentage their rounded share. */
    function GetStats(): (s: Stats)
      reads this
      ensures s.total == |tasks| && s.completed == CountDone(tasks)
      ensures s.percentage == Percentage(s.completed, s.total)
    {
      StatsOf(tasks)
    }
  }

  /** What a caller can conclude from the contracts alone about the
      progress figures the page shows after a sequence of clicks: a refused
      blank entry, two added tasks, one of them ticked off (50%), completed
      tasks cleared, a declined and then a confirmed "clear all". */
  method ProgressScenario(blank: string, milk: string, walk: string, first: int, second: int)
    requires IsBlank(blank) && !IsBlank(milk) && !IsBlank(walk)
    requires first != second
  {
    var m := new TodoManager(Absent);

    var refused := m.AddTask(blank, first, "t0");
    assert refused == None && m.tasks == [] && m.saves == 0;

    var a := m.AddTask(milk, first, "t1");
    CountDoneAppend([], a.value);
    PercentageEnds(1);
    assert m.GetStats() == Stats(1, 0, 0);

    var b := m.AddTask(walk, second, "t2");
    var two := [a.value, b.value];
    assert m.tasks == two;

    m.ToggleTask(second);
    assert FirstIndexOf(two, second) == Some(1);
    ToggleCount(two, second);
    CountDoneAppend([a.value], b.value);
    PercentageExamples();
    assert m.GetStats() == Stats(2, 1, 50);
    assert m.storage == Save(m.tasks) && m.saves == 3;

    m.ClearCompleted();
    ClearCompletedRemovesDone(ToggleFirst(two, second));
    assert m.GetStats() == Stats(1, 0, 0);

    m.ClearAll(false);
    assert |m.tasks| == 1;
    m.ClearAll(true);
    assert m.GetStats() == Stats(0, 0, 0);
  }
}
