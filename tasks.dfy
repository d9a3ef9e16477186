/** The task record and the pure list transformations behind each
    `TodoManager` operation (script.js:17-87). */
module Tasks {
  import opened Sequences
  import opened Text

  datatype Option<T> = None | Some(value: T)

  /** One to-do item `{id, text, completed, createdAt}`. The id is the
      millisecond clock reading `Date.now()` took when the task was added;
      `createdAt` is the ISO-8601 string of the same moment. */
  datatype Task = Task(id: int, text: string, completed: bool, createdAt: string)

  predicate Done(t: Task) { t.completed }

  predicate Pending(t: Task) { !t.completed }

  /** The record `addTask` builds for accepted input (script.js:43-48). */
  function NewTask(id: int, text: string, createdAt: string): (t: Task)
    requires !IsBlank(text)
    ensures t.id == id && t.createdAt == createdAt && !t.completed
    ensures t.text == Trim(text) && t.text != [] && Trim(t.text) == t.text
  {
    TrimIdempotent(text);
    Task(id, Trim(text), false, createdAt)
  }

  // ---------------------------------------------------------------- delete

  /** The test `task => task.id !== id`. */
  function IdIsNot(id: int): Task -> bool {
    (t: Task) => t.id != id
  }

  /** The test `t => t.id === id` that `find` applies. */
  function IdIs(id: int): Task -> bool {
    (t: Task) => t.id == id
  }

  /** `tasks.filter(task => task.id !== id)` (script.js:56): no task with the
      id survives, and the list never grows. */
  function WithoutId(tasks: seq<Task>, id: int): (r: seq<Task>)
    ensures |r| <= |tasks|
    ensures forall t :: t in r ==> t.id != id
  {
    Filter(tasks, IdIsNot(id))
  }

  /** Deleting keeps exactly the tasks with another id, in their original
      order and with every copy; every task carrying the id goes, not only
      the first, so the length drops by the number of matches. */
  lemma DeleteSpec(tasks: seq<Task>, id: int)
    ensures forall t :: t in WithoutId(tasks, id) <==> t in tasks && t.id != id
    ensures IsSubsequence(WithoutId(tasks, id), tasks)
    ensures |WithoutId(tasks, id)| + |Filter(tasks, IdIs(id))| == |tasks|
    ensures (forall t :: t in tasks ==> t.id != id) <==> WithoutId(tasks, id) == tasks
  {
    FilterIsSubsequence(tasks, IdIsNot(id));
    FilterPartition(tasks, IdIsNot(id), IdIs(id));
    FilterKeepsAll(tasks, IdIsNot(id));
  }

  /** Deleting the same id twice is deleting it once. */
  lemma DeleteIdempotent(tasks: seq<Task>, id: int)
    ensures WithoutId(WithoutId(tasks, id), id) == WithoutId(tasks, id)
  {
    FilterIdempotent(tasks, IdIsNot(id));
  }

  // ---------------------------------------------------------------- toggle

  /** `tasks.find(t => t.id === id)`, as the position of the first task with
      that id, or None when no task has it (script.js:61). */
  function FirstIndexOf(tasks: seq<Task>, id: int): (r: Option<nat>)
    ensures r.Some? ==> r.value < |tasks| && tasks[r.value].id == id &&
                        forall j :: 0 <= j < r.value ==> tasks[j].id != id
    ensures r.None? <==> forall j :: 0 <= j < |tasks| ==> tasks[j].id != id
  {
    if tasks == [] then None
    else if tasks[0].id == id then Some(0)
    else match FirstIndexOf(tasks[1..], id)
      case None => None
      case Some(i) => Some(i + 1)
  }

  /** The list after `toggleTask(id)` (script.js:60-66): the first task with
      that id has its `completed` flag flipped in place; with no such task the
      list is as it was. */
  function ToggleFirst(tasks: seq<Task>, id: int): (r: seq<Task>)
    ensures |r| == |tasks|
    ensures forall j :: 0 <= j < |r| ==> r[j].id == tasks[j].id && r[j].text == tasks[j].text
  {
    match FirstIndexOf(tasks, id)
    case None => tasks
    case Some(i) => tasks[i := tasks[i].(completed := !tasks[i].completed)]
  }

  /** Only the first task with the id changes, and only its flag; every other
      task, a later one with the same id included, is left as it was. */
  lemma ToggleSpec(tasks: seq<Task>, id: int)
    ensures |ToggleFirst(tasks, id)| == |tasks|
    ensures FirstIndexOf(tasks, id).None? ==> ToggleFirst(tasks, id) == tasks
    ensures FirstIndexOf(tasks, id).Some? ==>
              var i, r := FirstIndexOf(tasks, id).value, ToggleFirst(tasks, id);
              && r[i].id == tasks[i].id == id
              && r[i].text == tasks[i].text
              && r[i].createdAt == tasks[i].createdAt
              && r[i].completed == !tasks[i].completed
              && (forall j :: 0 <= j < |tasks| && j != i ==> r[j] == tasks[j])
  {
  }

  /** Two lists with the same ids at the same positions find the same task. */
  lemma {:induction false} FirstIndexOfSameIds(a: seq<Task>, b: seq<Task>, id: int)
    requires |a| == |b|
    requires forall j :: 0 <= j < |a| ==> a[j].id == b[j].id
    ensures FirstIndexOf(a, id) == FirstIndexOf(b, id)
  {
  }

  /** Toggling the same id twice restores the list. */
  lemma ToggleInvolutive(tasks: seq<Task>, id: int)
    ensures ToggleFirst(ToggleFirst(tasks, id), id) == tasks
  {
  }

  // ------------------------------------------------------- clear completed

  /** `tasks.filter(task => !task.completed)` (script.js:69): no completed
      task survives, and the list never grows. */
  function PendingOnly(tasks: seq<Task>): (r: seq<Task>)
    ensures |r| <= |tasks|
    ensures forall t :: t in r ==> !t.completed
  {
    Filter(tasks, Pending)
  }

  /** Clearing completed tasks keeps exactly the pending ones, in order, and
      clearing again changes nothing. */
  lemma ClearCompletedSpec(tasks: seq<Task>)
    ensures forall t :: t in PendingOnly(tasks) <==> t in tasks && !t.completed
    ensures IsSubsequence(PendingOnly(tasks), tasks)
    ensures PendingOnly(PendingOnly(tasks)) == PendingOnly(tasks)
    ensures (forall t :: t in tasks ==> !t.completed) <==> PendingOnly(tasks) == tasks
  {
    FilterIsSubsequence(tasks, Pending);
    FilterIdempotent(tasks, Pending);
    FilterKeepsAll(tasks, Pending);
  }

  // ---------------------------------------------------------------- counts

  /** `tasks.filter(task => task.completed).length` (script.js:82). */
  function CountDone(tasks: seq<Task>): (n: nat)
    ensures n <= |tasks|
  {
    |Filter(tasks, Done)|
  }

  /** Clearing completed tasks removes exactly the completed count. */
  lemma ClearCompletedRemovesDone(tasks: seq<Task>)
    ensures |PendingOnly(tasks)| == |tasks| - CountDone(tasks)
    ensures CountDone(PendingOnly(tasks)) == 0
  {
    FilterPartition(tasks, Done, Pending);
    var rest := PendingOnly(tasks);
    if Filter(rest, Done) != [] {
      assert Filter(rest, Done)[0] in Filter(rest, Done);
    }
  }

  /** Appending one task adds one to the completed count when it is done. */
  lemma CountDoneAppend(tasks: seq<Task>, t: Task)
    ensures CountDone(tasks + [t]) == CountDone(tasks) + (if t.completed then 1 else 0)
  {
    FilterAppend(tasks, [t], Done);
    assert [t][1..] == [];
  }

  /** Replacing one task changes the completed count by that task's flag alone. */
  lemma {:induction false} CountDoneUpdate(tasks: seq<Task>, i: nat, t: Task)
    requires i < |tasks|
    ensures CountDone(tasks[i := t]) ==
              CountDone(tasks) - (if tasks[i].completed then 1 else 0) + (if t.completed then 1 else 0)
  {
    if i == 0 {
      assert tasks[i := t][1..] == tasks[1..];
    } else {
      CountDoneUpdate(tasks[1..], i - 1, t);
      assert tasks[i := t][1..] == tasks[1..][i - 1 := t];
    }
  }

  /** Toggling a pending task completes one more; toggling a completed one,
      one fewer; a miss changes nothing. */
  lemma ToggleCount(tasks: seq<Task>, id: int)
    ensures FirstIndexOf(tasks, id).None? ==> CountDone(ToggleFirst(tasks, id)) == CountDone(tasks)
    ensures FirstIndexOf(tasks, id).Some? ==>
              var i := FirstIndexOf(tasks, id).value;
              CountDone(ToggleFirst(tasks, id)) ==
                if tasks[i].completed then CountDone(tasks) - 1 else CountDone(tasks) + 1
  {
  }

  // ---------------------------------------------------- list-wide invariants

  /** Every stored text is non-empty and already trimmed, as `addTask` stores it. */
  predicate TextsTrimmed(tasks: seq<Task>) {
    forall t :: t in tasks ==> t.text != [] && Trim(t.text) == t.text
  }

  /** No two tasks share an id. */
  predicate DistinctIds(tasks: seq<Task>) {
    forall i, j :: 0 <= i < j < |tasks| ==> tasks[i].id != tasks[j].id
  }

  /** With distinct ids, the task `toggleTask` finds is the only one with that
      id, so toggling and deleting address the same single task. */
  lemma DistinctFindsOnly(tasks: seq<Task>, id: int)
    requires DistinctIds(tasks)
    ensures FirstIndexOf(tasks, id).Some? ==>
              forall j :: 0 <= j < |tasks| && tasks[j].id == id ==> j == FirstIndexOf(tasks, id).value
  {
  }

  /** Every list operation keeps the stored texts trimmed and non-empty. */
  lemma OperationsKeepTextsTrimmed(tasks: seq<Task>, id: int, text: string, stamp: string)
    requires TextsTrimmed(tasks)
    ensures !IsBlank(text) ==> TextsTrimmed(tasks + [NewTask(id, text, stamp)])
    ensures TextsTrimmed(WithoutId(tasks, id))
    ensures TextsTrimmed(ToggleFirst(tasks, id))
    ensures TextsTrimmed(PendingOnly(tasks))
  {
  }

  /** Adding a task whose id is not yet in use keeps the ids distinct, and
      deleting, toggling or clearing never makes two tasks share one. */
  lemma OperationsKeepIdsDistinct(tasks: seq<Task>, id: int, text: string, stamp: string)
    requires DistinctIds(tasks)
    ensures (forall t :: t in tasks ==> t.id != id) && !IsBlank(text) ==>
              DistinctIds(tasks + [NewTask(id, text, stamp)])
    ensures DistinctIds(ToggleFirst(tasks, id))
    ensures DistinctIds(WithoutId(tasks, id))
    ensures DistinctIds(PendingOnly(tasks))
  {
    if (forall t :: t in tasks ==> t.id != id) && !IsBlank(text) {
      var r := tasks + [NewTask(id, text, stamp)];
      forall i, j | 0 <= i < j < |r| ensures r[i].id != r[j].id {
        if j == |tasks| { assert r[i] == tasks[i]; assert tasks[i] in tasks; }
      }
    }
    ToggleSpec(tasks, id);
    FilterIsSubsequence(tasks, IdIsNot(id));
    SubsequenceKeepsIdsDistinct(WithoutId(tasks, id), tasks);
    FilterIsSubsequence(tasks, Pending);
    SubsequenceKeepsIdsDistinct(PendingOnly(tasks), tasks);
  }

  /** Deleting elements never makes two ids equal. */
  lemma {:induction false} SubsequenceKeepsIdsDistinct(r: seq<Task>, s: seq<Task>)
    requires IsSubsequence(r, s) && DistinctIds(s)
    ensures DistinctIds(r)
    decreases |s|
  {
    if r != [] {
      assert DistinctIds(s[1..]) by {
        forall i, j | 0 <= i < j < |s[1..]| ensures s[1..][i].id != s[1..][j].id {
          assert s[1..][i] == s[i + 1] && s[1..][j] == s[j + 1];
        }
      }
      if r[0] == s[0] {
        SubsequenceKeepsIdsDistinct(r[1..], s[1..]);
        SubsequenceElements(r[1..], s[1..]);
        forall i, j | 0 <= i < j < |r| ensures r[i].id != r[j].id {
          if i == 0 {
            assert r[j] == r[1..][j - 1];
            assert r[j] in s[1..];
            var k :| 0 <= k < |s[1..]| && s[1..][k] == r[j];
            assert s[k + 1] == r[j];
          } else {
            assert r[i] == r[1..][i - 1] && r[j] == r[1..][j - 1];
          }
        }
      } else {
        SubsequenceKeepsIdsDistinct(r, s[1..]);
      }
    }
  }

  /** Every element of a subsequence is an element of the whole. */
  lemma {:induction false} SubsequenceElements<T>(r: seq<T>, s: seq<T>)
    requires IsSubsequence(r, s)
    ensures forall x :: x in r ==> x in s
    decreases |s|
  {
    if r != [] {
      if r[0] == s[0] {
        SubsequenceElements(r[1..], s[1..]);
        assert r == [r[0]] + r[1..];
      } else {
        SubsequenceElements(r, s[1..]);
      }
    }
  }
}
