/**
 * The state of the task app and its lifecycle operations: the task list,
 * the current filter name and the id of the task being edited. DOM reads
 * become parameters (the form's five values as `Fields`); the clock's id,
 * timestamp and "today" are parameters too.
 */
module App {
  import opened Wrappers
  import opened Sequences
  import opened Tasks
  import opened Views

  class UniversityTodoApp {
    var tasks: seq<Task>
    var currentFilter: string
    var editingTaskId: Option<int>

    /** The edit state, when set, names a task that is in the list. */
    ghost predicate Valid()
      reads this
    {
      editingTaskId.Some? ==> HasId(tasks, editingTaskId.value)
    }

    /** Whether `handleFormSubmit` treats the app as editing: the id must be set and truthy, so 0 is not. */
    predicate IsEditing()
      reads this
    {
      editingTaskId.Some? && editingTaskId.value != 0
    }

    /**
     * The app as loaded: `stored` is the task list parsed from storage, or
     * None when the storage key is absent or holds `null` (both fall back to
     * the empty list).
     */
    constructor (stored: Option<seq<Task>>)
      ensures tasks == (if stored.Some? then stored.value else [])
      ensures currentFilter == "all"
      ensures editingTaskId == None
      ensures Valid()
    {
      tasks := if stored.Some? then stored.value else [];
      currentFilter := "all";
      editingTaskId := None;
    }

    /** `handleFormSubmit`: commit the edit in progress, or create a task. */
    method HandleFormSubmit(f: Fields, now: int, nowIso: string)
      modifies this`tasks, this`editingTaskId
      ensures old(IsEditing()) ==>
        tasks == UpdateMatching(old(tasks), old(editingTaskId).value, f) && editingTaskId == None
      ensures !old(IsEditing()) ==>
        tasks == [Created(now, f, nowIso)] + old(tasks) && editingTaskId == old(editingTaskId)
      ensures old(Valid()) ==> Valid()
    {
      if IsEditing() {
        UpdateTask(editingTaskId.value, f);
      } else {
        AddTask(f, now, nowIso);
      }
    }

    /** `addTask`: a new pending task with the clock's id and timestamp goes to the front. */
    method AddTask(f: Fields, now: int, nowIso: string)
      modifies this`tasks
      ensures tasks == [Created(now, f, nowIso)] + old(tasks)
      ensures tasks[0].id == now && !tasks[0].completed && tasks[0].createdAt == nowIso
      ensures tasks[1..] == old(tasks)
      ensures old(Valid()) ==> Valid()
    {
      tasks := [Created(now, f, nowIso)] + tasks;
      assert tasks[1..] == old(tasks);
      if editingTaskId.Some? {
        assert forall t :: t in old(tasks) ==> t in tasks;
      }
    }

    /** `startEditTask`: enter edit mode for `id` if some task has it; the list is untouched. */
    method StartEditTask(id: int)
      modifies this`editingTaskId
      ensures editingTaskId == if HasId(tasks, id) then Some(id) else old(editingTaskId)
      ensures old(Valid()) ==> Valid()
    {
      var found := Find(tasks, id);
      if found.Some? {
        editingTaskId := Some(id);
      }
    }

    /** `updateTask`: rewrite the five fields of every task with `id`, then leave edit mode. */
    method UpdateTask(id: int, f: Fields)
      modifies this`tasks, this`editingTaskId
      ensures tasks == UpdateMatching(old(tasks), id, f)
      ensures editingTaskId == None
      ensures Valid()
    {
      tasks := UpdateMatching(tasks, id, f);
      editingTaskId := None;
    }

    /** `cancelEdit`: leave edit mode; the list is untouched. */
    method CancelEdit()
      modifies this`editingTaskId
      ensures editingTaskId == None
      ensures Valid()
    {
      editingTaskId := None;
    }

    /** `toggleTask`: flip the completion flag of the first task with `id`. */
    method ToggleTask(id: int)
      modifies this`tasks
      ensures tasks == Toggled(old(tasks), id)
      ensures old(Valid()) ==> Valid()
    {
      var found := Find(tasks, id);
      if found.Some? {
        var k := found.value;
        tasks := tasks[k := tasks[k].(completed := !tasks[k].completed)];
        if editingTaskId.Some? {
          // The ids are unchanged, so the task being edited is still found.
          FindSameIds(tasks, old(tasks), editingTaskId.value);
        }
      }
    }

    /**
     * `deleteTask`, where `confirmed` is the user's answer to the confirmation
     * dialog: drop every task with `id`, and leave edit mode if that id was
     * being edited.
     */
    method DeleteTask(id: int, confirmed: bool)
      modifies this`tasks, this`editingTaskId
      ensures tasks == if confirmed then Without(old(tasks), id) else old(tasks)
      ensures editingTaskId ==
        if confirmed && old(editingTaskId) == Some(id) then None else old(editingTaskId)
      ensures old(Valid()) ==> Valid()
    {
      if confirmed {
        tasks := Without(tasks, id);
        if editingTaskId == Some(id) {
          CancelEdit();
        } else if old(Valid()) && editingTaskId.Some? {
          // The task being edited has another id, so the filter kept it.
          var t :| t in old(tasks) && t.id == editingTaskId.value;
          assert t in tasks;
        }
      }
    }

    /** `setFilter`, without the button highlighting. */
    method SetFilter(filter: string)
      modifies this`currentFilter
      ensures currentFilter == filter
    {
      currentFilter := filter;
    }

    /** `getFilteredTasks()` under the current filter name. */
    function GetFilteredTasks(today: string): (r: seq<Task>)
      reads this
      ensures Subseq(r, tasks)
      ensures ModeOf(currentFilter) == All ==> r == tasks
    {
      FilteredTasks(tasks, ModeOf(currentFilter), today)
    }

    /** The counters `updateStats()` shows. */
    function CurrentStats(today: string): (r: Stats)
      reads this
      ensures r.total == |tasks|
      ensures r.pending + r.completed == r.total
      ensures r.overdue <= r.pending
    {
      ComputeStats(tasks, today)
    }
  }
}
