# University task list — a verified model of its domain logic

This project models the domain logic of `UniversityTodoApp`, a browser app
in which a student keeps a list of university assignments. Each task has a
title, subject, ISO due date, priority (`baja`, `media` or `alta`),
description, a completion flag and a creation timestamp. The model covers:

- the app's state: the task list (newest first), the current filter name
  and the id of the task being edited;
- the lifecycle operations: create, start editing, commit an edit, cancel
  an edit, toggle completion and delete;
- the derived views: the five filter modes, the overdue test, the four
  statistics counters and the label for the number of days until a task is due.

Files:

- `Wrappers.dfy`: the `Option` type.
- `Strings.dfy`: JavaScript's `<` on strings as `StrLess`, and decimal rendering of numbers.
- `Sequences.dfy`: order-preserving subsequences and `Filter`, which is `Array.prototype.filter`.
- `Tasks.dfy`: the task record and the list transformations behind the lifecycle operations.
- `Views.dfy`: filters, the overdue test, statistics and due labels.
- `App.dfy`: the `UniversityTodoApp` class, whose methods update its fields in place.

Time is a parameter everywhere. The id and timestamp of a new task, and
"today" as a `YYYY-MM-DD` string, are supplied by the caller. Due dates are
compared with JavaScript's string `<`. That is lexicographic order, so the
model defines it as `StrLess` and proves it is a strict total order. Dafny's
own `<` on sequences means "proper prefix", a different relation.

Ids come from the clock (`Date.now()`), so two tasks can share one. The
model keeps the code's behaviour for repeated ids:

- toggle changes only the first match (`find`);
- edit rewrites every match (`map`);
- delete removes every match (`filter`).

Ids are meant to be unique, but `Date.now()` can repeat and the code does
not check it. Separate lemmas state what unique ids would add, such as
delete removing exactly one task.

Edit state is `Option<int>`. `handleFormSubmit` tests the id for
truthiness, so an edit state of `Some(0)` submits as a new task
(`IsEditing`). Every operation keeps the object invariant `Valid()`: when
the edit state is set, some task has that id.

## Model

| member | source | states |
|---|---|---|
| `App.UniversityTodoApp.constructor` | script.js:2-7 | The list is the stored list, or empty when storage holds nothing or `null`. The filter is `all`. No task is being edited. |
| `App.UniversityTodoApp.HandleFormSubmit` | script.js:42-50 | With a truthy edit id, the submit commits that edit and leaves edit mode. Otherwise it prepends a new task and keeps the edit state. |
| `App.UniversityTodoApp.AddTask` | script.js:52-77 | The new task is at index 0 with the clock's id and timestamp, the form's five fields and `completed == false`. The old list follows unchanged. |
| `App.UniversityTodoApp.StartEditTask` | script.js:79-95 | The edit state becomes `Some(id)` exactly when some task has `id`; otherwise it is unchanged. The list is not modified. |
| `App.UniversityTodoApp.UpdateTask` | script.js:97-127 | The list becomes `UpdateMatching(old list, id, fields)` and edit mode ends. |
| `App.UniversityTodoApp.CancelEdit` | script.js:129-133 | Edit mode ends. Nothing else changes. |
| `App.UniversityTodoApp.ToggleTask` | script.js:135-148 | The list becomes `Toggled(old list, id)` and the edit state is unchanged. |
| `App.UniversityTodoApp.DeleteTask` | script.js:150-163 | When confirmed, the list keeps exactly the tasks whose id differs, and edit mode ends only if that id was being edited. When not confirmed, nothing changes. |
| `App.UniversityTodoApp.SetFilter` | script.js:165-175 | The current filter name becomes the one chosen. |
| `App.UniversityTodoApp.GetFilteredTasks` | script.js:177-192 | The view is an order-preserving subsequence of the list, and the whole list for an unknown filter name. |
| `App.UniversityTodoApp.CurrentStats` | script.js:302-322 | The counters satisfy `total` is the list length, `pending + completed == total` and `overdue <= pending`. |
| `Tasks.Created` | script.js:59-68 | The new task has the clock's id and timestamp, the form's five fields and `completed == false`. |
| `Tasks.Edited` | script.js:106-113 | The edited task takes the form's five fields and keeps its `id`, `completed` and `createdAt`. |
| `Tasks.Find` | script.js:136 | Returns the index of the first task with the id. It returns None exactly when no task has that id. |
| `Tasks.FindSameIds` | script.js:136-138 | Lists that carry the same ids at the same positions give the same `find` result. |
| `Tasks.UpdateMatching` | script.js:104-116 | Keeps the length. Tasks with another id are unchanged. Each matching task gets the five new fields over its old record. |
| `Tasks.UpdateKeepsIdentity` | script.js:104-116 | The edit preserves every task's `id`, `completed` and `createdAt`. It is a no-op when no task has the id. |
| `Tasks.UpdateIdempotent` | script.js:104-116 | Committing the same edit twice equals committing it once. |
| `Tasks.Toggled` | script.js:136-138 | Keeps the length. Only the first task with the id has its flag flipped, and every other task is unchanged. Toggling is a no-op when the id is absent. |
| `Tasks.ToggledTwice` | script.js:136-138 | Toggling the same id twice restores the original list. |
| `Tasks.ToggledUniqueIsEveryMatch` | script.js:136-138 | With unique ids, toggling the first match flips every task with that id. |
| `Tasks.Without` | script.js:152 | The result is a subsequence of the list. It keeps every task whose id differs, as many times as it occurs, and none with the deleted id. |
| `Tasks.WithoutAbsent` | script.js:152 | Deleting an absent id leaves the list unchanged. |
| `Tasks.WithoutIdempotent` | script.js:152 | Deleting the same id twice equals deleting it once. |
| `Tasks.WithoutUndoesCreate` | script.js:59-70 | Deleting a just-created task whose id was fresh gives back the previous list. |
| `Tasks.WithoutUniqueRemovesOne` | script.js:152 | With unique ids, deleting a present id shortens the list by exactly one. |
| `Tasks.CreatedKeepsUnique` | script.js:59-70 | Prepending a task with a fresh id keeps ids unique. |
| `Sequences.Filter` | script.js:182-188 | `filter` returns an order-preserving subsequence. It holds exactly the satisfying elements, each as often as in the input. |
| `Sequences.FilterUnique` | script.js:182-188 | Only one subsequence has exactly the satisfying elements with their multiplicities, so `Filter` is fully determined. |
| `Sequences.FilterKeepsAll` | script.js:152 | A filter that every element passes returns the input unchanged. |
| `Sequences.FilterComplement` | script.js:307-308 | The lengths of the filters by a predicate and by its negation add up to the input's length. |
| `Sequences.FilterNarrow` | script.js:182-186 | Filtering by a stronger predicate equals filtering the result of a weaker one. That result is a subsequence and no longer. |
| `Sequences.FilterIdempotent` | script.js:152 | Filtering twice by one predicate equals filtering once. |
| `Sequences.FilterLengthAgrees` | script.js:307-308 | Lists that agree pointwise on a predicate have filters of equal length. |
| `Sequences.FilterLengthUpdate` | script.js:138 | Replacing one element changes a filter's length by exactly that element's contribution. |
| `Views.IsOverdue` | script.js:194-198 | A completed task is never overdue. A pending task is overdue exactly when its date is before today. |
| `Views.ModeOf` | script.js:180-191 | Each of `pending`, `completed`, `overdue` and `alta` selects its own mode, and no other name does. |
| `Views.FilteredTasks` | script.js:180-191 | Each view is an order-preserving subsequence. `pending`, `completed`, `overdue` and `alta` keep exactly the tasks described, each as many times as it occurs, and any other mode gives the whole list. |
| `Views.OverdueFilterMatchesIsOverdue` | script.js:194-198 | A task is in the `overdue` view exactly when `isOverdue` holds for it. |
| `Views.OverdueWithinPending` | script.js:182-186 | The `overdue` view is the `pending` view filtered further, so it is a subsequence of the `pending` view. |
| `Views.NoOverdueWhenAllCompleted` | script.js:182-186 | When every task is completed, the `overdue` and `pending` views are empty. |
| `Views.OverdueGrowsWithToday` | script.js:186 | A task overdue on one day stays overdue on any later day, so the overdue count never shrinks as today advances. |
| `Views.ComputeStats` | script.js:305-310 | `total` is the list length, `pending + completed == total` and `overdue <= pending`. Each count is the length of the matching view. |
| `Views.StatsAfterCreate` | script.js:59-70 | Creating a task adds one to total and pending. Completed stays the same. Overdue goes up by one exactly when the due date is already past. |
| `Views.StatsAfterUpdate` | script.js:104-116 | An edit keeps total, pending and completed. |
| `Views.StatsAfterToggle` | script.js:136-138 | Toggling a present id moves exactly one task between pending and completed. |
| `Views.DueLabel` | script.js:208-211 | 0 gives `Hoy` and 1 gives `Mañana`, and only those. Counts above one give `En …` and negative counts give `Hace …`. Above one the label is `En `, the count's digits (`Decimal`), then ` días`. Below zero it is `Hace `, the digits of the count's absolute value, then ` día`, plus `s` unless the count is -1. |
| `Views.DueLabelInjective` | script.js:208-211 | Different day counts get different labels. |
| `Strings.StrLessIrreflexive` | script.js:197 | No date is before itself. |
| `Strings.StrLessAsymmetric` | script.js:197 | Two dates are never each before the other. |
| `Strings.StrLessTransitive` | script.js:197 | The date comparison is transitive. |
| `Strings.StrLessTotal` | script.js:197 | Any two different strings are ordered one way or the other. |
| `Strings.ProperPrefixIsLess` | script.js:197 | A proper prefix compares as smaller. |
| `Strings.Decimal` | script.js:208 | A count is printed as a non-empty run of digits with no leading zero. |
| `Strings.DecimalRoundTrip` | script.js:208 | Reading the printed digits back gives the number. |
| `Strings.DecimalInjective` | script.js:208 | Different numbers print differently. |

## Left out

- DOM reads and writes: form values, form reset, button text, scrolling, filter-button classes and the HTML built by `render`. The form's five values are the `Fields` parameter.
- Persistence: `localStorage` and JSON encoding. Loading is the constructor's `stored` parameter, and a save after each operation has no effect on the model. A stored text that does not parse makes the app's constructor throw. That case is not modelled, and neither is the save/load round trip.
- The clock: `Date.now()`, `new Date().toISOString()` and today's UTC date are parameters.
- The `confirm` dialog of `deleteTask` is the `confirmed` parameter.
- `getDaysUntilDue`'s day arithmetic is left out: local-time `setHours`, floating-point division and `Math.ceil`. `DueLabel` takes the whole day count as its input.
- `formatDate`, `detectSystemTheme` and `setMinDate` are left out: locale formatting, theme and form limits.
- `animateValue` and `showNotification` are left out: animation frames and timers.
- The empty-state icon, title and message tables are left out because they are display text.
- `StrLess` compares Dafny characters. JavaScript compares UTF-16 code units, and the two orders differ only for characters outside the Basic Multilingual Plane. ISO dates are ASCII.
- `Decimal` writes every number in plain digits. JavaScript switches to exponent notation from 1e21 on, far beyond any day count.
- Ids are unbounded integers. JavaScript numbers are doubles, and clock ids are exact integers in that range.
- Task records are assumed well-formed: every field has the type the app writes.
