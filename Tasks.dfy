/**
 * The task record and the pure list transformations behind the app's
 * lifecycle operations: look-up by id (`find`), edit by id (`map`), toggle
 * of the first match and delete by id (`filter`).
 *
 * Ids come from the clock and may repeat, so nothing here assumes them
 * unique; the lemmas at the end state what uniqueness would add.
 */
module Tasks {
  import opened Wrappers
  import opened Sequences

  datatype Task = Task(
    id: int,
    title: string,
    subject: string,
    date: string,        // due date, ISO `YYYY-MM-DD`
    priority: string,    // `baja`, `media` or `alta`
    description: string,
    completed: bool,
    createdAt: string)   // ISO timestamp of creation

  /** The five values the task form supplies when a task is created or edited. */
  datatype Fields = Fields(
    title: string,
    subject: string,
    date: string,
    priority: string,
    description: string)

  /** The record `addTask` builds from the form, the clock's id and timestamp. */
  function Created(id: int, f: Fields, createdAt: string): (t: Task)
    ensures t.id == id && t.createdAt == createdAt && !t.completed
    ensures t.title == f.title && t.subject == f.subject && t.date == f.date
    ensures t.priority == f.priority && t.description == f.description
  {
    Task(id, f.title, f.subject, f.date, f.priority, f.description, false, createdAt)
  }

  /** `{...task, title, subject, date, priority, description}`. */
  function Edited(t: Task, f: Fields): (e: Task)
    ensures e.id == t.id && e.completed == t.completed && e.createdAt == t.createdAt
    ensures e.title == f.title && e.subject == f.subject && e.date == f.date
    ensures e.priority == f.priority && e.description == f.description
  {
    t.(title := f.title, subject := f.subject, date := f.date,
       priority := f.priority, description := f.description)
  }

  predicate HasId(ts: seq<Task>, id: int)
  {
    exists t :: t in ts && t.id == id
  }

  ghost predicate UniqueIds(ts: seq<Task>)
  {
    forall i, j :: 0 <= i < j < |ts| ==> ts[i].id != ts[j].id
  }

  /** `tasks.find(t => t.id === id)`, as the index of the first match. */
  function Find(ts: seq<Task>, id: int): (r: Option<nat>)
    ensures r.Some? ==> r.value < |ts| && ts[r.value].id == id
    ensures r.Some? ==> forall j :: 0 <= j < r.value ==> ts[j].id != id
    ensures r.None? <==> !HasId(ts, id)
  {
    if ts == [] then None
    else if ts[0].id == id then Some(0)
    else
      assert forall t :: t in ts ==> t == ts[0] || t in ts[1..];
      match Find(ts[1..], id)
      case None => None
      case Some(k) => Some(k + 1)
  }

  /** Sequences carrying the same ids at the same positions give the same `find` result. */
  lemma {:induction false} FindSameIds(r: seq<Task>, s: seq<Task>, id: int)
    requires |r| == |s|
    requires forall i :: 0 <= i < |s| ==> r[i].id == s[i].id
    ensures Find(r, id) == Find(s, id)
  {
    if s != [] && s[0].id != id {
      FindSameIds(r[1..], s[1..], id);
    }
  }

  /** `tasks.map(task => task.id === id ? {...task, <fields>} : task)`. */
  function UpdateMatching(ts: seq<Task>, id: int, f: Fields): (r: seq<Task>)
    ensures |r| == |ts|
    ensures forall i :: 0 <= i < |ts| && ts[i].id != id ==> r[i] == ts[i]
    ensures forall i :: 0 <= i < |ts| && ts[i].id == id ==> r[i] == Edited(ts[i], f)
  {
    if ts == [] then []
    else [if ts[0].id == id then Edited(ts[0], f) else ts[0]] + UpdateMatching(ts[1..], id, f)
  }

  /** The edit keeps every task's id, completion flag and creation stamp, and changes nothing when the id is absent. */
  lemma UpdateKeepsIdentity(ts: seq<Task>, id: int, f: Fields)
    ensures var r := UpdateMatching(ts, id, f);
      forall i :: 0 <= i < |ts| ==>
        r[i].id == ts[i].id && r[i].completed == ts[i].completed && r[i].createdAt == ts[i].createdAt
    ensures !HasId(ts, id) ==> UpdateMatching(ts, id, f) == ts
  {
    if !HasId(ts, id) {
      var r := UpdateMatching(ts, id, f);
      forall i | 0 <= i < |ts| ensures r[i] == ts[i] {
        assert ts[i] in ts;
      }
    }
  }

  lemma UpdateIdempotent(ts: seq<Task>, id: int, f: Fields)
    ensures UpdateMatching(UpdateMatching(ts, id, f), id, f) == UpdateMatching(ts, id, f)
  {
  }

  /**
   * The first task with id `id` with its completion flag flipped, as
   * `toggleTask` does in place; no change when no task has the id.
   */
  function Toggled(ts: seq<Task>, id: int): (r: seq<Task>)
    ensures |r| == |ts|
    ensures !HasId(ts, id) ==> r == ts
    ensures HasId(ts, id) ==> var k := Find(ts, id).value;
      && r[k] == ts[k].(completed := !ts[k].completed)
      && (forall i :: 0 <= i < |ts| && i != k ==> r[i] == ts[i])
      && (forall i :: 0 <= i < k ==> ts[i].id != id)
  {
    match Find(ts, id)
    case None => ts
    case Some(k) => ts[k := ts[k].(completed := !ts[k].completed)]
  }

  /** Toggling twice restores the list. */
  lemma ToggledTwice(ts: seq<Task>, id: int)
    ensures Toggled(Toggled(ts, id), id) == ts
  {
    var r := Toggled(ts, id);
    FindSameIds(r, ts, id);
  }

  /** The predicate of `deleteTask`'s filter. */
  function IdIsNot(id: int): Task -> bool
  {
    (t: Task) => t.id != id
  }

  /** `tasks.filter(t => t.id !== id)`. */
  function Without(ts: seq<Task>, id: int): (r: seq<Task>)
    ensures Subseq(r, ts)
    ensures forall t :: t in r <==> t in ts && t.id != id
    ensures forall t :: multiset(r)[t] == if t.id != id then multiset(ts)[t] else 0
    ensures !HasId(r, id)
  {
    Filter(ts, IdIsNot(id))
  }

  lemma WithoutAbsent(ts: seq<Task>, id: int)
    requires !HasId(ts, id)
    ensures Without(ts, id) == ts
  {
    FilterKeepsAll(ts, IdIsNot(id));
  }

  lemma WithoutIdempotent(ts: seq<Task>, id: int)
    ensures Without(Without(ts, id), id) == Without(ts, id)
  {
    FilterIdempotent(ts, IdIsNot(id));
  }

  /** Deleting a task just created with a fresh id gives back the list it was added to. */
  lemma WithoutUndoesCreate(ts: seq<Task>, id: int, f: Fields, createdAt: string)
    requires !HasId(ts, id)
    ensures Without([Created(id, f, createdAt)] + ts, id) == ts
  {
    var s := [Created(id, f, createdAt)] + ts;
    assert s[1..] == ts;
    WithoutAbsent(ts, id);
  }

  /** With unique ids, deleting a present id removes exactly one task. */
  lemma {:induction false} WithoutUniqueRemovesOne(ts: seq<Task>, id: int)
    requires UniqueIds(ts)
    requires HasId(ts, id)
    ensures |Without(ts, id)| == |ts| - 1
  {
    assert ts == [ts[0]] + ts[1..];
    if ts[0].id == id {
      assert !HasId(ts[1..], id) by {
        forall t | t in ts[1..] ensures t.id != id {
          var j :| 0 <= j < |ts[1..]| && ts[1..][j] == t;
          assert ts[j + 1] == t;
        }
      }
      WithoutAbsent(ts[1..], id);
    } else {
      var t :| t in ts && t.id == id;
      assert t in ts[1..];
      WithoutUniqueRemovesOne(ts[1..], id);
    }
  }

  /** With unique ids, toggling the first match is toggling every match. */
  lemma ToggledUniqueIsEveryMatch(ts: seq<Task>, id: int)
    requires UniqueIds(ts)
    ensures forall i :: 0 <= i < |ts| ==>
      Toggled(ts, id)[i] == if ts[i].id == id then ts[i].(completed := !ts[i].completed) else ts[i]
  {
  }

  /** Adding a task with a fresh id keeps ids unique. */
  lemma CreatedKeepsUnique(ts: seq<Task>, id: int, f: Fields, createdAt: string)
    requires UniqueIds(ts)
    requires !HasId(ts, id)
    ensures UniqueIds([Created(id, f, createdAt)] + ts)
  {
    var s := [Created(id, f, createdAt)] + ts;
    forall i, j | 0 <= i < j < |s| ensures s[i].id != s[j].id {
      if i == 0 {
        assert s[j] == ts[j - 1] && ts[j - 1] in ts;
      } else {
        assert s[i] == ts[i - 1] && s[j] == ts[j - 1];
      }
    }
  }
}
