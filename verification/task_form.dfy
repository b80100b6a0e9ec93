/**
 * The new-task form: its five held fields, `addTask` (blank-title guard,
 * record construction with defaults, prepend, form reset), the Add button's
 * enabled state and the Ctrl+Enter shortcut.
 */
module TaskForm {
  import opened Options
  import opened Text
  import opened Tasks

  /** The form's held values; `dueDate` and `category` are "" when not chosen. */
  datatype Form = Form(title: string, description: string, priority: Priority, dueDate: string, category: string)

  /** The values the form starts with and returns to after a successful add. */
  const InitialForm := Form("", "", Medium, "", "")

  /** The task list and the form after a handler has run. */
  datatype Submission = Submission(tasks: seq<Task>, form: Form)

  /**
   * The record `addTask` builds at clock reading `now`: trimmed text, pending,
   * not completed, an empty due date stored as absent, an empty category as "General".
   */
  function NewTask(f: Form, now: Timestamp): (t: Task)
    ensures t.id == now && t.createdAt == now
    ensures t.title == Trim(f.title) && t.description == Trim(f.description)
    ensures t.priority == f.priority
    ensures t.status == Pending && t.completedAt == None && CompletionConsistent(t)
    ensures f.dueDate == "" ==> t.dueDate == None
    ensures f.dueDate != "" ==> t.dueDate == Some(f.dueDate)
    ensures f.category == "" ==> t.category == "General"
    ensures f.category != "" ==> t.category == f.category
    ensures !Blank(f.title) ==> TitleOk(t)
  {
    TrimIdempotent(f.title);
    Task(
      id := now,
      title := Trim(f.title),
      description := Trim(f.description),
      priority := f.priority,
      status := Pending,
      createdAt := now,
      dueDate := if f.dueDate == "" then None else Some(f.dueDate),
      category := if f.category == "" then "General" else f.category,
      completedAt := None)
  }

  /**
   * `addTask()`: a title that trims to nothing changes neither the list nor the
   * form; otherwise the new task goes in front of the old list, which follows
   * unchanged, and the form is reset.
   */
  function AddTask(ts: seq<Task>, f: Form, now: Timestamp): (r: Submission)
    ensures Blank(f.title) ==> r == Submission(ts, f)
    ensures !Blank(f.title) ==>
              |r.tasks| == |ts| + 1 && r.tasks[0] == NewTask(f, now) && r.tasks[1..] == ts
              && r.form == InitialForm
  {
    if Trim(f.title) == [] then Submission(ts, f)
    else Submission([NewTask(f, now)] + ts, InitialForm)
  }

  /** The Add button is disabled exactly when the title is blank. */
  function AddDisabled(f: Form): (r: bool)
    ensures r <==> Blank(f.title)
  {
    Trim(f.title) == []
  }

  /** `handleKeyPress`: Enter with Ctrl held submits; any other key changes nothing. */
  function HandleKeyPress(ts: seq<Task>, f: Form, key: string, ctrl: bool, now: Timestamp): (r: Submission)
    ensures !(key == "Enter" && ctrl) ==> r == Submission(ts, f)
    ensures key == "Enter" && ctrl && AddDisabled(f) ==> r == Submission(ts, f)
    ensures key == "Enter" && ctrl && !AddDisabled(f) ==> r.tasks == [NewTask(f, now)] + ts && r.form == InitialForm
  {
    if key == "Enter" && ctrl then AddTask(ts, f, now) else Submission(ts, f)
  }

  // ---------------------------------------------------------------- lemmas

  /** The submit gate and the guard agree: `addTask` has an effect exactly when the button is enabled. */
  lemma AddTaskEffectIffEnabled(ts: seq<Task>, f: Form, now: Timestamp)
    ensures AddTask(ts, f, now) != Submission(ts, f) <==> !AddDisabled(f)
  {
    if !AddDisabled(f) {
      assert |AddTask(ts, f, now).tasks| != |ts|;
    }
  }

  /** Adding keeps the completion invariant and well-formed titles of the whole list. */
  lemma AddTaskKeepsInvariants(ts: seq<Task>, f: Form, now: Timestamp)
    ensures AllConsistent(ts) ==> AllConsistent(AddTask(ts, f, now).tasks)
    ensures AllTitlesOk(ts) ==> AllTitlesOk(AddTask(ts, f, now).tasks)
  {
    if !Blank(f.title) {
      var r := AddTask(ts, f, now).tasks;
      assert r == [NewTask(f, now)] + ts;
      assert forall i :: 1 <= i < |r| ==> r[i] == ts[i - 1];
    }
  }

  /** With a clock that has moved past every existing id, adding keeps ids unique. */
  lemma AddTaskKeepsIdsUnique(ts: seq<Task>, f: Form, now: Timestamp)
    requires UniqueIds(ts)
    requires forall i :: 0 <= i < |ts| ==> ts[i].id < now
    ensures UniqueIds(AddTask(ts, f, now).tasks)
  {
    var r := AddTask(ts, f, now).tasks;
    if !Blank(f.title) {
      assert forall i :: 1 <= i < |r| ==> r[i] == ts[i - 1];
    }
  }

  /** Deleting the id just added undoes the add, when no older task had that id. */
  lemma AddThenDelete(ts: seq<Task>, f: Form, now: Timestamp)
    requires !HasId(ts, now)
    ensures Delete(AddTask(ts, f, now).tasks, now) == ts
  {
    if !Blank(f.title) {
      DeleteAppend([NewTask(f, now)], ts, now);
    }
  }
}
