/**
 * The task card list: its inline-edit state machine (`editId`, `editData`),
 * the status toggle and the footer status buttons, and the overdue rule.
 * List updates themselves live in `Tasks`.
 */
module TaskCard {
  import opened Options
  import opened Text
  import opened Tasks

  /** `editId` and `editData`; an `editData` of `None` is the empty object `{}`. */
  datatype EditState = EditState(editId: Option<TaskId>, editData: Option<EditBuffer>)

  const Idle := EditState(None, None)

  /** What the card list sees: the shared task list and its own edit state. */
  datatype Cards = Cards(tasks: seq<Task>, edit: EditState)

  /** A task is being edited exactly when the buffer is filled. */
  predicate EditWellFormed(e: EditState)
  {
    e.editId.Some? <==> e.editData.Some?
  }

  /** The buffer `startEdit` fills from a task; a missing due date is shown as "". */
  function BufferOf(t: Task): (b: EditBuffer)
    ensures b.title == t.title && b.description == t.description
    ensures b.priority == t.priority && b.category == t.category
    ensures t.dueDate.Some? ==> b.dueDate == t.dueDate.value
    ensures t.dueDate.None? ==> b.dueDate == ""
  {
    EditBuffer(t.title, t.description, t.priority, t.category, ValueOr(t.dueDate, ""))
  }

  /** `startEdit(task)`: begins editing `t`, whatever was being edited before. */
  function StartEdit(c: Cards, t: Task): (r: Cards)
    ensures r.tasks == c.tasks
    ensures r.edit.editId == Some(t.id) && r.edit.editData == Some(BufferOf(t))
    ensures EditWellFormed(r.edit)
  {
    c.(edit := EditState(Some(t.id), Some(BufferOf(t))))
  }

  /**
   * `saveEdit(id)`: a missing or blank buffered title changes nothing; otherwise
   * the buffer is merged into every task with that id and editing ends.
   */
  function SaveEdit(c: Cards, id: TaskId): (r: Cards)
    ensures c.edit.editData.None? ==> r == c
    ensures c.edit.editData.Some? && Blank(c.edit.editData.value.title) ==> r == c
    ensures c.edit.editData.Some? && !Blank(c.edit.editData.value.title) ==>
              r.tasks == ApplyEdit(c.tasks, id, Patch(c.edit.editData.value)) && r.edit == Idle
    ensures EditWellFormed(c.edit) ==> EditWellFormed(r.edit)
  {
    match c.edit.editData
    case None => c
    case Some(b) =>
      if Trim(b.title) == [] then c
      else Cards(ApplyEdit(c.tasks, id, Patch(b)), Idle)
  }

  /** `cancelEdit()`: editing ends and the list is untouched. */
  function CancelEdit(c: Cards): (r: Cards)
    ensures r.tasks == c.tasks && r.edit.editId.None? && r.edit.editData.None?
  {
    c.(edit := Idle)
  }

  /** The status the round toggle button asks for: completed reopens, anything else completes. */
  function Toggle(s: Status): (r: Status)
    ensures r == Completed <==> s != Completed
    ensures r != InProgress
  {
    if s == Completed then Pending else Completed
  }

  /**
   * The footer button of a card not being edited: "Mark Complete" for an open
   * task, "Reopen Task" for a completed one; a card under edit shows neither.
   */
  function FooterAction(t: Task, editId: Option<TaskId>): (r: Option<Status>)
    ensures r.Some? <==> editId != Some(t.id)
    ensures r.Some? ==> r.value == Toggle(t.status)
  {
    if editId != Some(t.id) && t.status != Completed then Some(Completed)
    else if editId != Some(t.id) && t.status == Completed then Some(Pending)
    else None
  }

  /**
   * `isOverdue(dueDate)`: an absent or empty due date is never overdue; otherwise
   * the date is overdue when its calendar day, as `dayOf` reads it, is before
   * `today`. A date `dayOf` cannot read is not overdue.
   */
  function IsOverdue(dueDate: Option<string>, dayOf: string -> Option<int>, today: int): (r: bool)
    ensures (dueDate.None? || dueDate == Some("")) ==> !r
    ensures r ==> dayOf(dueDate.value).Some? && dayOf(dueDate.value).value < today
    ensures (dueDate.Some? && dueDate.value != "" && dayOf(dueDate.value).Some?
             && dayOf(dueDate.value).value < today) ==> r
  {
    match dueDate
    case None => false
    case Some(d) =>
      if d == "" then false
      else match dayOf(d)
        case None => false
        case Some(day) => day < today
  }

  /**
   * The red overdue marking of a card: the task is not completed and has a
   * non-empty due date whose calendar day, as `dayOf` reads it, is before `today`.
   */
  function ShowOverdue(t: Task, dayOf: string -> Option<int>, today: int): (r: bool)
    ensures r <==> && t.status != Completed
                   && t.dueDate.Some? && t.dueDate.value != ""
                   && dayOf(t.dueDate.value).Some? && dayOf(t.dueDate.value).value < today
  {
    IsOverdue(t.dueDate, dayOf, today) && t.status != Completed
  }

  // ---------------------------------------------------------------- lemmas

  /** Toggling twice returns a pending or completed status to itself. */
  lemma ToggleTwice(s: Status)
    requires s != InProgress
    ensures Toggle(Toggle(s)) == s
  {
  }

  /**
   * Clicking the toggle on `t` flips completion for every task sharing its id:
   * a completed task reopens with no completion time, an open one completes at `now`.
   */
  lemma ToggleClickFlips(ts: seq<Task>, t: Task, now: Timestamp)
    ensures var r := UpdateStatus(ts, t.id, Toggle(t.status), now);
            forall i :: 0 <= i < |ts| && ts[i].id == t.id ==>
              (t.status == Completed ==> r[i].status == Pending && r[i].completedAt == None)
              && (t.status != Completed ==> r[i].status == Completed && r[i].completedAt == Some(now))
  {
  }

  /** A task just completed never shows as overdue, whatever its due date. */
  lemma CompletedNotOverdue(ts: seq<Task>, id: TaskId, now: Timestamp, dayOf: string -> Option<int>, today: int)
    ensures var r := UpdateStatus(ts, id, Completed, now);
            forall i :: 0 <= i < |ts| && ts[i].id == id ==> !ShowOverdue(r[i], dayOf, today)
  {
  }

  /** Once overdue, a due date stays overdue on every later day. */
  lemma OverdueStaysOverdue(dueDate: Option<string>, dayOf: string -> Option<int>, today: int, later: int)
    requires today <= later
    requires IsOverdue(dueDate, dayOf, today)
    ensures IsOverdue(dueDate, dayOf, later)
  {
  }

  /** Saving for an id no task carries ends editing (on a valid title) but leaves the list alone. */
  lemma SaveEditAbsent(c: Cards, id: TaskId)
    requires !HasId(c.tasks, id)
    ensures SaveEdit(c, id).tasks == c.tasks
  {
    if c.edit.editData.Some? {
      ApplyEditAbsent(c.tasks, id, Patch(c.edit.editData.value));
    }
  }

  /** A successful save keeps the completion invariant and well-formed titles. */
  lemma SaveEditKeepsInvariants(c: Cards, id: TaskId)
    ensures AllConsistent(c.tasks) ==> AllConsistent(SaveEdit(c, id).tasks)
    ensures AllTitlesOk(c.tasks) ==> AllTitlesOk(SaveEdit(c, id).tasks)
  {
    if c.edit.editData.Some? {
      var b := c.edit.editData.value;
      if AllConsistent(c.tasks) {
        ApplyEditKeepsConsistency(c.tasks, id, Patch(b));
      }
      if AllTitlesOk(c.tasks) && !Blank(b.title) {
        ApplyEditKeepsTitles(c.tasks, id, b);
      }
    }
  }

  /**
   * Opening the editor on `t` and saving without changes gives back the same
   * list, except that a missing due date is now stored as "". This needs every
   * task with `t`'s id to be `t` itself and `t`'s text fields to be trimmed.
   */
  lemma StartThenSave(c: Cards, t: Task)
    requires TitleOk(t) && Trim(t.description) == t.description
    requires forall i :: 0 <= i < |c.tasks| && c.tasks[i].id == t.id ==> c.tasks[i] == t
    ensures var r := SaveEdit(StartEdit(c, t), t.id);
            r.edit == Idle && |r.tasks| == |c.tasks|
            && forall i :: 0 <= i < |c.tasks| ==>
                 r.tasks[i] == if c.tasks[i].id == t.id then t.(dueDate := Some(ValueOr(t.dueDate, ""))) else c.tasks[i]
  {
    assert !Blank(t.title);
  }

  /** Opening the editor and cancelling leaves the list untouched and nothing in edit. */
  lemma StartThenCancel(c: Cards, t: Task)
    ensures CancelEdit(StartEdit(c, t)) == Cards(c.tasks, Idle)
  {
  }
}
