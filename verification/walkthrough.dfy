/** Concrete runs of the handlers, following the life of one task. */
module Walkthrough {
  import opened Options
  import opened Text
  import opened Tasks
  import opened TaskCard
  import opened TaskForm

  /**
   * Adding "Buy milk" to an empty list gives one pending task with the defaults;
   * completing it stamps a completion time, and reopening clears it again.
   */
  lemma BuyMilk(now: Timestamp, t1: Timestamp, t2: Timestamp)
    ensures var added := AddTask([], Form("Buy milk", "", Medium, "", ""), now).tasks;
            added == [Task(now, "Buy milk", "", Medium, Pending, now, None, "General", None)]
    ensures var added := AddTask([], Form("Buy milk", "", Medium, "", ""), now).tasks;
            var done := UpdateStatus(added, now, Completed, t1);
            var reopened := UpdateStatus(done, now, Pending, t2);
            done[0].status == Completed && done[0].completedAt == Some(t1)
            && reopened[0].status == Pending && reopened[0].completedAt == None
  {
    TrimTight("Buy milk");
    TrimTight("");
  }

  /** Saving an edit whose title is only spaces leaves the task's title as it was. */
  lemma BlankTitleEditRejected(t: Task)
    ensures var c := Cards([t], EditState(Some(t.id), Some(BufferOf(t).(title := "  "))));
            SaveEdit(c, t.id).tasks[0].title == t.title
  {
    assert Blank("  ");
  }

  /** A task due yesterday is marked overdue while pending and not once completed. */
  lemma YesterdayOverdue(t: Task, dayOf: string -> Option<int>, today: int, now: Timestamp)
    requires t.status == Pending && t.dueDate.Some? && t.dueDate.value != ""
    requires dayOf(t.dueDate.value) == Some(today - 1)
    ensures ShowOverdue(t, dayOf, today)
    ensures !ShowOverdue(UpdateStatus([t], t.id, Completed, now)[0], dayOf, today)
  {
  }
}
