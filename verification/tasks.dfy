/**
 * The task record and the three list updates the task cards perform:
 * setting a status, merging an edit buffer, and deleting. Each is one
 * functional update of the whole list (`map` or `filter` in the source);
 * every task whose id matches is affected, since ids are not guaranteed unique.
 */
module Tasks {
  import opened Options
  import opened Text

  datatype Status = Pending | InProgress | Completed
  datatype Priority = Low | Medium | High | Urgent

  /** Milliseconds since the epoch, as `Date.now()` returns. */
  type Timestamp = int
  type TaskId = int

  datatype Task = Task(
    id: TaskId,
    title: string,
    description: string,
    priority: Priority,
    status: Status,
    createdAt: Timestamp,
    dueDate: Option<string>,
    category: string,
    completedAt: Option<Timestamp>)

  /** The fields a user can change through the inline editor. */
  datatype EditBuffer = EditBuffer(
    title: string,
    description: string,
    priority: Priority,
    category: string,
    dueDate: string)

  /** `completedAt` is set exactly when the task is completed. */
  predicate CompletionConsistent(t: Task)
  {
    t.completedAt.Some? <==> t.status == Completed
  }

  predicate AllConsistent(ts: seq<Task>)
  {
    forall i :: 0 <= i < |ts| ==> CompletionConsistent(ts[i])
  }

  /** The title is non-empty and already trimmed. */
  predicate TitleOk(t: Task)
  {
    t.title != [] && Trim(t.title) == t.title
  }

  predicate AllTitlesOk(ts: seq<Task>)
  {
    forall i :: 0 <= i < |ts| ==> TitleOk(ts[i])
  }

  predicate HasId(ts: seq<Task>, id: TaskId)
  {
    exists i :: 0 <= i < |ts| && ts[i].id == id
  }

  predicate UniqueIds(ts: seq<Task>)
  {
    forall i, j :: 0 <= i < j < |ts| ==> ts[i].id != ts[j].id
  }

  /** The two tasks agree on everything except status and completion time. */
  predicate SameContent(a: Task, b: Task)
  {
    && a.id == b.id && a.title == b.title && a.description == b.description
    && a.priority == b.priority && a.createdAt == b.createdAt
    && a.dueDate == b.dueDate && a.category == b.category
  }

  /** The two tasks agree on what an edit cannot change. */
  predicate SameIdentity(a: Task, b: Task)
  {
    a.id == b.id && a.status == b.status && a.createdAt == b.createdAt && a.completedAt == b.completedAt
  }

  // ---------------------------------------------------------------- status

  /** One task after `updateStatus`: the new status, completion stamped with `now` or cleared. */
  function WithStatus(t: Task, s: Status, now: Timestamp): (r: Task)
    ensures SameContent(t, r) && r.status == s
    ensures CompletionConsistent(r)
    ensures s == Completed ==> r.completedAt == Some(now)
  {
    t.(status := s, completedAt := if s == Completed then Some(now) else None)
  }

  /** `updateStatus(id, s)` applied to the list at clock reading `now`. */
  function UpdateStatus(ts: seq<Task>, id: TaskId, s: Status, now: Timestamp): (r: seq<Task>)
    ensures |r| == |ts|
    ensures forall i :: 0 <= i < |ts| && ts[i].id == id ==>
              SameContent(ts[i], r[i]) && r[i].status == s && CompletionConsistent(r[i])
              && (s == Completed ==> r[i].completedAt == Some(now))
    ensures forall i :: 0 <= i < |ts| && ts[i].id != id ==> r[i] == ts[i]
    decreases |ts|
  {
    if ts == [] then []
    else
      var head := if ts[0].id == id then WithStatus(ts[0], s, now) else ts[0];
      var rest := UpdateStatus(ts[1..], id, s, now);
      assert forall i :: 1 <= i < |ts| ==> ts[i] == ts[1..][i - 1] && ([head] + rest)[i] == rest[i - 1];
      [head] + rest
  }

  // ---------------------------------------------------------------- edit

  /**
   * The fields `saveEdit` spreads over each matching task: the buffer with its
   * title and description trimmed. It is the same for every task it touches.
   */
  function Patch(b: EditBuffer): (p: EditBuffer)
    ensures p.title == Trim(b.title) && p.description == Trim(b.description)
    ensures p.priority == b.priority && p.category == b.category && p.dueDate == b.dueDate
    ensures !Blank(b.title) ==> p.title != [] && Trim(p.title) == p.title
  {
    TrimIdempotent(b.title);
    b.(title := Trim(b.title), description := Trim(b.description))
  }

  /** One task with the patch spread over it. */
  function Edited(t: Task, p: EditBuffer): (r: Task)
    ensures SameIdentity(t, r)
    ensures r.title == p.title && r.description == p.description
    ensures r.priority == p.priority && r.category == p.category && r.dueDate == Some(p.dueDate)
  {
    t.(title := p.title, description := p.description,
       priority := p.priority, category := p.category, dueDate := Some(p.dueDate))
  }

  /** The list update inside `saveEdit(id)`: the patch spread over every task with that id. */
  function ApplyEdit(ts: seq<Task>, id: TaskId, p: EditBuffer): (r: seq<Task>)
    ensures |r| == |ts|
    ensures forall i :: 0 <= i < |ts| && ts[i].id == id ==> r[i] == Edited(ts[i], p)
    ensures forall i :: 0 <= i < |ts| && ts[i].id != id ==> r[i] == ts[i]
    decreases |ts|
  {
    if ts == [] then []
    else
      var head := if ts[0].id == id then Edited(ts[0], p) else ts[0];
      var rest := ApplyEdit(ts[1..], id, p);
      assert forall i :: 1 <= i < |ts| ==> ts[i] == ts[1..][i - 1] && ([head] + rest)[i] == rest[i - 1];
      [head] + rest
  }

  // ---------------------------------------------------------------- delete

  /** `deleteTask(id)`: the list without the tasks carrying that id. */
  function Delete(ts: seq<Task>, id: TaskId): (r: seq<Task>)
    ensures !HasId(r, id)
    ensures forall i :: 0 <= i < |r| ==> r[i] in ts
    ensures forall i :: 0 <= i < |ts| && ts[i].id != id ==> ts[i] in r
    ensures !HasId(ts, id) ==> r == ts
    ensures HasId(ts, id) ==> |r| < |ts|
    decreases |ts|
  {
    if ts == [] then []
    else
      var rest := Delete(ts[1..], id);
      assert forall i :: 1 <= i < |ts| ==> ts[i] == ts[1..][i - 1];
      if ts[0].id == id then rest else [ts[0]] + rest
  }

  // ---------------------------------------------------------------- lemmas

  /** Setting a status keeps the completion invariant of every task. */
  lemma UpdateStatusKeepsConsistency(ts: seq<Task>, id: TaskId, s: Status, now: Timestamp)
    requires AllConsistent(ts)
    ensures AllConsistent(UpdateStatus(ts, id, s, now))
  {
  }

  /** Setting a status leaves titles alone, so well-formed titles stay well-formed. */
  lemma UpdateStatusKeepsTitles(ts: seq<Task>, id: TaskId, s: Status, now: Timestamp)
    requires AllTitlesOk(ts)
    ensures AllTitlesOk(UpdateStatus(ts, id, s, now))
  {
  }

  /** An unknown id leaves the list as it was. */
  lemma UpdateStatusAbsent(ts: seq<Task>, id: TaskId, s: Status, now: Timestamp)
    requires !HasId(ts, id)
    ensures UpdateStatus(ts, id, s, now) == ts
  {
    var r := UpdateStatus(ts, id, s, now);
    assert forall i :: 0 <= i < |ts| ==> r[i] == ts[i];
  }

  /** Completing and then reopening a task leaves it pending with no completion time. */
  lemma CompleteThenReopen(ts: seq<Task>, id: TaskId, t1: Timestamp, t2: Timestamp)
    ensures var r := UpdateStatus(UpdateStatus(ts, id, Completed, t1), id, Pending, t2);
            forall i :: 0 <= i < |ts| && ts[i].id == id ==>
              SameContent(ts[i], r[i]) && r[i].status == Pending && r[i].completedAt == None
  {
  }

  /** An edit never touches status or completion time, so it keeps the completion invariant. */
  lemma ApplyEditKeepsConsistency(ts: seq<Task>, id: TaskId, p: EditBuffer)
    requires AllConsistent(ts)
    ensures AllConsistent(ApplyEdit(ts, id, p))
  {
  }

  /** An edit whose buffered title is not blank leaves every title trimmed and non-empty. */
  lemma ApplyEditKeepsTitles(ts: seq<Task>, id: TaskId, b: EditBuffer)
    requires AllTitlesOk(ts) && !Blank(b.title)
    ensures AllTitlesOk(ApplyEdit(ts, id, Patch(b)))
  {
  }

  /** An edit keeps every id, so the set of ids and their uniqueness survive it. */
  lemma ApplyEditKeepsIds(ts: seq<Task>, id: TaskId, p: EditBuffer)
    ensures var r := ApplyEdit(ts, id, p);
            forall i :: 0 <= i < |ts| ==> r[i].id == ts[i].id
  {
  }

  lemma ApplyEditAbsent(ts: seq<Task>, id: TaskId, p: EditBuffer)
    requires !HasId(ts, id)
    ensures ApplyEdit(ts, id, p) == ts
  {
    var r := ApplyEdit(ts, id, p);
    assert forall i :: 0 <= i < |ts| ==> r[i] == ts[i];
  }

  /** Deleting twice is deleting once. */
  lemma DeleteIdempotent(ts: seq<Task>, id: TaskId)
    ensures Delete(Delete(ts, id), id) == Delete(ts, id)
  {
  }

  /** Deleting distributes over concatenation: the survivors keep their relative order. */
  lemma {:induction false} DeleteAppend(a: seq<Task>, b: seq<Task>, id: TaskId)
    ensures Delete(a + b, id) == Delete(a, id) + Delete(b, id)
    decreases |a|
  {
    if a == [] {
      assert a + b == b;
    } else {
      assert (a + b)[1..] == a[1..] + b;
      DeleteAppend(a[1..], b, id);
    }
  }

  /** Deleting two ids gives the same list in either order. */
  lemma {:induction false} DeleteCommutes(ts: seq<Task>, x: TaskId, y: TaskId)
    ensures Delete(Delete(ts, x), y) == Delete(Delete(ts, y), x)
    decreases |ts|
  {
    if ts != [] {
      DeleteCommutes(ts[1..], x, y);
    }
  }

  /** Deleting keeps the completion invariant and well-formed titles of the survivors. */
  lemma DeleteKeepsInvariants(ts: seq<Task>, id: TaskId)
    ensures AllConsistent(ts) ==> AllConsistent(Delete(ts, id))
    ensures AllTitlesOk(ts) ==> AllTitlesOk(Delete(ts, id))
  {
  }

  /** Ids being unique, deleting an id that is present removes exactly one task. */
  lemma {:induction false} DeleteUniqueRemovesOne(ts: seq<Task>, id: TaskId)
    requires UniqueIds(ts) && HasId(ts, id)
    ensures |Delete(ts, id)| == |ts| - 1
    decreases |ts|
  {
    if ts[0].id == id {
      // The other tasks carry other ids, so the recursive call removes nothing.
      assert !HasId(ts[1..], id);
    } else {
      var k :| 0 <= k < |ts| && ts[k].id == id;
      assert ts[1..][k - 1].id == id;
      DeleteUniqueRemovesOne(ts[1..], id);
    }
  }
}
