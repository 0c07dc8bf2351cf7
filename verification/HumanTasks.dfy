/**
 Work assigned to people.  A request reads a task's row, checks it, and then updates it only
 where version and status are still the ones it read; any number of requests may sit between
 their read and their update.  Task ids are positions in the table.
 */
module HumanTasks {
  import opened Wrappers

  datatype Status = Waiting | Underway | UnderReview | Completed | Cancelled
  datatype Kind = Create | Begin | Submit | Return | Complete | Cancel | Assign | Due

  datatype Task = Task(status: Status, version: nat, assignee: Option<nat>, due: Option<string>, closedAt: Option<int>)

  datatype Event = Event(task: nat, source: Option<Status>, target: Status, kind: Kind)

  /** What a request asks; `allowed` is its permission check, `due` is None when the date does not parse. */
  datatype Request = Request(kind: Kind, allowed: bool, noteGiven: bool, expected: Option<nat>,
                             member: Option<nat>, memberOk: bool, due: Option<Option<string>>, now: int)

  /** A request between its read and its update, with the row it read. */
  datatype Reader = Reader(task: nat, row: Task)

  datatype Board = Board(tasks: seq<Task>, events: seq<Event>, readers: seq<Reader>)

  datatype Answer = Done | Forbidden | Invalid | Conflict

  predicate Final(s: Status) {
    s == Completed || s == Cancelled
  }

  /** The checks made on the row that was read. */
  function Check(row: Task, q: Request): Answer {
    if !q.allowed then Forbidden
    else if q.expected.Some? && q.expected.value != row.version then Conflict
    else if Final(row.status) then Conflict
    else match q.kind
      case Begin => if row.status != Waiting || row.assignee.None? then Conflict else Done
      case Submit => if row.status != Underway then Conflict else Done
      case Return => if !q.noteGiven then Invalid else if row.status !in {UnderReview, Underway} then Conflict else Done
      case Complete => if row.status != UnderReview then Conflict else Done
      case Cancel => Done
      case Assign => if q.member.None? || !q.memberOk then Invalid else Done
      case Due => if q.due.None? then Invalid else Done
      case Create => Invalid
  }

  function TargetOf(row: Task, q: Request): Status {
    match q.kind
    case Begin => Underway
    case Submit => UnderReview
    case Return => Waiting
    case Complete => Completed
    case Cancel => Cancelled
    case _ => row.status
  }

  /** The row after an accepted request. */
  function Updated(row: Task, q: Request): Task
    requires Check(row, q).Done?
  {
    var next := row.(version := row.version + 1);
    match q.kind
    case Assign => next.(assignee := q.member)
    case Due => next.(due := q.due.value)
    case _ => next.(status := TargetOf(row, q), closedAt := if Final(TargetOf(row, q)) then Some(q.now) else None)
  }

  /** The update of the request that read `row`: only where version and status are unchanged. */
  function Act(b: Board, id: nat, row: Task, q: Request): (Board, Answer)
    requires id < |b.tasks|
  {
    if !Check(row, q).Done? then (b, Check(row, q))
    else if b.tasks[id].version != row.version || b.tasks[id].status != row.status then (b, Conflict)
    else
      (b.(tasks := b.tasks[id := Merge(b.tasks[id], row, q)],
          events := b.events + [Event(id, Some(row.status), TargetOf(row, q), q.kind)]), Done)
  }

  /** The statement sets only its own columns on the current row. */
  function Merge(current: Task, row: Task, q: Request): Task
    requires Check(row, q).Done?
  {
    var u := Updated(row, q);
    match q.kind
    case Assign => current.(assignee := u.assignee, version := current.version + 1)
    case Due => current.(due := u.due, version := current.version + 1)
    case _ => current.(status := u.status, closedAt := u.closedAt, version := current.version + 1)
  }

  datatype Step =
    | New(assignee: Option<nat>, due: Option<string>)
    | Read(task: nat)
    | Update(reader: nat, request: Request)

  predicate Allowed(b: Board, s: Step) {
    match s
    case New(_, _) => true
    case Read(t) => t < |b.tasks|
    case Update(r, _) => r < |b.readers| && b.readers[r].task < |b.tasks|
  }

  function Do(b: Board, s: Step): Board {
    if !Allowed(b, s) then b
    else match s
      case New(assignee, due) =>
        b.(tasks := b.tasks + [Task(Waiting, 1, assignee, due, None)],
           events := b.events + [Event(|b.tasks|, None, Waiting, Create)])
      case Read(t) => b.(readers := b.readers + [Reader(t, b.tasks[t])])
      case Update(r, q) => Act(b, b.readers[r].task, b.readers[r].row, q).0
  }

  const Empty := Board([], [], [])

  function Exec(b: Board, steps: seq<Step>): Board
    decreases |steps|
  {
    if steps == [] then b else Do(Exec(b, steps[..|steps| - 1]), steps[|steps| - 1])
  }

  // ------------------------------------------------------------------ the store

  class TaskStore {
    var tasks: seq<Task>
    var events: seq<Event>

    method CreateTask(assignee: Option<nat>, due: Option<string>) returns (id: nat)
      modifies this
      ensures id == |old(tasks)| && tasks == old(tasks) + [Task(Waiting, 1, assignee, due, None)]
      ensures events == old(events) + [Event(id, None, Waiting, Create)]
    {
      id := |tasks|;
      tasks := tasks + [Task(Waiting, 1, assignee, due, None)];
      events := events + [Event(id, None, Waiting, Create)];
    }

    /** One guarded status change. */
    method Transition(id: nat, row: Task, target: Status, kind: Kind, now: int) returns (answer: Answer)
      requires id < |tasks|
      modifies this
      ensures answer.Done? <==> old(tasks)[id].version == row.version && old(tasks)[id].status == row.status
      ensures !answer.Done? ==> answer.Conflict? && tasks == old(tasks) && events == old(events)
      ensures answer.Done? ==>
                && tasks == old(tasks)[id := old(tasks)[id].(status := target, version := row.version + 1,
                                                             closedAt := if Final(target) then Some(now) else None)]
                && events == old(events) + [Event(id, Some(row.status), target, kind)]
    {
      var current := tasks[id];
      if current.version != row.version || current.status != row.status {
        return Conflict;
      }
      var closed := if target == Completed || target == Cancelled then Some(now) else None;
      tasks := tasks[id := current.(status := target, version := current.version + 1, closedAt := closed)];
      events := events + [Event(id, Some(row.status), target, kind)];
      return Done;
    }

    /** The whole request on the row it read, which may be out of date by now. */
    method ActOnTask(id: nat, row: Task, q: Request, ghost readers: seq<Reader>) returns (answer: Answer)
      requires id < |tasks|
      modifies this
      ensures (Board(tasks, events, readers), answer) == Act(old(Board(tasks, events, readers)), id, row, q)
    {
      if !q.allowed {
        return Forbidden;
      }
      if q.expected.Some? && q.expected.value != row.version {
        return Conflict;
      }
      if row.status == Completed || row.status == Cancelled {
        return Conflict;
      }
      match q.kind {
        case Begin =>
          if row.status != Waiting || row.assignee.None? {
            return Conflict;
          }
          answer := Transition(id, row, Underway, Begin, q.now);
        case Submit =>
          if row.status != Underway {
            return Conflict;
          }
          answer := Transition(id, row, UnderReview, Submit, q.now);
        case Return =>
          if !q.noteGiven {
            return Invalid;
          }
          if row.status != UnderReview && row.status != Underway {
            return Conflict;
          }
          answer := Transition(id, row, Waiting, Return, q.now);
        case Complete =>
          if row.status != UnderReview {
            return Conflict;
          }
          answer := Transition(id, row, Completed, Complete, q.now);
        case Cancel =>
          answer := Transition(id, row, Cancelled, Cancel, q.now);
        case Assign =>
          if q.member.None? || !q.memberOk {
            return Invalid;
          }
          var current := tasks[id];
          if current.version != row.version || current.status != row.status {
            return Conflict;
          }
          tasks := tasks[id := current.(assignee := q.member, version := current.version + 1)];
          events := events + [Event(id, Some(row.status), row.status, Assign)];
          answer := Done;
        case Due =>
          if q.due.None? {
            return Invalid;
          }
          var current := tasks[id];
          if current.version != row.version || current.status != row.status {
            return Conflict;
          }
          tasks := tasks[id := current.(due := q.due.value, version := current.version + 1)];
          events := events + [Event(id, Some(row.status), row.status, Due)];
          answer := Done;
        case Create =>
          answer := Invalid;
      }
    }
  }

  // ------------------------------------------------------------------ what every run keeps

  /** The events of one task, oldest first. */
  function Of(events: seq<Event>, id: nat): seq<Event> {
    if events == [] then []
    else
      var last := events[|events| - 1];
      Of(events[..|events| - 1], id) + if last.task == id then [last] else []
  }

  /** Those of them that changed the status, by kind. */
  function Changes(own: seq<Event>): seq<Kind> {
    if own == [] then []
    else
      var last := own[|own| - 1];
      Changes(own[..|own| - 1]) + if last.source != Some(last.target) then [last.kind] else []
  }

  /** Every event starts where the one before it ended. */
  predicate Unbroken(own: seq<Event>) {
    && (own != [] ==> own[0].source == None)
    && forall i | 0 < i < |own| :: own[i].source == Some(own[i - 1].target)
  }

  predicate EndsWith(kinds: seq<Kind>, tail: seq<Kind>) {
    |kinds| >= |tail| && forall i | 0 <= i < |tail| :: kinds[|kinds| - |tail| + i] == tail[i]
  }

  /** How a task came to its status. */
  predicate Earned(status: Status, kinds: seq<Kind>) {
    && (status == Underway ==> EndsWith(kinds, [Begin]))
    && (status == UnderReview ==> EndsWith(kinds, [Begin, Submit]))
    && (status == Completed ==> EndsWith(kinds, [Begin, Submit, Complete]))
  }

  predicate TaskOk(t: Task, own: seq<Event>) {
    && t.version == |own| > 0 && Unbroken(own) && own[|own| - 1].target == t.status
    && (t.closedAt.Some? <==> Final(t.status))
    && (t.status in {Underway, UnderReview, Completed} ==> t.assignee.Some?)
    && Earned(t.status, Changes(own))
  }

  /** What was read is the current row, or an older version of it. */
  predicate ReaderOk(r: Reader, tasks: seq<Task>) {
    r.task < |tasks| && r.row.version <= tasks[r.task].version
    && (r.row.version == tasks[r.task].version ==> r.row == tasks[r.task])
  }

  ghost predicate TasksOk(tasks: seq<Task>, events: seq<Event>) {
    && (forall i | 0 <= i < |tasks| :: TaskOk(tasks[i], Of(events, i)))
    && (forall i | 0 <= i < |events| :: events[i].task < |tasks|)
  }

  ghost predicate ReadersOk(readers: seq<Reader>, tasks: seq<Task>) {
    forall i | 0 <= i < |readers| :: ReaderOk(readers[i], tasks)
  }

  ghost predicate Inv(b: Board) {
    TasksOk(b.tasks, b.events) && ReadersOk(b.readers, b.tasks)
  }

  lemma OfAppend(events: seq<Event>, e: Event, id: nat)
    ensures e.task == id ==> Of(events + [e], id) == Of(events, id) + [e]
    ensures e.task != id ==> Of(events + [e], id) == Of(events, id)
  {
    assert (events + [e])[..|events|] == events;
  }

  lemma {:induction false} OfNobody(events: seq<Event>, id: nat)
    requires forall i | 0 <= i < |events| :: events[i].task < id
    ensures Of(events, id) == []
  {
    if events != [] {
      OfNobody(events[..|events| - 1], id);
    }
  }

  lemma ChangesAppend(own: seq<Event>, e: Event)
    ensures e.source != Some(e.target) ==> Changes(own + [e]) == Changes(own) + [e.kind]
    ensures e.source == Some(e.target) ==> Changes(own + [e]) == Changes(own)
  {
    assert (own + [e])[..|own|] == own;
  }

  lemma EndsWithOneMore(kinds: seq<Kind>, tail: seq<Kind>, k: Kind)
    requires EndsWith(kinds, tail)
    ensures EndsWith(kinds + [k], tail + [k])
  {
  }

  /** A change of status goes on from where the last one led. */
  lemma EarnedOneMore(row: Task, q: Request, kinds: seq<Kind>)
    requires Check(row, q).Done? && Earned(row.status, kinds)
    ensures Earned(TargetOf(row, q), if TargetOf(row, q) == row.status then kinds else kinds + [q.kind])
  {
    hide EndsWith;
    if q.kind == Begin {
      NothingBefore(kinds);
      EndsWithOneMore(kinds, [], Begin);
      assert [] + [Begin] == [Begin];
    } else if q.kind == Submit {
      EndsWithOneMore(kinds, [Begin], Submit);
      assert [Begin] + [Submit] == [Begin, Submit];
    } else if q.kind == Complete {
      EndsWithOneMore(kinds, [Begin, Submit], Complete);
      assert [Begin, Submit] + [Complete] == [Begin, Submit, Complete];
    }
  }

  /** One accepted request keeps what is known of its task. */
  lemma MergeKeepsTask(row: Task, own: seq<Event>, id: nat, q: Request)
    requires TaskOk(row, own) && Check(row, q).Done?
    ensures TaskOk(Merge(row, row, q), own + [Event(id, Some(row.status), TargetOf(row, q), q.kind)])
  {
    hide Changes, Earned;
    ChangesAppend(own, Event(id, Some(row.status), TargetOf(row, q), q.kind));
    EarnedOneMore(row, q, Changes(own));
  }

  lemma NothingBefore(kinds: seq<Kind>)
    ensures EndsWith(kinds, [])
  {
  }

  lemma UpdateKeepsInv(b: Board, r: nat, q: Request)
    requires Inv(b) && r < |b.readers| && Act(b, b.readers[r].task, b.readers[r].row, q).1.Done?
    ensures Inv(Act(b, b.readers[r].task, b.readers[r].row, q).0)
  {
    var (id, row) := (b.readers[r].task, b.readers[r].row);
    assert ReaderOk(b.readers[r], b.tasks);
    var (c, e) := (Act(b, id, row, q).0, Event(id, Some(row.status), TargetOf(row, q), q.kind));
    assert row == b.tasks[id] && TaskOk(row, Of(b.events, id));
    MergeKeepsTask(row, Of(b.events, id), id, q);
    hide TaskOk, Of;
    forall i | 0 <= i < |c.tasks|
      ensures TaskOk(c.tasks[i], Of(c.events, i))
    {
      OfAppend(b.events, e, i);
      assert i != id ==> TaskOk(b.tasks[i], Of(b.events, i));
    }
    forall i | 0 <= i < |c.readers|
      ensures ReaderOk(c.readers[i], c.tasks)
    {
      assert ReaderOk(b.readers[i], b.tasks);
    }
  }

  lemma NewTaskOk(e: Event, t: Task)
    requires e.source.None? && e.target == t.status == Waiting && t.version == 1 && t.closedAt.None?
    ensures TaskOk(t, [e])
  {
  }

  lemma NewKeepsInv(b: Board, assignee: Option<nat>, due: Option<string>)
    requires Inv(b)
    ensures Inv(Do(b, New(assignee, due)))
  {
    var c := Do(b, New(assignee, due));
    var e := Event(|b.tasks|, None, Waiting, Create);
    OfNobody(b.events, |b.tasks|);
    NewTaskOk(e, Task(Waiting, 1, assignee, due, None));
    hide TaskOk, Of;
    forall i | 0 <= i < |c.tasks|
      ensures TaskOk(c.tasks[i], Of(c.events, i))
    {
      OfAppend(b.events, e, i);
      assert i < |b.tasks| ==> TaskOk(c.tasks[i], Of(b.events, i));
      assert [] + [e] == [e];
    }
    forall i | 0 <= i < |c.readers|
      ensures ReaderOk(c.readers[i], c.tasks)
    {
      assert ReaderOk(b.readers[i], b.tasks);
    }
  }

  lemma ReadKeepsInv(b: Board, t: nat)
    requires Inv(b) && t < |b.tasks|
    ensures Inv(b.(readers := b.readers + [Reader(t, b.tasks[t])]))
  {
  }

  lemma DoKeepsInv(b: Board, s: Step)
    requires Inv(b)
    ensures Inv(Do(b, s))
  {
    hide Inv, Act;
    if Allowed(b, s) {
      match s
      case New(assignee, due) => NewKeepsInv(b, assignee, due);
      case Read(t) => ReadKeepsInv(b, t);
      case Update(r, q) => ActKeepsInv(b, r, q);
    }
  }

  lemma ActKeepsInv(b: Board, r: nat, q: Request)
    requires Inv(b) && r < |b.readers| && b.readers[r].task < |b.tasks|
    ensures Inv(Act(b, b.readers[r].task, b.readers[r].row, q).0)
  {
    hide Inv, Check, Merge;
    if Act(b, b.readers[r].task, b.readers[r].row, q).1.Done? {
      UpdateKeepsInv(b, r, q);
    }
  }

  lemma {:induction false} RunsKeepInv(b: Board, steps: seq<Step>)
    requires Inv(b)
    ensures Inv(Exec(b, steps))
    decreases |steps|
  {
    hide Inv, Do;
    if steps != [] {
      RunsKeepInv(b, steps[..|steps| - 1]);
      DoKeepsInv(Exec(b, steps[..|steps| - 1]), steps[|steps| - 1]);
    }
  }

  lemma EmptyOk()
    ensures Inv(Empty)
  {
  }

  /**
   With any number of requests holding old rows: the version counts the events, the events form
   one chain ending at the status, a task is closed exactly in a final status, nobody's
   task is ever under way, and a completed one was begun, submitted and completed with no other change of status in between.
   */
  lemma HistoryTellsTask(steps: seq<Step>, id: nat)
    requires id < |Exec(Empty, steps).tasks|
    ensures var (t, own) := (Exec(Empty, steps).tasks[id], Of(Exec(Empty, steps).events, id));
            && t.version == |own| > 0 && Unbroken(own) && own[|own| - 1].target == t.status
            && (t.closedAt.Some? <==> Final(t.status))
            && (t.status in {Underway, UnderReview, Completed} ==> t.assignee.Some?)
            && (t.status == Completed ==> EndsWith(Changes(own), [Begin, Submit, Complete]))
  {
    hide Exec, Of, Changes, EndsWith, ReadersOk;
    EmptyOk();
    RunsKeepInv(Empty, steps);
    assert TaskOk(Exec(Empty, steps).tasks[id], Of(Exec(Empty, steps).events, id));
  }

  /** A request that read an old row is refused and changes nothing; otherwise it read the current one. */
  lemma StaleIsRefused(steps: seq<Step>, r: nat, q: Request)
    requires r < |Exec(Empty, steps).readers|
    ensures var b := Exec(Empty, steps);
            var (id, row) := (b.readers[r].task, b.readers[r].row);
            && id < |b.tasks|
            && (row != b.tasks[id] ==> Act(b, id, row, q).0 == b && !Act(b, id, row, q).1.Done?)
            && (Act(b, id, row, q).1.Done? ==> row == b.tasks[id] && Merge(row, row, q) == Updated(row, q))
  {
    hide Exec, TasksOk;
    EmptyOk();
    RunsKeepInv(Empty, steps);
    assert ReaderOk(Exec(Empty, steps).readers[r], Exec(Empty, steps).tasks);
  }

  /** Where the events of a task leave it. */
  function Standing(b: Board, id: nat): Option<Status> {
    var own := Of(b.events, id);
    if own == [] then None else Some(own[|own| - 1].target)
  }

  /** What a request needs of the task's standing, and of what it brings. */
  predicate Fits(standing: Status, taken: bool, q: Request) {
    match q.kind
    case Begin => standing == Waiting && taken
    case Submit => standing == Underway
    case Return => standing in {Underway, UnderReview} && q.noteGiven
    case Complete => standing == UnderReview
    case Cancel => !Final(standing)
    case Assign => !Final(standing) && q.member.Some? && q.memberOk
    case Due => !Final(standing) && q.due.Some?
    case Create => false
  }

  /**
   In any run a request is accepted exactly if it is permitted, read the current row, expected the
   version it found, if any, which counts the task's events, and fits where these events left it.
   */
  lemma AcceptedExactly(steps: seq<Step>, r: nat, q: Request)
    requires r < |Exec(Empty, steps).readers|
    ensures var b := Exec(Empty, steps);
            var (id, row) := (b.readers[r].task, b.readers[r].row);
            && id < |b.tasks| && Standing(b, id).Some?
            && (Act(b, id, row, q).1 == Done <==>
                  && q.allowed && row == b.tasks[id]
                  && (q.expected.Some? ==> q.expected.value == |Of(b.events, id)|)
                  && Fits(Standing(b, id).value, row.assignee.Some?, q))
  {
    EmptyOk();
    RunsKeepInv(Empty, steps);
    var b := Exec(Empty, steps);
    hide Exec, Of, Changes, Merge;
    assert ReaderOk(b.readers[r], b.tasks);
    assert TaskOk(b.tasks[b.readers[r].task], Of(b.events, b.readers[r].task));
  }

  /** What an accepted request changes: the status by its kind, the member or the date it brings, and nothing else of any task. */
  lemma ChangesExactly(steps: seq<Step>, r: nat, q: Request)
    requires r < |Exec(Empty, steps).readers|
    requires var b := Exec(Empty, steps);
             b.readers[r].task < |b.tasks| && Act(b, b.readers[r].task, b.readers[r].row, q).1 == Done
    ensures var b := Exec(Empty, steps);
            var id := b.readers[r].task;
            var (c, t) := (Act(b, id, b.readers[r].row, q).0, b.tasks[id]);
            && |c.tasks| == |b.tasks| && (forall i | 0 <= i < |b.tasks| && i != id :: c.tasks[i] == b.tasks[i])
            && |c.events| == |b.events| + 1 && c.events[..|b.events|] == b.events
            && c.events[|b.events|].task == id && c.events[|b.events|].kind == q.kind
            && c.tasks[id].version == t.version + 1
            && c.tasks[id].assignee == (if q.kind == Assign then q.member else t.assignee)
            && c.tasks[id].due == (if q.kind == Due && q.due.Some? then q.due.value else t.due)
            && c.tasks[id].closedAt == (if q.kind in {Complete, Cancel} then Some(q.now) else None)
            && c.tasks[id].status == (match q.kind
                                      case Begin => Underway
                                      case Submit => UnderReview
                                      case Return => Waiting
                                      case Complete => Completed
                                      case Cancel => Cancelled
                                      case _ => t.status)
  {
    StaleIsRefused(steps, r, q);
    EmptyOk();
    RunsKeepInv(Empty, steps);
    var b := Exec(Empty, steps);
    hide Exec, Of, Changes;
    assert TaskOk(b.tasks[b.readers[r].task], Of(b.events, b.readers[r].task));
  }

  lemma FinalStays(b: Board, s: Step, id: nat)
    requires Inv(b) && id < |b.tasks| && Final(b.tasks[id].status)
    ensures id < |Do(b, s).tasks| && Do(b, s).tasks[id] == b.tasks[id] && Of(Do(b, s).events, id) == Of(b.events, id)
  {
    hide TasksOk, Of;
    if Allowed(b, s) && s.Update? {
      var (t, row, q) := (b.readers[s.reader].task, b.readers[s.reader].row, s.request);
      assert ReaderOk(b.readers[s.reader], b.tasks);
      OfAppend(b.events, Event(t, Some(row.status), TargetOf(row, q), q.kind), id);
    } else if s.New? {
      OfAppend(b.events, Event(|b.tasks|, None, Waiting, Create), id);
    }
  }

  /** A finished task keeps its row and its events for good. */
  lemma {:induction false} FinalIsAbsorbing(before: seq<Step>, after: seq<Step>, id: nat)
    requires id < |Exec(Empty, before).tasks| && Final(Exec(Empty, before).tasks[id].status)
    ensures var (b, c) := (Exec(Empty, before), Exec(Empty, before + after));
            id < |c.tasks| && c.tasks[id] == b.tasks[id] && Of(c.events, id) == Of(b.events, id)
    decreases |after|
  {
    hide Do, Of, Inv;
    if after == [] {
      assert before + after == before;
    } else {
      var shorter := after[..|after| - 1];
      FinalIsAbsorbing(before, shorter, id);
      assert (before + after)[..|before + after| - 1] == before + shorter;
      EmptyOk();
      RunsKeepInv(Empty, before + shorter);
      FinalStays(Exec(Empty, before + shorter), after[|after| - 1], id);
    }
  }
}
