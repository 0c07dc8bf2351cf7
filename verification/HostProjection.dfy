/**
 The durable event projection of one host run: a table of framework events with
 two unique keys, and the cursor and status that a gap-checked replay of that
 table produces.  `Projection` says what the transaction commits, `ProjectRun` is the
 transaction, and `RebuildEqualsBatches` is what the table is for.
 */
module HostProjection {
  import opened Wrappers

  const HOST_EVENT_VERSION := 1

  datatype Status =
    | Queued | Running | AwaitingApproval | Unknown
    | Succeeded | Failed | Cancelled | Exhausted
    | Unregistered(name: string)

  predicate Terminal(s: Status) {
    s == Succeeded || s == Failed || s == Cancelled || s == Exhausted
  }

  /** The statuses an event may carry: the terminal ones, running and awaiting approval. */
  predicate EventStatus(s: Status) {
    Terminal(s) || s == Running || s == AwaitingApproval
  }

  /** A wire event. An absent or wrongly typed field is `None`; `body` stands for all other fields. */
  datatype Event = Event(version: Option<int>, revision: Option<int>, id: Option<string>, status: Status, body: string)

  /** The summary that accompanies a batch of events. */
  datatype Report = Report(revision: Option<int>, status: Status, output: string)

  predicate WellFormed(e: Event) {
    && e.version == Some(HOST_EVENT_VERSION)
    && e.revision.Some? && e.revision.value >= 1
    && e.id.Some?
    && EventStatus(e.status)
  }

  /** Stored events by sequence number, the primary key; the payload is the whole event. */
  type Table = map<int, Event>

  ghost predicate TableOk(t: Table) {
    && (forall k <- t :: WellFormed(t[k]) && t[k].revision == Some(k))
    && (forall j, k | j in t && k in t && t[j].id == t[k].id :: j == k)
  }

  ghost function Elements(batch: seq<Event>): set<Event> {
    set e | e in batch
  }

  /** Two different events compete for one sequence number or one event identity. */
  predicate Clash(a: Event, b: Event) {
    a != b && (a.revision == b.revision || a.id == b.id)
  }

  ghost predicate Coherent(rows: set<Event>) {
    && (forall e <- rows :: WellFormed(e))
    && (forall a, b | a in rows && b in rows :: !Clash(a, b))
  }

  ghost function Rows(t: Table): set<Event> {
    set k | k in t :: t[k]
  }

  /** A table is determined by its set of rows. */
  lemma RowsDetermineTable(t: Table, u: Table)
    requires TableOk(t) && TableOk(u) && Rows(t) == Rows(u)
    ensures t == u
  {
    forall k | k in t
      ensures k in u && u[k] == t[k]
    {
      assert t[k] in Rows(u);
    }
    forall k | k in u
      ensures k in t
    {
      assert u[k] in Rows(t);
    }
  }

  /** The rows the lookup by sequence number or event identity returns. */
  function Matching(t: Table, e: Event): set<Event> {
    set k | k in t && (Some(k) == e.revision || t[k].id == e.id) :: t[k]
  }

  /** Store one event: nothing to do for an exact duplicate, refused when it is malformed or clashes. */
  function Insert(t: Table, e: Event): (r: Option<Table>)
    requires TableOk(t)
    ensures r.Some? <==> Coherent(Rows(t) + {e})
    ensures r.Some? ==> TableOk(r.value) && Rows(r.value) == Rows(t) + {e}
  {
    if !WellFormed(e) then
      assert e in Rows(t) + {e};
      None
    else
      var rows := Matching(t, e);
      if rows == {} then
        FreshRow(t, e);
        Some(t[e.revision.value := e])
      else if rows == {e} then
        Some(t)
      else
        ForeignRow(t, e);
        None
  }

  lemma FreshRow(t: Table, e: Event)
    requires TableOk(t) && WellFormed(e) && Matching(t, e) == {}
    ensures TableOk(t[e.revision.value := e])
    ensures Rows(t[e.revision.value := e]) == Rows(t) + {e}
    ensures Coherent(Rows(t) + {e})
  {
    var k := e.revision.value;
    forall j | j in t
      ensures j != k && t[j].id != e.id
    {
      var stored := t[j];
      assert j == k || stored.id == e.id ==> stored in Matching(t, e);
    }
    var u := t[k := e];
    assert u[k] == e;
    assert forall j | j in t :: u[j] == t[j];
  }

  lemma ForeignRow(t: Table, e: Event)
    requires TableOk(t) && WellFormed(e) && Matching(t, e) != {} && Matching(t, e) != {e}
    ensures !Coherent(Rows(t) + {e})
  {
    var a :| a in Matching(t, e) && a != e;
    assert a in Rows(t) + {e} && e in Rows(t) + {e} && Clash(a, e);
  }

  /** Storing a batch succeeds exactly when all rows together are coherent, whatever their order. */
  function InsertAll(t: Table, batch: seq<Event>): (r: Option<Table>)
    requires TableOk(t)
    ensures r.Some? <==> Coherent(Rows(t) + Elements(batch))
    ensures r.Some? ==> TableOk(r.value) && Rows(r.value) == Rows(t) + Elements(batch)
    decreases |batch|
  {
    if batch == [] then
      assert Rows(t) + Elements(batch) == Rows(t);
      Some(t)
    else
      assert Elements(batch) == {batch[0]} + Elements(batch[1..]);
      assert Rows(t) + Elements(batch) == Rows(t) + {batch[0]} + Elements(batch[1..]);
      var first := Insert(t, batch[0]);
      if first.None? then
        Incoherent(Rows(t) + {batch[0]}, Elements(batch[1..]));
        None
      else
        InsertAll(first.value, batch[1..])
  }

  lemma Incoherent(rows: set<Event>, more: set<Event>)
    requires !Coherent(rows)
    ensures !Coherent(rows + more)
  {
    assert forall e <- rows :: e in rows + more;
  }

  /** A run's projection: the stored events, how far they have been consumed, and what they led to. */
  datatype Run = Run(events: Table, cursor: int, status: Status, result: Report)

  ghost function Above(t: Table, c: int): set<int> {
    set k | k in t && k > c
  }

  /** The end of the gap-free stretch of sequence numbers that starts after `c`. */
  ghost function Top(t: Table, c: int): (r: int)
    ensures c <= r && r + 1 !in t
    ensures forall k | c < k <= r :: k in t
    decreases |Above(t, c)|
  {
    if c + 1 in t then
      assert Above(t, c) == Above(t, c + 1) + {c + 1};
      Top(t, c + 1)
    else
      c
  }

  /** The status in force once events `c+1 .. i` have been applied to `s`. */
  function StatusAt(t: Table, c: int, s: Status, i: int): Status
    requires i == c || i in t
  {
    if i == c then s else t[i].status
  }

  /** Event `i` does not move away from a terminal status. */
  predicate Follows(t: Table, c: int, s: Status, i: int)
    requires i in t && (i == c + 1 || i - 1 in t)
  {
    var before := if i == c + 1 then s else t[i - 1].status;
    Terminal(before) ==> t[i].status == before
  }

  /** Once a terminal status is in force, every later event repeats it. */
  ghost predicate Steady(t: Table, c: int, s: Status, last: int)
    requires forall k | c < k <= last :: k in t
  {
    forall i | c < i <= last :: Follows(t, c, s, i)
  }

  /** What a projection commits, or None when it is refused and nothing changes. */
  ghost function Projection(run: Run, batch: seq<Event>, result: Report, rebuild: bool): Option<Run>
    requires TableOk(run.events)
  {
    var stored := InsertAll(if rebuild then map[] else run.events, batch);
    if stored.None? then None
    else
      var t := stored.value;
      var from := if rebuild then 0 else run.cursor;
      var status := if rebuild then Running else run.status;
      var cursor := Top(t, from);
      if !Steady(t, from, status, cursor) then None
      else if result.revision != Some(cursor) || result.status != StatusAt(t, from, status, cursor) then None
      else Some(Run(t, cursor, result.status, result))
  }

  /** The insertion loop of the projection. */
  method StoreEvents(start: Table, batch: seq<Event>) returns (stored: Option<Table>)
    requires TableOk(start)
    ensures stored == InsertAll(start, batch)
  {
    var table := start;
    for i := 0 to |batch|
      invariant TableOk(table)
      invariant InsertAll(start, batch) == InsertAll(table, batch[i..])
    {
      assert batch[i..][1..] == batch[i + 1..];
      var event := batch[i];
      if !WellFormed(event) {
        return None;
      }
      var rows := Matching(table, event);
      SingleRow(rows, event);
      if rows != {} {
        if |rows| != 1 || event !in rows {
          return None;
        }
      } else {
        table := table[event.revision.value := event];
      }
    }
    stored := Some(table);
  }

  /** The replay loop: follow the stored sequence numbers until the first gap. */
  method Consume(table: Table, from: int, first: Status) returns (steady: bool, cursor: int, status: Status)
    ensures steady <==> Steady(table, from, first, Top(table, from))
    ensures steady ==> cursor == Top(table, from) && status == StatusAt(table, from, first, cursor)
  {
    cursor, status := from, first;
    while cursor + 1 in table
      invariant from <= cursor
      invariant forall k | from < k <= cursor :: k in table
      invariant Top(table, from) == Top(table, cursor)
      invariant status == StatusAt(table, from, first, cursor)
      invariant Steady(table, from, first, cursor)
      decreases |Above(table, cursor)|
    {
      assert Above(table, cursor) == Above(table, cursor + 1) + {cursor + 1};
      var next := table[cursor + 1].status;
      if Terminal(status) && next != status {
        assert !Follows(table, from, first, cursor + 1);
        assert cursor + 1 <= Top(table, from);
        return false, cursor, status;
      }
      status, cursor := next, cursor + 1;
    }
    steady := true;
  }

  /** The projection transaction: the new row to commit, or None when everything rolls back. */
  method ProjectRun(run: Run, batch: seq<Event>, report: Report, rebuild: bool) returns (committed: Option<Run>)
    requires TableOk(run.events)
    ensures committed == Projection(run, batch, report, rebuild)
  {
    var stored := StoreEvents(if rebuild then map[] else run.events, batch);
    if stored.None? {
      return None;
    }
    var cursor, status := run.cursor, run.status;
    if rebuild {
      cursor, status := 0, Running;
    }
    var steady;
    steady, cursor, status := Consume(stored.value, cursor, status);
    if !steady || report.revision != Some(cursor) || report.status != status {
      return None;
    }
    committed := Some(Run(stored.value, cursor, status, report));
  }

  lemma SingleRow(rows: set<Event>, e: Event)
    ensures rows == {e} <==> |rows| == 1 && e in rows
  {
    if |rows| == 1 && e in rows {
      assert |rows - {e}| == 0;
      assert rows == {e};
    }
  }

  // ---------------------------------------------------------------------
  // Histories of one run
  // ---------------------------------------------------------------------

  /** Everything that changes a run's projection: batches from the sidecar and the host's own status moves. */
  datatype Step =
    | Batch(events: seq<Event>, report: Report, rebuild: bool)
    | Dispatch
    | Fault
    | CancelQueued
    | ExpireQueued

  ghost function Apply(run: Run, step: Step): Run
    requires TableOk(run.events)
  {
    match step
    case Batch(events, report, rebuild) =>
      var r := Projection(run, events, report, rebuild);
      if r.Some? then r.value else run
    case Dispatch => if run.status == Queued then run.(status := Running) else run
    case Fault => if Terminal(run.status) then run else run.(status := Unknown)
    case CancelQueued => if run.status == Queued then run.(status := Cancelled) else run
    case ExpireQueued =>
      if (run.status == Queued || run.status == Exhausted) && run.cursor == 0
      then run.(status := Exhausted) else run
  }

  /** The cursor is the length of the gap-free prefix and the status is the one its last event left, unless a fault hid it. */
  ghost predicate RunOk(run: Run) {
    && TableOk(run.events)
    && run.cursor == Top(run.events, 0)
    && Steady(run.events, 0, Running, run.cursor)
    && (run.cursor > 0 ==>
          || run.status == run.events[run.cursor].status
          || (run.status == Unknown && !Terminal(run.events[run.cursor].status)))
    && (run.cursor == 0 ==>
          run.status in {Queued, Running, Unknown, Cancelled, Exhausted})
  }

  lemma {:induction false} TopAgrees(t: Table, c: int, d: int)
    requires c <= d && forall k | c < k <= d :: k in t
    ensures Top(t, c) == Top(t, d)
    decreases d - c
  {
    if c < d {
      TopAgrees(t, c + 1, d);
    }
  }

  lemma TopIsUnique(t: Table, c: int, d: int)
    requires c <= d && d + 1 !in t && forall k | c < k <= d :: k in t
    ensures Top(t, c) == d
  {
    TopAgrees(t, c, d);
  }

  /** The replay of what is new carries on where the replay of what was known ended. */
  lemma SteadyOn(before: Table, t: Table, c: int, s: Status, last: int)
    requires 0 <= c <= last && (forall k | 0 < k <= last :: k in t)
    requires (forall k <- before :: k in t && t[k] == before[k]) && forall k | 0 < k <= c :: k in before
    requires Steady(before, 0, Running, c) && Steady(t, c, s, last)
    requires c > 0 ==> s == before[c].status || !Terminal(before[c].status)
    requires c == 0 ==> !Terminal(s) || forall k | 0 < k <= last :: t[k].status == s
    ensures Steady(t, 0, Running, last)
  {
    forall i | 0 < i <= last
      ensures Follows(t, 0, Running, i)
    {
      if i <= c {
        assert Follows(before, 0, Running, i);
      } else {
        assert Follows(t, c, s, i);
      }
    }
  }

  lemma BatchKeepsRunOk(run: Run, events: seq<Event>, report: Report, rebuild: bool)
    requires RunOk(run)
    ensures RunOk(Apply(run, Batch(events, report, rebuild)))
  {
    var r := Projection(run, events, report, rebuild);
    if r.Some? && !rebuild {
      var t := r.value.events;
      GrownTable(run.events, t);
      TopAgrees(t, 0, run.cursor);
      hide InsertAll, Rows, Elements, Coherent;
      if run.cursor == 0 && Terminal(run.status) {
        AllRepeat(t, 0, run.status, r.value.cursor);
      }
      SteadyOn(run.events, t, run.cursor, run.status, r.value.cursor);
    }
  }

  /** After a terminal status every replayed event carries that status. */
  lemma {:induction false} AllRepeat(t: Table, c: int, s: Status, last: int)
    requires c <= last && (forall k | c < k <= last :: k in t) && Steady(t, c, s, last) && Terminal(s)
    ensures forall k | c < k <= last :: t[k].status == s
    decreases last - c
  {
    if c < last {
      AllRepeat(t, c, s, last - 1);
      assert Follows(t, c, s, last);
    }
  }

  lemma GrownTable(t: Table, u: Table)
    requires TableOk(t) && TableOk(u) && Rows(t) <= Rows(u)
    ensures forall k <- t :: k in u && u[k] == t[k]
  {
    forall k | k in t
      ensures k in u && u[k] == t[k]
    {
      assert t[k] in Rows(u);
    }
  }

  lemma StepKeepsRunOk(run: Run, step: Step)
    requires RunOk(run)
    ensures RunOk(Apply(run, step))
  {
    if step.Batch? {
      BatchKeepsRunOk(run, step.events, step.report, step.rebuild);
    }
  }

  /** Outside a rebuild a terminal status is final, and a stored sequence number keeps its event. */
  lemma NothingRegresses(run: Run, step: Step)
    requires RunOk(run) && !(step.Batch? && step.rebuild)
    ensures Terminal(run.status) ==> Apply(run, step).status == run.status
    ensures run.cursor <= Apply(run, step).cursor
    ensures forall k <- run.events :: k in Apply(run, step).events && Apply(run, step).events[k] == run.events[k]
  {
    if step.Batch? {
      var r := Projection(run, step.events, step.report, false);
      if r.Some? {
        GrownTable(run.events, r.value.events);
        if Terminal(run.status) {
          SteadyTerminal(r.value.events, run.cursor, run.status, r.value.cursor);
        }
      }
    }
  }

  lemma {:induction false} SteadyTerminal(t: Table, c: int, s: Status, last: int)
    requires c <= last && (forall k | c < k <= last :: k in t) && Steady(t, c, s, last) && Terminal(s)
    ensures StatusAt(t, c, s, last) == s
    decreases last - c
  {
    if c < last {
      SteadyTerminal(t, c, s, last - 1);
      assert Follows(t, c, s, last);
    }
  }

  /** A history's outcome together with the set of events its accepted batches delivered since the last rebuild. */
  datatype History = History(run: Run, log: set<Event>)

  const FreshRun := Run(map[], 0, Queued, Report(None, Unregistered(""), ""))

  lemma FreshRunOk()
    ensures RunOk(FreshRun)
  {
    assert Top(FreshRun.events, 0) == 0;
  }

  ghost function Next(h: History, step: Step): History
    requires TableOk(h.run.events)
  {
    History(
      Apply(h.run, step),
      if step.Batch? && Projection(h.run, step.events, step.report, step.rebuild).Some?
      then (if step.rebuild then {} else h.log) + Elements(step.events)
      else h.log)
  }

  lemma NextKeepsLog(h: History, step: Step)
    requires RunOk(h.run) && Rows(h.run.events) == h.log
    ensures RunOk(Next(h, step).run)
    ensures Rows(Next(h, step).run.events) == Next(h, step).log
  {
    StepKeepsRunOk(h.run, step);
    hide RunOk;
    var none: Table := map[];
    assert Rows(none) == {};
  }

  ghost function Replay(steps: seq<Step>): (h: History)
    ensures RunOk(h.run) && Rows(h.run.events) == h.log
  {
    hide RunOk, Apply, Next;
    if steps == [] then
      FreshRunOk();
      assert Rows(FreshRun.events) == {};
      History(FreshRun, {})
    else
      var h := Replay(steps[..|steps| - 1]);
      NextKeepsLog(h, steps[|steps| - 1]);
      SoundTable(h.run);
      Next(h, steps[|steps| - 1])
  }

  lemma SoundTable(run: Run)
    requires RunOk(run)
    ensures TableOk(run.events)
  {
  }

  ghost function NaturalStatus(run: Run): Status
    requires RunOk(run)
  {
    if run.cursor == 0 then Running else run.events[run.cursor].status
  }

  lemma StoreFullLog(t: Table, log: seq<Event>)
    requires TableOk(t) && Elements(log) == Rows(t)
    ensures InsertAll(map[], log) == Some(t)
  {
    var none: Table := map[];
    assert Rows(none) + Elements(log) == Rows(t);
    RowsDetermineTable(InsertAll(none, log).value, t);
  }

  /** The table these events make up. */
  ghost function TableOf(rows: set<Event>): (t: Table)
    requires Coherent(rows)
    ensures TableOk(t) && Rows(t) == rows
  {
    assert forall a, b | a in rows && b in rows && a.revision.value == b.revision.value :: !Clash(a, b);
    var t := map e | e in rows :: e.revision.value := e;
    assert forall e <- rows :: t[e.revision.value] == e;
    assert forall j, k | j in t && k in t && t[j].id == t[k].id :: !Clash(t[j], t[k]);
    t
  }

  /** The report names where the gap-free events end and the status the last of them carries. */
  ghost predicate Reports(t: Table, report: Report) {
    report.revision == Some(Top(t, 0)) && report.status == StatusAt(t, 0, Running, Top(t, 0))
  }

  /** From `c` on up to `last` no event leaves a final status: neither the one in force at `c` nor one an event brought. */
  ghost predicate FinalStays(t: Table, c: int, s: Status, last: int)
    requires forall k | c < k <= last :: k in t
  {
    && (Terminal(s) ==> forall k | c < k <= last :: t[k].status == s)
    && forall j, k | c < j < k <= last && Terminal(t[j].status) :: t[k].status == t[j].status
  }

  lemma {:induction false} SteadyIsFinalStays(t: Table, c: int, s: Status, last: int)
    requires c <= last && forall k | c < k <= last :: k in t
    ensures Steady(t, c, s, last) <==> FinalStays(t, c, s, last)
    decreases last - c
  {
    if c < last {
      SteadyIsFinalStays(t, c, s, last - 1);
      if Steady(t, c, s, last) {
        assert Follows(t, c, s, last);
        if c < last - 1 && Terminal(t[last - 1].status) {
          assert FinalStays(t, c, s, last - 1);
        } else if c < last - 1 {
          assert forall j | c < j < last :: !Terminal(t[j].status);
        }
      }
    }
  }

  /** A rebuild is accepted exactly for coherent events that repeat a final status, with the report they call for. */
  lemma RebuildAccepts(run: Run, events: seq<Event>, report: Report)
    requires TableOk(run.events)
    ensures Projection(run, events, report, true).Some?
            <==> && Coherent(Elements(events))
                 && var t := TableOf(Elements(events)); FinalStays(t, 0, Running, Top(t, 0)) && Reports(t, report)
    ensures Projection(run, events, report, true).Some? ==>
              Projection(run, events, report, true).value.events == TableOf(Elements(events))
  {
    if Coherent(Elements(events)) {
      var t := TableOf(Elements(events));
      StoreFullLog(t, events);
      SteadyIsFinalStays(t, 0, Running, Top(t, 0));
    } else {
      var none: Table := map[];
      assert Rows(none) + Elements(events) == Elements(events);
    }
  }

  /** With what is stored the events are coherent, and none of those that close a gap leaves a final status. */
  ghost predicate Continues(run: Run, events: seq<Event>) {
    && Coherent(Rows(run.events) + Elements(events))
    && var t := TableOf(Rows(run.events) + Elements(events)); FinalStays(t, run.cursor, run.status, Top(t, run.cursor))
  }

  /** And the report names the end of the gap-free events and the status of the last of them, or the run's own where none is new. */
  ghost predicate Accepted(run: Run, events: seq<Event>, report: Report) {
    && Continues(run, events)
    && var t := TableOf(Rows(run.events) + Elements(events));
       var top := Top(t, run.cursor);
       report.revision == Some(top) && report.status == if top == run.cursor then run.status else t[top].status
  }

  /**
   A batch is accepted exactly when it continues the run with such a report.  It then commits all
   the events, the end of those without a gap, and the reported status.
   */
  lemma BatchAccepts(run: Run, events: seq<Event>, report: Report)
    requires RunOk(run)
    ensures Projection(run, events, report, false).Some?
            <==> Accepted(run, events, report)
    ensures Projection(run, events, report, false).Some? ==>
              && Coherent(Rows(run.events) + Elements(events))
              && var t := TableOf(Rows(run.events) + Elements(events));
                 Projection(run, events, report, false) == Some(Run(t, Top(t, 0), report.status, report))
  {
    var all := Rows(run.events) + Elements(events);
    if Coherent(all) {
      var t := TableOf(all);
      GrownTable(run.events, t);
      TopAgrees(t, 0, run.cursor);
      RowsDetermineTable(InsertAll(run.events, events).value, t);
      SteadyIsFinalStays(t, run.cursor, run.status, Top(t, run.cursor));
    }
    hide RunOk, Coherent, Rows, Elements, Steady, FinalStays, TableOk;
  }

  lemma BatchStatus(run: Run, events: seq<Event>, report: Report)
    requires RunOk(run) && TableOk(run.events)
    ensures Projection(run, events, report, false).Some? <==> Accepted(run, events, report)
    ensures Projection(run, events, report, false).Some? ==> Projection(run, events, report, false).value.status == report.status
  {
    BatchAccepts(run, events, report);
    hide *;
  }

  /** What the two ends of a session make of a run's status. */
  lemma StatusMoves(run: Run, events: seq<Event>, report: Report)
    requires RunOk(run) && TableOk(run.events)
    ensures Apply(run, Batch(events, report, false)).status == if Accepted(run, events, report) then report.status else run.status
    ensures Apply(run, Fault).status == if Terminal(run.status) then run.status else Unknown
  {
    BatchStatus(run, events, report);
    hide RunOk, TableOk, Accepted, Projection;
  }

  /** What a sidecar sends to reopen a run: coherent events, none of the gap-free ones final, and their report. */
  ghost predicate Reopening(events: seq<Event>, report: Report) {
    && Coherent(Elements(events))
    && var t := TableOf(Elements(events));
       (forall k | 0 < k <= Top(t, 0) :: !Terminal(t[k].status)) && Reports(t, report)
  }

  lemma RebuildReopens(run: Run, events: seq<Event>, report: Report)
    requires TableOk(run.events)
    ensures Projection(run, events, report, true).Some? && !Terminal(report.status) <==> Reopening(events, report)
  {
    RebuildAccepts(run, events, report);
    hide Projection, Coherent, TableOk;
    if Coherent(Elements(events)) {
      var t := TableOf(Elements(events));
      SteadyIsFinalStays(t, 0, Running, Top(t, 0));
      SteadyOpen(t, Top(t, 0));
    }
  }

  /** A replay that ends in an open status met no final one. */
  lemma {:induction false} SteadyOpen(t: Table, last: int)
    requires 0 <= last && forall k | 0 < k <= last :: k in t
    ensures Steady(t, 0, Running, last) && !Terminal(StatusAt(t, 0, Running, last))
            <==> forall k | 0 < k <= last :: !Terminal(t[k].status)
  {
    if last > 0 {
      SteadyOpen(t, last - 1);
      if Steady(t, 0, Running, last) {
        assert Follows(t, 0, Running, last);
      }
    }
  }

  lemma RebuildFromLog(run: Run, log: seq<Event>, report: Report)
    requires RunOk(run) && Elements(log) == Rows(run.events)
    ensures Projection(run, log, report, true)
         == if report.revision == Some(run.cursor) && report.status == NaturalStatus(run)
            then Some(Run(run.events, run.cursor, report.status, report)) else None
  {
    StoreFullLog(run.events, log);
  }

  /**
   Main result. Whatever batches a history delivered, in whatever order and with
   whatever repetition, one rebuild from the same events (listed in any order)
   is accepted for exactly one claimed outcome and reaches the same table and
   cursor.  It reaches the same status exactly when the live run is neither
   `Unknown` nor still waiting for its first event in a status other than `Running`.
   */
  lemma RebuildEqualsBatches(steps: seq<Step>, log: seq<Event>, report: Report)
    requires Elements(log) == Replay(steps).log
    ensures var run := Replay(steps).run;
            var rebuilt := Projection(run, log, report, true);
            && (rebuilt.Some? <==> report.revision == Some(run.cursor) && report.status == NaturalStatus(run))
            && (rebuilt.Some? ==>
                  && rebuilt.value.events == run.events
                  && rebuilt.value.cursor == run.cursor
                  && (rebuilt.value.status == run.status <==>
                        run.status != Unknown && (run.cursor > 0 || run.status == Running)))
  {
    RebuildFromLog(Replay(steps).run, log, report);
    NaturalUnlessHidden(Replay(steps).run);
    hide *;
  }

  /** The status the consumed events call for is the run's own, unless a fault hid it or none was consumed yet. */
  lemma NaturalUnlessHidden(run: Run)
    requires RunOk(run)
    ensures NaturalStatus(run) == run.status <==> run.status != Unknown && (run.cursor > 0 || run.status == Running)
  {
    hide TableOk, Steady;
    assert run.cursor >= 0;
    if run.cursor > 0 {
      StoredIsKnown(run);
    }
  }

  lemma StoredIsKnown(run: Run)
    requires RunOk(run) && run.cursor > 0
    ensures run.events[run.cursor].status != Unknown
  {
    hide Top, Steady;
    assert WellFormed(run.events[run.cursor]);
  }

  /** Two listings of the same events have the same effect on any run. */
  lemma BatchOrderIsIrrelevant(run: Run, a: seq<Event>, b: seq<Event>, report: Report, rebuild: bool)
    requires TableOk(run.events) && Elements(a) == Elements(b)
    ensures Projection(run, a, report, rebuild) == Projection(run, b, report, rebuild)
  {
    var start: Table := if rebuild then map[] else run.events;
    var s, t := InsertAll(start, a), InsertAll(start, b);
    if s.Some? {
      RowsDetermineTable(s.value, t.value);
    }
  }

  /** The exception is real: a faulted run is not reproduced by its own log. */
  lemma FaultHidesStatus()
    ensures var run := Replay([Dispatch, Fault]).run;
            var rebuilt := Projection(run, [], Report(Some(0), Running, ""), true);
            rebuilt.Some? && run.status == Unknown && rebuilt.value.status == Running
  {
    var steps := [Dispatch, Fault];
    assert steps[..1] == [Dispatch];
    assert [Dispatch][..0] == [];
    var h := Replay([Dispatch]);
    assert h.run == Apply(Replay([]).run, Dispatch);
    assert Elements([]) == Replay(steps).log;
    RebuildEqualsBatches(steps, [], Report(Some(0), Running, ""));
  }
}
