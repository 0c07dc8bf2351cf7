/**
 A benchmark run that may be killed anywhere and resumed: one atomic checkpoint file per
 question, and a log of results that every resume writes anew from the checkpoints.
 A model's answer is input.
 */
module BenchmarkRun {
  import opened Wrappers

  datatype Record = Record(id: string, question: string)
  datatype Row = Row(record: Record, prediction: string, failed: bool)

  /** A line of the log may be cut short by a crash. */
  datatype Line = Full(row: Row) | Torn

  type Checkpoints = map<string, Row>

  ghost predicate Distinct(records: seq<Record>) {
    forall i, j | 0 <= i < j < |records| :: records[i].id != records[j].id
  }

  /** The dictionary of planned questions; of a repeated id the last record stays. */
  function Planned(records: seq<Record>, id: string): Option<Record> {
    if records == [] then None
    else if records[|records| - 1].id == id then Some(records[|records| - 1])
    else Planned(records[..|records| - 1], id)
  }

  /** A checkpoint is accepted on resume only for a planned question, and only with that question's own record. */
  predicate Accepts(records: seq<Record>, saved: Checkpoints) {
    forall id <- saved :: Planned(records, id) == Some(saved[id].record)
  }

  /** The record a question id is asked with: the first one planned. */
  function Earliest(records: seq<Record>, id: string): Option<Record> {
    if records == [] then None
    else
      var (e, last) := (Earliest(records[..|records| - 1], id), records[|records| - 1]);
      if e.Some? then e else if last.id == id then Some(last) else None
  }

  function Ids(records: seq<Record>): set<string> {
    set r | r in records :: r.id
  }

  /** The saved rows in planned order, one for each planned position. */
  function RowsOf(records: seq<Record>, saved: Checkpoints): seq<Row> {
    if records == [] then []
    else
      var last := records[|records| - 1];
      RowsOf(records[..|records| - 1], saved) + if last.id in saved then [saved[last.id]] else []
  }

  /** The rows saved since `base`, in the order their questions are first planned. */
  function NewRows(records: seq<Record>, saved: Checkpoints, base: Checkpoints): seq<Row> {
    if records == [] then []
    else
      var (before, last) := (records[..|records| - 1], records[|records| - 1]);
      NewRows(before, saved, base)
      + if last.id in saved && last.id !in base && last.id !in Ids(before) then [saved[last.id]] else []
  }

  /** What a run that started from `base` has logged: the rows it found, then those it added. */
  function LogRows(records: seq<Record>, base: Checkpoints, saved: Checkpoints): seq<Row> {
    RowsOf(records, base) + NewRows(records, saved, base)
  }

  function Lines(rows: seq<Row>): (lines: seq<Line>)
    ensures |lines| == |rows| && forall i | 0 <= i < |rows| :: lines[i] == Full(rows[i])
  {
    seq(|rows|, i requires 0 <= i < |rows| => Full(rows[i]))
  }

  // ------------------------------------------------------------------ crashes and resumes

  datatype Phase =
    | Rewriting(rows: seq<Row>, written: nat)
    | Looping(i: nat)
    | Asked(i: nat)
    | Saved(i: nat, row: Row)

  datatype Process = Down | Up(completed: Checkpoints, phase: Phase)

  /** `base` is what was saved when the process last started. */
  datatype World = World(saved: Checkpoints, base: Checkpoints, log: seq<Line>, process: Process,
                         asked: seq<string>, crashes: nat, finished: bool)

  /** `Crash` may leave half a line behind where a line was being written. */
  datatype Step =
    | Start
    | WriteLine
    | Next
    | Ask
    | Save(prediction: string, failed: bool)
    | Append
    | Crash(torn: bool)

  const Fresh := World(map[], map[], [], Down, [], 0, false)

  predicate Writing(p: Phase) {
    p.Saved? || (p.Rewriting? && p.written < |p.rows|)
  }

  /** The loop has a question to ask: the next planned one that is not completed. */
  predicate MustAsk(records: seq<Record>, completed: Checkpoints, p: Phase) {
    p.Looping? && p.i < |records| && records[p.i].id !in completed
  }

  function Enter(w: World, p: Phase): World
    requires w.process.Up?
  {
    w.(process := Up(w.process.completed, p))
  }

  /** One step of the running process; a step that does not fit where the process is does nothing. */
  function Advance(records: seq<Record>, w: World, s: Step): World
    requires w.process.Up?
  {
    var (completed, p) := (w.process.completed, w.process.phase);
    if s.WriteLine? && p.Rewriting? then
      if p.written < |p.rows| then Enter(w, Rewriting(p.rows, p.written + 1)).(log := w.log + [Full(p.rows[p.written])])
      else Enter(w, Looping(0))
    else if s.Next? && p.Looping? && !MustAsk(records, completed, p) then
      if p.i < |records| then Enter(w, Looping(p.i + 1)) else w.(process := Down, finished := true)
    else if s.Ask? && MustAsk(records, completed, p) then
      Enter(w, Asked(p.i)).(asked := w.asked + [records[p.i].id])
    else if s.Save? && p.Asked? && p.i < |records| then
      var row := Row(records[p.i], s.prediction, s.failed);
      Enter(w, Saved(p.i, row)).(saved := w.saved[row.record.id := row])
    else if s.Append? && p.Saved? then
      w.(log := w.log + [Full(p.row)], process := Up(completed[p.row.record.id := p.row], Looping(p.i + 1)))
    else w
  }

  function Do(records: seq<Record>, w: World, s: Step): World {
    if w.process.Down? then
      if s.Start? && Accepts(records, w.saved)
      then w.(log := [], base := w.saved, finished := false, process := Up(w.saved, Rewriting(RowsOf(records, w.saved), 0)))
      else w
    else if s.Crash? then
      w.(process := Down, crashes := w.crashes + 1, log := w.log + if s.torn && Writing(w.process.phase) then [Torn] else [])
    else Advance(records, w, s)
  }

  function Exec(records: seq<Record>, steps: seq<Step>): World
    decreases |steps|
  {
    if steps == [] then Fresh else Do(records, Exec(records, steps[..|steps| - 1]), steps[|steps| - 1])
  }

  // ------------------------------------------------------------------ what every run keeps

  /** The saved questions are exactly those of the first `n` planned records, each with the record it was asked with. */
  ghost predicate Prefix(records: seq<Record>, saved: Checkpoints, n: nat) {
    && n <= |records| && saved.Keys == Ids(records[..n])
    && forall id <- saved :: saved[id].record.id == id && Earliest(records, id) == Some(saved[id].record)
  }

  ghost predicate SomePrefix(records: seq<Record>, saved: Checkpoints) {
    exists n :: Prefix(records, saved, n)
  }

  ghost predicate Grown(base: Checkpoints, saved: Checkpoints) {
    forall id <- base :: id in saved && saved[id] == base[id]
  }

  ghost predicate PhaseOk(records: seq<Record>, w: World, n: nat) {
    if w.process.Down? then w.finished ==> w.saved.Keys == Ids(records) && w.log == Lines(LogRows(records, w.base, w.saved))
    else !w.finished && RunningOk(records, w.base, w.saved, w.log, w.process.completed, w.process.phase, n)
  }

  /** Memory, checkpoints and log agree, but for the one line not yet appended. */
  ghost predicate RunningOk(records: seq<Record>, base: Checkpoints, saved: Checkpoints, log: seq<Line>,
                            completed: Checkpoints, p: Phase, n: nat) {
    match p
    case Rewriting(rows, k) => completed == saved == base && rows == RowsOf(records, base) && k <= |rows| && log == Lines(rows[..k])
    case Looping(i) => completed == saved && i <= n && log == Lines(LogRows(records, base, saved))
    case Asked(i) =>
      completed == saved && i == n < |records| && records[i].id !in saved && log == Lines(LogRows(records, base, saved))
    case Saved(i, row) =>
      && i + 1 == n <= |records| && row.record == records[i] && Prefix(records, completed, i) && Grown(base, completed)
      && records[i].id !in completed && saved == completed[records[i].id := row]
      && log == Lines(LogRows(records, base, completed))
  }

  /** Every question asked is saved, being answered, or was lost to a crash. */
  predicate AsksOk(w: World) {
    |w.asked| <= |w.saved| + w.crashes + if w.process.Up? && w.process.phase.Asked? then 1 else 0
  }

  ghost predicate Inv(records: seq<Record>, w: World, n: nat) {
    && Prefix(records, w.saved, n) && SomePrefix(records, w.base) && Grown(w.base, w.saved)
    && PhaseOk(records, w, n) && AsksOk(w)
  }

  lemma IdsOneMore(records: seq<Record>, n: nat)
    requires n < |records|
    ensures Ids(records[..n + 1]) == Ids(records[..n]) + {records[n].id}
    ensures forall i | 0 <= i < n :: records[i].id in Ids(records[..n])
  {
    assert records[..n + 1] == records[..n] + [records[n]];
    forall i | 0 <= i < n
      ensures records[i].id in Ids(records[..n])
    {
      assert records[..n][i] == records[i];
    }
  }

  lemma {:induction false} EarliestNone(records: seq<Record>, id: string)
    ensures Earliest(records, id).None? <==> id !in Ids(records)
  {
    if records != [] {
      EarliestNone(records[..|records| - 1], id);
      IdsOneMore(records, |records| - 1);
      assert records[..|records|] == records;
    }
  }

  lemma {:induction false} EarliestAt(records: seq<Record>, n: nat)
    requires n < |records| && records[n].id !in Ids(records[..n])
    ensures Earliest(records, records[n].id) == Some(records[n])
  {
    var before := records[..|records| - 1];
    if n < |records| - 1 {
      assert before[..n] == records[..n];
      EarliestAt(before, n);
    } else {
      EarliestNone(before, records[n].id);
    }
  }

  lemma SaveExtendsPrefix(records: seq<Record>, saved: Checkpoints, n: nat, row: Row)
    requires Prefix(records, saved, n) && n < |records| && row.record == records[n] && records[n].id !in saved
    ensures Prefix(records, saved[records[n].id := row], n + 1)
  {
    IdsOneMore(records, n);
    EarliestAt(records, n);
  }

  /** A question that is planned again, when it is already saved, moves the prefix on. */
  lemma RepeatExtendsPrefix(records: seq<Record>, saved: Checkpoints, n: nat)
    requires Prefix(records, saved, n) && n < |records| && records[n].id in saved
    ensures Prefix(records, saved, n + 1)
  {
    IdsOneMore(records, n);
  }

  lemma {:induction false} NothingNew(records: seq<Record>, saved: Checkpoints)
    ensures NewRows(records, saved, saved) == []
  {
    if records != [] {
      NothingNew(records[..|records| - 1], saved);
    }
  }

  lemma {:induction false} NewRowsIgnore(records: seq<Record>, saved: Checkpoints, base: Checkpoints, id: string, row: Row)
    requires id !in Ids(records)
    ensures NewRows(records, saved[id := row], base) == NewRows(records, saved, base)
  {
    if records != [] {
      IdsOneMore(records, |records| - 1);
      assert records[..|records|] == records;
      NewRowsIgnore(records[..|records| - 1], saved, base, id, row);
    }
  }

  lemma {:induction false} NewRowsBeyond(records: seq<Record>, saved: Checkpoints, base: Checkpoints, n: nat)
    requires n <= |records| && saved.Keys == Ids(records[..n])
    ensures NewRows(records, saved, base) == NewRows(records[..n], saved, base)
  {
    if n < |records| {
      var before := records[..|records| - 1];
      assert before[..n] == records[..n];
      NewRowsBeyond(before, saved, base, n);
    } else {
      assert records[..n] == records;
    }
  }

  /** Saving the next question adds its row at the end of the log's rows. */
  lemma NewRowsExtend(records: seq<Record>, saved: Checkpoints, base: Checkpoints, n: nat, row: Row)
    requires Prefix(records, saved, n) && Grown(base, saved) && n < |records| && records[n].id !in saved
    ensures NewRows(records, saved[records[n].id := row], base) == NewRows(records, saved, base) + [row]
    ensures LogRows(records, base, saved[records[n].id := row]) == LogRows(records, base, saved) + [row]
  {
    var (id, more) := (records[n].id, saved[records[n].id := row]);
    hide NewRows, RowsOf, Ids, Earliest;
    IdsOneMore(records, n);
    NewRowsOneMore(records, n, more, base);
    NewRowsBeyond(records, saved, base, n);
    NewRowsBeyond(records, more, base, n + 1);
    NewRowsIgnore(records[..n], saved, base, id, row);
  }

  lemma NewRowsOneMore(records: seq<Record>, n: nat, saved: Checkpoints, base: Checkpoints)
    requires n < |records|
    ensures var id := records[n].id;
            NewRows(records[..n + 1], saved, base)
            == NewRows(records[..n], saved, base) + if id in saved && id !in base && id !in Ids(records[..n]) then [saved[id]] else []
  {
    hide Ids;
    assert records[..n + 1][..n] == records[..n] && records[..n + 1][n] == records[n];
  }

  lemma RowsOneMore(records: seq<Record>, n: nat, saved: Checkpoints)
    requires n < |records|
    ensures RowsOf(records[..n + 1], saved)
            == RowsOf(records[..n], saved) + if records[n].id in saved then [saved[records[n].id]] else []
  {
    assert records[..n + 1][..n] == records[..n] && records[..n + 1][n] == records[n];
  }

  /** How many planned positions are behind the saved questions after a step. */
  function SavedAfter(records: seq<Record>, w: World, s: Step, n: nat): nat {
    if w.process.Down? then n
    else
      var p := w.process.phase;
      if s.Save? && p.Asked? && p.i < |records| then n + 1
      else if s.Next? && p.Looping? && p.i == n < |records| && !MustAsk(records, w.process.completed, p) then n + 1
      else n
  }

  lemma AdvanceKeepsInv(records: seq<Record>, w: World, s: Step, n: nat)
    requires Inv(records, w, n) && w.process.Up? && !s.Save?
    ensures Inv(records, Advance(records, w, s), SavedAfter(records, w, s, n))
  {
    hide Inv;
    match w.process.phase
    case Rewriting(_, _) => RewritingKeepsInv(records, w, s, n);
    case Looping(_) => LoopingKeepsInv(records, w, s, n);
    case Asked(_) =>
    case Saved(_, _) => AppendKeepsInv(records, w, s, n);
  }

  lemma LoopingKeepsInv(records: seq<Record>, w: World, s: Step, n: nat)
    requires Inv(records, w, n) && w.process.Up? && w.process.phase.Looping?
    ensures Inv(records, Advance(records, w, s), SavedAfter(records, w, s, n))
  {
    LoopStep(records, w.saved, n, w.process.phase.i);
    hide RowsOf, LogRows, Ids, Prefix, Lines, SomePrefix, Grown;
  }

  lemma AppendKeepsInv(records: seq<Record>, w: World, s: Step, n: nat)
    requires Inv(records, w, n) && w.process.Up? && w.process.phase.Saved?
    ensures Inv(records, Advance(records, w, s), SavedAfter(records, w, s, n))
  {
    var (completed, p) := (w.process.completed, w.process.phase);
    NewRowsExtend(records, completed, w.base, p.i, p.row);
    OneLineMore(LogRows(records, w.base, completed), p.row);
    hide RowsOf, NewRows, LogRows, Ids, Lines, SomePrefix, Earliest;
  }

  lemma OneLineMore(rows: seq<Row>, row: Row)
    ensures Lines(rows + [row]) == Lines(rows) + [Full(row)]
  {
  }

  lemma RewritingKeepsInv(records: seq<Record>, w: World, s: Step, n: nat)
    requires Inv(records, w, n) && w.process.Up? && w.process.phase.Rewriting? && !s.Save?
    ensures Inv(records, Advance(records, w, s), SavedAfter(records, w, s, n))
  {
    hide RowsOf, NewRows, Earliest, Ids;
    var p := w.process.phase;
    NothingNew(records, w.saved);
    assert RowsOf(records, w.base) + [] == RowsOf(records, w.base);
    if p.written < |p.rows| {
      assert p.rows[..p.written + 1] == p.rows[..p.written] + [p.rows[p.written]];
    } else {
      assert p.rows[..p.written] == p.rows;
    }
  }

  /** The next question to ask is the one after the saved prefix. */
  lemma LoopStep(records: seq<Record>, saved: Checkpoints, n: nat, i: nat)
    requires Prefix(records, saved, n) && i <= n
    ensures i < |records| && records[i].id !in saved ==> i == n
    ensures n < |records| && records[n].id in saved ==> Prefix(records, saved, n + 1)
    ensures n == |records| ==> saved.Keys == Ids(records)
  {
    assert records[..|records|] == records;
    if i < n {
      assert records[..n][i] == records[i];
    }
    if n < |records| && records[n].id in saved {
      RepeatExtendsPrefix(records, saved, n);
    }
  }

  lemma SaveKeepsInv(records: seq<Record>, w: World, s: Step, n: nat)
    requires Inv(records, w, n) && w.process.Up? && w.process.phase.Asked? && s.Save?
    ensures Inv(records, Do(records, w, s), n + 1)
  {
    hide RowsOf, NewRows, Earliest, Ids, SomePrefix;
    var row := Row(records[n], s.prediction, s.failed);
    SaveExtendsPrefix(records, w.saved, n, row);
  }

  lemma DoKeepsInv(records: seq<Record>, w: World, s: Step, n: nat)
    requires Inv(records, w, n)
    ensures Inv(records, Do(records, w, s), SavedAfter(records, w, s, n))
  {
    hide RowsOf, NewRows, Earliest, Ids, Accepts;
    if w.process.Up? && !s.Crash? {
      if s.Save? && w.process.phase.Asked? {
        SaveKeepsInv(records, w, s, n);
      } else if !s.Save? {
        AdvanceKeepsInv(records, w, s, n);
      }
    }
  }

  lemma {:induction false} RunsKeepInv(records: seq<Record>, steps: seq<Step>) returns (n: nat)
    ensures Inv(records, Exec(records, steps), n)
    decreases |steps|
  {
    hide Inv, Do;
    if steps == [] {
      n := 0;
      FreshOk(records);
    } else {
      var before, s := steps[..|steps| - 1], steps[|steps| - 1];
      n := RunsKeepInv(records, before);
      DoKeepsInv(records, Exec(records, before), s, n);
      n := SavedAfter(records, Exec(records, before), s, n);
    }
  }

  lemma FreshOk(records: seq<Record>)
    ensures Inv(records, Fresh, 0)
  {
    assert Prefix(records, map[], 0);
  }

  // ------------------------------------------------------------------ over all runs

  /**
   However often it was killed, what is saved are the questions of the first so many planned
   records.  A resume is turned away exactly when a saved question is planned with two different
   records, so never when equal ids carry equal records.
   */
  lemma SavedIsPrefix(records: seq<Record>, steps: seq<Step>) returns (n: nat)
    ensures n <= |records| && Exec(records, steps).saved.Keys == Ids(records[..n])
    ensures Accepts(records, Exec(records, steps).saved)
            <==> forall id <- Exec(records, steps).saved :: Earliest(records, id) == Planned(records, id)
    ensures SameRecords(records) ==> Accepts(records, Exec(records, steps).saved)
  {
    n := RunsKeepInv(records, steps);
    var saved := Exec(records, steps).saved;
    hide Exec;
    if SameRecords(records) {
      forall id | id in saved
        ensures Earliest(records, id) == Planned(records, id)
      {
        BothPlanned(records, id);
        FindsRecord(records, id);
      }
    }
  }

  predicate SameRecords(records: seq<Record>) {
    forall r <- records, q <- records | r.id == q.id :: r == q
  }

  lemma {:induction false} FindsRecord(records: seq<Record>, id: string)
    ensures Earliest(records, id).Some? ==> Earliest(records, id).value in records && Earliest(records, id).value.id == id
    ensures Planned(records, id).Some? ==> Planned(records, id).value in records && Planned(records, id).value.id == id
  {
    if records != [] {
      FindsRecord(records[..|records| - 1], id);
    }
  }

  lemma {:induction false} BothPlanned(records: seq<Record>, id: string)
    ensures Earliest(records, id).Some? <==> Planned(records, id).Some?
  {
    if records != [] {
      BothPlanned(records[..|records| - 1], id);
    }
  }

  lemma StepRespectsSaved(records: seq<Record>, w: World, s: Step, n: nat)
    requires Inv(records, w, n)
    ensures w.asked <= Do(records, w, s).asked
    ensures forall k | |w.asked| <= k < |Do(records, w, s).asked| :: Do(records, w, s).asked[k] !in w.saved
    ensures forall id <- w.saved :: id in Do(records, w, s).saved && Do(records, w, s).saved[id] == w.saved[id]
  {
    hide RowsOf, Prefix, SomePrefix, Accepts, Lines, Writing, LogRows, Ids;
  }

  /** A question that is saved is never asked again, and a saved row never changes. */
  lemma SavedIsNeverAsked(records: seq<Record>, steps: seq<Step>, s: Step)
    ensures var (w, w') := (Exec(records, steps), Do(records, Exec(records, steps), s));
            && w.asked <= w'.asked && (forall k | |w.asked| <= k < |w'.asked| :: w'.asked[k] !in w.saved)
            && forall id <- w.saved :: id in w'.saved && w'.saved[id] == w.saved[id]
  {
    hide *;
    var n := RunsKeepInv(records, steps);
    StepRespectsSaved(records, Exec(records, steps), s, n);
  }

  /** All the model calls of a run: one for each saved question, one more for each crash at most, and the one being made. */
  lemma CallsAreBounded(records: seq<Record>, steps: seq<Step>)
    ensures var w := Exec(records, steps);
            && |w.asked| <= |w.saved| + w.crashes + (if w.process.Up? && w.process.phase.Asked? then 1 else 0)
            && |w.saved| <= |Ids(records)|
  {
    var n := RunsKeepInv(records, steps);
    hide Exec;
    var w := Exec(records, steps);
    SubsetSize(w.saved.Keys, Ids(records));
  }

  lemma {:induction false} SubsetSize<T>(a: set<T>, b: set<T>)
    requires a <= b
    ensures |a| <= |b|
  {
    if a != {} {
      var x :| x in a;
      SubsetSize(a - {x}, b - {x});
    }
  }

  /** How many steps a running process is from its end, at most. */
  function Ahead(records: seq<Record>, p: Phase): int {
    match p
    case Rewriting(rows, k) => 3 * |records| + 2 + |rows| - k
    case Looping(i) => 3 * (|records| - i) + 1
    case Asked(i) => 3 * (|records| - i)
    case Saved(i, _) => 3 * (|records| - i) - 1
  }

  /** The step a process that is not killed makes next. */
  function NextStep(records: seq<Record>, completed: Checkpoints, p: Phase, prediction: string, failed: bool): Step {
    match p
    case Rewriting(_, _) => WriteLine
    case Looping(_) => if MustAsk(records, completed, p) then Ask else Next
    case Asked(_) => Save(prediction, failed)
    case Saved(_, _) => Append
  }

  /** Where the process stands is within its lists. */
  predicate Within(records: seq<Record>, p: Phase) {
    match p
    case Rewriting(rows, k) => k <= |rows|
    case Looping(i) => i <= |records|
    case Asked(i) => i < |records|
    case Saved(i, _) => i < |records|
  }

  lemma StandsWithin(records: seq<Record>, w: World, n: nat)
    requires Inv(records, w, n) && w.process.Up?
    ensures Within(records, w.process.phase)
  {
    hide RowsOf, LogRows, Ids, Lines, SomePrefix, Grown, Earliest;
  }

  lemma NextStepAdvances(records: seq<Record>, w: World, prediction: string, failed: bool)
    requires w.process.Up? && Within(records, w.process.phase)
    ensures var s := NextStep(records, w.process.completed, w.process.phase, prediction, failed);
            && !s.Crash?
            && var after := Do(records, w, s);
               if after.process.Up? then 0 <= Ahead(records, after.process.phase) < Ahead(records, w.process.phase)
               else after.finished
  {
    hide Accepts;
  }

  lemma ExecOne(records: seq<Record>, steps: seq<Step>, s: Step)
    ensures Exec(records, steps + [s]) == Do(records, Exec(records, steps), s)
  {
    hide Do;
    assert (steps + [s])[..|steps|] == steps;
  }

  /** A run that is not killed any more comes to its end, whatever the model answers. */
  lemma {:induction false} UnkilledRunFinishes(records: seq<Record>, before: seq<Step>, prediction: string, failed: bool)
    returns (later: seq<Step>)
    requires Exec(records, before).process.Up?
    ensures (forall s <- later :: !s.Crash?) && Exec(records, before + later).finished
    decreases Ahead(records, Exec(records, before).process.phase)
  {
    hide *;
    var n := RunsKeepInv(records, before);
    var w := Exec(records, before);
    StandsWithin(records, w, n);
    var s := NextStep(records, w.process.completed, w.process.phase, prediction, failed);
    NextStepAdvances(records, w, prediction, failed);
    ExecOne(records, before, s);
    later := [s];
    if Exec(records, before + [s]).process.Up? {
      var rest := UnkilledRunFinishes(records, before + [s], prediction, failed);
      assert before + [s] + rest == before + ([s] + rest);
      later := [s] + rest;
    }
  }

  /** And a stopped one can be started again, if its checkpoints are accepted. */
  lemma ResumedRunFinishes(records: seq<Record>, before: seq<Step>) returns (later: seq<Step>)
    requires Exec(records, before).process.Down? && Accepts(records, Exec(records, before).saved)
    ensures (forall s <- later :: !s.Crash?) && Exec(records, before + later).finished
  {
    ExecOne(records, before, Start);
    assert Exec(records, before + [Start]).process.Up?;
    hide Do, Exec;
    var rest := UnkilledRunFinishes(records, before + [Start], "", false);
    later := [Start] + rest;
    assert before + [Start] + rest == before + later;
  }

  // ------------------------------------------------------------------ the finished run and its verifier

  function RowIds(rows: seq<Row>): set<string> {
    set r | r in rows :: r.record.id
  }

  function Times(rows: seq<Row>, id: string): nat {
    if rows == [] then 0
    else Times(rows[..|rows| - 1], id) + if rows[|rows| - 1].record.id == id then 1 else 0
  }

  /** Each planned question once, in the log and among the checkpoints, and the same row in both. */
  ghost predicate Agrees(records: seq<Record>, rows: seq<Row>, saved: Checkpoints) {
    && Distinct(records) && |rows| == |records| && RowIds(rows) == Ids(records)
    && (forall id <- RowIds(rows) :: Times(rows, id) == 1)
    && saved.Keys == RowIds(rows)
    && forall r <- rows :: r.record.id in saved && saved[r.record.id] == r
  }

  lemma DistinctOneMore(before: seq<Record>, last: Record)
    ensures Ids(before + [last]) == Ids(before) + {last.id}
    ensures Distinct(before + [last]) <==> Distinct(before) && last.id !in Ids(before)
  {
    var records := before + [last];
    assert forall i | 0 <= i < |before| :: records[i] == before[i] && before[i] in before;
    assert records[|before|] == last;
    if last.id in Ids(before) {
      var r :| r in before && r.id == last.id;
      var i :| 0 <= i < |before| && before[i] == r;
      assert records[i].id == records[|before|].id;
    }
    if Distinct(records) {
      assert Distinct(before);
    }
  }

  lemma {:induction false} DistinctBySize(records: seq<Record>)
    ensures |Ids(records)| <= |records|
    ensures |Ids(records)| == |records| <==> Distinct(records)
  {
    if records != [] {
      var (before, last) := (records[..|records| - 1], records[|records| - 1]);
      hide Ids, Distinct;
      DistinctBySize(before);
      DistinctOneMore(before, last);
      assert records == before + [last];
      assert last.id in Ids(before) ==> Ids(before) + {last.id} == Ids(before);
    }
  }

  lemma CountOneMore(rows: seq<Row>, n: nat)
    requires n < |rows|
    ensures RowIds(rows[..n + 1]) == RowIds(rows[..n]) + {rows[n].record.id}
    ensures forall id :: Times(rows[..n + 1], id) == Times(rows[..n], id) + if rows[n].record.id == id then 1 else 0
  {
    assert rows[..n + 1][..n] == rows[..n] && rows[..n + 1] == rows[..n] + [rows[n]];
  }

  /** The counts of the verifier's first check. */
  method CountIds(rows: seq<Row>) returns (counts: map<string, nat>)
    ensures counts.Keys == RowIds(rows) && forall id <- counts :: counts[id] == Times(rows, id)
  {
    counts := map[];
    for n := 0 to |rows|
      invariant counts.Keys == RowIds(rows[..n])
      invariant forall id :: Times(rows[..n], id) == if id in counts then counts[id] else 0
    {
      hide Times, RowIds;
      CountOneMore(rows, n);
      var id := rows[n].record.id;
      counts := counts[id := (if id in counts then counts[id] else 0) + 1];
    }
    assert rows[..|rows|] == rows;
  }

  /** The first two checks: the counts, and the names of the checkpoint files. */
  ghost predicate CountsAgree(records: seq<Record>, rows: seq<Row>, saved: Checkpoints) {
    && Distinct(records) && |rows| == |records| && RowIds(rows) == Ids(records)
    && (forall id <- RowIds(rows) :: Times(rows, id) == 1) && saved.Keys == RowIds(rows)
  }

  /** The counting and checkpoint checks on the rows of a log. */
  method Verify(samples: seq<Record>, rows: seq<Row>, saved: Checkpoints) returns (ok: bool)
    ensures ok <==> Agrees(samples, rows, saved)
  {
    var planned := set r | r in samples :: r.id;
    var counts := CountIds(rows);
    DistinctBySize(samples);
    ok := |planned| == |samples| && |rows| == |samples| && counts.Keys == planned && forall id <- counts :: counts[id] == 1;
    if saved.Keys != counts.Keys {
      ok := false;
    }
    assert ok <==> CountsAgree(samples, rows, saved);
    for n := 0 to |rows|
      invariant ok <==> CountsAgree(samples, rows, saved) && forall i | 0 <= i < n :: RowSaved(rows[i], planned, saved)
    {
      hide CountsAgree;
      var key := rows[n].record.id;
      if key in planned && (key !in saved || saved[key] != rows[n]) {
        ok := false;
      }
    }
    AgreesByRows(samples, rows, saved);
  }

  predicate RowSaved(r: Row, planned: set<string>, saved: Checkpoints) {
    r.record.id in planned ==> r.record.id in saved && saved[r.record.id] == r
  }

  lemma AgreesByRows(samples: seq<Record>, rows: seq<Row>, saved: Checkpoints)
    ensures Agrees(samples, rows, saved)
            <==> CountsAgree(samples, rows, saved) && forall i | 0 <= i < |rows| :: RowSaved(rows[i], Ids(samples), saved)
  {
    hide Distinct, Times;
    assert forall i | 0 <= i < |rows| :: rows[i] in rows && rows[i].record.id in RowIds(rows);
  }

  /** What reading the log back yields; a torn line cannot be read. */
  function Parsed(log: seq<Line>): Option<seq<Row>> {
    if exists l <- log :: l.Torn? then None
    else Some(seq(|log|, i requires 0 <= i < |log| && log[i].Full? => log[i].row))
  }

  /** How often an id is planned. */
  function Positions(records: seq<Record>, id: string): nat {
    if records == [] then 0
    else Positions(records[..|records| - 1], id) + if records[|records| - 1].id == id then 1 else 0
  }

  lemma {:induction false} TimesJoin(a: seq<Row>, b: seq<Row>, id: string)
    ensures Times(a + b, id) == Times(a, id) + Times(b, id)
    decreases |b|
  {
    if b == [] {
      assert a + b == a;
    } else {
      assert (a + b)[..|a + b| - 1] == a + b[..|b| - 1];
      TimesJoin(a, b[..|b| - 1], id);
    }
  }

  predicate OwnIds(saved: Checkpoints) {
    forall id <- saved :: saved[id].record.id == id
  }

  lemma TimesOne(row: Row, id: string)
    ensures Times([row], id) == if row.record.id == id then 1 else 0
  {
    assert [row][..0] == [];
  }

  lemma {:induction false} TimesInRows(records: seq<Record>, saved: Checkpoints, id: string)
    requires OwnIds(saved)
    ensures Times(RowsOf(records, saved), id) == if id in saved then Positions(records, id) else 0
  {
    if records != [] {
      var (before, last) := (records[..|records| - 1], records[|records| - 1]);
      TimesInRows(before, saved, id);
      if last.id in saved {
        TimesOne(saved[last.id], id);
        TimesJoin(RowsOf(before, saved), [saved[last.id]], id);
      } else {
        assert RowsOf(before, saved) + [] == RowsOf(before, saved);
      }
    }
  }

  lemma {:induction false} TimesInNewRows(records: seq<Record>, saved: Checkpoints, base: Checkpoints, id: string)
    requires OwnIds(saved)
    ensures Times(NewRows(records, saved, base), id) == if id in saved && id !in base && id in Ids(records) then 1 else 0
  {
    if records != [] {
      var (before, last) := (records[..|records| - 1], records[|records| - 1]);
      TimesInNewRows(before, saved, base, id);
      IdsOneMore(records, |records| - 1);
      assert records[..|records|] == records;
      if last.id in saved {
        TimesOne(saved[last.id], id);
        TimesJoin(NewRows(before, saved, base), [saved[last.id]], id);
      }
      assert NewRows(before, saved, base) + [] == NewRows(before, saved, base);
    }
  }

  /**
   What a finished run's log holds: the rows found at the last start, one for each planned
   position, then the rows added since, one for each question.  So a question is logged once if
   it was answered after the last start, and as often as it is planned if it was found there.
   */
  lemma FinishedLog(records: seq<Record>, steps: seq<Step>)
    requires Exec(records, steps).finished
    ensures var w := Exec(records, steps);
            && w.saved.Keys == Ids(records) && w.log == Lines(LogRows(records, w.base, w.saved))
            && forall id | id in Ids(records) ::
                 Times(LogRows(records, w.base, w.saved), id) == if id in w.base then Positions(records, id) else 1
  {
    var n := RunsKeepInv(records, steps);
    var w := Exec(records, steps);
    hide Exec;
    assert w.process.Down?;
    forall id | id in Ids(records)
      ensures Times(LogRows(records, w.base, w.saved), id) == if id in w.base then Positions(records, id) else 1
    {
      TimesInRows(records, w.base, id);
      TimesInNewRows(records, w.saved, w.base, id);
      TimesJoin(RowsOf(records, w.base), NewRows(records, w.saved, w.base), id);
    }
  }

  /** With everything saved the rows of the planned positions are their checkpoints, in order. */
  lemma {:induction false} AllRows(records: seq<Record>, saved: Checkpoints)
    requires Ids(records) <= saved.Keys
    ensures |RowsOf(records, saved)| == |records|
    ensures forall i | 0 <= i < |records| :: records[i].id in saved && RowsOf(records, saved)[i] == saved[records[i].id]
  {
    if records != [] {
      IdsOneMore(records, |records| - 1);
      assert records[..|records|] == records;
      AllRows(records[..|records| - 1], saved);
    }
  }

  /** Rows found at the start come first in the planned order too. */
  lemma {:induction false} FoundRows(records: seq<Record>, base: Checkpoints, saved: Checkpoints)
    requires Grown(base, saved) && Ids(records) <= base.Keys
    ensures NewRows(records, saved, base) == [] && RowsOf(records, base) == RowsOf(records, saved)
  {
    if records != [] {
      IdsOneMore(records, |records| - 1);
      assert records[..|records|] == records;
      FoundRows(records[..|records| - 1], base, saved);
    }
  }

  /** Where no id repeats, the rows found and the rows added are the planned ones in order. */
  lemma {:induction false} DistinctRows(records: seq<Record>, base: Checkpoints, saved: Checkpoints, m: nat)
    requires Distinct(records) && Grown(base, saved) && m <= |records| && base.Keys == Ids(records[..m])
    requires Ids(records) <= saved.Keys
    ensures LogRows(records, base, saved) == RowsOf(records, saved)
  {
    if m == |records| {
      assert records[..m] == records;
      FoundRows(records, base, saved);
    } else {
      var n := |records| - 1;
      var (before, last) := (records[..n], records[n]);
      DistinctIds(records, n, m);
      DistinctOneMore(before, last);
      assert before + [last] == records && records[..n + 1] == records && before[..m] == records[..m];
      hide RowsOf, NewRows, Ids, Distinct;
      IdsOneMore(records, n);
      DistinctRows(before, base, saved, m);
      RowsOneMore(records, n, base);
      RowsOneMore(records, n, saved);
      NewRowsOneMore(records, n, saved, base);
      Middle(RowsOf(before, base), NewRows(before, saved, base), [saved[last.id]]);
    }
  }

  lemma Middle(a: seq<Row>, b: seq<Row>, c: seq<Row>)
    ensures (a + []) + (b + c) == a + b + c
  {
  }

  lemma DistinctIds(records: seq<Record>, k: nat, m: nat)
    requires Distinct(records) && k < |records| && m <= |records|
    ensures records[k].id !in Ids(records[..k])
    ensures records[k].id in Ids(records[..m]) <==> k < m
  {
    if k < m {
      assert records[..m][k] == records[k];
    }
  }

  /** Then a finished run's log is the planned questions, each once, in order, as checkpointed. */
  lemma FinishedInOrder(records: seq<Record>, steps: seq<Step>)
    requires Distinct(records) && Exec(records, steps).finished
    ensures var w := Exec(records, steps);
            && |w.log| == |records| && w.saved.Keys == Ids(records)
            && forall i | 0 <= i < |records| ::
                 records[i].id in w.saved && w.log[i] == Full(w.saved[records[i].id]) && w.saved[records[i].id].record == records[i]
  {
    var n := RunsKeepInv(records, steps);
    FinishedLog(records, steps);
    var w := Exec(records, steps);
    hide Exec;
    var m :| Prefix(records, w.base, m);
    DistinctRows(records, w.base, w.saved, m);
    AllRows(records, w.saved);
    forall i | 0 <= i < |records|
      ensures w.saved[records[i].id].record == records[i]
    {
      DistinctIds(records, i, 0);
      EarliestAt(records, i);
    }
  }

  /** A run that finished without a resume has one line for each question; one resumed with everything saved, one for each position. */
  lemma FinishedExtremes(records: seq<Record>, steps: seq<Step>)
    requires Exec(records, steps).finished
    ensures var w := Exec(records, steps);
            && (w.base == map[] ==> |w.log| == |Ids(records)|)
            && (w.base == w.saved ==> |w.log| == |records| && forall i | 0 <= i < |records| ::
                  records[i].id in w.saved && w.log[i] == Full(w.saved[records[i].id]))
  {
    FinishedLog(records, steps);
    var w := Exec(records, steps);
    hide Exec;
    if w.base == map[] {
      NoRows(records);
      NewRowsCount(records, w.saved);
    }
    if w.base == w.saved {
      NothingNew(records, w.saved);
      AllRows(records, w.saved);
    }
  }

  lemma {:induction false} NoRows(records: seq<Record>)
    ensures RowsOf(records, map[]) == []
  {
    if records != [] {
      NoRows(records[..|records| - 1]);
    }
  }

  lemma {:induction false} NewRowsCount(records: seq<Record>, saved: Checkpoints)
    requires Ids(records) <= saved.Keys
    ensures |NewRows(records, saved, map[])| == |Ids(records)|
  {
    if records != [] {
      var before := records[..|records| - 1];
      IdsOneMore(records, |records| - 1);
      assert records[..|records|] == records;
      NewRowsCount(before, saved);
      assert records[|records| - 1].id in Ids(before) ==> Ids(records) == Ids(before);
    }
  }

  lemma {:induction false} DistinctOnce(records: seq<Record>, id: string)
    requires Distinct(records)
    ensures Positions(records, id) == if id in Ids(records) then 1 else 0
  {
    if records != [] {
      var before := records[..|records| - 1];
      DistinctOnce(before, id);
      DistinctIds(records, |records| - 1, 0);
      IdsOneMore(records, |records| - 1);
      assert records[..|records|] == records;
    }
  }

  /** The verifier's checks pass on a finished run exactly when the planned ids are distinct. */
  lemma FinishedRunVerifies(records: seq<Record>, steps: seq<Step>)
    requires Exec(records, steps).finished
    ensures Distinct(records) <==>
            Parsed(Exec(records, steps).log).Some?
            && Agrees(records, Parsed(Exec(records, steps).log).value, Exec(records, steps).saved)
  {
    var w := Exec(records, steps);
    if Distinct(records) {
      FinishedInOrder(records, steps);
      FinishedLog(records, steps);
      hide *;
      InOrderAgrees(records, w.log, LogRows(records, w.base, w.saved), w.base, w.saved);
    } else {
      hide Exec, Parsed;
    }
  }

  lemma ParsedWhole(log: seq<Line>, rows: seq<Row>)
    requires log == Lines(rows)
    ensures Parsed(log) == Some(rows)
  {
    forall l | l in log
      ensures l.Full?
    {
      var i :| 0 <= i < |log| && log[i] == l;
      assert log[i] == Full(rows[i]);
    }
    assert Parsed(log).value == rows;
  }

  lemma InOrderAgrees(records: seq<Record>, log: seq<Line>, rows: seq<Row>, base: Checkpoints, saved: Checkpoints)
    requires Distinct(records) && log == Lines(rows) && |log| == |records| && saved.Keys == Ids(records)
    requires forall i | 0 <= i < |records| ::
               records[i].id in saved && log[i] == Full(saved[records[i].id]) && saved[records[i].id].record == records[i]
    requires forall id | id in Ids(records) :: Times(rows, id) == if id in base then Positions(records, id) else 1
    ensures Parsed(log) == Some(rows) && Agrees(records, rows, saved)
  {
    ParsedWhole(log, rows);
    hide Times, Positions, Distinct, Parsed;
    assert forall i | 0 <= i < |rows| :: log[i] == Full(rows[i]);
    assert forall i | 0 <= i < |rows| :: rows[i] == saved[records[i].id] && rows[i] in rows && records[i] in records;
    assert RowIds(rows) == Ids(records);
    forall id | id in Ids(records)
      ensures Times(rows, id) == 1
    {
      DistinctOnce(records, id);
    }
  }

  /** One question planned twice: the run finishes with one line and the verifier's checks fail. */
  lemma RepeatedQuestionFails(r: Record, prediction: string) returns (steps: seq<Step>)
    ensures steps == [Start, WriteLine, Ask, Save(prediction, false), Append, Next, Next]
    ensures var w := Exec([r, r], steps);
            && w.finished && w.log == [Full(Row(r, prediction, false))]
            && !Agrees([r, r], [Row(r, prediction, false)], w.saved)
  {
    steps := [Start, WriteLine, Ask, Save(prediction, false), Append, Next, Next];
    var w7 := AnsweredOnce(r, prediction);
    NotTwice(r);
    hide Do;
    ExecSteps([r, r], steps);
    assert steps[0] == Start && steps[1] == WriteLine && steps[2] == Ask && steps[3] == Save(prediction, false);
    assert steps[4] == Append && steps[5] == Next && steps[6] == Next;
    assert Exec([r, r], steps[..4]) == Do([r, r], Do([r, r], Do([r, r], Do([r, r], Fresh, Start), WriteLine), Ask), steps[3]);
    assert Exec([r, r], steps[..7]) == w7;
    assert steps[..7] == steps;
  }

  lemma AnsweredOnce(r: Record, prediction: string) returns (w7: World)
    ensures var w4 := Do([r, r], Do([r, r], Do([r, r], Do([r, r], Fresh, Start), WriteLine), Ask), Save(prediction, false));
            w7 == Do([r, r], Do([r, r], Do([r, r], w4, Append), Next), Next)
    ensures w7.finished && w7.log == [Full(Row(r, prediction, false))]
  {
    var (row, records) := (Row(r, prediction, false), [r, r]);
    NoRows(records);
    var w1 := Do(records, Fresh, Start);
    assert w1 == World(map[], map[], [], Up(map[], Rewriting([], 0)), [], 0, false);
    var w2 := Do(records, w1, WriteLine);
    assert w2 == w1.(process := Up(map[], Looping(0)));
    hide RowsOf, Accepts;
    var w4 := AskedOnce(r, prediction, w2);
    var w5 := Do(records, w4, Append);
    assert w5.process == Up(map[r.id := row], Looping(1)) && w5.log == [Full(row)];
    w7 := Do(records, Do(records, w5, Next), Next);
  }

  lemma AskedOnce(r: Record, prediction: string, w2: World) returns (w4: World)
    requires w2 == World(map[], map[], [], Up(map[], Looping(0)), [], 0, false)
    ensures w4 == Do([r, r], Do([r, r], w2, Ask), Save(prediction, false))
    ensures w4.process == Up(map[], Saved(0, Row(r, prediction, false))) && w4.log == [] && !w4.finished
  {
    w4 := Do([r, r], Do([r, r], w2, Ask), Save(prediction, false));
  }

  lemma NotTwice(r: Record)
    ensures !Distinct([r, r])
  {
    assert [r, r][0].id == [r, r][1].id;
  }

  lemma ExecSteps(records: seq<Record>, steps: seq<Step>)
    ensures Exec(records, steps[..0]) == Fresh
    ensures forall n | 0 <= n < |steps| :: Exec(records, steps[..n + 1]) == Do(records, Exec(records, steps[..n]), steps[n])
  {
    hide Do;
    forall n | 0 <= n < |steps|
      ensures Exec(records, steps[..n + 1]) == Do(records, Exec(records, steps[..n]), steps[n])
    {
      assert steps[..n + 1][..n] == steps[..n];
    }
  }
}
