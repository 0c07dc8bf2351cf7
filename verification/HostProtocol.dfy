/**
 The durable host run protocol: admission, cancellation, driving, and the
 authorisations a sidecar process can obtain.  Every database transaction is one
 atomic action; the sidecar may send any message at any time while its session
 is open.  The log records what was granted and what was closed, in order.
 */
module HostProtocol {
  import opened Wrappers
  import opened HostProjection

  const ADMISSION_LIMIT := 4
  const WORKER_SLOTS := 2

  datatype Command = Recover | Inspect | Approve

  /** A driven sidecar process. The row it was started with is only consulted for an already known success. */
  datatype Session = Session(command: Command, rebuild: bool, knownStatus: Status, knownResult: Report)

  datatype Link = Link(fingerprint: string, run: Run, deadline: int, startAuthorized: bool, cancelRequested: bool)

  datatype Entry =
    | StartGranted(id: string, at: int)
    | WriteGranted(id: string, node: string, at: int)
    | CancelAccepted(id: string, at: int)
    | QueueExpired(id: string, at: int)

  datatype Host = Host(links: map<string, Link>, sessions: map<string, Session>, clock: int, log: seq<Entry>)

  datatype Action =
    | Tick(elapsed: nat)
    | Accept(id: string, fingerprint: string, timeout: nat)
    | Cancel(id: string)
    | Open(id: string, command: Command, rebuild: bool)
    | Start(id: string)
    | Write(id: string, node: string)
    | Break(id: string)
    | Abandon(id: string)
    | Finish(id: string, events: seq<Event>, report: Report)

  predicate IsLive(l: Link) {
    !Terminal(l.run.status)
  }

  function Live(links: map<string, Link>): set<string> {
    set id | id in links && IsLive(links[id])
  }

  predicate MayStart(l: Link, now: int) {
    !l.startAuthorized && !l.cancelRequested && now < l.deadline
  }

  predicate MayWrite(l: Link, now: int) {
    !l.cancelRequested && now < l.deadline
  }

  /** A success claimed after the deadline is accepted only if it was already projected, unchanged. */
  predicate LateSuccess(l: Link, s: Session, report: Report, now: int) {
    report.status == Succeeded && now >= l.deadline && !(s.knownStatus == Succeeded && s.knownResult == report)
  }

  /** One step of a request's projection, as `HostProjection` defines it. */
  ghost function Move(l: Link, step: Step): Link
    requires RunOk(l.run)
  {
    l.(run := Apply(l.run, step))
  }

  /** `drive` returns before starting a process: cancelled in the queue, or expired there. */
  predicate CancelledInQueue(l: Link) {
    l.run.status == Cancelled && l.run.cursor == 0
  }

  predicate ExpiresInQueue(l: Link, now: int) {
    (l.run.status == Queued || l.run.status == Exhausted) && l.run.cursor == 0 && now >= l.deadline
  }

  /** Every stored table keeps its two keys. */
  ghost predicate Sound(h: Host) {
    forall id <- h.links :: RunOk(h.links[id].run)
  }

  ghost function Do(h: Host, a: Action): Host
    requires Sound(h)
  {
    match a
    case Tick(elapsed) => h.(clock := h.clock + elapsed)
    case Accept(id, fingerprint, timeout) =>
      if id in h.links || |Live(h.links)| >= ADMISSION_LIMIT then h
      else h.(links := h.links[id := Link(fingerprint, FreshRun, h.clock + timeout, false, false)])
    case Cancel(id) =>
      if id !in h.links || Terminal(h.links[id].run.status) then h
      else
        h.(links := h.links[id := Move(h.links[id], CancelQueued).(cancelRequested := true)],
           log := h.log + [CancelAccepted(id, h.clock)])
    case Open(id, command, rebuild) =>
      if id !in h.links || id in h.sessions || |h.sessions| >= WORKER_SLOTS then h
      else
        var l := h.links[id];
        if CancelledInQueue(l) then h
        else if ExpiresInQueue(l, h.clock) then
          h.(links := h.links[id := Move(l, ExpireQueued)], log := h.log + [QueueExpired(id, h.clock)])
        else
          h.(links := h.links[id := if command != Inspect then Move(l, Dispatch) else l],
             sessions := h.sessions[id := Session(command, rebuild && command == Inspect, l.run.status, l.run.result)])
    case Start(id) =>
      if id !in h.sessions || id !in h.links || !MayStart(h.links[id], h.clock) then h
      else h.(links := h.links[id := h.links[id].(startAuthorized := true)],
              log := h.log + [StartGranted(id, h.clock)])
    case Write(id, node) =>
      if id !in h.sessions || id !in h.links || !MayWrite(h.links[id], h.clock) then h
      else h.(log := h.log + [WriteGranted(id, node, h.clock)])
    case Break(id) => if id in h.sessions && id in h.links then Broken(h, id) else h
    case Abandon(id) => h.(sessions := h.sessions - {id})
    case Finish(id, events, report) =>
      if id !in h.sessions || id !in h.links then h
      else if LateSuccess(h.links[id], h.sessions[id], report, h.clock) then Broken(h, id)
      else
        var l := h.links[id];
        h.(links := h.links[id := Move(l, Batch(events, report, h.sessions[id].rebuild))],
           sessions := h.sessions - {id})
  }

  /** The sidecar failed or timed out: the outcome is unknown unless it was already final. */
  ghost function Broken(h: Host, id: string): Host
    requires Sound(h) && id in h.links
  {
    h.(links := h.links[id := Move(h.links[id], Fault)], sessions := h.sessions - {id})
  }

  const EmptyHost := Host(map[], map[], 0, [])

  // ---------------------------------------------------------------------
  // What every action keeps
  // ---------------------------------------------------------------------

  predicate Closes(e: Entry) {
    e.CancelAccepted? || e.QueueExpired?
  }

  predicate Grants(e: Entry) {
    e.StartGranted? || e.WriteGranted?
  }

  /** The log never shows a grant after a closure of the same request, nor a second start. */
  ghost predicate OrderOk(log: seq<Entry>) {
    forall i, j | 0 <= i < j < |log| && log[i].id == log[j].id ::
      && !(Closes(log[i]) && Grants(log[j]))
      && !(log[i].StartGranted? && log[j].StartGranted?)
  }

  ghost predicate EntryOk(h: Host, e: Entry) {
    && e.id in h.links
    && e.at <= h.clock
    && (Grants(e) ==> e.at < h.links[e.id].deadline)
    && (e.StartGranted? ==> h.links[e.id].startAuthorized)
    && (e.CancelAccepted? ==> h.links[e.id].cancelRequested)
    && (e.QueueExpired? ==> e.at >= h.links[e.id].deadline)
  }

  ghost predicate Inv(h: Host) {
    && Sound(h)
    && h.sessions.Keys <= h.links.Keys
    && |h.sessions| <= WORKER_SLOTS
    && OrderOk(h.log)
    && (forall i | 0 <= i < |h.log| :: EntryOk(h, h.log[i]))
    && (forall id <- h.sessions :: h.sessions[id].command != Inspect ==> h.links[id].run.status != Queued)
  }

  /** The step an action makes on a known request, if any. */
  ghost function StepOf(h: Host, a: Action, id: string): Option<Step>
    requires id in h.links
  {
    match a
    case Cancel(target) => if target == id then Some(CancelQueued) else None
    case Open(target, command, _) =>
      if target != id then None
      else if ExpiresInQueue(h.links[id], h.clock) then Some(ExpireQueued)
      else if command != Inspect then Some(Dispatch)
      else None
    case Break(target) => if target == id then Some(Fault) else None
    case Finish(target, events, report) =>
      if target != id || id !in h.sessions then None
      else if LateSuccess(h.links[id], h.sessions[id], report, h.clock) then Some(Fault)
      else Some(Batch(events, report, h.sessions[id].rebuild))
    case _ => None
  }

  /** An action either leaves a request's run alone, creates it fresh, or makes its one step. */
  ghost predicate RunMoves(h: Host, a: Action, id: string, after: map<string, Link>)
    requires Sound(h)
  {
    id in after ==>
      var run := after[id].run;
      if id in h.links
      then run == h.links[id].run || (StepOf(h, a, id).Some? && run == Apply(h.links[id].run, StepOf(h, a, id).value))
      else run == FreshRun
  }

  lemma RunAfter(h: Host, a: Action, id: string)
    requires Sound(h)
    ensures RunMoves(h, a, id, Do(h, a).links)
  {
    hide RunOk, Projection, Apply, Live, LateSuccess, ExpiresInQueue, CancelledInQueue, MayStart, MayWrite;
  }

  lemma DoKeepsSound(h: Host, a: Action)
    requires Sound(h)
    ensures Sound(Do(h, a))
  {
    forall id | id in Do(h, a).links
      ensures RunOk(Do(h, a).links[id].run)
    {
      RunAfter(h, a, id);
      FreshRunOk();
      if id in h.links && StepOf(h, a, id).Some? {
        StepKeepsRunOk(h.links[id].run, StepOf(h, a, id).value);
      }
    }
  }

  /** Requests are never forgotten; deadlines are fixed; flags and the clock only advance. */
  lemma OnlyForward(h: Host, a: Action, id: string)
    requires Sound(h) && id in h.links
    ensures id in Do(h, a).links && h.clock <= Do(h, a).clock
    ensures Do(h, a).links[id].deadline == h.links[id].deadline
    ensures h.links[id].startAuthorized ==> Do(h, a).links[id].startAuthorized
    ensures h.links[id].cancelRequested ==> Do(h, a).links[id].cancelRequested
  {
    hide RunOk, Projection, Apply, Live, LateSuccess, ExpiresInQueue, CancelledInQueue;
  }

  /** The entry an action appends to the log, if any. */
  ghost function EntryOf(h: Host, a: Action): Option<Entry>
    requires Sound(h)
  {
    var log := Do(h, a).log;
    if log == h.log then None else Some(log[|log| - 1])
  }

  lemma OneEntry(h: Host, a: Action)
    requires Sound(h)
    ensures EntryOf(h, a).None? ==> Do(h, a).log == h.log
    ensures EntryOf(h, a).Some? ==> Do(h, a).log == h.log + [EntryOf(h, a).value]
  {
    hide RunOk, Projection;
  }

  lemma NewEntryOk(h: Host, a: Action)
    requires Sound(h) && h.sessions.Keys <= h.links.Keys && EntryOf(h, a).Some?
    ensures EntryOk(Do(h, a), EntryOf(h, a).value)
  {
    hide RunOk, Projection;
  }

  /** A grant needs an open session, an uncancelled request and time left; a start also needs that none was given. */
  lemma GrantGuard(h: Host, a: Action)
    requires Sound(h) && EntryOf(h, a).Some? && Grants(EntryOf(h, a).value)
    ensures var e := EntryOf(h, a).value;
            && e.id in h.sessions && e.id in h.links
            && MayWrite(h.links[e.id], h.clock)
            && (e.StartGranted? ==> !h.links[e.id].startAuthorized)
  {
    hide RunOk, Projection;
  }

  lemma EntryKept(h: Host, a: Action, e: Entry)
    requires Sound(h) && EntryOk(h, e)
    ensures EntryOk(Do(h, a), e)
  {
    OnlyForward(h, a, e.id);
    hide Do, Sound;
  }

  /** A grant is logged only where no closure, and no start before a start, is logged for the request. */
  lemma NewEntryInOrder(h: Host, a: Action, before: Entry)
    requires Sound(h) && EntryOk(h, before) && EntryOf(h, a).Some? && before.id == EntryOf(h, a).value.id
    ensures var e := EntryOf(h, a).value;
            !(Closes(before) && Grants(e)) && !(before.StartGranted? && e.StartGranted?)
  {
    if Grants(EntryOf(h, a).value) {
      GrantGuard(h, a);
    }
    hide Do, Sound, EntryOf;
  }

  lemma DoKeepsOrder(h: Host, a: Action)
    requires Inv(h)
    ensures OrderOk(Do(h, a).log)
    ensures forall i | 0 <= i < |Do(h, a).log| :: EntryOk(Do(h, a), Do(h, a).log[i])
  {
    OneEntry(h, a);
    forall i | 0 <= i < |h.log|
      ensures EntryOk(Do(h, a), h.log[i])
    {
      EntryKept(h, a, h.log[i]);
    }
    if EntryOf(h, a).Some? {
      var e := EntryOf(h, a).value;
      NewEntryOk(h, a);
      forall i | 0 <= i < |h.log| && h.log[i].id == e.id
        ensures !(Closes(h.log[i]) && Grants(e)) && !(h.log[i].StartGranted? && e.StartGranted?)
      {
        NewEntryInOrder(h, a, h.log[i]);
      }
    }
    hide Sound, Do, EntryOf, EntryOk, OrderOk, Closes, Grants;
  }

  /** A request that has left the queue does not return to it. */
  lemma NeverRequeued(run: Run, step: Step)
    requires RunOk(run) && run.status != Queued
    ensures Apply(run, step).status != Queued
  {
    HostProjection.SoundTable(run);
    hide RunOk;
    if step.Batch? {
      BatchIsNotQueued(run, step.events, step.report, step.rebuild);
    }
  }

  /** A projected status is the one before, the initial running, or an event's. */
  lemma BatchIsNotQueued(run: Run, events: seq<Event>, report: Report, rebuild: bool)
    requires TableOk(run.events) && run.status != Queued
    ensures Projection(run, events, report, rebuild).Some? ==> Projection(run, events, report, rebuild).value.status != Queued
  {
    hide Steady, InsertAll, Rows, Elements, Coherent;
    var r := Projection(run, events, report, rebuild);
    if r.Some? {
      var t := r.value.events;
      assert forall k <- t :: EventStatus(t[k].status);
    }
  }

  lemma DrivenIsNotQueued(h: Host, a: Action, id: string)
    requires Inv(h) && id in Do(h, a).sessions && Do(h, a).sessions[id].command != Inspect && id in Do(h, a).links
    ensures Do(h, a).links[id].run.status != Queued
  {
    hide RunOk, Projection;
    if a.Open? && a.id == id && id !in h.sessions {
    } else {
      assert h.sessions[id] == Do(h, a).sessions[id];
      RunAfter(h, a, id);
      if StepOf(h, a, id).Some? {
        NeverRequeued(h.links[id].run, StepOf(h, a, id).value);
      }
    }
  }

  lemma SessionsAreLinked(h: Host, a: Action)
    requires Sound(h) && h.sessions.Keys <= h.links.Keys
    ensures Do(h, a).sessions.Keys <= Do(h, a).links.Keys
  {
    hide RunOk, Projection, Apply;
  }

  lemma DoKeepsSessions(h: Host, a: Action)
    requires Inv(h)
    ensures Do(h, a).sessions.Keys <= Do(h, a).links.Keys
    ensures |Do(h, a).sessions| <= WORKER_SLOTS
    ensures forall id <- Do(h, a).sessions ::
              Do(h, a).sessions[id].command != Inspect ==> Do(h, a).links[id].run.status != Queued
  {
    hide RunOk, Projection, Do, OrderOk, EntryOk;
    SessionsAreLinked(h, a);
    SlotsBound(h, a);
    forall id | id in Do(h, a).sessions && Do(h, a).sessions[id].command != Inspect
      ensures Do(h, a).links[id].run.status != Queued
    {
      DrivenIsNotQueued(h, a, id);
    }
  }

  lemma SlotsBound(h: Host, a: Action)
    requires Sound(h) && |h.sessions| <= WORKER_SLOTS
    ensures |Do(h, a).sessions| <= WORKER_SLOTS
  {
    hide RunOk, Projection;
    FewerSessions(h.sessions, Do(h, a).sessions);
  }

  lemma FewerSessions(s: map<string, Session>, t: map<string, Session>)
    ensures t.Keys <= s.Keys ==> |t| <= |s|
  {
    if t.Keys <= s.Keys {
      CardinalityMonotone(t.Keys, s.Keys);
    }
  }

  lemma {:induction false} CardinalityMonotone<T>(a: set<T>, b: set<T>)
    requires a <= b
    ensures |a| <= |b|
  {
    if a != {} {
      var x :| x in a;
      CardinalityMonotone(a - {x}, b - {x});
    }
  }

  lemma DoKeepsInv(h: Host, a: Action)
    requires Inv(h)
    ensures Inv(Do(h, a))
  {
    hide RunOk, Projection;
    DoKeepsSound(h, a);
    DoKeepsOrder(h, a);
    DoKeepsSessions(h, a);
  }

  // ---------------------------------------------------------------------
  // Safety over whole runs
  // ---------------------------------------------------------------------

  ghost function Exec(actions: seq<Action>): (h: Host)
    ensures Inv(h)
  {
    if actions == [] then EmptyHost
    else
      var h := Exec(actions[..|actions| - 1]);
      DoKeepsInv(h, actions[|actions| - 1]);
      Do(h, actions[|actions| - 1])
  }

  /**
   Over every interleaving of host calls and arbitrary sidecar messages: one
   start per request, no grant after the request was cancelled or expired in the
   queue, and none once the deadline has passed.
   */
  lemma GrantsAreSafe(actions: seq<Action>, i: nat, j: nat)
    requires j < |Exec(actions).log| && Grants(Exec(actions).log[j])
    ensures var h := Exec(actions); var log := h.log;
            && log[j].id in h.links && log[j].at < h.links[log[j].id].deadline
            && (i < j && log[i].id == log[j].id ==> !Closes(log[i]))
            && (i < |log| && i != j && log[i].id == log[j].id && log[j].StartGranted? ==> !log[i].StartGranted?)
  {
    assert EntryOk(Exec(actions), Exec(actions).log[j]);
  }

  // ---------------------------------------------------------------------
  // What an entitled request obtains
  // ---------------------------------------------------------------------

  ghost predicate Started(log: seq<Entry>, id: string) {
    exists i | 0 <= i < |log| :: log[i].StartGranted? && log[i].id == id
  }

  ghost predicate CancelledBy(log: seq<Entry>, id: string) {
    exists i | 0 <= i < |log| :: log[i].CancelAccepted? && log[i].id == id
  }

  /** The two marks of a request say what the log says of it. */
  ghost predicate MarksLogged(links: map<string, Link>, log: seq<Entry>) {
    forall id <- links ::
      (links[id].startAuthorized <==> Started(log, id)) && (links[id].cancelRequested <==> CancelledBy(log, id))
  }

  lemma LoggedOneMore(log: seq<Entry>, e: Entry, id: string)
    ensures Started(log + [e], id) <==> Started(log, id) || (e.StartGranted? && e.id == id)
    ensures CancelledBy(log + [e], id) <==> CancelledBy(log, id) || (e.CancelAccepted? && e.id == id)
  {
    var more := log + [e];
    assert more[|log|] == e && forall i | 0 <= i < |log| :: more[i] == log[i];
  }

  /** The request's marks are those it had, and the one an entry of the action sets. */
  ghost predicate MarkedBy(h: Host, a: Action, id: string, after: Link)
    requires Sound(h)
  {
    var (known, e) := (id in h.links, EntryOf(h, a));
    && (after.startAuthorized <==>
          (known && h.links[id].startAuthorized) || (e.Some? && e.value.StartGranted? && e.value.id == id))
    && (after.cancelRequested <==>
          (known && h.links[id].cancelRequested) || (e.Some? && e.value.CancelAccepted? && e.value.id == id))
  }

  /** Marks change together with the log, and in no other way. */
  lemma MarksMove(h: Host, a: Action, id: string)
    requires Sound(h) && id in Do(h, a).links
    ensures MarkedBy(h, a, id, Do(h, a).links[id])
  {
    hide RunOk, Projection, Apply, Live, LateSuccess, ExpiresInQueue, CancelledInQueue, MayStart, MayWrite, Terminal;
    if a.Cancel? || a.Start? {
      assert |Do(h, a).log| == |h.log| + 1 || Do(h, a) == h;
    }
  }

  lemma DoKeepsMarks(h: Host, a: Action)
    requires Inv(h) && MarksLogged(h.links, h.log)
    ensures MarksLogged(Do(h, a).links, Do(h, a).log)
  {
    OneEntry(h, a);
    hide RunOk, Do, EntryOf, OrderOk, Started, CancelledBy;
    forall id | id in Do(h, a).links
      ensures Do(h, a).links[id].startAuthorized <==> Started(Do(h, a).log, id)
      ensures Do(h, a).links[id].cancelRequested <==> CancelledBy(Do(h, a).log, id)
    {
      MarksMove(h, a, id);
      if EntryOf(h, a).Some? {
        LoggedOneMore(h.log, EntryOf(h, a).value, id);
      }
      if id !in h.links {
        UnknownIsUnlogged(h, id);
      }
    }
  }

  lemma UnknownIsUnlogged(h: Host, id: string)
    requires Inv(h) && id !in h.links
    ensures !Started(h.log, id) && !CancelledBy(h.log, id)
  {
    hide RunOk, OrderOk;
    assert forall i | 0 <= i < |h.log| :: EntryOk(h, h.log[i]);
  }

  lemma {:induction false} MarksAreLogged(actions: seq<Action>)
    ensures MarksLogged(Exec(actions).links, Exec(actions).log)
  {
    hide Do, Inv, MarksLogged;
    if actions == [] {
      NoMarks();
    } else {
      MarksAreLogged(actions[..|actions| - 1]);
      DoKeepsMarks(Exec(actions[..|actions| - 1]), actions[|actions| - 1]);
    }
  }

  lemma NoMarks()
    ensures MarksLogged(EmptyHost.links, EmptyHost.log)
  {
  }

  /**
   After any run: while a session of the request is open and its deadline lies ahead, a start is
   granted exactly when the log holds neither a start nor a cancellation of it, and a write exactly
   when it holds no cancellation of it.
   */
  lemma EntitledIsGranted(actions: seq<Action>, id: string, node: string)
    requires id in Exec(actions).sessions && id in Exec(actions).links
    requires Exec(actions).clock < Exec(actions).links[id].deadline
    ensures var h := Exec(actions);
            Exec(actions + [Start(id)]).log
            == if Started(h.log, id) || CancelledBy(h.log, id) then h.log else h.log + [StartGranted(id, h.clock)]
    ensures var h := Exec(actions);
            Exec(actions + [Write(id, node)]).log
            == if CancelledBy(h.log, id) then h.log else h.log + [WriteGranted(id, node, h.clock)]
  {
    MarksAreLogged(actions);
    ExecAppend(actions, Start(id));
    ExecAppend(actions, Write(id, node));
    hide RunOk, Projection, Exec, OrderOk, EntryOk;
  }

  /** A new request is admitted exactly while fewer than four are open. It then waits, unmarked and without events, until its deadline. */
  lemma AdmittedExactly(h: Host, id: string, fingerprint: string, timeout: nat)
    requires Inv(h)
    ensures var after := Do(h, Accept(id, fingerprint, timeout));
            && after.log == h.log && after.sessions == h.sessions
            && (forall other <- h.links :: other in after.links && after.links[other] == h.links[other])
            && (after.links != h.links <==> id !in h.links && |Live(h.links)| < 4)
            && (id in after.links && id !in h.links ==>
                  && after.links.Keys == h.links.Keys + {id}
                  && var l := after.links[id];
                     && l.fingerprint == fingerprint && l.deadline == h.clock + timeout && !l.startAuthorized && !l.cancelRequested
                     && l.run.status == Queued && l.run.cursor == 0 && l.run.events == map[])
  {
    hide RunOk, Projection, Live, OrderOk, EntryOk;
  }

  /** A cancellation is taken exactly of a request that is not final. It closes a queued one at once and leaves the status of any other. */
  lemma CancellationIsTaken(h: Host, id: string)
    requires Inv(h) && id in h.links
    ensures var (before, after) := (h.links[id].run.status, Do(h, Cancel(id)));
            && CancelledBy(after.log, id) == (CancelledBy(h.log, id) || !Terminal(before))
            && StatusAfter(h, Cancel(id), id) == if before == Queued then Cancelled else before
  {
    hide RunOk, Projection, CancelledBy;
    LoggedOneMore(h.log, CancelAccepted(id, h.clock), id);
  }

  /** What keeps a driver from a request: no slot, another driver, a cancellation before its first event, or none by its deadline. */
  predicate Undrivable(h: Host, id: string)
    requires id in h.links
  {
    var run := h.links[id].run;
    || id in h.sessions || |h.sessions| == WORKER_SLOTS
    || (run.cursor == 0 && (run.status == Cancelled || (run.status in {Queued, Exhausted} && h.clock >= h.links[id].deadline)))
  }

  /** Driving opens a session exactly where nothing keeps it, and takes a request out of the queue unless it only inspects it. */
  lemma DrivenUnlessKept(h: Host, id: string, command: Command, rebuild: bool)
    requires Inv(h) && id in h.links
    ensures var (before, after) := (h.links[id].run.status, Do(h, Open(id, command, rebuild)));
            && (after.sessions == h.sessions <==> Undrivable(h, id))
            && (!Undrivable(h, id) ==>
                  && after.sessions.Keys == h.sessions.Keys + {id} && after.sessions[id].command == command
                  && (after.sessions[id].rebuild <==> rebuild && command == Inspect)
                  && StatusAfter(h, Open(id, command, rebuild), id)
                     == if before == Queued && command != Inspect then Running else before)
  {
    hide RunOk, Projection;
  }

  /** A request that waited past its deadline is exhausted when a driver comes for it, and the log says so. */
  lemma ExpiresInTheQueue(h: Host, id: string, command: Command, rebuild: bool)
    requires Inv(h) && id in h.links && id !in h.sessions && |h.sessions| < WORKER_SLOTS
    requires h.links[id].run.status == Queued && h.clock >= h.links[id].deadline
    ensures h.links[id].run.cursor == 0 ==>
              && StatusAfter(h, Open(id, command, rebuild), id) == Exhausted
              && Do(h, Open(id, command, rebuild)).log == h.log + [QueueExpired(id, h.clock)]
  {
    hide RunOk, Projection;
  }

  /** A success that comes after the deadline counts only if it is the one the session was opened with. */
  predicate InTime(h: Host, id: string, report: Report)
    requires id in h.links && id in h.sessions
  {
    report.status == Succeeded && h.clock >= h.links[id].deadline ==>
      h.sessions[id].knownStatus == Succeeded && h.sessions[id].knownResult == report
  }

  lemma SessionEnds(h: Host, a: Action)
    requires Sound(h) && a.Finish? && a.id in h.sessions && a.id in h.links
    ensures Do(h, a).sessions == h.sessions - {a.id}
  {
    hide RunOk, Projection, Apply, LateSuccess;
  }

  /** A failed sidecar makes an open run unknown and leaves a final one; its session ends. */
  lemma FailureIsUnknown(h: Host, id: string)
    requires Inv(h) && id in h.links && id in h.sessions
    ensures Do(h, Break(id)).sessions == h.sessions - {id} && Do(h, Break(id)).log == h.log
    ensures StatusAfter(h, Break(id), id)
            == if Terminal(h.links[id].run.status) then h.links[id].run.status else Unknown
  {
    hide RunOk, Projection;
  }

  /** Any result in time is projected or leaves the run alone; a late success makes an open run unknown. The session ends. */
  lemma ResultIsProjected(h: Host, id: string, events: seq<Event>, report: Report)
    requires Inv(h) && id in h.links && id in h.sessions && !h.sessions[id].rebuild
    ensures Do(h, Finish(id, events, report)).sessions == h.sessions - {id}
    ensures StatusAfter(h, Finish(id, events, report), id)
            == if InTime(h, id, report) then (if Accepted(h.links[id].run, events, report) then report.status else h.links[id].run.status)
               else if Terminal(h.links[id].run.status) then h.links[id].run.status else Unknown
  {
    FinishedStatus(h, Finish(id, events, report), id);
    LinkTable(h, id);
    StatusMoves(h.links[id].run, events, report);
    SessionEnds(h, Finish(id, events, report));
    hide RunOk, Projection, Accepted, Do, Apply, StatusAfter, OrderOk, EntryOk;
  }

  /** The sidecar of a rebuild of this finished request ends with events and a report that reopen it. */
  ghost predicate Revives(h: Host, a: Action, id: string) {
    && a.Finish? && a.id == id && id in h.sessions && id in h.links && h.sessions[id].rebuild
    && Terminal(h.links[id].run.status) && Reopening(a.events, a.report)
  }

  ghost function StatusAfter(h: Host, a: Action, id: string): Status
    requires Sound(h) && id in h.links
  {
    OnlyForward(h, a, id);
    Do(h, a).links[id].run.status
  }

  lemma FinishedStatus(h: Host, a: Action, id: string)
    requires Sound(h) && id in h.links && a.Finish? && a.id == id && id in h.sessions
    ensures var late := LateSuccess(h.links[id], h.sessions[id], a.report, h.clock);
            StatusAfter(h, a, id)
            == Apply(h.links[id].run, if late then Fault else Batch(a.events, a.report, h.sessions[id].rebuild)).status
  {
    hide RunOk, Projection, LateSuccess;
    OnlyForward(h, a, id);
  }

  lemma RebuildEnds(h: Host, a: Action, id: string)
    requires Sound(h) && id in h.links && Terminal(h.links[id].run.status)
    requires a.Finish? && a.id == id && id in h.sessions && h.sessions[id].rebuild
    ensures !Terminal(StatusAfter(h, a, id)) <==> Reopening(a.events, a.report)
  {
    var run := h.links[id].run;
    HostProjection.SoundTable(run);
    FinishedStatus(h, a, id);
    RebuildReopens(run, a.events, a.report);
    hide Do, StatusAfter, RunOk, Reopening, Projection;
  }

  /** A final status changes in no other way than by a rebuild that reopens the request, and by that it does change. */
  lemma FinalUnlessRebuilt(h: Host, a: Action, id: string)
    requires Inv(h) && id in h.links && Terminal(h.links[id].run.status)
    ensures !Terminal(StatusAfter(h, a, id)) <==> Revives(h, a, id)
    ensures !(a.Finish? && a.id == id && id in h.sessions && h.sessions[id].rebuild) ==>
              StatusAfter(h, a, id) == h.links[id].run.status
  {
    OnlyForward(h, a, id);
    RunAfter(h, a, id);
    hide RunOk, Reopening, Do, Apply;
    if a.Finish? && a.id == id && id in h.sessions && h.sessions[id].rebuild {
      RebuildEnds(h, a, id);
    } else if StepOf(h, a, id).Some? {
      NothingRegresses(h.links[id].run, StepOf(h, a, id).value);
    }
  }

  predicate Admits(h: Host, a: Action) {
    a.Accept? && a.id !in h.links && |Live(h.links)| < ADMISSION_LIMIT
  }

  /** A request is live after an action because it was, because it was just admitted, or because it was revived. */
  lemma WhyLive(h: Host, a: Action, id: string)
    requires Inv(h) && id in Live(Do(h, a).links) && !Revives(h, a, id)
    ensures id in Live(h.links) || (Admits(h, a) && a.id == id)
  {
    if id in h.links {
      hide RunOk, Projection, Do, Revives;
      if Terminal(h.links[id].run.status) {
        FinalUnlessRebuilt(h, a, id);
      }
    } else {
      hide RunOk, Projection, Revives, Apply;
    }
  }

  lemma LiveGrowsByAdmissionOrRevival(h: Host, a: Action)
    requires Inv(h) && forall id :: !Revives(h, a, id)
    ensures |Live(Do(h, a).links)| <= |Live(h.links)| || |Live(Do(h, a).links)| <= ADMISSION_LIMIT
  {
    hide RunOk, Do, Revives, Live, OrderOk, EntryOk;
    var admitted := if Admits(h, a) then {a.id} else {};
    forall id | id in Live(Do(h, a).links)
      ensures id in Live(h.links) + admitted
    {
      WhyLive(h, a, id);
    }
    CardinalityMonotone(Live(Do(h, a).links), Live(h.links) + admitted);
  }

  lemma RevivalAddsOne(h: Host, a: Action, id: string)
    requires Inv(h) && Revives(h, a, id)
    ensures Live(Do(h, a).links) == Live(h.links) + {id} && id !in Live(h.links)
  {
    hide RunOk, Projection;
    FinalUnlessRebuilt(h, a, id);
    OnlyForward(h, a, id);
    assert forall other <- h.links | other != id :: other in Do(h, a).links && Do(h, a).links[other] == h.links[other];
    assert Do(h, a).links.Keys == h.links.Keys;
  }

  /** The limit is broken in one way only: four are live and a rebuild reopens a finished request. */
  lemma LimitBreaksByRevivalOnly(h: Host, a: Action)
    requires Inv(h) && |Live(h.links)| <= ADMISSION_LIMIT
    ensures |Live(Do(h, a).links)| > ADMISSION_LIMIT
            <==> |Live(h.links)| == ADMISSION_LIMIT && exists id :: Revives(h, a, id)
  {
    hide RunOk, Do, Revives, Live;
    if exists id :: Revives(h, a, id) {
      var id :| Revives(h, a, id);
      RevivalAddsOne(h, a, id);
    } else {
      LiveGrowsByAdmissionOrRevival(h, a);
    }
  }

  ghost predicate NeverRevives(actions: seq<Action>) {
    forall n, id | 0 <= n < |actions| :: !Revives(Exec(actions[..n]), actions[n], id)
  }

  lemma ExecAppend(actions: seq<Action>, a: Action)
    ensures Exec(actions + [a]) == Do(Exec(actions), a)
  {
    hide Do, Sound, OrderOk, EntryOk;
    assert (actions + [a])[..|actions|] == actions;
  }

  /** At most four requests are live in every run in which no rebuild reopens a finished one. */
  lemma {:induction false} AdmissionBound(actions: seq<Action>)
    requires NeverRevives(actions)
    ensures |Live(Exec(actions).links)| <= ADMISSION_LIMIT
  {
    hide Do, Sound, OrderOk, EntryOk, Revives;
    if actions == [] {
      assert Live(EmptyHost.links) == {};
    } else {
      var n := |actions| - 1;
      var before, a := actions[..n], actions[n];
      assert actions == before + [a];
      forall m, id | 0 <= m < |before|
        ensures !Revives(Exec(before[..m]), before[m], id)
      {
        assert before[..m] == actions[..m];
        assert !Revives(Exec(actions[..m]), actions[m], id);
      }
      AdmissionBound(before);
      assert forall id :: !Revives(Exec(before), a, id) by {
        assert forall id :: !Revives(Exec(actions[..n]), actions[n], id);
      }
      LiveGrowsByAdmissionOrRevival(Exec(before), a);
      ExecAppend(before, a);
    }
  }

  /** The action opens an inspection of the request while it is still queued. */
  predicate InspectsQueued(h: Host, a: Action, id: string) {
    a.Open? && a.id == id && a.command == Inspect && id in h.links && h.links[id].run.status == Queued
  }

  ghost predicate UninspectedInQueue(actions: seq<Action>, id: string) {
    forall n | 0 <= n < |actions| :: !InspectsQueued(Exec(actions[..n]), actions[n], id)
  }

  ghost predicate Unserved(log: seq<Entry>, id: string) {
    forall i | 0 <= i < |log| :: Grants(log[i]) ==> log[i].id != id
  }

  ghost predicate WaitsUnserved(h: Host, id: string) {
    id !in h.links || h.links[id].run.status == Queued ==> id !in h.sessions && Unserved(h.log, id)
  }

  lemma WaitingStep(h: Host, a: Action, id: string)
    requires Inv(h) && WaitsUnserved(h, id) && !InspectsQueued(h, a, id)
    ensures WaitsUnserved(Do(h, a), id)
  {
    hide RunOk, Projection;
    OneEntry(h, a);
    if id in h.links {
      OnlyForward(h, a, id);
      RunAfter(h, a, id);
      if h.links[id].run.status != Queued && StepOf(h, a, id).Some? {
        NeverRequeued(h.links[id].run, StepOf(h, a, id).value);
      }
    }
    if EntryOf(h, a).Some? && Grants(EntryOf(h, a).value) {
      GrantGuard(h, a);
    }
  }

  /** While a request waits in the queue uninspected it has no session and was granted nothing. */
  lemma {:induction false} QueuedIsUnserved(actions: seq<Action>, id: string)
    requires UninspectedInQueue(actions, id)
    ensures WaitsUnserved(Exec(actions), id)
  {
    hide Do, OrderOk, EntryOk, InspectsQueued, Sound;
    if actions != [] {
      var n := |actions| - 1;
      var before, a := actions[..n], actions[n];
      assert actions == before + [a];
      forall m | 0 <= m < |before|
        ensures !InspectsQueued(Exec(before[..m]), before[m], id)
      {
        assert before[..m] == actions[..m];
        assert !InspectsQueued(Exec(actions[..m]), actions[m], id);
      }
      QueuedIsUnserved(before, id);
      assert !InspectsQueued(Exec(actions[..n]), actions[n], id);
      WaitingStep(Exec(before), a, id);
      ExecAppend(before, a);
    }
  }

  /** The action closes the request in the queue: it is cancelled there, or found expired there. */
  ghost predicate ClosesInQueue(h: Host, a: Action, id: string)
    requires Sound(h)
  {
    && id in h.links && h.links[id].run.status == Queued
    && EntryOf(h, a).Some? && Closes(EntryOf(h, a).value) && EntryOf(h, a).value.id == id
  }

  ghost predicate ClosedUnserved(log: seq<Entry>, id: string) {
    && Unserved(log, id)
    && exists i | 0 <= i < |log| :: Closes(log[i]) && log[i].id == id
  }

  lemma ClosingStep(h: Host, a: Action, id: string)
    requires Inv(h) && ClosesInQueue(h, a, id) && WaitsUnserved(h, id)
    ensures ClosedUnserved(Do(h, a).log, id)
  {
    hide RunOk, Projection;
    OneEntry(h, a);
    var log := Do(h, a).log;
    assert log[|h.log|] == EntryOf(h, a).value;
  }

  lemma ClosedStep(h: Host, a: Action, id: string)
    requires Inv(h) && ClosedUnserved(h.log, id)
    ensures ClosedUnserved(Do(h, a).log, id)
  {
    hide RunOk, Projection;
    OneEntry(h, a);
    DoKeepsInv(h, a);
    var i :| 0 <= i < |h.log| && Closes(h.log[i]) && h.log[i].id == id;
    var log := Do(h, a).log;
    assert log[i] == h.log[i];
    forall j | 0 <= j < |log| && Grants(log[j])
      ensures log[j].id != id
    {
      assert j == |h.log| || log[j] == h.log[j];
    }
  }

  ghost predicate GrantedNow(h: Host, a: Action, id: string)
    requires Sound(h)
  {
    EntryOf(h, a).Some? && Grants(EntryOf(h, a).value) && EntryOf(h, a).value.id == id
  }

  /** A queued request can be granted something at this moment exactly when an inspection of it is open, and it is in time and not cancelled. */
  lemma QueuedIsServedByInspectionOnly(h: Host, id: string)
    requires Inv(h) && id in h.links && h.links[id].run.status == Queued
    ensures (exists a :: GrantedNow(h, a, id)) <==> id in h.sessions && MayWrite(h.links[id], h.clock)
    ensures id in h.sessions ==> h.sessions[id].command == Inspect
  {
    hide RunOk, Projection;
    if id in h.sessions && MayWrite(h.links[id], h.clock) {
      WriteIsLogged(h, id, "n");
      assert GrantedNow(h, Write(id, "n"), id);
    }
    forall a | GrantedNow(h, a, id)
      ensures id in h.sessions && MayWrite(h.links[id], h.clock)
    {
      GrantGuard(h, a);
    }
  }

  lemma WriteIsLogged(h: Host, id: string, node: string)
    requires Sound(h) && id in h.links && id in h.sessions && MayWrite(h.links[id], h.clock)
    ensures EntryOf(h, Write(id, node)) == Some(WriteGranted(id, node, h.clock))
  {
    hide RunOk, Projection;
    assert |Do(h, Write(id, node)).log| == |h.log| + 1;
  }

  /**
   A request cancelled or expired while queued, and never inspected there, is
   granted nothing in the whole run, before or after.
   */
  lemma {:induction false} ClosedInQueueIsNeverServed(before: seq<Action>, a: Action, later: seq<Action>, id: string)
    requires UninspectedInQueue(before, id) && ClosesInQueue(Exec(before), a, id)
    ensures ClosedUnserved(Exec(before + [a] + later).log, id)
    decreases |later|
  {
    hide Do, Sound, OrderOk, EntryOk, ClosesInQueue, ClosedUnserved;
    if later == [] {
      assert before + [a] + later == before + [a];
      QueuedIsUnserved(before, id);
      ClosingStep(Exec(before), a, id);
      ExecAppend(before, a);
    } else {
      var less, last := later[..|later| - 1], later[|later| - 1];
      assert before + [a] + later == (before + [a] + less) + [last];
      ClosedInQueueIsNeverServed(before, a, less, id);
      ClosedStep(Exec(before + [a] + less), last, id);
      ExecAppend(before + [a] + less, last);
    }
  }

  // ---------------------------------------------------------------------
  // The host's tables
  // ---------------------------------------------------------------------

  datatype Admission = Admitted | Duplicate | Conflict | Busy

  /** The rows the transactions update in place; `log` is the record of what they granted and closed. */
  class HostStore {
    var links: map<string, Link>
    var sessions: map<string, Session>
    var clock: int
    ghost var log: seq<Entry>

    ghost function Snapshot(): Host
      reads this
    {
      Host(links, sessions, clock, log)
    }

    constructor ()
      ensures Snapshot() == EmptyHost
    {
      links, sessions, clock, log := map[], map[], 0, [];
    }

    method AcceptRequest(id: string, fingerprint: string, timeout: nat) returns (r: Admission)
      requires Sound(Snapshot())
      modifies this
      ensures Snapshot() == Do(old(Snapshot()), Accept(id, fingerprint, timeout))
      ensures r == Admitted <==> id !in old(links) && id in links
      ensures r == Duplicate <==> id in old(links) && old(links)[id].fingerprint == fingerprint
      ensures r == Busy <==> id !in old(links) && |Live(old(links))| >= ADMISSION_LIMIT
    {
      hide RunOk, Projection;
      if id in links {
        if links[id].fingerprint != fingerprint {
          return Conflict;
        }
        return Duplicate;
      }
      var count := |Live(links)|;
      if count >= 4 {
        return Busy;
      }
      var run := Run(map[], 0, Queued, Report(None, Unregistered(""), ""));
      links := links[id := Link(fingerprint, run, clock + timeout, false, false)];
      return Admitted;
    }

    method CancelRequest(id: string)
      requires Sound(Snapshot())
      modifies this
      ensures Snapshot() == Do(old(Snapshot()), Cancel(id))
    {
      hide RunOk, Projection;
      if id in links && !Terminal(links[id].run.status) {
        var row := links[id];
        links := links[id := row.(cancelRequested := true)];
        log := log + [CancelAccepted(id, clock)];
        if row.run.status == Queued {
          links := links[id := links[id].(run := row.run.(status := Cancelled))];
        }
      }
    }

    /** The transaction at the start of `drive`; afterwards a session is open unless the request is finished here. */
    method Drive(id: string, command: Command, rebuild: bool)
      requires Sound(Snapshot())
      modifies this
      ensures Snapshot() == Do(old(Snapshot()), Open(id, command, rebuild))
    {
      hide RunOk, Projection;
      if id !in links || id in sessions || |sessions| >= 2 {
        return;
      }
      var row := links[id];
      if row.run.status == Cancelled && row.run.cursor == 0 {
        return;
      }
      if (row.run.status == Queued || row.run.status == Exhausted) && row.run.cursor == 0 && clock >= row.deadline {
        links := links[id := row.(run := row.run.(status := Exhausted))];
        log := log + [QueueExpired(id, clock)];
        return;
      }
      if command != Inspect && row.run.status == Queued {
        links := links[id := row.(run := row.run.(status := Running))];
      }
      sessions := sessions[id := Session(command, rebuild && command == Inspect, row.run.status, row.run.result)];
    }

    /** Answer a sidecar's `start` message. */
    method AuthorizeStart(id: string) returns (allowed: bool)
      requires Sound(Snapshot()) && id in sessions && id in links
      modifies this
      ensures Snapshot() == Do(old(Snapshot()), Start(id))
      ensures allowed <==> MayStart(old(links)[id], clock)
    {
      hide RunOk, Projection;
      var current := links[id];
      allowed := !current.startAuthorized && !current.cancelRequested && clock < current.deadline;
      if allowed {
        links := links[id := current.(startAuthorized := true)];
        log := log + [StartGranted(id, clock)];
      }
    }

    /** Answer a sidecar's `write` message: the effect is applied only when this returns true. */
    method AuthorizeWrite(id: string, node: string) returns (allowed: bool)
      requires Sound(Snapshot()) && id in sessions && id in links
      modifies this
      ensures Snapshot() == Do(old(Snapshot()), Write(id, node))
      ensures allowed <==> MayWrite(links[id], clock)
    {
      hide RunOk, Projection;
      var current := links[id];
      if current.cancelRequested || clock >= current.deadline {
        return false;
      }
      log := log + [WriteGranted(id, node, clock)];
      allowed := true;
    }

    method SidecarFailed(id: string)
      requires Sound(Snapshot()) && id in sessions && id in links
      modifies this
      ensures Snapshot() == Do(old(Snapshot()), Break(id))
    {
      hide RunOk, Projection;
      var row := links[id];
      if !Terminal(row.run.status) {
        links := links[id := row.(run := row.run.(status := Unknown))];
      }
      sessions := sessions - {id};
    }

    /** The sidecar's final message: a late success is a failure, anything else is projected or rolled back. */
    method SidecarFinished(id: string, events: seq<Event>, report: Report)
      requires Sound(Snapshot()) && id in sessions && id in links
      modifies this
      ensures Snapshot() == Do(old(Snapshot()), Finish(id, events, report))
    {
      hide RunOk, TableOk, Projection;
      LinkTable(Snapshot(), id);
      var session, row := sessions[id], links[id];
      if report.status == Succeeded && clock >= row.deadline {
        var knownSuccess := session.knownStatus == Succeeded && session.knownResult == report;
        if !knownSuccess {
          SidecarFailed(id);
          return;
        }
      }
      var projected := ProjectRun(row.run, events, report, session.rebuild);
      if projected.Some? {
        links := links[id := row.(run := projected.value)];
      }
      sessions := sessions - {id};
    }
  }

  // ---------------------------------------------------------------------
  // The two provisos above are needed
  // ---------------------------------------------------------------------

  lemma ExecNothing()
    ensures Exec([]) == EmptyHost && Live(EmptyHost.links) == {}
  {
  }

  lemma Accepting(h: Host, id: string)
    requires Sound(h) && id !in h.links && |Live(h.links)| < ADMISSION_LIMIT
    ensures Do(h, Accept(id, id, 60)) == h.(links := h.links[id := Link(id, FreshRun, h.clock + 60, false, false)])
    ensures Live(Do(h, Accept(id, id, 60)).links) == Live(h.links) + {id}
  {
    hide RunOk, Projection, Apply;
    OneMoreLive(h.links, id, Link(id, FreshRun, h.clock + 60, false, false));
    hide Live, Sound;
  }

  lemma OneMoreLive(links: map<string, Link>, id: string, l: Link)
    requires id !in links && IsLive(l)
    ensures Live(links[id := l]) == Live(links) + {id}
  {
  }

  /** An inspection of a queued request can obtain its start, and the cancellation that follows still finds it queued. */
  lemma InspectionServesQueuedRequest(id: string)
    ensures var h := Exec([] + [Accept(id, id, 60)] + [Open(id, Inspect, false)] + [Start(id)] + [Cancel(id)]);
            && h.log == [StartGranted(id, 0), CancelAccepted(id, 0)]
            && id in h.links && CancelledInQueue(h.links[id])
  {
    hide RunOk, Exec, OrderOk, EntryOk;
    ExecNothing();
    Accepting(EmptyHost, id);
    ExecAppend([], Accept(id, id, 60));
    var accepted := [] + [Accept(id, id, 60)];
    var h := Exec(accepted);
    assert h == Host(map[id := Link(id, FreshRun, 60, false, false)], map[], 0, []);
    ExecAppend(accepted, Open(id, Inspect, false));
    ExecAppend(accepted + [Open(id, Inspect, false)], Start(id));
    ExecAppend(accepted + [Open(id, Inspect, false)] + [Start(id)], Cancel(id));
    InspectStartCancel(h, id);
  }

  lemma InspectStartCancel(h: Host, id: string)
    requires Sound(h) && h == Host(map[id := Link(id, FreshRun, 60, false, false)], map[], 0, [])
    ensures var h1 := Do(h, Open(id, Inspect, false));
            && Sound(h1)
            && var h2 := Do(h1, Start(id));
            && Sound(h2)
            && var h3 := Do(h2, Cancel(id));
            && h3.log == [StartGranted(id, 0), CancelAccepted(id, 0)]
            && id in h3.links && CancelledInQueue(h3.links[id])
  {
    hide RunOk, Projection;
    var h1 := Do(h, Open(id, Inspect, false));
    assert h1 == h.(sessions := map[id := Session(Inspect, false, Queued, FreshRun.result)]);
    DoKeepsSound(h, Open(id, Inspect, false));
    DoKeepsSound(h1, Start(id));
  }

  function FirstEvent(status: Status): Event {
    Event(Some(HOST_EVENT_VERSION), Some(1), Some("e1"), status, "")
  }

  lemma FirstBatch(run: Run, status: Status, rebuild: bool)
    requires rebuild || (run.events == map[] && run.cursor == 0 && run.status == Running)
    requires TableOk(run.events) && EventStatus(status)
    ensures var report := Report(Some(1), status, "");
            Projection(run, [FirstEvent(status)], report, rebuild) == Some(Run(map[1 := FirstEvent(status)], 1, status, report))
  {
    var none: Table := map[];
    var e := FirstEvent(status);
    var t: Table := map[1 := e];
    assert TableOk(none) && TableOk(t);
    assert Rows(none) + Elements([e]) == {e};
    assert Coherent({e});
    assert Rows(t) == {e};
    RowsDetermineTable(InsertAll(none, [e]).value, t);
    TopIsUnique(t, 0, 1);
  }

  lemma LinkTable(h: Host, id: string)
    requires Sound(h) && id in h.links
    ensures TableOk(h.links[id].run.events)
  {
    HostProjection.SoundTable(h.links[id].run);
  }

  lemma FinishesFirst(h: Host, id: string, status: Status)
    requires Sound(h) && id in h.links && id in h.sessions && h.clock < h.links[id].deadline && EventStatus(status)
    requires h.sessions[id].rebuild || h.links[id].run == FreshRun.(status := Running)
    ensures var h2 := Do(h, Finish(id, [FirstEvent(status)], Report(Some(1), status, "")));
            && h2.sessions == h.sessions - {id} && h2.clock == h.clock
            && id in h2.links && h2.links == h.links[id := h2.links[id]]
            && h2.links[id].deadline == h.links[id].deadline
            && h2.links[id].run.status == status && h2.links[id].run.cursor == 1
  {
    hide RunOk, TableOk, Projection;
    LinkTable(h, id);
    FirstBatch(h.links[id].run, status, h.sessions[id].rebuild);
  }

  lemma OpensFor(h: Host, id: string, command: Command) returns (h1: Host)
    requires Inv(h) && id in h.links && h.sessions == map[] && h.clock < h.links[id].deadline
    requires if command == Inspect then h.links[id].run.cursor == 1 else h.links[id].run == FreshRun
    ensures h1 == Do(h, Open(id, command, true)) && Sound(h1)
    ensures h1.sessions.Keys == {id} && h1.sessions[id].rebuild == (command == Inspect)
    ensures h1.clock == h.clock
    ensures h1.links == h.links[id := h.links[id].(run := if command == Inspect then h.links[id].run else FreshRun.(status := Running))]
  {
    hide RunOk, Projection;
    h1 := Do(h, Open(id, command, true));
    DoKeepsSound(h, Open(id, command, true));
  }

  predicate Distinct(ids: seq<string>) {
    forall i, j | 0 <= i < j < |ids| :: ids[i] != ids[j]
  }

  /** A finished request that a rebuild reopens can be the fifth live one, whatever the five are called. */
  lemma RebuildExceedsAdmission(ids: seq<string>)
    requires |ids| == ADMISSION_LIMIT + 1 && Distinct(ids)
    ensures exists actions :: |Live(Exec(actions).links)| == ADMISSION_LIMIT + 1
  {
    hide Do, RunOk, Exec, OrderOk, EntryOk, Sound;
    var id := ids[0];
    ExecNothing();
    Accepting(EmptyHost, id);
    ExecAppend([], Accept(id, id, 60));
    var accepted := [] + [Accept(id, id, 60)];
    var failed := DrivenOnce(accepted, id, Recover, Failed);
    assert Live(Exec(failed).links) == {};
    var full := AdmitFour(failed, ids);
    var reopened := DrivenOnce(full, id, Inspect, Running);
    assert Live(Exec(reopened).links) == Live(Exec(full).links) + {id};
  }

  lemma DrivenOnce(actions: seq<Action>, id: string, command: Command, status: Status) returns (driven: seq<Action>)
    requires var h := Exec(actions);
             && id in h.links && h.sessions == map[] && h.clock < h.links[id].deadline && EventStatus(status)
             && if command == Inspect then h.links[id].run.cursor == 1 else h.links[id].run == FreshRun
    ensures var h, h2 := Exec(actions), Exec(driven);
            && h2.sessions == map[] && h2.clock == h.clock
            && id in h2.links && h2.links == h.links[id := h2.links[id]]
            && h2.links[id].deadline == h.links[id].deadline
            && h2.links[id].run.status == status && h2.links[id].run.cursor == 1
  {
    hide Do, RunOk, Exec, OrderOk, EntryOk, Sound;
    var finish := Finish(id, [FirstEvent(status)], Report(Some(1), status, ""));
    var h1 := OpensFor(Exec(actions), id, command);
    FinishesFirst(h1, id, status);
    ExecAppend(actions, Open(id, command, true));
    ExecAppend(actions + [Open(id, command, true)], finish);
    driven := actions + [Open(id, command, true)] + [finish];
  }

  lemma AdmitFour(start: seq<Action>, ids: seq<string>) returns (full: seq<Action>)
    requires |ids| == ADMISSION_LIMIT + 1 && Distinct(ids)
    requires Exec(start).links.Keys == {ids[0]} && Live(Exec(start).links) == {}
    ensures |Live(Exec(full).links)| == ADMISSION_LIMIT && ids[0] !in Live(Exec(full).links)
    ensures ids[0] in Exec(full).links && Exec(full).links[ids[0]] == Exec(start).links[ids[0]]
    ensures Exec(full).sessions == Exec(start).sessions && Exec(full).clock == Exec(start).clock
  {
    hide Do, RunOk, Exec, OrderOk, EntryOk, Sound;
    full := start;
    for n := 0 to ADMISSION_LIMIT
      invariant forall id <- Exec(full).links :: exists k | 0 <= k <= n :: id == ids[k]
      invariant ids[0] in Exec(full).links && Exec(full).links[ids[0]] == Exec(start).links[ids[0]]
      invariant Exec(full).sessions == Exec(start).sessions && Exec(full).clock == Exec(start).clock
      invariant |Live(Exec(full).links)| == n && ids[0] !in Live(Exec(full).links)
    {
      var id := ids[n + 1];
      Accepting(Exec(full), id);
      ExecAppend(full, Accept(id, id, 60));
      full := full + [Accept(id, id, 60)];
    }
  }
}
