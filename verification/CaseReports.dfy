/**
 Case reports: drafts, review, approval and supersession.  A request on a report is one immediate
 transaction; a new report takes its number from a read made before its transaction begins, and the
 unique key refuses a number already taken.  What freezing a body, checking it and digesting the
 current sources yield is input.
 Report, version and event ids are positions in their tables; an approval's time is the position
 of its event.
 */
module CaseReports {
  import opened Arithmetic
  import opened Wrappers

  datatype Status = Draft | InReview | Returned | Approved | Voided

  datatype Report = Report(
    caseId: nat, version: nat, status: Status,
    frozen: Option<nat>, approvedVersion: Option<nat>, contentHash: string, sourceHash: string,
    approvedAt: Option<nat>, supersededBy: Option<nat>)

  /** A frozen body; it is never changed once written. */
  datatype Version = Version(report: nat, contentHash: string, sourceHash: string)

  datatype Event = Event(report: nat, source: Option<Status>, target: Status)

  datatype Archive = Archive(reports: seq<Report>, versions: seq<Version>, events: seq<Event>)

  /** What the outside world answers while a request runs. `None` stands for a raised error; `highest` was read earlier. */
  datatype Request =
    | Create(caseId: nat, accepted: bool, highest: nat)
    | Submit(id: nat, allowed: bool, freeze: Option<(string, string)>)
    | Return(id: nat, allowed: bool, reasonGiven: bool)
    | Approve(id: nat, allowed: bool, bodyIntact: bool, currentSource: Option<string>, sheetStale: bool)
    | Void(id: nat, allowed: bool)

  datatype Answer = Done | Missing | Forbidden | Invalid | Conflict

  const Empty := Archive([], [], [])

  function HighestVersion(reports: seq<Report>, caseId: nat): nat {
    if reports == [] then 0
    else
      var last := reports[|reports| - 1];
      Max(HighestVersion(reports[..|reports| - 1], caseId), if last.caseId == caseId then last.version else 0)
  }

  predicate Taken(reports: seq<Report>, caseId: nat, version: nat) {
    exists r <- reports :: r.caseId == caseId && r.version == version
  }

  /** The frozen body a report points at, if that is still there. */
  function FrozenOf(a: Archive, r: Report): Option<Version> {
    if r.frozen.Some? && r.frozen.value < |a.versions| then Some(a.versions[r.frozen.value]) else None
  }

  /** Why a request is turned down, in the order the checks are made. */
  function Verdict(a: Archive, q: Request): Answer {
    if q.Create? then
      if !q.accepted then Missing else if Taken(a.reports, q.caseId, q.highest + 1) then Conflict else Done
    else if q.id >= |a.reports| then Missing
    else if !q.allowed then Forbidden
    else
      var r := a.reports[q.id];
      match q
      case Submit(_, _, freeze) =>
        if r.status != Draft && r.status != Returned then Conflict
        else if freeze.None? then Invalid
        else Done
      case Return(_, _, reasonGiven) =>
        if !reasonGiven then Invalid
        else if r.status != InReview then Conflict
        else Done
      case Approve(_, _, bodyIntact, currentSource, sheetStale) =>
        if r.status != InReview || FrozenOf(a, r).None? || !bodyIntact then Conflict
        else if currentSource != Some(FrozenOf(a, r).value.sourceHash) || sheetStale then Conflict
        else Done
      case Void(_, _) =>
        if r.status == Voided then Conflict else Done
  }

  /** The approved reports of a case other than `winner` are voided in favour of it. */
  function Supersede(reports: seq<Report>, caseId: nat, winner: nat): seq<Report> {
    seq(|reports|, i requires 0 <= i < |reports| =>
      if reports[i].caseId == caseId && reports[i].status == Approved && i != winner
      then reports[i].(status := Voided, supersededBy := Some(winner))
      else reports[i])
  }

  function Change(a: Archive, id: nat, r: Report): Archive
    requires id < |a.reports|
  {
    a.(reports := a.reports[id := r], events := a.events + [Event(id, Some(a.reports[id].status), r.status)])
  }

  function Apply(a: Archive, q: Request): Archive
    requires Verdict(a, q).Done?
  {
    match q
    case Create(caseId, _, highest) =>
      var r := Report(caseId, highest + 1, Draft, None, None, "", "", None, None);
      a.(reports := a.reports + [r], events := a.events + [Event(|a.reports|, None, Draft)])
    case Submit(id, _, freeze) =>
      var (content, source) := freeze.value;
      var version := Version(id, content, source);
      Change(a.(versions := a.versions + [version]), id,
             a.reports[id].(status := InReview, frozen := Some(|a.versions|), contentHash := content, sourceHash := source))
    case Return(id, _, _) =>
      Change(a, id, a.reports[id].(status := Returned))
    case Approve(id, _, _, _, _) =>
      var version := FrozenOf(a, a.reports[id]).value;
      Change(a.(reports := Supersede(a.reports, a.reports[id].caseId, id)), id,
             a.reports[id].(status := Approved, approvedVersion := a.reports[id].frozen,
                            contentHash := version.contentHash, sourceHash := version.sourceHash,
                            approvedAt := Some(|a.events|)))
    case Void(id, _) =>
      Change(a, id, a.reports[id].(status := Voided))
  }

  function Do(a: Archive, q: Request): Archive {
    if Verdict(a, q).Done? then Apply(a, q) else a
  }

  function Exec(a: Archive, requests: seq<Request>): Archive
    decreases |requests|
  {
    if requests == [] then a
    else Do(Exec(a, requests[..|requests| - 1]), requests[|requests| - 1])
  }

  // ------------------------------------------------------------------ the store

  class ReportStore {
    var reports: seq<Report>
    var versions: seq<Version>
    var events: seq<Event>

    ghost function Value(): Archive
      reads this
    {
      Archive(reports, versions, events)
    }

    /** The read a new report takes its number from. */
    method ReadHighest(caseId: nat) returns (highest: nat)
      ensures highest == HighestVersion(reports, caseId)
    {
      highest := HighestVersion(reports, caseId);
    }

    method CreateReport(caseId: nat, accepted: bool, highest: nat) returns (answer: Answer)
      modifies this
      ensures answer == Verdict(old(Value()), Create(caseId, accepted, highest))
      ensures Value() == Do(old(Value()), Create(caseId, accepted, highest))
    {
      if !accepted {
        return Missing;
      }
      var version := highest + 1;
      if exists r <- reports :: r.caseId == caseId && r.version == version {
        return Conflict;
      }
      events := events + [Event(|reports|, None, Draft)];
      reports := reports + [Report(caseId, version, Draft, None, None, "", "", None, None)];
      return Done;
    }

    /** One request on one report; a refused one leaves no trace. */
    method ActOnReport(q: Request) returns (answer: Answer)
      requires !q.Create?
      modifies this
      ensures answer == Verdict(old(Value()), q)
      ensures Value() == Do(old(Value()), q)
    {
      if q.id >= |reports| {
        return Missing;
      }
      if !q.allowed {
        return Forbidden;
      }
      var id, row := q.id, reports[q.id];
      match q {
        case Submit(_, _, freeze) =>
          if row.status != Draft && row.status != Returned {
            return Conflict;
          }
          if freeze.None? {
            return Invalid;
          }
          var (content, source) := freeze.value;
          var submitted := row.(status := InReview, frozen := Some(|versions|), contentHash := content, sourceHash := source);
          versions := versions + [Version(id, content, source)];
          reports := reports[id := submitted];
        case Return(_, _, reasonGiven) =>
          if !reasonGiven {
            return Invalid;
          }
          if row.status != InReview {
            return Conflict;
          }
          reports := reports[id := row.(status := Returned)];
        case Approve(_, _, bodyIntact, currentSource, sheetStale) =>
          if row.status != InReview {
            return Conflict;
          }
          if row.frozen.None? || row.frozen.value >= |versions| {
            return Conflict;
          }
          var version := versions[row.frozen.value];
          if !bodyIntact || currentSource.None? {
            return Conflict;
          }
          if currentSource.value != version.sourceHash || sheetStale {
            return Conflict;
          }
          reports := Supersede(reports, row.caseId, id);
          reports := reports[id := row.(status := Approved, approvedVersion := row.frozen,
                                        contentHash := version.contentHash, sourceHash := version.sourceHash,
                                        approvedAt := Some(|events|))];
        case Void(_, _) =>
          if row.status == Voided {
            return Conflict;
          }
          reports := reports[id := row.(status := Voided)];
      }
      events := events + [Event(id, Some(row.status), reports[id].status)];
      return Done;
    }
  }

  // ------------------------------------------------------------------ what every run keeps

  function LastTarget(events: seq<Event>, id: nat): Option<Status> {
    if events == [] then None
    else
      var last := events[|events| - 1];
      if last.report == id then Some(last.target) else LastTarget(events[..|events| - 1], id)
  }

  /** A report under review or ever approved carries the hashes of its own frozen body, and an approval names that body. */
  predicate BodyOk(r: Report, id: nat, versions: seq<Version>) {
    && (r.status == InReview || r.approvedAt.Some? ==>
          && r.frozen.Some? && r.frozen.value < |versions|
          && versions[r.frozen.value] == Version(id, r.contentHash, r.sourceHash))
    && (r.approvedAt.Some? ==> r.approvedVersion == r.frozen && r.status in {Approved, Voided})
    && (r.approvedAt.None? ==> r.approvedVersion.None? && r.supersededBy.None? && r.status != Approved)
  }

  predicate ApprovalOk(r: Report, id: nat, events: seq<Event>) {
    r.approvedAt.Some? ==>
      r.approvedAt.value < |events| && events[r.approvedAt.value] == Event(id, Some(InReview), Approved)
  }

  /** A superseded report is void, and points at one of its case that was approved after it. */
  predicate SupersededOk(r: Report, reports: seq<Report>) {
    r.supersededBy.Some? ==>
      && r.status == Voided && r.approvedAt.Some? && r.supersededBy.value < |reports|
      && var winner := reports[r.supersededBy.value];
         winner.caseId == r.caseId && winner.approvedAt.Some? && r.approvedAt.value < winner.approvedAt.value
  }

  /** The last event tells the status; a superseded report's last event is still its approval. */
  predicate Told(r: Report, id: nat, events: seq<Event>) {
    LastTarget(events, id) == Some(if r.supersededBy.Some? then Approved else r.status)
  }

  ghost predicate RowsOk(a: Archive) {
    forall i | 0 <= i < |a.reports| :: BodyOk(a.reports[i], i, a.versions) && ApprovalOk(a.reports[i], i, a.events)
  }

  ghost predicate ForwardOk(reports: seq<Report>) {
    forall i | 0 <= i < |reports| :: SupersededOk(reports[i], reports)
  }

  ghost predicate OneApproved(reports: seq<Report>) {
    forall i, j | 0 <= i < j < |reports| && reports[i].status == Approved && reports[j].status == Approved ::
      reports[i].caseId != reports[j].caseId
  }

  ghost predicate NumbersOk(reports: seq<Report>) {
    forall i, j | 0 <= i < j < |reports| && reports[i].caseId == reports[j].caseId :: reports[i].version != reports[j].version
  }

  /** Each event starts from where the report's previous one ended. */
  ghost predicate HistoryOk(a: Archive) {
    && (forall i | 0 <= i < |a.reports| :: Told(a.reports[i], i, a.events))
    && (forall i | 0 <= i < |a.events| :: a.events[i].report < |a.reports|
                                          && a.events[i].source == LastTarget(a.events[..i], a.events[i].report))
  }

  ghost predicate Inv(a: Archive) {
    RowsOk(a) && ForwardOk(a.reports) && OneApproved(a.reports) && NumbersOk(a.reports) && HistoryOk(a)
  }

  lemma LastTargetAppend(events: seq<Event>, e: Event, id: nat)
    ensures LastTarget(events + [e], id) == if e.report == id then Some(e.target) else LastTarget(events, id)
  {
    assert (events + [e])[..|events|] == events;
  }

  lemma {:induction false} NoEventYet(events: seq<Event>, id: nat)
    requires forall i | 0 <= i < |events| :: events[i].report < id
    ensures LastTarget(events, id).None?
  {
    if events != [] {
      NoEventYet(events[..|events| - 1], id);
    }
  }

  lemma CreateKeepsInv(a: Archive, q: Request)
    requires Inv(a) && q.Create? && Verdict(a, q).Done?
    ensures Inv(Apply(a, q))
  {
    var b := Apply(a, q);
    var e := b.events[|a.events|];
    assert forall i | 0 <= i < |a.reports| :: a.reports[i] in a.reports;
    NoEventYet(a.events, |a.reports|);
    HistoryGrows(a, b, e);
    forall i | 0 <= i < |b.reports|
      ensures BodyOk(b.reports[i], i, b.versions) && ApprovalOk(b.reports[i], i, b.events)
      ensures SupersededOk(b.reports[i], b.reports)
    {
      if i < |a.reports| {
        assert b.reports[i] == a.reports[i] && SupersededOk(a.reports[i], a.reports);
      }
    }
  }

  /** One event more, on a report whose row says what the event says. */
  lemma HistoryGrows(a: Archive, b: Archive, e: Event)
    requires HistoryOk(a) && b.events == a.events + [e] && e.report < |b.reports|
    requires |b.reports| == |a.reports| || (|b.reports| == |a.reports| + 1 && e.report == |a.reports|)
    requires e.source == LastTarget(a.events, e.report)
    requires b.reports[e.report].supersededBy.None? && b.reports[e.report].status == e.target
    requires forall i | 0 <= i < |a.reports| && i != e.report :: SameTold(a.reports[i], b.reports[i])
    ensures HistoryOk(b)
  {
    forall i | 0 <= i < |b.reports|
      ensures Told(b.reports[i], i, b.events)
    {
      LastTargetAppend(a.events, e, i);
      if i != e.report {
        assert SameTold(a.reports[i], b.reports[i]) && Told(a.reports[i], i, a.events);
      }
    }
    forall i | 0 <= i < |b.events|
      ensures b.events[i].report < |b.reports| && b.events[i].source == LastTarget(b.events[..i], b.events[i].report)
    {
      if i < |a.events| {
        assert b.events[..i] == a.events[..i] && b.events[i] == a.events[i];
      } else {
        assert b.events[..i] == a.events;
      }
    }
  }

  /** The two rows call for the same last event. */
  predicate SameTold(r: Report, r': Report) {
    r' == r || (r.supersededBy.None? && r.status == Approved && r'.supersededBy.Some?)
  }

  /** A change of one row that approves nothing and supersedes nothing. */
  lemma ChangeKeepsInv(a: Archive, versions: seq<Version>, id: nat, r: Report)
    requires Inv(a) && id < |a.reports| && a.versions <= versions
    requires a.reports[id].supersededBy.None? && BodyOk(r, id, versions) && r.status != Approved
    requires r == a.reports[id].(status := r.status, frozen := r.frozen, contentHash := r.contentHash, sourceHash := r.sourceHash)
    ensures Inv(Change(a.(versions := versions), id, r))
  {
    hide LastTarget;
    var b := Change(a.(versions := versions), id, r);
    var e := Event(id, Some(a.reports[id].status), r.status);
    assert Told(a.reports[id], id, a.events);
    HistoryGrows(a, b, e);
    forall i | 0 <= i < |b.reports|
      ensures BodyOk(b.reports[i], i, b.versions) && ApprovalOk(b.reports[i], i, b.events)
    {
      assert BodyOk(a.reports[i], i, a.versions) && ApprovalOk(a.reports[i], i, a.events);
    }
    forall i | 0 <= i < |b.reports|
      ensures SupersededOk(b.reports[i], b.reports)
    {
      assert SupersededOk(a.reports[i], a.reports);
    }
  }

  lemma PlainKeepsInv(a: Archive, q: Request)
    requires Inv(a) && !q.Create? && !q.Approve? && Verdict(a, q).Done?
    ensures Inv(Apply(a, q))
  {
    var r := a.reports[q.id];
    assert BodyOk(r, q.id, a.versions) && SupersededOk(r, a.reports);
    hide Inv, Change, BodyOk;
    match q {
      case Submit(id, _, freeze) =>
        var (content, source) := freeze.value;
        var versions := a.versions + [Version(id, content, source)];
        var submitted := r.(status := InReview, frozen := Some(|a.versions|), contentHash := content, sourceHash := source);
        BodyOfSubmitted(r, id, a.versions, content, source);
        ChangeKeepsInv(a, versions, id, submitted);
      case Return(id, _, _) =>
        BodyOfReturned(r, id, a.versions);
        ChangeKeepsInv(a, a.versions, id, r.(status := Returned));
      case Void(id, _) =>
        BodyOfVoided(r, id, a.versions);
        ChangeKeepsInv(a, a.versions, id, r.(status := Voided));
    }
  }

  lemma BodyOfSubmitted(r: Report, id: nat, versions: seq<Version>, content: string, source: string)
    requires BodyOk(r, id, versions) && r.status in {Draft, Returned}
    ensures BodyOk(r.(status := InReview, frozen := Some(|versions|), contentHash := content, sourceHash := source),
                   id, versions + [Version(id, content, source)])
  {
  }

  lemma BodyOfReturned(r: Report, id: nat, versions: seq<Version>)
    requires BodyOk(r, id, versions) && r.status == InReview
    ensures BodyOk(r.(status := Returned), id, versions)
  {
  }

  lemma BodyOfVoided(r: Report, id: nat, versions: seq<Version>)
    requires BodyOk(r, id, versions)
    ensures BodyOk(r.(status := Voided), id, versions)
  {
  }

  /** What an approval leaves of every other row. */
  lemma ApproveRows(a: Archive, q: Request)
    requires Inv(a) && q.Approve? && Verdict(a, q).Done?
    ensures var (b, id) := (Apply(a, q), q.id);
            && |b.reports| == |a.reports| && b.reports[id].status == Approved && b.reports[id].supersededBy.None?
            && b.reports[id].approvedAt == Some(|a.events|) && b.reports[id].caseId == a.reports[id].caseId
            && b.versions == a.versions && b.events == a.events + [Event(id, Some(InReview), Approved)]
    ensures forall i | 0 <= i < |a.reports| && i != q.id ::
              SameTold(a.reports[i], Apply(a, q).reports[i])
              && Apply(a, q).reports[i] ==
                 if a.reports[i].caseId == a.reports[q.id].caseId && a.reports[i].status == Approved
                 then a.reports[i].(status := Voided, supersededBy := Some(q.id)) else a.reports[i]
  {
    hide LastTarget, HistoryOk, NumbersOk;
    assert SupersededOk(a.reports[q.id], a.reports);
    forall i | 0 <= i < |a.reports| && i != q.id
      ensures SameTold(a.reports[i], Apply(a, q).reports[i])
    {
      assert BodyOk(a.reports[i], i, a.versions) && SupersededOk(a.reports[i], a.reports);
    }
  }

  lemma ApproveKeepsRows(a: Archive, q: Request)
    requires Inv(a) && q.Approve? && Verdict(a, q).Done?
    ensures RowsOk(Apply(a, q)) && ForwardOk(Apply(a, q).reports)
  {
    ApproveRows(a, q);
    var (b, id) := (Apply(a, q), q.id);
    hide LastTarget, HistoryOk, NumbersOk, OneApproved;
    assert BodyOk(b.reports[id], id, b.versions) by {
      assert BodyOk(a.reports[id], id, a.versions);
    }
    hide Apply, Verdict;
    forall i | 0 <= i < |b.reports|
      ensures BodyOk(b.reports[i], i, b.versions) && ApprovalOk(b.reports[i], i, b.events)
    {
      assert BodyOk(a.reports[i], i, a.versions) && ApprovalOk(a.reports[i], i, a.events);
    }
    forall i | 0 <= i < |b.reports|
      ensures SupersededOk(b.reports[i], b.reports)
    {
      assert SupersededOk(a.reports[i], a.reports) && ApprovalOk(a.reports[i], i, a.events) && BodyOk(a.reports[i], i, a.versions);
    }
  }

  lemma ApproveKeepsInv(a: Archive, q: Request)
    requires Inv(a) && q.Approve? && Verdict(a, q).Done?
    ensures Inv(Apply(a, q))
  {
    ApproveKeepsRows(a, q);
    ApproveRows(a, q);
    var (b, id) := (Apply(a, q), q.id);
    assert Told(a.reports[id], id, a.events) && SupersededOk(a.reports[id], a.reports);
    assert b.reports[id].version == a.reports[id].version;
    var e := Event(id, Some(InReview), Approved);
    hide Apply, RowsOk, ForwardOk;
    HistoryGrows(a, b, e);
  }

  lemma DoKeepsInv(a: Archive, q: Request)
    requires Inv(a)
    ensures Inv(Do(a, q))
  {
    hide Inv, Apply;
    if Verdict(a, q).Done? {
      if q.Create? {
        CreateKeepsInv(a, q);
      } else if q.Approve? {
        ApproveKeepsInv(a, q);
      } else {
        PlainKeepsInv(a, q);
      }
    }
  }

  lemma {:induction false} RunsKeepInv(requests: seq<Request>)
    ensures Inv(Exec(Empty, requests))
    decreases |requests|
  {
    hide Inv, Do;
    if requests == [] {
      EmptyOk();
    } else {
      RunsKeepInv(requests[..|requests| - 1]);
      DoKeepsInv(Exec(Empty, requests[..|requests| - 1]), requests[|requests| - 1]);
    }
  }

  lemma EmptyOk()
    ensures Inv(Empty)
  {
  }

  /** After any requests, a case has at most one approved report. */
  lemma {:induction false} AtMostOneApproved(requests: seq<Request>, i: nat, j: nat)
    requires var rs := Exec(Empty, requests).reports;
             i < |rs| && j < |rs| && rs[i].status == Approved && rs[j].status == Approved && rs[i].caseId == rs[j].caseId
    ensures i == j
  {
    hide Exec, RowsOk, ForwardOk, NumbersOk, HistoryOk;
    RunsKeepInv(requests);
  }

  /** What was approved is the body frozen at submission, with that body's hashes, still so after it is void. */
  lemma ApprovedIsFrozen(requests: seq<Request>, i: nat)
    requires i < |Exec(Empty, requests).reports| && Exec(Empty, requests).reports[i].approvedVersion.Some?
    ensures var (a, r) := (Exec(Empty, requests), Exec(Empty, requests).reports[i]);
            && r.approvedVersion == r.frozen && r.approvedVersion.value < |a.versions|
            && a.versions[r.approvedVersion.value] == Version(i, r.contentHash, r.sourceHash)
  {
    hide Exec, ForwardOk, NumbersOk, HistoryOk, OneApproved;
    RunsKeepInv(requests);
    assert BodyOk(Exec(Empty, requests).reports[i], i, Exec(Empty, requests).versions);
  }

  /** The last event names the status, unless the report was superseded: then it still names the approval. */
  lemma {:induction false} LastEventTells(requests: seq<Request>, i: nat)
    requires i < |Exec(Empty, requests).reports|
    ensures var (a, r) := (Exec(Empty, requests), Exec(Empty, requests).reports[i]);
            && (LastTarget(a.events, i) == Some(r.status) <==> r.supersededBy.None?)
            && (r.supersededBy.Some? ==> r.status == Voided && LastTarget(a.events, i) == Some(Approved))
  {
    hide Exec, NumbersOk, OneApproved, RowsOk, LastTarget;
    RunsKeepInv(requests);
    var a := Exec(Empty, requests);
    assert Told(a.reports[i], i, a.events) && SupersededOk(a.reports[i], a.reports);
  }

  /** Every event starts where the one before it on the same report ended. */
  lemma EventsChain(requests: seq<Request>, i: nat)
    requires i < |Exec(Empty, requests).events|
    ensures var events := Exec(Empty, requests).events; events[i].source == LastTarget(events[..i], events[i].report)
  {
    hide Exec, NumbersOk, OneApproved, RowsOk, ForwardOk, LastTarget;
    RunsKeepInv(requests);
  }

  /** What a request needs of where the events leave its report, and of what it brings. */
  predicate Fits(last: Option<Status>, superseded: bool, sourceHash: string, q: Request) {
    match q
    case Create(_, _, _) => false
    case Submit(_, _, freeze) => last in {Some(Draft), Some(Returned)} && freeze.Some?
    case Return(_, _, reasonGiven) => last == Some(InReview) && reasonGiven
    case Approve(_, _, bodyIntact, currentSource, sheetStale) =>
      last == Some(InReview) && bodyIntact && currentSource == Some(sourceHash) && !sheetStale
    case Void(_, _) => last != Some(Voided) && !superseded
  }

  /**
   After any requests one on a report is accepted exactly if it is permitted and fits where the
   events left the report; an approval needs the body intact, the sources as they were frozen,
   and a sheet that is not stale.
   */
  lemma AcceptedExactly(requests: seq<Request>, q: Request)
    requires !q.Create?
    ensures var a := Exec(Empty, requests);
            Verdict(a, q) == Done <==>
              && q.id < |a.reports| && q.allowed
              && Fits(LastTarget(a.events, q.id), a.reports[q.id].supersededBy.Some?, a.reports[q.id].sourceHash, q)
  {
    RunsKeepInv(requests);
    var a := Exec(Empty, requests);
    hide Exec, LastTarget, OneApproved, NumbersOk;
    if q.id < |a.reports| {
      assert Told(a.reports[q.id], q.id, a.events) && BodyOk(a.reports[q.id], q.id, a.versions);
      assert SupersededOk(a.reports[q.id], a.reports);
    }
  }

  function TargetOf(q: Request): Status {
    match q
    case Create(_, _, _) => Draft
    case Submit(_, _, _) => InReview
    case Return(_, _, _) => Returned
    case Approve(_, _, _, _, _) => Approved
    case Void(_, _) => Voided
  }

  /** What an accepted request writes: one event on its report; a submission freezes the body it brings, and nothing else is ever frozen. */
  lemma WritesExactly(a: Archive, q: Request)
    requires Verdict(a, q) == Done
    ensures var (b, id) := (Do(a, q), if q.Create? then |a.reports| else q.id);
            && |b.reports| == |a.reports| + (if q.Create? then 1 else 0) && id < |b.reports| && b.reports[id].status == TargetOf(q)
            && b.events == a.events + [Event(id, if q.Create? then None else Some(a.reports[id].status), TargetOf(q))]
            && b.versions == a.versions + (if q.Submit? && q.freeze.Some? then [Version(id, q.freeze.value.0, q.freeze.value.1)] else [])
            && (q.Submit? ==> b.reports[id].frozen == Some(|a.versions|))
  {
  }

  /** Of the reports other than its own an approval changes the approved ones of its case: they are void, and point at it. No other request changes one. */
  lemma OthersChangeExactly(a: Archive, q: Request, i: nat)
    requires Verdict(a, q) == Done && i < |a.reports| && (q.Create? || i != q.id)
    ensures var (r, r') := (a.reports[i], Do(a, q).reports[i]);
            if q.Approve? && r.status == Approved && r.caseId == a.reports[q.id].caseId
            then r' == r.(status := Voided, supersededBy := Some(q.id))
            else r' == r
  {
  }

  /** This request approved report `i` with these hashes, and all its checks had passed. */
  ghost predicate ApprovedBy(requests: seq<Request>, i: nat, n: nat, sourceHash: string) {
    && n < |requests|
    && var q := requests[n];
       q.Approve? && q.id == i && q.allowed && q.bodyIntact && q.currentSource == Some(sourceHash) && !q.sheetStale
  }

  lemma ApprovalStep(a: Archive, q: Request, i: nat)
    requires Inv(a) && i < |Do(a, q).reports| && Do(a, q).reports[i].approvedAt.Some?
    ensures || (i < |a.reports| && a.reports[i].approvedAt.Some? && a.reports[i].sourceHash == Do(a, q).reports[i].sourceHash)
            || ApprovedBy([q], i, 0, Do(a, q).reports[i].sourceHash)
  {
    hide OneApproved, NumbersOk, HistoryOk, ForwardOk;
    if i < |a.reports| {
      assert BodyOk(a.reports[i], i, a.versions);
    }
  }

  /** Whatever was approved, an approval is among the requests that found its body intact, its sources unchanged and its sheet current. */
  lemma {:induction false} ApprovedWasChecked(requests: seq<Request>, i: nat) returns (n: nat)
    requires i < |Exec(Empty, requests).reports| && Exec(Empty, requests).reports[i].approvedAt.Some?
    ensures ApprovedBy(requests, i, n, Exec(Empty, requests).reports[i].sourceHash)
    decreases |requests|
  {
    hide Do, Inv;
    var (before, q) := (requests[..|requests| - 1], requests[|requests| - 1]);
    RunsKeepInv(before);
    ApprovalStep(Exec(Empty, before), q, i);
    if ApprovedBy([q], i, 0, Exec(Empty, requests).reports[i].sourceHash) {
      n := |requests| - 1;
    } else {
      n := ApprovedWasChecked(before, i);
    }
  }

  lemma VoidedStays(a: Archive, q: Request, i: nat)
    requires i < |a.reports| && a.reports[i].status == Voided
    ensures i < |Do(a, q).reports| && Do(a, q).reports[i] == a.reports[i]
    ensures !q.Create? && q.id == i && q.allowed && (q.Return? ==> q.reasonGiven) ==> Verdict(a, q).Conflict?
  {
  }

  /** Nothing ever changes a void report again. */
  lemma {:induction false} VoidedIsFinal(a: Archive, requests: seq<Request>, i: nat)
    requires i < |a.reports| && a.reports[i].status == Voided
    ensures i < |Exec(a, requests).reports| && Exec(a, requests).reports[i] == a.reports[i]
    decreases |requests|
  {
    hide Do, Verdict;
    if requests != [] {
      VoidedIsFinal(a, requests[..|requests| - 1], i);
      VoidedStays(Exec(a, requests[..|requests| - 1]), requests[|requests| - 1], i);
    }
  }

  // ------------------------------------------------------------------ numbers read too early

  /** How many reports a case has. */
  function Filed(reports: seq<Report>, caseId: nat): nat {
    if reports == [] then 0
    else Filed(reports[..|reports| - 1], caseId) + if reports[|reports| - 1].caseId == caseId then 1 else 0
  }

  /** The reports of every case are numbered from one, in the order they were created. */
  ghost predicate Numbered(reports: seq<Report>) {
    forall i | 0 <= i < |reports| :: reports[i].version == Filed(reports[..i], reports[i].caseId) + 1
  }

  ghost predicate SameNumbers(a: seq<Report>, b: seq<Report>) {
    |a| == |b| && forall i | 0 <= i < |a| :: b[i].caseId == a[i].caseId && b[i].version == a[i].version
  }

  lemma {:induction false} SameFiled(a: seq<Report>, b: seq<Report>, caseId: nat)
    requires SameNumbers(a, b)
    ensures Filed(a, caseId) == Filed(b, caseId)
  {
    if a != [] {
      SameFiled(a[..|a| - 1], b[..|b| - 1], caseId);
    }
  }

  lemma TakenOneMore(before: seq<Report>, last: Report, caseId: nat, version: nat)
    ensures Taken(before + [last], caseId, version)
            <==> Taken(before, caseId, version) || (last.caseId == caseId && last.version == version)
  {
    assert (before + [last])[|before|] == last;
    assert forall r <- before :: r in before + [last];
  }

  /** Then the numbers taken are those up to the count of the case, which is also the highest. */
  lemma {:induction false} NumbersTaken(reports: seq<Report>, caseId: nat, version: nat)
    requires Numbered(reports)
    ensures Taken(reports, caseId, version) <==> 1 <= version <= Filed(reports, caseId)
    ensures HighestVersion(reports, caseId) == Filed(reports, caseId)
  {
    if reports != [] {
      var (before, last) := (reports[..|reports| - 1], reports[|reports| - 1]);
      NumberedBefore(reports);
      NumbersTaken(before, caseId, version);
      TakenOneMore(before, last, caseId, version);
      assert reports == before + [last];
      hide Taken, Numbered;
    }
  }

  lemma NumberedBefore(reports: seq<Report>)
    requires Numbered(reports) && reports != []
    ensures var (before, last) := (reports[..|reports| - 1], reports[|reports| - 1]);
            Numbered(before) && last.version == Filed(before, last.caseId) + 1
  {
    hide Filed;
    assert forall i | 0 <= i < |reports| - 1 :: reports[..|reports| - 1][..i] == reports[..i];
  }

  lemma NumberedOn(reports: seq<Report>, r: Report)
    requires Numbered(reports) && r.version == Filed(reports, r.caseId) + 1
    ensures Numbered(reports + [r])
    ensures forall c :: Filed(reports + [r], c) == Filed(reports, c) + if c == r.caseId then 1 else 0
  {
    var more := reports + [r];
    assert more[..|reports|] == reports;
    assert forall i | 0 <= i < |reports| :: more[..i] == reports[..i];
  }

  /** A create that read an older number is refused; any other request keeps the numbering. */
  lemma CreateInOrder(a: Archive, q: Request)
    requires Numbered(a.reports) && (q.Create? ==> q.highest <= HighestVersion(a.reports, q.caseId))
    ensures Numbered(Do(a, q).reports)
    ensures q.Create? ==> (Verdict(a, q).Done? <==> q.accepted && q.highest == HighestVersion(a.reports, q.caseId))
    ensures forall c :: Filed(Do(a, q).reports, c)
                        == Filed(a.reports, c) + if q.Create? && Verdict(a, q).Done? && q.caseId == c then 1 else 0
  {
    if q.Create? {
      NumbersTaken(a.reports, q.caseId, q.highest + 1);
      if Verdict(a, q).Done? {
        NumberedOn(a.reports, Do(a, q).reports[|a.reports|]);
      }
    } else {
      assert SameNumbers(a.reports, Do(a, q).reports);
      hide Do, Filed;
      SameNumbering(a.reports, Do(a, q).reports);
    }
  }

  lemma SameNumbering(a: seq<Report>, b: seq<Report>)
    requires SameNumbers(a, b) && Numbered(a)
    ensures Numbered(b) && forall c :: Filed(a, c) == Filed(b, c)
  {
    forall i, c | 0 <= i <= |a|
      ensures Filed(a[..i], c) == Filed(b[..i], c)
    {
      SameFiled(a[..i], b[..i], c);
    }
    assert a[..|a|] == a && b[..|b|] == b;
  }

  /** Every create read its number from the table as it was at some earlier moment. */
  ghost predicate ReadBefore(requests: seq<Request>) {
    forall n | 0 <= n < |requests| && requests[n].Create? :: exists m :: ReadAt(requests, n, m)
  }

  ghost predicate ReadAt(requests: seq<Request>, n: int, m: int) {
    && 0 <= m <= n < |requests| && requests[n].Create?
    && requests[n].highest == HighestVersion(Exec(Empty, requests[..m]).reports, requests[n].caseId)
  }

  /** In such a run the reports of a case are numbered one by one as they are created. */
  lemma {:induction false} NumberedInOrder(requests: seq<Request>)
    requires ReadBefore(requests)
    ensures Numbered(Exec(Empty, requests).reports)
    decreases |requests|
  {
    hide Do, HighestVersion, Numbered, Verdict;
    if requests == [] {
      NothingFiled();
    } else {
      var n := |requests| - 1;
      StillRead(requests, n);
      NumberedInOrder(requests[..n]);
      if requests[n].Create? {
        var m :| ReadAt(requests, n, m);
        HighestGrows(requests, m, n, requests[n].caseId);
      }
      CreateInOrder(Exec(Empty, requests[..n]), requests[n]);
    }
  }

  lemma NothingFiled()
    ensures Numbered(Empty.reports)
  {
  }

  lemma StillRead(requests: seq<Request>, n: nat)
    requires ReadBefore(requests) && n <= |requests|
    ensures ReadBefore(requests[..n])
  {
    hide Exec, HighestVersion;
    forall k | 0 <= k < n && requests[k].Create?
      ensures exists m :: ReadAt(requests[..n], k, m)
    {
      var m :| ReadAt(requests, k, m);
      assert requests[..n][..m] == requests[..m];
      assert ReadAt(requests[..n], k, m);
    }
  }

  /** The highest number of a case only grows. */
  lemma {:induction false} HighestGrows(requests: seq<Request>, m: nat, n: nat, caseId: nat)
    requires m <= n <= |requests|
    ensures HighestVersion(Exec(Empty, requests[..m]).reports, caseId) <= HighestVersion(Exec(Empty, requests[..n]).reports, caseId)
    decreases n
  {
    hide Do, HighestVersion;
    if m < n {
      HighestGrows(requests, m, n - 1, caseId);
      assert requests[..n][..n - 1] == requests[..n - 1];
      HighestStep(Exec(Empty, requests[..n - 1]), requests[n - 1], caseId);
    }
  }

  lemma HighestStep(a: Archive, q: Request, caseId: nat)
    ensures HighestVersion(a.reports, caseId) <= HighestVersion(Do(a, q).reports, caseId)
  {
    if q.Create? {
      assert Do(a, q).reports == a.reports || Do(a, q).reports[..|a.reports|] == a.reports;
    } else {
      assert SameNumbers(a.reports, Do(a, q).reports);
      hide Do;
      SameHighest(a.reports, Do(a, q).reports, caseId);
    }
  }

  lemma {:induction false} SameHighest(a: seq<Report>, b: seq<Report>, caseId: nat)
    requires SameNumbers(a, b)
    ensures HighestVersion(a, caseId) == HighestVersion(b, caseId)
  {
    if a != [] {
      SameHighest(a[..|a| - 1], b[..|b| - 1], caseId);
    }
  }

  /** A create is refused as a conflict exactly when its case got a report after its number was read. */
  lemma OvertakenIsRefused(requests: seq<Request>, n: nat, m: nat)
    requires ReadBefore(requests) && n < |requests| && ReadAt(requests, n, m) && requests[n].accepted
    ensures var (seen, current, q) := (Exec(Empty, requests[..m]), Exec(Empty, requests[..n]), requests[n]);
            && (Verdict(current, q) == Conflict <==> Filed(seen.reports, q.caseId) < Filed(current.reports, q.caseId))
            && (Verdict(current, q) == Done <==> Filed(seen.reports, q.caseId) == Filed(current.reports, q.caseId))
  {
    hide Exec, ReadBefore;
    var q := requests[n];
    StillRead(requests, m);
    StillRead(requests, n);
    NumberedInOrder(requests[..m]);
    NumberedInOrder(requests[..n]);
    HighestGrows(requests, m, n, q.caseId);
    NumbersTaken(Exec(Empty, requests[..m]).reports, q.caseId, 0);
    NumbersTaken(Exec(Empty, requests[..n]).reports, q.caseId, q.highest + 1);
  }

  // ------------------------------------------------------------------ following supersession

  /** The report at the end of the chain of supersessions; each step is to a later approval, so the chain ends. */
  function Latest(a: Archive, i: nat): (latest: nat)
    requires Inv(a) && i < |a.reports|
    ensures latest < |a.reports|
    decreases if a.reports[i].approvedAt.Some? then |a.events| - a.reports[i].approvedAt.value else |a.events| + 1
  {
    hide OneApproved, NumbersOk, HistoryOk;
    assert SupersededOk(a.reports[i], a.reports) && ApprovalOk(a.reports[i], i, a.events);
    if a.reports[i].supersededBy.None? then i
    else
      var next := a.reports[i].supersededBy.value;
      assert ApprovalOk(a.reports[next], next, a.events);
      Latest(a, next)
  }

  /** It is a report of the same case that nothing superseded, and approved later than every report before it in the chain. */
  lemma {:induction false} LatestIsCurrent(a: Archive, i: nat)
    requires Inv(a) && i < |a.reports|
    ensures a.reports[Latest(a, i)].caseId == a.reports[i].caseId && a.reports[Latest(a, i)].supersededBy.None?
    ensures Latest(a, i) == i <==> a.reports[i].supersededBy.None?
    ensures Latest(a, i) != i ==> a.reports[i].approvedAt.Some? && a.reports[Latest(a, i)].approvedAt.Some?
                                  && a.reports[i].approvedAt.value < a.reports[Latest(a, i)].approvedAt.value
    decreases if a.reports[i].approvedAt.Some? then |a.events| - a.reports[i].approvedAt.value else |a.events| + 1
  {
    hide OneApproved, NumbersOk, HistoryOk;
    assert SupersededOk(a.reports[i], a.reports) && ApprovalOk(a.reports[i], i, a.events);
    if a.reports[i].supersededBy.Some? {
      var next := a.reports[i].supersededBy.value;
      assert ApprovalOk(a.reports[next], next, a.events);
      LatestIsCurrent(a, next);
    }
  }
}
