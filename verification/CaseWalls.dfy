/**
 Information walls: who may see a walled case.  Three tables (walls, insiders, break-glass grants)
 are kept by five operations and read by one query.  `log` is the history of the operations that
 were carried out, with their arguments; no table holds it.  Times are whole seconds.
 */
module CaseWalls {
  import opened Texts

  const BREAK_GLASS_SECONDS := 30 * 60

  datatype Grant = Grant(caseId: int, person: string, expires: int)

  datatype Entry =
    | WallSet(caseId: int, insiders: set<string>)
    | WallRemoved(caseId: int)
    | CaseDeleted(caseId: int)
    | GlassBroken(caseId: int, person: string, at: int)

  datatype Tables = Tables(cases: set<int>, walls: set<int>, insiders: set<(int, string)>, grants: set<Grant>)

  /** `outside` is what a break-glass read before it writes: there is a wall, and the person is outside it. */
  datatype Request =
    | AddCase(caseId: int)
    | DeleteCase(caseId: int)
    | SetWall(caseId: int, allowed: bool, names: seq<string>)
    | RemoveWall(caseId: int, allowed: bool)
    | BreakGlass(caseId: int, person: string, allowed: bool, outside: bool, at: int)

  /** The trimmed names without the empty ones and without repetition. */
  function Listed(names: seq<string>): set<string> {
    (set n | n in names :: Trim(n)) - {""}
  }

  predicate ListOk(names: set<string>) {
    names != {} && forall n <- names :: |n| <= 100
  }

  predicate Accepts(t: Tables, q: Request) {
    match q
    case AddCase(c) => true
    case DeleteCase(c) => c in t.cases
    case SetWall(c, allowed, names) => allowed && ListOk(Listed(names)) && c in t.cases
    case RemoveWall(c, allowed) => allowed && c in t.walls
    case BreakGlass(c, _, allowed, outside, _) => allowed && outside && c in t.walls
  }

  /** The rows of a wall go with it. */
  function WithoutWall(t: Tables, c: int): Tables {
    t.(walls := t.walls - {c},
       insiders := (set i | i in t.insiders && i.0 != c),
       grants := (set g | g in t.grants && g.caseId != c))
  }

  function Rows(c: int, names: set<string>): set<(int, string)> {
    set n | n in names :: (c, n)
  }

  function NewList(t: Tables, c: int, names: set<string>): Tables {
    t.(walls := t.walls + {c},
       insiders := (set i | i in t.insiders && i.0 != c) + Rows(c, names))
  }

  function Apply(t: Tables, q: Request): Tables {
    match q
    case AddCase(c) => t.(cases := t.cases + {c})
    case DeleteCase(c) => WithoutWall(t, c).(cases := t.cases - {c})
    case SetWall(c, _, names) => NewList(t, c, Listed(names))
    case RemoveWall(c, _) => WithoutWall(t, c)
    case BreakGlass(c, person, _, _, at) => t.(grants := t.grants + {Grant(c, person, at + BREAK_GLASS_SECONDS)})
  }

  function Logged(q: Request): seq<Entry> {
    match q
    case AddCase(c) => []
    case DeleteCase(c) => [CaseDeleted(c)]
    case SetWall(c, _, names) => [WallSet(c, Listed(names))]
    case RemoveWall(c, _) => [WallRemoved(c)]
    case BreakGlass(c, person, _, _, at) => [GlassBroken(c, person, at)]
  }

  datatype World = World(tables: Tables, log: seq<Entry>)

  const Start := World(Tables({}, {}, {}, {}), [])

  function Do(w: World, q: Request): World {
    if Accepts(w.tables, q) then World(Apply(w.tables, q), w.log + Logged(q)) else w
  }

  function Exec(w: World, requests: seq<Request>): World
    decreases |requests|
  {
    if requests == [] then w else Do(Exec(w, requests[..|requests| - 1]), requests[|requests| - 1])
  }

  /** The query: walled cases without an insider row or an unexpired grant of this person. */
  function HiddenCases(t: Tables, person: string, now: int): set<int> {
    set c | c in t.walls && (c, person) !in t.insiders
            && forall g <- t.grants :: !(g.caseId == c && g.person == person && g.expires > now)
  }

  // ------------------------------------------------------------------ the store

  class WallStore {
    var cases: set<int>
    var walls: set<int>
    var insiders: set<(int, string)>
    var grants: set<Grant>
    var log: seq<Entry>

    ghost function Value(): World
      reads this
    {
      World(Tables(cases, walls, insiders, grants), log)
    }

    /** Replaces the list of insiders, creating the wall where there is none; grants already given stay. */
    method PutWall(c: int, allowed: bool, names: seq<string>) returns (ok: bool)
      modifies this
      ensures ok == Accepts(old(Value()).tables, SetWall(c, allowed, names))
      ensures Value() == Do(old(Value()), SetWall(c, allowed, names))
    {
      var listed := (set n | n in names :: Trim(n)) - {""};
      if !allowed || listed == {} || exists n <- listed :: |n| > 100 {
        return false;
      }
      if c !in cases {
        return false;
      }
      walls := walls + {c};
      insiders := set i | i in insiders && i.0 != c;
      InsertRows(c, listed);
      assert listed == Listed(names);
      log := log + [WallSet(c, listed)];
      return true;
    }

    method InsertRows(c: int, names: set<string>)
      modifies this`insiders
      ensures insiders == old(insiders) + Rows(c, names)
    {
      var left := names;
      ghost var done: set<string> := {};
      while left != {}
        invariant done + left == names && insiders == old(insiders) + Rows(c, done)
        decreases |left|
      {
        var n :| n in left;
        left := left - {n};
        insiders := insiders + {(c, n)};
        assert Rows(c, done + {n}) == Rows(c, done) + {(c, n)};
        done := done + {n};
      }
      assert done == names;
    }

    method DropWall(c: int, allowed: bool) returns (ok: bool)
      modifies this
      ensures ok == Accepts(old(Value()).tables, RemoveWall(c, allowed))
      ensures Value() == Do(old(Value()), RemoveWall(c, allowed))
    {
      if !allowed || c !in walls {
        return false;
      }
      Cascade(c);
      log := log + [WallRemoved(c)];
      return true;
    }

    method DropCase(c: int) returns (ok: bool)
      modifies this
      ensures Value() == Do(old(Value()), DeleteCase(c))
    {
      if c !in cases {
        return false;
      }
      Cascade(c);
      cases := cases - {c};
      log := log + [CaseDeleted(c)];
      return true;
    }

    /** Deleting a wall row deletes the rows that refer to it. */
    method Cascade(c: int)
      modifies this`walls, this`insiders, this`grants
      ensures Value().tables == WithoutWall(old(Value()).tables, c)
    {
      walls := walls - {c};
      insiders := set i | i in insiders && i.0 != c;
      grants := set g | g in grants && g.caseId != c;
    }

    /** The read of a break-glass request. */
    method IsOutside(c: int, person: string) returns (outside: bool)
      ensures outside <==> c in walls && (c, person) !in insiders
    {
      if c !in walls {
        return false;
      }
      outside := (c, person) !in insiders;
    }

    /** The write that follows the read; a grant row needs its wall. */
    method TakeGrant(c: int, person: string, allowed: bool, outside: bool, at: int) returns (ok: bool)
      modifies this
      ensures ok == Accepts(old(Value()).tables, BreakGlass(c, person, allowed, outside, at))
      ensures Value() == Do(old(Value()), BreakGlass(c, person, allowed, outside, at))
    {
      if !allowed {
        return false;
      }
      var expires := at + BREAK_GLASS_SECONDS;
      if !outside || c !in walls {
        return false;
      }
      grants := grants + {Grant(c, person, expires)};
      log := log + [GlassBroken(c, person, at)];
      return true;
    }

    /** Where the tables are what the history implies, the query answers from the history. */
    method HiddenCaseIds(person: string, now: int) returns (hidden: set<int>)
      ensures Inv(Value()) ==> forall c :: c in hidden <==> Hidden(log, c, person, now)
      ensures hidden == HiddenCases(Value().tables, person, now)
    {
      hidden := set c | c in walls && (c, person) !in insiders
                        && forall g <- grants :: !(g.caseId == c && g.person == person && g.expires > now);
      if Inv(Value()) {
        forall c
          ensures c in hidden <==> Hidden(log, c, person, now)
        {
          HiddenMatches(Value(), c, person, now);
        }
      }
    }
  }

  // ------------------------------------------------------------------ the rule, read off the history

  /** The wall of the case ends here. */
  predicate Ends(e: Entry, c: int) {
    (e.WallRemoved? || e.CaseDeleted?) && e.caseId == c
  }

  predicate Lists(e: Entry, c: int) {
    e.WallSet? && e.caseId == c
  }

  /** Entry `i` is the insider list in force. */
  predicate InForce(log: seq<Entry>, c: int, i: int) {
    0 <= i < |log| && Lists(log[i], c) && forall j | i < j < |log| :: !Ends(log[j], c) && !Lists(log[j], c)
  }

  /** Entry `k` is a break-glass of this person, taken since the wall was last created. */
  predicate Standing(log: seq<Entry>, c: int, person: string, k: int) {
    && 0 <= k < |log| && log[k].GlassBroken? && log[k].caseId == c && log[k].person == person
    && forall j | k < j < |log| :: !Ends(log[j], c)
  }

  ghost predicate Hidden(log: seq<Entry>, c: int, person: string, now: int) {
    && (exists i :: InForce(log, c, i) && person !in log[i].insiders)
    && forall k | Standing(log, c, person, k) :: now - log[k].at >= BREAK_GLASS_SECONDS
  }

  ghost predicate WallsMatch(walls: set<int>, log: seq<Entry>) {
    forall c :: c in walls <==> exists i :: InForce(log, c, i)
  }

  ghost predicate ListsMatch(insiders: set<(int, string)>, log: seq<Entry>) {
    forall c, p :: (c, p) in insiders <==> exists i :: InForce(log, c, i) && p in log[i].insiders
  }

  ghost predicate GrantsMatch(grants: set<Grant>, log: seq<Entry>) {
    forall c, p, e :: Grant(c, p, e) in grants <==> exists k :: Standing(log, c, p, k) && log[k].at + BREAK_GLASS_SECONDS == e
  }

  ghost predicate Inv(w: World) {
    WallsMatch(w.tables.walls, w.log) && ListsMatch(w.tables.insiders, w.log) && GrantsMatch(w.tables.grants, w.log)
  }

  lemma InForceAppend(log: seq<Entry>, e: Entry, c: int, i: int)
    ensures InForce(log + [e], c, i) <==>
            if Ends(e, c) then false else if Lists(e, c) then i == |log| else InForce(log, c, i)
  {
    var more := log + [e];
    assert more[|log|] == e && forall j | 0 <= j < |log| :: more[j] == log[j];
  }

  lemma StandingAppend(log: seq<Entry>, e: Entry, c: int, person: string, k: int)
    ensures Standing(log + [e], c, person, k) <==>
            !Ends(e, c) && (Standing(log, c, person, k)
                            || (k == |log| && e.GlassBroken? && e.caseId == c && e.person == person))
  {
    var more := log + [e];
    assert more[|log|] == e && forall j | 0 <= j < |log| :: more[j] == log[j];
  }

  /** One entry more decides the cases it is about, and leaves the others. */
  lemma WallsFollow(walls: set<int>, walls': set<int>, log: seq<Entry>, e: Entry)
    requires WallsMatch(walls, log)
    requires forall c :: c in walls' <==> !Ends(e, c) && (Lists(e, c) || c in walls)
    ensures WallsMatch(walls', log + [e])
  {
    hide InForce;
    forall c
      ensures c in walls' <==> exists i :: InForce(log + [e], c, i)
    {
      forall i {
        InForceAppend(log, e, c, i);
      }
      InForceAppend(log, e, c, |log|);
    }
  }

  lemma ListsFollow(insiders: set<(int, string)>, insiders': set<(int, string)>, log: seq<Entry>, e: Entry)
    requires ListsMatch(insiders, log)
    requires forall c, p :: (c, p) in insiders'
               <==> !Ends(e, c) && if Lists(e, c) then p in e.insiders else (c, p) in insiders
    ensures ListsMatch(insiders', log + [e])
  {
    var more := log + [e];
    assert forall i | 0 <= i < |log| :: more[i] == log[i];
    assert forall c, i | InForce(log, c, i) :: 0 <= i < |log| && log[i].WallSet?;
    assert forall c, i | InForce(more, c, i) :: 0 <= i < |more| && more[i].WallSet?;
    hide InForce;
    forall c, p
      ensures (c, p) in insiders' <==> exists i :: InForce(more, c, i) && p in more[i].insiders
    {
      forall i {
        InForceAppend(log, e, c, i);
      }
      InForceAppend(log, e, c, |log|);
    }
  }

  lemma GrantsFollow(grants: set<Grant>, grants': set<Grant>, log: seq<Entry>, e: Entry)
    requires GrantsMatch(grants, log)
    requires forall c, p, x :: Grant(c, p, x) in grants'
               <==> !Ends(e, c) && (Grant(c, p, x) in grants || e == GlassBroken(c, p, x - BREAK_GLASS_SECONDS))
    ensures GrantsMatch(grants', log + [e])
  {
    var more := log + [e];
    assert more[|log|] == e && forall k | 0 <= k < |log| :: more[k] == log[k];
    assert forall c, p, k | Standing(log, c, p, k) :: 0 <= k < |log| && log[k].GlassBroken?;
    assert forall c, p, k | Standing(more, c, p, k) :: 0 <= k < |more| && more[k].GlassBroken?;
    hide Standing;
    forall c, p, x
      ensures Grant(c, p, x) in grants' <==> exists k :: Standing(more, c, p, k) && more[k].at + BREAK_GLASS_SECONDS == x
    {
      forall k {
        StandingAppend(log, e, c, p, k);
      }
      StandingAppend(log, e, c, p, |log|);
    }
  }

  lemma DoKeepsInv(w: World, q: Request)
    requires Inv(w)
    ensures Inv(Do(w, q))
  {
    hide WallsMatch, ListsMatch, GrantsMatch;
    var t := w.tables;
    if q.AddCase? {
      assert w.log + [] == w.log;
    } else if Accepts(t, q) {
      var (t', e) := (Apply(t, q), Logged(q)[0]);
      WallsFollow(t.walls, t'.walls, w.log, e);
      ListsFollow(t.insiders, t'.insiders, w.log, e);
      GrantsFollow(t.grants, t'.grants, w.log, e);
    }
  }

  lemma StartOk()
    ensures Inv(Start)
  {
  }

  lemma {:induction false} RunsKeepInv(requests: seq<Request>)
    ensures Inv(Exec(Start, requests))
    decreases |requests|
  {
    hide Inv, Do;
    if requests == [] {
      StartOk();
    } else {
      RunsKeepInv(requests[..|requests| - 1]);
      DoKeepsInv(Exec(Start, requests[..|requests| - 1]), requests[|requests| - 1]);
    }
  }

  /**
   After any history, a case is hidden from a person exactly when it is walled, the list in force
   omits the person, and no break-glass of theirs taken since the wall was created is younger
   than half an hour.
   */
  lemma HiddenByHistory(requests: seq<Request>, c: int, person: string, now: int)
    ensures c in HiddenCases(Exec(Start, requests).tables, person, now)
            <==> Hidden(Exec(Start, requests).log, c, person, now)
  {
    RunsKeepInv(requests);
    HiddenMatches(Exec(Start, requests), c, person, now);
  }

  lemma HiddenMatches(w: World, c: int, person: string, now: int)
    requires Inv(w)
    ensures c in HiddenCases(w.tables, person, now) <==> Hidden(w.log, c, person, now)
  {
    assert forall k | Standing(w.log, c, person, k) :: 0 <= k < |w.log| && w.log[k].GlassBroken?;
    assert forall i | InForce(w.log, c, i) :: 0 <= i < |w.log| && w.log[i].WallSet?;
    var t := w.tables;
    assert (exists i :: InForce(w.log, c, i) && person !in w.log[i].insiders) <==> c in t.walls && (c, person) !in t.insiders;
    forall g | g in t.grants && g.caseId == c && g.person == person
      ensures exists k :: Standing(w.log, c, person, k) && w.log[k].at + BREAK_GLASS_SECONDS == g.expires
    {
      assert Grant(c, person, g.expires) in t.grants;
    }
    forall k | Standing(w.log, c, person, k)
      ensures Grant(c, person, w.log[k].at + BREAK_GLASS_SECONDS) in t.grants
    {
    }
  }

  predicate Walled(log: seq<Entry>, c: int) {
    exists i | 0 <= i < |log| :: InForce(log, c, i)
  }

  /** What a request needs of the history, of the cases there are, and of what it brings. */
  predicate Effective(log: seq<Entry>, cases: set<int>, q: Request) {
    match q
    case AddCase(_) => false
    case DeleteCase(c) => c in cases
    case SetWall(c, allowed, names) =>
      allowed && c in cases && (exists n <- names :: !Blank(n)) && forall n <- names :: |Trim(n)| <= 100
    case RemoveWall(c, allowed) => allowed && Walled(log, c)
    case BreakGlass(c, _, allowed, outside, _) => allowed && outside && Walled(log, c)
  }

  /** The entry an effective request adds to the history. */
  ghost predicate Records(e: Entry, q: Request) {
    match q
    case AddCase(_) => false
    case DeleteCase(c) => e == CaseDeleted(c)
    case SetWall(c, _, names) =>
      e.WallSet? && e.caseId == c && forall p :: p in e.insiders <==> p != "" && exists n <- names :: Trim(n) == p
    case RemoveWall(c, _) => e == WallRemoved(c)
    case BreakGlass(c, person, _, _, at) => e == GlassBroken(c, person, at)
  }

  /** After any history a request is carried out exactly if it is effective, and is then what the history records; otherwise nothing changes. */
  lemma CarriedOutExactly(requests: seq<Request>, q: Request)
    requires !q.AddCase?
    ensures var (w, after) := (Exec(Start, requests), Do(Exec(Start, requests), q));
            if Effective(w.log, w.tables.cases, q)
            then |after.log| == |w.log| + 1 && after.log[..|w.log|] == w.log && Records(after.log[|w.log|], q)
            else after == w
  {
    RunsKeepInv(requests);
    var w := Exec(Start, requests);
    hide Exec, ListsMatch, GrantsMatch, InForce, Apply, Trim;
    assert forall c :: c in w.tables.walls <==> Walled(w.log, c) by {
      forall c
        ensures c in w.tables.walls <==> Walled(w.log, c)
      {
        InForceIsEntry(w.log, c);
      }
    }
    if q.SetWall? {
      NamesListed(q.names);
    }
  }

  lemma InForceIsEntry(log: seq<Entry>, c: int)
    ensures Walled(log, c) <==> exists i :: InForce(log, c, i)
  {
  }

  lemma NamesListed(names: seq<string>)
    ensures Listed(names) != {} <==> exists n <- names :: !Blank(n)
    ensures (forall n <- Listed(names) :: |n| <= 100) <==> forall n <- names :: |Trim(n)| <= 100
  {
    forall n | n in names
      ensures Trim(n) == "" <==> Blank(n)
    {
      TrimmedText(n);
    }
    hide Trim, Blank;
    forall n | n in names && !Blank(n)
      ensures Trim(n) in Listed(names)
    {
    }
  }

  /** What a break-glass reads is that the case is walled and the list in force omits the person. */
  lemma OutsideByHistory(requests: seq<Request>, c: int, person: string)
    ensures var (t, log) := (Exec(Start, requests).tables, Exec(Start, requests).log);
            c in t.walls && (c, person) !in t.insiders <==> exists i :: InForce(log, c, i) && person !in log[i].insiders
  {
    RunsKeepInv(requests);
    hide Exec, GrantsMatch;
    var log := Exec(Start, requests).log;
    assert forall i | InForce(log, c, i) :: 0 <= i < |log| && log[i].WallSet?;
    assert forall i, j | InForce(log, c, i) && InForce(log, c, j) :: i == j;
  }

  /** Adjusting a wall keeps the grants given on it; taking it down, or its case, ends them. */
  lemma GrantsOutliveLists(t: Tables, c: int, allowed: bool, names: seq<string>, g: Grant)
    requires g in t.grants
    ensures g in Apply(t, SetWall(c, allowed, names)).grants
    ensures g in Apply(t, RemoveWall(c, allowed)).grants <==> g.caseId != c
    ensures g in Apply(t, DeleteCase(c)).grants <==> g.caseId != c
  {
  }

  /** Rows of insiders and grants belong to walls, and walls to cases; every wall has an insider, and insiders are named without blanks around. */
  ghost predicate References(t: Tables) {
    && t.walls <= t.cases && (forall i <- t.insiders :: i.0 in t.walls) && (forall g <- t.grants :: g.caseId in t.walls)
    && (forall c <- t.walls :: exists p :: (c, p) in t.insiders)
    && (forall i <- t.insiders :: i.1 != "" && Trim(i.1) == i.1 && |i.1| <= 100)
  }

  lemma ListedNames(names: seq<string>)
    ensures forall n <- Listed(names) :: n != "" && Trim(n) == n
  {
    forall n | n in names
      ensures Trim(Trim(n)) == Trim(n)
    {
      TrimmedText(n);
    }
  }

  lemma DoKeepsReferences(w: World, q: Request)
    requires References(w.tables)
    ensures References(Do(w, q).tables)
  {
    var (t, t') := (w.tables, Do(w, q).tables);
    if q.SetWall? && Accepts(t, q) {
      ListedNames(q.names);
      var n :| n in Listed(q.names);
      assert (q.caseId, n) in t'.insiders;
      forall c | c in t'.walls
        ensures exists p :: (c, p) in t'.insiders
      {
        if c != q.caseId {
          var p :| (c, p) in t.insiders;
          assert (c, p) in t'.insiders;
        }
      }
    } else {
      forall c | c in t'.walls
        ensures exists p :: (c, p) in t'.insiders
      {
        var p :| (c, p) in t.insiders;
        assert (c, p) in t'.insiders;
      }
    }
  }

  lemma {:induction false} RunsKeepReferences(requests: seq<Request>)
    ensures References(Exec(Start, requests).tables)
    decreases |requests|
  {
    hide References, Do;
    if requests == [] {
      NoReferences();
    } else {
      RunsKeepReferences(requests[..|requests| - 1]);
      DoKeepsReferences(Exec(Start, requests[..|requests| - 1]), requests[|requests| - 1]);
    }
  }

  lemma NoReferences()
    ensures References(Start.tables)
  {
  }
}
