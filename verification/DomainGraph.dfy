/**
 The durable domain graph: the actions saved for a run, the receipts that say
 which of them happened, and the two-phase invocation that adds receipts while
 other invocations and a cancellation may interleave.
 */
module DomainGraph {
  import opened Wrappers
  import opened Planner

  // ---------------------------------------------------------------------
  // The saved graph
  // ---------------------------------------------------------------------

  datatype Kind = Plain | Domain | Join

  datatype Action = Action(id: Node, kind: Kind, dependencies: seq<Node>)

  /** The action at position `i` of the saved graph: preparation, specialists, their join, and the closing chain. */
  function ActionAt(chosen: seq<PlanNode>, i: nat): Action
    requires i < |chosen| + 9
  {
    var n := |chosen|;
    if i == 0 then Action(UserMessage, Plain, [])
    else if i == 1 then Action(Planning, Domain, [UserMessage])
    else if i == 2 then Action(MemoryRecall, Domain, [Planning])
    else if i == 3 then Action(Retrieve, Domain, [MemoryRecall])
    else if i < n + 4 then Action(chosen[i - 4].name, Domain, chosen[i - 4].dependsOn)
    else if i == n + 4 then Action(SpecialistJoin, Join, Names(chosen))
    else if i == n + 5 then Action(Critic, Domain, [SpecialistJoin])
    else if i == n + 6 then Action(Finish, Domain, [Critic])
    else if i == n + 7 then Action(PersistEffects, Domain, [Finish])
    else Action(Audit, Domain, [PersistEffects])
  }

  function ActionsFor(chosen: seq<PlanNode>): (graph: seq<Action>)
    ensures |graph| == |chosen| + 9
    ensures forall i | 0 <= i < |graph| :: graph[i] == ActionAt(chosen, i)
  {
    seq(|chosen| + 9, i requires 0 <= i < |chosen| + 9 => ActionAt(chosen, i))
  }

  method Actions(plan: seq<PlanNode>) returns (actions: seq<Action>)
    ensures actions == ActionsFor(Specialists(plan))
  {
    var specialists := Specialists(plan);
    actions := [Action(UserMessage, Plain, [])];
    actions := actions + [Action(Planning, Domain, [UserMessage])];
    actions := actions + [Action(MemoryRecall, Domain, [Planning])];
    actions := actions + [Action(Retrieve, Domain, [MemoryRecall])];
    for i := 0 to |specialists|
      invariant |actions| == i + 4
      invariant forall k | 0 <= k < |actions| :: actions[k] == ActionAt(specialists, k)
    {
      actions := actions + [Action(specialists[i].name, Domain, specialists[i].dependsOn)];
    }
    actions := actions + [Action(SpecialistJoin, Join, Names(specialists))];
    actions := actions + [Action(Critic, Domain, [SpecialistJoin])];
    actions := actions + [Action(Finish, Domain, [Critic])];
    actions := actions + [Action(PersistEffects, Domain, [Finish])];
    actions := actions + [Action(Audit, Domain, [PersistEffects])];
  }

  ghost predicate ListedBefore(graph: seq<Action>, n: nat, id: Node)
    requires n <= |graph|
  {
    exists j | 0 <= j < n :: graph[j].id == id
  }

  /** Identities are distinct and every dependency is listed before its dependant. */
  ghost predicate Topological(graph: seq<Action>) {
    && (forall i, j | 0 <= i < j < |graph| :: graph[i].id != graph[j].id)
    && (forall i, d | 0 <= i < |graph| && d in graph[i].dependencies :: ListedBefore(graph, i, d))
  }

  /** The saved graph is topologically ordered exactly when the plan's specialists are ordered. */
  lemma GraphIsTopological(chosen: seq<PlanNode>)
    requires forall p <- chosen :: p.name !in {Retrieve, Critic, Memory}
    ensures Topological(ActionsFor(chosen)) <==> Ordered(chosen)
  {
    if Ordered(chosen) {
      OrderedIsTopological(chosen);
    }
    if Topological(ActionsFor(chosen)) {
      TopologicalIsOrdered(chosen);
    }
  }

  lemma OrderedIsTopological(chosen: seq<PlanNode>)
    requires Ordered(chosen)
    ensures Topological(ActionsFor(chosen))
  {
    var g, n := ActionsFor(chosen), |chosen|;
    forall i, j | 0 <= i < j < |g|
      ensures g[i].id != g[j].id
    {
      if 4 <= i < n + 4 { assert g[4 + (i - 4)].id == chosen[i - 4].name; }
      if 4 <= j < n + 4 { assert g[4 + (j - 4)].id == chosen[j - 4].name; }
    }
    forall i, d | 0 <= i < |g| && d in g[i].dependencies
      ensures ListedBefore(g, i, d)
    {
      if 4 <= i < n + 4 {
        assert g[4 + (i - 4)].dependencies == chosen[i - 4].dependsOn;
        if d in {UserMessage, Planning, MemoryRecall, Retrieve} {
          assert exists j | 0 <= j < 4 :: g[j].id == d by {
            assert d == g[0].id || d == g[1].id || d == g[2].id || d == g[3].id;
          }
        } else {
          var j :| 0 <= j < i - 4 && chosen[j].name == d;
          assert g[4 + j].id == d;
        }
      } else if i == n + 4 {
        var j :| 0 <= j < n && Names(chosen)[j] == d;
        assert g[4 + j].id == d;
      } else {
        assert d == g[i - 1].id;
      }
    }
  }

  lemma TopologicalIsOrdered(chosen: seq<PlanNode>)
    requires forall p <- chosen :: p.name !in {Retrieve, Critic, Memory}
    requires Topological(ActionsFor(chosen))
    ensures Ordered(chosen)
  {
    var g, n := ActionsFor(chosen), |chosen|;
    forall i | 0 <= i < n
      ensures chosen[i].name.Specialist?
    {
      assert chosen[i] in chosen;
      assert g[4 + i].id == chosen[i].name;
      assert g[0].id != g[4 + i].id && g[1].id != g[4 + i].id && g[2].id != g[4 + i].id;
      assert g[4 + i].id != g[n + 4].id && g[4 + i].id != g[n + 6].id && g[4 + i].id != g[n + 7].id && g[4 + i].id != g[n + 8].id;
    }
    forall i, j | 0 <= i < j < n
      ensures chosen[i].name != chosen[j].name
    {
      assert g[4 + i].id != g[4 + j].id;
    }
    forall i, d | 0 <= i < n && d in chosen[i].dependsOn
      ensures d in {UserMessage, Planning, MemoryRecall, Retrieve} || exists j | 0 <= j < i :: chosen[j].name == d
    {
      assert d in g[4 + i].dependencies;
      assert ListedBefore(g, 4 + i, d);
      var j :| 0 <= j < 4 + i && g[j].id == d;
      if j >= 4 {
        assert g[4 + (j - 4)].id == chosen[j - 4].name;
      }
    }
  }

  // ---------------------------------------------------------------------
  // Receipts and what they complete
  // ---------------------------------------------------------------------

  /** A node's saved output; a gap is named by its rank in the order of canonical texts. */
  datatype Value = Value(text: string, gaps: seq<nat>)

  datatype EffectName = GapEffect(index: nat) | DraftEffect | MessageEffect | AuditEffect

  datatype Payload = GapPayload(gap: nat) | TextPayload(text: string) | AuditPayload

  datatype Effect = Effect(name: EffectName, payload: Payload)

  /** The step a receipt points to, with the child receipts it lists. */
  datatype Row = Row(completed: bool, value: Value, effects: seq<Effect>)

  type Rows = map<Node, Row>

  predicate Counts(a: Action, rows: Rows) {
    a.id in rows && (a.kind == Plain || rows[a.id].completed)
  }

  /** What a single pass over the first `n` actions marks as completed. */
  function Pass(graph: seq<Action>, rows: Rows, n: nat): set<Node>
    requires n <= |graph|
  {
    if n == 0 then {}
    else
      var before := Pass(graph, rows, n - 1);
      var a := graph[n - 1];
      if a.kind == Join then
        if forall d <- a.dependencies :: d in before then before + {a.id} else before
      else if Counts(a, rows) then before + {a.id} else before
  }

  function Completed(graph: seq<Action>, rows: Rows): set<Node> {
    Pass(graph, rows, |graph|)
  }

  function IsDomain(graph: seq<Action>, n: nat, id: Node): bool
    requires n <= |graph|
  {
    exists i | 0 <= i < n :: graph[i].id == id && graph[i].kind == Domain
  }

  /** The outputs the pass collects: one for each completed domain node. */
  function OutputsOf(graph: seq<Action>, rows: Rows, n: nat): map<Node, Value>
    requires n <= |graph|
  {
    map id | id in rows && rows[id].completed && IsDomain(graph, n, id) :: rows[id].value
  }

  function Outputs(graph: seq<Action>, rows: Rows): map<Node, Value> {
    OutputsOf(graph, rows, |graph|)
  }

  /** The pass itself, in the order of the saved graph. */
  method ReadOutputs(graph: seq<Action>, rows: Rows) returns (outputs: map<Node, Value>, completed: set<Node>)
    requires forall i, j | 0 <= i < j < |graph| :: graph[i].id != graph[j].id
    ensures outputs == Outputs(graph, rows) && completed == Completed(graph, rows)
  {
    outputs, completed := map[], {};
    for n := 0 to |graph|
      invariant completed == Pass(graph, rows, n)
      invariant outputs == OutputsOf(graph, rows, n)
    {
      var a := graph[n];
      DomainStep(graph, n);
      if a.kind == Join {
        if forall d <- a.dependencies :: d in completed {
          completed := completed + {a.id};
        }
      } else if a.id in rows {
        if a.kind == Domain {
          if rows[a.id].completed {
            outputs := outputs[a.id := rows[a.id].value];
            completed := completed + {a.id};
          }
        } else {
          completed := completed + {a.id};
        }
      }
    }
  }

  lemma DomainStep(graph: seq<Action>, n: nat)
    requires n < |graph|
    ensures forall id :: IsDomain(graph, n + 1, id) <==> IsDomain(graph, n, id) || (id == graph[n].id && graph[n].kind == Domain)
  {
    forall id | IsDomain(graph, n, id)
      ensures IsDomain(graph, n + 1, id)
    {
      var i :| 0 <= i < n && graph[i].id == id && graph[i].kind == Domain;
      assert i < n + 1;
    }
  }

  /** A node is completed when its own receipt says so, a join when everything it waits for is. */
  ghost predicate CompletionSet(graph: seq<Action>, rows: Rows, done: set<Node>) {
    && (forall id <- done :: ListedBefore(graph, |graph|, id))
    && (forall i | 0 <= i < |graph| ::
          graph[i].id in done <==>
            if graph[i].kind == Join then forall d <- graph[i].dependencies :: d in done else Counts(graph[i], rows))
  }

  lemma {:induction false} PassMembers(graph: seq<Action>, rows: Rows, n: nat, m: nat)
    requires Topological(graph) && n <= m <= |graph|
    ensures forall id <- Pass(graph, rows, n) :: ListedBefore(graph, n, id)
    ensures forall i | 0 <= i < n :: graph[i].id in Pass(graph, rows, m) <==> graph[i].id in Pass(graph, rows, n)
    decreases m
  {
    if m > n {
      PassMembers(graph, rows, n, m - 1);
    } else if n > 0 {
      PassMembers(graph, rows, n - 1, n - 1);
    }
  }

  lemma PassDecides(graph: seq<Action>, rows: Rows, i: nat)
    requires Topological(graph) && i < |graph|
    ensures graph[i].id in Completed(graph, rows) <==>
              if graph[i].kind == Join then forall d <- graph[i].dependencies :: d in Completed(graph, rows)
              else Counts(graph[i], rows)
  {
    PassMembers(graph, rows, i, |graph|);
    PassMembers(graph, rows, i + 1, |graph|);
    assert graph[i].id !in Pass(graph, rows, i);
    forall d | d in graph[i].dependencies
      ensures d in Pass(graph, rows, i) <==> d in Completed(graph, rows)
    {
      assert ListedBefore(graph, i, d);
    }
  }

  /** In a topologically ordered graph one pass finds exactly the completed nodes, and there is only one such set. */
  lemma PassFindsExactlyTheCompleted(graph: seq<Action>, rows: Rows, done: set<Node>)
    requires Topological(graph)
    ensures CompletionSet(graph, rows, done) <==> done == Completed(graph, rows)
  {
    PassMembers(graph, rows, |graph|, |graph|);
    forall i | 0 <= i < |graph|
      ensures graph[i].id in Completed(graph, rows) <==>
                if graph[i].kind == Join then forall d <- graph[i].dependencies :: d in Completed(graph, rows)
                else Counts(graph[i], rows)
    {
      PassDecides(graph, rows, i);
    }
    assert CompletionSet(graph, rows, Completed(graph, rows));
    if CompletionSet(graph, rows, done) {
      SameCompletion(graph, rows, done, |graph|);
    }
  }

  lemma {:induction false} SameCompletion(graph: seq<Action>, rows: Rows, done: set<Node>, n: nat)
    requires Topological(graph) && n <= |graph|
    requires CompletionSet(graph, rows, done) && CompletionSet(graph, rows, Completed(graph, rows))
    ensures forall i | 0 <= i < n :: graph[i].id in done <==> graph[i].id in Completed(graph, rows)
    ensures n == |graph| ==> done == Completed(graph, rows)
  {
    if n > 0 {
      SameCompletion(graph, rows, done, n - 1);
      forall d | d in graph[n - 1].dependencies
        ensures d in done <==> d in Completed(graph, rows)
      {
        assert ListedBefore(graph, n - 1, d);
      }
    }
    if n == |graph| {
      assert forall id | id in done || id in Completed(graph, rows) :: ListedBefore(graph, |graph|, id);
    }
  }

  /** Without the ordering the pass can miss a join whose inputs come later. */
  lemma UnorderedPassMisses(x: Node, y: Node, value: Value)
    requires x != y
    ensures var graph := [Action(x, Join, [y]), Action(y, Domain, [])];
            var rows := map[y := Row(true, value, [])];
            CompletionSet(graph, rows, {x, y}) && Completed(graph, rows) == {y}
  {
    var graph := [Action(x, Join, [y]), Action(y, Domain, [])];
    var rows := map[y := Row(true, value, [])];
    assert graph[0].id == x && graph[1].id == y;
    assert y in graph[0].dependencies;
    assert Pass(graph, rows, 0) == {};
    assert Pass(graph, rows, 1) == {};
    assert Pass(graph, rows, 2) == {y};
  }

  /** New receipts never take a completion back. */
  lemma {:induction false} PassGrows(graph: seq<Action>, rows: Rows, more: Rows, n: nat)
    requires n <= |graph| && forall id <- rows :: id in more && more[id] == rows[id]
    ensures Pass(graph, rows, n) <= Pass(graph, more, n)
  {
    if n > 0 {
      PassGrows(graph, rows, more, n - 1);
    }
  }

  // ---------------------------------------------------------------------
  // The effects of a completed node
  // ---------------------------------------------------------------------

  const MAX_GAPS := 100

  ghost predicate Ascending(s: seq<nat>) {
    forall i, j | 0 <= i < j < |s| :: s[i] < s[j]
  }

  /** Put one gap in its place in an ascending list, unless it is there already. */
  function InsertGap(sorted: seq<nat>, gap: nat): (r: seq<nat>)
    ensures forall x :: x in r <==> x in sorted || x == gap
  {
    if sorted == [] then [gap]
    else
      assert sorted == [sorted[0]] + sorted[1..];
      if gap < sorted[0] then [gap] + sorted
      else if gap == sorted[0] then sorted
      else [sorted[0]] + InsertGap(sorted[1..], gap)
  }

  lemma {:induction false} InsertKeepsAscending(sorted: seq<nat>, gap: nat)
    requires Ascending(sorted)
    ensures Ascending(InsertGap(sorted, gap))
  {
    if sorted != [] && gap > sorted[0] {
      var rest := InsertGap(sorted[1..], gap);
      InsertKeepsAscending(sorted[1..], gap);
      forall i | 0 <= i < |rest|
        ensures sorted[0] < rest[i]
      {
        assert rest[i] in rest;
      }
    }
  }

  function SortedGaps(gaps: seq<nat>): (r: seq<nat>)
    ensures forall x :: x in r <==> x in gaps
    ensures Ascending(r)
  {
    if gaps == [] then []
    else
      var n := |gaps| - 1;
      assert gaps == gaps[..n] + [gaps[n]];
      InsertKeepsAscending(SortedGaps(gaps[..n]), gaps[n]);
      InsertGap(SortedGaps(gaps[..n]), gaps[n])
  }

  function GapEffects(sorted: seq<nat>): (effects: seq<Effect>)
    ensures |effects| == |sorted|
    ensures forall i | 0 <= i < |sorted| :: effects[i] == Effect(GapEffect(i), GapPayload(sorted[i]))
  {
    seq(|sorted|, i requires 0 <= i < |sorted| => Effect(GapEffect(i), GapPayload(sorted[i])))
  }

  function ReportedGaps(outputs: map<Node, Value>): seq<nat> {
    if Specialist(GapDetection) in outputs then outputs[Specialist(GapDetection)].gaps else []
  }

  /** The child writes of a node, or None when the node's inputs do not allow them. */
  function EffectsFor(node: Node, outputs: map<Node, Value>, persist: bool): Option<seq<Effect>> {
    if node == Audit then Some([Effect(AuditEffect, AuditPayload)])
    else if node != PersistEffects then Some([])
    else if Finish !in outputs then None
    else
      var gaps := SortedGaps(ReportedGaps(outputs));
      if |gaps| > MAX_GAPS then None
      else
        var answer := TextPayload(outputs[Finish].text);
        Some(GapEffects(gaps)
             + (if persist then [Effect(DraftEffect, answer)] else [])
             + [Effect(MessageEffect, answer)])
  }

  /** Each gap once, then the draft if memory is kept, then exactly one message: no two effects share a name. */
  lemma EffectNamesAreDistinct(node: Node, outputs: map<Node, Value>, persist: bool, i: nat, j: nat)
    requires EffectsFor(node, outputs, persist).Some?
    requires i < j < |EffectsFor(node, outputs, persist).value|
    ensures EffectsFor(node, outputs, persist).value[i].name != EffectsFor(node, outputs, persist).value[j].name
  {
  }

  ghost predicate Within(a: seq<nat>, b: seq<nat>) {
    forall i | 0 <= i < |a| :: a[i] in b
  }

  lemma SameHead(a: seq<nat>, b: seq<nat>)
    requires Ascending(a) && Ascending(b) && Within(a, b) && Within(b, a) && a != [] && b != []
    ensures a[0] == b[0]
  {
    assert a[0] in b && b[0] in a;
    var i :| 0 <= i < |a| && a[i] == b[0];
    var j :| 0 <= j < |b| && b[j] == a[0];
  }

  lemma TailWithin(a: seq<nat>, b: seq<nat>)
    requires Ascending(a) && Within(a, b) && a != [] && b != [] && a[0] == b[0]
    ensures Within(a[1..], b[1..]) && Ascending(a[1..])
  {
    forall i | 0 <= i < |a| - 1
      ensures a[1..][i] in b[1..]
    {
      assert a[0] < a[i + 1] && a[i + 1] in b;
      var j :| 0 <= j < |b| && b[j] == a[i + 1];
      assert b[1..][j - 1] == a[i + 1];
    }
  }

  lemma HeadWithin(a: seq<nat>, b: seq<nat>)
    requires a != [] && Within(a, b)
    ensures b != []
  {
    assert a[0] in b;
  }

  lemma EmptyWithin(a: seq<nat>, b: seq<nat>)
    requires Within(a, b) && Within(b, a) && (a == [] || b == [])
    ensures a == b
  {
    if a != [] {
      HeadWithin(a, b);
    }
    if b != [] {
      HeadWithin(b, a);
    }
  }

  lemma {:induction false} AscendingIsUnique(a: seq<nat>, b: seq<nat>)
    requires Ascending(a) && Ascending(b) && Within(a, b) && Within(b, a)
    ensures a == b
  {
    hide Ascending, Within;
    if a == [] || b == [] {
      EmptyWithin(a, b);
    } else {
      SameHead(a, b);
      TailWithin(a, b);
      TailWithin(b, a);
      AscendingIsUnique(a[1..], b[1..]);
      assert a == [a[0]] + a[1..] && b == [b[0]] + b[1..];
    }
  }

  /** Neither the order nor the repetition of the reported gaps shows in the effects. */
  lemma GapOrderIsIrrelevant(outputs: map<Node, Value>, other: map<Node, Value>, persist: bool)
    requires Finish in outputs && Finish in other && outputs[Finish].text == other[Finish].text
    requires forall x :: x in ReportedGaps(outputs) <==> x in ReportedGaps(other)
    ensures EffectsFor(PersistEffects, outputs, persist) == EffectsFor(PersistEffects, other, persist)
  {
    var a, b := SortedGaps(ReportedGaps(outputs)), SortedGaps(ReportedGaps(other));
    assert Within(a, b) && Within(b, a);
    AscendingIsUnique(a, b);
  }

  /** What an effects node writes, effect by effect: the distinct gaps in order, the draft if memory is kept, the message. */
  lemma EffectsListed(outputs: map<Node, Value>, persist: bool, e: Effect)
    requires EffectsFor(PersistEffects, outputs, persist).Some?
    ensures Finish in outputs
    ensures var (gaps, answer) := (SortedGaps(ReportedGaps(outputs)), TextPayload(outputs[Finish].text));
            e in EffectsFor(PersistEffects, outputs, persist).value <==>
              || (e.name.GapEffect? && e.name.index < |gaps| && e.payload == GapPayload(gaps[e.name.index]))
              || (e == Effect(DraftEffect, answer) && persist)
              || e == Effect(MessageEffect, answer)
  {
    var gaps := SortedGaps(ReportedGaps(outputs));
    hide SortedGaps, ReportedGaps;
    if e.name.GapEffect? && e.name.index < |gaps| {
      assert GapEffects(gaps)[e.name.index] == Effect(e.name, GapPayload(gaps[e.name.index]));
    }
  }

  function Distinct(gaps: seq<nat>): set<nat> {
    set gap | gap in gaps
  }

  lemma {:induction false} AscendingCount(s: seq<nat>)
    requires Ascending(s)
    ensures |s| == |Distinct(s)|
  {
    if s == [] {
      assert Distinct(s) == {};
    } else {
      var n := |s| - 1;
      AscendingCount(s[..n]);
      LastIsNew(s);
    }
  }

  lemma LastIsNew(s: seq<nat>)
    requires Ascending(s) && s != []
    ensures Distinct(s) == Distinct(s[..|s| - 1]) + {s[|s| - 1]} && s[|s| - 1] !in Distinct(s[..|s| - 1])
  {
    assert s == s[..|s| - 1] + [s[|s| - 1]];
  }

  /** The effects are refused exactly when there is no answer, or more than a hundred different gaps. */
  lemma EffectsRefused(outputs: map<Node, Value>, persist: bool)
    ensures EffectsFor(PersistEffects, outputs, persist).None?
            <==> Finish !in outputs || |Distinct(ReportedGaps(outputs))| > MAX_GAPS
  {
    var sorted := SortedGaps(ReportedGaps(outputs));
    AscendingCount(sorted);
    assert Distinct(ReportedGaps(outputs)) == Distinct(sorted);
  }

  method DistinctGaps(reported: seq<nat>) returns (gaps: seq<nat>)
    ensures gaps == SortedGaps(reported)
  {
    gaps := [];
    for i := 0 to |reported|
      invariant gaps == SortedGaps(reported[..i])
    {
      assert reported[..i + 1][..i] == reported[..i];
      gaps := InsertGap(gaps, reported[i]);
    }
    assert reported[..|reported|] == reported;
  }

  /** The effect list, built in the order of the source. */
  method ListEffects(node: Node, outputs: map<Node, Value>, persist: bool) returns (effects: Option<seq<Effect>>)
    ensures effects == EffectsFor(node, outputs, persist)
  {
    if node == Audit {
      return Some([Effect(AuditEffect, AuditPayload)]);
    }
    if node != PersistEffects {
      return Some([]);
    }
    if Finish !in outputs {
      return None;
    }
    var gaps := DistinctGaps(ReportedGaps(outputs));
    if |gaps| > MAX_GAPS {
      return None;
    }
    var list: seq<Effect> := [];
    for index := 0 to |gaps|
      invariant list == GapEffects(gaps)[..index]
    {
      list := list + [Effect(GapEffect(index), GapPayload(gaps[index]))];
    }
    ghost var answer := TextPayload(outputs[Finish].text);
    assert list == GapEffects(gaps);
    if persist {
      list := list + [Effect(DraftEffect, TextPayload(outputs[Finish].text))];
    }
    assert list == GapEffects(gaps) + if persist then [Effect(DraftEffect, answer)] else [];
    list := list + [Effect(MessageEffect, TextPayload(outputs[Finish].text))];
    effects := Some(list);
  }

  // ---------------------------------------------------------------------
  // Two-phase invocations
  // ---------------------------------------------------------------------

  type Plan = seq<PlanNode>
  type EffectTable = map<(Node, EffectName), Payload>

  function Done(chosen: Plan, rows: Rows): set<Node> {
    Completed(ActionsFor(chosen), rows)
  }

  function Outs(chosen: Plan, rows: Rows): map<Node, Value> {
    Outputs(ActionsFor(chosen), rows)
  }

  /** A domain node of the graph whose dependencies have all completed. */
  predicate Ready(chosen: Plan, rows: Rows, node: Node) {
    var graph := ActionsFor(chosen);
    exists i | 0 <= i < |graph| ::
      graph[i].id == node && graph[i].kind == Domain && forall d <- graph[i].dependencies :: d in Done(chosen, rows)
  }

  /** The first phase of an invocation: the node and the outputs it was computed from. */
  datatype Ticket = Ticket(node: Node, outputs: map<Node, Value>)

  datatype Outcome = Computed(value: Value) | Rejected(value: Value)

  /** `closed` is set once the run is cancelled or its deadline has passed. */
  datatype Db = Db(chosen: Plan, persist: bool, rows: Rows, effects: EffectTable, tickets: map<nat, Ticket>, closed: bool)

  datatype Event =
    | Close
    | WriteMessage
    | Begin(ticket: nat, node: Node)
    | Commit(ticket: nat, outcome: Outcome)
    | Abort(ticket: nat)

  function WithEffects(table: EffectTable, node: Node, effects: seq<Effect>): EffectTable
    decreases |effects|
  {
    if effects == [] then table
    else WithEffects(table[(node, effects[0].name) := effects[0].payload], node, effects[1..])
  }

  /** The receipt and child receipts the second phase adds, or None when it is denied or rolled back. */
  function Recorded(db: Db, ticket: Ticket, outcome: Outcome): Option<Row> {
    if db.closed || Outs(db.chosen, db.rows) != ticket.outputs || ticket.node in db.rows then None
    else
      match outcome
      case Rejected(value) => Some(Row(false, value, []))
      case Computed(value) =>
        var effects := EffectsFor(ticket.node, ticket.outputs, db.persist);
        if effects.None? then None else Some(Row(true, value, effects.value))
  }

  function Add(db: Db, node: Node, row: Row): Db {
    db.(rows := db.rows[node := row], effects := WithEffects(db.effects, node, row.effects))
  }

  const MessageRow := Row(true, Value("", []), [])

  function Do(db: Db, e: Event): Db {
    match e
    case Close => db.(closed := true)
    case WriteMessage =>
      if db.closed || UserMessage in db.rows then db else Add(db, UserMessage, MessageRow)
    case Begin(ticket, node) =>
      if ticket in db.tickets || node in db.rows || db.closed || !Ready(db.chosen, db.rows, node) then db
      else db.(tickets := db.tickets[ticket := Ticket(node, Outs(db.chosen, db.rows))])
    case Commit(ticket, outcome) =>
      if ticket !in db.tickets then db
      else
        var spent := db.(tickets := db.tickets - {ticket});
        var row := Recorded(db, db.tickets[ticket], outcome);
        if row.None? then spent else Add(spent, db.tickets[ticket].node, row.value)
    case Abort(ticket) => db.(tickets := db.tickets - {ticket})
  }

  // ---------------------------------------------------------------------
  // What every event keeps
  // ---------------------------------------------------------------------

  /** Whatever has a receipt, its dependencies have completed. */
  ghost predicate Closed(chosen: Plan, rows: Rows) {
    forall i | 0 <= i < |ActionsFor(chosen)| && ActionAt(chosen, i).id in rows && ActionAt(chosen, i).kind == Domain ::
      forall d <- ActionAt(chosen, i).dependencies :: d in Done(chosen, rows)
  }

  ghost predicate Registered(chosen: Plan, rows: Rows) {
    forall id <- rows :: id == UserMessage || IsDomain(ActionsFor(chosen), |ActionsFor(chosen)|, id)
  }

  /** The child receipts in the table are exactly those the receipts list; a failed node has none. */
  ghost predicate ChildrenMatch(rows: Rows, effects: EffectTable) {
    && (forall id <- rows :: forall e <- rows[id].effects ::
          (id, e.name) in effects && effects[(id, e.name)] == e.payload)
    && (forall k <- effects :: k.0 in rows && Effect(k.1, effects[k]) in rows[k.0].effects)
    && (forall id <- rows :: !rows[id].completed ==> rows[id].effects == [])
  }

  /** A completed node's children are the ones its present inputs call for. */
  ghost predicate EffectsCurrent(chosen: Plan, persist: bool, rows: Rows) {
    forall id <- rows :: rows[id].completed && id != UserMessage ==>
      EffectsFor(id, Outs(chosen, rows), persist) == Some(rows[id].effects)
  }

  ghost predicate TicketsReady(chosen: Plan, rows: Rows, tickets: map<nat, Ticket>) {
    forall t <- tickets :: Ready(chosen, rows, tickets[t].node)
  }

  ghost predicate Inv(db: Db) {
    && Ordered(db.chosen)
    && Closed(db.chosen, db.rows)
    && Registered(db.chosen, db.rows)
    && ChildrenMatch(db.rows, db.effects)
    && EffectsCurrent(db.chosen, db.persist, db.rows)
    && TicketsReady(db.chosen, db.rows, db.tickets)
  }

  ghost predicate Grown<K(!new), V(!new)>(m: map<K, V>, more: map<K, V>) {
    forall k <- m :: k in more && more[k] == m[k]
  }

  /** Nothing that was recorded changes or disappears. */
  ghost predicate Extends(db: Db, later: Db) {
    && later.chosen == db.chosen && later.persist == db.persist
    && (db.closed ==> later.closed && later.rows == db.rows && later.effects == db.effects)
    && Grown(db.rows, later.rows) && Grown(db.effects, later.effects)
  }

  lemma DomainNodes(chosen: Plan, id: Node)
    ensures var g := ActionsFor(chosen);
            IsDomain(g, |g|, id) <==>
              || id in {Planning, MemoryRecall, Retrieve, Critic, Finish, PersistEffects, Audit}
              || id in Names(chosen)
  {
    var g, n := ActionsFor(chosen), |chosen|;
    assert g[1].id == Planning && g[2].id == MemoryRecall && g[3].id == Retrieve;
    assert g[n + 5].id == Critic && g[n + 6].id == Finish && g[n + 7].id == PersistEffects && g[n + 8].id == Audit;
    if id in Names(chosen) {
      var i :| 0 <= i < n && Names(chosen)[i] == id;
      assert g[i + 4].id == id && g[i + 4].kind == Domain;
    }
  }

  /** The node at position `i` and everything it waits for, given that it has a receipt or is completed. */
  lemma Waited(chosen: Plan, rows: Rows, i: nat)
    requires Ordered(chosen) && Closed(chosen, rows) && i < |chosen| + 9
    requires var a := ActionAt(chosen, i); a.id in Done(chosen, rows) || (a.id in rows && a.kind == Domain)
    ensures var a := ActionAt(chosen, i);
            && (a.kind != Plain ==> forall d <- a.dependencies :: d in Done(chosen, rows))
            && (a.kind != Join ==> a.id in rows)
            && (a.id in Done(chosen, rows) && a.kind == Domain ==> rows[a.id].completed)
  {
    OrderedIsTopological(chosen);
    PassDecides(ActionsFor(chosen), rows, i);
  }

  lemma WaitedExperts(chosen: Plan, rows: Rows)
    requires Ordered(chosen) && Closed(chosen, rows) && SpecialistJoin in Done(chosen, rows)
    ensures forall id <- Names(chosen) :: id in rows && rows[id].completed && id in Done(chosen, rows)
  {
    var n := |chosen|;
    Waited(chosen, rows, n + 4);
    forall id | id in Names(chosen)
      ensures id in rows && rows[id].completed && id in Done(chosen, rows)
    {
      var i :| 0 <= i < n && Names(chosen)[i] == id;
      assert ActionAt(chosen, i + 4).id == id && ActionAt(chosen, i + 4).kind == Domain;
      Waited(chosen, rows, i + 4);
    }
  }

  /** Once there is an answer, every specialist's output is final. */
  lemma InputsOfAnswer(chosen: Plan, rows: Rows)
    requires Ordered(chosen) && Closed(chosen, rows) && Finish in Done(chosen, rows)
    ensures Finish in rows && rows[Finish].completed
    ensures forall id <- Names(chosen) :: id in rows && rows[id].completed
  {
    var n := |chosen|;
    assert ActionAt(chosen, n + 6) == Action(Finish, Domain, [Critic]);
    assert ActionAt(chosen, n + 5) == Action(Critic, Domain, [SpecialistJoin]);
    hide ActionAt, Closed, Ordered;
    Waited(chosen, rows, n + 6);
    assert Critic in Done(chosen, rows);
    Waited(chosen, rows, n + 5);
    assert SpecialistJoin in Done(chosen, rows);
    WaitedExperts(chosen, rows);
  }

  /** The effects node is given its receipt only when there is an answer. */
  lemma EffectsFollowAnswer(chosen: Plan, rows: Rows)
    requires Ordered(chosen) && Closed(chosen, rows) && PersistEffects in rows
    ensures Finish in Done(chosen, rows)
  {
    assert ActionAt(chosen, |chosen| + 7) == Action(PersistEffects, Domain, [Finish]);
    hide ActionAt, Closed, Ordered;
    Waited(chosen, rows, |chosen| + 7);
  }

  lemma DoneGrows(chosen: Plan, rows: Rows, more: Rows)
    requires Grown(rows, more)
    ensures Done(chosen, rows) <= Done(chosen, more)
    ensures forall id :: Ready(chosen, rows, id) ==> Ready(chosen, more, id)
  {
    PassGrows(ActionsFor(chosen), rows, more, |ActionsFor(chosen)|);
  }

  lemma OutsAfter(chosen: Plan, rows: Rows, id: Node, row: Row, other: Node)
    requires id !in rows && other != id
    ensures var before, after := Outs(chosen, rows), Outs(chosen, rows[id := row]);
            && (other in before <==> other in after)
            && (other in before ==> before[other] == after[other])
  {
  }

  lemma EffectsDependOn(n: Node, outs: map<Node, Value>, later: map<Node, Value>, persist: bool)
    requires n == PersistEffects ==>
               forall m | m == Finish || m == Specialist(GapDetection) ::
                 (m in outs <==> m in later) && (m in outs ==> outs[m] == later[m])
    ensures EffectsFor(n, outs, persist) == EffectsFor(n, later, persist)
  {
  }

  /** A node that is about to get its receipt is not one the stored effects were computed from. */
  lemma ReadyIsNotUsed(chosen: Plan, rows: Rows, id: Node, m: Node)
    requires Ordered(chosen) && Closed(chosen, rows) && id !in rows && Ready(chosen, rows, id)
    requires id == PersistEffects || PersistEffects in rows
    requires m == Finish || m == Specialist(GapDetection)
    ensures m != id
  {
    if PersistEffects in rows {
      EffectsFollowAnswer(chosen, rows);
      InputsOfAnswer(chosen, rows);
      DomainNodes(chosen, id);
    }
  }

  /** A receipt for a ready node leaves the effects of every earlier receipt current. */
  lemma EffectsStayCurrent(chosen: Plan, persist: bool, rows: Rows, id: Node, row: Row)
    requires Ordered(chosen) && Closed(chosen, rows) && EffectsCurrent(chosen, persist, rows)
    requires id !in rows && (id == UserMessage || Ready(chosen, rows, id))
    requires id != UserMessage && row.completed ==> EffectsFor(id, Outs(chosen, rows), persist) == Some(row.effects)
    ensures EffectsCurrent(chosen, persist, rows[id := row])
  {
    hide EffectsFor, Ready, Closed, Ordered, Outs;
    var more := rows[id := row];
    forall n | n in more && more[n].completed && n != UserMessage
      ensures EffectsFor(n, Outs(chosen, more), persist) == Some(more[n].effects)
    {
      if n == PersistEffects {
        forall m | m == Finish || m == Specialist(GapDetection)
          ensures var before, after := Outs(chosen, rows), Outs(chosen, more);
                  (m in before <==> m in after) && (m in before ==> before[m] == after[m])
        {
          if id != UserMessage {
            ReadyIsNotUsed(chosen, rows, id, m);
          }
          OutsAfter(chosen, rows, id, row, m);
        }
      }
      EffectsDependOn(n, Outs(chosen, rows), Outs(chosen, more), persist);
    }
  }

  lemma RowKeepsClosed(chosen: Plan, rows: Rows, id: Node, row: Row)
    requires Ordered(chosen) && Closed(chosen, rows) && Registered(chosen, rows)
    requires id !in rows && (id == UserMessage || Ready(chosen, rows, id))
    ensures Closed(chosen, rows[id := row]) && Registered(chosen, rows[id := row])
  {
    var more, g := rows[id := row], ActionsFor(chosen);
    DoneGrows(chosen, rows, more);
    OrderedIsTopological(chosen);
    assert g[0].id == UserMessage && g[0].kind == Plain;
    forall i | 0 <= i < |g| && ActionAt(chosen, i).id in more && ActionAt(chosen, i).kind == Domain
      ensures forall d <- ActionAt(chosen, i).dependencies :: d in Done(chosen, more)
    {
      assert g[i] == ActionAt(chosen, i);
    }
  }

  lemma {:induction false} WithEffectsLookup(table: EffectTable, node: Node, effects: seq<Effect>)
    requires forall i, j | 0 <= i < j < |effects| :: effects[i].name != effects[j].name
    ensures forall e <- effects :: (node, e.name) in WithEffects(table, node, effects)
              && WithEffects(table, node, effects)[(node, e.name)] == e.payload
    ensures forall k <- WithEffects(table, node, effects) ::
              || (k in table && WithEffects(table, node, effects)[k] == table[k])
              || (k.0 == node && Effect(k.1, WithEffects(table, node, effects)[k]) in effects)
    ensures forall k <- table :: k in WithEffects(table, node, effects)
    ensures forall k <- table :: k.0 != node ==> WithEffects(table, node, effects)[k] == table[k]
    decreases |effects|
  {
    if effects != [] {
      var first := effects[0];
      var one := table[(node, first.name) := first.payload];
      WithEffectsLookup(one, node, effects[1..]);
      var all := WithEffects(table, node, effects);
      assert forall e <- effects[1..] :: e.name != first.name;
      assert (node, first.name) in all;
      assert all[(node, first.name)] == first.payload;
    }
  }

  lemma AddKeepsChildren(rows: Rows, table: EffectTable, id: Node, row: Row)
    requires ChildrenMatch(rows, table) && id !in rows
    requires forall i, j | 0 <= i < j < |row.effects| :: row.effects[i].name != row.effects[j].name
    requires !row.completed ==> row.effects == []
    ensures ChildrenMatch(rows[id := row], WithEffects(table, id, row.effects))
    ensures Grown(table, WithEffects(table, id, row.effects))
  {
    WithEffectsLookup(table, id, row.effects);
    hide WithEffects;
    ChildrenOfMore(rows, table, id, row, WithEffects(table, id, row.effects));
  }

  lemma ChildrenOfMore(rows: Rows, table: EffectTable, id: Node, row: Row, all: EffectTable)
    requires ChildrenMatch(rows, table) && id !in rows && (!row.completed ==> row.effects == [])
    requires forall e <- row.effects :: (id, e.name) in all && all[(id, e.name)] == e.payload
    requires forall k <- all :: (k in table && all[k] == table[k]) || (k.0 == id && Effect(k.1, all[k]) in row.effects)
    requires forall k <- table :: k in all && all[k] == table[k]
    ensures ChildrenMatch(rows[id := row], all)
  {
    forall n, e | n in rows && e in rows[n].effects
      ensures (n, e.name) in all && all[(n, e.name)] == e.payload
    {
      assert (n, e.name) in table;
    }
  }

  lemma AddKeepsInv(db: Db, id: Node, row: Row)
    requires Inv(db) && !db.closed && id !in db.rows && (id == UserMessage || Ready(db.chosen, db.rows, id))
    requires id != UserMessage && row.completed ==> EffectsFor(id, Outs(db.chosen, db.rows), db.persist) == Some(row.effects)
    requires forall i, j | 0 <= i < j < |row.effects| :: row.effects[i].name != row.effects[j].name
    requires !row.completed ==> row.effects == []
    ensures Inv(Add(db, id, row)) && Extends(db, Add(db, id, row))
  {
    hide Closed, Ordered, Registered, EffectsCurrent, Ready, ChildrenMatch, EffectsFor, Outs;
    RowKeepsClosed(db.chosen, db.rows, id, row);
    EffectsStayCurrent(db.chosen, db.persist, db.rows, id, row);
    AddKeepsChildren(db.rows, db.effects, id, row);
    DoneGrows(db.chosen, db.rows, db.rows[id := row]);
  }

  lemma CommitIsSound(db: Db, ticket: Ticket, outcome: Outcome)
    requires Recorded(db, ticket, outcome).Some? && Ready(db.chosen, db.rows, ticket.node)
    ensures var row := Recorded(db, ticket, outcome).value;
            && (row.completed ==> EffectsFor(ticket.node, Outs(db.chosen, db.rows), db.persist) == Some(row.effects))
            && (!row.completed ==> row.effects == [])
            && forall i, j | 0 <= i < j < |row.effects| :: row.effects[i].name != row.effects[j].name
  {
    hide Outs;
    var row := Recorded(db, ticket, outcome).value;
    forall i, j | 0 <= i < j < |row.effects|
      ensures row.effects[i].name != row.effects[j].name
    {
      EffectNamesAreDistinct(ticket.node, ticket.outputs, db.persist, i, j);
    }
  }

  lemma DoKeepsInv(db: Db, e: Event)
    requires Inv(db)
    ensures Inv(Do(db, e)) && Extends(db, Do(db, e))
  {
    hide Closed, Ordered, Registered, EffectsCurrent, Ready, ChildrenMatch, EffectsFor, Outs;
    match e
    case WriteMessage =>
      if !db.closed && UserMessage !in db.rows {
        AddKeepsInv(db, UserMessage, MessageRow);
      }
    case Commit(ticket, outcome) =>
      if ticket in db.tickets && Recorded(db, db.tickets[ticket], outcome).Some? {
        CommitIsSound(db, db.tickets[ticket], outcome);
        AddKeepsInv(db.(tickets := db.tickets - {ticket}), db.tickets[ticket].node, Recorded(db, db.tickets[ticket], outcome).value);
      }
    case _ =>
  }

  // ---------------------------------------------------------------------
  // Whole runs
  // ---------------------------------------------------------------------

  ghost function Exec(chosen: Plan, persist: bool, events: seq<Event>): (db: Db)
    requires Ordered(chosen)
    ensures Inv(db) && db.chosen == chosen && db.persist == persist
  {
    hide Ordered, Do;
    if events == [] then
      Db(chosen, persist, map[], map[], map[], false)
    else
      var before := Exec(chosen, persist, events[..|events| - 1]);
      DoKeepsInv(before, events[|events| - 1]);
      Do(before, events[|events| - 1])
  }

  /** A run only adds: receipts, child receipts and the closing of the run are permanent. */
  lemma {:induction false} RunsExtend(chosen: Plan, persist: bool, events: seq<Event>, later: seq<Event>)
    requires Ordered(chosen)
    ensures Extends(Exec(chosen, persist, events), Exec(chosen, persist, events + later))
    decreases |later|
  {
    hide Ordered, Do, Closed, Registered, ChildrenMatch, EffectsCurrent, TicketsReady;
    if later == [] {
      assert events + later == events;
    } else {
      var less := later[..|later| - 1];
      assert (events + later)[..|events + later| - 1] == events + less;
      RunsExtend(chosen, persist, events, less);
      DoKeepsInv(Exec(chosen, persist, events + less), later[|later| - 1]);
    }
  }

  predicate WaitsFor(chosen: Plan, node: Node, d: Node) {
    exists i | 0 <= i < |chosen| + 9 :: ActionAt(chosen, i).id == node && d in ActionAt(chosen, i).dependencies
  }

  /** `path` leads from its first node to its last, each waiting for the next. */
  ghost predicate WaitsAlong(chosen: Plan, path: seq<Node>) {
    forall k | 0 <= k < |path| - 1 :: WaitsFor(chosen, path[k], path[k + 1])
  }

  lemma NoReceiptForJoin(chosen: Plan, rows: Rows, i: nat)
    requires Ordered(chosen) && Registered(chosen, rows) && i < |chosen| + 9 && ActionAt(chosen, i).id in rows
    ensures ActionAt(chosen, i).kind != Join
  {
    DomainNodes(chosen, ActionAt(chosen, i).id);
  }

  lemma CompletedClosedUnderStep(chosen: Plan, rows: Rows, node: Node, d: Node)
    requires Ordered(chosen) && Closed(chosen, rows) && Registered(chosen, rows) && WaitsFor(chosen, node, d)
    requires node in Done(chosen, rows) || node in rows
    ensures d in Done(chosen, rows)
  {
    var i :| 0 <= i < |chosen| + 9 && ActionAt(chosen, i).id == node && d in ActionAt(chosen, i).dependencies;
    if node in rows {
      NoReceiptForJoin(chosen, rows, i);
    }
    Waited(chosen, rows, i);
  }

  /** Completed nodes are closed under everything they wait for, directly or not; so are the nodes with a receipt. */
  lemma {:induction false} CompletedClosedUnderPaths(chosen: Plan, rows: Rows, path: seq<Node>)
    requires Ordered(chosen) && Closed(chosen, rows) && Registered(chosen, rows)
    requires WaitsAlong(chosen, path) && |path| >= 2
    requires path[0] in Done(chosen, rows) || path[0] in rows
    ensures path[|path| - 1] in Done(chosen, rows)
    decreases |path|
  {
    hide Ordered, Closed, Registered, WaitsFor, Done;
    CompletedClosedUnderStep(chosen, rows, path[0], path[1]);
    if |path| > 2 {
      var tail := path[1..];
      forall k | 0 <= k < |tail| - 1
        ensures WaitsFor(chosen, tail[k], tail[k + 1])
      {
        assert WaitsFor(chosen, path[k + 1], path[k + 1 + 1]);
      }
      CompletedClosedUnderPaths(chosen, rows, tail);
    }
  }

  lemma FailedIsNotDone(chosen: Plan, rows: Rows, failed: Node)
    requires Ordered(chosen) && Registered(chosen, rows)
    requires failed in rows && !rows[failed].completed && failed != UserMessage
    ensures failed !in Done(chosen, rows)
  {
    var g := ActionsFor(chosen);
    var i :| 0 <= i < |g| && g[i].id == failed && g[i].kind == Domain;
    OrderedIsTopological(chosen);
    PassDecides(g, rows, i);
  }

  /** A failed node blocks every direct and indirect dependant, now and in every continuation of the run. */
  lemma FailureBlocksForever(chosen: Plan, persist: bool, events: seq<Event>, later: seq<Event>, path: seq<Node>)
    requires Ordered(chosen) && WaitsAlong(chosen, path) && |path| >= 2
    requires var db := Exec(chosen, persist, events);
             var failed := path[|path| - 1];
             failed in db.rows && !db.rows[failed].completed && failed != UserMessage
    ensures var db := Exec(chosen, persist, events + later);
            path[0] !in db.rows && path[0] !in Done(chosen, db.rows)
  {
    RunsExtend(chosen, persist, events, later);
    var rows := Exec(chosen, persist, events + later).rows;
    hide WaitsAlong, Ordered, Exec;
    FailedIsNotDone(chosen, rows, path[|path| - 1]);
    if path[0] in rows || path[0] in Done(chosen, rows) {
      CompletedClosedUnderPaths(chosen, rows, path);
    }
  }

  /**
   The gaps, the memory draft and the message of `PersistEffects` are all in the
   table, exactly as the node's present inputs call for, or none of them is.
   */
  lemma EffectsAllOrNothing(chosen: Plan, persist: bool, events: seq<Event>)
    requires Ordered(chosen)
    ensures var db := Exec(chosen, persist, events);
            if PersistEffects in db.rows && db.rows[PersistEffects].completed then
              var effects := EffectsFor(PersistEffects, Outs(chosen, db.rows), persist);
              && effects.Some?
              && (forall e <- effects.value :: (PersistEffects, e.name) in db.effects && db.effects[(PersistEffects, e.name)] == e.payload)
              && (forall k <- db.effects :: k.0 == PersistEffects ==> Effect(k.1, db.effects[k]) in effects.value)
            else forall k <- db.effects :: k.0 != PersistEffects
  {
    hide Ordered, Closed, Registered, TicketsReady, Exec, EffectsFor, Outs;
  }

  /** The gaps the plan's gap detection has reported. */
  function GapsReported(chosen: Plan, rows: Rows): set<nat> {
    if Specialist(GapDetection) in Names(chosen) && Specialist(GapDetection) in rows
    then Distinct(rows[Specialist(GapDetection)].value.gaps) else {}
  }

  /** The gap written at this place of the table, if any. */
  function GapAt(table: EffectTable, i: nat): Option<Payload> {
    if (PersistEffects, GapEffect(i)) in table then Some(table[(PersistEffects, GapEffect(i))]) else None
  }

  /** The same read off the saved outputs. */
  lemma GapsRead(chosen: Plan, rows: Rows)
    requires Ordered(chosen) && Closed(chosen, rows) && Finish in Done(chosen, rows)
    ensures Distinct(ReportedGaps(Outs(chosen, rows))) == GapsReported(chosen, rows)
    ensures Finish in rows && rows[Finish].completed && Finish in Outs(chosen, rows)
    ensures Outs(chosen, rows)[Finish] == rows[Finish].value
  {
    InputsOfAnswer(chosen, rows);
    DomainNodes(chosen, Specialist(GapDetection));
    DomainNodes(chosen, Finish);
    hide Closed, Ordered;
  }

  lemma EffectsPresent(chosen: Plan, persist: bool, events: seq<Event>, name: EffectName)
    requires Ordered(chosen)
    requires var db := Exec(chosen, persist, events); PersistEffects in db.rows && db.rows[PersistEffects].completed
    ensures var db := Exec(chosen, persist, events);
            var effects := EffectsFor(PersistEffects, Outs(chosen, db.rows), persist);
            && effects.Some?
            && ((PersistEffects, name) in db.effects <==> exists e <- effects.value :: e.name == name)
            && (forall e <- effects.value :: (PersistEffects, e.name) in db.effects && db.effects[(PersistEffects, e.name)] == e.payload)
  {
    EffectsAllOrNothing(chosen, persist, events);
    hide Exec, Ordered, EffectsFor, Outs;
    var db := Exec(chosen, persist, events);
    if (PersistEffects, name) in db.effects {
      assert Effect(name, db.effects[(PersistEffects, name)]).name == name;
    }
  }

  ghost predicate EffectsWritten(db: Db) {
    PersistEffects in db.rows && db.rows[PersistEffects].completed
  }

  /**
   What the effects of a run are, once they are written: one message, and a draft exactly if
   memory is kept, both with the text of the answer.
   */
  lemma AnswerOfRun(chosen: Plan, persist: bool, events: seq<Event>)
    requires Ordered(chosen) && EffectsWritten(Exec(chosen, persist, events))
    ensures var db := Exec(chosen, persist, events);
            var (message, draft) := ((PersistEffects, MessageEffect), (PersistEffects, DraftEffect));
            && Finish in db.rows && db.rows[Finish].completed
            && message in db.effects && db.effects[message] == TextPayload(db.rows[Finish].value.text)
            && (draft in db.effects <==> persist)
            && (persist ==> draft in db.effects && db.effects[draft] == db.effects[message])
  {
    var db := Exec(chosen, persist, events);
    var outs := Outs(chosen, db.rows);
    EffectsFollowAnswer(chosen, db.rows);
    GapsRead(chosen, db.rows);
    EffectsPresent(chosen, persist, events, MessageEffect);
    EffectsPresent(chosen, persist, events, DraftEffect);
    hide Exec, Ordered, EffectsFor, Outs, SortedGaps, ReportedGaps, GapsReported, Inv;
    var answer := TextPayload(outs[Finish].text);
    EffectsListed(outs, persist, Effect(MessageEffect, answer));
    EffectsListed(outs, persist, Effect(DraftEffect, answer));
    forall e | e in EffectsFor(PersistEffects, outs, persist).value
      ensures e.name == DraftEffect ==> persist
    {
      EffectsListed(outs, persist, e);
    }
  }

  lemma GapWritten(chosen: Plan, persist: bool, events: seq<Event>, i: nat)
    requires Ordered(chosen) && EffectsWritten(Exec(chosen, persist, events))
    ensures var db := Exec(chosen, persist, events);
            var sorted := SortedGaps(ReportedGaps(Outs(chosen, db.rows)));
            GapAt(db.effects, i) == if i < |sorted| then Some(GapPayload(sorted[i])) else None
  {
    var db := Exec(chosen, persist, events);
    var outs := Outs(chosen, db.rows);
    EffectsPresent(chosen, persist, events, GapEffect(i));
    hide Exec, Ordered, EffectsFor, Outs, SortedGaps, ReportedGaps, Inv;
    var sorted := SortedGaps(ReportedGaps(outs));
    if i < |sorted| {
      EffectsListed(outs, persist, Effect(GapEffect(i), GapPayload(sorted[i])));
    } else {
      forall e | e in EffectsFor(PersistEffects, outs, persist).value
        ensures e.name != GapEffect(i)
      {
        EffectsListed(outs, persist, e);
      }
    }
  }

  /** The table holds these gaps, each once, numbered from zero in their order. */
  ghost predicate Numbered(table: EffectTable, gaps: set<nat>) {
    && (forall i: nat :: GapAt(table, i).Some? <==> i < |gaps|)
    && (forall gap :: gap in gaps <==> exists i: nat :: GapAt(table, i) == Some(GapPayload(gap)))
    && forall i: nat, j: nat, a, b |
         i < j && GapAt(table, i) == Some(GapPayload(a)) && GapAt(table, j) == Some(GapPayload(b)) :: a < b
  }

  lemma ListIsNumbered(table: EffectTable, sorted: seq<nat>)
    requires Ascending(sorted)
    requires forall i: nat :: GapAt(table, i) == if i < |sorted| then Some(GapPayload(sorted[i])) else None
    ensures Numbered(table, Distinct(sorted))
  {
    hide GapAt;
    AscendingCount(sorted);
    forall gap
      ensures gap in Distinct(sorted) <==> exists i: nat :: GapAt(table, i) == Some(GapPayload(gap))
    {
      if gap in sorted {
        var i: nat :| i < |sorted| && sorted[i] == gap;
        assert GapAt(table, i) == Some(GapPayload(gap));
      }
    }
  }

  lemma GapsFit(chosen: Plan, persist: bool, events: seq<Event>)
    requires Ordered(chosen) && EffectsWritten(Exec(chosen, persist, events))
    ensures var rows := Exec(chosen, persist, events).rows;
            && Distinct(ReportedGaps(Outs(chosen, rows))) == GapsReported(chosen, rows)
            && |GapsReported(chosen, rows)| <= MAX_GAPS
  {
    var db := Exec(chosen, persist, events);
    EffectsFollowAnswer(chosen, db.rows);
    GapsRead(chosen, db.rows);
    EffectsPresent(chosen, persist, events, MessageEffect);
    hide Exec, Ordered, EffectsFor, Outs, ReportedGaps, GapsReported, Distinct, Inv;
    EffectsRefused(Outs(chosen, db.rows), persist);
  }

  /** And the gaps are those reported, each once, numbered from zero in their order, a hundred at most. */
  lemma GapsOfRun(chosen: Plan, persist: bool, events: seq<Event>)
    requires Ordered(chosen) && EffectsWritten(Exec(chosen, persist, events))
    ensures var db := Exec(chosen, persist, events);
            |GapsReported(chosen, db.rows)| <= MAX_GAPS && Numbered(db.effects, GapsReported(chosen, db.rows))
  {
    GapsFit(chosen, persist, events);
    var db := Exec(chosen, persist, events);
    var reported := ReportedGaps(Outs(chosen, db.rows));
    assert Distinct(SortedGaps(reported)) == Distinct(reported);
    hide *;
    var sorted := SortedGaps(reported);
    forall i: nat
      ensures GapAt(db.effects, i) == if i < |sorted| then Some(GapPayload(sorted[i])) else None
    {
      GapWritten(chosen, persist, events, i);
    }
    ListIsNumbered(db.effects, sorted);
  }

  predicate MessageOk(rows: Rows) {
    UserMessage in rows ==> rows[UserMessage] == MessageRow
  }

  lemma DoKeepsMessage(db: Db, e: Event)
    requires MessageOk(db.rows) && forall t <- db.tickets :: db.tickets[t].node != UserMessage
    ensures MessageOk(Do(db, e).rows)
  {
    hide Recorded, Ready, WithEffects, Outs;
  }

  lemma TicketsAreForNodes(db: Db)
    requires Inv(db)
    ensures forall t <- db.tickets :: db.tickets[t].node != UserMessage
  {
    DomainNodes(db.chosen, UserMessage);
    hide Closed, Registered, ChildrenMatch, EffectsCurrent, Done;
  }

  lemma {:induction false} MessageHasNoEffects(chosen: Plan, persist: bool, events: seq<Event>)
    requires Ordered(chosen)
    ensures MessageOk(Exec(chosen, persist, events).rows)
    decreases |events|
  {
    hide Inv, Do, Ordered;
    if events != [] {
      var before := events[..|events| - 1];
      MessageHasNoEffects(chosen, persist, before);
      TicketsAreForNodes(Exec(chosen, persist, before));
      DoKeepsMessage(Exec(chosen, persist, before), events[|events| - 1]);
    }
  }

  lemma EffectsElsewhere(node: Node, outputs: map<Node, Value>, persist: bool)
    requires node != PersistEffects
    ensures EffectsFor(node, outputs, persist) == Some(if node == Audit then [Effect(AuditEffect, AuditPayload)] else [])
  {
  }

  /** Besides those, the one effect of a run is the audit entry, written exactly when the audit completes. */
  lemma AuditOfRun(chosen: Plan, persist: bool, events: seq<Event>)
    requires Ordered(chosen)
    ensures var db := Exec(chosen, persist, events);
            && (forall k <- db.effects :: k.0 == PersistEffects || (k == (Audit, AuditEffect) && db.effects[k] == AuditPayload))
            && ((Audit, AuditEffect) in db.effects <==> Audit in db.rows && db.rows[Audit].completed)
  {
    var db := Exec(chosen, persist, events);
    MessageHasNoEffects(chosen, persist, events);
    hide Ordered, Closed, TicketsReady, Exec, Outs, EffectsFor, Registered;
    forall id | id in db.rows && id != PersistEffects
      ensures db.rows[id].effects == if id == Audit && db.rows[id].completed then [Effect(AuditEffect, AuditPayload)] else []
    {
      EffectsElsewhere(id, Outs(chosen, db.rows), persist);
    }
    hide EffectsCurrent;
    if Audit in db.rows && db.rows[Audit].completed {
      assert Effect(AuditEffect, AuditPayload) in db.rows[Audit].effects;
    }
  }

  // ---------------------------------------------------------------------
  // When a node is admitted, and when its result counts
  // ---------------------------------------------------------------------

  /** A node stands once in the graph. */
  lemma WaitsAt(chosen: Plan, i: nat, d: Node)
    requires Ordered(chosen) && i < |chosen| + 9
    ensures WaitsFor(chosen, ActionAt(chosen, i).id, d) <==> d in ActionAt(chosen, i).dependencies
  {
    var g := ActionsFor(chosen);
    OrderedIsTopological(chosen);
    hide ActionAt, Ordered;
    assert forall j | 0 <= j < |g| && j != i :: g[j].id != g[i].id;
  }

  lemma ReadyMeans(chosen: Plan, rows: Rows, node: Node)
    requires Ordered(chosen)
    ensures Ready(chosen, rows, node) <==>
              && IsDomain(ActionsFor(chosen), |chosen| + 9, node)
              && forall d | WaitsFor(chosen, node, d) :: d in Done(chosen, rows)
  {
    var g := ActionsFor(chosen);
    hide Done, Ordered, ActionAt, WaitsFor;
    forall i, d | 0 <= i < |g| && g[i].id == node
      ensures WaitsFor(chosen, node, d) <==> d in g[i].dependencies
    {
      WaitsAt(chosen, i, d);
    }
  }

  /** A node is admitted exactly in an open run, once only, with everything it waits for completed. */
  lemma AdmittedExactly(db: Db, ticket: nat, node: Node)
    requires Inv(db) && ticket !in db.tickets
    ensures ticket in Do(db, Begin(ticket, node)).tickets <==>
              && !db.closed && node !in db.rows
              && (node in {Planning, MemoryRecall, Retrieve, Critic, Finish, PersistEffects, Audit} || node in Names(db.chosen))
              && forall d | WaitsFor(db.chosen, node, d) :: d in Done(db.chosen, db.rows)
  {
    ReadyMeans(db.chosen, db.rows, node);
    DomainNodes(db.chosen, node);
    hide Inv, Ready, Done, WaitsFor, IsDomain, Outs;
  }

  /** The result of a domain node is new to the second state. */
  ghost predicate NewResult(before: Rows, after: Rows, id: Node) {
    id in after && id !in before && id != UserMessage && after[id].completed
  }

  lemma ReadAgain(chosen: Plan, before: Rows, after: Rows)
    requires Ordered(chosen) && Grown(before, after) && Registered(chosen, after)
    ensures Outs(chosen, before) == Outs(chosen, after) <==> forall id :: !NewResult(before, after, id)
  {
    var (a, b) := (Outs(chosen, before), Outs(chosen, after));
    forall id | NewResult(before, after, id)
      ensures id in b && id !in a
    {
    }
    DomainNodes(chosen, UserMessage);
    if forall id :: !NewResult(before, after, id) {
      forall id | id in b
        ensures id in a && a[id] == b[id]
      {
        assert !NewResult(before, after, id);
      }
      assert a == b;
    }
  }

  /** The effects of a computed result are refused for too many gaps alone. */
  lemma TooManyGaps(db: Db, node: Node)
    requires Inv(db) && Ready(db.chosen, db.rows, node)
    ensures EffectsFor(node, Outs(db.chosen, db.rows), db.persist).None?
            <==> node == PersistEffects && |GapsReported(db.chosen, db.rows)| > MAX_GAPS
  {
    if node == PersistEffects {
      ReadyMeans(db.chosen, db.rows, node);
      assert ActionAt(db.chosen, |db.chosen| + 7) == Action(PersistEffects, Domain, [Finish]);
      assert WaitsFor(db.chosen, PersistEffects, Finish);
      GapsRead(db.chosen, db.rows);
      EffectsRefused(Outs(db.chosen, db.rows), db.persist);
    } else {
      EffectsElsewhere(node, Outs(db.chosen, db.rows), db.persist);
    }
    hide *;
  }

  /** What the second phase asks: an open run, no receipt yet, no new result since the first, and not too many gaps. */
  ghost predicate Acceptable(before: Db, db: Db, node: Node, outcome: Outcome) {
    && !db.closed && node !in db.rows && (forall id :: !NewResult(before.rows, db.rows, id))
    && (outcome.Computed? && node == PersistEffects ==> |GapsReported(db.chosen, db.rows)| <= MAX_GAPS)
  }

  lemma RecordedExactly(before: Db, db: Db, node: Node, outcome: Outcome)
    requires Inv(db) && Extends(before, db) && Ready(db.chosen, db.rows, node)
    ensures var row := Recorded(db, Ticket(node, Outs(db.chosen, before.rows)), outcome);
            && (row.Some? <==> Acceptable(before, db, node, outcome))
            && (row.Some? ==> row.value.value == outcome.value && row.value.completed == outcome.Computed?)
  {
    ReadAgain(db.chosen, before.rows, db.rows);
    TooManyGaps(db, node);
    hide Inv, Ready, EffectsFor, Outs, Grown, GapsReported;
  }

  /**
   The result of an invocation begun at `before` is written exactly if it is acceptable, with
   its outcome, and then nothing else changes among the receipts.
   */
  lemma CommittedExactly(before: Db, db: Db, ticket: nat, node: Node, outcome: Outcome)
    requires Inv(db) && Extends(before, db)
    requires ticket in db.tickets && db.tickets[ticket] == Ticket(node, Outs(db.chosen, before.rows))
    ensures var rows := Do(db, Commit(ticket, outcome)).rows;
            if Acceptable(before, db, node, outcome) then
              && rows.Keys == db.rows.Keys + {node} && rows == db.rows[node := rows[node]]
              && rows[node].value == outcome.value && rows[node].completed == outcome.Computed?
            else rows == db.rows
  {
    assert Ready(db.chosen, db.rows, node);
    RecordedExactly(before, db, node, outcome);
    hide Inv, Ready, Acceptable, Recorded, WithEffects, Outs;
  }

  // ---------------------------------------------------------------------
  // Every ordered plan can be completed
  // ---------------------------------------------------------------------

  type Results = Node -> Value

  /** The actions before position `n` are completed, with these results, and no other has a receipt. */
  ghost predicate Reached(db: Db, results: Results, n: nat)
    requires n <= |db.chosen| + 9
  {
    && Inv(db) && !db.closed && db.tickets == map[]
    && DoneBefore(db.chosen, db.rows, n) && ResultsBefore(db.chosen, db.rows, results, n) && NoneFrom(db.chosen, db.rows, n)
  }

  ghost predicate DoneBefore(chosen: Plan, rows: Rows, n: nat)
    requires n <= |chosen| + 9
  {
    forall i | 0 <= i < n :: ActionAt(chosen, i).id in Done(chosen, rows)
  }

  ghost predicate ResultsBefore(chosen: Plan, rows: Rows, results: Results, n: nat)
    requires n <= |chosen| + 9
  {
    forall i | 0 <= i < n && ActionAt(chosen, i).kind == Domain :: Resulted(rows, ActionAt(chosen, i).id, results)
  }

  ghost predicate NoneFrom(chosen: Plan, rows: Rows, n: nat)
    requires n <= |chosen| + 9
  {
    forall i | n <= i < |chosen| + 9 :: ActionAt(chosen, i).id !in rows
  }

  predicate Resulted(rows: Rows, id: Node, results: Results) {
    id in rows && rows[id].completed && rows[id].value == results(id)
  }

  lemma ReachedGaps(db: Db, results: Results)
    requires Reached(db, results, |db.chosen| + 7)
    ensures GapsReported(db.chosen, db.rows) <= Distinct(results(Specialist(GapDetection)).gaps)
  {
    var chosen := db.chosen;
    if Specialist(GapDetection) in Names(chosen) {
      var k :| 0 <= k < |chosen| && Names(chosen)[k] == Specialist(GapDetection);
      assert ActionAt(chosen, k + 4) == Action(Specialist(GapDetection), Domain, chosen[k].dependsOn);
      assert Resulted(db.rows, ActionAt(chosen, k + 4).id, results);
    }
    hide Inv, Done;
  }

  /** What one action more must bring: its receipt, with its result, unless it is a join. */
  ghost predicate Brings(before: Rows, after: Rows, a: Action, results: Results) {
    && Grown(before, after)
    && (a.kind == Join ==> after == before)
    && (a.kind != Join ==> after.Keys == before.Keys + {a.id})
    && (a.kind == Domain ==> Resulted(after, a.id, results))
  }

  lemma DoneNext(chosen: Plan, before: Rows, after: Rows, results: Results, n: nat)
    requires Ordered(chosen) && n < |chosen| + 9 && DoneBefore(chosen, before, n)
    requires Brings(before, after, ActionAt(chosen, n), results)
    ensures DoneBefore(chosen, after, n + 1)
  {
    OrderedIsTopological(chosen);
    DoneGrows(chosen, before, after);
    PassDecides(ActionsFor(chosen), after, n);
    DependenciesBefore(chosen, n);
    hide Ordered, Done, ActionAt;
  }

  lemma NoneNext(chosen: Plan, before: Rows, after: Rows, results: Results, n: nat)
    requires Ordered(chosen) && n < |chosen| + 9 && NoneFrom(chosen, before, n)
    requires Brings(before, after, ActionAt(chosen, n), results)
    ensures NoneFrom(chosen, after, n + 1)
  {
    OrderedIsTopological(chosen);
    var g := ActionsFor(chosen);
    hide Ordered, ActionAt;
    forall i | n + 1 <= i < |chosen| + 9
      ensures ActionAt(chosen, i).id !in after
    {
      assert g[i].id != g[n].id;
    }
  }

  /** One action more is completed once it has its receipt, or is a join. */
  lemma ReachesNext(db: Db, later: Db, results: Results, n: nat)
    requires n < |db.chosen| + 9 && Reached(db, results, n) && Inv(later) && later.chosen == db.chosen
    requires !later.closed && later.tickets == map[] && Brings(db.rows, later.rows, ActionAt(db.chosen, n), results)
    ensures Reached(later, results, n + 1)
  {
    DoneNext(db.chosen, db.rows, later.rows, results, n);
    NoneNext(db.chosen, db.rows, later.rows, results, n);
    hide Inv, DoneBefore, NoneFrom, ActionAt;
  }

  lemma DependenciesBefore(chosen: Plan, n: nat)
    requires Ordered(chosen) && n < |chosen| + 9
    ensures forall d <- ActionAt(chosen, n).dependencies :: exists j | 0 <= j < n :: ActionAt(chosen, j).id == d
  {
    OrderedIsTopological(chosen);
    var g := ActionsFor(chosen);
    forall d | d in ActionAt(chosen, n).dependencies
      ensures exists j | 0 <= j < n :: ActionAt(chosen, j).id == d
    {
      assert d in g[n].dependencies && ListedBefore(g, n, d);
    }
  }

  lemma NodeBegins(db: Db, results: Results, n: nat)
    requires n < |db.chosen| + 9 && Reached(db, results, n) && ActionAt(db.chosen, n).kind == Domain
    ensures 0 in Do(db, Begin(0, ActionAt(db.chosen, n).id)).tickets
  {
    var node := ActionAt(db.chosen, n).id;
    DomainAction(db.chosen, n);
    DependenciesBefore(db.chosen, n);
    hide Ordered, Closed, Registered, ChildrenMatch, EffectsCurrent, TicketsReady, ActionAt, Done, Do, WaitsFor;
    forall d | WaitsFor(db.chosen, node, d)
      ensures d in Done(db.chosen, db.rows)
    {
      WaitsAt(db.chosen, n, d);
    }
    AdmittedExactly(db, 0, node);
  }

  lemma FewGaps(db: Db, results: Results, n: nat)
    requires n < |db.chosen| + 9 && Reached(db, results, n) && ActionAt(db.chosen, n).id == PersistEffects
    requires |Distinct(results(Specialist(GapDetection)).gaps)| <= MAX_GAPS
    ensures |GapsReported(db.chosen, db.rows)| <= MAX_GAPS
  {
    EffectsPlace(db.chosen, n);
    hide Inv, GapsReported, Distinct, ActionAt;
    ReachedGaps(db, results);
    SmallerSet(GapsReported(db.chosen, db.rows), Distinct(results(Specialist(GapDetection)).gaps));
  }

  /** Both phases of one invocation, with nothing in between. */
  function Invoked(db: Db, node: Node, value: Value): Db {
    Do(Do(db, Begin(0, node)), Commit(0, Computed(value)))
  }

  lemma InvocationWrites(db: Db, node: Node, value: Value)
    requires Inv(db) && !db.closed && db.tickets == map[] && 0 in Do(db, Begin(0, node)).tickets && node !in db.rows
    requires node == PersistEffects ==> |GapsReported(db.chosen, db.rows)| <= MAX_GAPS
    ensures var later := Invoked(db, node, value);
            && Inv(later) && later.chosen == db.chosen && !later.closed && later.tickets == map[] && Grown(db.rows, later.rows)
            && later.rows.Keys == db.rows.Keys + {node} && later.rows[node].completed && later.rows[node].value == value
  {
    var begun := Do(db, Begin(0, node));
    BegunOnce(db, node);
    DoKeepsInv(db, Begin(0, node));
    DoKeepsInv(begun, Commit(0, Computed(value)));
    hide Inv, Do, Outs, GapsReported;
    CommittedExactly(db, begun, 0, node, Computed(value));
  }

  lemma NodeBrings(before: Rows, after: Rows, a: Action, results: Results)
    requires a.kind == Domain && Grown(before, after) && after.Keys == before.Keys + {a.id}
    requires after[a.id].completed && after[a.id].value == results(a.id)
    ensures Brings(before, after, a, results)
  {
  }

  lemma ReachedHere(db: Db, results: Results, n: nat)
    requires n < |db.chosen| + 9 && Reached(db, results, n)
    ensures Inv(db) && !db.closed && db.tickets == map[] && ActionAt(db.chosen, n).id !in db.rows
  {
    hide Inv, ActionAt;
  }

  /** The next domain node is admitted, and its result is written. */
  lemma NodeRuns(db: Db, results: Results, n: nat)
    requires n < |db.chosen| + 9 && Reached(db, results, n) && ActionAt(db.chosen, n).kind == Domain
    requires |Distinct(results(Specialist(GapDetection)).gaps)| <= MAX_GAPS
    ensures var node := ActionAt(db.chosen, n).id; Reached(Invoked(db, node, results(node)), results, n + 1)
  {
    hide *;
    var node := ActionAt(db.chosen, n).id;
    ReachedHere(db, results, n);
    NodeBegins(db, results, n);
    if node == PersistEffects {
      FewGaps(db, results, n);
    }
    InvocationWrites(db, node, results(node));
    NodeBrings(db.rows, Invoked(db, node, results(node)).rows, ActionAt(db.chosen, n), results);
    ReachesNext(db, Invoked(db, node, results(node)), results, n);
  }

  lemma BegunOnce(db: Db, node: Node)
    requires db.tickets == map[] && 0 in Do(db, Begin(0, node)).tickets
    ensures Do(db, Begin(0, node)) == db.(tickets := map[0 := Ticket(node, Outs(db.chosen, db.rows))])
    ensures forall outcome :: Do(Do(db, Begin(0, node)), Commit(0, outcome)).tickets == map[]
    ensures forall outcome :: Do(Do(db, Begin(0, node)), Commit(0, outcome)).closed == db.closed
  {
    hide Outs, Ready, Recorded, WithEffects;
  }

  lemma DomainAction(chosen: Plan, n: nat)
    requires n < |chosen| + 9 && ActionAt(chosen, n).kind == Domain
    ensures var id := ActionAt(chosen, n).id;
            id in {Planning, MemoryRecall, Retrieve, Critic, Finish, PersistEffects, Audit} || id in Names(chosen)
  {
    if 4 <= n < |chosen| + 4 {
      assert Names(chosen)[n - 4] == ActionAt(chosen, n).id;
    }
  }

  lemma EffectsPlace(chosen: Plan, n: nat)
    requires Ordered(chosen) && n < |chosen| + 9 && ActionAt(chosen, n).id == PersistEffects
    ensures n == |chosen| + 7
  {
  }

  lemma {:induction false} SmallerSet(a: set<nat>, b: set<nat>)
    requires a <= b
    ensures |a| <= |b|
  {
    if a != {} {
      var x :| x in a;
      SmallerSet(a - {x}, b - {x});
    }
  }

  /**
   Every ordered plan has a run that completes all of it, whatever the nodes compute, unless
   gap detection finds more than a hundred gaps.
   */
  lemma {:induction false} PlanCompletes(chosen: Plan, persist: bool, results: Results, n: nat) returns (events: seq<Event>)
    requires Ordered(chosen) && n <= |chosen| + 9 && |Distinct(results(Specialist(GapDetection)).gaps)| <= MAX_GAPS
    ensures Reached(Exec(chosen, persist, events), results, n)
  {
    if n == 0 {
      events := [];
      NothingReached(chosen, persist, results);
    } else {
      var before := PlanCompletes(chosen, persist, results, n - 1);
      var a := ActionAt(chosen, n - 1);
      hide *;
      var db := Exec(chosen, persist, before);
      if a.kind == Domain {
        var (begin, commit) := (Begin(0, a.id), Commit(0, Computed(results(a.id))));
        events := before + [begin] + [commit];
        ExecOne(chosen, persist, before, begin);
        ExecOne(chosen, persist, before + [begin], commit);
        NodeRuns(db, results, n - 1);
        assert Invoked(db, a.id, results(a.id)) == Do(Do(db, begin), commit) by {
          InvokedMeans(db, a.id, results(a.id));
        }
      } else if a.kind == Join {
        events := before;
        JoinFollows(db, results, n - 1);
      } else {
        events := before + [WriteMessage];
        ExecOne(chosen, persist, before, WriteMessage);
        MessageWritten(db, results, n - 1);
      }
    }
  }

  lemma InvokedMeans(db: Db, node: Node, value: Value)
    ensures Invoked(db, node, value) == Do(Do(db, Begin(0, node)), Commit(0, Computed(value)))
  {
    hide Do;
  }

  lemma NothingReached(chosen: Plan, persist: bool, results: Results)
    requires Ordered(chosen)
    ensures Reached(Exec(chosen, persist, []), results, 0)
  {
  }

  lemma ExecOne(chosen: Plan, persist: bool, events: seq<Event>, e: Event)
    requires Ordered(chosen)
    ensures Exec(chosen, persist, events + [e]) == Do(Exec(chosen, persist, events), e)
  {
    hide Ordered, Do, Inv;
    assert (events + [e])[..|events|] == events;
  }

  lemma JoinFollows(db: Db, results: Results, n: nat)
    requires n < |db.chosen| + 9 && Reached(db, results, n) && ActionAt(db.chosen, n).kind == Join
    ensures Reached(db, results, n + 1)
  {
    ReachesNext(db, db, results, n);
  }

  lemma MessageWritten(db: Db, results: Results, n: nat)
    requires n < |db.chosen| + 9 && Reached(db, results, n) && ActionAt(db.chosen, n).kind == Plain
    ensures Reached(Do(db, WriteMessage), results, n + 1)
  {
    assert n == 0 && ActionAt(db.chosen, n).id == UserMessage;
    DoKeepsInv(db, WriteMessage);
    hide Inv, Done, ActionAt, WithEffects;
    ReachesNext(db, Do(db, WriteMessage), results, n);
  }

  /** A completed audit means that every node completed, provided some specialist reads what was retrieved. */
  lemma AuditMeansAll(chosen: Plan, rows: Rows)
    requires Ordered(chosen) && Closed(chosen, rows) && Audit in Done(chosen, rows)
    requires exists p <- chosen :: Retrieve in p.dependsOn
    ensures forall i | 0 <= i < |chosen| + 9 :: ActionAt(chosen, i).id in Done(chosen, rows)
  {
    var n := |chosen|;
    ClosingChain(chosen, rows);
    WaitedExperts(chosen, rows);
    PreparationChain(chosen, rows);
    forall i | 4 <= i < n + 4
      ensures ActionAt(chosen, i).id in Done(chosen, rows)
    {
      assert ActionAt(chosen, i).id == Names(chosen)[i - 4];
    }
  }

  /** In a run of a plan the planner built, a completed audit, which a projected success requires, covers the whole graph. */
  lemma SuccessMeansWholeGraph(question: Question, persist: bool, events: seq<Event>)
    requires Ordered(Specialists(PlanFor(question)))
    requires var chosen := Specialists(PlanFor(question));
             Audit in Done(chosen, Exec(chosen, persist, events).rows)
    ensures var chosen := Specialists(PlanFor(question));
            forall i | 0 <= i < |chosen| + 9 :: ActionAt(chosen, i).id in Done(chosen, Exec(chosen, persist, events).rows)
  {
    var chosen := Specialists(PlanFor(question));
    SpecialistsOfPlan(question);
    FactsFirst(question);
    hide Ordered, Exec, PlanFor, Specialists;
    AuditMeansAll(chosen, Exec(chosen, persist, events).rows);
  }

  lemma PreparationChain(chosen: Plan, rows: Rows)
    requires Ordered(chosen) && Closed(chosen, rows)
    requires forall id <- Names(chosen) :: id in Done(chosen, rows)
    requires exists p <- chosen :: Retrieve in p.dependsOn
    ensures Retrieve in Done(chosen, rows) && MemoryRecall in Done(chosen, rows)
    ensures Planning in Done(chosen, rows) && UserMessage in Done(chosen, rows)
  {
    var i :| 0 <= i < |chosen| && Retrieve in chosen[i].dependsOn;
    assert ActionAt(chosen, i + 4) == Action(chosen[i].name, Domain, chosen[i].dependsOn);
    assert Names(chosen)[i] == chosen[i].name;
    assert ActionAt(chosen, 3) == Action(Retrieve, Domain, [MemoryRecall]);
    assert ActionAt(chosen, 2) == Action(MemoryRecall, Domain, [Planning]);
    assert ActionAt(chosen, 1) == Action(Planning, Domain, [UserMessage]);
    hide ActionAt, Closed, Ordered;
    Waited(chosen, rows, i + 4);
    Waited(chosen, rows, 3);
    assert MemoryRecall in Done(chosen, rows);
    Waited(chosen, rows, 2);
    assert Planning in Done(chosen, rows);
    Waited(chosen, rows, 1);
  }

  lemma ClosingChain(chosen: Plan, rows: Rows)
    requires Ordered(chosen) && Closed(chosen, rows) && Audit in Done(chosen, rows)
    ensures PersistEffects in Done(chosen, rows) && Finish in Done(chosen, rows)
    ensures Critic in Done(chosen, rows) && SpecialistJoin in Done(chosen, rows)
  {
    var n := |chosen|;
    assert ActionAt(chosen, n + 8) == Action(Audit, Domain, [PersistEffects]);
    assert ActionAt(chosen, n + 7) == Action(PersistEffects, Domain, [Finish]);
    assert ActionAt(chosen, n + 6) == Action(Finish, Domain, [Critic]);
    assert ActionAt(chosen, n + 5) == Action(Critic, Domain, [SpecialistJoin]);
    hide ActionAt, Closed, Ordered;
    Waited(chosen, rows, n + 8);
    assert PersistEffects in Done(chosen, rows);
    Waited(chosen, rows, n + 7);
    assert Finish in Done(chosen, rows);
    Waited(chosen, rows, n + 6);
    assert Critic in Done(chosen, rows);
    Waited(chosen, rows, n + 5);
  }

  // ---------------------------------------------------------------------
  // The receipt tables
  // ---------------------------------------------------------------------

  /** Write one child receipt, or accept the identical one that is there. */
  method ExecuteChild(table: EffectTable, node: Node, effect: Effect) returns (r: Option<EffectTable>)
    ensures (node, effect.name) !in table ==> r == Some(table[(node, effect.name) := effect.payload])
    ensures (node, effect.name) in table ==>
              r == if table[(node, effect.name)] == effect.payload then Some(table) else None
  {
    if (node, effect.name) in table {
      if table[(node, effect.name)] != effect.payload {
        return None;
      }
      return Some(table);
    }
    r := Some(table[(node, effect.name) := effect.payload]);
  }

  /** All children of one node, inside the transaction that also writes the node's own receipt. */
  method ExecuteChildren(start: EffectTable, node: Node, effects: seq<Effect>) returns (r: Option<EffectTable>)
    requires forall i, j | 0 <= i < j < |effects| :: effects[i].name != effects[j].name
    requires forall e <- effects :: (node, e.name) !in start
    ensures r == Some(WithEffects(start, node, effects))
  {
    var table := start;
    for i := 0 to |effects|
      invariant WithEffects(start, node, effects) == WithEffects(table, node, effects[i..])
      invariant forall j | i <= j < |effects| :: (node, effects[j].name) !in table
    {
      assert effects[i..][0] == effects[i] && effects[i..][1..] == effects[i + 1..];
      var child := ExecuteChild(table, node, effects[i]);
      if child.None? {
        return None;
      }
      table := child.value;
    }
    r := Some(table);
  }

  class DomainStore {
    const chosen: Plan
    const persist: bool
    var rows: Rows
    var effects: EffectTable
    var tickets: map<nat, Ticket>
    var closed: bool

    ghost function Snapshot(): Db
      reads this
    {
      Db(chosen, persist, rows, effects, tickets, closed)
    }

    constructor (chosen: Plan, persist: bool)
      ensures Snapshot() == Db(chosen, persist, map[], map[], map[], false)
    {
      this.chosen, this.persist := chosen, persist;
      rows, effects, tickets, closed := map[], map[], map[], false;
    }

    /** First phase: read the predecessors and remember what they said. */
    method BeginNode(ticket: nat, node: Node) returns (admitted: bool)
      requires Inv(Snapshot()) && ticket !in tickets
      modifies this
      ensures Snapshot() == Do(old(Snapshot()), Begin(ticket, node))
      ensures admitted <==> node !in rows && !closed && Ready(chosen, rows, node)
    {
      if node in rows || closed {
        return false;
      }
      var graph := ActionsFor(chosen);
      OrderedIsTopological(chosen);
      var outputs, done := ReadOutputs(graph, rows);
      admitted := false;
      for i := 0 to |graph|
        invariant admitted <==> exists k | 0 <= k < i ::
          graph[k].id == node && graph[k].kind == Domain && forall d <- graph[k].dependencies :: d in done
      {
        if graph[i].id == node && graph[i].kind == Domain && forall d <- graph[i].dependencies :: d in done {
          admitted := true;
        }
      }
      if admitted {
        tickets := tickets[ticket := Ticket(node, outputs)];
      }
    }

    /** Second phase: re-check, then write the children and the receipt together or not at all. */
    method CommitNode(ticket: nat, outcome: Outcome) returns (recorded: bool)
      requires Inv(Snapshot()) && ticket in tickets
      modifies this
      ensures Snapshot() == Do(old(Snapshot()), Commit(ticket, outcome))
      ensures recorded <==> Recorded(old(Snapshot()), old(tickets)[ticket], outcome).Some?
    {
      hide EffectsCurrent, TicketsReady, Registered, Closed, Ordered, ActionsFor;
      ghost var before := Snapshot();
      var t := tickets[ticket];
      tickets := tickets - {ticket};
      if closed {
        return false;
      }
      OrderedGraph(before);
      var outputs, _ := ReadOutputs(ActionsFor(chosen), rows);
      if outputs != t.outputs || t.node in rows {
        return false;
      }
      if outcome.Rejected? {
        rows := rows[t.node := Row(false, outcome.value, [])];
        return true;
      }
      var list := ListEffects(t.node, t.outputs, persist);
      if list.None? {
        return false;
      }
      NamesApart(t.node, t.outputs, persist);
      var table := ExecuteChildren(effects, t.node, list.value);
      rows, effects := rows[t.node := Row(true, outcome.value, list.value)], table.value;
      return true;
    }
  }

  lemma OrderedGraph(db: Db)
    requires Inv(db)
    ensures var g := ActionsFor(db.chosen); forall i, j | 0 <= i < j < |g| :: g[i].id != g[j].id
  {
    OrderedIsTopological(db.chosen);
  }

  lemma NamesApart(node: Node, outputs: map<Node, Value>, persist: bool)
    requires EffectsFor(node, outputs, persist).Some?
    ensures var effects := EffectsFor(node, outputs, persist).value;
            forall i, j | 0 <= i < j < |effects| :: effects[i].name != effects[j].name
  {
    var effects := EffectsFor(node, outputs, persist).value;
    forall i, j | 0 <= i < j < |effects|
      ensures effects[i].name != effects[j].name
    {
      EffectNamesAreDistinct(node, outputs, persist, i, j);
    }
  }
}
