/**
 Two schedulers for the specialists of one plan: waves of parallel calls, and one call after the
 other.  A specialist's own analysis is a parameter and may fail.  Only gap detection also reads what
 other specialists found; the review it makes of them is a parameter too, and may be refused.
 */
module SpecialistSchedule {
  import opened Planner
  import opened Wrappers

  datatype Finding = Finding(text: string, review: Option<string>)

  /** What each specialist makes of the question, and the review of facts and evidence; `None` stands for a raised error. */
  datatype Panel = Panel(own: Node -> Option<string>, review: (Option<string>, Option<string>) -> Option<string>)

  datatype Outcome = Done(outputs: map<Node, Finding>) | Stuck | Failed(node: Node)

  type Dependencies = map<Node, set<Node>>

  function Elements(names: seq<Node>): set<Node> {
    set n | n in names
  }

  /** The dictionary built from the plan; a repeated name keeps its last dependencies. */
  function DependenciesOf(chosen: seq<PlanNode>): (deps: Dependencies)
    ensures forall n :: n in deps <==> exists i | 0 <= i < |chosen| :: chosen[i].name == n
    ensures forall n <- deps :: exists p <- chosen :: p.name == n && deps[n] == Elements(p.dependsOn)
  {
    if chosen == [] then map[]
    else
      var last := chosen[|chosen| - 1];
      assert chosen == chosen[..|chosen| - 1] + [last];
      DependenciesOf(chosen[..|chosen| - 1])[last.name := Elements(last.dependsOn)]
  }

  // ------------------------------------------------------------------ one specialist

  function TextOf(upstream: map<Node, Finding>, n: Node): Option<string> {
    if n in upstream then Some(upstream[n].text) else None
  }

  /** The shared path: every specialist's own analysis, and for gap detection the review of facts and evidence. */
  function RunSpecialist(n: Node, panel: Panel, upstream: map<Node, Finding>): (r: Option<Finding>)
    ensures r.Some? ==> panel.own(n).Some? && r.value.text == panel.own(n).value
    ensures n != Specialist(GapDetection) ==> (r.Some? <==> panel.own(n).Some?)
  {
    match panel.own(n)
    case None => None
    case Some(text) =>
      if n != Specialist(GapDetection) then Some(Finding(text, None))
      else
        var review := panel.review(TextOf(upstream, Specialist(Facts)), TextOf(upstream, Specialist(Evidence)));
        if review.None? then None else Some(Finding(text, review))
  }

  /** Gap detection waits for the two it reads, where the plan has them. */
  ghost predicate GapWaits(deps: Dependencies) {
    Specialist(GapDetection) in deps ==>
      forall n | n in {Specialist(Facts), Specialist(Evidence)} && n in deps :: n in deps[Specialist(GapDetection)]
  }

  function OwnText(deps: Dependencies, panel: Panel, n: Node): Option<string> {
    if n in deps then panel.own(n) else None
  }

  /** What each specialist finds, said without any order: gap detection reviews whatever the plan has of the two. */
  function Final(deps: Dependencies, panel: Panel, n: Node): Option<Finding> {
    var review :=
      if n == Specialist(GapDetection)
      then panel.review(OwnText(deps, panel, Specialist(Facts)), OwnText(deps, panel, Specialist(Evidence)))
      else None;
    if panel.own(n).None? || (n == Specialist(GapDetection) && review.None?) then None
    else Some(Finding(panel.own(n).value, review))
  }

  /** Outputs collected so far: those of `done`; where gap detection waits, each as `Final` says. */
  ghost predicate Collected(deps: Dependencies, panel: Panel, done: set<Node>, outputs: map<Node, Finding>) {
    && done <= deps.Keys && outputs.Keys == done && (forall n <- done :: panel.own(n).Some? && outputs[n].text == panel.own(n).value)
    && (GapWaits(deps) ==> forall n <- done :: Final(deps, panel, n) == Some(outputs[n]))
  }

  /** The specialist fails in the whole plan or, where gap detection does not wait, on some of the plan's findings. */
  ghost predicate Fails(deps: Dependencies, panel: Panel, n: Node) {
    if GapWaits(deps) then Final(deps, panel, n).None?
    else exists upstream: map<Node, Finding> :: upstream.Keys <= deps.Keys && RunSpecialist(n, panel, upstream).None?
  }

  lemma RunsAsFinal(deps: Dependencies, panel: Panel, done: set<Node>, outputs: map<Node, Finding>, n: Node)
    requires Collected(deps, panel, done, outputs) && n in deps && deps[n] <= done + {Retrieve}
    ensures GapWaits(deps) ==> RunSpecialist(n, panel, outputs) == Final(deps, panel, n)
    ensures RunSpecialist(n, panel, outputs).None? ==> Fails(deps, panel, n)
  {
  }

  // ------------------------------------------------------------------ stuck plans

  /** Every node of the set waits for another of the set, or for something never scheduled. */
  ghost predicate Blocked(deps: Dependencies, s: set<Node>) {
    && s != {} && s <= deps.Keys
    && forall n <- s :: exists d <- deps[n] :: d in s || (d !in deps && d != Retrieve)
  }

  ghost predicate Runnable(deps: Dependencies, n: Node) {
    n in deps && forall s :: Blocked(deps, s) ==> n !in s
  }

  /** The nodes no longer pending. */
  function Behind(deps: Dependencies, pending: set<Node>): set<Node> {
    deps.Keys - pending
  }

  function Ready(deps: Dependencies, pending: set<Node>): (ready: set<Node>)
    requires pending <= deps.Keys
    ensures ready <= pending && ready !! Behind(deps, pending)
    ensures forall n <- ready :: deps[n] <= Behind(deps, pending) + {Retrieve}
  {
    set n | n in pending && deps[n] <= Behind(deps, pending) + {Retrieve}
  }

  lemma ReadyIsRunnable(deps: Dependencies, pending: set<Node>, s: set<Node>)
    requires Retrieve !in deps && pending <= deps.Keys
    requires Blocked(deps, s) && s <= pending
    ensures s !! Ready(deps, pending)
  {
  }

  lemma NothingReadyMeansBlocked(deps: Dependencies, pending: set<Node>)
    requires pending <= deps.Keys && pending != {} && Ready(deps, pending) == {}
    ensures Blocked(deps, pending)
  {
    forall n | n in pending
      ensures exists d <- deps[n] :: d in pending || (d !in deps && d != Retrieve)
    {
      assert n !in Ready(deps, pending);
      var d :| d in deps[n] && d !in Behind(deps, pending) + {Retrieve};
    }
  }

  /** The verdict both schedulers must reach, and the outputs with it. */
  ghost predicate Expected(r: Outcome, deps: Dependencies, panel: Panel) {
    match r
    case Done(outputs) => (forall s :: !Blocked(deps, s)) && Collected(deps, panel, deps.Keys, outputs)
    case Stuck =>
      && (exists s :: Blocked(deps, s))
      && forall n | Runnable(deps, n) :: panel.own(n).Some? && (GapWaits(deps) ==> Final(deps, panel, n).Some?)
    case Failed(n) => Runnable(deps, n) && Fails(deps, panel, n)
  }

  /** All blocked sets are still waiting, and everything run so far succeeded. */
  ghost predicate Progress(deps: Dependencies, panel: Panel, pending: set<Node>, outputs: map<Node, Finding>) {
    && pending <= deps.Keys && Collected(deps, panel, Behind(deps, pending), outputs)
    && forall s :: Blocked(deps, s) ==> s <= pending
  }

  lemma StuckIsExpected(deps: Dependencies, panel: Panel, pending: set<Node>, outputs: map<Node, Finding>)
    requires Progress(deps, panel, pending, outputs) && pending != {} && Ready(deps, pending) == {}
    ensures Expected(Stuck, deps, panel)
  {
    NothingReadyMeansBlocked(deps, pending);
  }

  lemma DoneIsExpected(deps: Dependencies, panel: Panel, outputs: map<Node, Finding>)
    requires Progress(deps, panel, {}, outputs)
    ensures Expected(Done(outputs), deps, panel) && Behind(deps, {}) == deps.Keys
  {
    assert Behind(deps, {}) == deps.Keys;
    forall s
      ensures !Blocked(deps, s)
    {
      assert Blocked(deps, s) ==> s <= {};
    }
  }

  lemma FailedIsExpected(deps: Dependencies, panel: Panel, pending: set<Node>, outputs: map<Node, Finding>, n: Node)
    requires Retrieve !in deps && Progress(deps, panel, pending, outputs) && n in Ready(deps, pending) && Fails(deps, panel, n)
    ensures Expected(Failed(n), deps, panel)
  {
    forall s | Blocked(deps, s)
      ensures n !in s
    {
      ReadyIsRunnable(deps, pending, s);
    }
  }

  /** The nodes of a wave succeed together: then the wave is behind us. */
  lemma WaveProgress(deps: Dependencies, panel: Panel, pending: set<Node>, outputs: map<Node, Finding>, more: map<Node, Finding>)
    requires Retrieve !in deps && Progress(deps, panel, pending, outputs)
    requires Collected(deps, panel, Behind(deps, pending) + Ready(deps, pending), more)
    ensures Progress(deps, panel, pending - Ready(deps, pending), more)
    ensures Collected(deps, panel, Behind(deps, pending - Ready(deps, pending)), more)
    ensures Behind(deps, pending - Ready(deps, pending)) == Behind(deps, pending) + Ready(deps, pending)
  {
    assert Behind(deps, pending - Ready(deps, pending)) == Behind(deps, pending) + Ready(deps, pending);
    forall s | Blocked(deps, s)
      ensures s <= pending - Ready(deps, pending)
    {
      ReadyIsRunnable(deps, pending, s);
    }
  }

  // ------------------------------------------------------------------ the order of the calls

  /** The calls made ran exactly `ran`: each node once, when everything it depends on had run. */
  ghost predicate Ran(deps: Dependencies, order: seq<Node>, ran: set<Node>)
    decreases |order|
  {
    if order == [] then ran == {}
    else
      var n := order[|order| - 1];
      n in ran && n in deps && deps[n] <= ran - {n} + {Retrieve} && Ran(deps, order[..|order| - 1], ran - {n})
  }

  lemma RanOne(deps: Dependencies, order: seq<Node>, ran: set<Node>, n: Node)
    requires Ran(deps, order, ran) && n in deps && n !in ran && deps[n] <= ran + {Retrieve}
    ensures Ran(deps, order + [n], ran + {n})
  {
    assert (order + [n])[..|order|] == order;
    assert ran + {n} - {n} == ran;
  }

  /** Said position by position: no node twice, and the dependencies of each among those before it. */
  ghost predicate OnceAfterDependencies(deps: Dependencies, order: seq<Node>) {
    && (forall i, j | 0 <= i < j < |order| :: order[i] != order[j])
    && (forall i | 0 <= i < |order| :: order[i] in deps && deps[order[i]] <= Elements(order[..i]) + {Retrieve})
  }

  lemma OnceAfterOne(deps: Dependencies, before: seq<Node>, n: Node)
    requires OnceAfterDependencies(deps, before) && n !in before && n in deps && deps[n] <= Elements(before) + {Retrieve}
    ensures OnceAfterDependencies(deps, before + [n])
  {
    var order := before + [n];
    assert order[..|before|] == before;
    assert forall i | 0 <= i < |before| :: order[..i] == before[..i] && before[i] in before;
  }

  lemma {:induction false} RanMeans(deps: Dependencies, order: seq<Node>, ran: set<Node>)
    requires Ran(deps, order, ran)
    ensures Elements(order) == ran && OnceAfterDependencies(deps, order)
    decreases |order|
  {
    hide OnceAfterDependencies;
    if order == [] {
      NoneRan(deps);
    } else {
      var before, n := order[..|order| - 1], order[|order| - 1];
      RanMeans(deps, before, ran - {n});
      OnceAfterOne(deps, before, n);
      assert order == before + [n];
      assert Elements(order) == Elements(before) + {n} == ran;
    }
  }

  lemma NoneRan(deps: Dependencies)
    ensures OnceAfterDependencies(deps, [])
  {
  }

  /** The specialists called one by one in some order, each with everything found before it. */
  function RunInOrder(order: seq<Node>, panel: Panel): Option<map<Node, Finding>>
    decreases |order|
  {
    if order == [] then Some(map[])
    else
      var (before, n) := (order[..|order| - 1], order[|order| - 1]);
      var upstream := RunInOrder(before, panel);
      if upstream.None? then None
      else
        var finding := RunSpecialist(n, panel, upstream.value);
        if finding.None? then None else Some(upstream.value[n := finding.value])
  }

  /** Every order that respects the dependencies gives the same findings, where gap detection waits for what it reads. */
  lemma {:induction false} AnyOrder(deps: Dependencies, panel: Panel, order: seq<Node>, ran: set<Node>)
    requires GapWaits(deps) && Ran(deps, order, ran)
    ensures RunInOrder(order, panel).Some? <==> forall n <- ran :: Final(deps, panel, n).Some?
    ensures RunInOrder(order, panel).Some? ==> Collected(deps, panel, ran, RunInOrder(order, panel).value)
    decreases |order|
  {
    hide GapWaits, RunSpecialist, Final;
    if order != [] {
      var n := order[|order| - 1];
      AnyOrder(deps, panel, order[..|order| - 1], ran - {n});
      assert ran == ran - {n} + {n};
      var upstream := RunInOrder(order[..|order| - 1], panel);
      if upstream.Some? {
        RunsAsFinal(deps, panel, ran - {n}, upstream.value, n);
      }
    }
  }

  /** Without the wait the order of facts and gap detection shows, exactly when the review of the facts' text shows. */
  lemma WithoutWaitingOrderShows(panel: Panel)
    requires panel.own(Specialist(Facts)).Some? && panel.own(Specialist(GapDetection)).Some?
    ensures var deps := map[Specialist(Facts) := {Retrieve}, Specialist(GapDetection) := {Retrieve}];
            var a, b := [Specialist(Facts), Specialist(GapDetection)], [Specialist(GapDetection), Specialist(Facts)];
            && Ran(deps, a, deps.Keys) && Ran(deps, b, deps.Keys)
            && (RunInOrder(a, panel) == RunInOrder(b, panel)
                <==> panel.review(panel.own(Specialist(Facts)), None) == panel.review(None, None))
  {
    var facts, gap := Specialist(Facts), Specialist(GapDetection);
    TwoInOrder(facts, gap, panel);
    TwoInOrder(gap, facts, panel);
    hide RunInOrder, Ran;
    var (a, b) := (RunInOrder([facts, gap], panel), RunInOrder([gap, facts], panel));
    if a.Some? && b.Some? {
      assert a.value == b.value <==> a.value[gap] == b.value[gap];
    }
  }

  lemma TwoInOrder(a: Node, b: Node, panel: Panel)
    requires a != b
    ensures RunInOrder([a, b], panel)
            == var first := RunSpecialist(a, panel, map[]);
               if first.None? then None
               else
                 var second := RunSpecialist(b, panel, map[a := first.value]);
                 if second.None? then None else Some(map[a := first.value, b := second.value])
  {
    hide RunSpecialist;
    assert [a][..0] == [] && [a, b][..1] == [a];
    var first := RunSpecialist(a, panel, map[]);
    assert RunInOrder([a], panel) == if first.None? then None else Some(map[a := first.value]);
  }

  /** One call more in an order. */
  lemma OneMoreInOrder(order: seq<Node>, n: Node, panel: Panel, outputs: map<Node, Finding>)
    requires RunInOrder(order, panel) == Some(outputs)
    ensures RunInOrder(order + [n], panel)
            == var finding := RunSpecialist(n, panel, outputs);
               if finding.None? then None else Some(outputs[n := finding.value])
  {
    assert (order + [n])[..|order|] == order;
  }

  // ------------------------------------------------------------------ the two schedulers

  method FindReady(deps: Dependencies, pending: set<Node>, completed: set<Node>) returns (ready: set<Node>)
    requires pending <= deps.Keys && completed == Behind(deps, pending) + {Retrieve}
    ensures ready == Ready(deps, pending)
  {
    ready := set n | n in pending && deps[n] <= completed;
  }

  /** Waves: a wave's calls all see the outputs collected before it, and may finish in any order. */
  method RunWaves(deps: Dependencies, panel: Panel) returns (r: Outcome, ghost order: seq<Node>)
    requires Retrieve !in deps
    ensures Expected(r, deps, panel) && OnceAfterDependencies(deps, order)
    ensures r.Done? ==> Elements(order) == deps.Keys
  {
    hide Blocked, Expected, Collected, GapWaits, Progress, Ready, Behind, Ran, Elements, OnceAfterDependencies;
    order := [];
    RanStart(deps);
    var pending, completed := deps.Keys, {Retrieve};
    var outputs: map<Node, Finding> := map[];
    NothingYet(deps, panel);
    while pending != {}
      invariant pending <= deps.Keys && Collected(deps, panel, Behind(deps, pending), outputs)
      invariant Progress(deps, panel, pending, outputs) && completed == Behind(deps, pending) + {Retrieve}
      invariant Ran(deps, order, Behind(deps, pending))
      decreases |pending|
    {
      var ready := FindReady(deps, pending, completed);
      if ready == {} {
        StuckIsExpected(deps, panel, pending, outputs);
        RanMeans(deps, order, Behind(deps, pending));
        return Stuck, order;
      }
      var failure: Option<Node>;
      ghost var before := outputs;
      outputs, failure, order := RunWave(deps, panel, pending, ready, outputs, order);
      if failure.Some? {
        FailedIsExpected(deps, panel, pending, before, failure.value);
        return Failed(failure.value), order;
      }
      WaveProgress(deps, panel, pending, before, outputs);
      completed := completed + ready;
      pending := pending - ready;
    }
    DoneIsExpected(deps, panel, outputs);
    RanMeans(deps, order, Behind(deps, pending));
    return Done(outputs), order;
  }

  /** A round has done everything of `base` and of `ready` that is not left. */
  ghost predicate Round(base: set<Node>, ready: set<Node>, left: set<Node>, done: set<Node>) {
    left <= ready && base <= done && done + left == base + ready && done !! left
  }

  lemma OneLess(base: set<Node>, ready: set<Node>, left: set<Node>, done: set<Node>, n: Node)
    requires n in left && Round(base, ready, left, done)
    ensures Round(base, ready, left - {n}, done + {n}) && n in ready && n !in done && base <= done
    ensures done + {Retrieve} + {n} == done + {n} + {Retrieve}
  {
  }

  lemma RoundStarts(base: set<Node>, ready: set<Node>)
    requires base !! ready
    ensures Round(base, ready, ready, base)
  {
  }

  lemma RoundEnds(base: set<Node>, ready: set<Node>, done: set<Node>)
    requires Round(base, ready, {}, done)
    ensures done == base + ready
  {
  }

  lemma RanStart(deps: Dependencies)
    ensures Ran(deps, [], Behind(deps, deps.Keys))
  {
  }

  lemma NothingYet(deps: Dependencies, panel: Panel)
    ensures Progress(deps, panel, deps.Keys, map[]) && Collected(deps, panel, Behind(deps, deps.Keys), map[])
  {
  }

  method RunWave(deps: Dependencies, panel: Panel, ghost pending: set<Node>, ready: set<Node>,
                 upstream: map<Node, Finding>, ghost earlier: seq<Node>)
    returns (outputs: map<Node, Finding>, failure: Option<Node>, ghost order: seq<Node>)
    requires pending <= deps.Keys && ready == Ready(deps, pending)
    requires Collected(deps, panel, Behind(deps, pending), upstream)
    requires Ran(deps, earlier, Behind(deps, pending))
    ensures failure.Some? ==> failure.value in ready && Fails(deps, panel, failure.value) && OnceAfterDependencies(deps, order)
    ensures failure.None? ==> Ran(deps, order, Behind(deps, pending) + ready)
    ensures failure.None? ==> Collected(deps, panel, Behind(deps, pending) + ready, outputs)
  {
    hide *;
    order := earlier;
    outputs, failure := upstream, None;
    var left := ready;
    ghost var base := Behind(deps, pending);
    RoundStarts(base, ready);
    ghost var done, ran := base, base;
    while left != {}
      invariant Round(base, ready, left, ran)
      invariant base <= done && (failure.None? ==> done == ran)
      invariant Collected(deps, panel, done, outputs) && Ran(deps, order, ran)
      invariant failure.Some? ==> failure.value in ready && Fails(deps, panel, failure.value)
      decreases |left|
    {
      var n :| n in left;
      OneLess(base, ready, left, ran, n);
      RunsAsFinal(deps, panel, base, upstream, n);
      RanOne(deps, order, ran, n);
      order := order + [n];
      ran := ran + {n};
      var finding := RunSpecialist(n, panel, upstream);
      if finding.None? {
        failure := if failure.None? then Some(n) else failure;
      } else {
        CollectOne(deps, panel, done, outputs, n, upstream, finding.value);
        outputs := outputs[n := finding.value];
        done := done + {n};
      }
      left := left - {n};
    }
    RoundEnds(base, ready, ran);
    RanMeans(deps, order, ran);
  }

  /** One round of single calls; unlike a wave it stops at the first failure, and each call sees the ones before it. */
  method RunInTurn(deps: Dependencies, panel: Panel, ghost pending: set<Node>, ready: set<Node>,
                   upstream: map<Node, Finding>, before: set<Node>, ghost earlier: seq<Node>)
    returns (outputs: map<Node, Finding>, completed: set<Node>, failure: Option<Node>, ghost order: seq<Node>)
    requires pending <= deps.Keys && ready == Ready(deps, pending)
    requires Collected(deps, panel, Behind(deps, pending), upstream) && before == Behind(deps, pending) + {Retrieve}
    requires Ran(deps, earlier, Behind(deps, pending)) && RunInOrder(earlier, panel) == Some(upstream)
    ensures failure.Some? ==> failure.value in ready && Fails(deps, panel, failure.value) && OnceAfterDependencies(deps, order)
    ensures failure.None? ==> Ran(deps, order, Behind(deps, pending) + ready)
    ensures RunInOrder(order, panel) == if failure.None? then Some(outputs) else None
    ensures failure.None? ==> Collected(deps, panel, Behind(deps, pending) + ready, outputs) && completed == before + ready
  {
    hide *;
    order := earlier;
    outputs, completed, failure := upstream, before, None;
    ghost var base := Behind(deps, pending);
    RoundStarts(base, ready);
    ghost var done := base;
    var left := ready;
    while left != {}
      invariant Round(base, ready, left, done)
      invariant completed == done + {Retrieve} && Collected(deps, panel, done, outputs) && Ran(deps, order, done)
      invariant RunInOrder(order, panel) == Some(outputs)
      decreases |left|
    {
      var n :| n in left;
      OneLess(base, ready, left, done, n);
      assert deps[n] <= done + {Retrieve};
      RunsAsFinal(deps, panel, done, outputs, n);
      RanOne(deps, order, done, n);
      OneMoreInOrder(order, n, panel, outputs);
      order := order + [n];
      var finding := RunSpecialist(n, panel, outputs);
      if finding.None? {
        failure := Some(n);
        RanMeans(deps, order, done + {n});
        return;
      }
      CollectOne(deps, panel, done, outputs, n, outputs, finding.value);
      outputs := outputs[n := finding.value];
      completed := completed + {n};
      done := done + {n};
      left := left - {n};
    }
    RoundEnds(base, ready, done);
    RanMeans(deps, order, done);
  }

  /** One after the other: each call sees everything collected so far. */
  method RunSequentially(deps: Dependencies, panel: Panel) returns (r: Outcome, ghost order: seq<Node>)
    requires Retrieve !in deps
    ensures Expected(r, deps, panel) && OnceAfterDependencies(deps, order)
    ensures r.Done? ==> Elements(order) == deps.Keys
    ensures r.Failed? <==> RunInOrder(order, panel).None?
    ensures r.Done? ==> RunInOrder(order, panel) == Some(r.outputs)
  {
    hide Blocked, Expected, Collected, GapWaits, Progress, Ready, Behind, Ran, Elements, OnceAfterDependencies;
    order := [];
    RanStart(deps);
    var pending, completed := deps.Keys, {Retrieve};
    var outputs: map<Node, Finding> := map[];
    NothingYet(deps, panel);
    while pending != {}
      invariant pending <= deps.Keys && Collected(deps, panel, Behind(deps, pending), outputs)
      invariant Progress(deps, panel, pending, outputs) && completed == Behind(deps, pending) + {Retrieve}
      invariant Ran(deps, order, Behind(deps, pending)) && RunInOrder(order, panel) == Some(outputs)
      decreases |pending|
    {
      var ready := FindReady(deps, pending, completed);
      if ready == {} {
        StuckIsExpected(deps, panel, pending, outputs);
        RanMeans(deps, order, Behind(deps, pending));
        return Stuck, order;
      }
      ghost var before := outputs;
      var failure: Option<Node>;
      outputs, completed, failure, order := RunInTurn(deps, panel, pending, ready, outputs, completed, order);
      if failure.Some? {
        FailedIsExpected(deps, panel, pending, before, failure.value);
        return Failed(failure.value), order;
      }
      WaveProgress(deps, panel, pending, before, outputs);
      pending := pending - ready;
    }
    DoneIsExpected(deps, panel, outputs);
    RanMeans(deps, order, Behind(deps, pending));
    return Done(outputs), order;
  }

  lemma CollectOne(deps: Dependencies, panel: Panel, done: set<Node>, outputs: map<Node, Finding>,
                   n: Node, upstream: map<Node, Finding>, f: Finding)
    requires Collected(deps, panel, done, outputs) && n in deps && RunSpecialist(n, panel, upstream) == Some(f)
    requires GapWaits(deps) ==> Final(deps, panel, n) == Some(f)
    ensures Collected(deps, panel, done + {n}, outputs[n := f])
  {
    hide RunSpecialist, Final, GapWaits;
  }

  /** Whatever a scheduler does, no plan is both done and stuck; and where gap detection waits the verdict and the findings are fixed. */
  lemma SchedulersAgree(a: Outcome, b: Outcome, deps: Dependencies, panel: Panel)
    requires Expected(a, deps, panel) && Expected(b, deps, panel)
    ensures !(a.Done? && b.Stuck?) && !(a.Stuck? && b.Done?)
    ensures GapWaits(deps) ==> a.Done? == b.Done? && a.Stuck? == b.Stuck? && a.Failed? == b.Failed?
    ensures GapWaits(deps) && a.Done? ==> a == b
  {
    hide GapWaits, Final;
    if GapWaits(deps) && a.Done? && b.Done? {
      assert forall n <- deps :: Final(deps, panel, n) == Some(a.outputs[n]) == Some(b.outputs[n]);
    }
  }

  // ------------------------------------------------------------------ the planner's plans

  /** Facts and evidence wait for the retrieval alone, everything else at most for these. */
  ghost predicate Shallow(chosen: seq<PlanNode>) {
    && (forall p <- chosen | p.name in {Specialist(Facts), Specialist(Evidence)} :: p.dependsOn == [Retrieve])
    && (forall p <- chosen, d <- p.dependsOn :: d in {Retrieve, Specialist(Facts), Specialist(Evidence)})
    && (forall p <- chosen | p.name == Specialist(GapDetection) ::
          Specialist(Facts) in p.dependsOn && Specialist(Evidence) in p.dependsOn)
    && (forall p <- chosen :: p.name.Specialist?)
    && Specialist(Facts) in Names(chosen) && Specialist(Evidence) in Names(chosen)
  }

  lemma ShallowWith(nodes: seq<PlanNode>, wanted: bool, expert: Expert, dependsOn: seq<Node>)
    requires Shallow(nodes) && expert != Facts && expert != Evidence
    requires forall d <- dependsOn :: d in {Retrieve, Specialist(Facts), Specialist(Evidence)}
    requires expert == GapDetection ==> Specialist(Facts) in dependsOn && Specialist(Evidence) in dependsOn
    ensures Shallow(With(nodes, wanted, expert, dependsOn))
  {
  }

  lemma AlwaysShallow()
    ensures Shallow(Always)
  {
    assert Names(Always) == [Specialist(Facts), Specialist(Evidence)];
  }

  lemma ExpertsShallow(question: Question)
    ensures Shallow(Experts(question))
  {
    hide Shallow, With, Always;
    AlwaysShallow();
    ShallowWith(Always, question.compares, Contradiction, [Retrieve]);
    var a := With(Always, question.compares, Contradiction, [Retrieve]);
    ShallowWith(a, question.citesLaw, StatutoryConflict, [Retrieve]);
    var b := With(a, question.citesLaw, StatutoryConflict, [Retrieve]);
    ShallowWith(b, question.asksForGaps, GapDetection, [Retrieve, Specialist(Facts), Specialist(Evidence)]);
  }

  /** The same, read off the dictionary. */
  ghost predicate ShallowDeps(deps: Dependencies) {
    && Retrieve !in deps && Specialist(Facts) in deps && Specialist(Evidence) in deps
    && deps[Specialist(Facts)] == {Retrieve} && deps[Specialist(Evidence)] == {Retrieve}
    && forall n <- deps :: deps[n] <= {Retrieve, Specialist(Facts), Specialist(Evidence)}
  }

  lemma ShallowEntry(chosen: seq<PlanNode>, n: Node)
    requires Shallow(chosen) && n in DependenciesOf(chosen)
    ensures n != Retrieve && DependenciesOf(chosen)[n] <= {Retrieve, Specialist(Facts), Specialist(Evidence)}
    ensures n in {Specialist(Facts), Specialist(Evidence)} ==> DependenciesOf(chosen)[n] == {Retrieve}
    ensures n == Specialist(GapDetection) ==> {Specialist(Facts), Specialist(Evidence)} <= DependenciesOf(chosen)[n]
  {
    hide DependenciesOf;
    var p :| p in chosen && p.name == n && DependenciesOf(chosen)[n] == Elements(p.dependsOn);
  }

  lemma ShallowDictionary(chosen: seq<PlanNode>)
    requires Shallow(chosen)
    ensures ShallowDeps(DependenciesOf(chosen)) && GapWaits(DependenciesOf(chosen))
  {
    hide DependenciesOf;
    forall n | n in DependenciesOf(chosen)
      ensures n != Retrieve && DependenciesOf(chosen)[n] <= {Retrieve, Specialist(Facts), Specialist(Evidence)}
      ensures n in {Specialist(Facts), Specialist(Evidence)} ==> DependenciesOf(chosen)[n] == {Retrieve}
      ensures n == Specialist(GapDetection) ==> {Specialist(Facts), Specialist(Evidence)} <= DependenciesOf(chosen)[n]
    {
      ShallowEntry(chosen, n);
    }
  }

  lemma ShallowNeverBlocks(deps: Dependencies, s: set<Node>)
    requires ShallowDeps(deps)
    ensures !Blocked(deps, s)
  {
    if s != {} && s <= deps.Keys {
      var facts, evidence := Specialist(Facts), Specialist(Evidence);
      var n :| n in s;
      var free := if facts in s then facts else if evidence in s then evidence else n;
      assert free in s && forall d <- deps[free] :: d !in s && (d in deps || d == Retrieve);
    }
  }

  /** No plan of the planner is ever stuck, and gap detection waits for what it reads. */
  lemma BuiltPlansNeverStick(question: Question)
    ensures var deps := DependenciesOf(Specialists(PlanFor(question)));
            Retrieve !in deps && GapWaits(deps) && forall s :: !Blocked(deps, s)
  {
    hide Blocked, Specialists, PlanFor, Experts, Shallow, GapWaits;
    SpecialistsOfPlan(question);
    ExpertsShallow(question);
    ShallowDictionary(Experts(question));
    forall s
      ensures !Blocked(DependenciesOf(Experts(question)), s)
    {
      ShallowNeverBlocks(DependenciesOf(Experts(question)), s);
    }
  }

  /** So both schedulers finish every such plan with the same findings, unless an analysis or the review itself fails. */
  lemma BuiltPlansAgree(question: Question, panel: Panel, wave: Outcome, single: Outcome)
    requires Expected(wave, DependenciesOf(Specialists(PlanFor(question))), panel)
    requires Expected(single, DependenciesOf(Specialists(PlanFor(question))), panel)
    ensures !wave.Stuck? && !single.Stuck?
    ensures wave.Done? <==> forall n <- DependenciesOf(Specialists(PlanFor(question))) ::
              Final(DependenciesOf(Specialists(PlanFor(question))), panel, n).Some?
    ensures wave.Done? ==> wave == single
  {
    hide Blocked, Specialists, PlanFor, GapWaits, Final;
    BuiltPlansNeverStick(question);
    SchedulersAgree(wave, single, DependenciesOf(Specialists(PlanFor(question))), panel);
  }
}
