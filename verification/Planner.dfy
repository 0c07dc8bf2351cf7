/** The review plan: which specialist nodes a question calls for, and what each one waits for. */
module Planner {
  datatype Expert = Facts | Evidence | Contradiction | StatutoryConflict | GapDetection | OtherExpert(name: string)

  /** Every node identity used by the plan and by the durable graph built from it. */
  datatype Node =
    | UserMessage | Planning | MemoryRecall | Retrieve
    | Specialist(expert: Expert)
    | SpecialistJoin | Critic | Memory | Finish | PersistEffects | Audit

  datatype PlanNode = PlanNode(name: Node, dependsOn: seq<Node>)

  /** What the wording and the detected route of a question call for. */
  datatype Question = Question(compares: bool, citesLaw: bool, asksForGaps: bool)

  function Names(plan: seq<PlanNode>): (names: seq<Node>)
    ensures |names| == |plan|
    ensures forall i | 0 <= i < |plan| :: names[i] == plan[i].name
  {
    seq(|plan|, i requires 0 <= i < |plan| => plan[i].name)
  }

  function With(nodes: seq<PlanNode>, wanted: bool, expert: Expert, dependsOn: seq<Node>): (more: seq<PlanNode>)
    ensures forall n :: n in Names(more) <==> n in Names(nodes) || (wanted && n == Specialist(expert))
    ensures (forall p <- nodes :: p.name.Specialist?) ==> forall p <- more :: p.name.Specialist?
  {
    if wanted then
      assert Names(nodes + [PlanNode(Specialist(expert), dependsOn)]) == Names(nodes) + [Specialist(expert)];
      nodes + [PlanNode(Specialist(expert), dependsOn)]
    else nodes
  }

  const Always := [PlanNode(Specialist(Facts), [Retrieve]), PlanNode(Specialist(Evidence), [Retrieve])]

  /** The specialists a question calls for, in the order the planner adds them. */
  function Experts(question: Question): (experts: seq<PlanNode>)
    ensures forall p <- experts :: p.name.Specialist?
  {
    var a := With(Always, question.compares, Contradiction, [Retrieve]);
    var b := With(a, question.citesLaw, StatutoryConflict, [Retrieve]);
    With(b, question.asksForGaps, GapDetection, [Retrieve, Specialist(Facts), Specialist(Evidence)])
  }

  function PlanFor(question: Question): seq<PlanNode> {
    [PlanNode(Retrieve, [])] + Experts(question)
    + [PlanNode(Critic, Names(Experts(question))), PlanNode(Memory, [Critic])]
  }

  /** The planner appends node after node; the critic waits for everything but the retrieval. */
  method BuildPlan(question: Question) returns (plan: seq<PlanNode>)
    ensures plan == PlanFor(question)
  {
    plan := [
      PlanNode(Retrieve, []),
      PlanNode(Specialist(Facts), [Retrieve]),
      PlanNode(Specialist(Evidence), [Retrieve])
    ];
    ghost var head := [PlanNode(Retrieve, [])];
    assert plan == head + Always;
    hide *;
    ghost var a := With(Always, question.compares, Contradiction, [Retrieve]);
    WithAppends(head, Always, question.compares, Contradiction, [Retrieve]);
    if question.compares {
      plan := plan + [PlanNode(Specialist(Contradiction), [Retrieve])];
    }
    assert plan == head + a;
    ghost var b := With(a, question.citesLaw, StatutoryConflict, [Retrieve]);
    WithAppends(head, a, question.citesLaw, StatutoryConflict, [Retrieve]);
    if question.citesLaw {
      plan := plan + [PlanNode(Specialist(StatutoryConflict), [Retrieve])];
    }
    assert plan == head + b;
    WithAppends(head, b, question.asksForGaps, GapDetection, [Retrieve, Specialist(Facts), Specialist(Evidence)]);
    if question.asksForGaps {
      plan := plan + [PlanNode(Specialist(GapDetection), [Retrieve, Specialist(Facts), Specialist(Evidence)])];
    }
    assert plan == head + With(b, question.asksForGaps, GapDetection, [Retrieve, Specialist(Facts), Specialist(Evidence)]);
    ExpertsInTurn(question);
    RetrieveFirst(Experts(question));
    PlanInTurn(question);
    var experts := ExpertNames(plan);
    plan := plan + [PlanNode(Critic, experts), PlanNode(Memory, [Critic])];
  }

  lemma ExpertsInTurn(question: Question)
    ensures var a := With(Always, question.compares, Contradiction, [Retrieve]);
            var b := With(a, question.citesLaw, StatutoryConflict, [Retrieve]);
            Experts(question) == With(b, question.asksForGaps, GapDetection, [Retrieve, Specialist(Facts), Specialist(Evidence)])
  {
  }

  lemma RetrieveFirst(experts: seq<PlanNode>)
    requires forall p <- experts :: p.name.Specialist?
    ensures var nodes := [PlanNode(Retrieve, [])] + experts;
            Names(nodes)[1..] == Names(experts) && forall i | 1 <= i < |nodes| :: nodes[i].name != Retrieve
  {
    var head := [PlanNode(Retrieve, [])];
    NamesJoin(head, experts);
    NamesOfOne(head[0]);
    hide Names;
    forall i | 1 <= i < |head + experts|
      ensures (head + experts)[i].name != Retrieve
    {
      assert (head + experts)[i] == experts[i - 1] && experts[i - 1] in experts;
    }
  }

  lemma NamesOfOne(p: PlanNode)
    ensures |Names([p])| == 1
  {
  }

  lemma PlanInTurn(question: Question)
    ensures PlanFor(question)
            == [PlanNode(Retrieve, [])] + Experts(question)
               + [PlanNode(Critic, Names(Experts(question))), PlanNode(Memory, [Critic])]
  {
    hide Experts, Names;
  }

  lemma WithAppends(head: seq<PlanNode>, nodes: seq<PlanNode>, wanted: bool, expert: Expert, dependsOn: seq<Node>)
    ensures head + With(nodes, wanted, expert, dependsOn)
            == if wanted then head + nodes + [PlanNode(Specialist(expert), dependsOn)] else head + nodes
  {
  }

  method ExpertNames(nodes: seq<PlanNode>) returns (experts: seq<Node>)
    requires |nodes| > 0 && nodes[0].name == Retrieve && forall i | 1 <= i < |nodes| :: nodes[i].name != Retrieve
    ensures experts == Names(nodes)[1..]
  {
    experts := [];
    for i := 0 to |nodes|
      invariant experts == Names(nodes)[if i == 0 then 0 else 1..i]
    {
      if nodes[i].name != Retrieve {
        experts := experts + [nodes[i].name];
      }
    }
  }

  /** The part of a plan the schedulers run: everything but retrieval, critic and memory. */
  function Specialists(plan: seq<PlanNode>): (chosen: seq<PlanNode>)
    ensures forall p :: p in chosen <==> p in plan && p.name !in {Retrieve, Critic, Memory}
  {
    if plan == [] then []
    else (if plan[0].name in {Retrieve, Critic, Memory} then [] else [plan[0]]) + Specialists(plan[1..])
  }

  /** The specialists wait only for earlier specialists and the common preparation, and are named apart. */
  ghost predicate Ordered(chosen: seq<PlanNode>) {
    && (forall i | 0 <= i < |chosen| :: chosen[i].name.Specialist?)
    && (forall i, j | 0 <= i < j < |chosen| :: chosen[i].name != chosen[j].name)
    && (forall i, d | 0 <= i < |chosen| && d in chosen[i].dependsOn ::
          d in {UserMessage, Planning, MemoryRecall, Retrieve} || exists j | 0 <= j < i :: chosen[j].name == d)
  }

  lemma SpecialistsOfPlan(question: Question)
    ensures Specialists(PlanFor(question)) == Experts(question)
  {
    hide Experts;
    var experts := Experts(question);
    var retrieve, closing := PlanNode(Retrieve, []), [PlanNode(Critic, Names(experts)), PlanNode(Memory, [Critic])];
    SpecialistsSplit([retrieve] + experts, closing);
    SpecialistsSplit([retrieve], experts);
    SpecialistsAll(experts);
    assert closing[1..] == [PlanNode(Memory, [Critic])];
    assert Specialists(closing[1..]) == [] && Specialists(closing) == [];
  }

  lemma {:induction false} SpecialistsSplit(a: seq<PlanNode>, b: seq<PlanNode>)
    ensures Specialists(a + b) == Specialists(a) + Specialists(b)
  {
    if a == [] {
      assert a + b == b;
    } else {
      assert (a + b)[1..] == a[1..] + b;
      SpecialistsSplit(a[1..], b);
    }
  }

  lemma {:induction false} SpecialistsAll(a: seq<PlanNode>)
    requires forall p <- a :: p.name !in {Retrieve, Critic, Memory}
    ensures Specialists(a) == a
  {
    if a != [] {
      SpecialistsAll(a[1..]);
    }
  }

  lemma OrderedWith(nodes: seq<PlanNode>, wanted: bool, expert: Expert, dependsOn: seq<Node>)
    requires Ordered(nodes) && Specialist(expert) !in Names(nodes)
    requires forall d <- dependsOn :: d == Retrieve || d in Names(nodes)
    ensures Ordered(With(nodes, wanted, expert, dependsOn))
  {
    var more := With(nodes, wanted, expert, dependsOn);
    assert forall i | 0 <= i < |nodes| :: nodes[i].name == Names(nodes)[i];
    forall i, d | 0 <= i < |more| && d in more[i].dependsOn
      ensures d in {UserMessage, Planning, MemoryRecall, Retrieve} || exists j | 0 <= j < i :: more[j].name == d
    {
      if d !in {UserMessage, Planning, MemoryRecall, Retrieve} {
        var j :| 0 <= j < |nodes| && nodes[j].name == d && j < i;
        assert more[j].name == d;
      }
    }
  }

  lemma AlwaysOrdered()
    ensures Ordered(Always)
    ensures forall n :: n in Names(Always) <==> n in {Specialist(Facts), Specialist(Evidence)}
  {
    assert Names(Always) == [Specialist(Facts), Specialist(Evidence)];
  }

  /** Every plan the planner builds is ordered. */
  lemma BuiltPlanIsOrdered(question: Question)
    ensures Ordered(Specialists(PlanFor(question)))
  {
    hide Ordered, With, Always, PlanFor;
    SpecialistsOfPlan(question);
    var b := With(Always, question.compares, Contradiction, [Retrieve]);
    var c := With(b, question.citesLaw, StatutoryConflict, [Retrieve]);
    AlwaysOrdered();
    OrderedWith(Always, question.compares, Contradiction, [Retrieve]);
    OrderedWith(b, question.citesLaw, StatutoryConflict, [Retrieve]);
    OrderedWith(c, question.asksForGaps, GapDetection, [Retrieve, Specialist(Facts), Specialist(Evidence)]);
  }

  /** What a question calls for: facts and evidence always, the rest as its wording and route ask. */
  predicate CallsFor(question: Question, expert: Expert) {
    match expert
    case Facts => true
    case Evidence => true
    case Contradiction => question.compares
    case StatutoryConflict => question.citesLaw
    case GapDetection => question.asksForGaps
    case OtherExpert(_) => false
  }

  lemma ExpertNodes(question: Question, n: Node)
    ensures n in Names(Experts(question)) <==> n.Specialist? && CallsFor(question, n.expert)
  {
    hide With, Names;
    AlwaysOrdered();
  }

  lemma NamesJoin(a: seq<PlanNode>, b: seq<PlanNode>)
    ensures Names(a + b) == Names(a) + Names(b)
  {
  }

  /** The plan names exactly the specialists the question calls for, between the retrieval and the two closing nodes. */
  lemma PlanNamesExactly(question: Question, n: Node)
    ensures n in Names(PlanFor(question)) <==> n in {Retrieve, Critic, Memory} || (n.Specialist? && CallsFor(question, n.expert))
  {
    ExpertNodes(question, n);
    var experts := Experts(question);
    var closing := [PlanNode(Critic, Names(experts)), PlanNode(Memory, [Critic])];
    NamesJoin([PlanNode(Retrieve, [])] + experts, closing);
    NamesJoin([PlanNode(Retrieve, [])], experts);
    assert Names(closing) == [Critic, Memory] && Names([PlanNode(Retrieve, [])]) == [Retrieve];
    hide Names, CallsFor, Experts;
  }

  /** What each node of the plan waits for: the critic for exactly the specialists called for, gap detection for facts and evidence too. */
  ghost predicate WaitsRight(question: Question, p: PlanNode) {
    match p.name
    case Specialist(GapDetection) => p.dependsOn == [Retrieve, Specialist(Facts), Specialist(Evidence)]
    case Specialist(_) => p.dependsOn == [Retrieve]
    case Critic => forall n :: n in p.dependsOn <==> n.Specialist? && CallsFor(question, n.expert)
    case Memory => p.dependsOn == [Critic]
    case _ => p.dependsOn == []
  }

  lemma WithMembers(nodes: seq<PlanNode>, wanted: bool, expert: Expert, dependsOn: seq<Node>, p: PlanNode)
    ensures p in With(nodes, wanted, expert, dependsOn) <==> p in nodes || (wanted && p == PlanNode(Specialist(expert), dependsOn))
  {
  }

  lemma ExpertWaitsRight(question: Question, p: PlanNode)
    requires p in Experts(question)
    ensures p.name.Specialist? && WaitsRight(question, p)
  {
    var a := With(Always, question.compares, Contradiction, [Retrieve]);
    var b := With(a, question.citesLaw, StatutoryConflict, [Retrieve]);
    ExpertsInTurn(question);
    WithMembers(Always, question.compares, Contradiction, [Retrieve], p);
    WithMembers(a, question.citesLaw, StatutoryConflict, [Retrieve], p);
    WithMembers(b, question.asksForGaps, GapDetection, [Retrieve, Specialist(Facts), Specialist(Evidence)], p);
    hide Experts, With;
  }

  lemma PlanWaitsRight(question: Question)
    ensures forall p <- PlanFor(question) :: WaitsRight(question, p)
  {
    forall n
      ensures n in Names(Experts(question)) <==> n.Specialist? && CallsFor(question, n.expert)
    {
      ExpertNodes(question, n);
    }
    forall p | p in Experts(question)
      ensures WaitsRight(question, p)
    {
      ExpertWaitsRight(question, p);
    }
    hide Names, CallsFor, Experts;
  }

  /** The fact specialist is always there, and reads what was retrieved. */
  lemma FactsFirst(question: Question)
    ensures exists p <- Experts(question) :: Retrieve in p.dependsOn
  {
    assert Experts(question)[0] == PlanNode(Specialist(Facts), [Retrieve]);
    assert Retrieve in Experts(question)[0].dependsOn;
  }
}
