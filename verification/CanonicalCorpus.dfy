/**
 One canonical corpus out of many source directories: duplicate publications are classified by
 comparing their articles, and one source document per publication is copied unchanged.  The
 text projections are parameters; hashes are taken to be collision-free, so comparing digests is
 comparing what was hashed.
 */
module CanonicalCorpus {
  import opened Texts
  import opened Wrappers

  type Articles = map<string, string>

  datatype Key = Key(law: string, version: string)

  /** `tier` is the authority of the source's address, best first; `leaks` counts the articles that swallowed a heading. */
  datatype Document = Document(id: string, key: Key, tier: nat, articles: Articles, leaks: nat, rest: string)

  datatype Corpus = Corpus(directory: string, documents: seq<Document>)

  datatype Candidate = Candidate(directory: string, document: Document)

  datatype Kind = Unique | Exact | Cosmetic | Boundary | Substantive

  /** The projections that drop punctuation and captions, and headings as well. */
  datatype Projections = Projections(semantic: string -> string, body: string -> string)

  function Projected(a: Articles, f: string -> string): Articles {
    map k | k in a :: f(a[k])
  }

  /** How two publications of one key differ. */
  function Classify(a: Articles, b: Articles, p: Projections): (kind: Kind)
    ensures kind != Unique
  {
    if a == b then Exact
    else if Projected(a, p.semantic) == Projected(b, p.semantic) then Cosmetic
    else if a.Keys == b.Keys && Projected(a, p.body) == Projected(b, p.body) then Boundary
    else Substantive
  }

  function Severity(k: Kind): nat {
    match k
    case Unique => 0
    case Exact => 1
    case Cosmetic => 2
    case Boundary => 3
    case Substantive => 4
  }

  lemma ClassifySymmetric(a: Articles, b: Articles, p: Projections)
    ensures Classify(a, b, p) == Classify(b, a, p)
  {
  }

  /** The same articles, each reading the same under a projection. */
  predicate SameUnder(a: Articles, b: Articles, f: string -> string) {
    a.Keys == b.Keys && forall k <- a :: f(a[k]) == f(b[k])
  }

  lemma ProjectedSame(a: Articles, b: Articles, f: string -> string)
    ensures Projected(a, f) == Projected(b, f) <==> SameUnder(a, b, f)
  {
    if Projected(a, f) == Projected(b, f) {
      assert a.Keys == Projected(a, f).Keys == Projected(b, f).Keys == b.Keys;
      forall k | k in a
        ensures f(a[k]) == f(b[k])
      {
        assert Projected(a, f)[k] == Projected(b, f)[k];
      }
    }
  }

  /** Article by article: how far two publications have to be read before they are the same. */
  lemma ClassifiedByArticles(a: Articles, b: Articles, p: Projections)
    ensures Classify(a, b, p) == Exact <==> a == b
    ensures Classify(a, b, p) in {Exact, Cosmetic} <==> SameUnder(a, b, p.semantic)
    ensures Classify(a, b, p) == Substantive <==> !SameUnder(a, b, p.semantic) && !SameUnder(a, b, p.body)
  {
    ProjectedSame(a, b, p.semantic);
    ProjectedSame(a, b, p.body);
    hide Projected;
    if a == b {
      EqualIsSame(a, b, p.semantic);
    }
  }

  lemma EqualIsSame(a: Articles, b: Articles, f: string -> string)
    requires a == b
    ensures SameUnder(a, b, f)
  {
  }

  // ------------------------------------------------------------------ grouping and auditing

  /** A directory's own documents of one publication, in its order. */
  function Own(d: Corpus, docs: seq<Document>, key: Key): seq<Candidate> {
    if docs == [] then []
    else
      var last := docs[|docs| - 1];
      Own(d, docs[..|docs| - 1], key) + if last.key == key then [Candidate(d.directory, last)] else []
  }

  function Candidates(corpora: seq<Corpus>, key: Key): seq<Candidate> {
    if corpora == [] then []
    else
      var last := corpora[|corpora| - 1];
      Candidates(corpora[..|corpora| - 1], key) + Own(last, last.documents, key)
  }

  ghost function Contents(cs: seq<Candidate>): set<Articles> {
    set c | c in cs :: c.document.articles
  }

  /** Some two of the different contents are classified so. */
  ghost predicate Differs(contents: set<Articles>, p: Projections, kind: Kind) {
    exists a, b :: a in contents && b in contents && a != b && Classify(a, b, p) == kind
  }

  /** The most severe classification among the contents; it depends on nothing but which contents there are. */
  ghost function KindOf(contents: set<Articles>, copies: nat, p: Projections): Kind {
    if Differs(contents, p, Substantive) then Substantive
    else if Differs(contents, p, Boundary) then Boundary
    else if Differs(contents, p, Cosmetic) then Cosmetic
    else if copies > 1 then Exact
    else Unique
  }

  ghost predicate Worst(contents: set<Articles>, p: Projections, kind: Kind) {
    && (kind.Unique? || Differs(contents, p, kind))
    && forall a, b | a in contents && b in contents && a != b :: Severity(Classify(a, b, p)) <= Severity(kind)
  }

  lemma WorstIsKind(contents: set<Articles>, copies: nat, p: Projections, kind: Kind)
    requires Worst(contents, p, kind)
    ensures kind.Unique? || KindOf(contents, copies, p) == kind
    ensures kind.Unique? ==> KindOf(contents, copies, p) == if copies > 1 then Exact else Unique
  {
  }

  /** The first of each content, every pair of them classified, and the most severe result kept. */
  method AuditKey(cs: seq<Candidate>, p: Projections) returns (kind: Kind)
    requires cs != []
    ensures kind == KindOf(Contents(cs), |cs|, p)
  {
    var variants := Variants(cs);
    kind := Unique;
    for i := 0 to |variants|
      invariant WorstUpTo(variants, i, 0, p, kind)
    {
      for j := 0 to i
        invariant WorstUpTo(variants, i, j, p, kind)
      {
        var found := Classify(variants[j], variants[i], p);
        if Severity(kind) < Severity(found) {
          kind := found;
        }
      }
    }
    WorstOfAll(Contents(cs), variants, p, kind);
    WorstIsKind(Contents(cs), |cs|, p, kind);
    if kind == Unique && |cs| > 1 {
      kind := Exact;
    }
  }

  method Variants(cs: seq<Candidate>) returns (variants: seq<Articles>)
    ensures forall a :: a in variants <==> a in Contents(cs)
    ensures forall i, j | 0 <= i < j < |variants| :: variants[i] != variants[j]
  {
    variants := [];
    for n := 0 to |cs|
      invariant forall a :: a in variants <==> exists i | 0 <= i < n :: cs[i].document.articles == a
      invariant forall i, j | 0 <= i < j < |variants| :: variants[i] != variants[j]
    {
      if cs[n].document.articles !in variants {
        variants := variants + [cs[n].document.articles];
      }
    }
  }

  /** The worst of the pairs before row `i`, and of the first `j` in it. */
  ghost predicate WorstUpTo(variants: seq<Articles>, i: nat, j: nat, p: Projections, kind: Kind) {
    && i <= |variants| && j <= |variants|
    && (kind.Unique? || exists m, n | 0 <= m < n < |variants| :: Classify(variants[m], variants[n], p) == kind)
    && (forall m, n | 0 <= m < n < |variants| && (n < i || (n == i && m < j)) ::
          Severity(Classify(variants[m], variants[n], p)) <= Severity(kind))
  }

  lemma PairOfVariants(variants: seq<Articles>, a: Articles, b: Articles, p: Projections, kind: Kind)
    requires WorstUpTo(variants, |variants|, 0, p, kind) && a in variants && b in variants && a != b
    ensures Severity(Classify(a, b, p)) <= Severity(kind)
  {
    hide Classify, Severity;
    var m :| 0 <= m < |variants| && variants[m] == a;
    var n :| 0 <= n < |variants| && variants[n] == b;
    ClassifySymmetric(a, b, p);
    assert m < n ==> Severity(Classify(variants[m], variants[n], p)) <= Severity(kind);
    assert n < m ==> Severity(Classify(variants[n], variants[m], p)) <= Severity(kind);
  }

  lemma WorstOfAll(contents: set<Articles>, variants: seq<Articles>, p: Projections, kind: Kind)
    requires WorstUpTo(variants, |variants|, 0, p, kind)
    requires forall a :: a in variants <==> a in contents
    requires forall i, j | 0 <= i < j < |variants| :: variants[i] != variants[j]
    ensures Worst(contents, p, kind)
  {
    hide Classify, Severity, WorstUpTo;
    forall a, b | a in contents && b in contents && a != b
      ensures Severity(Classify(a, b, p)) <= Severity(kind)
    {
      PairOfVariants(variants, a, b, p, kind);
    }
    if !kind.Unique? {
      WorstIsFound(contents, variants, p, kind);
    }
  }

  lemma WorstIsFound(contents: set<Articles>, variants: seq<Articles>, p: Projections, kind: Kind)
    requires WorstUpTo(variants, |variants|, 0, p, kind) && !kind.Unique?
    requires forall a :: a in variants <==> a in contents
    requires forall i, j | 0 <= i < j < |variants| :: variants[i] != variants[j]
    ensures Differs(contents, p, kind)
  {
    hide Classify, Severity;
    var m, n :| 0 <= m < n < |variants| && Classify(variants[m], variants[n], p) == kind;
    var a, b := variants[m], variants[n];
    assert a in variants && b in variants && a != b;
  }

  /** The dictionary of candidates by publication, filled directory by directory. */
  method Publications(corpora: seq<Corpus>) returns (groups: map<Key, seq<Candidate>>)
    ensures forall k :: k in groups <==> Candidates(corpora, k) != []
    ensures forall k | k in groups :: groups[k] == Candidates(corpora, k)
  {
    hide Candidates;
    groups := map[];
    NoneGrouped(corpora);
    for n := 0 to |corpora|
      invariant GroupsAre(groups, k => Candidates(corpora[..n], k))
    {
      var d := corpora[n];
      for m := 0 to |d.documents|
        invariant GroupsAre(groups, k => Candidates(corpora[..n], k) + Own(d, d.documents[..m], k))
      {
        hide GroupsAre;
        var doc := d.documents[m];
        GroupOneMore(groups, corpora[..n], d, m);
        groups := Put(groups, Candidate(d.directory, doc));
      }
      DirectoryEnds(groups, corpora, n);
    }
    assert corpora[..|corpora|] == corpora;
    forall k
      ensures Grouped(groups, k) == Candidates(corpora, k)
    {
    }
  }

  function Put(groups: map<Key, seq<Candidate>>, c: Candidate): map<Key, seq<Candidate>> {
    groups[c.document.key := Grouped(groups, c.document.key) + [c]]
  }

  /** The dictionary holds these candidates, and no key without any. */
  ghost predicate GroupsAre(groups: map<Key, seq<Candidate>>, listed: Key -> seq<Candidate>) {
    (forall k :: Grouped(groups, k) == listed(k)) && (forall k | k in groups :: groups[k] != [])
  }

  lemma NoneGrouped(corpora: seq<Corpus>)
    ensures GroupsAre(map[], k => Candidates(corpora[..0], k))
  {
  }

  lemma DirectoryEnds(groups: map<Key, seq<Candidate>>, corpora: seq<Corpus>, n: nat)
    requires n < |corpora|
    requires GroupsAre(groups, k => Candidates(corpora[..n], k)
                                    + Own(corpora[n], corpora[n].documents[..|corpora[n].documents|], k))
    ensures GroupsAre(groups, k => Candidates(corpora[..n + 1], k))
  {
    hide Own;
    forall k
      ensures Grouped(groups, k) == Candidates(corpora[..n + 1], k)
    {
      CandidatesOneMore(corpora, n, k);
    }
  }

  lemma CandidatesOneMore(corpora: seq<Corpus>, n: nat, key: Key)
    requires n < |corpora|
    ensures Candidates(corpora[..n + 1], key)
            == Candidates(corpora[..n], key) + Own(corpora[n], corpora[n].documents[..|corpora[n].documents|], key)
  {
    assert corpora[..n + 1][..n] == corpora[..n] && corpora[n].documents[..|corpora[n].documents|] == corpora[n].documents;
  }

  lemma GroupOneMore(groups: map<Key, seq<Candidate>>, before: seq<Corpus>, d: Corpus, m: nat)
    requires m < |d.documents| && GroupsAre(groups, k => Candidates(before, k) + Own(d, d.documents[..m], k))
    ensures GroupsAre(Put(groups, Candidate(d.directory, d.documents[m])),
                      k => Candidates(before, k) + Own(d, d.documents[..m + 1], k))
  {
    hide Candidates, Own;
    var (c, more) := (Candidate(d.directory, d.documents[m]), Put(groups, Candidate(d.directory, d.documents[m])));
    forall k
      ensures Grouped(more, k) == Candidates(before, k) + Own(d, d.documents[..m + 1], k)
    {
      OwnOneMore(d, m, k);
      assert Grouped(groups, k) == Candidates(before, k) + Own(d, d.documents[..m], k);
    }
    forall k | k in more
      ensures more[k] != []
    {
    }
  }

  lemma OwnOneMore(d: Corpus, m: nat, key: Key)
    requires m < |d.documents|
    ensures d.documents[m].key == key ==>
              Own(d, d.documents[..m + 1], key) == Own(d, d.documents[..m], key) + [Candidate(d.directory, d.documents[m])]
    ensures d.documents[m].key != key ==> Own(d, d.documents[..m + 1], key) == Own(d, d.documents[..m], key)
  {
    assert d.documents[..m + 1][..m] == d.documents[..m];
  }

  function Grouped(groups: map<Key, seq<Candidate>>, k: Key): seq<Candidate> {
    if k in groups then groups[k] else []
  }

  // ------------------------------------------------------------------ selecting

  /** What a candidate is judged by; heading leaks count only where the copies differ by them. */
  datatype Rank = Rank(leaks: nat, tier: nat, directory: string, id: string)

  function RankOf(c: Candidate, kind: Kind): Rank {
    Rank(if kind == Boundary then c.document.leaks else 0, c.document.tier, c.directory, c.document.id)
  }

  predicate Better(a: Rank, b: Rank) {
    || a.leaks < b.leaks
    || (a.leaks == b.leaks
        && (a.tier < b.tier
            || (a.tier == b.tier
                && (Precedes(a.directory, b.directory) || (a.directory == b.directory && Precedes(a.id, b.id))))))
  }

  lemma BetterTransitive(a: Rank, b: Rank, c: Rank)
    requires Better(a, b) && Better(b, c)
    ensures Better(a, c)
  {
    if Precedes(a.directory, b.directory) && Precedes(b.directory, c.directory) {
      PrecedesTransitive(a.directory, b.directory, c.directory);
    }
    if Precedes(a.id, b.id) && Precedes(b.id, c.id) {
      PrecedesTransitive(a.id, b.id, c.id);
    }
  }

  lemma BetterTotal(a: Rank, b: Rank)
    ensures Better(a, b) || a == b || Better(b, a)
  {
    PrecedesTotal(a.directory, b.directory);
    PrecedesTotal(a.id, b.id);
  }

  lemma NotBetterTransitive(a: Rank, b: Rank, c: Rank)
    requires !Better(a, b) && Better(c, b)
    ensures !Better(a, c)
  {
    if Better(a, c) {
      BetterTransitive(a, c, b);
    }
  }

  /** The first of the best candidates. */
  function Best(cs: seq<Candidate>, kind: Kind): Candidate
    requires cs != []
  {
    var last := cs[|cs| - 1];
    if |cs| == 1 then last
    else
      var best := Best(cs[..|cs| - 1], kind);
      if Better(RankOf(last, kind), RankOf(best, kind)) then last else best
  }

  /** Refuses a substantive conflict, else takes the best copy. */
  method Select(cs: seq<Candidate>, kind: Kind) returns (chosen: Option<Candidate>)
    requires cs != []
    ensures chosen == if kind == Substantive then None else Some(Best(cs, kind))
  {
    if kind == Substantive {
      return None;
    }
    var best := cs[0];
    for n := 1 to |cs|
      invariant best == Best(cs[..n], kind)
    {
      assert cs[..n + 1][..n] == cs[..n];
      if Better(RankOf(cs[n], kind), RankOf(best, kind)) {
        best := cs[n];
      }
    }
    assert cs[..|cs|] == cs;
    return Some(best);
  }

  /** The selected copy is one of the candidates, and none is better. */
  lemma {:induction false} BestIsBest(cs: seq<Candidate>, kind: Kind)
    requires cs != []
    ensures Best(cs, kind) in cs
    ensures forall c <- cs :: !Better(RankOf(c, kind), RankOf(Best(cs, kind), kind))
  {
    hide Better;
    var (before, last) := (cs[..|cs| - 1], cs[|cs| - 1]);
    assert cs == before + [last];
    var r := RankOf(last, kind);
    NeverBetterThanItself(r);
    if before != [] {
      BestIsBest(before, kind);
      var best := RankOf(Best(before, kind), kind);
      if Better(r, best) {
        forall c | c in before
          ensures !Better(RankOf(c, kind), r)
        {
          NotBetterTransitive(RankOf(c, kind), best, r);
        }
      }
    }
  }

  lemma NeverBetterThanItself(r: Rank)
    ensures !Better(r, r)
  {
    PrecedesIrreflexive(r.directory);
    PrecedesIrreflexive(r.id);
  }

  lemma {:induction false} BestOfTwoLists(a: seq<Candidate>, b: seq<Candidate>, kind: Kind)
    requires a != [] && b != []
    ensures Best(a + b, kind) ==
            if Better(RankOf(Best(b, kind), kind), RankOf(Best(a, kind), kind)) then Best(b, kind) else Best(a, kind)
  {
    hide Better;
    var (before, last) := (b[..|b| - 1], b[|b| - 1]);
    assert (a + b)[..|a + b| - 1] == a + before && (a + b)[|a + b| - 1] == last;
    if before == [] {
      assert a + before == a;
    } else {
      BestOfTwoLists(a, before, kind);
      var (x, y, z) := (RankOf(Best(a, kind), kind), RankOf(Best(before, kind), kind), RankOf(last, kind));
      if Better(z, y) && Better(y, x) {
        BetterTransitive(z, y, x);
      }
      if Better(z, x) && !Better(y, x) && !Better(z, y) {
        BetterTotal(y, z);
        if Better(y, z) {
          BetterTransitive(y, z, x);
        }
      }
    }
  }

  /**
   The chosen copy has the fewest leaks, where copies differ by them; of those the highest
   authority; of those the first directory, and in it the first id.
   */
  lemma BestComesFirst(cs: seq<Candidate>, kind: Kind, c: Candidate)
    requires cs != [] && c in cs
    ensures var best := Best(cs, kind);
            && (kind == Boundary ==> best.document.leaks <= c.document.leaks)
            && ((kind == Boundary && best.document.leaks < c.document.leaks)
                || best.document.tier < c.document.tier
                || (best.document.tier == c.document.tier
                    && (Precedes(best.directory, c.directory)
                        || (best.directory == c.directory
                            && (Precedes(best.document.id, c.document.id) || best.document.id == c.document.id)))))
  {
    BestIsBest(cs, kind);
    PrecedesTotal(Best(cs, kind).directory, c.directory);
    PrecedesTotal(Best(cs, kind).document.id, c.document.id);
  }

  // ------------------------------------------------------------------ the order of the directories

  /** A directory listed twice is the same directory. */
  ghost predicate Consistent(corpora: seq<Corpus>) {
    forall c <- corpora, d <- corpora | c.directory == d.directory :: c == d
  }

  lemma {:induction false} OwnBelongs(d: Corpus, docs: seq<Document>, key: Key)
    ensures forall c <- Own(d, docs, key) :: c.directory == d.directory && c.document in docs && c.document.key == key
  {
    if docs != [] {
      OwnBelongs(d, docs[..|docs| - 1], key);
    }
  }

  /** Each directory's own best copy. */
  ghost function Heads(corpora: seq<Corpus>, key: Key, kind: Kind): set<Candidate> {
    set d | d in corpora && Own(d, d.documents, key) != [] :: Best(Own(d, d.documents, key), kind)
  }

  /** A candidate of the set than which none is better. */
  ghost predicate Leads(best: Candidate, heads: set<Candidate>, kind: Kind) {
    best in heads && forall h <- heads :: !Better(RankOf(h, kind), RankOf(best, kind))
  }

  lemma OneMoreHead(best: Candidate, heads: set<Candidate>, c: Candidate, kind: Kind)
    requires Leads(best, heads, kind)
    ensures Leads(if Better(RankOf(c, kind), RankOf(best, kind)) then c else best, heads + {c}, kind)
  {
    hide Better;
    NeverBetterThanItself(RankOf(c, kind));
    if Better(RankOf(c, kind), RankOf(best, kind)) {
      forall h | h in heads
        ensures !Better(RankOf(h, kind), RankOf(c, kind))
      {
        NotBetterTransitive(RankOf(h, kind), RankOf(best, kind), RankOf(c, kind));
      }
    }
  }

  lemma OnlyHead(c: Candidate, kind: Kind)
    ensures Leads(c, {c}, kind)
  {
    hide Better;
    NeverBetterThanItself(RankOf(c, kind));
  }

  lemma HeadsGrow(before: seq<Corpus>, d: Corpus, key: Key, kind: Kind)
    ensures Own(d, d.documents, key) == [] ==> Heads(before + [d], key, kind) == Heads(before, key, kind)
    ensures Own(d, d.documents, key) != [] ==>
              Heads(before + [d], key, kind) == Heads(before, key, kind) + {Best(Own(d, d.documents, key), kind)}
  {
    hide Best, Own;
  }

  /** The selected copy is the best among the directories' own best. */
  lemma {:induction false} BestAmongHeads(corpora: seq<Corpus>, key: Key, kind: Kind)
    requires Candidates(corpora, key) != []
    ensures Leads(Best(Candidates(corpora, key), kind), Heads(corpora, key, kind), kind)
  {
    hide Better, Best, Own, Leads, Heads;
    var (before, d) := (corpora[..|corpora| - 1], corpora[|corpora| - 1]);
    var (earlier, own) := (Candidates(before, key), Own(d, d.documents, key));
    assert corpora == before + [d];
    HeadsGrow(before, d, key, kind);
    if own == [] {
      assert earlier + own == earlier;
      BestAmongHeads(before, key, kind);
    } else if earlier == [] {
      assert earlier + own == own;
      NoHeads(before, key, kind);
      OnlyHead(Best(own, kind), kind);
      assert {} + {Best(own, kind)} == {Best(own, kind)};
    } else {
      BestAmongHeads(before, key, kind);
      BestOfTwoLists(earlier, own, kind);
      OneMoreHead(Best(earlier, kind), Heads(before, key, kind), Best(own, kind), kind);
    }
  }

  lemma {:induction false} NoHeads(corpora: seq<Corpus>, key: Key, kind: Kind)
    requires Candidates(corpora, key) == []
    ensures Heads(corpora, key, kind) == {}
  {
    hide Own, Best;
    if corpora != [] {
      var (before, d) := (corpora[..|corpora| - 1], corpora[|corpora| - 1]);
      NoHeads(before, key, kind);
      assert corpora == before + [d];
    }
  }

  /** Two directories' own best copies with the same rank are the same copy. */
  lemma SameRankSameHead(corpora: seq<Corpus>, key: Key, kind: Kind, a: Candidate, b: Candidate)
    requires Consistent(corpora) && a in Heads(corpora, key, kind) && b in Heads(corpora, key, kind)
    requires RankOf(a, kind) == RankOf(b, kind)
    ensures a == b
  {
    var c :| c in corpora && Own(c, c.documents, key) != [] && a == Best(Own(c, c.documents, key), kind);
    var d :| d in corpora && Own(d, d.documents, key) != [] && b == Best(Own(d, d.documents, key), kind);
    hide Better, Best, Own;
    OwnBelongs(c, c.documents, key);
    OwnBelongs(d, d.documents, key);
    BestIsBest(Own(c, c.documents, key), kind);
    BestIsBest(Own(d, d.documents, key), kind);
  }

  lemma {:induction false} CandidatesJoin(a: seq<Corpus>, b: seq<Corpus>, key: Key)
    ensures Candidates(a + b, key) == Candidates(a, key) + Candidates(b, key)
    decreases |b|
  {
    if b == [] {
      assert a + b == a;
    } else {
      var (before, last) := (b[..|b| - 1], b[|b| - 1]);
      assert (a + b)[..|a + b| - 1] == a + before && (a + b)[|a + b| - 1] == last;
      CandidatesJoin(a, before, key);
    }
  }

  lemma RemoveOne<T>(a: seq<T>, d: T, x: seq<T>, y: seq<T>)
    requires multiset(a + [d]) == multiset(x + [d] + y)
    ensures multiset(a) == multiset(x + y)
  {
    assert multiset(a) == multiset(a + [d]) - multiset{d};
    assert multiset(x + y) == multiset(x + [d] + y) - multiset{d};
  }

  /** The same directories in another order give the same candidates, as a collection. */
  lemma {:induction false} CandidatesPermuted(a: seq<Corpus>, b: seq<Corpus>, key: Key)
    requires multiset(a) == multiset(b)
    ensures multiset(Candidates(a, key)) == multiset(Candidates(b, key))
    decreases |a|
  {
    hide Own;
    if a == [] {
      assert |multiset(b)| == 0;
      assert b == [];
    } else {
      var (before, d) := (a[..|a| - 1], a[|a| - 1]);
      assert a == before + [d] && d in a && d in multiset(a);
      var i :| 0 <= i < |b| && b[i] == d;
      var (x, y) := (b[..i], b[i + 1..]);
      assert b == x + [d] + y;
      RemoveOne(before, d, x, y);
      CandidatesPermuted(before, x + y, key);
      CandidatesJoin(x, y, key);
      CandidatesJoin(x + [d], y, key);
      assert (x + [d])[..|x|] == x;
    }
  }

  // ------------------------------------------------------------------ the build

  datatype Entry = Entry(chosen: Candidate, kind: Kind)

  type Canon = map<Key, Entry>

  ghost function Keys(corpora: seq<Corpus>): set<Key> {
    set d, doc | d in corpora && doc in d.documents :: doc.key
  }

  ghost function KindAt(corpora: seq<Corpus>, key: Key, p: Projections): Kind {
    KindOf(Contents(Candidates(corpora, key)), |Candidates(corpora, key)|, p)
  }

  ghost predicate Conflicted(corpora: seq<Corpus>, p: Projections) {
    exists k <- Keys(corpora) :: KindAt(corpora, k, p) == Substantive
  }

  ghost function Chosen(corpora: seq<Corpus>, p: Projections): Canon {
    map k | k in Keys(corpora) && Candidates(corpora, k) != [] ::
      Entry(Best(Candidates(corpora, k), KindAt(corpora, k, p)), KindAt(corpora, k, p))
  }

  predicate IdsRepeat(canon: Canon) {
    exists j <- canon, k <- canon :: j != k && canon[j].chosen.document.id == canon[k].chosen.document.id
  }

  ghost function Canonical(corpora: seq<Corpus>, p: Projections): Option<Canon> {
    if Conflicted(corpora, p) || IdsRepeat(Chosen(corpora, p)) then None else Some(Chosen(corpora, p))
  }

  lemma {:induction false} OwnFinds(d: Corpus, docs: seq<Document>, key: Key)
    ensures Own(d, docs, key) != [] <==> exists doc <- docs :: doc.key == key
  {
    if docs != [] {
      var (before, last) := (docs[..|docs| - 1], docs[|docs| - 1]);
      OwnFinds(d, before, key);
      assert docs == before + [last];
    }
  }

  lemma {:induction false} CandidatesFind(corpora: seq<Corpus>, key: Key)
    ensures Candidates(corpora, key) != [] <==> key in Keys(corpora)
    ensures forall c <- Candidates(corpora, key) ::
              c.document.key == key && exists d <- corpora :: d.directory == c.directory && c.document in d.documents
  {
    if corpora != [] {
      var (before, d) := (corpora[..|corpora| - 1], corpora[|corpora| - 1]);
      CandidatesFind(before, key);
      OwnFinds(d, d.documents, key);
      OwnBelongs(d, d.documents, key);
      assert corpora == before + [d];
      hide Own;
      assert forall c <- corpora :: c in before || c == d;
      assert forall c <- before :: c in corpora;
      assert d in corpora;
    }
  }

  ghost predicate GroupsOf(groups: map<Key, seq<Candidate>>, corpora: seq<Corpus>) {
    groups.Keys == Keys(corpora) && forall k | k in groups :: groups[k] == Candidates(corpora, k) != []
  }

  ghost predicate Published(corpora: seq<Corpus>, doc: Document) {
    exists d <- corpora :: doc in d.documents
  }

  lemma {:induction false} OwnAre(d: Corpus, docs: seq<Document>, key: Key, doc: Document)
    ensures Candidate(d.directory, doc) in Own(d, docs, key) <==> doc in docs && doc.key == key
    ensures forall c <- Own(d, docs, key) :: c == Candidate(d.directory, c.document)
  {
    if docs != [] {
      var (before, last) := (docs[..|docs| - 1], docs[|docs| - 1]);
      OwnAre(d, before, key, doc);
      assert docs == before + [last];
    }
  }

  lemma {:induction false} CandidatesAre(corpora: seq<Corpus>, key: Key, doc: Document)
    ensures (exists c <- Candidates(corpora, key) :: c.document == doc) <==> Published(corpora, doc) && doc.key == key
  {
    if corpora != [] {
      var (before, last) := (corpora[..|corpora| - 1], corpora[|corpora| - 1]);
      CandidatesAre(before, key, doc);
      OwnAre(last, last.documents, key, doc);
      assert corpora == before + [last];
      assert forall d <- corpora :: d in before || d == last;
      var (mine, rest) := (Own(last, last.documents, key), Candidates(before, key));
      assert forall c :: c in rest + mine <==> c in rest || c in mine;
      assert (exists c <- mine :: c.document == doc) <==> Candidate(last.directory, doc) in mine;
    }
  }

  /** Two documents of one publication that differ however they are read. */
  ghost predicate Clash(corpora: seq<Corpus>, p: Projections, x: Document, y: Document) {
    && Published(corpora, x) && Published(corpora, y) && x.key == y.key
    && !SameUnder(x.articles, y.articles, p.semantic) && !SameUnder(x.articles, y.articles, p.body)
  }

  lemma ConflictIsClash(corpora: seq<Corpus>, p: Projections)
    ensures Conflicted(corpora, p) <==> exists x, y :: Clash(corpora, p, x, y)
  {
    if Conflicted(corpora, p) {
      var k :| k in Keys(corpora) && KindAt(corpora, k, p) == Substantive;
      ConflictFound(corpora, p, k);
    }
    forall x, y | Clash(corpora, p, x, y)
      ensures Conflicted(corpora, p)
    {
      ClashConflicts(corpora, p, x, y);
    }
  }

  lemma ConflictFound(corpora: seq<Corpus>, p: Projections, k: Key)
    requires KindAt(corpora, k, p) == Substantive
    ensures exists x, y :: Clash(corpora, p, x, y)
  {
    var cs := Candidates(corpora, k);
    var a, b :| a in Contents(cs) && b in Contents(cs) && a != b && Classify(a, b, p) == Substantive;
    ClassifiedByArticles(a, b, p);
    var c :| c in cs && c.document.articles == a;
    var d :| d in cs && d.document.articles == b;
    hide SameUnder, Classify, Candidates, Contents;
    CandidatesAre(corpora, k, c.document);
    CandidatesAre(corpora, k, d.document);
    assert Clash(corpora, p, c.document, d.document);
  }

  lemma ClashConflicts(corpora: seq<Corpus>, p: Projections, x: Document, y: Document)
    requires Clash(corpora, p, x, y)
    ensures Conflicted(corpora, p)
  {
    var (k, cs) := (x.key, Candidates(corpora, x.key));
    CandidatesAre(corpora, k, x);
    CandidatesAre(corpora, k, y);
    var c :| c in cs && c.document == x;
    var d :| d in cs && d.document == y;
    ClassifiedByArticles(x.articles, y.articles, p);
    EqualOrNot(x.articles, y.articles, p);
    hide SameUnder, Classify, Candidates, Published;
    assert x.articles in Contents(cs) && y.articles in Contents(cs);
    assert Differs(Contents(cs), p, Substantive);
    assert KindAt(corpora, k, p) == Substantive;
    PublishedKey(corpora, x);
  }

  lemma EqualOrNot(a: Articles, b: Articles, p: Projections)
    requires !SameUnder(a, b, p.semantic)
    ensures a != b
  {
  }

  lemma PublishedKey(corpora: seq<Corpus>, doc: Document)
    requires Published(corpora, doc)
    ensures doc.key in Keys(corpora)
  {
  }

  /** A build is refused exactly when two documents of one publication clash, or two publications were given copies of one id. */
  lemma BuildRefusesExactly(corpora: seq<Corpus>, p: Projections)
    ensures Canonical(corpora, p).None?
            <==> (exists x, y :: Clash(corpora, p, x, y)) || IdsRepeat(Chosen(corpora, p))
  {
    ConflictIsClash(corpora, p);
    hide Conflicted, Chosen, Clash;
  }

  /** Audits every publication, refuses conflicts, then copies the best document of each. */
  method Build(corpora: seq<Corpus>, p: Projections) returns (r: Option<Canon>)
    ensures r == Canonical(corpora, p)
  {
    hide Best, KindAt, Candidates, Keys;
    var groups := Publications(corpora);
    forall k
      ensures k in groups <==> k in Keys(corpora)
    {
      CandidatesFind(corpora, k);
    }
    assert GroupsOf(groups, corpora);
    var kinds := AuditAll(corpora, groups, p);
    if kinds.None? {
      return None;
    }
    var canon := CopyBest(groups, kinds.value);
    ChosenByGroups(corpora, groups, kinds.value, canon, p);
    if exists j <- canon, k <- canon :: j != k && canon[j].chosen.document.id == canon[k].chosen.document.id {
      return None;
    }
    return Some(canon);
  }

  lemma ChosenByGroups(corpora: seq<Corpus>, groups: map<Key, seq<Candidate>>, kinds: map<Key, Kind>, canon: Canon, p: Projections)
    requires GroupsOf(groups, corpora) && kinds.Keys == groups.Keys == canon.Keys
    requires forall k | k in kinds :: kinds[k] == KindAt(corpora, k, p)
    requires forall k | k in canon :: canon[k] == Entry(Best(groups[k], kinds[k]), kinds[k])
    ensures canon == Chosen(corpora, p)
  {
    hide Best, KindAt, Candidates, Keys;
    assert forall k | k in canon :: k in Keys(corpora) && Candidates(corpora, k) != [];
    assert canon.Keys == Chosen(corpora, p).Keys;
  }

  method AuditAll(ghost corpora: seq<Corpus>, groups: map<Key, seq<Candidate>>, p: Projections)
    returns (kinds: Option<map<Key, Kind>>)
    requires GroupsOf(groups, corpora)
    ensures kinds.None? <==> Conflicted(corpora, p)
    ensures kinds.Some? ==> kinds.value.Keys == groups.Keys
    ensures kinds.Some? ==> forall k | k in kinds.value :: kinds.value[k] == KindAt(corpora, k, p) != Substantive
  {
    hide Best, KindOf, Candidates, Contents, Keys;
    var found: map<Key, Kind> := map[];
    var left := groups.Keys;
    while left != {}
      invariant left <= groups.Keys && found.Keys == groups.Keys - left
      invariant forall k | k in found :: found[k] == KindAt(corpora, k, p) != Substantive
      decreases |left|
    {
      var key :| key in left;
      var kind := AuditKey(groups[key], p);
      if kind == Substantive {
        assert KindAt(corpora, key, p) == Substantive;
        return None;
      }
      found := found[key := kind];
      left := left - {key};
    }
    return Some(found);
  }

  method CopyBest(groups: map<Key, seq<Candidate>>, kinds: map<Key, Kind>) returns (canon: Canon)
    requires groups.Keys == kinds.Keys
    requires forall k | k in groups :: groups[k] != [] && kinds[k] != Substantive
    ensures canon.Keys == groups.Keys && forall k | k in canon :: canon[k] == Entry(Best(groups[k], kinds[k]), kinds[k])
  {
    hide Best;
    canon := map[];
    var left := groups.Keys;
    while left != {}
      invariant left <= groups.Keys && canon.Keys == groups.Keys - left
      invariant forall k | k in canon :: canon[k] == Entry(Best(groups[k], kinds[k]), kinds[k])
      decreases |left|
    {
      var key :| key in left;
      var chosen := Select(groups[key], kinds[key]);
      canon := canon[key := Entry(chosen.value, kinds[key])];
      left := left - {key};
    }
  }

  /** A build that succeeds has exactly one entry for each publication, an unchanged source document of it, and no better copy exists. */
  lemma OneUnchangedPerPublication(corpora: seq<Corpus>, p: Projections, key: Key)
    requires Canonical(corpora, p).Some?
    ensures var canon := Canonical(corpora, p).value;
            && canon.Keys == Keys(corpora)
            && (key in canon ==>
                  && canon[key].chosen.document.key == key && canon[key].chosen in Candidates(corpora, key)
                  && (exists d <- corpora :: d.directory == canon[key].chosen.directory && canon[key].chosen.document in d.documents)
                  && forall c <- Candidates(corpora, key) ::
                       !Better(RankOf(c, canon[key].kind), RankOf(canon[key].chosen, canon[key].kind)))
  {
    hide Best, KindOf, Candidates, Contents, Better;
    forall k
      ensures k in Chosen(corpora, p) <==> k in Keys(corpora)
    {
      CandidatesFind(corpora, k);
    }
    CandidatesFind(corpora, key);
    if key in Keys(corpora) {
      BestIsBest(Candidates(corpora, key), KindAt(corpora, key, p));
    }
  }

  lemma KeyPermuted(a: seq<Corpus>, b: seq<Corpus>, p: Projections, key: Key)
    requires multiset(a) == multiset(b) && Consistent(a)
    ensures key in Keys(a) <==> key in Keys(b)
    ensures KindAt(a, key, p) == KindAt(b, key, p)
    ensures forall kind :: Candidates(a, key) != [] && Candidates(b, key) != [] ==>
              Best(Candidates(a, key), kind) == Best(Candidates(b, key), kind)
  {
    hide KindOf, Better, Best, Own, Candidates, Heads;
    SameMembers(a, b);
    CandidatesFind(a, key);
    CandidatesFind(b, key);
    CandidatesPermuted(a, b, key);
    SameContents(Candidates(a, key), Candidates(b, key));
    forall kind | Candidates(a, key) != [] && Candidates(b, key) != []
      ensures Best(Candidates(a, key), kind) == Best(Candidates(b, key), kind)
    {
      SameBest(a, b, key, kind);
    }
  }

  lemma SameMembers(a: seq<Corpus>, b: seq<Corpus>)
    requires multiset(a) == multiset(b)
    ensures forall c :: c in a <==> c in b
    ensures Keys(a) == Keys(b) && (Consistent(a) ==> Consistent(b))
  {
    assert forall c :: c in a <==> c in multiset(a);
    assert forall c :: c in b <==> c in multiset(b);
  }

  lemma SameContents(a: seq<Candidate>, b: seq<Candidate>)
    requires multiset(a) == multiset(b)
    ensures Contents(a) == Contents(b) && |a| == |b|
  {
    assert forall c :: c in a <==> c in multiset(a);
    assert forall c :: c in b <==> c in multiset(b);
    assert |multiset(a)| == |a| && |multiset(b)| == |b|;
  }

  lemma SameBest(a: seq<Corpus>, b: seq<Corpus>, key: Key, kind: Kind)
    requires multiset(a) == multiset(b) && Consistent(a)
    requires Candidates(a, key) != [] && Candidates(b, key) != []
    ensures Best(Candidates(a, key), kind) == Best(Candidates(b, key), kind)
  {
    hide Better, Best, Own, Candidates;
    SameMembers(a, b);
    BestAmongHeads(a, key, kind);
    BestAmongHeads(b, key, kind);
    assert Heads(a, key, kind) == Heads(b, key, kind);
    hide Heads;
    var (x, y) := (Best(Candidates(a, key), kind), Best(Candidates(b, key), kind));
    BetterTotal(RankOf(x, kind), RankOf(y, kind));
    SameRankSameHead(a, key, kind, x, y);
  }

  /** The whole build, refusals included, does not depend on the order of the source directories. */
  lemma OrderOfDirectoriesIsIrrelevant(a: seq<Corpus>, b: seq<Corpus>, p: Projections)
    requires multiset(a) == multiset(b) && Consistent(a)
    ensures Canonical(a, p) == Canonical(b, p)
  {
    hide Best, KindOf, Candidates, Contents, Keys, KindAt;
    forall k
      ensures k in Keys(a) <==> k in Keys(b)
      ensures KindAt(a, k, p) == KindAt(b, k, p)
      ensures k in Keys(a) ==> Candidates(a, k) != [] && Candidates(b, k) != []
      ensures k in Keys(a) ==> Best(Candidates(a, k), KindAt(a, k, p)) == Best(Candidates(b, k), KindAt(b, k, p))
    {
      KeyPermuted(a, b, p, k);
      CandidatesFind(a, k);
      CandidatesFind(b, k);
    }
    assert Chosen(a, p) == Chosen(b, p);
  }
}
