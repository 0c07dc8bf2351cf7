/**
 Applying a model's list of corrections to a sentence: every edit names a piece of the original
 that must occur once; the pieces are located, ordered, checked for overlap and replaced from the
 right.
 */
module CorrectionEdits {
  import opened Texts
  import opened Wrappers

  datatype Edit = Edit(piece: string, replacement: string)
  datatype Span = Span(start: nat, end: nat, text: string)

  // ------------------------------------------------------------------ locating

  predicate At(s: string, p: string, i: int) {
    0 <= i <= |s| - |p| && s[i..i + |p|] == p
  }

  /** `str.count`: occurrences found from the left without overlap. */
  function Count(s: string, p: string): nat
    requires p != ""
    decreases |s|
  {
    if |s| < |p| then 0
    else if s[..|p|] == p then 1 + Count(s[|p|..], p)
    else Count(s[1..], p)
  }

  /** `str.index` where there is an occurrence, and the length where there is none. */
  function Index(s: string, p: string): (i: nat)
    requires p != ""
    ensures i <= |s|
    decreases |s|
  {
    if |s| < |p| then |s|
    else if s[..|p|] == p then 0
    else 1 + Index(s[1..], p)
  }

  /** The occurrences in a tail are those of the whole from there on. */
  lemma Tail(s: string, p: string, k: nat)
    requires k <= |s|
    ensures forall j :: At(s[k..], p, j) ==> At(s, p, j + k)
    ensures forall i :: i >= k && At(s, p, i) ==> At(s[k..], p, i - k)
  {
    var t := s[k..];
    forall j | At(t, p, j)
      ensures At(s, p, j + k)
    {
      assert t[j..j + |p|] == s[j + k..j + k + |p|];
    }
    forall i | i >= k && At(s, p, i)
      ensures At(t, p, i - k)
    {
      assert t[i - k..i - k + |p|] == s[i..i + |p|];
    }
  }

  lemma {:induction false} CountPositive(s: string, p: string)
    requires p != ""
    ensures Count(s, p) == 0 <==> forall i :: !At(s, p, i)
    ensures Count(s, p) > 0 ==> At(s, p, Index(s, p)) && forall i | 0 <= i < Index(s, p) :: !At(s, p, i)
    decreases |s|
  {
    if |s| >= |p| {
      if s[..|p|] == p {
        assert At(s, p, 0);
      } else {
        CountPositive(s[1..], p);
        Tail(s, p, 1);
        assert !At(s, p, 0);
      }
    }
  }

  /** A count of one says: there is a first occurrence, and none from its end on. It does not rule out one that overlaps it. */
  lemma {:induction false} CountedOnce(s: string, p: string)
    requires p != ""
    ensures Count(s, p) == 1 <==> At(s, p, Index(s, p)) && forall i | i >= Index(s, p) + |p| :: !At(s, p, i)
    decreases |s|
  {
    if |s| >= |p| {
      if s[..|p|] == p {
        assert At(s, p, 0);
        CountPositive(s[|p|..], p);
        Tail(s, p, |p|);
      } else {
        CountedOnce(s[1..], p);
        Tail(s, p, 1);
        assert !At(s, p, 0);
      }
    }
  }

  // ------------------------------------------------------------------ when an accepted piece occurs once

  ghost predicate Once(s: string, p: string) {
    exists i :: At(s, p, i) && forall j :: At(s, p, j) ==> j == i
  }

  /** The first `b` characters of the piece, not all of it, are also its last. */
  predicate Border(p: string, b: nat) {
    0 < b < |p| && p[..b] == p[|p| - b..]
  }

  ghost predicate Unbordered(p: string) {
    forall b: nat :: !Border(p, b)
  }

  /** What the count leaves open is an occurrence that starts inside the first one. */
  lemma OnceIsCountedOnce(s: string, p: string)
    requires p != ""
    ensures Once(s, p)
            <==> Count(s, p) == 1 && forall i | Index(s, p) < i < Index(s, p) + |p| :: !At(s, p, i)
  {
    CountPositive(s, p);
    CountedOnce(s, p);
    hide Count, Index;
    if Count(s, p) > 0 {
      assert At(s, p, Index(s, p));
    }
  }

  /** Occurrences that overlap share a border of the piece. */
  lemma OverlapIsBorder(s: string, p: string, i: nat, j: nat)
    requires At(s, p, i) && At(s, p, j) && i < j < i + |p|
    ensures Border(p, i + |p| - j)
  {
    var b := i + |p| - j;
    assert s[i..i + |p|][j - i..] == s[j..i + |p|] == s[j..j + |p|][..b];
  }

  lemma SecondOccurrence(p: string, b: nat)
    requires Border(p, b)
    ensures At(p + p[b..], p, |p| - b)
  {
    var (s, k) := (p + p[b..], |p| - b);
    forall m | 0 <= m < |p|
      ensures s[k + m] == p[m]
    {
      if m < b {
        assert p[k..][m] == p[..b][m];
      }
    }
    assert s[k..k + |p|] == p;
  }

  /** With a border the piece, followed by what the border leaves of it, is a text where it is counted once and occurs twice. */
  lemma BorderOccursTwice(p: string, b: nat)
    requires Border(p, b)
    ensures var s := p + p[b..];
            Count(s, p) == 1 && Index(s, p) == 0 && At(s, p, 0) && At(s, p, |p| - b)
  {
    var s := p + p[b..];
    SecondOccurrence(p, b);
    assert s[..|p|] == p && s[|p|..] == p[b..];
    assert Count(p[b..], p) == 0;
  }

  lemma UnborderedOnce(s: string, p: string)
    requires p != "" && Unbordered(p) && Count(s, p) == 1
    ensures Once(s, p)
  {
    CountPositive(s, p);
    OnceIsCountedOnce(s, p);
    hide Count, Index, Once, Border;
    forall i | Index(s, p) < i < Index(s, p) + |p|
      ensures !At(s, p, i)
    {
      if At(s, p, i) {
        OverlapIsBorder(s, p, Index(s, p), i);
      }
    }
  }

  /** So acceptance means one occurrence, in every text, exactly for the pieces without a border. */
  lemma AcceptedMeansOnce(p: string)
    requires p != ""
    ensures (forall s: string :: Count(s, p) == 1 ==> Once(s, p)) <==> Unbordered(p)
  {
    hide Count, Index, At, Border;
    if Unbordered(p) {
      forall s: string | Count(s, p) == 1
        ensures Once(s, p)
      {
        UnborderedOnce(s, p);
      }
    } else {
      var b: nat :| Border(p, b);
      BorderFits(p, b);
      BorderOccursTwice(p, b);
      assert !Once(p + p[b..], p);
    }
  }

  lemma BorderFits(p: string, b: nat)
    requires Border(p, b)
    ensures 0 < b < |p|
  {
  }

  /** So a piece with a border is accepted in that text, and its first occurrence replaced. */
  lemma BorderedIsAccepted(p: string, b: nat, replacement: string)
    requires Border(p, b)
    ensures var s := p + p[b..];
            !Once(s, p) && Locates(s, Edit(p, replacement)) && SpanOf(s, Edit(p, replacement)).start == 0
  {
    BorderFits(p, b);
    BorderOccursTwice(p, b);
    hide Count, Index, At, Border;
  }

  /** The shortest case is the piece "aa" in "aaa". */
  lemma OverlappingPieceIsAccepted()
    ensures !Once("aaa", "aa") && Locates("aaa", Edit("aa", "b")) && SpanOf("aaa", Edit("aa", "b")).start == 0
  {
    assert Border("aa", 1);
    assert "aa" + "aa"[1..] == "aaa";
    hide *;
    BorderedIsAccepted("aa", 1, "b");
  }

  predicate Locates(origin: string, e: Edit) {
    e.piece != "" && Count(origin, e.piece) == 1
  }

  function SpanOf(origin: string, e: Edit): (s: Span)
    requires Locates(origin, e)
    ensures s.start < s.end <= |origin| && origin[s.start..s.end] == e.piece && s.text == e.replacement
  {
    CountPositive(origin, e.piece);
    var start := Index(origin, e.piece);
    Span(start, start + |e.piece|, e.replacement)
  }

  // ------------------------------------------------------------------ the meaning

  predicate Apart(a: Span, b: Span) {
    a.end <= b.start || b.end <= a.start
  }

  ghost predicate Pairwise<T>(a: seq<T>, apart: (T, T) -> bool) {
    forall i, j | 0 <= i < j < |a| :: apart(a[i], a[j])
  }

  /** The same of the elements without their places: none twice, and different ones apart. */
  ghost predicate BagApart<T(!new)>(m: multiset<T>, apart: (T, T) -> bool) {
    (forall x | x in m :: m[x] == 1) && (forall x, y | x in m && y in m && x != y :: apart(x, y))
  }

  lemma {:induction false} PairwiseIsBag<T(!new)>(a: seq<T>, apart: (T, T) -> bool)
    requires forall x, y :: apart(x, y) ==> apart(y, x)
    requires forall x | x in a :: !apart(x, x)
    ensures Pairwise(a, apart) <==> BagApart(multiset(a), apart)
  {
    if a != [] {
      var (x, rest) := (a[0], a[1..]);
      assert a == [x] + rest;
      PairwiseIsBag(rest, apart);
      PairwiseHead(x, rest, apart);
      BagHead(x, multiset(rest), apart);
      assert forall y :: y in rest <==> y in multiset(rest);
    }
  }

  lemma PairwiseHead<T(!new)>(x: T, rest: seq<T>, apart: (T, T) -> bool)
    ensures Pairwise([x] + rest, apart) <==> Pairwise(rest, apart) && forall y | y in rest :: apart(x, y)
  {
    var a := [x] + rest;
    if Pairwise(a, apart) {
      forall i, j | 0 <= i < j < |rest|
        ensures apart(rest[i], rest[j])
      {
        assert apart(a[i + 1], a[j + 1]);
      }
      forall y | y in rest
        ensures apart(x, y)
      {
        var j :| 0 <= j < |rest| && rest[j] == y;
        assert apart(a[0], a[j + 1]);
      }
    }
  }

  lemma BagHead<T(!new)>(x: T, m: multiset<T>, apart: (T, T) -> bool)
    requires forall x, y :: apart(x, y) ==> apart(y, x)
    requires !apart(x, x)
    ensures BagApart(multiset{x} + m, apart) <==> BagApart(m, apart) && forall y | y in m :: apart(x, y)
  {
    var more := multiset{x} + m;
    assert forall y :: y in more <==> y == x || y in m;
    if BagApart(more, apart) {
      assert more[x] == m[x] + 1;
    }
  }

  predicate InText(origin: string, s: Span) {
    s.start < s.end <= |origin|
  }

  /** All spans replaced at once, reading the original from `at` on; the spans are a set and have no order. */
  ghost function Rewrite(origin: string, spans: set<Span>, at: nat): string
    requires at <= |origin| && forall s <- spans :: InText(origin, s)
    decreases |origin| - at
  {
    if at == |origin| then ""
    else if s :| s in spans && s.start == at then (assert InText(origin, s); s.text + Rewrite(origin, spans, s.end))
    else [origin[at]] + Rewrite(origin, spans, at + 1)
  }

  // ------------------------------------------------------------------ ordering and splicing

  /** The order of the triples: by start, then end, then text. */
  predicate UpTo(a: Span, b: Span) {
    a.start < b.start || (a.start == b.start && (a.end < b.end || (a.end == b.end && !Precedes(b.text, a.text))))
  }

  function Insert(spans: seq<Span>, s: Span): (r: seq<Span>)
    ensures multiset(r) == multiset(spans) + multiset{s} && |r| == |spans| + 1
  {
    if spans == [] then [s]
    else if UpTo(s, spans[0]) then
      assert multiset([s] + spans) == multiset{s} + multiset(spans);
      [s] + spans
    else
      assert spans == [spans[0]] + spans[1..];
      [spans[0]] + Insert(spans[1..], s)
  }

  function Sort(spans: seq<Span>): (r: seq<Span>)
    ensures multiset(r) == multiset(spans) && |r| == |spans|
  {
    if spans == [] then []
    else
      assert spans == [spans[0]] + spans[1..];
      Insert(Sort(spans[1..]), spans[0])
  }

  predicate ByStart(spans: seq<Span>) {
    forall i, j | 0 <= i < j < |spans| :: spans[i].start <= spans[j].start
  }

  lemma {:induction false} InsertByStart(spans: seq<Span>, s: Span)
    requires ByStart(spans)
    ensures ByStart(Insert(spans, s))
  {
    if spans != [] && !UpTo(s, spans[0]) {
      InsertByStart(spans[1..], s);
      var rest := Insert(spans[1..], s);
      forall t | t in rest
        ensures spans[0].start <= t.start
      {
        assert t in multiset(rest);
        assert t == s || t in spans[1..];
      }
    }
  }

  lemma {:induction false} SortByStart(spans: seq<Span>)
    ensures ByStart(Sort(spans))
  {
    if spans != [] {
      SortByStart(spans[1..]);
      InsertByStart(Sort(spans[1..]), spans[0]);
    }
  }

  /** The check made on neighbours is the check on all pairs. */
  predicate NeighboursApart(spans: seq<Span>) {
    forall i | 0 <= i < |spans| - 1 :: spans[i].end <= spans[i + 1].start
  }

  predicate Inside(origin: string, spans: seq<Span>) {
    forall i | 0 <= i < |spans| :: InText(origin, spans[i])
  }

  lemma {:induction false} NeighboursSuffice(origin: string, spans: seq<Span>, i: nat, j: nat)
    requires NeighboursApart(spans) && Inside(origin, spans) && i < j < |spans|
    ensures spans[i].end <= spans[j].start
  {
    if i < j - 1 {
      NeighboursSuffice(origin, spans, i, j - 1);
      assert spans[j - 1].end <= spans[j - 1 + 1].start;
    }
  }

  lemma ApartSorted(origin: string, spans: seq<Span>)
    requires ByStart(spans) && Inside(origin, spans)
    ensures NeighboursApart(spans) <==> Pairwise(spans, Apart)
  {
    if NeighboursApart(spans) {
      forall i, j | 0 <= i < j < |spans|
        ensures Apart(spans[i], spans[j])
      {
        NeighboursSuffice(origin, spans, i, j);
      }
    }
    if Pairwise(spans, Apart) {
      forall i | 0 <= i < |spans| - 1
        ensures spans[i].end <= spans[i + 1].start
      {
        assert Apart(spans[i], spans[i + 1]) && InText(origin, spans[i]) && InText(origin, spans[i + 1]);
      }
    }
  }

  /** What stands from `at` on once the spans from the `k`-th on are replaced. */
  function Build(origin: string, spans: seq<Span>, k: nat, at: nat): string
    requires k <= |spans| && at <= |origin| && Inside(origin, spans)
    requires NeighboursApart(spans) && (k < |spans| ==> at <= spans[k].start)
    decreases |spans| - k
  {
    if k == |spans| then origin[at..]
    else
      assert InText(origin, spans[k]);
      origin[at..spans[k].start] + spans[k].text + Build(origin, spans, k + 1, spans[k].end)
  }

  /** Where the piece of the original left of the `k`-th span starts: at the end of the span before. */
  function Before(spans: seq<Span>, k: nat): nat
    requires k <= |spans|
  {
    if k == 0 then 0 else spans[k - 1].end
  }

  /** One splice moves the boundary between original and result one span to the left. */
  lemma SpliceOne(origin: string, spans: seq<Span>, k: nat, value: string)
    requires NeighboursApart(spans) && k < |spans| && Inside(origin, spans) && spans[k].end <= |origin|
    requires value == origin[..spans[k].end] + Build(origin, spans, k + 1, spans[k].end)
    ensures Before(spans, k) <= spans[k].start < spans[k].end <= |value|
    ensures value[..spans[k].start] + spans[k].text + value[spans[k].end..]
            == origin[..Before(spans, k)] + Build(origin, spans, k, Before(spans, k))
  {
    var (s, b) := (spans[k], Before(spans, k));
    assert InText(origin, s) && (k > 0 ==> spans[k - 1].end <= spans[k - 1 + 1].start);
    SpliceText(origin, b, s.start, s.end, s.text, Build(origin, spans, k + 1, s.end), value);
  }

  lemma SpliceText(origin: string, b: nat, start: nat, end: nat, text: string, rest: string, value: string)
    requires b <= start <= end <= |origin| && value == origin[..end] + rest
    ensures end <= |value| && value[..start] + text + value[end..] == origin[..b] + (origin[b..start] + text + rest)
  {
    assert value[end..] == rest;
    assert value[..start] == origin[..start] == origin[..b] + origin[b..start];
  }

  /** The splice loop: from the last span to the first, each into what the later ones left. */
  method Splice(origin: string, spans: seq<Span>) returns (value: string)
    requires NeighboursApart(spans) && Inside(origin, spans)
    ensures value == Build(origin, spans, 0, 0)
  {
    value := origin;
    var k := |spans|;
    assert k > 0 ==> InText(origin, spans[k - 1]);
    assert value == origin[..Before(spans, k)] + Build(origin, spans, k, Before(spans, k));
    while k > 0
      invariant 0 <= k <= |spans| && Before(spans, k) <= |origin| && (k < |spans| ==> Before(spans, k) <= spans[k].start)
      invariant value == origin[..Before(spans, k)] + Build(origin, spans, k, Before(spans, k))
    {
      hide Build;
      k := k - 1;
      var s := spans[k];
      assert InText(origin, s) && (k > 0 ==> InText(origin, spans[k - 1]));
      SpliceOne(origin, spans, k, value);
      value := value[..s.start] + s.text + value[s.end..];
    }
    assert origin[..0] == "";
  }

  // ------------------------------------------------------------------ splicing is simultaneous replacement

  function Elements(spans: seq<Span>): set<Span> {
    set s | s in spans
  }

  lemma RewriteNothing(origin: string, spans: set<Span>, at: nat)
    requires at < |origin| && (forall s <- spans :: InText(origin, s)) && forall s <- spans :: s.start != at
    ensures Rewrite(origin, spans, at) == [origin[at]] + Rewrite(origin, spans, at + 1)
  {
  }

  lemma {:induction false} NothingStarts(origin: string, spans: set<Span>, at: nat, further: nat)
    requires at <= further <= |origin| && forall s <- spans :: InText(origin, s)
    requires forall s <- spans :: !(at <= s.start < further)
    ensures Rewrite(origin, spans, at) == origin[at..further] + Rewrite(origin, spans, further)
    decreases further - at
  {
    if at < further {
      RewriteNothing(origin, spans, at);
      hide Rewrite;
      NothingStarts(origin, spans, at + 1, further);
      assert origin[at..further] == [origin[at]] + origin[at + 1..further];
    }
  }

  lemma RewriteAt(origin: string, spans: set<Span>, s: Span)
    requires (forall t <- spans :: InText(origin, t)) && s in spans && InText(origin, s)
    requires forall t <- spans | t.start == s.start :: t == s
    ensures Rewrite(origin, spans, s.start) == s.text + Rewrite(origin, spans, s.end)
  {
  }

  /** Up to the next span nothing is replaced, and there its text stands for its piece. */
  lemma SpanRewritten(origin: string, spans: seq<Span>, k: nat, at: nat)
    requires k < |spans| && at <= |origin| && Inside(origin, spans) && forall s <- Elements(spans) :: InText(origin, s)
    requires NeighboursApart(spans) && at <= spans[k].start
    requires forall i | 0 <= i < k :: spans[i].end <= at
    ensures InText(origin, spans[k]) && forall i | 0 <= i < k + 1 :: spans[i].end <= spans[k].end
    ensures k + 1 < |spans| ==> spans[k].end <= spans[k + 1].start
    ensures Rewrite(origin, Elements(spans), at)
            == origin[at..spans[k].start] + (spans[k].text + Rewrite(origin, Elements(spans), spans[k].end))
  {
    var s := spans[k];
    assert InText(origin, s);
    OnlyStart(origin, spans, k, at);
    hide Rewrite, Elements;
    NothingStarts(origin, Elements(spans), at, s.start);
    RewriteAt(origin, Elements(spans), s);
  }

  lemma {:induction false} BuildIsRewrite(origin: string, spans: seq<Span>, k: nat, at: nat)
    requires k <= |spans| && at <= |origin| && Inside(origin, spans) && forall s <- Elements(spans) :: InText(origin, s)
    requires NeighboursApart(spans) && (k < |spans| ==> at <= spans[k].start)
    requires forall i | 0 <= i < k :: spans[i].end <= at
    ensures Build(origin, spans, k, at) == Rewrite(origin, Elements(spans), at)
    decreases |spans| - k
  {
    if k == |spans| {
      NoneLeft(origin, spans, at);
    } else {
      var s := spans[k];
      SpanRewritten(origin, spans, k, at);
      BuildStep(origin, spans, k, at);
      hide Rewrite, Elements, Build, Inside, NeighboursApart;
      BuildIsRewrite(origin, spans, k + 1, s.end);
    }
    hide *;
  }

  lemma BuildStep(origin: string, spans: seq<Span>, k: nat, at: nat)
    requires k < |spans| && at <= |origin| && Inside(origin, spans) && NeighboursApart(spans) && at <= spans[k].start
    requires InText(origin, spans[k]) && (k + 1 < |spans| ==> spans[k].end <= spans[k + 1].start)
    ensures Build(origin, spans, k, at)
            == origin[at..spans[k].start] + (spans[k].text + Build(origin, spans, k + 1, spans[k].end))
  {
    var rest := Build(origin, spans, k + 1, spans[k].end);
    assert origin[at..spans[k].start] + (spans[k].text + rest) == origin[at..spans[k].start] + spans[k].text + rest;
  }

  lemma NoneLeft(origin: string, spans: seq<Span>, at: nat)
    requires at <= |origin| && Inside(origin, spans) && forall s <- Elements(spans) :: InText(origin, s)
    requires forall i | 0 <= i < |spans| :: spans[i].end <= at
    ensures Rewrite(origin, Elements(spans), at) == origin[at..]
  {
    forall s | s in Elements(spans)
      ensures !(at <= s.start < |origin|)
    {
      var i :| 0 <= i < |spans| && spans[i] == s;
    }
    NothingStarts(origin, Elements(spans), at, |origin|);
    assert origin[at..|origin|] + "" == origin[at..];
  }

  /** From `at` on, the `k`-th span is the first to start, and the only one to start where it does. */
  lemma OnlyStart(origin: string, spans: seq<Span>, k: nat, at: nat)
    requires k < |spans| && Inside(origin, spans)
    requires NeighboursApart(spans) && at <= spans[k].start && forall i | 0 <= i < k :: spans[i].end <= at
    ensures spans[k] in Elements(spans)
    ensures forall s <- Elements(spans) :: !(at <= s.start < spans[k].start)
    ensures forall s <- Elements(spans) | s.start == spans[k].start :: s == spans[k]
    ensures forall i | 0 <= i < k + 1 :: spans[i].end <= spans[k].end
    ensures k + 1 < |spans| ==> spans[k].end <= spans[k + 1].start
  {
    forall s | s in Elements(spans)
      ensures !(at <= s.start < spans[k].start) && (s.start == spans[k].start ==> s == spans[k])
    {
      var i :| 0 <= i < |spans| && spans[i] == s;
      assert InText(origin, spans[k]) && InText(origin, spans[i]);
      if i > k {
        NeighboursSuffice(origin, spans, k, i);
      } else if i < k {
        assert s.start < s.end <= at;
      }
    }
    assert InText(origin, spans[k]);
  }

  // ------------------------------------------------------------------ the whole

  function SpansOf(origin: string, edits: seq<Edit>): (spans: seq<Span>)
    requires forall e <- edits :: Locates(origin, e)
    ensures |spans| == |edits| && forall i | 0 <= i < |edits| :: spans[i] == SpanOf(origin, edits[i])
    ensures Inside(origin, spans)
  {
    seq(|edits|, i requires 0 <= i < |edits| => assert edits[i] in edits; SpanOf(origin, edits[i]))
  }

  predicate EditsApart(origin: string, a: Edit, b: Edit) {
    Locates(origin, a) && Locates(origin, b) && Apart(SpanOf(origin, a), SpanOf(origin, b))
  }

  /** Every piece is counted once, and no two of the located pieces overlap. */
  ghost predicate Accepted(origin: string, edits: seq<Edit>) {
    (forall e <- edits :: Locates(origin, e)) && Pairwise(edits, (a, b) => EditsApart(origin, a, b))
  }

  ghost function Spans(origin: string, edits: seq<Edit>): (spans: set<Span>)
    ensures forall s <- spans :: InText(origin, s)
  {
    set e | e in edits && Locates(origin, e) :: SpanOf(origin, e)
  }

  ghost function Result(origin: string, edits: seq<Edit>): Option<string> {
    if Accepted(origin, edits) then Some(Rewrite(origin, Spans(origin, edits), 0)) else None
  }

  lemma SpansAndEdits(origin: string, edits: seq<Edit>)
    requires forall e <- edits :: Locates(origin, e)
    ensures Pairwise(SpansOf(origin, edits), Apart) <==> Accepted(origin, edits)
    ensures Elements(SpansOf(origin, edits)) == Spans(origin, edits)
  {
    var spans := SpansOf(origin, edits);
    assert forall i | 0 <= i < |edits| :: edits[i] in edits && spans[i] == SpanOf(origin, edits[i]);
    forall s | s in Spans(origin, edits)
      ensures s in Elements(spans)
    {
      var e :| e in edits && Locates(origin, e) && s == SpanOf(origin, e);
      var i :| 0 <= i < |edits| && edits[i] == e;
      assert spans[i] == s;
    }
  }

  lemma SameElements(a: seq<Span>, b: seq<Span>)
    requires multiset(a) == multiset(b)
    ensures Elements(a) == Elements(b)
  {
    assert forall s :: s in a <==> s in multiset(a);
    assert forall s :: s in b <==> s in multiset(b);
  }

  /** The check on the sorted neighbours accepts exactly the lists whose spans are pairwise apart. */
  lemma SortedCheck(origin: string, spans: seq<Span>)
    requires Inside(origin, spans)
    ensures Inside(origin, Sort(spans)) && Elements(Sort(spans)) == Elements(spans)
    ensures NeighboursApart(Sort(spans)) <==> Pairwise(spans, Apart)
  {
    var sorted := Sort(spans);
    SortByStart(spans);
    SameElements(sorted, spans);
    forall i | 0 <= i < |sorted|
      ensures InText(origin, sorted[i])
    {
      assert sorted[i] in Elements(spans);
    }
    ApartSorted(origin, sorted);
    PairwiseIsBag(sorted, Apart);
    PairwiseIsBag(spans, Apart);
  }

  /** Locates, orders, checks and splices. */
  method ApplyEdits(origin: string, edits: seq<Edit>) returns (r: Option<string>)
    ensures r == Result(origin, edits)
  {
    hide Rewrite, Build, Sort, Count, Index;
    var located := Locate(origin, edits);
    if located.None? {
      return None;
    }
    var spans := Sort(located.value);
    SortedCheck(origin, located.value);
    SpansAndEdits(origin, edits);
    if exists i | 0 <= i < |spans| - 1 :: spans[i].end > spans[i + 1].start {
      return None;
    }
    var value := Splice(origin, spans);
    BuildIsRewrite(origin, spans, 0, 0);
    return Some(value);
  }

  method Locate(origin: string, edits: seq<Edit>) returns (located: Option<seq<Span>>)
    ensures located.Some? <==> forall e <- edits :: Locates(origin, e)
    ensures located.Some? ==> located.value == SpansOf(origin, edits)
  {
    var spans := [];
    for n := 0 to |edits|
      invariant |spans| == n && forall i | 0 <= i < n :: Locates(origin, edits[i]) && spans[i] == SpanOf(origin, edits[i])
    {
      var e := edits[n];
      assert e in edits;
      if e.piece == "" || Count(origin, e.piece) != 1 {
        return None;
      }
      var start := Index(origin, e.piece);
      spans := spans + [Span(start, start + |e.piece|, e.replacement)];
    }
    return Some(spans);
  }

  lemma AcceptedPermuted(origin: string, a: seq<Edit>, b: seq<Edit>)
    requires multiset(a) == multiset(b) && forall e :: e in a <==> e in b
    ensures Accepted(origin, a) <==> Accepted(origin, b)
  {
    hide Locates, SpanOf;
    var apart := (x, y) => EditsApart(origin, x, y);
    if forall e <- a :: Locates(origin, e) {
      ApartIrreflexive(origin);
      PairwiseIsBag(a, apart);
      PairwiseIsBag(b, apart);
    }
  }

  lemma ApartIrreflexive(origin: string)
    ensures forall e :: !EditsApart(origin, e, e)
    ensures forall x, y :: EditsApart(origin, x, y) ==> EditsApart(origin, y, x)
  {
  }

  /** The order of the edits does not show. */
  lemma OrderIsIrrelevant(origin: string, a: seq<Edit>, b: seq<Edit>)
    requires multiset(a) == multiset(b)
    ensures Result(origin, a) == Result(origin, b)
  {
    hide Rewrite, Accepted, Locates, SpanOf;
    assert forall e :: e in a <==> e in multiset(a);
    assert forall e :: e in b <==> e in multiset(b);
    AcceptedPermuted(origin, a, b);
    assert Spans(origin, a) == Spans(origin, b);
  }

  /** The same edit twice, or two that overlap, are always refused. */
  lemma OverlapIsRefused(origin: string, edits: seq<Edit>, i: nat, j: nat)
    requires i < j < |edits|
    requires edits[i] == edits[j] || (Locates(origin, edits[i]) && Locates(origin, edits[j])
                                      && !Apart(SpanOf(origin, edits[i]), SpanOf(origin, edits[j])))
    ensures Result(origin, edits).None?
  {
    assert Accepted(origin, edits) ==> EditsApart(origin, edits[i], edits[j]);
  }

  // ------------------------------------------------------------------ the length

  function Growth(edits: seq<Edit>): int {
    if edits == [] then 0 else |edits[0].replacement| - |edits[0].piece| + Growth(edits[1..])
  }

  function Change(spans: seq<Span>): int {
    if spans == [] then 0 else |spans[0].text| - (spans[0].end - spans[0].start) + Change(spans[1..])
  }

  lemma {:induction false} ChangeOfInsert(spans: seq<Span>, s: Span)
    ensures Change(Insert(spans, s)) == Change(spans) + |s.text| - (s.end - s.start)
  {
    if spans == [] || UpTo(s, spans[0]) {
      assert Insert(spans, s)[1..] == spans;
    } else {
      ChangeOfInsert(spans[1..], s);
      assert Insert(spans, s)[1..] == Insert(spans[1..], s);
    }
  }

  lemma {:induction false} ChangeOfSort(spans: seq<Span>)
    ensures Change(Sort(spans)) == Change(spans)
  {
    if spans != [] {
      ChangeOfSort(spans[1..]);
      ChangeOfInsert(Sort(spans[1..]), spans[0]);
    }
  }

  lemma {:induction false} ChangeOfEdits(origin: string, edits: seq<Edit>)
    requires forall e <- edits :: Locates(origin, e)
    ensures Change(SpansOf(origin, edits)) == Growth(edits)
  {
    hide Locates;
    if edits != [] {
      assert edits[0] in edits && forall e <- edits[1..] :: e in edits;
      ChangeOfEdits(origin, edits[1..]);
      assert SpansOf(origin, edits)[1..] == SpansOf(origin, edits[1..]);
      assert SpansOf(origin, edits)[0] == SpanOf(origin, edits[0]);
    }
  }

  lemma {:induction false} LengthOfBuild(origin: string, spans: seq<Span>, k: nat, at: nat)
    requires k <= |spans| && at <= |origin| && Inside(origin, spans)
    requires NeighboursApart(spans) && (k < |spans| ==> at <= spans[k].start)
    ensures |Build(origin, spans, k, at)| == |origin| - at + Change(spans[k..])
    decreases |spans| - k
  {
    if k < |spans| {
      assert InText(origin, spans[k]);
      LengthOfBuild(origin, spans, k + 1, spans[k].end);
      assert spans[k..][1..] == spans[k + 1..];
    }
  }

  /** The corrected text is as long as the original plus the changes in size of its edits. */
  lemma LengthOfResult(origin: string, edits: seq<Edit>)
    requires Result(origin, edits).Some?
    ensures |Result(origin, edits).value| == |origin| + Growth(edits)
  {
    hide Rewrite, Build, Sort, Locates, SpanOf, Change;
    var spans := SpansOf(origin, edits);
    SortedCheck(origin, spans);
    SpansAndEdits(origin, edits);
    BuildIsRewrite(origin, Sort(spans), 0, 0);
    LengthOfBuild(origin, Sort(spans), 0, 0);
    assert Sort(spans)[0..] == Sort(spans);
    ChangeOfSort(spans);
    ChangeOfEdits(origin, edits);
  }

  // ------------------------------------------------------------------ where everything comes to stand

  function GrowthOf(s: Span): int {
    |s.text| - (s.end - s.start)
  }

  /** By how much the replacements that end at `i` or before move what follows them. */
  function Moved(spans: seq<Span>, i: nat): int {
    if spans == [] then 0 else (if spans[0].end <= i then GrowthOf(spans[0]) else 0) + Moved(spans[1..], i)
  }

  lemma {:induction false} MovedNothing(spans: seq<Span>, i: nat)
    requires forall s <- spans :: s.end > i
    ensures Moved(spans, i) == 0
  {
    if spans != [] {
      MovedNothing(spans[1..], i);
    }
  }

  lemma {:induction false} MovedOfInsert(spans: seq<Span>, s: Span, i: nat)
    ensures Moved(Insert(spans, s), i) == Moved(spans, i) + if s.end <= i then GrowthOf(s) else 0
  {
    if spans == [] || UpTo(s, spans[0]) {
      assert Insert(spans, s)[1..] == spans;
    } else {
      MovedOfInsert(spans[1..], s, i);
      assert Insert(spans, s)[1..] == Insert(spans[1..], s);
    }
  }

  lemma {:induction false} MovedOfSort(spans: seq<Span>, i: nat)
    ensures Moved(Sort(spans), i) == Moved(spans, i)
  {
    if spans != [] {
      MovedOfSort(spans[1..], i);
      MovedOfInsert(Sort(spans[1..]), spans[0], i);
    }
  }

  /** A text that reads `piece` from `at` on. */
  predicate Reads(text: string, at: int, piece: string) {
    0 <= at <= |text| - |piece| && text[at..at + |piece|] == piece
  }

  lemma ReadsBehind(front: string, text: string, at: int, piece: string)
    requires Reads(text, at, piece)
    ensures Reads(front + text, |front| + at, piece)
  {
    assert (front + text)[|front| + at..|front| + at + |piece|] == text[at..at + |piece|];
  }

  lemma BuildReads(origin: string, spans: seq<Span>, k: nat, at: nat)
    requires k < |spans| && at <= |origin| && Inside(origin, spans) && NeighboursApart(spans) && at <= spans[k].start
    ensures InText(origin, spans[k])
    ensures var front := origin[at..spans[k].start] + spans[k].text;
            Build(origin, spans, k, at) == front + Build(origin, spans, k + 1, spans[k].end)
    ensures Reads(Build(origin, spans, k, at), spans[k].start - at, spans[k].text)
  {
    assert InText(origin, spans[k]);
    var (a, b, rest) := (origin[at..spans[k].start], spans[k].text, Build(origin, spans, k + 1, spans[k].end));
    assert (a + b + rest)[|a|..|a| + |b|] == b;
  }

  lemma TailEnds(origin: string, spans: seq<Span>, k: nat, i: nat)
    requires k <= |spans| && Inside(origin, spans) && NeighboursApart(spans) && (k < |spans| ==> spans[k].end > i)
    ensures forall s <- spans[k..] :: s.end > i
  {
    forall s | s in spans[k..]
      ensures s.end > i
    {
      var m :| k <= m < |spans| && spans[m] == s;
      assert InText(origin, spans[m]);
      if m > k {
        NeighboursSuffice(origin, spans, k, m);
      }
    }
  }

  lemma {:induction false} BuildLands(origin: string, spans: seq<Span>, k: nat, at: nat, j: nat)
    requires k <= j < |spans| && at <= |origin| && Inside(origin, spans) && NeighboursApart(spans) && at <= spans[k].start
    ensures Reads(Build(origin, spans, k, at), spans[j].start - at + Moved(spans[k..], spans[j].start), spans[j].text)
    decreases j - k
  {
    hide Build, Reads;
    BuildReads(origin, spans, k, at);
    assert InText(origin, spans[j]);
    if k == j {
      TailEnds(origin, spans, k, spans[j].start);
      MovedNothing(spans[k..], spans[j].start);
    } else {
      NeighboursSuffice(origin, spans, k, j);
      BuildLands(origin, spans, k + 1, spans[k].end, j);
      assert spans[k..][1..] == spans[k + 1..];
      ReadsBehind(origin[at..spans[k].start] + spans[k].text, Build(origin, spans, k + 1, spans[k].end),
                  spans[j].start - spans[k].end + Moved(spans[k + 1..], spans[j].start), spans[j].text);
    }
  }

  predicate Outside(s: Span, i: nat) {
    i < s.start || s.end <= i
  }

  lemma {:induction false} BuildKeeps(origin: string, spans: seq<Span>, k: nat, at: nat, i: nat)
    requires k <= |spans| && at <= i < |origin| && Inside(origin, spans) && NeighboursApart(spans)
    requires (k < |spans| ==> at <= spans[k].start) && forall s <- spans :: Outside(s, i)
    ensures Reads(Build(origin, spans, k, at), i - at + Moved(spans[k..], i), [origin[i]])
    decreases |spans| - k
  {
    if k < |spans| && spans[k].end <= i {
      hide Build, Reads;
      BuildReads(origin, spans, k, at);
      BuildKeeps(origin, spans, k + 1, spans[k].end, i);
      assert spans[k..][1..] == spans[k + 1..];
      ReadsBehind(origin[at..spans[k].start] + spans[k].text, Build(origin, spans, k + 1, spans[k].end),
                  i - spans[k].end + Moved(spans[k + 1..], i), [origin[i]]);
    } else {
      TailEnds(origin, spans, k, i);
      MovedNothing(spans[k..], i);
      assert k < |spans| ==> Outside(spans[k], i);
      BuildStarts(origin, spans, k, at, i);
    }
  }

  lemma BuildStarts(origin: string, spans: seq<Span>, k: nat, at: nat, i: nat)
    requires k <= |spans| && at <= i < |origin| && Inside(origin, spans) && NeighboursApart(spans)
    requires k < |spans| ==> at <= spans[k].start && i < spans[k].start
    ensures Reads(Build(origin, spans, k, at), i - at, [origin[i]])
  {
    var text := Build(origin, spans, k, at);
    assert k < |spans| ==> InText(origin, spans[k]);
    assert text[i - at] == origin[i];
    assert text[i - at..i - at + 1] == [origin[i]];
  }

  /** The same said of the edits. */
  function Shift(origin: string, edits: seq<Edit>, i: nat): int
    requires forall e <- edits :: Locates(origin, e)
  {
    if edits == [] then 0
    else
      assert edits[0] in edits;
      (if SpanOf(origin, edits[0]).end <= i then |edits[0].replacement| - |edits[0].piece| else 0) + Shift(origin, edits[1..], i)
  }

  lemma {:induction false} ShiftOfEdits(origin: string, edits: seq<Edit>, i: nat)
    requires forall e <- edits :: Locates(origin, e)
    ensures Moved(SpansOf(origin, edits), i) == Shift(origin, edits, i)
  {
    if edits != [] {
      assert edits[0] in edits && forall e <- edits[1..] :: e in edits;
      hide Locates;
      ShiftOfEdits(origin, edits[1..], i);
      assert SpansOf(origin, edits)[1..] == SpansOf(origin, edits[1..]);
      assert SpansOf(origin, edits)[0] == SpanOf(origin, edits[0]);
    }
  }

  lemma ResultIsBuilt(origin: string, edits: seq<Edit>) returns (spans: seq<Span>)
    requires Result(origin, edits).Some?
    ensures forall e <- edits :: Locates(origin, e)
    ensures Inside(origin, spans) && NeighboursApart(spans)
    ensures Result(origin, edits).value == Build(origin, spans, 0, 0)
    ensures forall s :: s in spans <==> s in SpansOf(origin, edits)
    ensures forall i: nat :: Moved(spans, i) == Shift(origin, edits, i)
  {
    hide Rewrite, Build, Sort, Locates, SpanOf, Moved, Shift;
    var located := SpansOf(origin, edits);
    spans := Sort(located);
    SortedCheck(origin, located);
    SpansAndEdits(origin, edits);
    BuildIsRewrite(origin, spans, 0, 0);
    forall s
      ensures s in spans <==> s in located
    {
      assert s in multiset(spans) <==> s in multiset(located);
    }
    forall i: nat
      ensures Moved(spans, i) == Shift(origin, edits, i)
    {
      MovedOfSort(located, i);
      ShiftOfEdits(origin, edits, i);
    }
  }

  /** Every replacement stands where its piece stood, moved by the replacements before it. */
  lemma ReplacementsLand(origin: string, edits: seq<Edit>, e: Edit)
    requires Result(origin, edits).Some? && e in edits
    ensures (forall e <- edits :: Locates(origin, e))
            && var start := SpanOf(origin, e).start;
               Reads(Result(origin, edits).value, start + Shift(origin, edits, start), e.replacement)
  {
    hide Result, Build, Locates, SpanOf, Moved, Shift, Reads;
    var spans := ResultIsBuilt(origin, edits);
    var i :| 0 <= i < |edits| && edits[i] == e;
    assert SpansOf(origin, edits)[i] == SpanOf(origin, e);
    assert SpanOf(origin, e) in spans;
    var j :| 0 <= j < |spans| && spans[j] == SpanOf(origin, e);
    BuildLands(origin, spans, 0, 0, j);
    assert spans[0..] == spans;
  }

  /** And every character of the original outside the pieces stands where it stood, moved likewise. */
  lemma OthersStay(origin: string, edits: seq<Edit>, i: nat)
    requires Result(origin, edits).Some? && i < |origin|
    requires forall e <- edits | Locates(origin, e) :: Outside(SpanOf(origin, e), i)
    ensures (forall e <- edits :: Locates(origin, e))
            && Reads(Result(origin, edits).value, i + Shift(origin, edits, i), [origin[i]])
  {
    hide Result, Build, Locates, SpanOf, Moved, Shift, Reads, Outside;
    var spans := ResultIsBuilt(origin, edits);
    forall s | s in spans
      ensures Outside(s, i)
    {
      var k :| 0 <= k < |edits| && SpansOf(origin, edits)[k] == s;
      assert edits[k] in edits;
    }
    BuildKeeps(origin, spans, 0, 0, i);
    assert spans[0..] == spans;
  }
}
