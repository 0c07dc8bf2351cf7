/** The overlap scores of the benchmark: longest common subsequence, multiset and set F1. Scores are exact rationals. */
module TokenMetrics {
  import opened Arithmetic

  // ------------------------------------------------------------------ F1

  /** Precision and recall of an overlap, combined as the code combines them. */
  function F1(overlap: nat, reference: nat, prediction: nat): real
    requires reference > 0 && prediction > 0
  {
    if overlap == 0 then 0.0
    else
      var precision, recall := overlap as real / prediction as real, overlap as real / reference as real;
      assert precision > 0.0 && recall > 0.0;
      2.0 * precision * recall / (precision + recall)
  }

  /** The score is twice the overlap over the two lengths. */
  lemma {:induction false} F1IsDice(l: nat, m: nat, n: nat)
    requires m > 0 && n > 0
    ensures F1(l, m, n) == 2.0 * l as real / (m + n) as real
  {
    if l > 0 {
      var (x, y, z) := (l as real, m as real, n as real);
      var p, r := x / z, x / y;
      assert p * z == x && r * y == x;
      assert (m + n) as real == y + z;
      assert 2.0 * x / (y + z) * (p + r) == 2.0 * p * r by {
        DiceProduct(x, y, z, p, r);
      }
      Quotient(2.0 * p * r, p + r, 2.0 * x / (y + z));
    }
  }

  lemma DiceProduct(x: real, y: real, z: real, p: real, r: real)
    requires x > 0.0 && y > 0.0 && z > 0.0 && p * z == x && r * y == x
    ensures 2.0 * x / (y + z) * (p + r) == 2.0 * p * r
  {
    var d := 2.0 * x / (y + z);
    assert d * (y + z) == 2.0 * x;
    assert p * r * (y + z) == p * (r * y) + r * (p * z) == x * (p + r);
    assert d * (p + r) * (y + z) == 2.0 * x * (p + r) == 2.0 * (p * r * (y + z));
  }

  lemma F1Range(l: nat, m: nat, n: nat)
    requires m > 0 && n > 0 && l <= m && l <= n
    ensures 0.0 <= F1(l, m, n) <= 1.0
    ensures F1(l, m, n) == F1(l, n, m)
    ensures F1(l, m, n) == 1.0 <==> l == m == n
    ensures F1(l, m, n) == 0.0 <==> l == 0
  {
    hide F1;
    F1IsDice(l, m, n);
    F1IsDice(l, n, m);
    Ratio(2.0 * l as real, (m + n) as real);
    assert 2.0 * l as real == (2 * l) as real;
  }

  lemma F1Monotone(l: nat, k: nat, m: nat, n: nat)
    requires m > 0 && n > 0 && l <= k
    ensures F1(l, m, n) <= F1(k, m, n)
  {
    hide F1;
    F1IsDice(l, m, n);
    F1IsDice(k, m, n);
  }

  // ------------------------------------------------------------------ longest common subsequence

  function Lcs<T(==)>(a: seq<T>, b: seq<T>): nat
    decreases |a| + |b|
  {
    if a == [] || b == [] then 0
    else
      var (a', b') := (a[..|a| - 1], b[..|b| - 1]);
      if a[|a| - 1] == b[|b| - 1] then Lcs(a', b') + 1
      else Max(Lcs(a', b), Lcs(a, b'))
  }

  /** `w` is found in `s` at these ascending positions. */
  ghost predicate FoundAt<T>(w: seq<T>, s: seq<T>, at: seq<nat>) {
    && |at| == |w|
    && (forall i | 0 <= i < |w| :: at[i] < |s| && w[i] == s[at[i]])
    && (forall i, j | 0 <= i < j < |w| :: at[i] < at[j])
  }

  ghost predicate Common<T>(w: seq<T>, a: seq<T>, b: seq<T>) {
    (exists at :: FoundAt(w, a, at)) && (exists bt :: FoundAt(w, b, bt))
  }

  lemma FoundWithoutLast<T>(w: seq<T>, s: seq<T>, at: seq<nat>)
    requires FoundAt(w, s, at) && w != []
    ensures s != [] && FoundAt(w[..|w| - 1], s[..|s| - 1], at[..|w| - 1])
  {
    assert at[|w| - 1] < |s|;
    forall i | 0 <= i < |w| - 1
      ensures at[i] < |s| - 1
    {
      assert at[i] < at[|w| - 1] < |s|;
    }
  }

  lemma {:induction false} NoLongerCommon<T>(w: seq<T>, a: seq<T>, b: seq<T>, at: seq<nat>, bt: seq<nat>)
    requires FoundAt(w, a, at) && FoundAt(w, b, bt)
    ensures |w| <= Lcs(a, b)
    decreases |a| + |b|
  {
    if w != [] {
      FoundWithoutLast(w, a, at);
      FoundWithoutLast(w, b, bt);
      var k := |w| - 1;
      if a[|a| - 1] == b[|b| - 1] {
        NoLongerCommon(w[..k], a[..|a| - 1], b[..|b| - 1], at[..k], bt[..k]);
      } else if at[k] != |a| - 1 {
        NoLongerCommon(w, a[..|a| - 1], b, at, bt);
      } else {
        NoLongerCommon(w, a, b[..|b| - 1], at, bt);
      }
    }
  }

  lemma {:induction false} SomeCommon<T>(a: seq<T>, b: seq<T>) returns (w: seq<T>, at: seq<nat>, bt: seq<nat>)
    ensures FoundAt(w, a, at) && FoundAt(w, b, bt) && |w| == Lcs(a, b)
    decreases |a| + |b|
  {
    if a == [] || b == [] {
      w, at, bt := [], [], [];
    } else {
      var (a', b', x, y) := (a[..|a| - 1], b[..|b| - 1], a[|a| - 1], b[|b| - 1]);
      assert a == a' + [x] && b == b' + [y];
      if x == y {
        w, at, bt := SomeCommon(a', b');
        w, at, bt := w + [x], at + [|a'|], bt + [|b'|];
      } else if Lcs(a', b) >= Lcs(a, b') {
        w, at, bt := SomeCommon(a', b);
      } else {
        w, at, bt := SomeCommon(a, b');
      }
    }
  }

  /** The recursion computes the length of a longest common subsequence. */
  lemma LcsIsLongest<T>(a: seq<T>, b: seq<T>)
    ensures exists w :: Common(w, a, b) && |w| == Lcs(a, b)
    ensures forall w :: Common(w, a, b) ==> |w| <= Lcs(a, b)
  {
    var v, at, bt := SomeCommon(a, b);
    assert Common(v, a, b);
    forall w | Common(w, a, b)
      ensures |w| <= Lcs(a, b)
    {
      var p :| FoundAt(w, a, p);
      var q :| FoundAt(w, b, q);
      NoLongerCommon(w, a, b, p, q);
    }
  }

  lemma {:induction false} LcsSymmetric<T>(a: seq<T>, b: seq<T>)
    ensures Lcs(a, b) == Lcs(b, a)
  {
    var v, at, bt := SomeCommon(a, b);
    NoLongerCommon(v, b, a, bt, at);
    var w, cs, ds := SomeCommon(b, a);
    NoLongerCommon(w, a, b, ds, cs);
  }

  lemma {:induction false} FoundWhole<T>(w: seq<T>, s: seq<T>, at: seq<nat>)
    requires FoundAt(w, s, at)
    ensures |w| <= |s| && (|w| == |s| ==> w == s)
    decreases |w|
  {
    if w != [] {
      FoundWithoutLast(w, s, at);
      FoundWhole(w[..|w| - 1], s[..|s| - 1], at[..|w| - 1]);
      if |w| == |s| {
        assert at[|w| - 1] == |s| - 1 by {
          AscendingReaches(at, |w| - 1);
        }
        assert w == w[..|w| - 1] + [w[|w| - 1]] && s == s[..|s| - 1] + [s[|s| - 1]];
      }
    }
  }

  lemma {:induction false} AscendingReaches(at: seq<nat>, k: nat)
    requires k < |at| && forall i, j | 0 <= i < j < |at| :: at[i] < at[j]
    ensures at[k] >= k
  {
    if k > 0 {
      AscendingReaches(at, k - 1);
    }
  }

  /** Nothing is longer in common than either list, and as long as both only if they are equal. */
  lemma {:induction false} LcsBounds<T>(a: seq<T>, b: seq<T>)
    ensures Lcs(a, b) <= |a| && Lcs(a, b) <= |b|
    ensures Lcs(a, b) == |a| == |b| <==> a == b
  {
    var w, at, bt := SomeCommon(a, b);
    FoundWhole(w, a, at);
    FoundWhole(w, b, bt);
    if a == b {
      var all := seq(|a|, i => i);
      assert FoundAt(a, a, all);
      NoLongerCommon(a, a, b, all, all);
    }
  }

  // ------------------------------------------------------------------ the scores

  method NextRow<T(==)>(ref: seq<T>, i: nat, pred: seq<T>, previous: seq<nat>) returns (current: seq<nat>)
    requires i < |ref| && RowOf(previous, ref[..i], pred, |pred| + 1)
    ensures RowOf(current, ref[..i + 1], pred, |pred| + 1)
  {
    hide Lcs;
    var left := ref[i];
    current := [0];
    NoColumn(ref[..i + 1], pred);
    for index := 1 to |pred| + 1
      invariant RowOf(current, ref[..i + 1], pred, index)
    {
      var right := pred[index - 1];
      CellOf(ref, i, pred, index);
      current := current + [if left == right then previous[index - 1] + 1
                            else Max(previous[index], current[|current| - 1])];
    }
  }

  lemma NoColumn<T>(a: seq<T>, b: seq<T>)
    ensures RowOf([0], a, b, 1)
  {
  }

  /** The score of two token lists; the rows of the loop are the last rows of the table so far. */
  method RougeL<T(==)>(ref: seq<T>, pred: seq<T>) returns (score: real)
    ensures score == Score(ref, pred)
  {
    if ref == [] || pred == [] {
      return if ref == pred then 1.0 else 0.0;
    }
    hide Lcs, F1;
    var previous: seq<nat> := seq(|pred| + 1, i => 0);
    for i := 0 to |ref|
      invariant RowOf(previous, ref[..i], pred, |pred| + 1)
    {
      previous := NextRow(ref, i, pred, previous);
    }
    assert ref[..|ref|] == ref && pred[..|pred|] == pred;
    var lcs := previous[|previous| - 1];
    score := Combine(lcs, |ref|, |pred|);
  }

  method Combine(overlap: nat, reference: nat, prediction: nat) returns (score: real)
    requires reference > 0 && prediction > 0
    ensures score == F1(overlap, reference, prediction)
  {
    if overlap == 0 {
      return 0.0;
    }
    var precision, recall := overlap as real / prediction as real, overlap as real / reference as real;
    assert precision > 0.0 && recall > 0.0;
    score := 2.0 * precision * recall / (precision + recall);
  }

  /** The first `n` cells of a table row: the scores of one list against each prefix of the other. */
  ghost predicate RowOf<T>(row: seq<nat>, a: seq<T>, b: seq<T>, n: nat) {
    |row| == n <= |b| + 1 && forall j | 0 <= j < n :: row[j] == Lcs(a, b[..j])
  }

  lemma CellOf<T>(a: seq<T>, i: nat, b: seq<T>, j: nat)
    requires i < |a| && 1 <= j <= |b|
    ensures Lcs(a[..i + 1], b[..j]) ==
            if a[i] == b[j - 1] then Lcs(a[..i], b[..j - 1]) + 1
            else Max(Lcs(a[..i], b[..j]), Lcs(a[..i + 1], b[..j - 1]))
  {
    assert a[..i + 1][..i] == a[..i] && b[..j][..j - 1] == b[..j - 1];
  }

  function Score<T(==)>(ref: seq<T>, pred: seq<T>): real {
    if ref == [] || pred == [] then (if ref == pred then 1.0 else 0.0) else F1(Lcs(ref, pred), |ref|, |pred|)
  }

  /** The score is symmetric, between nought and one, and one exactly for equal lists. */
  lemma ScoreProperties<T>(ref: seq<T>, pred: seq<T>)
    ensures Score(ref, pred) == Score(pred, ref)
    ensures 0.0 <= Score(ref, pred) <= 1.0
    ensures Score(ref, pred) == 1.0 <==> ref == pred
  {
    hide F1, Lcs;
    LcsBounds(ref, pred);
    LcsSymmetric(ref, pred);
    if ref != [] && pred != [] {
      F1Range(Lcs(ref, pred), |ref|, |pred|);
    }
  }

  /** A common subsequence than which none is longer. */
  ghost predicate Longest<T(!new)>(w: seq<T>, a: seq<T>, b: seq<T>) {
    Common(w, a, b) && forall v :: Common(v, a, b) ==> |v| <= |w|
  }

  /** The score is twice the length of any longest common subsequence over the two lengths. */
  lemma ScoreIsShare<T(!new)>(ref: seq<T>, pred: seq<T>, w: seq<T>)
    requires |ref| + |pred| > 0 && Longest(w, ref, pred)
    ensures Score(ref, pred) == 2.0 * |w| as real / (|ref| + |pred|) as real
  {
    hide F1, Common;
    LcsIsLongest(ref, pred);
    var v :| Common(v, ref, pred) && |v| == Lcs(ref, pred);
    assert |w| == Lcs(ref, pred);
    if ref != [] && pred != [] {
      F1IsDice(Lcs(ref, pred), |ref|, |pred|);
    } else {
      assert 0.0 / (|ref| + |pred|) as real == 0.0;
    }
  }

  // ------------------------------------------------------------------ the bag and set scores

  /** Character F1: the overlap counts each token as often as both lists have it. */
  function BagScore<T(==)>(ref: seq<T>, pred: seq<T>): real {
    if ref == [] || pred == [] then (if ref == pred then 1.0 else 0.0)
    else F1(|multiset(ref) * multiset(pred)|, |ref|, |pred|)
  }

  lemma CommonPart<T>(a: multiset<T>, b: multiset<T>)
    ensures |a * b| <= |a| && |a * b| <= |b| && |a * b| == |b * a|
    ensures |a * b| == |a| == |b| <==> a == b
  {
    assert a * b == b * a;
    assert |a - b| == |a| - |a * b|;
    assert |b - a| == |b| - |a * b|;
    if |a * b| == |a| == |b| {
      assert |a - b| == 0 && |b - a| == 0;
      assert a - b == multiset{} && b - a == multiset{};
    }
    if a == b {
      assert a * b == a;
    }
  }

  /** Two lists score one exactly when they are rearrangements of each other. */
  lemma BagScoreProperties<T>(ref: seq<T>, pred: seq<T>)
    ensures BagScore(ref, pred) == BagScore(pred, ref)
    ensures 0.0 <= BagScore(ref, pred) <= 1.0
    ensures BagScore(ref, pred) == 1.0 <==> multiset(ref) == multiset(pred)
  {
    hide F1;
    CommonPart(multiset(ref), multiset(pred));
    assert |multiset(ref)| == |ref| && |multiset(pred)| == |pred|;
    if ref != [] && pred != [] {
      F1Range(|multiset(ref) * multiset(pred)|, |ref|, |pred|);
      assert multiset(ref) * multiset(pred) == multiset(pred) * multiset(ref);
    }
  }

  /** A collection drawn from both lists than which none is larger. */
  ghost predicate LargestBag<T(!new)>(m: multiset<T>, a: multiset<T>, b: multiset<T>) {
    m <= a && m <= b && forall k: multiset<T> | k <= a && k <= b :: |k| <= |m|
  }

  lemma MeetIsLargest<T(!new)>(m: multiset<T>, a: multiset<T>, b: multiset<T>)
    requires LargestBag(m, a, b)
    ensures |m| == |a * b|
  {
    assert a * b <= a && a * b <= b;
    assert m <= a * b;
    SubBag(m, a * b);
  }

  /** Character F1 is twice the size of the largest collection common to both lists over the two lengths. */
  lemma BagScoreIsShare<T(!new)>(ref: seq<T>, pred: seq<T>, m: multiset<T>)
    requires |ref| + |pred| > 0 && LargestBag(m, multiset(ref), multiset(pred))
    ensures BagScore(ref, pred) == 2.0 * |m| as real / (|ref| + |pred|) as real
  {
    hide F1;
    MeetIsLargest(m, multiset(ref), multiset(pred));
    if ref != [] && pred != [] {
      F1IsDice(|multiset(ref) * multiset(pred)|, |ref|, |pred|);
    } else {
      assert |multiset(ref)| == |ref| && |multiset(pred)| == |pred|;
      SubBag(multiset(ref) * multiset(pred), multiset(ref));
      SubBag(multiset(ref) * multiset(pred), multiset(pred));
      assert 0.0 / (|ref| + |pred|) as real == 0.0;
    }
  }

  lemma {:induction false} FoundIsInBag<T>(w: seq<T>, s: seq<T>, at: seq<nat>)
    requires FoundAt(w, s, at)
    ensures multiset(w) <= multiset(s)
    decreases |s|
  {
    if w != [] {
      FoundWithoutLast(w, s, at);
      var (k, s') := (|w| - 1, s[..|s| - 1]);
      assert s == s' + [s[|s| - 1]] && w == w[..k] + [w[k]];
      if at[k] == |s| - 1 {
        FoundIsInBag(w[..k], s', at[..k]);
      } else {
        FoundIsInBag(w, s', at);
      }
    }
  }

  /** Keeping the order can only lower the score. */
  lemma OrderOnlyCosts<T>(ref: seq<T>, pred: seq<T>)
    ensures Score(ref, pred) <= BagScore(ref, pred)
  {
    hide F1, Lcs;
    if ref != [] && pred != [] {
      var w, at, bt := SomeCommon(ref, pred);
      FoundIsInBag(w, ref, at);
      FoundIsInBag(w, pred, bt);
      SubBag(multiset(w), multiset(ref) * multiset(pred));
      F1Monotone(Lcs(ref, pred), |multiset(ref) * multiset(pred)|, |ref|, |pred|);
    }
  }

  lemma SubBag<T>(a: multiset<T>, b: multiset<T>)
    requires a <= b
    ensures |a| <= |b|
  {
    assert b == a + (b - a);
  }

  /** Set F1, with its own treatment of empty sets. */
  function SetScore<T(==)>(expected: set<T>, actual: set<T>): real {
    if expected == {} then (if actual == {} then 1.0 else 0.0)
    else if actual == {} then 0.0
    else F1(|expected * actual|, |expected|, |actual|)
  }

  lemma SetScoreProperties<T>(expected: set<T>, actual: set<T>)
    ensures SetScore(expected, actual) == SetScore(actual, expected)
    ensures 0.0 <= SetScore(expected, actual) <= 1.0
    ensures SetScore(expected, actual) == 1.0 <==> expected == actual
  {
    hide F1;
    assert expected * actual == actual * expected;
    assert |expected - actual| == |expected| - |expected * actual|;
    assert |actual - expected| == |actual| - |actual * expected|;
    if expected != {} && actual != {} {
      F1Range(|expected * actual|, |expected|, |actual|);
      if |expected * actual| == |expected| == |actual| {
        assert expected - actual == {} && actual - expected == {};
        assert expected == actual;
      }
      assert expected == actual ==> expected * actual == expected;
    }
  }

  lemma {:induction false} SubSet<T>(a: set<T>, b: set<T>)
    requires a <= b
    ensures |a| <= |b|
  {
    if a != {} {
      var x :| x in a;
      SubSet(a - {x}, b - {x});
    }
  }

  ghost predicate LargestSet<T(!new)>(m: set<T>, a: set<T>, b: set<T>) {
    m <= a && m <= b && forall k: set<T> | k <= a && k <= b :: |k| <= |m|
  }

  /** Set F1 is twice the size of the largest set common to both over the two sizes, where there is anything at all. */
  lemma SetScoreIsShare<T(!new)>(expected: set<T>, actual: set<T>, m: set<T>)
    requires |expected| + |actual| > 0 && LargestSet(m, expected, actual)
    ensures SetScore(expected, actual) == 2.0 * |m| as real / (|expected| + |actual|) as real
  {
    hide F1;
    assert expected * actual <= expected && expected * actual <= actual && m <= expected * actual;
    SubSet(m, expected * actual);
    if expected != {} && actual != {} {
      F1IsDice(|expected * actual|, |expected|, |actual|);
    } else {
      assert m == {};
      assert 0.0 / (|expected| + |actual|) as real == 0.0;
    }
  }
}
