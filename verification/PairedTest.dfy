/**
 Comparing two groups on the same items: pairing of attempts, the counts of one-sided passes,
 and the exact two-sided McNemar test on them.  Probabilities are exact rationals.
 */
module PairedTest {
  import opened Arithmetic
  import opened Wrappers

  // ------------------------------------------------------------------ binomial coefficients

  function Power(n: nat): (p: nat)
    ensures p > 0
  {
    if n == 0 then 1 else 2 * Power(n - 1)
  }

  function Factorial(n: nat): (f: nat)
    ensures f > 0
  {
    if n == 0 then 1 else n * Factorial(n - 1)
  }

  /** `math.comb`, which is zero when more is chosen than there is. */
  function Comb(n: nat, k: nat): nat {
    if k == 0 then 1 else if n == 0 then 0 else Comb(n - 1, k - 1) + Comb(n - 1, k)
  }

  lemma {:induction false} CombBeyond(n: nat, k: nat)
    requires k > n
    ensures Comb(n, k) == 0
  {
    if n > 0 {
      CombBeyond(n - 1, k - 1);
      CombBeyond(n - 1, k);
    }
  }

  lemma {:induction false} CombPositive(n: nat, k: nat)
    requires k <= n
    ensures Comb(n, k) > 0
  {
    if k > 0 {
      CombPositive(n - 1, k - 1);
    }
  }

  lemma {:induction false} CombSymmetric(n: nat, k: nat)
    requires k <= n
    ensures Comb(n, k) == Comb(n, n - k)
  {
    if 0 < k < n {
      CombSymmetric(n - 1, k - 1);
      CombSymmetric(n - 1, k);
    } else if n > 0 {
      CombAll(n);
    }
  }

  lemma {:induction false} CombAll(n: nat)
    ensures Comb(n, n) == 1
  {
    if n > 0 {
      CombAll(n - 1);
      CombBeyond(n - 1, n);
    }
  }

  /** The recursion is the quotient of factorials. */
  lemma {:induction false} CombIsFactorialQuotient(n: nat, k: nat)
    requires k <= n
    ensures Comb(n, k) * (Factorial(k) * Factorial(n - k)) == Factorial(n)
  {
    if k == n {
      CombAll(n);
    } else if k > 0 {
      CombIsFactorialQuotient(n - 1, k - 1);
      CombIsFactorialQuotient(n - 1, k);
      CombStep(n, k, Comb(n - 1, k - 1), Comb(n - 1, k), Factorial(k - 1), Factorial(n - k - 1), Factorial(n - 1));
    }
  }

  lemma CombStep(n: nat, k: nat, x: nat, y: nat, f: nat, g: nat, h: nat)
    requires 0 < k < n && x * (f * ((n - k) * g)) == h && y * ((k * f) * g) == h
    ensures (x + y) * ((k * f) * ((n - k) * g)) == n * h
  {
    assert x * ((k * f) * ((n - k) * g)) == k * (x * (f * ((n - k) * g)));
    assert y * ((k * f) * ((n - k) * g)) == (n - k) * (y * ((k * f) * g));
    assert k * h + (n - k) * h == n * h;
  }

  // ------------------------------------------------------------------ tails

  /** How many of the `2^n` outcomes have at most `m` on one side. */
  function Tail(n: nat, m: int): nat
    requires m >= -1
    decreases m + 1
  {
    if m == -1 then 0 else Tail(n, m - 1) + Comb(n, m)
  }

  lemma {:induction false} TailPascal(n: nat, m: nat)
    ensures Tail(n + 1, m) == Tail(n, m) + Tail(n, m - 1)
  {
    if m > 0 {
      TailPascal(n, m - 1);
    } else {
      assert Tail(n + 1, -1) == 0 && Tail(n, -1) == 0;
    }
  }

  lemma {:induction false} TailWhole(n: nat)
    ensures Tail(n, n) == Power(n)
  {
    if n == 0 {
      assert Tail(0, -1) == 0;
    } else {
      TailWhole(n - 1);
      TailPascal(n - 1, n);
      CombBeyond(n - 1, n);
    }
  }

  lemma {:induction false} TailComplement(n: nat, m: int)
    requires -1 <= m <= n
    ensures Tail(n, m) + Tail(n, n - m - 1) == Power(n)
    decreases m + 1
  {
    if m == -1 {
      TailWhole(n);
    } else {
      TailComplement(n, m - 1);
      CombSymmetric(n, m);
    }
  }

  lemma {:induction false} TailGrows(n: nat, m: int, k: int)
    requires -1 <= m < k <= n
    ensures Tail(n, m) < Tail(n, k)
    decreases k
  {
    CombPositive(n, k);
    if m < k - 1 {
      TailGrows(n, m, k - 1);
    }
  }

  /** Twice the tail is over `2^n` for a tie, equal to it when the sides differ by one, and below it otherwise. */
  lemma TwiceTheTail(b: nat, c: nat)
    requires b + c > 0
    ensures 2 * Tail(b + c, Min(b, c)) > Power(b + c) <==> b == c
    ensures 2 * Tail(b + c, Min(b, c)) == Power(b + c) <==> Abs(b - c) == 1
    ensures 2 * Tail(b + c, Min(b, c)) < Power(b + c) <==> Abs(b - c) > 1
  {
    var n, m := b + c, Min(b, c);
    TailComplement(n, m);
    CombPositive(n, m);
    if Abs(b - c) > 1 {
      TailGrows(n, m, n - m - 1);
    }
  }

  // ------------------------------------------------------------------ the test

  function Smaller(a: real, b: real): real {
    if a <= b then a else b
  }

  function PValue(b: nat, c: nat): Option<real> {
    if b + c == 0 then None
    else Some(Smaller(1.0, 2.0 * Tail(b + c, Min(b, c)) as real / Power(b + c) as real))
  }

  method McNemarExact(baselineOnly: nat, compareOnly: nat) returns (p: Option<real>)
    ensures p == PValue(baselineOnly, compareOnly)
  {
    var discordant := baselineOnly + compareOnly;
    if discordant == 0 {
      return None;
    }
    var tail := 0;
    for index := 0 to Min(baselineOnly, compareOnly) + 1
      invariant tail == Tail(discordant, index - 1)
    {
      tail := tail + Comb(discordant, index);
    }
    return Some(Smaller(1.0, 2.0 * tail as real / Power(discordant) as real));
  }

  /** Undefined only without discordant pairs; else in (0, 1], symmetric, and 1 exactly when the sides differ by at most one. */
  lemma PValueProperties(b: nat, c: nat)
    ensures PValue(b, c) == PValue(c, b)
    ensures PValue(b, c).None? <==> b == 0 && c == 0
    ensures PValue(b, c).Some? ==> 0.0 < PValue(b, c).value <= 1.0
    ensures PValue(b, c).Some? ==> (PValue(b, c).value == 1.0 <==> Abs(b - c) <= 1)
  {
    if b + c > 0 {
      TwiceTheTail(b, c);
      CombPositive(b + c, Min(b, c));
      var twice, whole := 2 * Tail(b + c, Min(b, c)), Power(b + c);
      assert 2.0 * Tail(b + c, Min(b, c)) as real == twice as real;
      Ratio(twice as real, whole as real);
    }
  }

  /** The outcomes up to `k` that are at least as one-sided as `m` against `n - m`. */
  function Extreme(n: nat, m: nat, k: int): nat
    requires k >= -1
    decreases k + 1
  {
    if k == -1 then 0 else Extreme(n, m, k - 1) + if k <= m || k >= n - m then Comb(n, k) else 0
  }

  lemma {:induction false} ExtremeIsTwoTails(n: nat, m: nat, k: int)
    requires -1 <= k <= n && 2 * m < n
    ensures k <= m ==> Extreme(n, m, k) == Tail(n, k)
    ensures m < k < n - m ==> Extreme(n, m, k) == Tail(n, m)
    ensures k >= n - m ==> Extreme(n, m, k) == Tail(n, m) + Tail(n, k) - Tail(n, n - m - 1)
    decreases k + 1
  {
    if k == -1 {
      assert Tail(n, k) == 0;
    } else {
      ExtremeIsTwoTails(n, m, k - 1);
      assert Tail(n, k) == Tail(n, k - 1) + Comb(n, k);
    }
  }

  lemma {:induction false} ExtremeOfTie(m: nat, k: int)
    requires -1 <= k
    ensures Extreme(2 * m, m, k) == Tail(2 * m, k)
    decreases k + 1
  {
    if k >= 0 {
      ExtremeOfTie(m, k - 1);
    }
  }

  /** The p-value is the share of all outcomes at least as one-sided as the observed one. */
  lemma PValueIsExact(b: nat, c: nat)
    requires b + c > 0
    ensures PValue(b, c) == Some(Extreme(b + c, Min(b, c), b + c) as real / Power(b + c) as real)
  {
    var n, m := b + c, Min(b, c);
    TwiceTheTail(b, c);
    TailWhole(n);
    var twice := 2 * Tail(n, m);
    assert 2.0 * Tail(n, m) as real == twice as real;
    Ratio(twice as real, Power(n) as real);
    Ratio(Power(n) as real, Power(n) as real);
    if b == c {
      ExtremeOfTie(m, n);
    } else {
      ExtremeIsTwoTails(n, m, n);
      TailComplement(n, m);
    }
  }

  // ------------------------------------------------------------------ the counts

  datatype Pair = Pair(baselinePassed: bool, comparePassed: bool)

  function Delta(p: Pair): int {
    (if p.comparePassed then 1 else 0) - (if p.baselinePassed then 1 else 0)
  }

  function CountDelta(pairs: seq<Pair>, d: int): nat {
    if pairs == [] then 0 else (if Delta(pairs[0]) == d then 1 else 0) + CountDelta(pairs[1..], d)
  }

  function BaselinePasses(pairs: seq<Pair>): nat {
    if pairs == [] then 0 else (if pairs[0].baselinePassed then 1 else 0) + BaselinePasses(pairs[1..])
  }

  function ComparePasses(pairs: seq<Pair>): nat {
    if pairs == [] then 0 else (if pairs[0].comparePassed then 1 else 0) + ComparePasses(pairs[1..])
  }

  /** What the aggregate hands to the test. */
  function TestOf(pairs: seq<Pair>): Option<real> {
    PValue(CountDelta(pairs, -1), CountDelta(pairs, 1))
  }

  /** The two counts differ by the difference in passes, and every pair is counted once. */
  lemma {:induction false} CountsAndPasses(pairs: seq<Pair>)
    ensures CountDelta(pairs, 1) - CountDelta(pairs, -1) == ComparePasses(pairs) - BaselinePasses(pairs)
    ensures CountDelta(pairs, 1) + CountDelta(pairs, -1) + CountDelta(pairs, 0) == |pairs|
    ensures CountDelta(pairs, 0) == |pairs| <==> forall p <- pairs :: p.baselinePassed == p.comparePassed
  {
    if pairs != [] {
      CountsAndPasses(pairs[1..]);
      assert pairs == [pairs[0]] + pairs[1..];
    }
  }

  /** No test exactly when no pair changed; a p-value of one exactly when the passes differ by at most one. */
  lemma TestReadsPasses(pairs: seq<Pair>)
    ensures TestOf(pairs).None? <==> forall p <- pairs :: p.baselinePassed == p.comparePassed
    ensures TestOf(pairs).Some? ==>
              (TestOf(pairs).value == 1.0 <==> Abs(ComparePasses(pairs) - BaselinePasses(pairs)) <= 1)
  {
    CountsAndPasses(pairs);
    PValueProperties(CountDelta(pairs, -1), CountDelta(pairs, 1));
  }

  // ------------------------------------------------------------------ pairing

  datatype Key = Key(item: string, repeat: int)
  datatype Attempt = Attempt(key: Key, group: string, ok: bool, passed: bool)

  type Grouped = map<Key, map<string, Attempt>>

  /** The last row given for an item, repeat and group. */
  function Last(rows: seq<Attempt>, k: Key, group: string): Option<Attempt> {
    if rows == [] then None
    else
      var r := rows[|rows| - 1];
      if r.key == k && r.group == group then Some(r) else Last(rows[..|rows| - 1], k, group)
  }

  predicate Seen(rows: seq<Attempt>, k: Key) {
    exists i | 0 <= i < |rows| :: rows[i].key == k
  }

  /** The table entry, absent or present, agrees with the rows read. */
  predicate Holds(grouped: Grouped, rows: seq<Attempt>, k: Key, g: string) {
    Last(rows, k, g) == if k in grouped && g in grouped[k] then Some(grouped[k][g]) else None
  }

  ghost predicate GroupsRows(grouped: Grouped, rows: seq<Attempt>) {
    (forall k :: k in grouped <==> Seen(rows, k)) && (forall k, g :: Holds(grouped, rows, k, g))
  }

  function Put(grouped: Grouped, row: Attempt): Grouped {
    var slots := if row.key in grouped then grouped[row.key] else map[];
    grouped[row.key := slots[row.group := row]]
  }

  /** Fills the table row by row, later rows over earlier ones. */
  method Group(rows: seq<Attempt>) returns (grouped: Grouped)
    ensures GroupsRows(grouped, rows)
  {
    hide GroupsRows, Put;
    grouped := map[];
    NothingGrouped(rows);
    for n := 0 to |rows|
      invariant GroupsRows(grouped, rows[..n])
    {
      GroupOneMore(grouped, rows, n);
      grouped := Put(grouped, rows[n]);
    }
    assert rows[..|rows|] == rows;
  }

  lemma NothingGrouped(rows: seq<Attempt>)
    ensures GroupsRows(map[], rows[..0])
  {
  }

  lemma GroupOneMore(grouped: Grouped, rows: seq<Attempt>, n: nat)
    requires n < |rows| && GroupsRows(grouped, rows[..n])
    ensures GroupsRows(Put(grouped, rows[n]), rows[..n + 1])
  {
    assert rows[..n + 1][..n] == rows[..n];
    var after, more := Put(grouped, rows[n]), rows[..n + 1];
    forall k
      ensures k in after <==> Seen(more, k)
    {
      SeenOneMore(rows, n, k);
    }
    forall k, g
      ensures Holds(after, more, k, g)
    {
      assert Holds(grouped, rows[..n], k, g);
    }
  }

  lemma SeenOneMore(rows: seq<Attempt>, n: nat, k: Key)
    requires n < |rows|
    ensures Seen(rows[..n + 1], k) <==> Seen(rows[..n], k) || rows[n].key == k
  {
    assert forall i | 0 <= i < n :: rows[..n][i] == rows[..n + 1][i];
    assert rows[..n + 1][n] == rows[n];
  }

  lemma {:induction false} LastIsSeen(rows: seq<Attempt>, k: Key, g: string)
    requires Last(rows, k, g).Some?
    ensures Seen(rows, k) && Last(rows, k, g).value.key == k && Last(rows, k, g).value.group == g
  {
    var n := |rows| - 1;
    assert rows[..n + 1] == rows;
    SeenOneMore(rows, n, k);
    if rows[n].key != k || rows[n].group != g {
      LastIsSeen(rows[..n], k, g);
    }
  }

  /**
   Every item and repeat seen is paired or reported unpaired, never both and never dropped.
   The comparison is refused for unknown or equal groups, and when nothing can be paired.
   */
  method PairAttempts(rows: seq<Attempt>, groups: set<string>, baseline: string, compare: string)
    returns (refused: bool, pairs: map<Key, (Attempt, Attempt)>, unpaired: set<Key>)
    ensures !refused <==> baseline in groups && compare in groups && baseline != compare
                          && exists k :: Last(rows, k, baseline).Some? && Last(rows, k, compare).Some?
    ensures !refused ==> forall k :: k in pairs <==> Last(rows, k, baseline).Some? && Last(rows, k, compare).Some?
    ensures forall k | k in pairs :: Last(rows, k, baseline) == Some(pairs[k].0) && Last(rows, k, compare) == Some(pairs[k].1)
    ensures !refused ==> pairs.Keys !! unpaired && forall k :: k in pairs || k in unpaired <==> Seen(rows, k)
  {
    refused, pairs, unpaired := true, map[], {};
    if baseline !in groups || compare !in groups || baseline == compare {
      return;
    }
    var grouped := Group(rows);
    pairs := map k | k in grouped && baseline in grouped[k] && compare in grouped[k]
               :: (grouped[k][baseline], grouped[k][compare]);
    forall k
      ensures k in pairs <==> Last(rows, k, baseline).Some? && Last(rows, k, compare).Some?
      ensures k in pairs ==> Last(rows, k, baseline) == Some(pairs[k].0) && Last(rows, k, compare) == Some(pairs[k].1)
    {
      assert Holds(grouped, rows, k, baseline) && Holds(grouped, rows, k, compare);
    }
    unpaired := grouped.Keys - pairs.Keys;
    refused := pairs == map[];
    if !refused {
      ghost var k :| k in pairs;
      assert Last(rows, k, baseline).Some? && Last(rows, k, compare).Some?;
    }
  }
}
