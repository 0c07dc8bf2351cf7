/**
 The conversation history handed to a model: completed question/answer pairs, each cut to a
 per-turn allowance, then the newest of them that fit a character budget.
 */
module HistoryWindow {
  import opened Texts
  import opened Arithmetic

  const TRUNCATION_MARKER := "\n…（历史摘录已截断）"
  const MARKER_LENGTH := 11

  datatype Role = User | Assistant | System

  datatype Message = Message(role: Role, content: string)

  /** A pair is known by the positions of its two messages; the texts may have been cut. */
  datatype Turn = Turn(user: nat, assistant: nat, question: string, answer: string) {
    function Chars(): nat {
      |question| + |answer|
    }
  }

  lemma MarkerLength()
    ensures |TRUNCATION_MARKER| == MARKER_LENGTH
  {
  }

  // ------------------------------------------------------------------ cutting

  /** Either the whole text, or the start of it followed by the marker. */
  predicate CutOf(shown: string, text: string, least: nat) {
    shown == text || exists n :: least <= n < |text| && ShownCut(shown, text, n)
  }

  predicate ShownCut(shown: string, text: string, n: nat) {
    n < |text| && shown == text[..n] + TRUNCATION_MARKER
  }

  function Truncate(text: string, limit: int): (r: (string, bool))
    ensures |r.0| <= Max(limit, 0)
    ensures r.1 <==> r.0 != text || |text| > Max(limit, 0)
  {
    if limit <= 0 then ("", text != "")
    else if |text| <= limit then (text, false)
    else if limit <= |TRUNCATION_MARKER| then (text[..limit], true)
    else (text[..limit - |TRUNCATION_MARKER|] + TRUNCATION_MARKER, true)
  }

  /** Cuts one pair to the allowance; the second cut of the question makes room for the least an answer is left. */
  function FitTurn(user: string, assistant: string, cap: nat): (string, string, bool) {
    if |user| + |assistant| <= cap then (user, assistant, false)
    else
      var (u, userCut) := Truncate(user, Min(|user|, Max(120, cap * 2 / 5)));
      var (a, assistantCut) := Truncate(assistant, Max(80, cap - |u|));
      if |u| + |a| > cap && a != "" then
        var (shorter, extraCut) := Truncate(u, Max(60, cap - |a|));
        (shorter, a, userCut || extraCut || assistantCut)
      else (u, a, userCut || assistantCut)
  }

  /** The exact bound: within any allowance of 140 or more, and never above 140 for a smaller one. */
  lemma FitBound(user: string, assistant: string, cap: nat)
    ensures |FitTurn(user, assistant, cap).0| + |FitTurn(user, assistant, cap).1| <= Max(cap, 140)
  {
    hide Truncate;
  }

  /** The bound is reached by every long enough pair. */
  lemma FitBoundReached(user: string, assistant: string, cap: nat)
    requires cap <= 140 && |user| >= 120 && |assistant| >= 80
    ensures |FitTurn(user, assistant, cap).0| + |FitTurn(user, assistant, cap).1| == 140
  {
    MarkerLength();
  }

  lemma {:induction false} CutLength(text: string, limit: int)
    ensures |Truncate(text, limit).0| == Min(|text|, Max(limit, 0))
  {
    MarkerLength();
  }

  /** A pair within its allowance is left whole. */
  lemma FitLeavesWhole(user: string, assistant: string, cap: nat)
    requires |user| + |assistant| <= cap
    ensures FitTurn(user, assistant, cap) == (user, assistant, false)
  {
  }

  /**
   A longer pair with an answer fills its allowance, unless the answer is so short that the
   question's own limit leaves some of it free; and neither text is cut below what it is always
   shown of it, 60 and 80 characters.  Without an answer only the question's limit counts.
   */
  lemma FitFillsAllowance(user: string, assistant: string, cap: nat)
    requires |user| + |assistant| > cap
    ensures var (u, a, _) := FitTurn(user, assistant, cap);
            var limited := Min(|user|, Max(120, cap * 2 / 5));
            |u| + |a| == if assistant == "" then limited
                         else Max(Min(cap, limited + |assistant|), Min(|user|, 60) + Min(|assistant|, 80))
  {
    var limited := Min(|user|, Max(120, cap * 2 / 5));
    CutLength(user, limited);
    var u := Truncate(user, limited).0;
    CutLength(assistant, Max(80, cap - |u|));
    var a := Truncate(assistant, Max(80, cap - |u|)).0;
    CutLength(u, Max(60, cap - |a|));
    hide Truncate;
  }

  lemma TruncateCuts(text: string, limit: nat)
    requires limit > MARKER_LENGTH
    ensures CutOf(Truncate(text, limit).0, text, limit - MARKER_LENGTH)
    ensures Truncate(text, limit).1 <==> |text| > limit
  {
    MarkerLength();
    if |text| > limit {
      assert ShownCut(Truncate(text, limit).0, text, limit - MARKER_LENGTH);
    }
  }

  /** Cutting a cut text again still shows the start of the original, with only one marker. */
  lemma CutAgain(text: string, first: nat, limit: nat)
    requires MARKER_LENGTH < limit <= first
    ensures Truncate(Truncate(text, first).0, limit).0 == Truncate(text, limit).0
    ensures Truncate(text, first).1 || Truncate(Truncate(text, first).0, limit).1 <==> |text| > limit || |text| > first
  {
    MarkerLength();
    if |text| > first && limit < first {
      var once := text[..first - MARKER_LENGTH] + TRUNCATION_MARKER;
      assert Truncate(text, first).0 == once;
      assert once[..limit - MARKER_LENGTH] == text[..limit - MARKER_LENGTH];
    }
  }

  /** The two cuts of a question amount to one, to an allowance of at least 60. */
  lemma FitIsOneCutEach(user: string, assistant: string, cap: nat) returns (forUser: nat, forAssistant: nat)
    ensures forUser >= 60 && forAssistant >= 80
    ensures FitTurn(user, assistant, cap).0 == Truncate(user, forUser).0
    ensures FitTurn(user, assistant, cap).1 == Truncate(assistant, forAssistant).0
    ensures FitTurn(user, assistant, cap).2 <==> |user| > forUser || |assistant| > forAssistant
  {
    hide Truncate;
    forUser, forAssistant := |user| + 60, |assistant| + 80;
    Uncut(user, forUser);
    Uncut(assistant, forAssistant);
    if |user| + |assistant| > cap {
      var limit := Max(120, cap * 2 / 5);
      SameCut(user, limit);
      var u := Truncate(user, limit).0;
      CutFlag(user, limit);
      forAssistant := Max(80, cap - |u|);
      CutFlag(assistant, forAssistant);
      var a := Truncate(assistant, forAssistant).0;
      forUser := limit;
      if |u| + |a| > cap && a != "" {
        var second := Max(60, cap - |a|);
        if second <= limit {
          MarkerLength();
          CutAgain(user, limit, second);
          forUser := second;
        } else {
          Uncut(u, second);
        }
      }
    }
  }

  lemma Uncut(text: string, limit: nat)
    requires limit >= |text|
    ensures Truncate(text, limit) == (text, false)
  {
  }

  lemma SameCut(text: string, limit: nat)
    ensures Truncate(text, Min(|text|, limit)) == Truncate(text, limit)
  {
  }

  lemma CutFlag(text: string, limit: nat)
    ensures Truncate(text, limit).1 <==> |text| > limit
    ensures |Truncate(text, limit).0| <= limit
  {
  }

  /** What a model sees of a pair is a start of each text, long enough to be read, and it is said when anything was cut. */
  lemma FitShowsStarts(user: string, assistant: string, cap: nat)
    ensures CutOf(FitTurn(user, assistant, cap).0, user, 60 - MARKER_LENGTH)
    ensures CutOf(FitTurn(user, assistant, cap).1, assistant, 80 - MARKER_LENGTH)
    ensures FitTurn(user, assistant, cap).2
            <==> FitTurn(user, assistant, cap).0 != user || FitTurn(user, assistant, cap).1 != assistant
  {
    hide FitTurn, CutOf, Truncate;
    var u, a := FitIsOneCutEach(user, assistant, cap);
    TruncateCuts(user, u);
    TruncateCuts(assistant, a);
    CutOfLess(Truncate(user, u).0, user, u - MARKER_LENGTH, 60 - MARKER_LENGTH);
    CutOfLess(Truncate(assistant, a).0, assistant, a - MARKER_LENGTH, 80 - MARKER_LENGTH);
  }

  lemma CutOfLess(shown: string, text: string, most: nat, least: nat)
    requires CutOf(shown, text, most) && least <= most
    ensures CutOf(shown, text, least)
  {
  }

  // ------------------------------------------------------------------ pairing

  predicate Replies(m: Message) {
    m.role == Assistant && !Blank(m.content)
  }

  /** A question and the first real answer after it, with no later question in between. */
  ghost predicate IsPair(rows: seq<Message>, i: nat, j: nat) {
    && i < j < |rows| && rows[i].role == User && Replies(rows[j])
    && forall k | i < k < j :: rows[k].role != User && !Replies(rows[k])
  }

  function Paired(rows: seq<Message>, i: nat, j: nat, cap: nat): Turn
    requires i < |rows| && j < |rows|
  {
    var (u, a, _) := FitTurn(rows[i].content, rows[j].content, cap);
    Turn(i, j, u, a)
  }

  /** The completed pairs among the first `n` messages, all of them, in order. */
  ghost predicate PairsOf(rows: seq<Message>, n: nat, cap: nat, pairs: seq<Turn>) {
    && n <= |rows|
    && (forall p <- pairs :: IsPair(rows, p.user, p.assistant) && p.assistant < n)
    && (forall p <- pairs :: p.user < |rows| && p.assistant < |rows| && p == Paired(rows, p.user, p.assistant, cap))
    && (forall i, j | 0 <= i < j < n && IsPair(rows, i, j) :: exists p <- pairs :: p.user == i && p.assistant == j)
    && (forall a, b | 0 <= a < b < |pairs| :: pairs[a].assistant < pairs[b].user)
  }

  method CollectPairs(rows: seq<Message>, cap: nat) returns (pairs: seq<Turn>)
    ensures PairsOf(rows, |rows|, cap, pairs)
  {
    pairs := [];
    var pending := -1;
    for n := 0 to |rows|
      invariant PairsOf(rows, n, cap, pairs)
      invariant -1 <= pending < n && PendingAt(rows, n, pending)
      invariant pending >= 0 ==> forall p <- pairs :: p.assistant < pending
    {
      if rows[n].role == User {
        NoPairEndsAt(rows, n, pending, cap, pairs);
        pending := n;
      } else if rows[n].role == Assistant && pending >= 0 && !Blank(rows[n].content) {
        var (u, a, _) := FitTurn(rows[pending].content, rows[n].content, cap);
        PairEndsAt(rows, n, pending, cap, pairs);
        pairs := pairs + [Turn(pending, n, u, a)];
        pending := -1;
      } else {
        NoPairEndsAt(rows, n, pending, cap, pairs);
      }
    }
  }

  /** The question still waiting for an answer before message `n`, or -1. */
  ghost predicate PendingAt(rows: seq<Message>, n: nat, pending: int)
    requires n <= |rows| && -1 <= pending < n
  {
    if pending == -1 then forall i | 0 <= i < n && rows[i].role == User :: exists k | i < k < n :: Replies(rows[k])
    else rows[pending].role == User && forall k | pending < k < n :: rows[k].role != User && !Replies(rows[k])
  }

  lemma NoPairEndsAt(rows: seq<Message>, n: nat, pending: int, cap: nat, pairs: seq<Turn>)
    requires n < |rows| && PairsOf(rows, n, cap, pairs) && -1 <= pending < n && PendingAt(rows, n, pending)
    requires !Replies(rows[n]) || pending == -1
    ensures PairsOf(rows, n + 1, cap, pairs)
  {
    forall i | 0 <= i < n
      ensures !IsPair(rows, i, n)
    {
      if pending == -1 && rows[i].role == User {
        var k :| i < k < n && Replies(rows[k]);
      }
    }
  }

  lemma PairEndsAt(rows: seq<Message>, n: nat, pending: nat, cap: nat, pairs: seq<Turn>)
    requires n < |rows| && PairsOf(rows, n, cap, pairs) && pending < n && PendingAt(rows, n, pending)
    requires Replies(rows[n]) && forall p <- pairs :: p.assistant < pending
    ensures PairsOf(rows, n + 1, cap, pairs + [Paired(rows, pending, n, cap)])
  {
    var last := Paired(rows, pending, n, cap);
    var more := pairs + [last];
    assert last in more && IsPair(rows, pending, n);
    forall i, j | 0 <= i < j < n + 1 && IsPair(rows, i, j)
      ensures exists p <- more :: p.user == i && p.assistant == j
    {
      if j < n {
        var p :| p in pairs && p.user == i && p.assistant == j;
        assert p in more;
      }
    }
  }

  predicate Ascending(turns: seq<Turn>) {
    forall a, b | 0 <= a < b < |turns| :: turns[a].assistant < turns[b].assistant
  }

  predicate Within(a: seq<Turn>, b: seq<Turn>) {
    forall p <- a :: p in b
  }

  lemma SameFirst(a: seq<Turn>, b: seq<Turn>)
    requires Ascending(a) && Ascending(b) && Within(a, b) && Within(b, a) && (a != [] || b != [])
    ensures a != [] && b != [] && a[0] == b[0] && Within(a[1..], b[1..])
  {
    assert (a != [] ==> a[0] in b) && (b != [] ==> b[0] in a);
    var i :| 0 <= i < |b| && b[i] == a[0];
    var j :| 0 <= j < |a| && a[j] == b[0];
    forall p | p in a[1..]
      ensures p in b[1..]
    {
      var k :| 1 <= k < |a| && a[k] == p;
      assert p in b;
      var m :| 0 <= m < |b| && b[m] == p;
      assert b[1..][m - 1] == p;
    }
  }

  lemma {:induction false} AscendingDetermined(a: seq<Turn>, b: seq<Turn>)
    requires Ascending(a) && Ascending(b) && Within(a, b) && Within(b, a)
    ensures a == b
  {
    if a != [] || b != [] {
      SameFirst(a, b);
      SameFirst(b, a);
      AscendingDetermined(a[1..], b[1..]);
      assert a == [a[0]] + a[1..] && b == [b[0]] + b[1..];
    }
  }

  lemma PairsWithin(rows: seq<Message>, n: nat, cap: nat, a: seq<Turn>, b: seq<Turn>)
    requires PairsOf(rows, n, cap, a) && PairsOf(rows, n, cap, b)
    ensures Within(a, b) && Ascending(a)
  {
    forall p | p in a
      ensures p in b
    {
      assert IsPair(rows, p.user, p.assistant);
    }
  }

  /** The description leaves no choice: the pairs are determined by the messages. */
  lemma PairsDetermined(rows: seq<Message>, n: nat, cap: nat, a: seq<Turn>, b: seq<Turn>)
    requires PairsOf(rows, n, cap, a) && PairsOf(rows, n, cap, b)
    ensures a == b
  {
    PairsWithin(rows, n, cap, a, b);
    PairsWithin(rows, n, cap, b, a);
    AscendingDetermined(a, b);
  }

  // ------------------------------------------------------------------ the window

  function Total(turns: seq<Turn>): (n: nat) {
    if turns == [] then 0 else turns[0].Chars() + Total(turns[1..])
  }

  /** The newest pair is cut again when it alone is over the budget. */
  function Refit(t: Turn, budget: nat): Turn {
    if t.Chars() <= budget then t
    else
      var (u, a, _) := FitTurn(t.question, t.answer, budget);
      t.(question := u, answer := a)
  }

  /** The last `k` pairs as they would be handed over. */
  function Newest(pairs: seq<Turn>, k: nat, budget: nat): (turns: seq<Turn>)
    requires k <= |pairs|
    ensures |turns| == k
  {
    if k == 0 then []
    else pairs[|pairs| - k..|pairs| - 1] + [Refit(pairs[|pairs| - 1], budget)]
  }

  lemma {:induction false} TotalAppend(a: seq<Turn>, b: seq<Turn>)
    ensures Total(a + b) == Total(a) + Total(b)
  {
    if a == [] {
      assert a + b == b;
    } else {
      assert (a + b)[1..] == a[1..] + b;
      TotalAppend(a[1..], b);
    }
  }

  lemma OneMore(pairs: seq<Turn>, k: nat, budget: nat)
    requires 1 <= k < |pairs|
    ensures Newest(pairs, k + 1, budget) == [pairs[|pairs| - k - 1]] + Newest(pairs, k, budget)
    ensures Total(Newest(pairs, k + 1, budget)) == pairs[|pairs| - k - 1].Chars() + Total(Newest(pairs, k, budget))
  {
    var more := Newest(pairs, k + 1, budget);
    assert more == [pairs[|pairs| - k - 1]] + Newest(pairs, k, budget);
    assert more[1..] == Newest(pairs, k, budget);
  }

  lemma {:induction false} MoreIsLonger(pairs: seq<Turn>, k: nat, m: nat, budget: nat)
    requires 1 <= k <= m <= |pairs|
    ensures Total(Newest(pairs, k, budget)) <= Total(Newest(pairs, m, budget))
  {
    hide Newest, Total;
    if k < m {
      OneMore(pairs, m - 1, budget);
      MoreIsLonger(pairs, k, m - 1, budget);
    }
  }

  lemma NewestAlone(pairs: seq<Turn>, budget: nat)
    requires pairs != []
    ensures Newest(pairs, 1, budget) == [Refit(pairs[|pairs| - 1], budget)]
    ensures Total(Newest(pairs, 1, budget)) == Refit(pairs[|pairs| - 1], budget).Chars() <= Max(budget, 140)
    ensures pairs[|pairs| - 1].Chars() <= budget ==> Total(Newest(pairs, 1, budget)) <= budget
  {
    hide FitTurn;
    var last := pairs[|pairs| - 1];
    FitBound(last.question, last.answer, budget);
    assert Newest(pairs, 1, budget) == [Refit(last, budget)];
    assert Total([Refit(last, budget)]) == Refit(last, budget).Chars();
  }

  /** The window is the longest run of newest pairs within both limits; the newest pair is always in it. */
  ghost predicate IsWindow(pairs: seq<Turn>, window: seq<Turn>, maxTurns: nat, budget: nat) {
    && |window| <= |pairs| && |window| <= maxTurns && window == Newest(pairs, |window|, budget)
    && (|window| == 0 ==> pairs == [] || maxTurns == 0)
    && (|window| > 1 ==> Total(window) <= budget)
    && forall m | |window| < m <= |pairs| && m <= maxTurns :: Total(Newest(pairs, m, budget)) > budget
  }

  function Reversed(turns: seq<Turn>): (r: seq<Turn>)
    ensures |r| == |turns| && forall i | 0 <= i < |r| :: r[i] == turns[|turns| - 1 - i]
  {
    seq(|turns|, i requires 0 <= i < |turns| => turns[|turns| - 1 - i])
  }

  method RefitNewest(turn: Turn, budget: nat) returns (fitted: Turn, cut: bool)
    ensures fitted == Refit(turn, budget)
    ensures cut <==> fitted != turn
  {
    fitted, cut := turn, false;
    if turn.Chars() > budget {
      var (u, a, trimmed) := FitTurn(turn.question, turn.answer, budget);
      FitShowsStarts(turn.question, turn.answer, budget);
      fitted, cut := turn.(question := u, answer := a), trimmed;
    }
  }

  /** Walks the pairs from the newest back, and stops at the first one over a limit. */
  method SelectWindow(pairs: seq<Turn>, maxTurns: nat, budget: nat) returns (window: seq<Turn>, chars: nat, dropped: nat, cut: bool)
    ensures IsWindow(pairs, window, maxTurns, budget)
    ensures chars == Total(window) <= Max(budget, 140)
    ensures dropped + |window| == |pairs|
    ensures cut <==> window != [] && window[|window| - 1] != pairs[|pairs| - 1]
  {
    hide Newest, Total, Refit, FitTurn;
    var selected: seq<Turn> := [];
    chars, cut := 0, false;
    NoneSelected(pairs, budget);
    var i := |pairs|;
    while i > 0
      invariant 0 <= i <= |pairs| && |selected| == |pairs| - i <= maxTurns
      invariant Reversed(selected) == Newest(pairs, |selected|, budget)
      invariant chars == Total(Reversed(selected)) <= Max(budget, 140)
      invariant |selected| > 1 ==> chars <= budget
      invariant cut <==> selected != [] && selected[0] != pairs[|pairs| - 1]
    {
      if |selected| >= maxTurns {
        break;
      }
      var turn := pairs[i - 1];
      if selected == [] {
        turn, cut := RefitNewest(turn, budget);
        NewestAlone(pairs, budget);
        assert Reversed([turn]) == [turn];
      } else {
        OneMore(pairs, |selected|, budget);
        if chars + turn.Chars() > budget {
          break;
        }
        assert Reversed(selected + [turn]) == [turn] + Reversed(selected);
      }
      selected := selected + [turn];
      chars := chars + turn.Chars();
      i := i - 1;
    }
    window := Reversed(selected);
    dropped := |pairs| - |selected|;
    forall m | |window| < m <= |pairs| && m <= maxTurns
      ensures Total(Newest(pairs, m, budget)) > budget
    {
      MoreIsLonger(pairs, |window| + 1, m, budget);
    }
  }

  lemma NoneSelected(pairs: seq<Turn>, budget: nat)
    ensures Reversed([]) == Newest(pairs, 0, budget) && Total(Reversed([])) == 0
  {
  }

  /** One bounded snapshot of a conversation's messages, read in the order of their ids. */
  method LoadHistory(rows: seq<Message>, enabled: bool, maxTurns: nat, budget: nat, cap: nat)
    returns (window: seq<Turn>, chars: nat, dropped: nat, ghost pairs: seq<Turn>)
    ensures PairsOf(rows, |rows|, cap, pairs)
    ensures !enabled || maxTurns == 0 || budget == 0 ==> window == [] && dropped == 0
    ensures enabled && maxTurns > 0 && budget > 0 ==> IsWindow(pairs, window, maxTurns, budget) && dropped == |pairs| - |window|
    ensures chars == Total(window) <= Max(budget, 140)
  {
    hide PairsOf;
    window, chars, dropped := [], 0, 0;
    var collected := CollectPairs(rows, cap);
    pairs := collected;
    if enabled && maxTurns > 0 && budget > 0 {
      var cut;
      window, chars, dropped, cut := SelectWindow(collected, maxTurns, budget);
    }
  }

  /** The window is determined too, so it depends on nothing but the messages and the limits. */
  lemma WindowDetermined(pairs: seq<Turn>, a: seq<Turn>, b: seq<Turn>, maxTurns: nat, budget: nat)
    requires IsWindow(pairs, a, maxTurns, budget) && IsWindow(pairs, b, maxTurns, budget)
    ensures a == b
  {
    hide Newest, Total;
  }
}
