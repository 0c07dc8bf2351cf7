/** Texts: their order by code points, as tuples and file lists are sorted, and white space around them. */
module Texts {
  /** Strictly before. */
  predicate Precedes(a: string, b: string)
    decreases |a|
  {
    b != "" && (a == "" || a[0] < b[0] || (a[0] == b[0] && Precedes(a[1..], b[1..])))
  }

  lemma {:induction false} PrecedesIrreflexive(a: string)
    ensures !Precedes(a, a)
  {
    if a != "" {
      PrecedesIrreflexive(a[1..]);
    }
  }

  lemma {:induction false} PrecedesTransitive(a: string, b: string, c: string)
    requires Precedes(a, b) && Precedes(b, c)
    ensures Precedes(a, c)
    decreases |a|
  {
    if a != "" && a[0] == b[0] == c[0] {
      PrecedesTransitive(a[1..], b[1..], c[1..]);
    }
  }

  lemma {:induction false} PrecedesTotal(a: string, b: string)
    ensures Precedes(a, b) || a == b || Precedes(b, a)
    decreases |a|
  {
    if a != "" && b != "" && a[0] == b[0] {
      PrecedesTotal(a[1..], b[1..]);
      assert a == [a[0]] + a[1..] && b == [b[0]] + b[1..];
    }
  }

  predicate IsSpace(c: char) {
    c in {' ', '\t', '\n', '\r', '\U{000B}', '\U{000C}', '\U{00A0}', '\U{3000}'}
  }

  predicate Blank(text: string) {
    forall c <- text :: IsSpace(c)
  }

  function Trim(text: string): string
    decreases |text|
  {
    if text == "" then ""
    else if IsSpace(text[0]) then Trim(text[1..])
    else if IsSpace(text[|text| - 1]) then Trim(text[..|text| - 1])
    else text
  }

  /** Trimming leaves nothing exactly of a blank text, and what it leaves has no space at either end. */
  lemma {:induction false} TrimmedText(text: string)
    ensures Trim(text) == "" <==> Blank(text)
    ensures Trim(text) != "" ==> !IsSpace(Trim(text)[0]) && !IsSpace(Trim(text)[|Trim(text)| - 1])
    ensures Trim(Trim(text)) == Trim(text)
    decreases |text|
  {
    if text != "" && IsSpace(text[0]) {
      TrimmedText(text[1..]);
      assert text == [text[0]] + text[1..];
    } else if text != "" && IsSpace(text[|text| - 1]) {
      TrimmedText(text[..|text| - 1]);
      assert text == text[..|text| - 1] + [text[|text| - 1]];
    }
  }

  /** A text is blanks, what trimming leaves of it, and blanks. */
  lemma {:induction false} TrimKeepsMiddle(text: string) returns (front: string, back: string)
    ensures text == front + Trim(text) + back && Blank(front) && Blank(back)
    decreases |text|
  {
    front, back := "", "";
    if text != "" && IsSpace(text[0]) {
      front, back := TrimKeepsMiddle(text[1..]);
      assert text == [text[0]] + text[1..];
      assert [text[0]] + (front + Trim(text) + back) == ([text[0]] + front) + Trim(text) + back;
      front := [text[0]] + front;
    } else if text != "" && IsSpace(text[|text| - 1]) {
      front, back := TrimKeepsMiddle(text[..|text| - 1]);
      assert text == text[..|text| - 1] + [text[|text| - 1]];
      assert (front + Trim(text) + back) + [text[|text| - 1]] == front + Trim(text) + (back + [text[|text| - 1]]);
      back := back + [text[|text| - 1]];
    } else {
      assert text == "" + Trim(text) + "";
    }
  }
}
