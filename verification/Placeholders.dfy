/**
 Rewriting `?` parameters to the `%s` style of a driver, which reads `%%` as a percent sign and
 `%s` as a parameter.
 */
module Placeholders {
  import opened Wrappers

  datatype Token = Plain(c: char) | Parameter

  type Quote = Option<char>

  predicate IsQuote(c: char) {
    c == '\'' || c == '"'
  }

  /** The quotation one is in after a character. A percent sign never changes it. */
  function After(quote: Quote, c: char): Quote {
    if quote.Some? then (if c == quote.value && c != '%' then None else quote)
    else if IsQuote(c) then Some(c)
    else None
  }

  function Piece(quote: Quote, c: char): string {
    if c == '%' then "%%"
    else if quote.None? && c == '?' then "%s"
    else [c]
  }

  function Translate(sql: string, quote: Quote): string {
    if sql == "" then "" else Piece(quote, sql[0]) + Translate(sql[1..], After(quote, sql[0]))
  }

  /** The quotation open before position `i`. */
  function QuoteAt(sql: string, i: nat): Quote
    requires i <= |sql|
  {
    if i == 0 then None else After(QuoteAt(sql, i - 1), sql[i - 1])
  }

  lemma TranslateStep(sql: string, i: nat)
    requires i < |sql|
    ensures Translate(sql[i..], QuoteAt(sql, i))
            == Piece(QuoteAt(sql, i), sql[i]) + Translate(sql[i + 1..], QuoteAt(sql, i + 1))
  {
    assert sql[i..][1..] == sql[i + 1..];
  }

  /** The scan, one character at a time. */
  method Convert(sql: string) returns (out: string)
    ensures out == Translate(sql, None)
  {
    out := "";
    var quote: Quote := None;
    assert sql[0..] == sql;
    for i := 0 to |sql|
      invariant quote == QuoteAt(sql, i)
      invariant out + Translate(sql[i..], quote) == Translate(sql, None)
    {
      var symbol := sql[i];
      hide Translate;
      TranslateStep(sql, i);
      ghost var before, rest: string := quote, Translate(sql[i + 1..], After(quote, symbol));
      assert out + (Piece(quote, symbol) + rest) == out + Piece(quote, symbol) + rest;
      if symbol == '%' {
        out := out + "%%";
      } else if quote.Some? {
        if symbol == quote.value {
          quote := None;
        }
        out := out + [symbol];
      } else if symbol == '\'' || symbol == '"' {
        quote := Some(symbol);
        out := out + [symbol];
      } else if symbol == '?' {
        out := out + "%s";
      } else {
        out := out + [symbol];
      }
      assert quote == After(before, symbol);
    }
  }

  /** Inside a quotation means after a quote that opened one and before the next of its kind. */
  lemma {:induction false} InsideMeansOpened(sql: string, i: nat, q: char)
    requires i <= |sql|
    ensures QuoteAt(sql, i) == Some(q)
            <==> exists j :: Opens(sql, j, i, q)
  {
    if i > 0 {
      InsideMeansOpened(sql, i - 1, q);
      if QuoteAt(sql, i) == Some(q) {
        if QuoteAt(sql, i - 1) == Some(q) {
          var j :| Opens(sql, j, i - 1, q);
          assert Opens(sql, j, i, q);
        } else {
          assert Opens(sql, i - 1, i, q);
        }
      }
      forall j: nat | Opens(sql, j, i, q)
        ensures QuoteAt(sql, i) == Some(q)
      {
        if j < i - 1 {
          assert Opens(sql, j, i - 1, q);
        }
      }
    }
  }

  predicate Opens(sql: string, j: nat, i: nat, q: char) {
    && j < i <= |sql| && IsQuote(q) && sql[j] == q && QuoteAt(sql, j).None?
    && forall k | j < k < i :: sql[k] != q
  }

  // ------------------------------------------------------------------ the driver

  /** How the driver reads a query text; any other use of a percent sign is an error. */
  function ReadBack(text: string): Option<seq<Token>>
    decreases |text|
  {
    if text == "" then Some([])
    else if text[0] == '%' then
      if |text| > 1 && text[1] == '%' then Prepend(Plain('%'), ReadBack(text[2..]))
      else if |text| > 1 && text[1] == 's' then Prepend(Parameter, ReadBack(text[2..]))
      else None
    else Prepend(Plain(text[0]), ReadBack(text[1..]))
  }

  function Prepend(t: Token, rest: Option<seq<Token>>): Option<seq<Token>> {
    if rest.None? then None else Some([t] + rest.value)
  }

  /** What the original text means: its characters, with the question marks outside quotations as parameters. */
  function Meaning(sql: string): (tokens: seq<Token>)
    ensures |tokens| == |sql|
    ensures forall i | 0 <= i < |sql| ::
              tokens[i] == if sql[i] == '?' && QuoteAt(sql, i).None? then Parameter else Plain(sql[i])
  {
    seq(|sql|, i requires 0 <= i < |sql| =>
      if sql[i] == '?' && QuoteAt(sql, i).None? then Parameter else Plain(sql[i]))
  }

  lemma ReadPiece(quote: Quote, c: char, rest: string)
    ensures ReadBack(Piece(quote, c) + rest)
            == Prepend(if c == '?' && quote.None? then Parameter else Plain(c), ReadBack(rest))
  {
    var text := Piece(quote, c) + rest;
    assert text[|Piece(quote, c)|..] == rest;
  }

  lemma {:induction false} ReadFrom(sql: string, i: nat)
    requires i <= |sql|
    ensures ReadBack(Translate(sql[i..], QuoteAt(sql, i))) == Some(Meaning(sql)[i..])
    decreases |sql| - i
  {
    if i < |sql| {
      hide ReadBack, Piece, Meaning;
      ReadFrom(sql, i + 1);
      TranslateStep(sql, i);
      ReadPiece(QuoteAt(sql, i), sql[i], Translate(sql[i + 1..], QuoteAt(sql, i + 1)));
      assert Meaning(sql)[i..] == [Meaning(sql)[i]] + Meaning(sql)[i + 1..];
    } else {
      assert sql[i..] == "" && Meaning(sql)[i..] == [];
    }
  }

  /** The driver reads the translated text as the original, with a parameter for each question mark outside quotations. */
  lemma ReadsBackAsMeant(sql: string)
    ensures ReadBack(Translate(sql, None)) == Some(Meaning(sql))
  {
    ReadFrom(sql, 0);
    assert sql[0..] == sql && Meaning(sql)[0..] == Meaning(sql);
  }

  function Shown(tokens: seq<Token>): (text: string)
    ensures |text| == |tokens|
  {
    seq(|tokens|, i requires 0 <= i < |tokens| => if tokens[i].Parameter? then '?' else tokens[i].c)
  }

  /** Nothing of the original is lost: writing each parameter as a question mark gives it back. */
  lemma RecoversTheOriginal(sql: string)
    ensures ReadBack(Translate(sql, None)).Some? && Shown(ReadBack(Translate(sql, None)).value) == sql
  {
    ReadsBackAsMeant(sql);
    assert forall i | 0 <= i < |sql| :: Shown(Meaning(sql))[i] == sql[i];
  }
}
