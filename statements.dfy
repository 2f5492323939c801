/** Splitting an editor buffer into SQL statements, as both the webview and
    the extension host do it: split on ';', trim every piece, keep the
    pieces that are not empty. A ';' inside a string literal or a comment
    is a separator too; that naive behaviour is kept.
 */
module Statements {
  import opened JsString

  /** The trimmed pieces that are not empty, in their original order. */
  function Statements(pieces: seq<String>): seq<String>
    decreases |pieces|
  {
    if pieces == [] then []
    else
      var t := Trim(pieces[0]);
      (if t == [] then [] else [t]) + Statements(pieces[1..])
  }

  /** Every statement is non-empty and is its own trim, and a character
      that no piece holds is in no statement. */
  lemma {:induction false} StatementsClean(pieces: seq<String>, c: char)
    requires forall p :: p in pieces ==> c !in p
    ensures forall st :: st in Statements(pieces) ==> st != [] && Trim(st) == st && c !in st
    decreases |pieces|
  {
    if pieces != [] {
      assert pieces[0] in pieces;
      assert forall p :: p in pieces[1..] ==> p in pieces;
      StatementsClean(pieces[1..], c);
      var t := Trim(pieces[0]);
      TrimSpec(pieces[0]);
      TrimIdempotent(pieces[0]);
    }
  }

  /** The statements of a buffer, in buffer order. */
  function SplitStatements(text: String): seq<String> {
    Statements(Split(text, ';'))
  }

  /** Every statement is non-empty, is its own trim (no leading or
      trailing whitespace) and holds no ';'. */
  lemma SplitStatementsClean(text: String)
    ensures forall st :: st in SplitStatements(text) ==> st != [] && Trim(st) == st && ';' !in st
  {
    SplitPiecesAvoid(text, ';');
    StatementsClean(Split(text, ';'), ';');
  }

  /** How many pieces are not blank. */
  function CountNonBlank(pieces: seq<String>): nat
    decreases |pieces|
  {
    if pieces == [] then 0
    else (if AllWhitespace(pieces[0]) then 0 else 1) + CountNonBlank(pieces[1..])
  }

  /** One statement per segment between separators that is not blank. */
  lemma {:induction false} StatementCount(text: String)
    ensures |SplitStatements(text)| == CountNonBlank(Split(text, ';'))
  {
    StatementsCount(Split(text, ';'));
  }

  lemma {:induction false} StatementsCount(pieces: seq<String>)
    ensures |Statements(pieces)| == CountNonBlank(pieces)
    decreases |pieces|
  {
    if pieces != [] {
      StatementsCount(pieces[1..]);
      TrimSpec(pieces[0]);
    }
  }

  /** Statements of a concatenation of piece lists. */
  lemma {:induction false} StatementsAppend(ps: seq<String>, qs: seq<String>)
    ensures Statements(ps + qs) == Statements(ps) + Statements(qs)
    decreases |ps|
  {
    if ps == [] {
      assert ps + qs == qs;
    } else {
      assert (ps + qs)[1..] == ps[1..] + qs;
      StatementsAppend(ps[1..], qs);
    }
  }

  /** Order is preserved: the statements left of a separator come first,
      and the two sides are split independently. */
  lemma SplitStatementsAppend(a: String, b: String)
    ensures SplitStatements(a + [';'] + b) == SplitStatements(a) + SplitStatements(b)
  {
    SplitConcat(a, b, ';');
    StatementsAppend(Split(a, ';'), Split(b, ';'));
  }

  /** A text without ';' is one statement, its trim, unless it is blank.
      With SplitStatementsAppend this determines SplitStatements on every
      text. */
  lemma SplitStatementsSingle(s: String)
    requires ';' !in s
    ensures SplitStatements(s) == if AllWhitespace(s) then [] else [Trim(s)]
  {
    SplitWithoutSeparator(s, ';');
    assert [s][1..] == [];
    assert Statements([s]) == (if Trim(s) == [] then [] else [Trim(s)]) + Statements([]);
    TrimSpec(s);
  }

  /** A blank buffer has no statements: the webview's own check that the
      trimmed buffer is non-empty changes nothing. */
  lemma BlankTextHasNoStatements(text: String)
    requires AllWhitespace(text)
    ensures SplitStatements(text) == []
  {
    forall i | 0 <= i < |text| ensures text[i] != ';' {
      assert IsWhitespace(text[i]);
    }
    SplitStatementsSingle(text);
  }

  /** Splitting a statement again yields that statement alone. */
  lemma ResplitStatement(text: String, st: String)
    requires st in SplitStatements(text)
    ensures SplitStatements(st) == [st]
  {
    SplitStatementsClean(text);
    SplitStatementsSingle(st);
    TrimSpec(st);
  }

  /** What the extension host runs for a list of messages, each carrying
      one text that it splits again. */
  function SplitEach(texts: seq<String>): seq<String>
    decreases |texts|
  {
    if texts == [] then [] else SplitStatements(texts[0]) + SplitEach(texts[1..])
  }

  /** Splitting every statement again and concatenating the results gives
      back the statements: the second split the extension host applies to
      each statement the webview sends does not change what runs. */
  lemma ResplitAll(text: String)
    ensures SplitEach(SplitStatements(text)) == SplitStatements(text)
  {
    var sts := SplitStatements(text);
    forall st | st in sts ensures SplitStatements(st) == [st] {
      ResplitStatement(text, st);
    }
    ResplitEach(sts);
  }

  lemma {:induction false} ResplitEach(sts: seq<String>)
    requires forall st :: st in sts ==> SplitStatements(st) == [st]
    ensures SplitEach(sts) == sts
    decreases |sts|
  {
    if sts != [] {
      assert sts[0] in sts;
      assert forall st :: st in sts[1..] ==> st in sts;
      ResplitEach(sts[1..]);
      assert sts == [sts[0]] + sts[1..];
    }
  }
}
