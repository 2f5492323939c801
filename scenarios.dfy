/** Concrete runs of the statement splitter, the batch loop and the
    current-line button, derived from the general lemmas: a buffer with an
    empty statement in it, a batch whose middle statement fails, and the
    current-line button on a filled and on a blank line.
 */
module Scenarios {
  import opened JsString
  import opened Statements
  import opened Host
  import opened Webview

  /** Shaped like "SELECT 1; ; SELECT 2;": two statements, a blank one
      between the separators and an empty tail; only the two are kept,
      without the whitespace before the second. */
  lemma BlankSegmentsDropped(s1: String, s2: String, blank: String, indent: String)
    requires s1 != [] && IsTrimmed(s1) && ';' !in s1
    requires s2 != [] && IsTrimmed(s2) && ';' !in s2
    requires AllWhitespace(blank) && AllWhitespace(indent)
    ensures SplitStatements(s1 + [';'] + blank + [';'] + indent + s2 + [';']) == [s1, s2]
  {
    Segments(s1, blank, indent, s2);
    assert SplitStatements(s1) == [s1] by { Alone(s1); }
    assert SplitStatements(indent + s2) == [s2] by { Indented(indent, s2); }
    assert SplitStatements(blank) == [] by { BlankTextHasNoStatements(blank); }
    assert SplitStatements([]) == [] by { BlankTextHasNoStatements([]); }
    ThreeSeparators(s1, blank, indent + s2, [], [s1], [s2]);
  }

  lemma Segments(a: String, b: String, c: String, d: String)
    ensures a + [';'] + b + [';'] + c + d + [';'] == a + [';'] + (b + [';'] + ((c + d) + [';'] + []))
  {
  }

  lemma Alone(st: String)
    requires st != [] && IsTrimmed(st) && ';' !in st
    ensures SplitStatements(st) == [st]
  {
    assert [] + st + [] == st;
    StatementAlone([], st, []);
  }

  lemma Indented(indent: String, st: String)
    requires AllWhitespace(indent)
    requires st != [] && IsTrimmed(st) && ';' !in st
    ensures SplitStatements(indent + st) == [st]
  {
    assert ';' !in indent by {
      forall i | 0 <= i < |indent| ensures indent[i] != ';' { assert IsWhitespace(indent[i]); }
    }
    assert indent + st + [] == indent + st;
    StatementAlone(indent, st, []);
  }

  /** Four segments of which the second and fourth hold no statement. */
  lemma ThreeSeparators(a: String, b: String, c: String, d: String, sa: seq<String>, sc: seq<String>)
    requires SplitStatements(a) == sa && SplitStatements(b) == []
    requires SplitStatements(c) == sc && SplitStatements(d) == []
    ensures SplitStatements(a + [';'] + (b + [';'] + (c + [';'] + d))) == sa + sc
  {
    JoinStatements(c, d, sc, []);
    JoinStatements(b, c + [';'] + d, [], sc);
    JoinStatements(a, b + [';'] + (c + [';'] + d), sa, sc);
  }

  lemma JoinStatements(a: String, b: String, sa: seq<String>, sb: seq<String>)
    requires SplitStatements(a) == sa && SplitStatements(b) == sb
    ensures SplitStatements(a + [';'] + b) == sa + sb
  {
    SplitStatementsAppend(a, b);
  }

  /** A piece without ';' made of a statement and whitespace around it. */
  lemma StatementAlone(pre: String, st: String, post: String)
    requires AllWhitespace(pre) && AllWhitespace(post) && IsTrimmed(st) && st != []
    requires ';' !in pre + st + post
    ensures SplitStatements(pre + st + post) == [st]
  {
    SplitStatementsSingle(pre + st + post);
    TrimPadded(pre, st, post);
    TrimSpec(pre + st + post);
  }

  /** Three statements whose second one fails still post three messages:
      results for the first and third, and for the second an error whose
      text names it. */
  lemma MiddleFailureDoesNotStopTheBatch(server: Server, history: seq<String>,
                                         s1: String, s2: String, s3: String, m: String)
    requires server(history, s1).Answer?
    requires server(history + [s1], s2) == Failure(m)
    requires server(history + [s1, s2], s3).Answer?
    ensures var replies := BatchReplies(server, history, [s1, s2, s3]);
      |replies| == 3 &&
      replies[0] == QueryResult(s1, server(history, s1).payload) &&
      replies[1] == QueryError(FailureText(s2, m)) &&
      replies[2] == QueryResult(s3, server(history + [s1, s2], s3).payload)
  {
    var stmts := [s1, s2, s3];
    BatchRepliesAt(server, history, stmts);
    assert history + stmts[..0] == history;
    assert history + stmts[..1] == history + [s1];
    assert history + stmts[..2] == history + [s1, s2];
  }

  /** Shaped like "SELECT 1;\nSELECT 2;\n" with the cursor anywhere in
      the second line: that line is the one sent for confirmation. */
  lemma CursorOnSecondLine(l1: String, l2: String, cursor: nat)
    requires '\n' !in l1 && '\n' !in l2
    requires |l1| + 1 <= cursor <= |l1| + 1 + |l2|
    ensures CurrentLine(l1 + "\n" + l2 + "\n", cursor) == l2
  {
    var text := l1 + "\n" + l2 + "\n";
    var lineStart, lineEnd := |l1| + 1, |l1| + 1 + |l2|;
    assert text[lineStart..lineEnd] == l2;
    assert text[lineStart - 1] == '\n' && text[lineEnd] == '\n';
    LineIsSplitPiece(text, cursor, lineStart, lineEnd);
  }

  /** Shaped like "SELECT 1;\n\nSELECT 2;" with the cursor on the empty
      line: the current line is empty, so the button only warns. */
  lemma CursorOnBlankLine(l1: String, l2: String)
    requires '\n' !in l1
    ensures CurrentLine(l1 + "\n\n" + l2, |l1| + 1) == []
  {
    var text := l1 + "\n\n" + l2;
    var at := |l1| + 1;
    assert text[at - 1] == '\n' && text[at] == '\n';
    assert text[at..at] == [];
    LineIsSplitPiece(text, at, at, at);
  }
}
