/** The script that runs inside the webview panel: the "execute all"
    button, which sends every statement of the editor buffer to the host as
    a message of its own, and the "execute current line" button, which finds
    the line under the cursor and asks the host to confirm and run it.
 */
module Webview {
  import opened JsString
  import opened Statements
  import opened Host

  /** What the current-line button does: post a message to the host, or
      show a warning in the output area. */
  datatype LineAction = Post(request: Request) | Warn(message: String)

  const NoQueryWarning: String := "No query is selected on the current line."

  /** executeAllQueries: one executeQuery message per statement of the
      buffer, in buffer order; a blank buffer posts nothing. */
  method ExecuteAllQueries(text: String) returns (posted: seq<Request>)
    ensures |posted| == |SplitStatements(text)|
    ensures forall i :: 0 <= i < |posted| ==> posted[i] == ExecuteQuery(SplitStatements(text)[i])
    ensures AllWhitespace(text) ==> posted == []
  {
    TrimSpec(text);
    posted := [];
    if |Trim(text)| > 0 {
      var queries := SplitStatements(text);
      for k := 0 to |queries|
        invariant |posted| == k
        invariant forall j :: 0 <= j < k ==> posted[j] == ExecuteQuery(queries[j])
      {
        posted := posted + [ExecuteQuery(queries[k])];
      }
    } else {
      BlankTextHasNoStatements(text);
    }
  }

  /** The replies the host posts for executeQuery messages carrying these
      texts, handled in order: each one's batch runs after all earlier ones. */
  function SessionReplies(server: Server, history: seq<String>, texts: seq<String>): seq<Reply>
    decreases |texts|
  {
    if texts == [] then []
    else
      var stmts := SplitStatements(texts[0]);
      BatchReplies(server, history, stmts) + SessionReplies(server, history + stmts, texts[1..])
  }

  /** Handling the messages one by one is running all their statements as
      one batch. */
  lemma {:induction false} SessionRepliesFlatten(server: Server, history: seq<String>, texts: seq<String>)
    ensures SessionReplies(server, history, texts) == BatchReplies(server, history, SplitEach(texts))
    decreases |texts|
  {
    if texts != [] {
      var stmts := SplitStatements(texts[0]);
      SessionRepliesFlatten(server, history + stmts, texts[1..]);
      BatchRepliesAppend(server, history, stmts, SplitEach(texts[1..]));
    }
  }

  /** Sending the statements one message each, as executeAllQueries does,
      runs exactly the buffer's statements, in order, and posts the same
      replies as sending the whole buffer in one executeQuery message. */
  lemma ExecuteAllRunsEachStatementOnce(server: Server, history: seq<String>, text: String)
    ensures SplitEach(SplitStatements(text)) == SplitStatements(text)
    ensures SessionReplies(server, history, SplitStatements(text))
            == BatchReplies(server, history, SplitStatements(text))
  {
    ResplitAll(text);
    SessionRepliesFlatten(server, history, SplitStatements(text));
  }

  /** The zero-based number of the line the cursor is on: the line feeds
      before it. */
  function LineNumber(text: String, cursor: nat): nat
    requires cursor <= |text|
  {
    multiset(text[..cursor])['\n']
  }

  /** The line the cursor is on, as the lines of split('\n') number them. */
  function CurrentLine(text: String, cursor: nat): (line: String)
    requires cursor <= |text|
    ensures '\n' !in line
  {
    SplitCount(text, '\n');
    SplitPiecesAvoid(text, '\n');
    assert text == text[..cursor] + text[cursor..];
    assert multiset(text) == multiset(text[..cursor]) + multiset(text[cursor..]);
    var lines := Split(text, '\n');
    assert lines[LineNumber(text, cursor)] in lines;
    lines[LineNumber(text, cursor)]
  }

  /** Bounds that bracket the cursor, hold no line feed between them and
      stop at a line feed or an end of the text on each side delimit the
      cursor's line. */
  lemma LineIsSplitPiece(text: String, cursor: nat, lineStart: nat, lineEnd: nat)
    requires lineStart <= cursor <= lineEnd <= |text|
    requires '\n' !in text[lineStart..lineEnd]
    requires lineStart == 0 || text[lineStart - 1] == '\n'
    requires lineEnd == |text| || text[lineEnd] == '\n'
    ensures text[lineStart..lineEnd] == CurrentLine(text, cursor)
  {
    LinesFrom(text, lineStart);
    FirstLineFrom(text, lineStart, lineEnd);
    SameLineNumber(text, lineStart, cursor, lineEnd);
    var k := LineNumber(text, lineStart);
    assert Split(text, '\n')[k] == Split(text, '\n')[k..][0];
  }

  /** The lines from a line start on are the lines of the rest of the text. */
  lemma LinesFrom(text: String, lineStart: nat)
    requires lineStart <= |text|
    requires lineStart == 0 || text[lineStart - 1] == '\n'
    ensures LineNumber(text, lineStart) < |Split(text, '\n')|
    ensures Split(text, '\n')[LineNumber(text, lineStart)..] == Split(text[lineStart..], '\n')
  {
    if lineStart == 0 {
      assert text[lineStart..] == text;
      assert text[..lineStart] == [];
    } else {
      var before := text[..lineStart - 1];
      assert text == before + ['\n'] + text[lineStart..];
      assert text[..lineStart] == before + ['\n'];
      SplitConcat(before, text[lineStart..], '\n');
      SplitCount(before, '\n');
    }
  }

  /** The first line from a line start ends at the next line feed. */
  lemma FirstLineFrom(text: String, lineStart: nat, lineEnd: nat)
    requires lineStart <= lineEnd <= |text|
    requires '\n' !in text[lineStart..lineEnd]
    requires lineEnd == |text| || text[lineEnd] == '\n'
    ensures Split(text[lineStart..], '\n')[0] == text[lineStart..lineEnd]
  {
    var line := text[lineStart..lineEnd];
    SplitWithoutSeparator(line, '\n');
    if lineEnd == |text| {
      assert text[lineStart..] == line;
    } else {
      assert text[lineStart..] == line + ['\n'] + text[lineEnd + 1..];
      SplitConcat(line, text[lineEnd + 1..], '\n');
    }
  }

  /** Moving the cursor within a line keeps its line number. */
  lemma SameLineNumber(text: String, lineStart: nat, cursor: nat, lineEnd: nat)
    requires lineStart <= cursor <= lineEnd <= |text|
    requires '\n' !in text[lineStart..lineEnd]
    ensures LineNumber(text, cursor) == LineNumber(text, lineStart)
  {
    assert '\n' !in text[lineStart..cursor] by {
      assert forall c :: c in text[lineStart..cursor] ==> c in text[lineStart..lineEnd];
    }
    assert text[..cursor] == text[..lineStart] + text[lineStart..cursor];
  }

  /** The two scans of executeQuery in the webview script: back from the
      cursor to just after the previous line feed, forward to the next one. */
  method LocateLine(text: String, cursor: nat) returns (lineStart: nat, lineEnd: nat)
    requires cursor <= |text|
    ensures lineStart <= cursor <= lineEnd <= |text|
    ensures '\n' !in text[lineStart..lineEnd]
    ensures lineStart == 0 || text[lineStart - 1] == '\n'
    ensures lineEnd == |text| || text[lineEnd] == '\n'
    ensures text[lineStart..lineEnd] == CurrentLine(text, cursor)
  {
    var lineStartIndex: int := cursor - 1;
    var lineEndIndex := cursor;
    while lineStartIndex >= 0 && text[lineStartIndex] != '\n'
      invariant -1 <= lineStartIndex < cursor
      invariant forall k :: lineStartIndex < k < cursor ==> text[k] != '\n'
      decreases lineStartIndex
    {
      lineStartIndex := lineStartIndex - 1;
    }
    while lineEndIndex < |text| && text[lineEndIndex] != '\n'
      invariant cursor <= lineEndIndex <= |text|
      invariant forall k :: cursor <= k < lineEndIndex ==> text[k] != '\n'
    {
      lineEndIndex := lineEndIndex + 1;
    }
    lineStartIndex := lineStartIndex + 1;
    lineStart, lineEnd := lineStartIndex, lineEndIndex;
    assert '\n' !in text[lineStart..lineEnd] by {
      forall k | 0 <= k < lineEnd - lineStart ensures text[lineStart..lineEnd][k] != '\n' {
        assert text[lineStart..lineEnd][k] == text[lineStart + k];
      }
    }
    LineIsSplitPiece(text, cursor, lineStart, lineEnd);
  }

  /** executeQuery in the webview: the trimmed line under the cursor goes to
      the host for confirmation; a blank line only shows a warning. */
  method ExecuteCurrentLine(text: String, cursor: nat) returns (action: LineAction)
    requires cursor <= |text|
    ensures AllWhitespace(CurrentLine(text, cursor)) ==> action == Warn(NoQueryWarning)
    ensures !AllWhitespace(CurrentLine(text, cursor)) ==>
      action == Post(ShowConfirmationDialog(Trim(CurrentLine(text, cursor))))
    ensures action.Post? ==> action.request.query != [] && '\n' !in action.request.query
  {
    var lineStart, lineEnd := LocateLine(text, cursor);
    var currentLine := Trim(text[lineStart..lineEnd]);
    TrimSpec(text[lineStart..lineEnd]);
    if |currentLine| > 0 {
      action := Post(ShowConfirmationDialog(currentLine));
    } else {
      action := Warn(NoQueryWarning);
    }
  }
}
