/** The extension host side of the panel: the executeQuery wrapper around
    the database driver, the message handler that runs a batch of
    statements one after another, and the confirm-then-run branch for a
    single line. The database is a parameter: a server whose answer to a
    statement may depend on every statement run before it on the same
    connection.
 */
module Host {
  import opened JsString
  import opened Statements

  datatype Option<T> = None | Some(value: T)

  /** One row of a result set, column name to the value shown for it. */
  type Row = map<String, String>

  /** What the driver hands back for a statement that succeeded: the rows
      of a query, or the status of a statement that returns no rows. */
  datatype Payload = RowSet(rows: seq<Row>) | Status(affectedRows: nat)

  /** The driver's answer: a payload, or the message of the error it threw. */
  datatype DriverResult = Answer(payload: Payload) | Failure(message: String)

  /** A database server: its answer to a statement, given the statements
      already run on the connection. */
  type Server = (seq<String>, String) -> DriverResult

  /** What executeQuery settles with: the {query, rows} object it returns,
      or the message of the Error it throws. */
  datatype Execution = Executed(query: String, payload: Payload) | Thrown(message: String)

  /** Messages the webview posts to the host. */
  datatype Request =
    | ExecuteQuery(query: String)
    | ShowConfirmationDialog(query: String)
    | SaveFile(query: String)

  /** Messages the host posts to the webview. ConfirmedQuery is the
      {command: 'executeQuery'} message the confirmation branch posts
      before it runs the line; the webview has no handler for it. */
  datatype Reply =
    | QueryResult(query: String, payload: Payload)
    | QueryError(error: String)
    | ConfirmedQuery(query: String)

  const FailurePrefix: String := "Failed to execute query: "

  /** The message of the Error executeQuery throws when the driver fails:
      the prefix, the statement, a line feed, the driver's own message. */
  function FailureText(query: String, driverMessage: String): String {
    FailurePrefix + query + ['\n'] + driverMessage
  }

  /** Reads a failure text back: the statement runs up to the first line
      feed after the prefix, the driver's message is the rest. */
  function ParseFailureText(text: String): Option<(String, String)> {
    if |text| < |FailurePrefix| || text[..|FailurePrefix|] != FailurePrefix then None
    else
      var lines := Split(text[|FailurePrefix|..], '\n');
      if |lines| < 2 then None else Some((lines[0], Join(lines[1..], '\n')))
  }

  /** The failure text of a one-line statement gives back both the
      statement and the driver's message. */
  lemma FailureTextRoundTrip(query: String, driverMessage: String)
    requires '\n' !in query
    ensures ParseFailureText(FailureText(query, driverMessage)) == Some((query, driverMessage))
  {
    var text := FailureText(query, driverMessage);
    assert text[..|FailurePrefix|] == FailurePrefix;
    assert text[|FailurePrefix|..] == query + ['\n'] + driverMessage;
    SplitConcat(query, driverMessage, '\n');
    SplitWithoutSeparator(query, '\n');
    var lines := Split(text[|FailurePrefix|..], '\n');
    assert lines == [query] + Split(driverMessage, '\n');
    assert lines[1..] == Split(driverMessage, '\n');
    JoinSplit(driverMessage, '\n');
  }

  /** A statement that spans lines cannot be told apart from a shorter
      statement whose driver message holds the rest. */
  lemma FailureTextAmbiguous(a: String, b: String, m: String)
    ensures FailureText(a + ['\n'] + b, m) == FailureText(a, b + ['\n'] + m)
  {
  }

  /** How executeQuery settles for a statement, given the driver's answer:
      the statement with the payload, or the failure text. */
  function Outcome(query: String, answer: DriverResult): (e: Execution)
    ensures e.Executed? <==> answer.Answer?
    ensures e.Executed? ==> e.query == query && e.payload == answer.payload
    ensures e.Thrown? ==> e.message == FailureText(query, answer.message)
  {
    match answer
    case Answer(p) => Executed(query, p)
    case Failure(m) => Thrown(FailureText(query, m))
  }

  /** The error of a failed one-line statement names that statement and
      carries the driver's message unchanged. */
  lemma FailureNamesStatement(query: String, answer: DriverResult)
    requires answer.Failure? && '\n' !in query
    ensures Outcome(query, answer).Thrown?
    ensures ParseFailureText(Outcome(query, answer).message) == Some((query, answer.message))
  {
    FailureTextRoundTrip(query, answer.message);
  }

  /** The message the handler posts for a settled executeQuery: queryResult
      with the {query, rows} object, or queryError with the error's message. */
  function ReplyFor(e: Execution): (r: Reply)
    ensures r.QueryResult? <==> e.Executed?
    ensures r.QueryResult? ==> r.query == e.query && r.payload == e.payload
    ensures r.QueryError? ==> r.error == e.message
    ensures e.Thrown? ==> r == QueryError(e.message)
  {
    match e
    case Executed(q, p) => QueryResult(q, p)
    case Thrown(m) => QueryError(m)
  }

  /** What the batch loop posts for statements run in order after history:
      one message per statement, each from the server's answer to it. */
  function BatchReplies(server: Server, history: seq<String>, stmts: seq<String>): seq<Reply>
    decreases |stmts|
  {
    if stmts == [] then []
    else [ReplyFor(Outcome(stmts[0], server(history, stmts[0])))]
         + BatchReplies(server, history + [stmts[0]], stmts[1..])
  }

  /** The replies for a statement list given by its first statement. */
  lemma BatchRepliesCons(server: Server, history: seq<String>, q: String, rest: seq<String>)
    ensures BatchReplies(server, history, [q] + rest)
            == [ReplyFor(Outcome(q, server(history, q)))] + BatchReplies(server, history + [q], rest)
  {
    assert ([q] + rest)[0] == q;
    assert ([q] + rest)[1..] == rest;
  }

  /** There is one reply per statement. */
  lemma {:induction false} BatchRepliesLength(server: Server, history: seq<String>, stmts: seq<String>)
    ensures |BatchReplies(server, history, stmts)| == |stmts|
    decreases |stmts|
  {
    if stmts != [] {
      BatchRepliesLength(server, history + [stmts[0]], stmts[1..]);
    }
  }

  /** Reply i answers statement i, run after everything before it, so a
      failure never keeps a later statement from running. */
  lemma {:induction false} BatchReplyAt(server: Server, history: seq<String>, stmts: seq<String>, i: nat)
    requires i < |stmts|
    ensures i < |BatchReplies(server, history, stmts)|
    ensures BatchReplies(server, history, stmts)[i]
            == ReplyFor(Outcome(stmts[i], server(history + stmts[..i], stmts[i])))
    ensures server(history + stmts[..i], stmts[i]).Answer? ==>
      BatchReplies(server, history, stmts)[i]
        == QueryResult(stmts[i], server(history + stmts[..i], stmts[i]).payload)
    ensures server(history + stmts[..i], stmts[i]).Failure? ==>
      BatchReplies(server, history, stmts)[i]
        == QueryError(FailureText(stmts[i], server(history + stmts[..i], stmts[i]).message))
    decreases i
  {
    BatchRepliesLength(server, history, stmts);
    if i == 0 {
      assert history + stmts[..0] == history;
    } else {
      var q, rest := stmts[0], stmts[1..];
      BatchReplyAt(server, history + [q], rest, i - 1);
      assert rest[i - 1] == stmts[i];
      assert stmts[..i] == [q] + rest[..i - 1];
      assert (history + [q]) + rest[..i - 1] == history + stmts[..i];
    }
  }

  /** One message per statement, in statement order, each the reply to its
      statement run after all earlier ones: queryResult with the rows when
      the driver answers, queryError with the failure text when it fails. */
  lemma BatchRepliesAt(server: Server, history: seq<String>, stmts: seq<String>)
    ensures |BatchReplies(server, history, stmts)| == |stmts|
    ensures forall i :: 0 <= i < |stmts| ==>
      BatchReplies(server, history, stmts)[i]
        == ReplyFor(Outcome(stmts[i], server(history + stmts[..i], stmts[i])))
    ensures forall i :: 0 <= i < |stmts| && server(history + stmts[..i], stmts[i]).Answer? ==>
      BatchReplies(server, history, stmts)[i]
        == QueryResult(stmts[i], server(history + stmts[..i], stmts[i]).payload)
    ensures forall i :: 0 <= i < |stmts| && server(history + stmts[..i], stmts[i]).Failure? ==>
      BatchReplies(server, history, stmts)[i]
        == QueryError(FailureText(stmts[i], server(history + stmts[..i], stmts[i]).message))
  {
    BatchRepliesLength(server, history, stmts);
    forall i | 0 <= i < |stmts|
      ensures BatchReplies(server, history, stmts)[i]
              == ReplyFor(Outcome(stmts[i], server(history + stmts[..i], stmts[i])))
      ensures server(history + stmts[..i], stmts[i]).Answer? ==>
        BatchReplies(server, history, stmts)[i]
          == QueryResult(stmts[i], server(history + stmts[..i], stmts[i]).payload)
      ensures server(history + stmts[..i], stmts[i]).Failure? ==>
        BatchReplies(server, history, stmts)[i]
          == QueryError(FailureText(stmts[i], server(history + stmts[..i], stmts[i]).message))
    {
      BatchReplyAt(server, history, stmts, i);
    }
  }

  /** Running a + b posts the replies for a, then those for b run after a. */
  lemma {:induction false} BatchRepliesAppend(server: Server, history: seq<String>, a: seq<String>, b: seq<String>)
    ensures BatchReplies(server, history, a + b)
            == BatchReplies(server, history, a) + BatchReplies(server, history + a, b)
    decreases |a|
  {
    if a == [] {
      assert a + b == b;
      assert history + a == history;
    } else {
      var q, rest := a[0], a[1..];
      assert a == [q] + rest;
      assert a + b == [q] + (rest + b);
      BatchRepliesCons(server, history, q, rest + b);
      BatchRepliesCons(server, history, q, rest);
      BatchRepliesAppend(server, history + [q], rest, b);
      assert (history + [q]) + rest == history + a;
    }
  }

  /** Running one more statement posts one more reply, for that statement
      run after the others. */
  lemma BatchRepliesSnoc(server: Server, history: seq<String>, done: seq<String>, q: String)
    ensures BatchReplies(server, history, done + [q])
            == BatchReplies(server, history, done) + [ReplyFor(Outcome(q, server(history + done, q)))]
  {
    BatchRepliesAppend(server, history, done, [q]);
    BatchRepliesCons(server, history + done, q, []);
    assert [q] == [q] + [];
  }

  /** The one database connection: the server behind it and the statements
      run on it so far. */
  class Connection {
    const server: Server
    var executed: seq<String>

    constructor (server: Server)
      ensures this.server == server && executed == []
    {
      this.server := server;
      executed := [];
    }

    /** connection.query: runs the statement and hands back the driver's
        answer. */
    method Query(sql: String) returns (answer: DriverResult)
      modifies this
      ensures executed == old(executed) + [sql]
      ensures answer == server(old(executed), sql)
    {
      answer := server(executed, sql);
      executed := executed + [sql];
    }
  }

  /** executeQuery: runs the statement once; a driver failure becomes a
      thrown Error whose message names the statement. */
  method ExecuteStatement(connection: Connection, query: String) returns (e: Execution)
    modifies connection
    ensures connection.executed == old(connection.executed) + [query]
    ensures e == Outcome(query, connection.server(old(connection.executed), query))
  {
    var answer := connection.Query(query);
    match answer
    case Answer(p) =>
      e := Executed(query, p);
    case Failure(m) =>
      e := Thrown(FailureText(query, m));
  }

  /** The webview panel as the host sees it: the connection its statements
      run on and the messages posted to it so far. */
  class Panel {
    const connection: Connection
    var posted: seq<Reply>

    constructor (connection: Connection)
      ensures this.connection == connection && posted == []
    {
      this.connection := connection;
      posted := [];
    }

    /** The try/catch around one executeQuery: exactly one message is
        posted, a result or an error. */
    method RunAndPost(query: String)
      modifies this, connection
      ensures connection.executed == old(connection.executed) + [query]
      ensures posted == old(posted)
                        + [ReplyFor(Outcome(query, connection.server(old(connection.executed), query)))]
    {
      var e := ExecuteStatement(connection, query);
      posted := posted + [ReplyFor(e)];
    }

    /** The loop of the executeQuery handler: the statements run one after
        another, each posting its result or error before the next starts. */
    method RunBatch(queries: seq<String>)
      modifies this, connection
      ensures connection.executed == old(connection.executed) + queries
      ensures posted == old(posted) + BatchReplies(connection.server, old(connection.executed), queries)
    {
      ghost var server, history, log := connection.server, connection.executed, posted;
      var i := 0;
      while i < |queries|
        invariant 0 <= i <= |queries|
        invariant connection.executed == history + queries[..i]
        invariant posted == log + BatchReplies(server, history, queries[..i])
      {
        var q := queries[i];
        RunAndPost(q);
        BatchRepliesSnoc(server, history, queries[..i], q);
        assert queries[..i + 1] == queries[..i] + [q];
        i := i + 1;
      }
      assert queries[..i] == queries;
    }

    /** The executeQuery message: split the text into statements and run
        them as one batch. */
    method OnExecuteQuery(text: String)
      modifies this, connection
      ensures connection.executed == old(connection.executed) + SplitStatements(text)
      ensures posted == old(posted)
                        + BatchReplies(connection.server, old(connection.executed), SplitStatements(text))
    {
      var queries := SplitStatements(text);
      RunBatch(queries);
    }

    /** The showConfirmationDialog message, given the user's answer to the
        dialog: on "Yes", post the line back as an executeQuery message,
        then run it unsplit and post its result or error; on anything
        else, do nothing. */
    method OnShowConfirmationDialog(query: String, answer: Option<String>)
      modifies this, connection
      ensures answer == Some("Yes") ==>
        connection.executed == old(connection.executed) + [query] &&
        posted == old(posted)
                  + [ConfirmedQuery(query),
                     ReplyFor(Outcome(query, connection.server(old(connection.executed), query)))]
      ensures answer != Some("Yes") ==>
        connection.executed == old(connection.executed) && posted == old(posted)
    {
      if answer == Some("Yes") {
        posted := posted + [ConfirmedQuery(query)];
      } else {
        return;
      }
      RunAndPost(query);
    }

    /** onDidReceiveMessage: dispatch on the message's command. Saving a
        file changes neither the panel nor the connection. */
    method OnDidReceiveMessage(message: Request, answer: Option<String>)
      modifies this, connection
      ensures message.ExecuteQuery? ==>
        connection.executed == old(connection.executed) + SplitStatements(message.query) &&
        posted == old(posted)
                  + BatchReplies(connection.server, old(connection.executed), SplitStatements(message.query))
      ensures message.ShowConfirmationDialog? && answer == Some("Yes") ==>
        connection.executed == old(connection.executed) + [message.query] &&
        posted == old(posted)
                  + [ConfirmedQuery(message.query),
                     ReplyFor(Outcome(message.query, connection.server(old(connection.executed), message.query)))]
      ensures message.SaveFile? || (message.ShowConfirmationDialog? && answer != Some("Yes")) ==>
        connection.executed == old(connection.executed) && posted == old(posted)
    {
      match message
      case ExecuteQuery(text) => OnExecuteQuery(text);
      case ShowConfirmationDialog(line) => OnShowConfirmationDialog(line, answer);
      case SaveFile(_) =>
    }
  }
}
