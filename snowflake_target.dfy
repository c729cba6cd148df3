// The Snowflake connector. Snowflake executes one statement per API call, so
// RunQuery splits the script at every ';', skips the fragments that are only
// white space, and sends the others, untrimmed and in order, one call each. It
// keeps a running total of the rows affected and stops at the first failure.
//
// The database client is an oracle: what the k-th call of a run (counting from
// 0) yields for the statement it is given. Exec is the specification of a run
// over the statements; RunQuery is the loop of the connector, proved to follow it.

module Snowflake {
  import opened Types
  import opened Text

  const Semicolon: char := ';'
  const Tab: char := '\t'

  /** The bytes of one column of one row (sql.RawBytes), as text. */
  type RawValue = string

  /** Client.Exec followed by RowsAffected (whose own error the connector drops). */
  datatype ExecOutcome = Executed(rowsAffected: int) | ExecFailed(err: Error)

  /** One rows.Scan of the row that rows.Next advanced to. */
  datatype ScanOutcome = Scanned(values: seq<RawValue>) | ScanFailed(err: Error)

  /** Client.Query followed by rows.Columns: either the columns cannot be read,
      or the column names and the outcome of scanning each row in turn. */
  datatype QueryOutcome = ColumnsFailed(err: Error) | Rows(columns: seq<string>, scans: seq<ScanOutcome>)

  /** The database as seen from one run: the outcome of the k-th call for the statement sent. */
  datatype Client = Client(exec: (nat, string) -> ExecOutcome, query: (nat, string) -> QueryOutcome)

  datatype SnowflakeTarget = SnowflakeTarget(target: Target, client: Client) {
    /** The embedded Target. */
    function GetTarget(): (t: Target)
      ensures t == target
    {
      target
    }
  }

  /** The fragments that are not white space only (those that TrimSpace does
      not empty), untrimmed and in order. */
  function NonBlank(fragments: seq<string>): (stmts: seq<string>)
    ensures |stmts| <= |fragments|
  {
    if fragments == [] then []
    else (if AllSpace(fragments[0]) then [] else [fragments[0]]) + NonBlank(fragments[1..])
  }

  /** The statements a script sends: the non-blank pieces between its ';'s. */
  function Statements(script: string): (stmts: seq<string>)
    ensures forall s :: s in stmts <==> s in Split(script, Semicolon) && !AllSpace(s)
  {
    var pieces := Split(script, Semicolon);
    NonBlankKeeps(pieces);
    NonBlank(pieces)
  }

  /** The error of the first row scan that fails, if any. */
  function FirstScanError(scans: seq<ScanOutcome>): (e: Option<Error>)
    ensures e == None <==> forall j :: 0 <= j < |scans| ==> scans[j].Scanned?
  {
    if scans == [] then None
    else match scans[0]
      case ScanFailed(err) => Some(err)
      case Scanned(_) => FirstScanError(scans[1..])
  }

  /** What reading the rows of one statement gives: the error that stopped it,
      and the lines handed to the tab writer so far. */
  datatype RowScan = RowScan(err: Option<Error>, written: seq<string>)

  /** Scans the rows in order, writing each row's values, formatted by sprint,
      as one tab-terminated line, until a scan fails. */
  function ScanRows(scans: seq<ScanOutcome>, sprint: RawValue -> string, written: seq<string>): (r: RowScan)
    ensures r.err == FirstScanError(scans)
    ensures written <= r.written
    ensures r.err == None ==> |r.written| == |written| + |scans|
  {
    if scans == [] then RowScan(None, written)
    else match scans[0]
      case ScanFailed(e) => RowScan(Some(e), written)
      case Scanned(vals) => ScanRows(scans[1..], sprint, written + [Terminated(Map(sprint, vals), Tab)])
  }

  /** Capture mode for the k-th call, statement s: its columns are read and
      written as the header line, then its rows; the error is that of the
      column read or of the first row scan that fails. */
  function Capture(client: Client, k: nat, s: string, sprint: RawValue -> string, written: seq<string>): (r: RowScan)
    ensures written <= r.written
    ensures r.err == None <==> ReadsAll(client, k, s)
    ensures r.err != None ==> ReadFailsWith(client, k, s, r.err.value)
  {
    match client.query(k, s)
    case ColumnsFailed(e) => RowScan(Some(e), written)
    case Rows(columns, scans) => ScanRows(scans, sprint, written + [Terminated(columns, Tab)])
  }

  /** The outcome of a run: rows affected, the error, the statements sent to the
      client and the lines handed to the tab writer. */
  datatype Trace = Trace(affected: int, err: Option<Error>, sent: seq<string>, written: seq<string>)

  /** Runs stmts after `sent` were sent, `written` were written and `affected`
      rows were counted. A capture run queries each statement and writes its
      header and rows; any other run executes each statement and adds its
      count. The first failure ends the run with the total counted so far. */
  function Exec(stmts: seq<string>, capture: bool, client: Client, sprint: RawValue -> string,
                sent: seq<string>, written: seq<string>, affected: int): (t: Trace)
    decreases |stmts|
    ensures sent <= t.sent <= sent + stmts
    ensures written <= t.written
    ensures capture ==> t.affected == affected
    ensures t.err == None ==> t.sent == sent + stmts
    ensures t.err != None ==> |sent| < |t.sent|
  {
    if stmts == [] then Trace(affected, None, sent, written)
    else
      var s, k := stmts[0], |sent|;
      assert sent + stmts == sent + [s] + stmts[1..];
      if capture then
        var r := Capture(client, k, s, sprint, written);
        if r.err != None then Trace(affected, r.err, sent + [s], r.written)
        else Exec(stmts[1..], capture, client, sprint, sent + [s], r.written, affected)
      else
        match client.exec(k, s)
        case ExecFailed(e) => Trace(affected, Some(e), sent + [s], written)
        case Executed(n) => Exec(stmts[1..], capture, client, sprint, sent + [s], written, affected + n)
  }

  /** NonBlank takes one fragment at a time: a blank one is dropped. */
  lemma NonBlankStep(fragments: seq<string>, i: nat)
    requires i < |fragments|
    ensures NonBlank(fragments[i..])
            == (if AllSpace(fragments[i]) then [] else [fragments[i]]) + NonBlank(fragments[i + 1..])
  {
    assert fragments[i..][1..] == fragments[i + 1..];
  }

  /** The k-th call reads statement s completely: its columns and every row. */
  predicate ReadsAll(client: Client, k: nat, s: string)
  {
    client.query(k, s).Rows? && FirstScanError(client.query(k, s).scans) == None
  }

  /** The k-th call fails to read statement s, with e: its columns, or else the first row scan that fails. */
  predicate ReadFailsWith(client: Client, k: nat, s: string, e: Error)
  {
    match client.query(k, s)
    case ColumnsFailed(err) => err == e
    case Rows(_, scans) => FirstScanError(scans) == Some(e)
  }

  /** The rows the executions of stmts report, the first being the call numbered `first`. */
  function AffectedSum(stmts: seq<string>, client: Client, first: nat): int
  {
    if stmts == [] then 0
    else
      (match client.exec(first, stmts[0]) case Executed(n) => n case ExecFailed(_) => 0)
      + AffectedSum(stmts[1..], client, first + 1)
  }

  /** When every statement executes, all are sent, no error is reported and
      the total grows by the sum of their counts. */
  lemma {:induction false} ExecAllExecuted(stmts: seq<string>, client: Client, sprint: RawValue -> string,
                                           sent: seq<string>, written: seq<string>, affected: int)
    requires forall i :: 0 <= i < |stmts| ==> client.exec(|sent| + i, stmts[i]).Executed?
    ensures Exec(stmts, false, client, sprint, sent, written, affected)
            == Trace(affected + AffectedSum(stmts, client, |sent|), None, sent + stmts, written)
  {
    if stmts != [] {
      var s := stmts[0];
      ExecutedShift(stmts, client, |sent|, |sent + [s]|, |stmts|);
      ExecAllExecuted(stmts[1..], client, sprint, sent + [s], written, affected + client.exec(|sent|, s).rowsAffected);
      ExecutedStep(stmts, client, sprint, sent, written, affected);
      SentStep(sent, stmts);
    }
  }

  /** A run whose first statement executes goes on with the rest, its count added. */
  lemma ExecutedStep(stmts: seq<string>, client: Client, sprint: RawValue -> string,
                     sent: seq<string>, written: seq<string>, affected: int)
    requires stmts != [] && client.exec(|sent|, stmts[0]).Executed?
    ensures Exec(stmts, false, client, sprint, sent, written, affected)
            == Exec(stmts[1..], false, client, sprint, sent + [stmts[0]], written,
                    affected + client.exec(|sent|, stmts[0]).rowsAffected)
  {
  }

  /** The sum over the first k statements is the first one's count plus the sum
      over the next k-1. */
  lemma AffectedSumPrefixStep(stmts: seq<string>, client: Client, first: nat, next: nat, k: nat)
    requires 0 < k <= |stmts| && next == first + 1 && client.exec(first, stmts[0]).Executed?
    ensures AffectedSum(stmts[..k], client, first)
            == client.exec(first, stmts[0]).rowsAffected + AffectedSum(stmts[1..][..k - 1], client, next)
  {
    assert stmts[..k][1..] == stmts[1..][..k - 1];
  }

  /** Statements 0..k-1 executing from call `first` on: the first one executes,
      and so do the next k-1 from call `first + 1` on. */
  lemma ExecutedShift(stmts: seq<string>, client: Client, first: nat, next: nat, k: nat)
    requires 0 < k <= |stmts| && next == first + 1
    requires forall i :: 0 <= i < k ==> client.exec(first + i, stmts[i]).Executed?
    ensures client.exec(first, stmts[0]).Executed?
    ensures forall i :: 0 <= i < k - 1 ==> client.exec(next + i, stmts[1..][i]).Executed?
  {
    assert client.exec(first + 0, stmts[0]).Executed?;
    forall i | 0 <= i < k - 1
      ensures client.exec(next + i, stmts[1..][i]).Executed?
    {
      assert client.exec(first + (i + 1), stmts[i + 1]).Executed?;
    }
  }

  /** Sending the first statement and then the rest sends them all. */
  lemma SentStep(sent: seq<string>, stmts: seq<string>)
    requires stmts != []
    ensures sent + [stmts[0]] + stmts[1..] == sent + stmts
  {
    assert [stmts[0]] + stmts[1..] == stmts;
  }

  /** Sending the first statement and then statements 1..k of the rest sends statements 0..k. */
  lemma SentPrefixStep(sent: seq<string>, stmts: seq<string>, k: nat)
    requires 0 < k < |stmts|
    ensures sent + [stmts[0]] + stmts[1..][..k] == sent + stmts[..k + 1]
  {
    assert [stmts[0]] + stmts[1..][..k] == stmts[..k + 1];
  }

  /** When statement k is the first whose execution fails, the run sends
      statements 0..k and no later one, reports exactly that error, and the
      total grows by the counts of the statements before k only. */
  lemma {:induction false} ExecStopsAtFailedExec(stmts: seq<string>, client: Client, sprint: RawValue -> string,
                                                 sent: seq<string>, written: seq<string>, affected: int, k: nat)
    requires k < |stmts|
    requires forall i :: 0 <= i < k ==> client.exec(|sent| + i, stmts[i]).Executed?
    requires client.exec(|sent| + k, stmts[k]).ExecFailed?
    ensures Exec(stmts, false, client, sprint, sent, written, affected)
            == Trace(affected + AffectedSum(stmts[..k], client, |sent|), Some(client.exec(|sent| + k, stmts[k]).err),
                     sent + stmts[..k + 1], written)
  {
    var s := stmts[0];
    if k == 0 {
      assert stmts[..0] == [] && stmts[..1] == [s];
    } else {
      ExecutedShift(stmts, client, |sent|, |sent + [s]|, k);
      assert client.exec(|sent + [s]| + (k - 1), stmts[1..][k - 1]) == client.exec(|sent| + k, stmts[k]);
      var n := client.exec(|sent|, s).rowsAffected;
      ExecStopsAtFailedExec(stmts[1..], client, sprint, sent + [s], written, affected + n, k - 1);
      ExecutedStep(stmts, client, sprint, sent, written, affected);
      AffectedSumPrefixStep(stmts, client, |sent|, |sent + [s]|, k);
      SentPrefixStep(sent, stmts, k);
    }
  }


  /** In capture mode, when every statement is read completely, all are sent,
      no error is reported and the total is left as it was. */
  lemma {:induction false} CaptureAllRead(stmts: seq<string>, client: Client, sprint: RawValue -> string,
                                          sent: seq<string>, written: seq<string>, affected: int)
    requires forall i :: 0 <= i < |stmts| ==> ReadsAll(client, |sent| + i, stmts[i])
    ensures var t := Exec(stmts, true, client, sprint, sent, written, affected);
            t.affected == affected && t.err == None && t.sent == sent + stmts
  {
    if stmts != [] {
      var s := stmts[0];
      ReadsAllShift(stmts, client, |sent|, |sent + [s]|, |stmts|);
      var w := Capture(client, |sent|, s, sprint, written).written;
      CaptureAllRead(stmts[1..], client, sprint, sent + [s], w, affected);
      CaptureReadStep(stmts, client, sprint, sent, written, affected);
      SentStep(sent, stmts);
    }
  }

  /** A capture run whose first statement reads completely goes on with the
      rest after that statement's output. */
  lemma CaptureReadStep(stmts: seq<string>, client: Client, sprint: RawValue -> string,
                        sent: seq<string>, written: seq<string>, affected: int)
    requires stmts != [] && ReadsAll(client, |sent|, stmts[0])
    ensures Exec(stmts, true, client, sprint, sent, written, affected)
            == Exec(stmts[1..], true, client, sprint, sent + [stmts[0]],
                    Capture(client, |sent|, stmts[0], sprint, written).written, affected)
  {
  }

  /** A capture run whose first statement fails to read with e stops there with e. */
  lemma CaptureFailStep(stmts: seq<string>, client: Client, sprint: RawValue -> string,
                        sent: seq<string>, written: seq<string>, affected: int, e: Error)
    requires stmts != [] && ReadFailsWith(client, |sent|, stmts[0], e)
    ensures Exec(stmts, true, client, sprint, sent, written, affected)
            == Trace(affected, Some(e), sent + [stmts[0]], Capture(client, |sent|, stmts[0], sprint, written).written)
  {
    CaptureFailsWith(client, |sent|, stmts[0], sprint, written, e);
  }

  /** A statement that fails to read reports exactly that failure. */
  lemma CaptureFailsWith(client: Client, k: nat, s: string, sprint: RawValue -> string, written: seq<string>, e: Error)
    requires ReadFailsWith(client, k, s, e)
    ensures Capture(client, k, s, sprint, written).err == Some(e)
  {
  }

  /** Statements 0..k-1 reading completely from call `first` on: the first one
      reads, and so do the next k-1 from call `first + 1` on. */
  lemma ReadsAllShift(stmts: seq<string>, client: Client, first: nat, next: nat, k: nat)
    requires 0 < k <= |stmts| && next == first + 1
    requires forall i :: 0 <= i < k ==> ReadsAll(client, first + i, stmts[i])
    ensures ReadsAll(client, first, stmts[0])
    ensures forall i :: 0 <= i < k - 1 ==> ReadsAll(client, next + i, stmts[1..][i])
  {
    assert ReadsAll(client, first + 0, stmts[0]);
    forall i | 0 <= i < k - 1
      ensures ReadsAll(client, next + i, stmts[1..][i])
    {
      assert ReadsAll(client, first + (i + 1), stmts[i + 1]);
    }
  }

  /** Statement k failing to read as call `first + k` is statement k-1 of the
      rest failing as call `first + 1 + (k-1)`. */
  lemma ReadFailShift(stmts: seq<string>, client: Client, first: nat, next: nat, k: nat, e: Error)
    requires 0 < k < |stmts| && next == first + 1
    requires ReadFailsWith(client, first + k, stmts[k], e)
    ensures ReadFailsWith(client, next + (k - 1), stmts[1..][k - 1], e)
  {
    assert stmts[1..][k - 1] == stmts[k];
  }

  /** In capture mode, when statement k is the first that cannot be read
      completely, the run sends statements 0..k and no later one, reports
      exactly the error of the column read or row scan, and the total is left
      as it was. */
  lemma {:induction false} CaptureStopsAtFailedRead(stmts: seq<string>, client: Client, sprint: RawValue -> string,
                                                    sent: seq<string>, written: seq<string>, affected: int, k: nat, e: Error)
    requires k < |stmts|
    requires forall i :: 0 <= i < k ==> ReadsAll(client, |sent| + i, stmts[i])
    requires ReadFailsWith(client, |sent| + k, stmts[k], e)
    ensures var t := Exec(stmts, true, client, sprint, sent, written, affected);
            t.affected == affected && t.err == Some(e) && t.sent == sent + stmts[..k + 1]
  {
    var s := stmts[0];
    if k == 0 {
      CaptureFailStep(stmts, client, sprint, sent, written, affected, e);
      assert stmts[..1] == [s];
    } else {
      ReadsAllShift(stmts, client, |sent|, |sent + [s]|, k);
      ReadFailShift(stmts, client, |sent|, |sent + [s]|, k, e);
      var w := Capture(client, |sent|, s, sprint, written).written;
      CaptureStopsAtFailedRead(stmts[1..], client, sprint, sent + [s], w, affected, k - 1, e);
      CaptureReadStep(stmts, client, sprint, sent, written, affected);
      SentPrefixStep(sent, stmts, k);
    }
  }


  /** The statements are exactly the fragments that are not all white space. */
  lemma {:induction false} NonBlankMembers(fragments: seq<string>, s: string)
    ensures s in NonBlank(fragments) <==> s in fragments && !AllSpace(s)
  {
    if fragments != [] {
      NonBlankMembers(fragments[1..], s);
      assert fragments == [fragments[0]] + fragments[1..];
    }
  }

  /** Every fragment is white space only. */
  predicate AllBlank(fragments: seq<string>)
  {
    forall i :: 0 <= i < |fragments| ==> AllSpace(fragments[i])
  }

  /** NonBlankMembers for every text at once. */
  lemma NonBlankKeeps(fragments: seq<string>)
    ensures forall s :: s in NonBlank(fragments) <==> s in fragments && !AllSpace(s)
  {
    forall s | true
      ensures s in NonBlank(fragments) <==> s in fragments && !AllSpace(s)
    {
      NonBlankMembers(fragments, s);
    }
  }

  /** No fragment survives the filter exactly when every fragment is white space only. */
  lemma {:induction false} NonBlankEmpty(fragments: seq<string>)
    ensures NonBlank(fragments) == [] <==> AllBlank(fragments)
  {
    if fragments != [] {
      NonBlankEmpty(fragments[1..]);
      if forall i :: 0 <= i < |fragments| - 1 ==> AllSpace(fragments[1..][i]) {
        forall i | 0 <= i < |fragments| && AllSpace(fragments[0])
          ensures AllSpace(fragments[i])
        {
          if i > 0 {
            assert AllSpace(fragments[1..][i - 1]);
          }
        }
      } else {
        var i :| 0 <= i < |fragments| - 1 && !AllSpace(fragments[1..][i]);
        assert !AllSpace(fragments[i + 1]);
      }
    }
  }

  /** A script sends nothing exactly when all its pieces between ';'s are white
      space only, and then it reports no rows and no error. */
  lemma BlankScriptSendsNothing(script: string, capture: bool, client: Client, sprint: RawValue -> string)
    ensures var t := Exec(Statements(script), capture, client, sprint, [], [], 0);
            && (AllBlank(Split(script, Semicolon)) <==> t.sent == [])
            && (AllBlank(Split(script, Semicolon)) ==> t == Trace(0, None, [], []))
  {
    var stmts := Statements(script);
    var t := Exec(stmts, capture, client, sprint, [], [], 0);
    NonBlankEmpty(Split(script, Semicolon));
    if stmts != [] && t.err == None {
      assert t.sent == [] + stmts == stmts;
    }
  }

  /** Filtering keeps the order: the statements of a concatenation of fragment
      lists are those of the first list followed by those of the second. */
  lemma {:induction false} NonBlankAppend(a: seq<string>, b: seq<string>)
    ensures NonBlank(a + b) == NonBlank(a) + NonBlank(b)
  {
    if a != [] {
      var head := if AllSpace(a[0]) then [] else [a[0]];
      assert (a + b)[0] == a[0] && (a + b)[1..] == a[1..] + b;
      assert NonBlank(a + b) == head + NonBlank(a[1..] + b);
      NonBlankAppend(a[1..], b);
    } else {
      assert a + b == b;
    }
  }

  /** A script made of ';' alone, or of nothing, has no statements. */
  lemma {:induction false} SeparatorsOnly(n: nat)
    ensures Statements(seq(n, _ => Semicolon)) == []
  {
    var script := seq(n, _ => Semicolon);
    if n > 0 {
      var rest := seq(n - 1, _ => Semicolon);
      assert script == [] + [Semicolon] + rest;
      SplitAfterPiece([], Semicolon, rest);
      SeparatorsOnly(n - 1);
    }
  }

  /** Two ';'-terminated statements that hold no ';' and are not blank are sent
      as they are, white space included, in order. */
  lemma TwoTerminatedStatements(a: string, b: string)
    requires Semicolon !in a && Semicolon !in b
    requires !AllSpace(a) && !AllSpace(b)
    ensures Statements(a + [Semicolon] + b + [Semicolon]) == [a, b]
  {
    var script := a + [Semicolon] + b + [Semicolon];
    assert script == a + [Semicolon] + (b + [Semicolon] + []);
    SplitAfterPiece(b, Semicolon, []);
    SplitAfterPiece(a, Semicolon, b + [Semicolon] + []);
    var pieces := [a, b, []];
    assert Split(script, Semicolon) == pieces;
    assert NonBlank([[]]) == [];
    assert [b, []][1..] == [[]];
    assert NonBlank([b, []]) == [b];
    assert pieces[1..] == [b, []];
  }

  /** The empty script and ";; ;" have no statements. */
  lemma BlankExampleScripts()
    ensures Statements("") == []
    ensures Statements(";; ;") == []
  {
    assert AllSpace("") && AllSpace(" ");
    assert Split("", Semicolon) == [""];
    var script := ";; ;";
    assert script == [] + [Semicolon] + ([] + [Semicolon] + (" " + [Semicolon] + []));
    SplitAfterPiece(" ", Semicolon, []);
    SplitAfterPiece([], Semicolon, " " + [Semicolon] + []);
    SplitAfterPiece([], Semicolon, [] + [Semicolon] + (" " + [Semicolon] + []));
    var pieces := ["", "", " ", ""];
    assert Split(script, Semicolon) == pieces;
    assert pieces == ["", ""] + [" ", ""];
    NonBlankAppend(["", ""], [" ", ""]);
    assert NonBlank([" ", ""]) == [] by {
      assert NonBlank([""]) == [];
      assert [" ", ""][1..] == [""];
    }
    assert NonBlank(["", ""]) == [] by {
      assert ["", ""][1..] == [""];
    }
  }

  /** "SELECT 1; SELECT 2;" has two statements, the second with its leading space. */
  lemma SelectExampleScript()
    ensures Statements("SELECT 1; SELECT 2;") == ["SELECT 1", " SELECT 2"]
  {
    assert "SELECT 1" + [Semicolon] + " SELECT 2" + [Semicolon] == "SELECT 1; SELECT 2;";
    assert !AllSpace("SELECT 1") by { assert "SELECT 1"[0] == 'S'; }
    assert !AllSpace(" SELECT 2") by { assert " SELECT 2"[1] == 'S'; }
    TwoTerminatedStatements("SELECT 1", " SELECT 2");
  }

  /** In capture mode, a script of two non-blank ';'-terminated statements
      (such as "SELECT 1; SELECT 2;") whose columns and rows all read sends both
      statements and reports no rows affected and no error. */
  lemma TwoStatementsCaptured(a: string, b: string, client: Client, sprint: RawValue -> string)
    requires Semicolon !in a && Semicolon !in b
    requires !AllSpace(a) && !AllSpace(b)
    requires ReadsAll(client, 0, a) && ReadsAll(client, 1, b)
    ensures var t := Exec(Statements(a + [Semicolon] + b + [Semicolon]), true, client, sprint, [], [], 0);
            t.affected == 0 && t.err == None && t.sent == [a, b]
  {
    TwoTerminatedStatements(a, b);
    CaptureAllRead([a, b], client, sprint, [], [], 0);
  }

  /** concatenate: every element followed by one tab (fmt.Sprint of a string is the string). */
  method Concatenate(row: seq<string>) returns (line: string)
    ensures line == Terminated(row, Tab)
  {
    line := "";
    for i := 0 to |row|
      invariant line == Terminated(row[..i], Tab)
    {
      assert row[..i + 1] == row[..i] + [row[i]];
      TerminatedSnoc(row[..i], row[i], Tab);
      line := line + row[i];
      line := line + [Tab];
    }
    assert row[..|row|] == row;
  }

  /** stringify: each raw value formatted by fmt.Sprint (sprint), same length and order. */
  method Stringify(row: seq<RawValue>, sprint: RawValue -> string) returns (line: seq<string>)
    ensures |line| == |row|
    ensures forall i :: 0 <= i < |row| ==> line[i] == sprint(row[i])
  {
    line := [];
    for i := 0 to |row|
      invariant |line| == i
      invariant forall j :: 0 <= j < i ==> line[j] == sprint(row[j])
    {
      line := line + [sprint(row[i])];
    }
  }

  /** A tab-terminated line splits back at its tabs into the elements and one empty tail. */
  lemma ConcatenatedLineSplits(row: seq<string>)
    requires forall i :: 0 <= i < |row| ==> Tab !in row[i]
    ensures Split(Terminated(row, Tab), Tab) == row + [""]
  {
    SplitTerminated(row, Tab);
  }

  /** The `for rows.Next()` loop of one captured statement: scans the rows in
      order, writing each as a tab-terminated line, and stops at the first
      scan that fails, with its error. */
  method WriteRows(scans: seq<ScanOutcome>, sprint: RawValue -> string, ghost written: seq<string>)
    returns (scanErr: Option<Error>, ghost written': seq<string>)
    ensures scanErr == FirstScanError(scans)
    ensures RowScan(scanErr, written') == ScanRows(scans, sprint, written)
  {
    written' := written;
    assert scans[0..] == scans;
    for j := 0 to |scans|
      invariant ScanRows(scans[j..], sprint, written') == ScanRows(scans, sprint, written)
    {
      assert scans[j..] == [scans[j]] + scans[j + 1..];
      match scans[j]
      case ScanFailed(e) =>
        return Some(e), written';
      case Scanned(vals) =>
        var fields := Stringify(vals, sprint);
        assert fields == Map(sprint, vals);
        var line := Concatenate(fields);
        written' := written' + [line];
    }
    assert scans[|scans|..] == [];
    scanErr := None;
  }

  /** One statement in capture mode: Client.Query, then rows.Columns (an error
      from Query itself is overwritten by the one from Columns), the header
      line, then the rows. */
  method QueryStatement(client: Client, k: nat, script: string, sprint: RawValue -> string, ghost written: seq<string>)
    returns (stmtErr: Option<Error>, ghost written': seq<string>)
    ensures stmtErr == None <==> ReadsAll(client, k, script)
    ensures RowScan(stmtErr, written') == Capture(client, k, script, sprint, written)
  {
    var rows := client.query(k, script);
    match rows
    case ColumnsFailed(columnsErr) =>
      return Some(columnsErr), written;
    case Rows(cols, scans) =>
      var header := Concatenate(cols);
      stmtErr, written' := WriteRows(scans, sprint, written + [header]);
  }

  /** One non-blank statement of RunQuery's loop: queried and its output
      written (capture mode), or executed and its count added. The result is
      the step Exec takes for that statement, whatever statements follow it. */
  method RunStatement(client: Client, calls: nat, script: string, capture: bool, sprint: RawValue -> string,
                      ghost rest: seq<string>, ghost sent: seq<string>, ghost written: seq<string>, affected: int)
    returns (stepErr: Option<Error>, ghost written': seq<string>, affected': int)
    requires calls == |sent|
    ensures capture ==> affected' == affected && (stepErr == None <==> ReadsAll(client, calls, script))
    ensures !capture ==> match client.exec(calls, script)
                         case Executed(n) => stepErr == None && affected' == affected + n
                         case ExecFailed(e) => stepErr == Some(e) && affected' == affected
    ensures var whole := Exec([script] + rest, capture, client, sprint, sent, written, affected);
            if stepErr == None
            then whole == Exec(rest, capture, client, sprint, sent + [script], written', affected')
            else affected' == affected && whole == Trace(affected', stepErr, sent + [script], written')
  {
    assert ([script] + rest)[1..] == rest;
    if capture {
      stepErr, written' := QueryStatement(client, calls, script, sprint, written);
      affected' := affected;
    } else {
      written' := written;
      var res := client.exec(calls, script);
      match res
      case ExecFailed(execErr) =>
        stepErr, affected' := Some(execErr), affected;
      case Executed(n) =>
        stepErr, affected' := None, affected + n;
    }
  }

  /** RunQuery: a dry run returns at once; otherwise each non-blank fragment is
      queried (capture mode) or executed, in order, stopping at the first
      failure with the total so far. The ghost results record the statements
      sent to the client and the lines handed to the tab writer. */
  method RunQuery(sft: SnowflakeTarget, query: ReadyQuery, dryRun: bool, dropOutput: bool, sprint: RawValue -> string)
    returns (status: QueryStatus, ghost sent: seq<string>, ghost written: seq<string>)
    ensures HonoursRunnerContract(query, dryRun, status)
    ensures dryRun ==> sent == [] && written == []
    ensures !dryRun ==>
              var t := Exec(Statements(query.script), dropOutput, sft.client, sprint, [], [], 0);
              && status.affected == t.affected
              && status.err == t.err
              && sent == t.sent
              && written == t.written
  {
    var affected := 0;
    // The error RunQuery returns at the end. The loop only ever assigns errors
    // declared inside it, so a run that gets through the loop reports None.
    var err: Option<Error> := None;
    sent, written := [], [];
    if dryRun {
      return QueryStatus(query, query.path, 0, None), sent, written;
    }
    var scripts := Split(query.script, Semicolon);
    ghost var whole := Exec(Statements(query.script), dropOutput, sft.client, sprint, [], [], 0);
    ghost var todo := NonBlank(scripts);
    var calls: nat := 0;
    assert scripts[0..] == scripts;
    for i := 0 to |scripts|
      invariant calls == |sent|
      invariant todo == NonBlank(scripts[i..])
      invariant Exec(todo, dropOutput, sft.client, sprint, sent, written, affected) == whole
    {
      var script := scripts[i];
      NonBlankStep(scripts, i);
      if |TrimSpace(script)| > 0 {
        ghost var rest := NonBlank(scripts[i + 1..]);
        assert todo == [script] + rest;
        var stepErr;
        stepErr, written, affected := RunStatement(sft.client, calls, script, dropOutput, sprint,
                                                   rest, sent, written, affected);
        calls := calls + 1;
        sent := sent + [script];
        if stepErr != None {
          return QueryStatus(query, query.path, affected, stepErr), sent, written;
        }
        todo := NonBlank(scripts[i + 1..]);
      } else {
        assert AllSpace(script);
        assert [] + NonBlank(scripts[i + 1..]) == NonBlank(scripts[i + 1..]);
        todo := NonBlank(scripts[i + 1..]);
      }
    }
    assert todo == [];
    status := QueryStatus(query, query.path, affected, err);
  }
}
