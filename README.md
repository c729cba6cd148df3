# sql-runner target execution core, in Dafny

sql-runner runs playbooks of SQL scripts against database targets. This project
models the part that runs one resolved query (a `ReadyQuery`: script text and
the path it came from) against one target and produces its `QueryStatus`: the
query, its path, the rows affected and the error.

- **Snowflake** (`snowflake_target.dfy`, module `Snowflake`). Snowflake accepts
  one statement per API call, so `RunQuery` splits the script at every `;`
  (Go `strings.Split`), skips the pieces that `strings.TrimSpace` empties, and
  sends the others untrimmed and in order. In capture mode ("drop output") each
  statement is queried, and its header and rows are written as tab-terminated
  lines. Otherwise each statement is executed and its row count added to a
  running total. The first failure ends the run with the total so far. The
  driver is an oracle `Client`: the outcome of the k-th call of a run for the
  statement it is sent. `Exec` is the specification of a whole run. The
  connector's loop, `RunQuery`, is a method proved to follow it, and lemmas
  about `Exec` state the sums, the first-failure rule and the blank-script
  rule. One quirk of the source is kept: the `err` that `RunQuery` returns at
  the end is never assigned inside the loop, since every assignment there is
  to a shadowing variable. So a run that finishes the loop always reports no
  error.
- **Results buffer** (`scanner.dfy`, module `Scanner`). This is the slice that
  go-pg scans capture-mode output into. It is a class whose `values` field is
  truncated by `Init`, grown by `ScanColumn` and rendered by `AppendValue` as a
  comma-joined list of quoted values.
- **Postgres/Redshift** (`postgres_target.dfy`, module `Postgres`). The script
  is sent whole, in one driver call. `RunQuery` is a pure function of the dry-run
  and capture flags and the driver's result. The module also models the
  connection options of `NewPostgresTarget`: the TLS configuration and the
  address `host:port`.
- **Shared values and Go library functions** (`types.dfy`, `text.dfy`, modules
  `Types` and `Text`). These are the `Target`, `ReadyQuery` and `QueryStatus`
  records, and the contract every `RunQuery` honours. `Text` holds
  `strings.Split`, `strings.Join` and `strings.TrimSpace` with
  `unicode.IsSpace`, and the "each part followed by a separator" layout.
- **Both targets** (`runner.dfy`, module `Runner`). On a single-statement
  script run without capture, the two backends return the same status when
  their drivers agree. In capture mode they agree on errors but not on counts:
  Snowflake never counts rows there, while Postgres reports go-pg's count.

Go strings and byte slices are both modelled as Dafny strings, with one
character per rune. The functions the connectors take from elsewhere become
parameters:
- `fmt.Sprint` applied to a `*sql.RawBytes` becomes `sprint`.
- `types.AppendString(dst, s, 1)` becomes `dst + quote(s)`.
- `pg.Connect` becomes `connect`.

## Model

| member | source | states |
|---|---|---|
| Text.Split | sql_runner/snowflake_target.go:64 | strings.Split at a one-character separator yields one piece more than there are separators (so "" is one empty piece) |
| Text.SplitPiecesLackSep | sql_runner/snowflake_target.go:64 | no piece of a split contains the separator |
| Text.JoinSplit | sql_runner/snowflake_target.go:64 | joining the pieces of a split with the separator gives the script back: the split loses no text |
| Text.SplitWithoutSep | sql_runner/snowflake_target.go:64 | a string without the separator splits into itself alone |
| Text.SplitAfterPiece | sql_runner/snowflake_target.go:64 | a separator-free leading piece followed by the separator splits off as the first piece |
| Text.SplitJoin | sql_runner/scanner.go:38-43 | splitting a join gives the parts back when no part contains the separator |
| Text.TerminatedSnoc | sql_runner/snowflake_target.go:114-117 | appending one element to a terminated layout appends the element and one separator |
| Text.TerminatedIsJoinThenSep | sql_runner/scanner.go:38-42 | a non-empty terminated layout is the join followed by exactly one separator, so dropping the last character gives the join |
| Text.SplitTerminated | sql_runner/snowflake_target.go:112-119 | splitting a terminated layout gives the parts back followed by one empty piece |
| Text.JoinEndsWithLast | sql_runner/scanner.go:42 | a join ends with its last part, so nothing (no separator) follows it |
| Text.IsSpace | sql_runner/snowflake_target.go:67 | unicode.IsSpace: among ASCII characters exactly tab, newline, vertical tab, form feed, carriage return and space; no white space lies above U+3000 |
| Text.TrimLeft | sql_runner/snowflake_target.go:67 | the result is a suffix; what was dropped is all white space; the result does not start with white space |
| Text.TrimRight | sql_runner/snowflake_target.go:67 | the result is a prefix; what was dropped is all white space; the result does not end with white space |
| Text.TrimSpace | sql_runner/snowflake_target.go:67 | strings.TrimSpace gives an empty string exactly when the input is all unicode.IsSpace white space, and otherwise neither starts nor ends with white space |
| Text.TrimRightKeepsFirst | sql_runner/snowflake_target.go:67 | trimming the right of a string that starts with a non-space keeps that first character |
| Scanner.Results.constructor | sql_runner/scanner.go:8 | a fresh Results is the empty slice |
| Scanner.Results.Init | sql_runner/scanner.go:13-18 | the buffer is empty afterwards and the error is nil; an already empty buffer is left untouched |
| Scanner.Results.NewModel | sql_runner/scanner.go:20-22 | the model to scan into is the receiver itself |
| Scanner.Results.AddModel | sql_runner/scanner.go:24-26 | adding a model does nothing and returns nil |
| Scanner.Results.ScanColumn | sql_runner/scanner.go:28-31 | the value is appended at the end, earlier values unchanged, column index and name ignored, nil returned |
| Scanner.Results.AppendValue | sql_runner/scanner.go:33-44 | an empty buffer leaves dst as it is; otherwise the result is dst followed by the quoted values joined by ','; the buffer is not modified and the flag is not used |
| Scanner.ScanInto | sql_runner/scanner.go:13-31 | Init followed by one ScanColumn per value leaves the buffer holding exactly those values in call order, one flat list |
| Scanner.AppendedRendering | sql_runner/scanner.go:38-43 | dst is a prefix of the rendering, which ends with the last quoted value: no trailing comma |
| Scanner.AppendedRenderingSplits | sql_runner/scanner.go:38-43 | when no quoted value contains ',', splitting the rendered list at ',' gives back the quoted values in order |
| Snowflake.SnowflakeTarget.GetTarget | sql_runner/snowflake_target.go:50-52 | returns the embedded target |
| Snowflake.Statements | sql_runner/snowflake_target.go:64-67 | a text is sent exactly when it is one of the script's ';'-pieces and is not all white space |
| Snowflake.NonBlank | sql_runner/snowflake_target.go:66-67 | the statements kept are no more than the fragments |
| Snowflake.NonBlankMembers | sql_runner/snowflake_target.go:66-67 | a text is sent exactly when it is one of the fragments and is not all white space |
| Snowflake.NonBlankEmpty | sql_runner/snowflake_target.go:66-67 | nothing is sent exactly when every fragment is all white space |
| Snowflake.NonBlankAppend | sql_runner/snowflake_target.go:66-67 | filtering keeps the order of the fragments |
| Snowflake.FirstScanError | sql_runner/snowflake_target.go:87-91 | there is no scan error exactly when every row scan succeeds |
| Snowflake.ScanRows | sql_runner/snowflake_target.go:87-95 | the error is that of the first failing scan; lines are only appended; with no error, one line is written per row |
| Snowflake.Capture | sql_runner/snowflake_target.go:71-95 | one captured statement reports no error exactly when its columns and all its rows read, and otherwise the error of the column read or the first failing scan |
| Snowflake.Exec | sql_runner/snowflake_target.go:66-107 | a run sends a prefix of the statements, all of them when it reports no error and at least one more when it fails; capture mode never changes the total |
| Snowflake.ExecAllExecuted | sql_runner/snowflake_target.go:97-109 | when every Exec succeeds, all statements are sent, the error is nil and the total is the sum of their row counts |
| Snowflake.ExecStopsAtFailedExec | sql_runner/snowflake_target.go:97-100 | when statement k is the first whose Exec fails, statements 0..k are sent and no later one, with exactly that error and the sum over statements before k |
| Snowflake.CaptureAllRead | sql_runner/snowflake_target.go:68-109 | in capture mode, when every statement reads completely, all are sent, the error is nil and the total is unchanged |
| Snowflake.CaptureStopsAtFailedRead | sql_runner/snowflake_target.go:73-91 | in capture mode, when statement k is the first that fails to read, statements 0..k are sent, with exactly that error and the total unchanged |
| Snowflake.BlankScriptSendsNothing | sql_runner/snowflake_target.go:57-109 | a script sends nothing exactly when all its ';'-pieces are white space, and then it reports 0 rows and a nil error |
| Snowflake.SeparatorsOnly | sql_runner/snowflake_target.go:64-67 | a script made of ';' only, or empty, has no statements |
| Snowflake.TwoTerminatedStatements | sql_runner/snowflake_target.go:64-67 | two non-blank ';'-terminated statements are sent as they are, white space included, in order |
| Snowflake.BlankExampleScripts | sql_runner/snowflake_target.go:64-67 | "" and ";; ;" have no statements |
| Snowflake.SelectExampleScript | sql_runner/snowflake_target.go:64-67 | "SELECT 1; SELECT 2;" sends "SELECT 1" and " SELECT 2" |
| Snowflake.TwoStatementsCaptured | sql_runner/snowflake_target.go:68-95 | a captured two-statement script whose reads all succeed sends both statements and reports 0 rows and no error |
| Snowflake.Concatenate | sql_runner/snowflake_target.go:112-119 | the line is every element followed by one tab, in order |
| Snowflake.Stringify | sql_runner/snowflake_target.go:121-127 | the result has the input's length and holds each element formatted by fmt.Sprint, in order |
| Snowflake.ConcatenatedLineSplits | sql_runner/snowflake_target.go:112-119 | a concatenated line of tab-free elements splits back at tabs into the elements and one empty tail |
| Snowflake.WriteRows | sql_runner/snowflake_target.go:82-95 | the rows loop of one statement returns the error of the first failing scan, if any, and writes and fails exactly as ScanRows |
| Snowflake.QueryStatement | sql_runner/snowflake_target.go:70-95 | one captured statement reports no error exactly when its columns and rows all read, and writes its header and rows and fails exactly as Capture |
| Snowflake.RunStatement | sql_runner/snowflake_target.go:68-105 | one non-blank statement: in capture mode the total is unchanged and the error is nil exactly when the statement reads completely; otherwise a successful Exec adds its count and a failed one returns its error; either way it is the step Exec takes for that statement |
| Snowflake.RunQuery | sql_runner/snowflake_target.go:56-110 | honours the runner contract; a dry run sends nothing; otherwise the total, the error, the statements sent and the lines written are those of Exec over the script's statements |
| Postgres.PostgresTarget.GetTarget | sql_runner/postgres_target.go:63-65 | returns the embedded target |
| Postgres.TlsConfigFor | sql_runner/postgres_target.go:36-41 | a TLS configuration is present exactly when the target asks for SSL, and it skips certificate verification |
| Postgres.ConnectOptions | sql_runner/postgres_target.go:43-48 | the address is the host, one ':' and the port; user, password, database and TLS come from the target |
| Postgres.NewPostgresTarget | sql_runner/postgres_target.go:35-61 | the target is kept as given and the client is the one connected with ConnectOptions |
| Postgres.AddressSplits | sql_runner/postgres_target.go:44 | when host and port hold no ':', the address splits back into exactly the host and the port |
| Postgres.SslOnlyChangesTls | sql_runner/postgres_target.go:36-48 | the SSL flag affects the TLS configuration and nothing else in the options |
| Postgres.RunQuery | sql_runner/postgres_target.go:68-95 | honours the runner contract; a driver error gives 0 rows and exactly that error; success gives the driver's count and no error; capture mode logs the output when there is any and otherwise "no output", whatever the error |
| Postgres.CaptureStatusMatchesExec | sql_runner/postgres_target.go:76-92 | capture mode and Exec mode return the same status when Query and Exec give the same result |
| Postgres.LogIgnoresError | sql_runner/postgres_target.go:82-86 | the logged line depends on the scanned values only, not on whether the query failed |
| Postgres.FailedRunCountsNothing | sql_runner/postgres_target.go:75-94 | a status with an error reports 0 rows and comes from a run that was not a dry run |
| Runner.SingleStatement | sql_runner/snowflake_target.go:64-67 | a script with no ';' that is not all white space is one statement, sent untrimmed |
| Runner.SingleStatementBackendsAgree | sql_runner/postgres_target.go:87-94 | for one statement without capture, Snowflake and Postgres report the same count and error when their drivers agree, and Snowflake sends the script as it is |
| Runner.SingleStatementCaptureCounts | sql_runner/postgres_target.go:76-86 | in capture mode, for one statement, Snowflake reports 0 rows while Postgres reports go-pg's count when both succeed, and both report the same error with 0 rows when both fail |

## Left out

- The drivers and the network are left out: `sql.Open`, `sf.DSN`, `pg.Connect`, `Client.Query`/`Exec`, `rows.Next`/`Scan`/`Columns`. They are oracle parameters (`Client`, `connect`).
- `NewSnowflakeTarget` is left out, with its login timeout. It only builds a DSN and opens a connection; its `log.Fatal` exits are process aborts.
- The dial and read timeouts and the keep-alive dialer of `NewPostgresTarget` are not modelled as such. A timeout or a dial failure reaches `RunQuery` as a driver error, so its effect on the status is part of the driver outcome the model takes as a parameter (`PgFailed`).
- What reaches standard output is not modelled. That covers the tab writer (created per statement and never flushed) and `log.Printf`/`log.Println`. The model records the lines handed to the tab writer (Snowflake) and which log line is chosen (Postgres), not the text.
- `fmt.Sprint` on raw bytes and `types.AppendString` are parameters. Their output text is not modelled.
- Snowflake.QueryStatement: the error of `Client.Query` (snowflake_target.go:71) is overwritten before it is checked, so it is not modelled. The panic when `Query` returns nil rows is not modelled either.
- Unclosed rows and the unchecked `rows.Err()` are not modelled. They are resource and driver concerns.
- Snowflake.RunQuery: the running total is an `int64` converted with `int(...)` in the source; the model's total is unbounded, so wrap-around on overflow is not modelled. The error of `RowsAffected` is dropped in the source, as it is in the model.
- Postgres.RunQuery: the count from `RowsAffected()` is an unbounded integer here; Go's `int` width is not modelled.
- The model does not say how go-pg fills `Results` during a capture-mode query. `Scanner.ScanInto` states the order of calls taken here, and `Postgres.QueryReply.results` is taken as the buffer's final content.
- Runes and bytes are not distinguished: one character stands for one rune. `TrimSpace` works on runes in the source too. Byte-level buffers such as `dst` are treated as text.
