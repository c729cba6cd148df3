// The Postgres/Redshift target: the connection options derived from a Target
// and the status of running one whole script through go-pg. go-pg sends the
// script as one request, so there is no splitting here and at most one driver
// call per run.

module Postgres {
  import opened Types
  import opened Text

  /** What go-pg reports for one request: the rows affected, or an error. */
  datatype PgResult = PgOk(rowsAffected: int) | PgFailed(err: Error)

  /** A capture-mode request: its result, and the column values go-pg scanned
      into the Results buffer (one flat list, see Scanner.ScanInto). */
  datatype QueryReply = QueryReply(result: PgResult, results: seq<string>)

  /** The connected *pg.DB as an oracle: what Exec and Query give for a script. */
  datatype Client = Client(exec: string -> PgResult, query: string -> QueryReply)

  /** The part of *tls.Config the target sets. */
  datatype TlsConfig = TlsConfig(insecureSkipVerify: bool)

  /** The part of *pg.Options computed from the target; the timeouts and the
      dialer are constants and are not modelled. */
  datatype Options = Options(addr: string, user: string, password: string, database: string,
                             tlsConfig: Option<TlsConfig>)

  const Colon: char := ':'

  datatype PostgresTarget = PostgresTarget(target: Target, client: Client)
  {
    /** The embedded Target, as given to the constructor. */
    function GetTarget(): (t: Target)
      ensures t == target
    {
      target
    }
  }

  /** The TLS configuration: present, and skipping certificate verification,
      exactly when the target asks for SSL. */
  function TlsConfigFor(target: Target): (c: Option<TlsConfig>)
    ensures c.Some? <==> target.ssl
    ensures c.Some? ==> c.value.insecureSkipVerify
  {
    if target.ssl then Some(TlsConfig(true)) else None
  }

  /** The options handed to pg.Connect. */
  function ConnectOptions(target: Target): (o: Options)
    ensures o.user == target.username && o.password == target.password && o.database == target.database
    ensures o.tlsConfig == TlsConfigFor(target)
    ensures |o.addr| == |target.host| + 1 + |target.port|
    ensures o.addr[..|target.host|] == target.host && o.addr[|target.host|] == Colon
    ensures o.addr[|target.host| + 1..] == target.port
  {
    Options(target.host + [Colon] + target.port, target.username, target.password, target.database,
            TlsConfigFor(target))
  }

  /** NewPostgresTarget: connects with the computed options (pg.Connect is the
      parameter `connect`) and keeps the target as given. */
  function NewPostgresTarget(target: Target, connect: Options -> Client): (pt: PostgresTarget)
    ensures pt.GetTarget() == target
    ensures pt.client == connect(ConnectOptions(target))
  {
    PostgresTarget(target, connect(ConnectOptions(target)))
  }

  /** When neither the host nor the port holds ':', the address splits back
      into exactly the host and the port. */
  lemma AddressSplits(target: Target)
    requires Colon !in target.host && Colon !in target.port
    ensures Split(ConnectOptions(target).addr, Colon) == [target.host, target.port]
  {
    SplitAfterPiece(target.host, Colon, target.port);
    SplitWithoutSep(target.port, Colon);
  }

  /** Two targets that differ in their SSL setting only get options that differ
      in the TLS configuration only. */
  lemma SslOnlyChangesTls(t: Target, u: Target)
    requires t.(ssl := u.ssl) == u
    ensures ConnectOptions(t).(tlsConfig := ConnectOptions(u).tlsConfig) == ConnectOptions(u)
    ensures t.ssl != u.ssl ==> ConnectOptions(t).tlsConfig != ConnectOptions(u).tlsConfig
  {
  }

  /** The line RunQuery logs in capture mode. */
  datatype LogLine = QueryOutput(results: seq<string>) | NoOutputReturned

  /** The status, and the line logged (None when nothing is logged). */
  datatype Run = Run(status: QueryStatus, log: Option<LogLine>)

  /** RunQuery: a dry run returns at once; otherwise the whole script is sent
      once, with Query into a fresh Results buffer in capture mode and with Exec
      otherwise. The count is taken only from a successful request; the error
      is returned as the driver gave it. */
  function RunQuery(pt: PostgresTarget, query: ReadyQuery, dryRun: bool, dropOutput: bool): (r: Run)
    ensures HonoursRunnerContract(query, dryRun, r.status)
    ensures dryRun ==> r.log == None
    ensures !dryRun ==>
              var res := if dropOutput then pt.client.query(query.script).result else pt.client.exec(query.script);
              && (res.PgFailed? ==> r.status.affected == 0 && r.status.err == Some(res.err))
              && (res.PgOk? ==> r.status.affected == res.rowsAffected && r.status.err == None)
    ensures !dryRun && dropOutput ==>
              var results := pt.client.query(query.script).results;
              r.log == Some(if |results| > 0 then QueryOutput(results) else NoOutputReturned)
    ensures !dropOutput ==> r.log == None
  {
    if dryRun then Run(QueryStatus(query, query.path, 0, None), None)
    else
      var (res, log) :=
        if dropOutput then
          var reply := pt.client.query(query.script);
          (reply.result, Some(if |reply.results| > 0 then QueryOutput(reply.results) else NoOutputReturned))
        else (pt.client.exec(query.script), None);
      match res
      case PgFailed(e) => Run(QueryStatus(query, query.path, 0, Some(e)), log)
      case PgOk(n) => Run(QueryStatus(query, query.path, n, None), log)
  }

  /** Capture mode follows the same status rule as Exec: when Query and Exec
      would report the same result, the two modes return the same status. */
  lemma CaptureStatusMatchesExec(pt: PostgresTarget, query: ReadyQuery, dryRun: bool)
    requires pt.client.query(query.script).result == pt.client.exec(query.script)
    ensures RunQuery(pt, query, dryRun, true).status == RunQuery(pt, query, dryRun, false).status
  {
  }

  /** The logged line depends on the scanned values only, not on whether the
      request failed. */
  lemma LogIgnoresError(pt: PostgresTarget, other: PostgresTarget, query: ReadyQuery)
    requires pt.client.query(query.script).results == other.client.query(query.script).results
    ensures RunQuery(pt, query, false, true).log == RunQuery(other, query, false, true).log
  {
  }

  /** A status that reports an error reports 0 rows and comes from a run that
      was not a dry run. (Not conversely: a request that succeeds with 0 rows
      also reports 0 rows, with no error.) */
  lemma FailedRunCountsNothing(pt: PostgresTarget, query: ReadyQuery, dryRun: bool, dropOutput: bool)
    ensures var s := RunQuery(pt, query, dryRun, dropOutput).status;
            s.err != None ==> s.affected == 0 && !dryRun
  {
  }
}
