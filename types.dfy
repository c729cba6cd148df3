// The values the target connectors consume and produce: the configuration of
// one database endpoint, a resolved query, and the status record a run returns.

module Types {

  datatype Option<+T> = None | Some(value: T)

  /** A Go error value coming from a database driver; only its identity matters here. */
  datatype Error = Error(message: string)

  /** The configuration of one database endpoint. Region, account and warehouse
      are used by Snowflake only; ssl by Postgres/Redshift only. */
  datatype Target = Target(
    host: string,
    port: string,
    username: string,
    password: string,
    database: string,
    ssl: bool,
    region: string,
    account: string,
    warehouse: string)

  /** A resolved SQL script (one or more statements separated by ';') and where it came from. */
  datatype ReadyQuery = ReadyQuery(script: string, path: string)

  /** The outcome of running one ReadyQuery: the query, its path, the rows
      affected and the error (None for Go's nil). */
  datatype QueryStatus = QueryStatus(query: ReadyQuery, path: string, affected: int, err: Option<Error>)

  /** What every target's RunQuery promises its caller: the status carries the
      query it was given and that query's path, and a dry run reports zero rows
      affected and no error. */
  predicate HonoursRunnerContract(query: ReadyQuery, dryRun: bool, status: QueryStatus)
  {
    && status.query == query
    && status.path == query.path
    && (dryRun ==> status.affected == 0 && status.err == None)
  }
}
