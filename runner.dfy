// How the two targets compare. Both RunQuery implementations honour the
// uniform runner contract (Types.HonoursRunnerContract, in each RunQuery's
// postcondition). Beyond that, on a script holding a single statement run
// without capture, the two backends report the same status whenever their
// drivers report the same outcome. In capture mode they differ: Snowflake
// never counts rows there, while Postgres reports the count go-pg gives.

module Runner {
  import opened Types
  import opened Text
  import Snowflake
  import Postgres

  /** A Snowflake Exec outcome and a go-pg result that say the same thing. */
  predicate SameOutcome(o: Snowflake.ExecOutcome, p: Postgres.PgResult)
  {
    match o
    case Executed(n) => p == Postgres.PgOk(n)
    case ExecFailed(e) => p == Postgres.PgFailed(e)
  }

  /** A script with no ';' that is not all white space is one statement, sent untrimmed. */
  lemma SingleStatement(script: string)
    requires Snowflake.Semicolon !in script && !AllSpace(script)
    ensures Snowflake.Statements(script) == [script]
  {
    SplitWithoutSep(script, Snowflake.Semicolon);
    assert [script][1..] == [];
  }

  /** For a single-statement script run without capture, Snowflake (one Exec
      per statement) and Postgres (one Exec for the whole script) return the
      same count and error when their drivers agree on the outcome. */
  lemma SingleStatementBackendsAgree(sft: Snowflake.SnowflakeTarget, pt: Postgres.PostgresTarget,
                                     query: ReadyQuery, sprint: Snowflake.RawValue -> string)
    requires Snowflake.Semicolon !in query.script && !AllSpace(query.script)
    requires SameOutcome(sft.client.exec(0, query.script), pt.client.exec(query.script))
    ensures var t := Snowflake.Exec(Snowflake.Statements(query.script), false, sft.client, sprint, [], [], 0);
            var s := Postgres.RunQuery(pt, query, false, false).status;
            t.affected == s.affected && t.err == s.err && t.sent == [query.script]
  {
    SingleStatement(query.script);
    var stmts := [query.script];
    assert stmts[1..] == [];
  }

  /** In capture mode the backends agree on errors but not on counts. For a
      single statement, Snowflake sends the script once and reports 0 rows; when
      it reads completely and go-pg succeeds, Postgres reports go-pg's count
      and both report no error; when both fail with the same error, both report
      it with 0 rows. */
  lemma SingleStatementCaptureCounts(sft: Snowflake.SnowflakeTarget, pt: Postgres.PostgresTarget,
                                     query: ReadyQuery, sprint: Snowflake.RawValue -> string)
    requires Snowflake.Semicolon !in query.script && !AllSpace(query.script)
    ensures var t := Snowflake.Exec(Snowflake.Statements(query.script), true, sft.client, sprint, [], [], 0);
            var res := pt.client.query(query.script).result;
            var s := Postgres.RunQuery(pt, query, false, true).status;
            && t.affected == 0 && t.sent == [query.script]
            && (Snowflake.ReadsAll(sft.client, 0, query.script) && res.PgOk? ==>
                  t.err == None && s.err == None && s.affected == res.rowsAffected)
            && (forall e :: Snowflake.ReadFailsWith(sft.client, 0, query.script, e) && res == Postgres.PgFailed(e) ==>
                  t.err == Some(e) && s.err == Some(e) && s.affected == 0)
  {
    SingleStatement(query.script);
    var stmts := [query.script];
    assert stmts[1..] == [];
    forall e | Snowflake.ReadFailsWith(sft.client, 0, query.script, e)
      ensures Snowflake.Capture(sft.client, 0, query.script, sprint, []).err == Some(e)
    {
      Snowflake.CaptureFailsWith(sft.client, 0, query.script, sprint, [], e);
    }
  }
}
