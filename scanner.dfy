// The Results buffer: a growable sequence of column values that go-pg scans
// query output into (as a model and column scanner) and that can also be sent
// as a query argument (as a value appender), rendered as a comma-joined list.

module Scanner {
  import opened Types
  import opened Text

  const Comma: char := ','

  /** A *Results: the slice it refers to is the field `values`. */
  class Results {
    var values: seq<string>

    /** The zero value `var results Results`: an empty slice. */
    constructor ()
      ensures values == []
    {
      values := [];
    }

    /** Truncates the slice to length zero (only when it is not already empty). */
    method Init() returns (err: Option<Error>)
      modifies this
      ensures values == [] && err == None
      ensures old(values) == [] ==> unchanged(this)
    {
      if |values| > 0 {
        values := values[..0];
      }
      err := None;
    }

    /** The model a row is scanned into is the buffer itself. */
    method NewModel() returns (scanner: Results)
      ensures scanner == this
    {
      scanner := this;
    }

    /** Rows are not collected separately: adding a finished row does nothing. */
    method AddModel(scanner: Results) returns (err: Option<Error>)
      ensures err == None
    {
      err := None;
    }

    /** Appends the column's bytes, as text, to the one flat list; the column
        index and name play no part. */
    method ScanColumn(colIdx: int, column: string, b: string) returns (err: Option<Error>)
      modifies this
      ensures values == old(values) + [b] && err == None
    {
      values := values + [b];
      err := None;
    }

    /** Appends the values to dst as quote(v1) + "," + ... + "," + quote(vn), where
        `quote` stands for types.AppendString with flag 1 (taken to append the
        quoted form of one string to its buffer); no values leave dst as it is.
        The `quoteFlag` argument is not used. The receiver is a value, so the
        buffer is only read. */
    method AppendValue(dst: string, quoteFlag: int, quote: string -> string) returns (r: string)
      ensures values == [] ==> r == dst
      ensures values != [] ==> r == dst + Join(Map(quote, values), Comma)
    {
      if |values| <= 0 {
        return dst;
      }
      r := dst;
      for i := 0 to |values|
        invariant r == dst + Terminated(Map(quote, values[..i]), Comma)
      {
        assert Map(quote, values[..i + 1]) == Map(quote, values[..i]) + [quote(values[i])];
        TerminatedSnoc(Map(quote, values[..i]), quote(values[i]), Comma);
        r := r + quote(values[i]);
        r := r + [Comma];
      }
      assert values[..|values|] == values;
      TerminatedIsJoinThenSep(Map(quote, values), Comma);
      r := r[..|r| - 1];
    }
  }

  /** How go-pg fills the buffer for one query: Init, then one ScanColumn per
      column value it reads, in order. The buffer ends up holding exactly those
      values, whatever it held before. */
  method ScanInto(results: Results, cells: seq<string>)
    modifies results
    ensures results.values == cells
  {
    var _ := results.Init();
    for i := 0 to |cells|
      invariant results.values == cells[..i]
    {
      assert cells[..i + 1] == cells[..i] + [cells[i]];
      var _ := results.ScanColumn(i, "", cells[i]);
    }
  }

  /** The rendering leaves dst as a prefix and ends with the last quoted value,
      so there is no trailing comma. */
  lemma AppendedRendering(dst: string, values: seq<string>, quote: string -> string)
    requires values != []
    ensures var r := dst + Join(Map(quote, values), Comma);
            var last := quote(values[|values| - 1]);
            && dst <= r
            && |dst| + |last| <= |r|
            && r[|r| - |last|..] == last
  {
    JoinEndsWithLast(Map(quote, values), Comma);
  }

  /** When no quoted value holds a comma, splitting the rendered part at commas
      gives back the quoted values, one per held value, in order. */
  lemma AppendedRenderingSplits(values: seq<string>, quote: string -> string)
    requires values != []
    requires forall i :: 0 <= i < |values| ==> Comma !in quote(values[i])
    ensures Split(Join(Map(quote, values), Comma), Comma) == Map(quote, values)
  {
    SplitJoin(Map(quote, values), Comma);
  }
}
