/**
 * Concrete behaviour of the handler's pure steps: a fenced reply, a reply with
 * a second statement, an empty reply, rows with aligned, duplicated and
 * mismatched columns, and whole requests against fixed services.
 */
module Scenarios {
  import opened Wrappers
  import opened Strings
  import opened Sql
  import opened Rows
  import opened Prompt
  import opened Response
  import opened Handler

  /** A fenced, terminated reply loses its fence and the whitespace inside it. */
  lemma FencedReply()
    ensures PostProcess("```sql\nSELECT 1;\n```") == "SELECT 1;"
  {
    FencedLiteral();
    FencedStatementUnwrapped("SELECT 1");
  }

  lemma FencedLiteral()
    ensures "```sql\nSELECT 1;\n```" == SqlFence + "\n" + "SELECT 1" + ";\n" + Fence
    ensures Bare("SELECT 1") && ';' !in "SELECT 1" && '`' !in "SELECT 1"
  {
  }

  /** Everything after the first `;` is dropped, and the first statement's `;` kept. */
  lemma SecondStatementDropped()
    ensures PostProcess("SELECT 1; DROP TABLE x;") == "SELECT 1;"
  {
    var q := "SELECT 1";
    assert "SELECT 1; DROP TABLE x;" == q + ";" + " DROP TABLE x;";
    assert ';' !in q && '`' !in q;
    FirstStatementKept(q, " DROP TABLE x;");
  }

  /** An empty reply becomes a lone terminator. */
  lemma EmptyReply()
    ensures PostProcess("") == ";"
  {
    TruncateAppendsTerminator("");
    AbsentLeadDisallows(";", Fence);
    UnfenceClean(";");
  }

  /**
   * The split on `;` does not know SQL quoting: a `;` inside a string literal
   * ends the statement there, leaving an unterminated literal.
   */
  lemma QuotedTerminatorCuts()
    ensures PostProcess("SELECT ';' AS x;") == "SELECT ';"
  {
    var q := "SELECT '";
    assert "SELECT ';' AS x;" == q + ";" + "' AS x;";
    assert ';' !in q && '`' !in q;
    FirstStatementKept(q, "' AS x;");
  }

  /** Scalar values of the example tables. */
  datatype Value = Int(n: int) | Txt(s: string)

  /** Two rows under two distinct columns: one mapping per row, in order. */
  lemma TwoRows<V>(id1: V, name1: V, id2: V, name2: V)
    ensures Materialise(["id", "name"], [[id1, name1], [id2, name2]])
         == [map["id" := id1, "name" := name1], map["id" := id2, "name" := name2]]
  {
    var columns := ["id", "name"];
    var results := Materialise(columns, [[id1, name1], [id2, name2]]);
    PairRow("id", "name", id1, name1);
    PairRow("id", "name", id2, name2);
    assert results[0] == map["id" := id1, "name" := name1];
    assert results[1] == map["id" := id2, "name" := name2];
  }

  lemma PairRow<V>(c1: string, c2: string, v1: V, v2: V)
    requires c1 != c2
    ensures RowToMap([c1, c2], [v1, v2]) == map[c1 := v1, c2 := v2]
  {
    var columns := [c1, c2];
    RowToMapAligned(columns, [v1, v2]);
    assert (set c | c in columns) == {c1, c2};
    assert columns[0] == c1 && columns[1] == c2;
  }

  /** A column name given twice keeps the value of its later position. */
  lemma DuplicateColumn()
    ensures RowToMap(["x", "x"], [Int(1), Int(2)]) == map["x" := Int(2)]
  {
    RowToMapDuplicate(["x", "x"], [Int(1), Int(2)], 0, 1);
  }

  /** Extra columns and extra values are both dropped by `zip`. */
  lemma MismatchedLengths()
    ensures RowToMap(["a", "b"], [Int(1)]) == map["a" := Int(1)]
    ensures RowToMap(["a"], [Int(1), Int(2)]) == map["a" := Int(1)]
  {
    RowToMapLastWins(["a", "b"], [Int(1)], 0);
    RowToMapLastWins(["a"], [Int(1), Int(2)], 0);
  }

  const Question: string := "How many samples are in box 3?"
  const CountQuery: string := "SELECT COUNT(*) FROM samples" + " WHERE box_id = 3"
  const CountSql: string := CountQuery + ";"
  const Summary: string := "{\"messages\":[{\"type\":\"text\"," + "\"content\":\"There are 7 samples in box 3.\"}]}"
  const Answer: Payload<Value> :=
    Object(map["messages" := Array([Object(map["type" := Str("text"), "content" := Str("There are 7 samples in box 3.")])])])

  /**
   * Services that answer `reply` to any prompt, run only the counting query
   * (whose cursor has the given description and the one row `[7]`), summarise
   * with a fixed text and parse only that text.
   */
  function Fixed(reply: string, description: Option<seq<string>>): Services<Value>
  {
    Services(
      (p: string) => Ok(reply),
      (s: string) => if s == CountSql then Ok(QueryOutput(description, [[Int(7)]])) else Err("syntax error"),
      (q: string, rs: seq<map<string, Value>>) => Ok(Summary),
      (t: string) => if t == Summary then Ok(Answer) else Err("Expecting value"))
  }

  lemma CountQueryPlain()
    ensures Bare(CountQuery) && ';' !in CountQuery && '`' !in CountQuery
  {
    var a, b := "SELECT COUNT(*) FROM samples", " WHERE box_id = 3";
    assert forall k :: 0 <= k < |a| ==> a[k] != ';' && a[k] != '`';
    assert forall k :: 0 <= k < |b| ==> b[k] != ';' && b[k] != '`';
    assert a[0] == 'S' && b[|b| - 1] == '3';
    assert (a + b)[0] == a[0] && (a + b)[|a + b| - 1] == b[|b| - 1];
  }

  /** The counting query is already clean, so post-processing leaves it alone. */
  lemma CountSqlClean()
    ensures PostProcess(CountSql) == CountSql
  {
    CountQueryPlain();
    assert CountSql == CountQuery + ";" + "";
    FirstStatementKept(CountQuery, "");
  }

  /** The stages of a whole request against `Fixed(CountSql, Some(["count"]))`. */
  lemma RequestStages()
    ensures PostProcess(CountSql) == CountSql
    ensures Materialise(["count"], [[Int(7)]]) == [map["count" := Int(7)]]
    ensures Strip(Summary) == Summary
  {
    CountSqlClean();
    RowToMapLastWins(["count"], [Int(7)], 0);
    SummaryBare();
    StripBare(Summary);
  }

  lemma SummaryBare()
    ensures Bare(Summary)
  {
    var a, b := "{\"messages\":[{\"type\":\"text\",", "\"content\":\"There are 7 samples in box 3.\"}]}";
    assert a[0] == '{' && b[|b| - 1] == '}';
    assert (a + b)[0] == a[0] && (a + b)[|a + b| - 1] == b[|b| - 1];
  }

  /**
   * A whole request: the SQL is run, its one row becomes one mapping, and the
   * summary is parsed; the simple response is the answer object itself.
   */
  lemma SimpleRequest(schema: string)
    ensures Ask(schema, Question, true, Fixed(CountSql, Some(["count"]))) == Ok(Answer)
  {
    RequestStages();
  }

  /** The same request with `simple` false returns the envelope. */
  lemma FullRequest(schema: string)
    ensures Ask(schema, Question, false, Fixed(CountSql, Some(["count"])))
         == Ok(Respond(false, Question, CountSql, [map["count" := Int(7)]], Answer))
  {
    RequestStages();
  }

  /**
   * A fenced reply whose statement leaves the cursor without a description:
   * the request fails as a database error naming the unfenced SQL.
   */
  lemma NoDescription(schema: string)
    ensures Ask(schema, Question, true, Fixed("```sql\n" + CountSql + "\n```", None))
         == Err(DatabaseError(NoneNotIterable, CountSql))
  {
    CountQueryPlain();
    FencedCount();
    FencedStatementUnwrapped(CountQuery);
  }

  lemma FencedCount()
    ensures "```sql\n" + CountSql + "\n```" == SqlFence + "\n" + CountQuery + ";\n" + Fence
  {
  }

  /**
   * A reply the database rejects: the request fails as a database error that
   * carries the driver's text and the truncated SQL.
   */
  lemma RejectedQuery(schema: string)
    ensures Ask(schema, Question, false, Fixed("SELECT 1; DROP TABLE x;", Some(["count"])))
         == Err(DatabaseError("syntax error", "SELECT 1;"))
  {
    SecondStatementDropped();
    OtherSql();
  }

  /** `Fixed` executes only the counting query, and `SELECT 1;` is not it. */
  lemma OtherSql()
    ensures "SELECT 1;" != CountSql
  {
    assert |"SELECT 1;"| == 9;
  }
}
