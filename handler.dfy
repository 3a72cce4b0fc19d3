/**
 * The `/ask` handler (main.py, lines 107-208) as a function of its inputs and of
 * the outside services it calls: the SQL-generating completion, the database,
 * the summarising completion and the JSON parser. Each service is a total
 * function that either gives its result or the text of the exception it raised.
 */
module Handler {
  import opened Wrappers
  import opened Strings
  import opened Sql
  import opened Rows
  import opened Prompt
  import opened Response

  /** What the database cursor offers after `execute`: `description` and `fetchall()`. */
  datatype QueryOutput<S> = QueryOutput(description: Option<seq<string>>, rows: seq<seq<S>>)

  /**
   * The outside world. `generate` receives the SQL prompt and answers with the
   * message content; an API failure, a missing choice or a `None` content (on
   * which `.strip()` raises) is an `Err`. `execute` runs one statement. The
   * summariser receives the question and the rows; the text of its prompt is
   * not modelled. `parse` is `json.loads`.
   */
  datatype Services<!S> = Services(
    generate: string -> Result<string, string>,
    execute: string -> Result<QueryOutput<S>, string>,
    summarise: (string, seq<map<string, S>>) -> Result<string, string>,
    parse: string -> Result<Payload<S>, string>)

  /** The three `except` blocks of the handler, each with the exception's text. */
  datatype AskError =
    | SqlGenerationError(cause: string)
    | DatabaseError(cause: string, sql: string)
    | SummarizationError(cause: string)

  /** The text Python gives the `TypeError` of iterating over `None`. */
  const NoneNotIterable: string := "'NoneType' object is not iterable"

  const GenerationPrefix: string := "OpenAI SQL generation error: "
  const DatabasePrefix: string := "Database query error: "
  const SqlLabel: string := "\nSQL: "
  const SummarizationPrefix: string := "OpenAI summarization error: "

  /** The `detail` of the `HTTPException` raised for an error (lines 145, 170, 197). */
  function Detail(e: AskError): (d: string)
    ensures e.SqlGenerationError? ==> OccursAt(d, GenerationPrefix, 0) && d[|GenerationPrefix|..] == e.cause
    ensures e.SummarizationError? ==> OccursAt(d, SummarizationPrefix, 0) && d[|SummarizationPrefix|..] == e.cause
    ensures e.DatabaseError? ==>
      |d| == |DatabasePrefix| + |e.cause| + |SqlLabel| + |e.sql|
      && OccursAt(d, DatabasePrefix, 0)
      && OccursAt(d, e.cause, |DatabasePrefix|)
      && OccursAt(d, SqlLabel + e.sql, |DatabasePrefix| + |e.cause|)
  {
    match e
    case SqlGenerationError(c) => GenerationPrefix + c
    case DatabaseError(c, sql) =>
      var d := DatabasePrefix + c + SqlLabel + sql;
      assert d[|DatabasePrefix|..|DatabasePrefix| + |c|] == c;
      assert d[|DatabasePrefix| + |c|..] == SqlLabel + sql;
      d
    case SummarizationError(c) => SummarizationPrefix + c
  }

  /** The stage of the handler an error comes from. */
  datatype Stage = Generation | Database | Summarization

  function StageOf(e: AskError): Stage
  {
    match e
    case SqlGenerationError(_) => Generation
    case DatabaseError(_, _) => Database
    case SummarizationError(_) => Summarization
  }

  /** Tells the failing stage from an error detail, or None for any other text. */
  function StageOfDetail(d: string): (s: Option<Stage>)
    ensures s == Some(Generation) <==> OccursAt(d, GenerationPrefix, 0)
    ensures s == Some(Database) ==> OccursAt(d, DatabasePrefix, 0)
    ensures s == Some(Summarization) ==> OccursAt(d, SummarizationPrefix, 0)
    ensures s == None ==> !OccursAt(d, GenerationPrefix, 0) && !OccursAt(d, DatabasePrefix, 0) && !OccursAt(d, SummarizationPrefix, 0)
  {
    if OccursAt(d, GenerationPrefix, 0) then Some(Generation)
    else if OccursAt(d, DatabasePrefix, 0) then Some(Database)
    else if OccursAt(d, SummarizationPrefix, 0) then Some(Summarization)
    else None
  }

  /**
   * The three details start differently, so a client can tell from the detail
   * alone which stage failed, whatever the exception's text.
   */
  lemma {:induction false} DetailIdentifiesStage(e: AskError)
    ensures StageOfDetail(Detail(e)) == Some(StageOf(e))
  {
    var d := Detail(e);
    match e
    case SqlGenerationError(_) =>
    case DatabaseError(_, _) =>
      assert d[0] == 'D';
    case SummarizationError(_) =>
      assert d[0] == 'O' && d[7] == 's';
  }

  /**
   * Lines 150-167: the statement runs, the column names come from the cursor's
   * description (which is None for a statement that returns no rows, so the
   * list comprehension raises) and the rows become mappings.
   */
  function Query<S>(execute: string -> Result<QueryOutput<S>, string>, sql: string): (r: Result<seq<map<string, S>>, string>)
    ensures r.Ok? <==> execute(sql).Ok? && execute(sql).value.description.Some?
    ensures r.Err? && execute(sql).Err? ==> r.error == execute(sql).error
    ensures r.Err? && execute(sql).Ok? ==> r.error == NoneNotIterable
    ensures r.Ok? ==> r.value == Materialise(execute(sql).value.description.value, execute(sql).value.rows)
    ensures r.Ok? ==> |r.value| == |execute(sql).value.rows|
    ensures r.Ok? ==> forall i :: 0 <= i < |r.value| ==>
      r.value[i].Keys <= set c | c in execute(sql).value.description.value
  {
    match execute(sql)
    case Err(c) => Err(c)
    case Ok(out) =>
      match out.description
      case None => Err(NoneNotIterable)
      case Some(columns) =>
        var results := Materialise(columns, out.rows);
        assert forall i :: 0 <= i < |results| ==> results[i].Keys <= set c | c in columns by {
          forall i | 0 <= i < |results| ensures results[i].Keys <= set c | c in columns {
            assert results[i] == RowToMap(columns, out.rows[i]);
          }
        }
        Ok(results)
  }

  /**
   * Lines 172-208: the rows are summarised, the stripped summary is parsed as
   * JSON, and the answer is returned alone or inside the envelope. A failure of
   * either the summary or the parse is a summarization error with its text.
   */
  function Summarise<S>(question: string, sql: string, results: seq<map<string, S>>, simple: bool, svc: Services<S>): (out: Result<Payload<S>, AskError>)
    ensures out.Ok? <==> svc.summarise(question, results).Ok? && svc.parse(Strip(svc.summarise(question, results).value)).Ok?
    ensures out.Err? ==> out.error.SummarizationError?
    ensures out.Err? && svc.summarise(question, results).Err? ==> out.error.cause == svc.summarise(question, results).error
    ensures out.Err? && svc.summarise(question, results).Ok? ==>
      out.error.cause == svc.parse(Strip(svc.summarise(question, results).value)).error
    ensures out.Ok? && simple ==> out.value == svc.parse(Strip(svc.summarise(question, results).value)).value
    ensures out.Ok? && !simple ==>
      EnvelopeOf(out.value) == Some(Envelope(question, sql, results, svc.parse(Strip(svc.summarise(question, results).value)).value))
  {
    match svc.summarise(question, results)
    case Err(c) => Err(SummarizationError(c))
    case Ok(content) =>
      match svc.parse(Strip(content))
      case Err(c) => Err(SummarizationError(c))
      case Ok(answer) =>
        FullResponseRoundTrip(question, sql, results, answer);
        Ok(Respond(simple, question, sql, results, answer))
  }

  /**
   * The handler. The stages run in order and the first that fails decides the
   * error; the SQL that is executed, reported in a database error and returned
   * in the full response is the post-processed reply, and the full response
   * carries the request's own question.
   */
  function Ask<S>(schema: string, question: string, simple: bool, svc: Services<S>): (out: Result<Payload<S>, AskError>)
    ensures out.Err? && out.error.SqlGenerationError? <==> svc.generate(SqlPrompt(schema, question)).Err?
    ensures out.Err? && out.error.SqlGenerationError? ==> out.error.cause == svc.generate(SqlPrompt(schema, question)).error
    ensures out.Err? && out.error.DatabaseError? ==>
      svc.generate(SqlPrompt(schema, question)).Ok?
      && out.error.sql == PostProcess(svc.generate(SqlPrompt(schema, question)).value)
      && IsClean(out.error.sql)
      && Query(svc.execute, out.error.sql).Err?
    ensures out.Ok? && !simple ==>
      EnvelopeOf(out.value).Some?
      && EnvelopeOf(out.value).value.question == question
      && svc.generate(SqlPrompt(schema, question)).Ok?
      && EnvelopeOf(out.value).value.sqlQuery == PostProcess(svc.generate(SqlPrompt(schema, question)).value)
      && IsClean(EnvelopeOf(out.value).value.sqlQuery)
      && Query(svc.execute, EnvelopeOf(out.value).value.sqlQuery) == Ok(EnvelopeOf(out.value).value.results)
    ensures svc.generate(SqlPrompt(schema, question)).Ok? ==>
      var sql := PostProcess(svc.generate(SqlPrompt(schema, question)).value);
      (Query(svc.execute, sql).Err? ==> out == Err(DatabaseError(Query(svc.execute, sql).error, sql)))
      && (Query(svc.execute, sql).Ok? ==> out == Summarise(question, sql, Query(svc.execute, sql).value, simple, svc))
  {
    match svc.generate(SqlPrompt(schema, question))
    case Err(c) => Err(SqlGenerationError(c))
    case Ok(reply) =>
      var sql := PostProcess(reply);
      match Query(svc.execute, sql)
      case Err(c) => Err(DatabaseError(c, sql))
      case Ok(results) =>
        Summarise(question, sql, results, simple, svc)
  }

  /**
   * `simple` changes only the shape of a success: both modes fail alike, and the
   * simple answer is the `answer` of the full response.
   */
  lemma SimpleAndFullAgree<S>(schema: string, question: string, svc: Services<S>)
    ensures Ask(schema, question, true, svc).Err? <==> Ask(schema, question, false, svc).Err?
    ensures Ask(schema, question, true, svc).Err? ==>
      Ask(schema, question, true, svc).error == Ask(schema, question, false, svc).error
    ensures Ask(schema, question, true, svc).Ok? ==>
      EnvelopeOf(Ask(schema, question, false, svc).value).Some?
      && Ask(schema, question, true, svc).value == EnvelopeOf(Ask(schema, question, false, svc).value).value.answer
  {
    var full := Ask(schema, question, false, svc);
    if full.Ok? {
      var reply := svc.generate(SqlPrompt(schema, question)).value;
      var results := Query(svc.execute, PostProcess(reply)).value;
      var content := svc.summarise(question, results).value;
      var answer := svc.parse(Strip(content)).value;
      FullResponseRoundTrip(question, PostProcess(reply), results, answer);
    }
  }
}
