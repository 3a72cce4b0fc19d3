/**
 * The prompt of the SQL-generation call (main.py, lines 112-128): a fixed
 * template around the schema description and the user's question. The schema
 * text itself is a constant of the program and enters here as a parameter.
 */
module Prompt {
  import opened Wrappers
  import opened Strings

  /** Template text before the schema. */
  const Intro: string := "\nGiven the following database schema:\n"

  /** Template text between the schema and the question. */
  const Instructions: string :=
    "\n\nWrite a single, read-only SQL query (no modifications, only SELECTs) to answer the following question.\n\n"
    + "Before returning the query, carefully check for common Postgres errors, such as:\n"
    + "- Table or column names with dashes must be double-quoted.\n"
    + "- If using SELECT DISTINCT, ORDER BY expressions must appear in the select list. If you want to order randomly, use a subquery.\n"
    + "- Avoid reserved words as identifiers, or quote them.\n"
    + "- Ensure all joins and conditions are valid.\n\n"
    + "If you find any issues, fix them before returning the final SQL.\n\n"
    + "Question: "

  /** Template text after the question. */
  const Closing: string := "\nSQL:\n"

  /**
   * The three fixed pieces of an f-string with two holes, the schema and the
   * question. The properties below hold for any such template; the handler's
   * own is `SqlTemplate`.
   */
  datatype Template = Template(intro: string, instructions: string, closing: string)

  const SqlTemplate: Template := Template(Intro, Instructions, Closing)

  /**
   * The f-string: the schema sits right after the introduction, the question
   * right after the instructions, and nothing is escaped or cut.
   */
  function Fill(t: Template, schema: string, question: string): (p: string)
    ensures |p| == |t.intro| + |schema| + |t.instructions| + |question| + |t.closing|
    ensures OccursAt(p, schema, |t.intro|)
    ensures OccursAt(p, t.instructions, |t.intro| + |schema|)
    ensures OccursAt(p, question, |t.intro| + |schema| + |t.instructions|)
    ensures p[..|t.intro|] == t.intro && p[|p| - |t.closing|..] == t.closing
  {
    var p := t.intro + schema + t.instructions + question + t.closing;
    assert p[|t.intro|..|t.intro| + |schema|] == schema;
    assert p[|t.intro| + |schema|..|t.intro| + |schema| + |t.instructions|] == t.instructions;
    assert p[|t.intro| + |schema| + |t.instructions|..|t.intro| + |schema| + |t.instructions| + |question|] == question;
    p
  }

  /**
   * The prompt of lines 112-128: it ends with the closing `SQL:` line and the
   * question can be read back out of it.
   */
  function SqlPrompt(schema: string, question: string): (p: string)
    ensures QuestionOf(SqlTemplate, schema, p) == Some(question)
    ensures p[|p| - |Closing|..] == Closing
  {
    QuestionRoundTrip(SqlTemplate, schema, question);
    Fill(SqlTemplate, schema, question)
  }

  /**
   * Reads the question back out of a prompt filled in with `schema`, or None
   * when `p` is not such a prompt.
   */
  function QuestionOf(t: Template, schema: string, p: string): (q: Option<string>)
    ensures q.Some? ==> Fill(t, schema, q.value) == p
  {
    var head := t.intro + schema + t.instructions;
    if |p| >= |head| + |t.closing| && p[..|head|] == head && p[|p| - |t.closing|..] == t.closing then
      var q := p[|head|..|p| - |t.closing|];
      assert p == p[..|head|] + p[|head|..|p| - |t.closing|] + p[|p| - |t.closing|..];
      Some(q)
    else
      None
  }

  /** The question is recovered from the prompt: nothing of it is lost. */
  lemma QuestionRoundTrip(t: Template, schema: string, question: string)
    ensures QuestionOf(t, schema, Fill(t, schema, question)) == Some(question)
  {
    var p := Fill(t, schema, question);
    var head := t.intro + schema + t.instructions;
    assert p == head + question + t.closing;
    assert p[..|head|] == head;
    assert p[|head|..|p| - |t.closing|] == question;
  }

  /** Different questions give different prompts. */
  lemma FillInjective(t: Template, schema: string, q1: string, q2: string)
    requires Fill(t, schema, q1) == Fill(t, schema, q2)
    ensures q1 == q2
  {
    QuestionRoundTrip(t, schema, q1);
    QuestionRoundTrip(t, schema, q2);
  }

  /** The schema and the question both occur in the prompt. */
  lemma FillContains(t: Template, schema: string, question: string)
    ensures Contains(Fill(t, schema, question), schema)
    ensures Contains(Fill(t, schema, question), question)
  {
    var p := Fill(t, schema, question);
    assert OccursAt(p, schema, |t.intro|);
    assert OccursAt(p, question, |t.intro| + |schema| + |t.instructions|);
  }

  /**
   * The handler's template closes with "SQL", so a question that is "SQL"
   * occurs in the prompt at more than one place: the question is not
   * guaranteed to occur exactly once.
   */
  lemma QuestionMayRecur(t: Template, schema: string)
    requires t.closing == Closing
    ensures OccursAt(Fill(t, schema, "SQL"), "SQL", |t.intro| + |schema| + |t.instructions|)
    ensures OccursAt(Fill(t, schema, "SQL"), "SQL", |Fill(t, schema, "SQL")| - 5)
  {
    var p := Fill(t, schema, "SQL");
    var tail := p[|p| - |Closing|..];
    assert tail == Closing;
    assert p[|p| - 5..|p| - 2] == tail[1..4];
    assert Closing[1..4] == "SQL";
  }
}
