/**
 * The value the handler returns (main.py, lines 199-208): the parsed answer
 * alone, or an envelope with the question, the SQL, the rows and the answer.
 */
module Response {
  import opened Wrappers

  /**
   * A returned Python value as FastAPI serialises it. `S` stands for the scalar
   * values (numbers, booleans, None, timestamps, ...) of the database driver
   * and of the JSON parser, which are opaque here.
   */
  datatype Payload<S> =
    | Leaf(scalar: S)
    | Str(text: string)
    | Array(items: seq<Payload<S>>)
    | Object(fields: map<string, Payload<S>>)

  /** The four top-level keys of the full response. */
  const EnvelopeKeys: set<string> := {"question", "sql_query", "results", "answer"}

  /** The parts of a full response. */
  datatype Envelope<S> = Envelope(question: string, sqlQuery: string, results: seq<map<string, S>>, answer: Payload<S>)

  /** One materialised row as a JSON object of scalars. */
  function RowPayload<S>(row: map<string, S>): (p: Payload<S>)
    ensures p.Object? && p.fields.Keys == row.Keys
    ensures forall c :: c in row ==> p.fields[c] == Leaf(row[c])
  {
    Object(map c | c in row :: Leaf(row[c]))
  }

  /** The `results` list: one object per row, in order. */
  function RowsPayload<S>(rows: seq<map<string, S>>): (p: Payload<S>)
    ensures p.Array? && |p.items| == |rows|
    ensures forall r :: 0 <= r < |rows| ==> p.items[r] == RowPayload(rows[r])
  {
    Array(seq(|rows|, r requires 0 <= r < |rows| => RowPayload(rows[r])))
  }

  /** Reads a row back from an object whose every field is a scalar. */
  function RowOf<S>(p: Payload<S>): (row: Option<map<string, S>>)
    ensures row.Some? ==> RowPayload(row.value) == p
  {
    if p.Object? && forall c :: c in p.fields ==> p.fields[c].Leaf? then
      var row := map c | c in p.fields :: p.fields[c].scalar;
      assert RowPayload(row).fields == p.fields;
      Some(row)
    else
      None
  }

  /** Reads the rows back from a `results` list. */
  function RowsOf<S>(p: Payload<S>): (rows: Option<seq<map<string, S>>>)
    ensures rows.Some? ==> RowsPayload(rows.value) == p
  {
    if p.Array? && forall r :: 0 <= r < |p.items| ==> RowOf(p.items[r]).Some? then
      var rows := seq(|p.items|, r requires 0 <= r < |p.items| => RowOf(p.items[r]).value);
      assert RowsPayload(rows).items == p.items;
      Some(rows)
    else
      None
  }

  /** Rows survive the conversion to a `results` list unchanged. */
  lemma RowsRoundTrip<S>(rows: seq<map<string, S>>)
    ensures RowsOf(RowsPayload(rows)) == Some(rows)
  {
    var p := RowsPayload(rows);
    forall r | 0 <= r < |rows| ensures RowOf(p.items[r]) == Some(rows[r]) {
      var q := RowPayload(rows[r]);
      assert (map c | c in q.fields :: q.fields[c].scalar) == rows[r];
    }
    assert seq(|p.items|, r requires 0 <= r < |p.items| => RowOf(p.items[r]).value) == rows;
  }

  /**
   * Lines 199-208: with `simple` the parsed answer is returned as it is;
   * otherwise an object with exactly the four envelope keys.
   */
  function Respond<S>(simple: bool, question: string, sqlQuery: string, results: seq<map<string, S>>, answer: Payload<S>): (r: Payload<S>)
    ensures simple ==> r == answer
    ensures !simple ==> r.Object? && r.fields.Keys == EnvelopeKeys
  {
    if simple then answer
    else Object(map[
      "question" := Str(question),
      "sql_query" := Str(sqlQuery),
      "results" := RowsPayload(results),
      "answer" := answer])
  }

  /** Reads the envelope back from a full response, or None for anything else. */
  function EnvelopeOf<S>(p: Payload<S>): (e: Option<Envelope<S>>)
    ensures e.Some? ==> Respond(false, e.value.question, e.value.sqlQuery, e.value.results, e.value.answer) == p
  {
    if p.Object? && p.fields.Keys == EnvelopeKeys
      && p.fields["question"].Str? && p.fields["sql_query"].Str?
      && RowsOf(p.fields["results"]).Some?
    then
      var e := Envelope(p.fields["question"].text, p.fields["sql_query"].text,
                        RowsOf(p.fields["results"]).value, p.fields["answer"]);
      assert Respond(false, e.question, e.sqlQuery, e.results, e.answer).fields == p.fields;
      Some(e)
    else
      None
  }

  /**
   * The full response carries the question, the SQL that was executed, the
   * materialised rows and the answer, each under its own key and unaltered.
   */
  lemma FullResponseRoundTrip<S>(question: string, sqlQuery: string, results: seq<map<string, S>>, answer: Payload<S>)
    ensures EnvelopeOf(Respond(false, question, sqlQuery, results, answer)) == Some(Envelope(question, sqlQuery, results, answer))
  {
    RowsRoundTrip(results);
  }
}
