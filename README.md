# A verified model of the `/ask` handler's pure core

The service answers a natural-language question about a laboratory database.
Its `/ask` handler (`main.py`) does four things in a row:

1. It builds a prompt from the schema description and the question.
2. It asks a language model for SQL and cleans the reply into one statement.
3. It runs that statement and turns the rows into one mapping per row.
4. It asks the model for a JSON summary and returns either that answer alone
   (`simple`) or an envelope holding the question, the SQL, the rows and the
   answer.

This project models the pure part of that chain in Dafny and proves what it
guarantees. The language model, the database and the JSON parser are
parameters of the model: total functions that give either a result or an
error text.

Modules:

- `Strings` (`strings.dfy`) covers the Python `str` operations the handler
  uses.
  - `Strip` is `str.strip()`, with Python's `isspace` set written out.
  - `PrefixBeforeFirst` is `split(c)[0]`.
  - `ReplaceAll` is `replace(pat, rep)`: it scans from the left and replaces
    occurrences that do not overlap.
  - `Contains` is the substring test.
- `Sql` (`sql.dfy`) is the post-processing of the model's reply.
  - `Truncate` is line 141: strip, keep the text before the first `;`, then
    append `;`.
  - `Unfence` is line 147: remove every "```sql", then every "```", then strip.
  - `PostProcess` chains the two.
- `Rows` (`rows.dfy`) models `[dict(zip(columns, row)) for row in rows]`.
- `Prompt` (`prompt.dfy`) is the f-string of the SQL prompt, with the
  template text of lines 113-127 as constants.
- `Response` (`response.dfy`) holds the returned value and the simple/full
  choice.
- `Handler` (`handler.dfy`) is the whole handler. It runs the stages in order,
  maps the three `except` blocks to errors and their `detail` texts, and
  handles a cursor with no `description`.
- `Scenarios` (`scenarios.dfy`) holds concrete cases. They include the fenced
  reply, the reply with a second statement, the empty reply, the
  duplicated-column and zip-truncation cases, whole requests about box 3, and a
  request whose SQL the database rejects.

The headline result is `Sql.PostProcess`. For every reply, including the empty
one, the text sent to the database has these properties:

- It ends with its one and only `;`.
- It contains no "```" and therefore no "```sql".
- It has no leading or trailing whitespace.
- It is a fixed point of the post-processor, so post-processing is idempotent.

The fence result relies on "```" being a run of one character: removing every
run of three backticks cannot create a new one. `Strings.ReplaceAllMayRecreate`
shows this fails for a general pattern: `"aabb".replace("ab", "")` is `"ab"`.

## Model

| member | source | states |
|---|---|---|
| Strings.Strip | main.py:141 | `strip()` leaves no whitespace at either end and never lengthens the text |
| Strings.StripIsSlice | main.py:141 | the stripped text is a slice of the input, and everything around that slice is whitespace |
| Strings.StripUnique | main.py:141 | any slice with whitespace around it and no whitespace at its ends is exactly the stripped text |
| Strings.StripAroundChar | main.py:141 | a non-space character shields what comes before it from rstrip and what comes after it from lstrip |
| Strings.PrefixBeforeFirst | main.py:141 | `split(c)[0]` is a prefix without `c` that ends at the end of the text or just before the first `c` |
| Strings.PrefixBeforeFirstStops | main.py:141 | `split(c)[0]` of `u + c + w` is `u` when `u` has no `c`, whatever `w` is |
| Strings.ReplaceAll | main.py:147 | `str.replace` with a non-empty pattern; removal never lengthens the text, and `ReplaceAllLeftmost` and `ReplaceAllAbsent` characterise the scan |
| Strings.ReplaceAllLeftmost | main.py:147 | `replace` keeps the text before the first occurrence, replaces that occurrence, and resumes scanning right after it |
| Strings.ReplaceAllAbsent | main.py:147 | `replace` changes nothing when the pattern does not occur |
| Strings.ReplaceAllChars | main.py:147 | every character of the result comes from the input or from the replacement |
| Strings.RemovalLeavesNoRun | main.py:147 | removing every run of n copies of one character leaves no such run |
| Strings.ReplaceAllMayRecreate | main.py:147 | for a general pattern, removal can create a new occurrence (`"aabb"` minus `"ab"` is `"ab"`) |
| Sql.Truncate | main.py:141 | the result ends with its only `;`; before it stands a prefix of the stripped reply that ends at the reply's end or at its first `;` |
| Sql.TruncateAtFirstTerminator | main.py:141 | the cut happens at the first `;`, whatever follows it and whether or not it is inside quotes; only leading whitespace of the kept part is lost |
| Sql.TruncateAppendsTerminator | main.py:141 | a reply without `;` keeps all of its stripped text and gets one `;` appended |
| Sql.TruncateClean | main.py:141 | a single statement with no whitespace border passes truncation unchanged |
| Sql.Unfence | main.py:147 | no "```" is left and no whitespace border; a single statement stays a single statement |
| Sql.UnfenceClean | main.py:147 | a clean statement passes fence removal unchanged |
| Sql.PostProcess | main.py:141-147 | for every reply, the SQL sent to the database has exactly one `;` (its last character), no "```" and no whitespace border |
| Sql.NoSqlFenceSurvives | main.py:147 | no "```sql" survives post-processing |
| Sql.FixedPointsAreClean | main.py:141-147 | post-processing leaves a text unchanged exactly when the text is already clean |
| Sql.PostProcessIdempotent | main.py:141-147 | post-processing its own output changes nothing |
| Sql.FirstStatementKept | main.py:141-147 | a reply whose first statement has no `;`, no backtick and no whitespace border yields that statement and its `;`, whatever follows |
| Sql.FencedStatementUnwrapped | main.py:141-147 | a statement fenced as a markdown SQL block on lines of its own comes out unwrapped and terminated |
| Rows.Zip | main.py:164 | `zip` pairs equal positions and stops at the shorter sequence |
| Rows.DictOf | main.py:164 | `dict(pairs)` has exactly the keys of the pairs, and each key maps to the value of its last pair |
| Rows.RowToMap | main.py:164 | a row's mapping has as keys exactly the column names at the zipped positions |
| Rows.Materialise | main.py:162-164 | one mapping per fetched row, in fetch order, each the row's `dict(zip(columns, row))` |
| Rows.RowToMapLastWins | main.py:164 | a column name maps to the value at the last zipped position that carries that name |
| Rows.RowToMapAligned | main.py:162-164 | with as many values as columns and distinct names, each column maps to the value at its own position and there are no other keys |
| Rows.RowToMapDuplicate | main.py:164 | if a column name occurs twice, the later position wins |
| Prompt.Fill | main.py:112-128 | the introduction, the schema, the instructions, the question and the closing follow one another in this order, unescaped and uncut |
| Prompt.SqlPrompt | main.py:112-128 | the handler's prompt ends with the closing `SQL:` line, and the question can be read back out of it unchanged |
| Prompt.QuestionOf | main.py:112-128 | a question read back from a prompt rebuilds that very prompt |
| Prompt.QuestionRoundTrip | main.py:112-128 | the question is recovered from the prompt built from it |
| Prompt.FillInjective | main.py:112-128 | different questions give different prompts |
| Prompt.FillContains | main.py:112-128 | both the schema and the question occur in the prompt |
| Prompt.QuestionMayRecur | main.py:126-127 | the question "SQL" occurs twice in the prompt: at its own place and inside the closing `SQL:` line |
| Response.RowsPayload | main.py:206 | the `results` list holds one object per row, in order, each with the row's keys and values |
| Response.RowsOf | main.py:206 | rows read back from a `results` list rebuild that list |
| Response.RowsRoundTrip | main.py:206 | rows survive the conversion to a `results` list unchanged |
| Response.Respond | main.py:199-208 | with `simple` the parsed answer is returned unchanged; otherwise an object with exactly the keys `question`, `sql_query`, `results` and `answer` |
| Response.EnvelopeOf | main.py:203-208 | an envelope read back from a response rebuilds that response |
| Response.FullResponseRoundTrip | main.py:203-208 | the full response returns the question, the SQL, the rows and the answer, each unaltered under its own key |
| Handler.Detail | main.py:143-197 | a database error's detail starts with `Database query error: `, then the error text, and ends with `\nSQL: ` and the SQL; the two model errors start with their own prefix followed by the error text |
| Handler.DetailIdentifiesStage | main.py:143-197 | the detail of every error tells which stage failed, whatever the error text |
| Handler.Query | main.py:159-170 | the query succeeds exactly when execution succeeds and the cursor has a description; then the rows are the materialised rows, one per fetched row; otherwise the error text is passed on |
| Handler.Ask | main.py:107-208 | the stages run in order and the first that fails decides the error: a failed generation is a generation error with its text; a failed query is a database error with the query's text and the post-processed, clean SQL; after a successful query the result is the summarisation stage's for the rows that SQL produced, so a full response carries the request's question, that SQL and those rows |
| Handler.SimpleAndFullAgree | main.py:199-208 | `simple` changes only the shape of a success: both modes fail alike, and the simple answer is the full response's `answer` |
| Handler.Summarise | main.py:172-208 | the answer is the parse of the stripped summary; it is returned alone with `simple` and otherwise inside the envelope with the question, the SQL and the rows; a failed summary or parse is a summarization error carrying that failure's text |
| Scenarios.FencedReply | main.py:141-147 | "```sql\nSELECT 1;\n```" becomes `SELECT 1;` |
| Scenarios.SecondStatementDropped | main.py:141 | `SELECT 1; DROP TABLE x;` becomes `SELECT 1;` |
| Scenarios.EmptyReply | main.py:141-147 | an empty reply becomes `;` |
| Scenarios.QuotedTerminatorCuts | main.py:141 | `SELECT ';' AS x;` becomes `SELECT ';`: the cut ignores SQL quoting |
| Scenarios.TwoRows | main.py:162-164 | two rows under `id` and `name` give two mappings, in order |
| Scenarios.DuplicateColumn | main.py:164 | columns `x, x` with values `1, 2` give `{x: 2}` |
| Scenarios.MismatchedLengths | main.py:164 | extra columns and extra values are both dropped |
| Scenarios.SimpleRequest | main.py:107-201 | the box-3 request with `simple` returns the parsed answer object itself |
| Scenarios.FullRequest | main.py:107-208 | the same request without `simple` returns the envelope with the counting SQL and the row `{count: 7}` |
| Scenarios.RejectedQuery | main.py:141-170 | a reply whose truncated SQL the database rejects fails as a database error with the driver's text and that SQL |
| Scenarios.NoDescription | main.py:147-170 | a fenced reply whose statement leaves the cursor without a description fails as a database error naming the unfenced SQL |

## Left out

- The OpenAI calls (lines 132-140 and 183-191) are left out. Both are parameters of `Handler.Ask`.
  - A missing choice, a `None` content (whose `.strip()` raises) and an API failure all count as the service's `Err`.
- psycopg2 is left out. Connecting, executing, fetching and closing (lines 152-167) become one `execute` parameter, which returns the cursor's `description` and rows.
  - Connection and cursor lifecycles are I/O.
  - On an error the code does not close the connection, because there is no `finally`. The model cannot observe this.
- `json.loads` (line 194) is left out and is the `parse` parameter. The JSON value is `Response.Payload` over an opaque scalar type.
- Logging (all `logger` calls), the environment and configuration (lines 15-34), FastAPI routing, CORS, Mangum and pydantic are plumbing with no behaviour to verify.
  - Each `HTTPException` becomes a `Handler.AskError`. Its status is always 500 and is not modelled. Its `detail` is `Handler.Detail`.
- The text of `SCHEMA`, `MESSAGE_SCHEMA_DESCRIPTION` and the summary prompt (lines 37-59, 86-105, 173-179) is opaque constant text.
  - The schema is a parameter.
  - The summariser receives the question and the rows, because the summary prompt is the Python `repr` of the rows inside fixed text.
- The system messages, `temperature` and `max_completion_tokens` are left out. They only affect the remote calls.
- Prompt.Fill: the lemmas are stated for any three-piece template. The handler's own, `Prompt.SqlTemplate`, holds the literal text of lines 113-127 and is used through `Prompt.SqlPrompt`.
- Strings.IsSpace: only Python's `isspace` set is written out. No other Unicode property of `str` plays a part.
- Strings.ReplaceAll: an empty pattern (which Python handles specially) is not modelled. The handler only removes "```sql" and "```".
- Dict order: a Python `dict` keeps insertion order, but a Dafny `map` has no order. So the model loses three orders:
  - the column order inside each row mapping (`Rows.DictOf`, `Rows.RowToMap`);
  - the key order of the full response (`Response.Respond`);
  - the order in the rows' `repr` that the summary prompt embeds (line 175).
  The `summarise` parameter therefore receives unordered mappings where the real service sees ordered text.
- Handler.Ask: `simple` defaults to `True` when the query string omits it (line 108). The model takes it as an explicit argument; FastAPI supplies the default.
- Handler.Query: the `TypeError` raised for a statement without a result set (`cur.description` is `None`) carries the text Python gives it. All other driver errors are the `execute` parameter's own error texts.

## Properties the code does not have

- **The question may occur more than once.** The prompt is plain concatenation, and the template itself ends with `SQL:`. A question equal to "SQL" therefore occurs twice (`Prompt.QuestionMayRecur`). The model proves only that the question occurs at its own place and can be recovered (`Prompt.QuestionRoundTrip`).
- **The connection is not always closed.** The connection and cursor are closed only on the success path (lines 166-167). A failed query leaves them open. The connection lifecycle is outside the model.
- **Truncation is not SQL-aware.** Truncation is a plain split on `;`, so a `;` inside a string literal cuts the statement there (`Scenarios.QuotedTerminatorCuts`). The model follows the code.
