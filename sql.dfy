/**
 * The post-processing the handler applies to the model's reply before it is sent
 * to the database (main.py, lines 141 and 147):
 *   reply.strip().split(';')[0] + ';'                        -- Truncate
 *   sql.replace('```sql', '').replace('```', '').strip()     -- Unfence
 */
module Sql {
  import opened Strings

  /** The markdown code-fence marker and its SQL-tagged form. */
  const Fence: string := "```"
  const SqlFence: string := "```sql"

  /** A single statement: the text ends with its one and only `;`. */
  predicate OneStatement(sql: string)
  {
    |sql| > 0 && sql[|sql| - 1] == ';' && ';' !in sql[..|sql| - 1]
  }

  /** What the database receives: one statement, no code fence, no whitespace border. */
  predicate IsClean(sql: string)
  {
    OneStatement(sql) && !Contains(sql, Fence) && Bare(sql)
  }

  lemma FenceIsRun()
    ensures Fence == Repeat('`', 3)
    ensures SqlFence == Fence + "sql"
  {
  }

  /**
   * Line 141: the stripped reply up to (not including) its first `;`, followed by
   * one `;`.
   */
  function Truncate(reply: string): (sql: string)
    ensures OneStatement(sql)
    ensures |sql| - 1 <= |Strip(reply)| && sql[..|sql| - 1] == Strip(reply)[..|sql| - 1]
    ensures |sql| - 1 == |Strip(reply)| || Strip(reply)[|sql| - 1] == ';'
  {
    var head := PrefixBeforeFirst(Strip(reply), ';');
    assert (head + ";")[..|head|] == head;
    head + ";"
  }

  /** Line 147: every "```sql", then every "```" removed, then stripped. */
  function Unfence(sql: string): (r: string)
    ensures !Contains(r, Fence) && Bare(r)
    ensures OneStatement(sql) ==> OneStatement(r)
  {
    var once := ReplaceAll(sql, SqlFence, "");
    var twice := ReplaceAll(once, Fence, "");
    FenceIsRun();
    RemovalLeavesNoRun(once, '`', 3);
    StripKeepsAbsence(twice, Fence);
    RemovalKeepsOneStatement(sql, SqlFence);
    RemovalKeepsOneStatement(once, Fence);
    StripKeepsOneStatement(twice);
    Strip(twice)
  }

  /** The whole post-processor: what the handler sends to the database. */
  function PostProcess(reply: string): (sql: string)
    ensures IsClean(sql)
  {
    Unfence(Truncate(reply))
  }

  /** Stripping cannot create an occurrence of a pattern. */
  lemma StripKeepsAbsence(s: string, pat: string)
    ensures !Contains(s, pat) ==> !Contains(Strip(s), pat)
  {
    StripIsSlice(s);
    var i, j :| 0 <= i <= j <= |s| && Strip(s) == s[i..j] && AllSpace(s[..i]) && AllSpace(s[j..]);
    ContainsSlice(s, i, j, pat);
  }

  /** Stripping a single statement leaves a single statement. */
  lemma StripKeepsOneStatement(s: string)
    ensures OneStatement(s) ==> OneStatement(Strip(s))
  {
    if OneStatement(s) {
      var a := s[..|s| - 1];
      assert s == a + [';'];
      TrimLeftAppend(a, [';']);
      var t := TrimLeft(a);
      TrimLeftIsSuffix(a);
      NotInSlice(a, ';', |a| - |t|, |a|);
      assert a[|a| - |t|..|a|] == t;
      assert Strip(s) == TrimRight(t + [';']) == t + [';'];
      assert (t + [';'])[..|t|] == t;
    }
  }

  /** Removing a pattern without `;` keeps a single statement a single statement. */
  lemma RemovalKeepsOneStatement(s: string, pat: string)
    requires pat != [] && ';' !in pat
    ensures OneStatement(s) ==> OneStatement(ReplaceAll(s, pat, ""))
  {
    if OneStatement(s) {
      var a := s[..|s| - 1];
      assert s == a + [';'];
      ReplaceAllKeepsForeignLast(a, pat, "", ';');
      var t := ReplaceAll(a, pat, "");
      ReplaceAllChars(a, pat, "", ';');
      assert (t + [';'])[..|t|] == t;
    }
  }

  /** No "```sql" survives either. */
  lemma NoSqlFenceSurvives(reply: string)
    ensures !Contains(PostProcess(reply), SqlFence)
  {
    FenceIsRun();
    ContainsPrefixOfPattern(PostProcess(reply), Fence, "sql");
  }

  /** A clean statement passes truncation unchanged. */
  lemma TruncateClean(s: string)
    requires OneStatement(s) && Bare(s)
    ensures Truncate(s) == s
  {
    StripBare(s);
    var a := s[..|s| - 1];
    assert s == a + [';'] + [];
    PrefixBeforeFirstStops(a, ';', []);
    assert PrefixBeforeFirst(Strip(s), ';') == a;
    assert a + ";" == s;
  }

  /** A clean statement passes fence removal unchanged. */
  lemma UnfenceClean(s: string)
    requires IsClean(s)
    ensures Unfence(s) == s
  {
    FenceIsRun();
    ContainsPrefixOfPattern(s, Fence, "sql");
    ReplaceAllAbsent(s, SqlFence, "");
    ReplaceAllAbsent(s, Fence, "");
    StripBare(s);
  }

  /** The fixed points of the post-processor are exactly the clean statements. */
  lemma FixedPointsAreClean(s: string)
    ensures PostProcess(s) == s <==> IsClean(s)
  {
    if IsClean(s) {
      TruncateClean(s);
      UnfenceClean(s);
    }
  }

  /** Post-processing is idempotent. */
  lemma PostProcessIdempotent(reply: string)
    ensures PostProcess(PostProcess(reply)) == PostProcess(reply)
  {
    FixedPointsAreClean(PostProcess(reply));
  }

  /**
   * Truncation cuts at the first `;`, whatever follows it and whether or not it
   * sits inside a quoted literal; only leading whitespace of the kept part goes.
   */
  lemma TruncateAtFirstTerminator(a: string, b: string)
    requires ';' !in a
    ensures Truncate(a + ";" + b) == TrimLeft(a) + ";"
  {
    assert a + ";" + b == a + [';'] + b;
    StripAroundChar(a, ';', b);
    TrimLeftKeepsAbsence(a, ';');
    PrefixBeforeFirstStops(TrimLeft(a), ';', TrimRight([';'] + b)[1..]);
  }

  lemma TrimLeftKeepsAbsence(a: string, c: char)
    requires c !in a
    ensures c !in TrimLeft(a)
  {
    TrimLeftIsSuffix(a);
    var t := TrimLeft(a);
    NotInSlice(a, c, |a| - |t|, |a|);
    assert a[|a| - |t|..|a|] == t;
  }

  /** A reply without `;` keeps all of its stripped text and gets one `;` appended. */
  lemma TruncateAppendsTerminator(reply: string)
    requires ';' !in reply
    ensures Truncate(reply) == Strip(reply) + ";"
  {
    StripIsSlice(reply);
    var i, j :| 0 <= i <= j <= |reply| && Strip(reply) == reply[i..j] && AllSpace(reply[..i]) && AllSpace(reply[j..]);
    NotInSlice(reply, ';', i, j);
  }

  /**
   * The first statement of a reply decides the result: a statement with no `;`,
   * no backtick and no whitespace border comes out as itself and its `;`,
   * whatever follows the terminator.
   */
  lemma FirstStatementKept(q: string, b: string)
    requires Bare(q) && ';' !in q && '`' !in q
    ensures PostProcess(q + ";" + b) == q + ";"
  {
    TruncateAtFirstTerminator(q, b);
    assert TrimLeft(q) == q;
    var t := q + ";";
    assert t[..|t| - 1] == q;
    assert '`' !in t;
    AbsentLeadDisallows(t, Fence);
    UnfenceClean(t);
  }

  /** A statement fenced as a markdown SQL block, on lines of its own, is unwrapped. */
  lemma FencedStatementUnwrapped(q: string)
    requires Bare(q) && ';' !in q && '`' !in q
    ensures PostProcess(SqlFence + "\n" + q + ";\n" + Fence) == q + ";"
  {
    FencedTruncate(q);
    TaggedUnfence(q);
  }

  /** Truncation keeps the opening fence and drops the closing one. */
  lemma FencedTruncate(q: string)
    requires ';' !in q
    ensures Truncate(SqlFence + "\n" + q + ";\n" + Fence) == SqlFence + "\n" + q + ";"
  {
    var a := SqlFence + "\n" + q;
    assert SqlFence + "\n" + q + ";\n" + Fence == a + ";" + ("\n" + Fence);
    assert ';' !in a;
    TruncateAtFirstTerminator(a, "\n" + Fence);
    assert TrimLeft(a) == a;
  }

  /** The opening "```sql" tag goes, and stripping removes the newline after it. */
  lemma TaggedUnfence(q: string)
    requires Bare(q) && ';' !in q && '`' !in q
    ensures Unfence(SqlFence + "\n" + q + ";") == q + ";"
  {
    var rest := "\n" + q + ";";
    assert SqlFence + "\n" + q + ";" == SqlFence + rest;
    assert '`' !in rest;
    DropLeadingTag(rest);
    AbsentLeadDisallows(rest, Fence);
    ReplaceAllAbsent(rest, Fence, "");
    assert rest == "\n" + (q + ";");
    assert Bare(q + ";");
    StripLeadingNewline(q + ";");
  }

  lemma StripLeadingNewline(t: string)
    requires Bare(t)
    ensures Strip("\n" + t) == t
  {
    var s := "\n" + t;
    assert s[..1] == "\n" && s[|s|..] == [] && s[1..|s|] == t;
    StripUnique(s, 1, |s|);
  }

  /** A leading "```sql" is removed; the rest has no backtick and is kept. */
  lemma DropLeadingTag(rest: string)
    requires '`' !in rest
    ensures ReplaceAll(SqlFence + rest, SqlFence, "") == rest
  {
    var t := SqlFence + rest;
    assert t[..|SqlFence|] == SqlFence;
    assert OccursAt(t, SqlFence, 0);
    ReplaceAllLeftmost(t, SqlFence, "", 0);
    assert t[|SqlFence|..] == rest;
    AbsentLeadDisallows(rest, SqlFence);
    ReplaceAllAbsent(rest, SqlFence, "");
  }
}
