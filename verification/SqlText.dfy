/** Quoted text and the ledger statements. */
module SqlText {
  import opened Results
  import opened Text
  import opened Statements
  import opened StatementsTheorems
  import opened Decimals

  /** strings.ReplaceAll(value, "'", "''"). */
  function Doubled(value: string): string {
    if value == "" then ""
    else (if value[0] == '\'' then "''" else [value[0]]) + Doubled(value[1..])
  }

  function QuoteText(value: string): string {
    "'" + Doubled(value) + "'"
  }

  const INSERT_HEAD := "INSERT INTO schema_migrations" + " (version, name, up_sha256)\nVALUES ("
  const DELETE_HEAD := "DELETE FROM schema_migrations" + "\nWHERE version = "

  /** The common shape of the two ledger statements: fixed text around the version and two quoted texts. */
  function LedgerSql(head: string, version: int, mid: string, name: string, mid': string, sum: string, end: string): string {
    head + SignedDecimal(version) + mid + QuoteText(name) + mid' + QuoteText(sum) + end + ";"
  }

  function LedgerInsertSql(version: int, name: string, upSha256: string): string {
    LedgerSql(INSERT_HEAD, version, ", ", name, ", ", upSha256, ")")
  }

  function LedgerDeleteSql(version: int, name: string, upSha256: string): string {
    LedgerSql(DELETE_HEAD, version, " AND name = ", name, " AND up_sha256 = ", upSha256, "")
  }

  // ---------------------------------------------------------------------------------------------
  // A literal, read back.
  // ---------------------------------------------------------------------------------------------

  datatype Literal = Open | Literal(value: string, rest: string)

  /** Reads a literal behind its opening quote: a doubled quote stands for one, a single quote closes. */
  function ReadLiteral(s: string): Literal {
    if s == "" then Open
    else if s[0] == '\'' && (|s| == 1 || s[1] != '\'') then Literal("", s[1..])
    else
      var read := ReadLiteral(s[if s[0] == '\'' then 2 else 1..]);
      if read.Open? then Open else Literal([s[0]] + read.value, read.rest)
  }

  /** Character by character: a quote becomes two, anything else stays. */
  lemma {:induction false} DoublesQuotes(value: string, c: char)
    ensures Doubled("") == "" && Doubled(value + [c]) == Doubled(value) + if c == '\'' then "''" else [c]
  {
    if value != "" {
      DoublesQuotes(value[1..], c);
      assert (value + [c])[1..] == value[1..] + [c];
    }
  }

  /** Any value, quoted, is one complete literal with that value, whatever follows other than a quote. */
  lemma {:induction false} QuoteReadsBack(value: string, rest: string)
    requires rest == "" || rest[0] != '\''
    ensures ReadLiteral((QuoteText(value) + rest)[1..]) == Literal(value, rest)
  {
    assert (QuoteText(value) + rest)[1..] == Doubled(value) + "'" + rest;
    DoubledReadsBack(value, rest);
  }

  lemma {:induction false} DoubledReadsBack(value: string, rest: string)
    requires rest == "" || rest[0] != '\''
    ensures ReadLiteral(Doubled(value) + "'" + rest) == Literal(value, rest)
  {
    var s := Doubled(value) + "'" + rest;
    if value == "" {
      assert s[1..] == rest;
    } else {
      var k := if value[0] == '\'' then 2 else 1;
      assert s[k..] == Doubled(value[1..]) + "'" + rest;
      DoubledReadsBack(value[1..], rest);
      assert value == [value[0]] + value[1..];
    }
  }

  // ---------------------------------------------------------------------------------------------
  // The lexer over a concatenation.
  // ---------------------------------------------------------------------------------------------

  lemma {:induction false} LexConcat(a: string, b: string, i: nat, q: Lex)
    requires i <= |a|
    ensures Run(a + b, i, q) == Run(b, 0, Run(a, i, q))
    ensures Terminator(a + b, i, q) ==
      if Terminator(a, i, q) < |a| then Terminator(a, i, q) else |a| + Terminator(b, 0, Run(a, i, q))
    decreases |a| - i
  {
    var s := a + b;
    if i == |a| {
      RunSlice(s, i, i, q);
      TerminatorSlice(s, i, |s|, i, q);
      assert s[i..|s|] == b;
    } else {
      assert s[i] == a[i];
      LexConcat(a, b, i + 1, Step(q, a[i]));
    }
  }

  /** Read from outside quotes and comments, p meets no top-level semicolon and ends outside them again. */
  predicate Passes(p: string) {
    Terminator(p, 0, Plain) == |p| && Run(p, 0, Plain) == Plain
  }

  lemma PassesConcat(a: string, b: string)
    requires Passes(a) && Passes(b)
    ensures Passes(a + b)
  {
    LexConcat(a, b, 0, Plain);
  }

  predicate Calm(p: string) {
    forall i | 0 <= i < |p| :: p[i] !in {'\'', '"', '-', '/', ';'}
  }

  lemma {:induction false} CalmPasses(p: string)
    requires Calm(p)
    ensures Passes(p)
  {
    CalmFrom(p, 0);
  }

  lemma {:induction false} CalmFrom(p: string, i: nat)
    requires i <= |p| && Calm(p)
    ensures Terminator(p, i, Plain) == |p| && Run(p, i, Plain) == Plain
    decreases |p| - i
  {
    if i < |p| {
      CalmFrom(p, i + 1);
    }
  }

  lemma DecimalPasses(n: int)
    ensures Passes(SignedDecimal(n))
  {
    var d := Decimal(if n < 0 then -n else n);
    CalmPasses(d);
    if n < 0 {
      BehindMinus(d);
      LexConcat("-", d, 0, Plain);
    }
  }

  /** A minus sign in front of a digit opens no comment. */
  lemma BehindMinus(d: string)
    requires d != "" && Calm(d) && Passes(d)
    ensures Run(d, 0, Dash) == Plain && Terminator(d, 0, Dash) == |d|
  {
    assert Step(Dash, d[0]) == Plain == Step(Plain, d[0]);
  }

  lemma {:induction false} InsideLiteral(value: string)
    ensures var d := Doubled(value); Run(d, 0, Single) == Single && Terminator(d, 0, Single) == |d|
  {
    if value != "" {
      var head := if value[0] == '\'' then "''" else [value[0]];
      InsideLiteral(value[1..]);
      assert Run(head, |head|, Single) == Single && Terminator(head, |head|, Single) == |head|;
      if value[0] == '\'' {
        assert Run(head, 1, Plain) == Single && Terminator(head, 1, Plain) == |head|;
      }
      LexConcat(head, Doubled(value[1..]), 0, Single);
    }
  }

  /** Whatever the value, its quoted text passes: no semicolon in it ends a statement. */
  lemma QuotePasses(value: string)
    ensures Passes(QuoteText(value))
  {
    InsideLiteral(value);
    LexConcat(Doubled(value), "'", 0, Single);
    LexConcat("'", Doubled(value) + "'", 0, Plain);
    assert "'" + (Doubled(value) + "'") == QuoteText(value);
  }

  lemma PassingStatement(p: string)
    requires Passes(p) && p != "" && !IsSpace(p[0]) && p[0] !in {'-', '/', ';'}
    ensures Split(p + ";") == Ok([p + ";"])
  {
    var s := p + ";";
    LexConcat(p, ";", 0, Plain);
    assert FirstEnd(s) == |s| && s[0] == p[0];
    assert HasText(s) by {
      assert IsSpace(' ') && IsSpace('\t') && IsSpace('\r') && IsSpace('\n');
    }
    assert !IsSpace(';') && IsStatement(s);
    JoinThenSplit([s]);
    assert JoinLines([s]) == s;
  }

  lemma PassesConcat3(a: string, b: string, c: string)
    requires Passes(a) && Passes(b) && Passes(c)
    ensures Passes(a + b + c)
  {
    PassesConcat(a, b);
    PassesConcat(a + b, c);
  }

  /** A calm text around a number and two quoted values is one statement once a semicolon ends it. */
  lemma OneStatement(head: string, version: int, mid: string, name: string, mid': string, sum: string, end: string)
    requires Calm(head) && Calm(mid) && Calm(mid') && Calm(end) && head != "" && !IsSpace(head[0])
    ensures var sql := LedgerSql(head, version, mid, name, mid', sum, end); Split(sql) == Ok([sql])
  {
    CalmPasses(head);
    CalmPasses(mid);
    CalmPasses(mid');
    CalmPasses(end);
    DecimalPasses(version);
    QuotePasses(name);
    QuotePasses(sum);
    var p1 := head + SignedDecimal(version) + mid;
    PassesConcat3(head, SignedDecimal(version), mid);
    var p2 := p1 + QuoteText(name) + mid';
    PassesConcat3(p1, QuoteText(name), mid');
    var p3 := p2 + QuoteText(sum) + end;
    PassesConcat3(p2, QuoteText(sum), end);
    assert p1[0] == head[0] && p2[0] == p1[0] && p3[0] == p2[0];
    PassingStatement(p3);
  }

  lemma InsertHeadIsCalm()
    ensures Calm(INSERT_HEAD) && INSERT_HEAD != "" && !IsSpace(INSERT_HEAD[0])
  {
    var a := "INSERT INTO schema_migrations";
    assert Calm(a) && !IsSpace(a[0]);
    assert Calm(" (version, name, up_sha256)\nVALUES (");
  }

  lemma DeleteHeadIsCalm()
    ensures Calm(DELETE_HEAD) && DELETE_HEAD != "" && !IsSpace(DELETE_HEAD[0])
  {
    var a := "DELETE FROM schema_migrations";
    assert Calm(a) && !IsSpace(a[0]);
    assert Calm("\nWHERE version = ");
  }

  /** For any version, name and checksum, the ledger insert is exactly one statement. */
  lemma InsertIsOneStatement(version: int, name: string, upSha256: string)
    ensures var sql := LedgerInsertSql(version, name, upSha256); Split(sql) == Ok([sql])
  {
    InsertHeadIsCalm();
    OneStatement(INSERT_HEAD, version, ", ", name, ", ", upSha256, ")");
  }

  /** For any version, name and checksum, the ledger delete is exactly one statement. */
  lemma DeleteIsOneStatement(version: int, name: string, upSha256: string)
    ensures var sql := LedgerDeleteSql(version, name, upSha256); Split(sql) == Ok([sql])
  {
    DeleteHeadIsCalm();
    OneStatement(DELETE_HEAD, version, " AND name = ", name, " AND up_sha256 = ", upSha256, "");
  }

  // ---------------------------------------------------------------------------------------------
  // What stands where.
  // ---------------------------------------------------------------------------------------------

  /** A quoted text behind fixed text that ends in its opening quote. */
  lemma LiteralBehind(front: string, value: string, rest: string)
    requires rest == "" || rest[0] != '\''
    ensures var sql := front + (Doubled(value) + "'" + rest); front <= sql && ReadLiteral(sql[|front|..]) == Literal(value, rest)
  {
    hide ReadLiteral, Doubled;
    assert (front + (Doubled(value) + "'" + rest))[|front|..] == Doubled(value) + "'" + rest;
    DoubledReadsBack(value, rest);
  }

  lemma QuotedBehind(front: string, value: string, rest: string)
    ensures front + QuoteText(value) + rest == front + "'" + (Doubled(value) + "'" + rest)
  {
    hide Doubled;
    assert QuoteText(value) + rest == "'" + (Doubled(value) + "'" + rest);
    assert front + QuoteText(value) + rest == front + (QuoteText(value) + rest);
  }

  lemma Assoc(a: string, b: string, c: string)
    ensures a + b + c == a + (b + c)
  {
  }

  /** Both quoted texts of a ledger statement, each behind its own fixed text. */
  lemma LedgerSqlReads(head: string, version: int, mid: string, name: string, mid': string, sum: string, end: string)
    requires mid' != "" && mid'[0] != '\'' && end + ";" != "" && (end + ";")[0] != '\''
    ensures var sql, front := LedgerSql(head, version, mid, name, mid', sum, end), head + SignedDecimal(version) + mid + "'";
      && front <= sql && var first := ReadLiteral(sql[|front|..]);
      && first.Literal? && first.value == name && mid' + "'" <= first.rest
      && ReadLiteral(first.rest[|mid'| + 1..]) == Literal(sum, end + ";")
  {
    hide SignedDecimal, Doubled, QuoteText, ReadLiteral;
    var front := head + SignedDecimal(version) + mid;
    var last := mid' + "'" + (Doubled(sum) + "'" + (end + ";"));
    QuotedBehind(mid', sum, end + ";");
    assert LedgerSql(head, version, mid, name, mid', sum, end) == front + QuoteText(name) + last by {
      Assoc(front + QuoteText(name) + mid' + QuoteText(sum), end, ";");
      Assoc(front + QuoteText(name), mid' + QuoteText(sum), end + ";");
      Assoc(front + QuoteText(name), mid', QuoteText(sum));
    }
    QuotedBehind(front, name, last);
    assert last[0] == mid'[0];
    LiteralBehind(front + "'", name, last);
    LiteralBehind(mid' + "'", sum, end + ";");
  }

  /** The insert: the version, then the name, then the checksum, under these columns. */
  lemma InsertColumns(version: int, name: string, upSha256: string)
    ensures var sql, front := LedgerInsertSql(version, name, upSha256),
        "INSERT INTO schema_migrations" + " (version, name, up_sha256)\nVALUES (" + SignedDecimal(version) + ", " + "'";
      && front <= sql && var first := ReadLiteral(sql[|front|..]);
      && first.Literal? && first.value == name && ", " + "'" <= first.rest
      && ReadLiteral(first.rest[3..]) == Literal(upSha256, ")" + ";")
  {
    hide SignedDecimal, ReadLiteral, LedgerSql;
    LedgerSqlReads(INSERT_HEAD, version, ", ", name, ", ", upSha256, ")");
  }

  /** The delete: each of the three under its own column. */
  lemma DeleteColumns(version: int, name: string, upSha256: string)
    ensures var sql, front, next := LedgerDeleteSql(version, name, upSha256),
        "DELETE FROM schema_migrations" + "\nWHERE version = " + SignedDecimal(version) + " AND name = " + "'", " AND up_sha256 = ";
      && front <= sql && var first := ReadLiteral(sql[|front|..]);
      && first.Literal? && first.value == name && next + "'" <= first.rest
      && ReadLiteral(first.rest[|next| + 1..]) == Literal(upSha256, "" + ";")
  {
    hide SignedDecimal, ReadLiteral, LedgerSql;
    LedgerSqlReads(DELETE_HEAD, version, " AND name = ", name, " AND up_sha256 = ", upSha256, "");
  }
}
