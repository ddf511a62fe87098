/** Tiling, exact errors, print-then-split. */
module StatementsTheorems {
  import opened Results
  import opened Text
  import opened Statements

  function Concat(parts: seq<string>): string {
    if parts == [] then "" else parts[0] + Concat(parts[1..])
  }

  /** strings.Join(statements, "\n"). */
  function JoinLines(statements: seq<string>): string {
    if statements == [] then ""
    else if |statements| == 1 then statements[0]
    else statements[0] + "\n" + JoinLines(statements[1..])
  }

  /** Blanks, then nothing, a newline, or a line comment with at most a final newline. */
  predicate IsTail(t: string) {
    || t == "" || t == "\n"
    || (Blank(t[0]) && IsTail(t[1..]))
    || (|t| >= 2 && t[0] == t[1] == '-' && forall i | 2 <= i < |t| - 1 :: t[i] != '\n')
  }

  // ---------------------------------------------------------------------------------------------
  // Tiling.
  // ---------------------------------------------------------------------------------------------

  lemma {:induction false} UpToTerminator(s: string, i: nat, q: Lex)
    requires i <= |s|
    ensures var p := Terminator(s, i, q);
      if p < |s| then
        && Run(s, i, q) == Run(s, p + 1, Plain)
        && TopSemicolons(s, i, q) == 1 + TopSemicolons(s, p + 1, Plain)
      else TopSemicolons(s, i, q) == 0
    decreases |s| - i
  {
    if i < |s| && !(s[i] == ';' && Top(q)) {
      UpToTerminator(s, i + 1, Step(q, s[i]));
    }
  }

  lemma {:induction false} AcrossLine(s: string, i: nat)
    requires i <= |s|
    ensures var e := LineEnd(s, i);
      && TopSemicolons(s, i, Line) == TopSemicolons(s, e, Plain)
      && (e < |s| ==> Run(s, i, Line) == Run(s, e, Plain))
      && (e == |s| ==> Run(s, i, Line) in {Plain, Line})
    ensures LineEnd(s[..LineEnd(s, i)], i) == LineEnd(s, i)
    ensures forall k | i <= k < LineEnd(s, i) - 1 :: s[k] != '\n'
    decreases |s| - i
  {
    if i < |s| && s[i] != '\n' {
      AcrossLine(s, i + 1);
    }
  }

  lemma {:induction false} AcrossTail(s: string, semi: nat, i: nat)
    requires semi <= i <= |s|
    ensures var e := TailEnd(s, semi, i);
      if e == semi < i then true
      else
        && i <= e && IsTail(s[i..e])
        && TailEnd(s[..e], semi, i) == e
        && TopSemicolons(s, i, Plain) == TopSemicolons(s, e, Plain)
        && (e < |s| ==> Run(s, i, Plain) == Run(s, e, Plain))
        && (e == |s| ==> Run(s, i, Plain) in {Plain, Line})
    decreases |s| - i
  {
    hide LineEnd;
    var e := TailEnd(s, semi, i);
    if i < |s| {
      if Blank(s[i]) {
        AcrossTail(s, semi, i + 1);
        if e > i { assert s[i..e][1..] == s[i + 1..e]; }
      } else if s[i] != '\n' && s[i] == '-' && i + 1 < |s| && s[i + 1] == '-' {
        AcrossLine(s, i + 2);
        assert Step(Step(Plain, '-'), '-') == Line;
        assert Run(s, i, Plain) == Run(s, i + 1, Dash) == Run(s, i + 2, Line);
        assert TopSemicolons(s, i, Plain) == TopSemicolons(s, i + 1, Dash) == TopSemicolons(s, i + 2, Line);
      }
    }
  }

  lemma {:induction false} TopSemicolonsOfSuffix(s: string, a: nat, i: nat, q: Lex)
    requires a <= i <= |s|
    ensures TopSemicolons(s[a..], i - a, q) == TopSemicolons(s, i, q)
    decreases |s| - i
  {
    if i < |s| {
      assert s[a..][i - a] == s[i];
      TopSemicolonsOfSuffix(s, a, i + 1, Step(q, s[i]));
    }
  }

  /** One complete fragment: it is its own first fragment, with one top-level semicolon in front of a tail. */
  ghost predicate IsFragment(f: string) {
    && FirstEnd(f) == |f| > 0
    && TopSemicolons(f, 0, Plain) == 1
    && IsTail(f[Terminator(f, 0, Plain) + 1..])
  }

  lemma FirstFragment(s: string)
    requires FirstEnd(s) > 0
    ensures IsFragment(s[..FirstEnd(s)])
  {
    var p, e := Terminator(s, 0, Plain), FirstEnd(s);
    AcrossTail(s, p + 1, p + 1);
    var f := s[..e];
    TerminatorSlice(s, 0, e, 0, Plain);
    assert s[0..e] == f;
    assert Terminator(f, 0, Plain) == p && FirstEnd(f) == e;
    assert f[p + 1..] == s[p + 1..e];
    OneSemicolon(f);
  }

  lemma OneSemicolon(f: string)
    requires FirstEnd(f) == |f| > 0
    ensures TopSemicolons(f, 0, Plain) == 1
  {
    var p := Terminator(f, 0, Plain);
    UpToTerminator(f, 0, Plain);
    AcrossTail(f, p + 1, p + 1);
  }

  /** The semicolons behind the first cut. */
  lemma SemicolonsBehindFirstCut(s: string)
    requires FirstEnd(s) > 0
    ensures TopSemicolons(s, 0, Plain) == 1 + TopSemicolons(s[FirstEnd(s)..], 0, Plain)
  {
    var p, e := Terminator(s, 0, Plain), FirstEnd(s);
    UpToTerminator(s, 0, Plain);
    AcrossTail(s, p + 1, p + 1);
    TopSemicolonsOfSuffix(s, e, e, Plain);
  }

  /** The lexer starts afresh behind the first cut. */
  lemma LexerBehindFirstCut(s: string)
    requires FirstEnd(s) > 0
    ensures var e := FirstEnd(s);
      if e < |s| then Run(s, 0, Plain) == Run(s[e..], 0, Plain) else Run(s, 0, Plain) in {Plain, Line}
  {
    var p, e := Terminator(s, 0, Plain), FirstEnd(s);
    UpToTerminator(s, 0, Plain);
    AcrossTail(s, p + 1, p + 1);
    FirstEndOfSuffix(s, e);
  }

  lemma ConcatCons(f: string, parts: seq<string>, tail: string)
    ensures Concat([f] + parts) + tail == f + (Concat(parts) + tail)
  {
  }

  /** The emitted and dropped fragments, then the leftover, tile the body in order. */
  lemma {:induction false} FragmentsTile(body: string)
    ensures Concat(Fragments(body)) + Leftover(body) == body
    decreases |body|
  {
    var e := FirstEnd(body);
    if e != 0 {
      hide *;
      var f, rest := body[..e], body[e..];
      FragmentsTile(rest);
      FragmentsUnfold(body, f, rest);
      ConcatCons(f, Fragments(rest), Leftover(rest));
    }
  }

  /** Each fragment ends at exactly one top-level semicolon with its tail, and no semicolon is left over. */
  lemma {:induction false} FragmentsHoldOneSemicolonEach(body: string)
    ensures forall f | f in Fragments(body) :: IsFragment(f)
    ensures |Fragments(body)| == TopSemicolons(body, 0, Plain)
    ensures TopSemicolons(Leftover(body), 0, Plain) == 0
    decreases |body|
  {
    var e := FirstEnd(body);
    if e == 0 {
      UpToTerminator(body, 0, Plain);
    } else {
      var rest := body[e..];
      FragmentsHoldOneSemicolonEach(rest);
      FirstFragment(body);
      SemicolonsBehindFirstCut(body);
      FragmentsUnfold(body, body[..e], rest);
    }
  }

  /** Cutting never changes what the lexer ends in, up to an open line comment that the end of the text closes. */
  lemma {:induction false} LexerEndsAlike(body: string)
    ensures var whole, left := Run(body, 0, Plain), Run(Leftover(body), 0, Plain);
      whole == left || (Leftover(body) == "" && whole.Line?)
    decreases |body|
  {
    var e := FirstEnd(body);
    if e != 0 {
      LexerBehindFirstCut(body);
      LexerEndsAlike(body[e..]);
    }
  }

  /** The splitter fails exactly when the lexer of the whole body says so. */
  lemma SplitFailsExactly(body: string)
    ensures var r, end := Split(body), Run(body, 0, Plain);
      && (r == Err(UnterminatedString) <==> end.Single?)
      && (r == Err(UnterminatedIdentifier) <==> end.Double?)
      && (r == Err(UnterminatedComment) <==> end.Block? || end.Star?)
      && (r == Err(MissingSemicolon) <==>
            !end.Single? && !end.Double? && !end.Block? && !end.Star? && HasText(Leftover(body)))
      && (r.Ok? <==>
            && !end.Single? && !end.Double? && !end.Block? && !end.Star?
            && !HasText(Leftover(body))
            && exists f :: f in Fragments(body) && HasText(TrimSpace(f)))
  {
    LexerEndsAlike(body);
    TrimsEmpty(Fragments(body));
  }

  lemma {:induction false} TrimsEmpty(fragments: seq<string>)
    ensures Trims(fragments) == [] <==> forall f | f in fragments :: !HasText(TrimSpace(f))
  {
    if fragments != [] {
      TrimsEmpty(fragments[1..]);
      assert fragments == [fragments[0]] + fragments[1..];
    }
  }

  // ---------------------------------------------------------------------------------------------
  // Print, then split.
  // ---------------------------------------------------------------------------------------------

  /** What the splitter hands to the driver: one trimmed fragment with executable text. */
  ghost predicate IsStatement(t: string) {
    t != "" && Trimmed(t) && HasText(t) && FirstEnd(t) == |t|
  }

  lemma {:induction false} LeadingSpace(s: string, a: nat, i: nat)
    requires i <= a <= |s| && forall k | i <= k < a :: IsSpace(s[k])
    ensures Terminator(s, i, Plain) == Terminator(s, a, Plain)
    decreases a - i
  {
    if i < a {
      assert IsSpace(s[i]) && Step(Plain, s[i]) == Plain;
      LeadingSpace(s, a, i + 1);
    }
  }

  lemma {:induction false} LineWithoutNewline(s: string, b: nat, i: nat)
    requires i <= b <= |s| && LineEnd(s, i) == |s|
    ensures LineEnd(s[..b], i) == b
    decreases b - i
  {
    if i < b {
      LineWithoutNewline(s, b, i + 1);
    }
  }

  /** Cutting white space off the end of a fragment leaves its tail reaching the end. */
  lemma {:induction false} TailOfTrimmed(f: string, semi: nat, i: nat, b: nat)
    requires semi <= i < b <= |f| && TailEnd(f, semi, i) == |f|
    requires !IsSpace(f[b - 1]) && forall k | b <= k < |f| :: IsSpace(f[k])
    ensures TailEnd(f[..b], semi, i) == b
    decreases b - i
  {
    var g := f[..b];
    if Blank(f[i]) {
      TailOfTrimmed(f, semi, i + 1, b);
    } else {
      assert IsSpace('\n');
      assert f[i] == '-' && f[i + 1] == '-';
      LineWithoutNewline(f, b, i + 2);
    }
  }

  /** A fragment with executable text trims to a statement. */
  lemma TrimmedFragment(f: string)
    requires FirstEnd(f) == |f| > 0 && HasText(TrimSpace(f))
    ensures IsStatement(TrimSpace(f))
  {
    hide Executable, Run, TopSemicolons, Fragments, TrimSpace;
    var p := Terminator(f, 0, Plain);
    var a, b := TrimSpaceCuts(f);
    var t, g := f[a..b], f[..b];
    assert a <= p < b && !IsSpace(';');
    LeadingSpace(f, a, 0);
    TerminatorSlice(f, a, b, a, Plain);
    if p + 1 < b {
      TailOfTrimmed(f, p + 1, p + 1, b);
    }
    TailEndSlice(g, a, p + 1, p + 1);
    assert g[a..] == t;
  }

  lemma {:induction false} LineThenNewline(t: string, r: string, i: nat)
    requires i <= |t| && LineEnd(t, i) == |t| && t != "" && !IsSpace(t[|t| - 1])
    ensures LineEnd(t + "\n" + r, i) == |t| + 1
    decreases |t| - i
  {
    var s := t + "\n" + r;
    assert IsSpace('\n');
    if i < |t| {
      assert s[i] == t[i];
      LineThenNewline(t, r, i + 1);
    }
  }

  lemma {:induction false} TailThenNewline(t: string, r: string, semi: nat, i: nat)
    requires semi <= i <= |t| && TailEnd(t, semi, i) == |t| && t != "" && !IsSpace(t[|t| - 1])
    ensures TailEnd(t + "\n" + r, semi, i) == |t| + 1
    decreases |t| - i
  {
    var s := t + "\n" + r;
    assert IsSpace('\n');
    if i < |t| {
      assert s[i] == t[i];
      if Blank(t[i]) {
        TailThenNewline(t, r, semi, i + 1);
      } else {
        assert t[i] == '-' && t[i + 1] == '-' && s[i + 1] == '-';
        LineThenNewline(t, r, i + 2);
      }
    }
  }

  /** Behind a newline, a statement is cut off with that newline, whatever follows. */
  lemma StatementThenNewline(t: string, r: string)
    requires IsStatement(t)
    ensures FirstEnd(t + "\n" + r) == |t| + 1
  {
    var s, p := t + "\n" + r, Terminator(t, 0, Plain);
    TerminatorSlice(s, 0, |t|, 0, Plain);
    assert s[0..|t|] == t;
    TailThenNewline(t, r, p + 1, p + 1);
  }

  /** Printing any statements one to a line and splitting the text gives them back. */
  lemma {:induction false} JoinThenSplit(statements: seq<string>)
    requires statements != [] && forall t | t in statements :: IsStatement(t)
    ensures Trims(Fragments(JoinLines(statements))) == statements
    ensures Leftover(JoinLines(statements)) == ""
  {
    var t, s := statements[0], JoinLines(statements);
    assert t in statements && IsStatement(t);
    TrimSpaceDropsTail(t, "");
    assert t + "" == t;
    if |statements| == 1 {
      FragmentsUnfold(s, t, "");
      assert Fragments("") == [];
    } else {
      var rest := JoinLines(statements[1..]);
      JoinThenSplit(statements[1..]);
      StatementThenNewline(t, rest);
      FragmentsUnfold(s, t + "\n", rest);
      assert IsSpace('\n');
      TrimSpaceDropsTail(t, "\n");
      assert Trims([t + "\n"] + Fragments(rest)) == [t] + Trims(Fragments(rest));
    }
  }

  lemma {:induction false} TrimsAreStatements(fragments: seq<string>)
    requires forall f | f in fragments :: FirstEnd(f) == |f| > 0
    ensures forall t | t in Trims(fragments) :: IsStatement(t)
  {
    if fragments != [] {
      TrimsAreStatements(fragments[1..]);
      if HasText(TrimSpace(fragments[0])) {
        TrimmedFragment(fragments[0]);
      }
    }
  }

  /**
   * The round trip. What the splitter returns for a body is a list of statements; joined by newlines they
   * split into the same list; and each of them alone splits into itself.
   */
  lemma SplitRoundTrip(body: string)
    requires Split(body).Ok?
    ensures var ts := Split(body).value;
      && Split(JoinLines(ts)) == Ok(ts)
      && forall t | t in ts :: IsStatement(t) && Split(t) == Ok([t])
  {
    var ts := Split(body).value;
    FragmentsHoldOneSemicolonEach(body);
    TrimsAreStatements(Fragments(body));
    JoinThenSplit(ts);
    forall t | t in ts ensures Split(t) == Ok([t]) {
      assert JoinLines([t]) == t;
      JoinThenSplit([t]);
    }
  }

  /** The statements are exactly what can come out of the splitter: any list of them is somebody's split. */
  lemma StatementsAreSplits(statements: seq<string>)
    requires statements != []
    ensures (forall t | t in statements :: IsStatement(t)) <==> exists body :: Split(body) == Ok(statements)
  {
    if forall t | t in statements :: IsStatement(t) {
      JoinThenSplit(statements);
      assert Split(JoinLines(statements)) == Ok(statements);
    }
    forall body | Split(body) == Ok(statements) ensures forall t | t in statements :: IsStatement(t) {
      SplitRoundTrip(body);
    }
  }
}
