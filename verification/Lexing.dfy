/** What the lexer and the cuts mean. */
module Lexing {
  import opened Results
  import opened Text
  import opened Statements
  import opened SqlText

  // ---------------------------------------------------------------------------------------------
  // Quotes and comments, read from outside both.
  // ---------------------------------------------------------------------------------------------

  lemma {:induction false} Stays(t: string, i: nat, q: Lex)
    requires i <= |t| && forall k | i <= k < |t| :: Step(q, t[k]) == q
    ensures Run(t, i, q) == q
    decreases |t| - i
  {
    if i < |t| {
      Stays(t, i + 1, q);
    }
  }

  /** Behind a single quote, everything up to the next one is inside the string. */
  lemma SingleQuotes(t: string)
    requires '\'' !in t
    ensures Run("'" + t, 0, Plain) == Single && Run("'" + t + "'", 0, Plain) == Plain
  {
    Stays(t, 0, Single);
    LexConcat("'", t, 0, Plain);
    LexConcat("'" + t, "'", 0, Plain);
  }

  /** The same for an identifier in double quotes. */
  lemma DoubleQuotes(t: string)
    requires '"' !in t
    ensures Run("\"" + t, 0, Plain) == Double && Run("\"" + t + "\"", 0, Plain) == Plain
  {
    Stays(t, 0, Double);
    LexConcat("\"", t, 0, Plain);
    LexConcat("\"" + t, "\"", 0, Plain);
  }

  /** Two minus signs open a comment that the next newline closes. */
  lemma LineComments(t: string)
    requires '\n' !in t
    ensures Run("--" + t, 0, Plain) == Line && Run("--" + t + "\n", 0, Plain) == Plain
  {
    Stays(t, 0, Line);
    assert Run("--", 1, Dash) == Line;
    LexConcat("--", t, 0, Plain);
    LexConcat("--" + t, "\n", 0, Plain);
  }

  predicate Closes(t: string) {
    exists i :: 0 <= i < |t| - 1 && t[i] == '*' && t[i + 1] == '/'
  }

  lemma {:induction false} InsideBlock(t: string, i: nat)
    requires !Closes(t) && 0 < i <= |t|
    ensures Run(t, i, if t[i - 1] == '*' then Star else Block) == if t[|t| - 1] == '*' then Star else Block
    decreases |t| - i
  {
    if i < |t| {
      assert !(t[i - 1] == '*' && t[i] == '/');
      InsideBlock(t, i + 1);
    }
  }

  /** A slash and a star open a comment that the next star and slash close. */
  lemma BlockComments(t: string)
    requires !Closes(t)
    ensures Run("/*" + t, 0, Plain) in {Block, Star} && Run("/*" + t + "*/", 0, Plain) == Plain
  {
    assert Run("/*", 1, Slash) == Block && Run("*/", 1, Star) == Plain;
    LexConcat("/*", t, 0, Plain);
    if t != "" {
      InsideBlock(t, 1);
      assert Run(t, 0, Block) == Run(t, 1, if t[0] == '*' then Star else Block);
    }
    LexConcat("/*" + t, "*/", 0, Plain);
  }

  /** Any other character is plain text, and so is a single minus sign or slash. */
  lemma PlainText(c: char)
    ensures c !in {'\'', '"', '-', '/'} ==> Run([c], 0, Plain) == Plain
    ensures Top(Run("-", 0, Plain)) && (c != '-' ==> Run(['-', c], 0, Plain) == Run([c], 0, Plain))
    ensures Top(Run("/", 0, Plain)) && (c != '*' ==> Run(['/', c], 0, Plain) == Run([c], 0, Plain))
    ensures Top(Plain) && !Top(Single) && !Top(Double) && !Top(Line) && !Top(Block) && !Top(Star)
  {
    assert Run(['-', c], 1, Dash) == Step(Dash, c) && Run(['/', c], 1, Slash) == Step(Slash, c);
  }

  // ---------------------------------------------------------------------------------------------
  // The first top-level semicolon.
  // ---------------------------------------------------------------------------------------------

  /** A semicolon outside quotes and comments. */
  predicate TopSemicolonAt(s: string, j: nat) {
    j < |s| && s[j] == ';' && Top(Run(s[..j], 0, Plain))
  }

  lemma {:induction false} RunFront(s: string, j: nat)
    requires j < |s|
    ensures Run(s[..j + 1], 0, Plain) == Step(Run(s[..j], 0, Plain), s[j])
  {
    LexConcat(s[..j], [s[j]], 0, Plain);
    assert s[..j + 1] == s[..j] + [s[j]];
  }

  lemma {:induction false} TerminatorFrom(s: string, i: nat)
    requires i <= |s|
    ensures var p := Terminator(s, i, Run(s[..i], 0, Plain));
      (p < |s| ==> TopSemicolonAt(s, p)) && forall j | i <= j < p :: !TopSemicolonAt(s, j)
    decreases |s| - i
  {
    if i < |s| && !TopSemicolonAt(s, i) {
      RunFront(s, i);
      TerminatorFrom(s, i + 1);
    }
  }

  lemma TerminatorIsFirst(s: string, p: nat)
    requires p <= |s|
    ensures Terminator(s, 0, Plain) == p <==> (p < |s| ==> TopSemicolonAt(s, p)) && forall j: nat | j < p :: !TopSemicolonAt(s, j)
  {
    assert s[..0] == "";
    TerminatorFrom(s, 0);
  }

  // ---------------------------------------------------------------------------------------------
  // Where the first fragment ends.
  // ---------------------------------------------------------------------------------------------

  lemma {:induction false} TailSkipsBlanks(s: string, semi: nat, i: nat, k: nat)
    requires semi <= i <= k <= |s| && forall j | i <= j < k :: s[j] in {' ', '\t', '\r'}
    ensures TailEnd(s, semi, i) == TailEnd(s, semi, k)
    decreases k - i
  {
    if i < k {
      assert s[i] in {' ', '\t', '\r'};
      TailSkipsBlanks(s, semi, i + 1, k);
    }
  }

  /** e is one past the first newline from i on, or the end of a text without one. */
  predicate LineStopsAt(s: string, i: nat, e: nat) {
    && i <= e <= |s| && (forall j | i <= j < e - 1 :: s[j] != '\n')
    && if e > i && s[e - 1] == '\n' then true else e == |s|
  }

  lemma {:induction false} LineEndIs(s: string, i: nat, e: nat)
    requires LineStopsAt(s, i, e)
    ensures LineEnd(s, i) == e
    decreases e - i
  {
    if i < e && s[i] != '\n' {
      LineEndIs(s, i + 1, e);
    }
  }

  lemma FirstEndIs(s: string, p: nat, k: nat, e: nat)
    requires p < k <= |s| && Terminator(s, 0, Plain) == p && forall j | p < j < k :: s[j] in {' ', '\t', '\r'}
    requires k < |s| ==> s[k] !in {' ', '\t', '\r'}
    ensures k == |s| ==> FirstEnd(s) == k
    ensures k < |s| && s[k] == '\n' ==> FirstEnd(s) == k + 1
    ensures k + 1 < |s| && s[k] == '-' && s[k + 1] == '-' && LineStopsAt(s, k + 2, e) ==> FirstEnd(s) == e
    ensures k < |s| && s[k] != '\n' && !(k + 1 < |s| && s[k] == '-' && s[k + 1] == '-') ==> FirstEnd(s) == p + 1
  {
    hide Terminator, LineEnd;
    TailSkipsBlanks(s, p + 1, p + 1, k);
    if k + 1 < |s| && s[k] == '-' && s[k + 1] == '-' && LineStopsAt(s, k + 2, e) {
      LineEndIs(s, k + 2, e);
    }
  }

  /**
   * The first cut, for every text. With its first top-level semicolon at p and blanks up to k behind it: a newline or
   * the end of the text at k is part of the fragment, a line comment at k is too, with its newline, and in front of
   * anything else the fragment ends at the semicolon.
   */
  lemma FirstFragmentEnds(s: string, p: nat, k: nat, e: nat)
    requires TopSemicolonAt(s, p) && forall j: nat | j < p :: !TopSemicolonAt(s, j)
    requires p < k <= |s| && forall j | p < j < k :: s[j] in {' ', '\t', '\r'}
    requires k < |s| ==> s[k] !in {' ', '\t', '\r'}
    ensures Fragments(s) != [] && Fragments(s)[0] <= s
    ensures Fragments(s)[1..] == Fragments(s[|Fragments(s)[0]|..]) && Leftover(s) == Leftover(s[|Fragments(s)[0]|..])
    ensures k == |s| ==> Fragments(s)[0] == s
    ensures k < |s| && s[k] == '\n' ==> Fragments(s)[0] == s[..k + 1]
    ensures k + 1 < |s| && s[k] == '-' && s[k + 1] == '-' && LineStopsAt(s, k + 2, e) ==> Fragments(s)[0] == s[..e]
    ensures k < |s| && s[k] != '\n' && !(k + 1 < |s| && s[k] == '-' && s[k + 1] == '-') ==> Fragments(s)[0] == s[..p + 1]
  {
    TerminatorIsFirst(s, p);
    FirstEndIs(s, p, k, e);
    var f := FirstEnd(s);
    hide TailEnd, Terminator, LineEnd, TopSemicolonAt, LineStopsAt, FirstEnd;
    FragmentsUnfold(s, s[..f], s[f..]);
    hide *;
    assert s[..|s|] == s && |s[..f]| == f;
  }

  /** Without a top-level semicolon there is no fragment. */
  lemma NoFragment(s: string)
    requires forall j: nat :: !TopSemicolonAt(s, j)
    ensures Fragments(s) == [] && Leftover(s) == s
  {
    TerminatorIsFirst(s, |s|);
  }

  /** What is handed to the driver: of every fragment its trimmed text, if there is anything to execute in it. */
  lemma FragmentsToStatements(fragments: seq<string>, f: string)
    ensures Trims([]) == []
    ensures Trims(fragments + [f]) == Trims(fragments) + if HasText(TrimSpace(f)) then [TrimSpace(f)] else []
  {
    TrimsAppend(fragments, f);
    assert [f][1..] == [];
  }

  // ---------------------------------------------------------------------------------------------
  // Executable text.
  // ---------------------------------------------------------------------------------------------

  lemma {:induction false} ExecutableSlice(s: string, a: nat, i: nat, q: Lex)
    requires a <= i <= |s|
    ensures Executable(s[a..], i - a, q) == Executable(s, i, q)
    decreases |s| - i
  {
    if i < |s| {
      assert s[a..][i - a] == s[i];
      ExecutableSlice(s, a, i + 1, Step(q, s[i]));
    }
  }

  /** Nothing to execute in an empty text; blanks, newlines and semicolons in front change nothing. */
  lemma BlanksDoNothing(c: char, rest: string)
    requires c in {' ', '\t', '\r', '\n', ';'}
    ensures !HasText("") && HasText([c] + rest) == HasText(rest)
  {
    var s := [c] + rest;
    ExecutableSlice(s, 1, 1, Plain);
    assert s[1..] == rest;
  }

  lemma {:induction false} InsideLine(s: string, i: nat, k: nat)
    requires i <= k <= |s| && forall j | i <= j < k :: s[j] != '\n'
    ensures Executable(s, i, Line) == Executable(s, k, Line)
    decreases k - i
  {
    if i < k {
      InsideLine(s, i + 1, k);
    }
  }

  /** A line comment with its newline changes nothing, and one that ends the text has nothing to execute. */
  lemma LineCommentsDoNothing(t: string, rest: string)
    requires '\n' !in t
    ensures !HasText("--" + t) && HasText("--" + t + "\n" + rest) == HasText(rest)
  {
    var a, s := "--" + t, "--" + t + "\n" + rest;
    InsideLine(a, 2, |a|);
    assert Executable(a, 0, Plain) == Executable(a, 1, Dash) == Executable(a, 2, Line);
    InsideLine(s, 2, |a|);
    assert Executable(s, 0, Plain) == Executable(s, 1, Dash) == Executable(s, 2, Line);
    ExecutableSlice(s, |a| + 1, |a| + 1, Plain);
    assert s[|a| + 1..] == rest;
  }

  lemma {:induction false} InsideBlockText(s: string, i: nat, k: nat)
    requires 0 < i <= k <= |s| && forall j | i <= j < k :: !(s[j - 1] == '*' && s[j] == '/')
    ensures Executable(s, i, if s[i - 1] == '*' then Star else Block) == Executable(s, k, if s[k - 1] == '*' then Star else Block)
    decreases k - i
  {
    if i < k {
      InsideBlockText(s, i + 1, k);
    }
  }

  /** The lexer behind an opened block comment that t does not close. */
  lemma BehindOpenBlock(s: string, t: string)
    requires |t| + 2 <= |s| && s[..|t| + 2] == "/*" + t && !Closes(t)
    ensures Executable(s, 0, Plain) == Executable(s, |t| + 2, if t != "" && t[|t| - 1] == '*' then Star else Block)
  {
    hide Executable;
    OpenedBlock(s, t);
    if t != "" {
      assert s[2..|t| + 2] == s[..|t| + 2][2..] == t;
      NeverClosed(s, t);
      InsideBlockText(s, 3, |t| + 2);
      assert s[2] == s[2..|t| + 2][0] && s[|t| + 1] == s[2..|t| + 2][|t| - 1];
    }
  }

  lemma ClosedBlock(s: string, i: nat, q: Lex)
    requires i + 2 <= |s| && s[i] == '*' && s[i + 1] == '/' && (q.Block? || q.Star?)
    ensures Executable(s, i, q) == Executable(s, i + 2, Plain)
  {
    assert Executable(s, i, q) == Executable(s, i + 1, Star) == Executable(s, i + 2, Plain);
  }

  /** The same for a block comment. */
  lemma BlockCommentsDoNothing(t: string, rest: string)
    requires !Closes(t)
    ensures !HasText("/*" + t) && HasText("/*" + t + "*/" + rest) == HasText(rest)
  {
    var a, s := "/*" + t, "/*" + t + "*/" + rest;
    BehindOpenBlock(a, t);
    assert s[..|t| + 2] == "/*" + t;
    BehindOpenBlock(s, t);
    assert s[|a|] == '*' && s[|a| + 1] == '/';
    ClosedBlock(s, |a|, if t != "" && t[|t| - 1] == '*' then Star else Block);
    assert s[|a| + 2..] == rest;
    hide Executable;
    ExecutableSlice(s, |a| + 2, |a| + 2, Plain);
    EndOfBlock(a, if t != "" && t[|t| - 1] == '*' then Star else Block);
  }

  lemma EndOfBlock(s: string, q: Lex)
    requires q.Block? || q.Star?
    ensures !Executable(s, |s|, q)
  {
  }

  lemma NeverClosed(s: string, t: string)
    requires |t| + 2 <= |s| && s[2..|t| + 2] == t && !Closes(t)
    ensures forall j | 3 <= j < |t| + 2 :: !(s[j - 1] == '*' && s[j] == '/')
  {
    assert forall j | 0 <= j < |t| :: s[j + 2] == t[j];
  }

  lemma OpenedBlock(s: string, t: string)
    requires |t| + 2 <= |s| && s[..|t| + 2] == "/*" + t
    ensures Executable(s, 0, Plain) == Executable(s, 2, Block)
    ensures t != "" ==> Executable(s, 0, Plain) == Executable(s, 3, if t[0] == '*' then Star else Block)
  {
    assert s[0] == s[..|t| + 2][0] == '/' && s[1] == s[..|t| + 2][1] == '*';
    assert t != "" ==> s[2] == s[..|t| + 2][2] == t[0];
    assert Executable(s, 0, Plain) == Executable(s, 1, Slash) == Executable(s, 2, Block);
  }

  /** Anything else is executable: another character, or a minus sign or slash that opens no comment. */
  lemma OtherTextIsExecutable(c: char, rest: string)
    ensures c !in {' ', '\t', '\r', '\n', ';', '-', '/'} ==> HasText([c] + rest)
    ensures c == '-' && (rest == "" || rest[0] != '-') ==> HasText([c] + rest)
    ensures c == '/' && (rest == "" || rest[0] != '*') ==> HasText([c] + rest)
  {
    var s := [c] + rest;
    assert rest != "" ==> s[1] == rest[0];
  }
}
