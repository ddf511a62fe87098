/** The statement splitter and its lexer. */
module Statements {
  import opened Results
  import opened Text

  // The scanner looks one character ahead; the lexer reads one character at a time and says what the scanner is
  // supposed to compute.

  // ---------------------------------------------------------------------------------------------
  // The lexer. No lookahead: a doubled quote closes and reopens, and a comment opener is recognised
  // on its second character.
  // ---------------------------------------------------------------------------------------------

  datatype Lex = Plain | Dash | Slash | Single | Double | Line | Block | Star

  /** Outside quotes and comments. */
  predicate Top(q: Lex) {
    q.Plain? || q.Dash? || q.Slash?
  }

  function Step(q: Lex, c: char): Lex {
    match q
    case Single => if c == '\'' then Plain else Single
    case Double => if c == '"' then Plain else Double
    case Line => if c == '\n' then Plain else Line
    case Block => if c == '*' then Star else Block
    case Star => if c == '/' then Plain else if c == '*' then Star else Block
    case _ =>
      if c == '\'' then Single
      else if c == '"' then Double
      else if c == '-' then if q.Dash? then Line else Dash
      else if c == '/' then Slash
      else if c == '*' && q.Slash? then Block
      else Plain
  }

  /** The lexer's state after reading all of s[i..] from state q. */
  function Run(s: string, i: nat, q: Lex): Lex
    requires i <= |s|
    decreases |s| - i
  {
    if i == |s| then q else Run(s, i + 1, Step(q, s[i]))
  }

  /** The first semicolon of s[i..] outside quotes and comments, or |s|. */
  function Terminator(s: string, i: nat, q: Lex): (p: nat)
    requires i <= |s|
    ensures i <= p <= |s|
    ensures p < |s| ==> s[p] == ';'
    decreases |s| - i
  {
    if i == |s| then |s|
    else if s[i] == ';' && Top(q) then i
    else Terminator(s, i + 1, Step(q, s[i]))
  }

  /** How many semicolons of s[i..] stand outside quotes and comments. */
  function TopSemicolons(s: string, i: nat, q: Lex): nat
    requires i <= |s|
    decreases |s| - i
  {
    if i == |s| then 0
    else (if s[i] == ';' && Top(q) then 1 else 0) + TopSemicolons(s, i + 1, Step(q, s[i]))
  }

  predicate Blank(c: char) {
    c == ' ' || c == '\t' || c == '\r'
  }

  /** One past the newline that ends the line of position i. */
  function LineEnd(s: string, i: nat): (e: nat)
    requires i <= |s|
    ensures i <= e <= |s|
    decreases |s| - i
  {
    if i == |s| then i else if s[i] == '\n' then i + 1 else LineEnd(s, i + 1)
  }

  /**
   * Where a statement whose semicolon is just before `semi` ends: blanks and a newline, or blanks and a
   * line comment, stay with it; in front of anything else it ends at the semicolon.
   */
  function TailEnd(s: string, semi: nat, i: nat): (e: nat)
    requires semi <= i <= |s|
    ensures semi <= e <= |s|
    decreases |s| - i
  {
    if i == |s| then i
    else if Blank(s[i]) then TailEnd(s, semi, i + 1)
    else if s[i] == '\n' then i + 1
    else if s[i] == '-' && i + 1 < |s| && s[i + 1] == '-' then LineEnd(s, i + 2)
    else semi
  }

  /** The end of the first fragment of s, one past a top-level semicolon and its tail; None without one. */
  function FirstEnd(s: string): (e: nat)
    ensures e <= |s|
    ensures e == 0 <==> Terminator(s, 0, Plain) == |s|
  {
    var p := Terminator(s, 0, Plain);
    if p == |s| then 0 else TailEnd(s, p + 1, p + 1)
  }

  /** The terminated fragments of s, in order. */
  function Fragments(s: string): seq<string>
    decreases |s|
  {
    var e := FirstEnd(s);
    if e == 0 then [] else [s[..e]] + Fragments(s[e..])
  }

  /** What follows the last terminated fragment. */
  function Leftover(s: string): string
    decreases |s|
  {
    var e := FirstEnd(s);
    if e == 0 then s else Leftover(s[e..])
  }

  /** Some character of s[i..] is neither blank, semicolon nor comment. */
  predicate Executable(s: string, i: nat, q: Lex)
    requires i <= |s|
    decreases |s| - i
  {
    if i == |s| then q.Dash? || q.Slash?
    else if q.Dash? && s[i] != '-' then true
    else if q.Slash? && s[i] != '*' then true
    else if q.Plain? && s[i] !in {'-', '/', ';', ' ', '\t', '\r', '\n'} then true
    else Executable(s, i + 1, Step(q, s[i]))
  }

  predicate HasText(s: string) {
    Executable(s, 0, Plain)
  }

  /** The fragments worth executing, trimmed. */
  function Trims(fragments: seq<string>): seq<string> {
    if fragments == [] then []
    else
      var t := TrimSpace(fragments[0]);
      (if HasText(t) then [t] else []) + Trims(fragments[1..])
  }

  datatype SplitError = UnterminatedString | UnterminatedIdentifier | UnterminatedComment | MissingSemicolon | NoStatements
  type SplitResult = Result<seq<string>, SplitError>

  function Split(body: string): SplitResult {
    var end := Run(Leftover(body), 0, Plain);
    if end.Single? then Err(UnterminatedString)
    else if end.Double? then Err(UnterminatedIdentifier)
    else if end.Block? || end.Star? then Err(UnterminatedComment)
    else if HasText(Leftover(body)) then Err(MissingSemicolon)
    else if Trims(Fragments(body)) == [] then Err(NoStatements)
    else Ok(Trims(Fragments(body)))
  }

  // ---------------------------------------------------------------------------------------------
  // The scanner.
  // ---------------------------------------------------------------------------------------------

  datatype Mode = Normal | SingleQuote | DoubleQuote | LineComment | BlockComment

  /**
   * The scanner's mode against the lexer's state at the same index. The scanner has looked one character
   * ahead, so it never stops in the middle of a two-character token.
   */
  predicate Agrees(mode: Mode, q: Lex, s: string, i: nat)
    requires i <= |s|
  {
    match mode
    case Normal => Top(q) && (i < |s| ==> (q.Dash? ==> s[i] != '-') && (q.Slash? ==> s[i] != '*'))
    case SingleQuote => q.Single?
    case DoubleQuote => q.Double?
    case LineComment => q.Line?
    case BlockComment => q.Block? || (q.Star? && (i < |s| ==> s[i] != '/'))
  }

  method HasExecutableText(fragment: string) returns (yes: bool)
    ensures yes == HasText(fragment)
  {
    var mode := Normal;
    var i := 0;
    ghost var q := Plain;
    while i < |fragment|
      invariant 0 <= i <= |fragment|
      invariant mode.Normal? ==> q.Plain?
      invariant !mode.SingleQuote? && !mode.DoubleQuote? && Agrees(mode, q, fragment, i)
      invariant HasText(fragment) == Executable(fragment, i, q)
    {
      var c := fragment[i];
      q := Step(q, c);
      match mode {
        case Normal =>
          if c == '\'' || c == '"' {
            return true;
          } else if c == '-' && i + 1 < |fragment| && fragment[i + 1] == '-' {
            mode := LineComment;
            i, q := i + 2, Step(q, '-');
          } else if c == '/' && i + 1 < |fragment| && fragment[i + 1] == '*' {
            mode := BlockComment;
            i, q := i + 2, Step(q, '*');
          } else if c == ';' || Blank(c) || c == '\n' {
            i := i + 1;
          } else {
            return true;
          }
        case LineComment =>
          if c == '\n' {
            mode := Normal;
          }
          i := i + 1;
        case BlockComment =>
          if c == '*' && i + 1 < |fragment| && fragment[i + 1] == '/' {
            mode := Normal;
            i, q := i + 2, Plain;
          } else {
            i := i + 1;
          }
      }
    }
    return false;
  }

  lemma TrimsAppend(fragments: seq<string>, f: string)
    ensures Trims(fragments + [f]) == Trims(fragments) + Trims([f])
  {
    if fragments != [] {
      assert (fragments + [f])[1..] == fragments[1..] + [f];
      TrimsAppend(fragments[1..], f);
    }
  }

  /** The scanner's closure: append the trimmed fragment unless it is only comments. */
  method Emit(statements: seq<string>, fragment: string) returns (r: seq<string>)
    ensures r == statements + Trims([fragment])
  {
    var statement := TrimSpace(fragment);
    var yes := HasExecutableText(statement);
    r := if yes then statements + [statement] else statements;
  }

  // Positions in a suffix.

  lemma {:induction false} TerminatorSlice(s: string, a: nat, b: nat, i: nat, q: Lex)
    requires a <= i <= b <= |s|
    ensures Terminator(s[a..b], i - a, q) == (var p := Terminator(s, i, q); if p < b then p - a else b - a)
    decreases b - i
  {
    if i < b {
      assert s[a..b][i - a] == s[i];
      if !(s[i] == ';' && Top(q)) {
        TerminatorSlice(s, a, b, i + 1, Step(q, s[i]));
      }
    }
  }

  lemma {:induction false} RunSlice(s: string, a: nat, i: nat, q: Lex)
    requires a <= i <= |s|
    ensures Run(s[a..], i - a, q) == Run(s, i, q)
    decreases |s| - i
  {
    if i < |s| {
      assert s[a..][i - a] == s[i];
      RunSlice(s, a, i + 1, Step(q, s[i]));
    }
  }

  lemma {:induction false} LineEndSlice(s: string, a: nat, i: nat)
    requires a <= i <= |s|
    ensures LineEnd(s[a..], i - a) == LineEnd(s, i) - a
    decreases |s| - i
  {
    if i < |s| {
      assert s[a..][i - a] == s[i];
      LineEndSlice(s, a, i + 1);
    }
  }

  lemma {:induction false} TailEndSlice(s: string, a: nat, semi: nat, i: nat)
    requires a <= semi <= i <= |s|
    ensures TailEnd(s[a..], semi - a, i - a) == TailEnd(s, semi, i) - a
    decreases |s| - i
  {
    if i < |s| {
      assert s[a..][i - a] == s[i];
      TailEndSlice(s, a, semi, i + 1);
      if i + 1 < |s| {
        assert s[a..][i + 1 - a] == s[i + 1];
        LineEndSlice(s, a, i + 2);
      }
    }
  }

  /** The first fragment of a suffix, by positions in the whole text. */
  lemma FirstEndOfSuffix(s: string, start: nat)
    requires start <= |s|
    ensures var p := Terminator(s, start, Plain);
      FirstEnd(s[start..]) == if p == |s| then 0 else TailEnd(s, p + 1, p + 1) - start
    ensures Run(s[start..], 0, Plain) == Run(s, start, Plain)
  {
    hide Terminator, Run, TailEnd;
    RunSlice(s, start, start, Plain);
    TerminatorSlice(s, start, |s|, start, Plain);
    assert s[start..|s|] == s[start..];
    var p := Terminator(s, start, Plain);
    if p < |s| {
      TailEndSlice(s, start, p + 1, p + 1);
    }
  }

  lemma FragmentsUnfold(s: string, f: string, rest: string)
    requires FirstEnd(s) > 0 && f == s[..FirstEnd(s)] && rest == s[FirstEnd(s)..]
    ensures Fragments(s) == [f] + Fragments(rest)
    ensures Leftover(s) == Leftover(rest)
  {
  }

  lemma SuffixOfSuffix<T>(s: seq<T>, a: nat, b: nat)
    requires a <= b <= |s|
    ensures s[a..][..b - a] == s[a..b] && s[a..][b - a..] == s[b..]
  {
  }

  lemma CutOnce(body: string, start: nat, end: nat, done: seq<string>)
    requires start < end <= |body|
    requires Fragments(body) == done + Fragments(body[start..])
    requires Leftover(body) == Leftover(body[start..])
    requires FirstEnd(body[start..]) == end - start
    ensures Fragments(body) == (done + [body[start..end]]) + Fragments(body[end..])
    ensures Leftover(body) == Leftover(body[end..])
  {
    hide *;
    var s, f, rest := body[start..], body[start..end], body[end..];
    SuffixOfSuffix(body, start, end);
    FragmentsUnfold(s, f, rest);
    Regroup(done, f, Fragments(rest));
  }

  lemma Regroup<T>(a: seq<T>, x: T, b: seq<T>)
    ensures a + ([x] + b) == (a + [x]) + b
  {
  }

  /** What the scanner knows at index i, with the last cut at `start` and the lexer in state q. */
  ghost predicate Scanned(body: string, start: nat, pending: int, mode: Mode, i: nat, q: Lex)
    requires start <= i <= |body|
  {
    Agrees(mode, q, body, i) &&
    if pending < 0 then
      && Terminator(body, start, Plain) == Terminator(body, i, q)
      && Run(body, start, Plain) == Run(body, i, q)
    else
      && start < pending <= i
      && Terminator(body, start, Plain) == pending - 1
      && match mode
         case Normal =>
           && q == Plain && TailEnd(body, pending, pending) == TailEnd(body, pending, i)
           && Terminator(body, pending, Plain) == Terminator(body, i, Plain)
           && Run(body, pending, Plain) == Run(body, i, Plain)
         case LineComment => TailEnd(body, pending, pending) == LineEnd(body, i)
         case _ => false
  }

  /** The text before `start` has been cut into `done`, and `statements` are its trims. */
  ghost predicate Emitted(body: string, start: nat, done: seq<string>, statements: seq<string>)
    requires start <= |body|
  {
    && Fragments(body) == done + Fragments(body[start..])
    && Leftover(body) == Leftover(body[start..])
    && statements == Trims(done)
  }

  /** One cut of the scanner: at `end` the pending statement and its tail are over. */
  method Cut(body: string, start: nat, end: nat, statements: seq<string>, ghost done: seq<string>)
    returns (r: seq<string>, ghost done': seq<string>)
    requires start < end <= |body|
    requires Emitted(body, start, done, statements)
    requires Terminator(body, start, Plain) < |body|
    requires var p := Terminator(body, start, Plain); TailEnd(body, p + 1, p + 1) == end
    ensures Emitted(body, end, done', r)
    ensures done' == done + [body[start..end]]
    ensures r == statements + Trims([body[start..end]])
  {
    FirstEndOfSuffix(body, start);
    CutOnce(body, start, end, done);
    TrimsAppend(done, body[start..end]);
    done' := done + [body[start..end]];
    r := Emit(statements, body[start..end]);
  }

  /**
   * The scanner's switch, away from a pending terminator: one token, which is a top-level semicolon or
   * leaves the terminator where it was.
   */
  method ScanToken(body: string, mode: Mode, i: nat, ghost q: Lex)
    returns (mode': Mode, i': nat, ghost q': Lex)
    requires i < |body| && Agrees(mode, q, body, i)
    ensures i < i' <= |body| && Agrees(mode', q', body, i')
    ensures Run(body, i, q) == Run(body, i', q')
    ensures if mode.Normal? && body[i] == ';'
      then Terminator(body, i, q) == i && i' == i + 1 && mode'.Normal? && q'.Plain?
      else Terminator(body, i, q) == Terminator(body, i', q')
    ensures mode.LineComment? ==> i' == i + 1 && mode' == (if body[i] == '\n' then Normal else mode)
  {
    var c := body[i];
    mode', i', q' := mode, i + 1, Step(q, c);
    match mode {
      case Normal =>
        if c == '\'' {
          mode' := SingleQuote;
        } else if c == '"' {
          mode' := DoubleQuote;
        } else if c == '-' && i + 1 < |body| && body[i + 1] == '-' {
          mode' := LineComment;
          i', q' := i + 2, Step(q', '-');
        } else if c == '/' && i + 1 < |body| && body[i + 1] == '*' {
          mode' := BlockComment;
          i', q' := i + 2, Step(q', '*');
        }
      case SingleQuote =>
        if c == '\'' {
          if i + 1 < |body| && body[i + 1] == '\'' {
            i', q' := i + 2, Step(q', '\'');
          } else {
            mode' := Normal;
          }
        }
      case DoubleQuote =>
        if c == '"' {
          if i + 1 < |body| && body[i + 1] == '"' {
            i', q' := i + 2, Step(q', '"');
          } else {
            mode' := Normal;
          }
        }
      case LineComment =>
        if c == '\n' {
          mode' := Normal;
        }
      case BlockComment =>
        if c == '*' && i + 1 < |body| && body[i + 1] == '/' {
          mode' := Normal;
          i', q' := i + 2, Step(q', '/');
        }
    }
  }

  datatype Scan = Scan(mode: Mode, start: nat, pending: int, i: nat, statements: seq<string>)

  ghost predicate Valid(body: string, scan: Scan, q: Lex, done: seq<string>) {
    && scan.start <= scan.i <= |body|
    && Scanned(body, scan.start, scan.pending, scan.mode, scan.i, q)
    && Emitted(body, scan.start, done, scan.statements)
  }

  /** The scanner's first branch: behind a semicolon, waiting for the end of its tail. */
  method ScanPending(body: string, scan: Scan, ghost q: Lex, ghost done: seq<string>)
    returns (scan': Scan, ghost q': Lex, ghost done': seq<string>)
    requires Valid(body, scan, q, done) && scan.i < |body| && scan.mode.Normal? && scan.pending >= 0
    ensures Valid(body, scan', q', done')
    ensures scan.i < scan'.i || (scan.i == scan'.i && scan'.pending == -1)
  {
    hide Fragments, Leftover, FirstEnd, Trims;
    var i, c := scan.i, body[scan.i];
    q', done' := q, done;
    if Blank(c) {
      scan' := scan.(i := i + 1);
    } else if c == '\n' {
      var statements;
      statements, done' := Cut(body, scan.start, i + 1, scan.statements, done);
      scan' := Scan(Normal, i + 1, -1, i + 1, statements);
    } else if c == '-' && i + 1 < |body| && body[i + 1] == '-' {
      scan' := scan.(mode := LineComment, i := i + 2);
      q' := Line;
    } else {
      var statements;
      statements, done' := Cut(body, scan.start, scan.pending, scan.statements, done);
      scan' := scan.(start := scan.pending, pending := -1, statements := statements);
    }
  }

  method ScanOther(body: string, scan: Scan, ghost q: Lex, ghost done: seq<string>)
    returns (scan': Scan, ghost q': Lex, ghost done': seq<string>)
    requires Valid(body, scan, q, done) && scan.i < |body|
    requires scan.mode.Normal? ==> scan.pending < 0
    ensures Valid(body, scan', q', done')
    ensures scan.i < scan'.i
  {
    hide Fragments, Leftover, FirstEnd, Trims;
    var c := body[scan.i];
    var mode, i;
    mode, i, q' := ScanToken(body, scan.mode, scan.i, q);
    done' := done;
    scan' := scan.(mode := mode, i := i);
    if scan.mode.Normal? && c == ';' {
      scan' := scan'.(pending := i);
    } else if scan.mode.LineComment? && c == '\n' && scan.pending >= 0 {
      var statements;
      statements, done' := Cut(body, scan.start, i, scan.statements, done);
      scan' := scan'.(start := i, pending := -1, statements := statements);
    }
  }

  /** With no terminator left, the rest of the text from the last cut is the leftover. */
  lemma LastCut(body: string, start: nat, done: seq<string>, statements: seq<string>)
    requires start <= |body| && Emitted(body, start, done, statements)
    requires Terminator(body, start, Plain) == |body|
    ensures Trims(Fragments(body)) == statements && Leftover(body) == body[start..]
    ensures Run(Leftover(body), 0, Plain) == Run(body, start, Plain)
  {
    hide Terminator, Run, Trims;
    FirstEndOfSuffix(body, start);
    assert Fragments(body[start..]) == [];
    assert Fragments(body) == done;
  }

  /** The end of the body: report an open quote or comment, flush the pending statement, check the rest. */
  method Finish(body: string, scan: Scan, ghost q: Lex, ghost done: seq<string>) returns (r: SplitResult)
    requires Valid(body, scan, q, done) && scan.i == |body|
    ensures r == Split(body)
  {
    hide Fragments, Leftover, FirstEnd, Trims, TailEnd, HasText;
    var start, statements := scan.start, scan.statements;
    if scan.pending < 0 {
      LastCut(body, start, done, statements);
    }
    match scan.mode {
      case SingleQuote => return Err(UnterminatedString);
      case DoubleQuote => return Err(UnterminatedIdentifier);
      case BlockComment => return Err(UnterminatedComment);
      case _ =>
    }
    if scan.pending >= 0 {
      ghost var cuts;
      assert TailEnd(body, scan.pending, scan.pending) == |body| by { TailAtEnd(body, scan, q, done); }
      statements, cuts := Cut(body, start, |body|, statements, done);
      LastCut(body, |body|, cuts, statements);
      NoTextLeft(body);
    } else {
      var yes := HasExecutableText(body[start..]);
      if yes {
        return Err(MissingSemicolon);
      }
    }
    return if |statements| == 0 then Err(NoStatements) else Ok(statements);
  }

  lemma TailAtEnd(body: string, scan: Scan, q: Lex, done: seq<string>)
    requires Valid(body, scan, q, done) && scan.i == |body| && scan.pending >= 0
    ensures TailEnd(body, scan.pending, scan.pending) == |body|
  {
  }

  lemma NoTextLeft(body: string)
    ensures !HasText(body[|body|..])
  {
  }

  method SplitStatements(body: string) returns (r: SplitResult)
    ensures r == Split(body)
  {
    var scan := Scan(Normal, 0, -1, 0, []);
    ghost var q, done := Plain, [];
    assert body[0..] == body;
    while scan.i < |body|
      invariant Valid(body, scan, q, done)
      decreases |body| - scan.i, scan.pending
    {
      if scan.mode.Normal? && scan.pending >= 0 {
        scan, q, done := ScanPending(body, scan, q, done);
      } else {
        scan, q, done := ScanOther(body, scan, q, done);
      }
    }
    r := Finish(body, scan, q, done);
  }
}
