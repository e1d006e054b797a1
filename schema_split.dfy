/**
 * The statement splitter of the schema set-up script: it reads the schema text line by
 * line, drops whole-line `--` comments, cuts inline `--` comments, accumulates lines and
 * closes a statement at every (comment-stripped) line that contains a `;`.
 *
 * `KindOf` is what the loop body decides about one line, `Step` what it then does,
 * `Run` the whole loop, and `SplitStatements` the loop itself; the lemmas state what
 * the emitted statements look like.
 */
module SchemaSplit {
  import opened PyStr

  /** The loop's two variables: the statements emitted so far and the text being accumulated. */
  datatype Splitter = Splitter(statements: seq<string>, current: string)

  /** A line is either a whole-line comment or code, kept without its inline comment. */
  datatype LineKind = CommentLine | CodeLine(text: string)

  /** `line.strip().startswith('--')`: a whole-line comment. */
  predicate IsCommentLine(line: string) {
    StartsWith(Strip(line), "--")
  }

  /** Skip a whole-line comment, otherwise cut the inline comment off. */
  function KindOf(line: string): (k: LineKind)
    ensures k.CommentLine? <==> IsCommentLine(line)
    ensures k.CodeLine? ==> k.text <= line
  {
    if IsCommentLine(line) then CommentLine else CodeLine(CutComment(line))
  }

  /** The classification of every line, in order. */
  function Classify(lines: seq<string>): (kinds: seq<LineKind>)
    ensures |kinds| == |lines|
  {
    if lines == [] then [] else [KindOf(lines[0])] + Classify(lines[1..])
  }

  /** The `i`-th classified line is the classification of the `i`-th line. */
  lemma {:induction false} ClassifyAt(lines: seq<string>, i: nat)
    requires i < |lines|
    ensures Classify(lines)[i] == KindOf(lines[i])
  {
    if i > 0 {
      ClassifyAt(lines[1..], i - 1);
    }
  }

  /** Classifying is line by line, so it distributes over concatenation. */
  lemma {:induction false} ClassifyAppend(a: seq<string>, b: seq<string>)
    ensures Classify(a + b) == Classify(a) + Classify(b)
  {
    if a == [] {
      assert a + b == b;
    } else {
      assert (a + b)[0] == a[0] && (a + b)[1..] == a[1..] + b;
      ClassifyAppend(a[1..], b);
    }
  }

  /** Lines without a newline classify as code free of `--` and of newlines. */
  lemma {:induction false} ClassifyClean(lines: seq<string>)
    requires forall l <- lines :: '\n' !in l
    ensures forall k <- Classify(lines) :: CleanKind(k)
  {
    if lines != [] {
      assert lines[0] in lines;
      ClassifyClean(lines[1..]);
    }
  }

  /** A line that closes a statement: code with a `;` outside its inline comment. */
  predicate IsTerminator(k: LineKind) {
    k.CodeLine? && ';' in k.text
  }

  /** The statement list a closed text contributes: the text itself, unless it is blank. */
  function Emit(stmt: string): seq<string> {
    if stmt != "" then [stmt] else []
  }

  /**
   * Adding a comment-free line `cut`: it is appended to `current` with a newline, and
   * if it holds a `;` the accumulated text is stripped, emitted and reset.
   */
  function Advance(s: Splitter, cut: string): Splitter {
    if ';' in cut then Splitter(s.statements + Emit(Strip(s.current + cut + "\n")), "")
    else Splitter(s.statements, s.current + cut + "\n")
  }

  /** One iteration of the loop over the schema's lines. */
  function Step(s: Splitter, k: LineKind): Splitter {
    match k
    case CommentLine => s
    case CodeLine(cut) => Advance(s, cut)
  }

  /** The loop run over classified lines from the state `s`. */
  function Run(kinds: seq<LineKind>, s: Splitter): Splitter
    decreases |kinds|
  {
    if kinds == [] then s else Run(kinds[1..], Step(s, kinds[0]))
  }

  /** The state before the loop: no statements, nothing accumulated. */
  function Start(): Splitter {
    Splitter([], "")
  }

  /** The classified lines of a schema text. */
  function SchemaLines(schema: string): seq<LineKind> {
    Classify(SplitLines(schema))
  }

  /** The statements the script extracts from the schema text. */
  function Statements(schema: string): seq<string> {
    Run(SchemaLines(schema), Start()).statements
  }

  /** A statement has no white space at either end and is not empty. */
  predicate IsStripped(st: string) {
    st != "" && !IsSpace(st[0]) && !IsSpace(st[|st| - 1])
  }

  /** No newline follows any `;`: all the `;` of the statement are on its last line. */
  predicate SemicolonsOnLastLine(st: string) {
    forall i, j :: 0 <= i < j < |st| && st[i] == ';' ==> st[j] != '\n'
  }

  predicate WellFormedStatement(st: string) {
    IsStripped(st) && !HasDashDash(st) && ';' in st && SemicolonsOnLastLine(st)
  }

  /** The splitter loop. */
  method SplitStatements(schema: string) returns (statements: seq<string>)
    ensures statements == Statements(schema)
    ensures forall st <- statements :: WellFormedStatement(st)
  {
    var lines := SplitLines(schema);
    ghost var kinds := Classify(lines);
    statements := [];
    var current := "";
    var i := 0;
    while i < |lines|
      invariant 0 <= i <= |lines|
      invariant Run(kinds[i..], Splitter(statements, current)) == Run(kinds, Start())
    {
      var line := lines[i];
      ClassifyAt(lines, i);
      assert kinds[i..][1..] == kinds[i + 1..];
      ghost var next := Step(Splitter(statements, current), kinds[i]);
      assert Run(kinds[i..], Splitter(statements, current)) == Run(kinds[i + 1..], next);
      if IsCommentLine(line) {
        i := i + 1;
        continue;
      }
      line := CutComment(line);
      current := current + line + "\n";
      if ';' in line {
        var stmt := Strip(current);
        if stmt != "" {
          statements := statements + [stmt];
        }
        current := "";
      }
      assert Splitter(statements, current) == next;
      i := i + 1;
    }
    StatementsWellFormed(schema);
  }

  /** Running over `a + b` is running over `a`, then over `b`. */
  lemma {:induction false} RunAppend(a: seq<LineKind>, b: seq<LineKind>, s: Splitter)
    ensures Run(a + b, s) == Run(b, Run(a, s))
  {
    if a == [] {
      assert a + b == b;
    } else {
      assert (a + b)[1..] == a[1..] + b;
      RunAppend(a[1..], b, Step(s, a[0]));
    }
  }

  /** The loop only appends: what was emitted before stays, in front. */
  lemma {:induction false} RunExtends(kinds: seq<LineKind>, s: Splitter)
    ensures Run(kinds, s).statements == s.statements + Run(kinds, Splitter([], s.current)).statements
  {
    if kinds != [] {
      var t := Step(s, kinds[0]);
      var u := Step(Splitter([], s.current), kinds[0]);
      if kinds[0].CodeLine? && ';' in kinds[0].text {
        var e := Emit(Strip(s.current + kinds[0].text + "\n"));
        assert t.statements == s.statements + e && u.statements == [] + e;
      }
      assert t.statements == s.statements + u.statements && t.current == u.current;
      RunExtends(kinds[1..], t);
      RunExtends(kinds[1..], u);
    }
  }

  /**
   * Statements come out in source order: those of an earlier stretch of lines precede
   * those of a later one, which continues from the text the earlier stretch left pending.
   */
  lemma StatementsInSourceOrder(a: seq<string>, b: seq<string>)
    ensures var mid := Run(Classify(a), Start());
      Run(Classify(a + b), Start()).statements
        == mid.statements + Run(Classify(b), Splitter([], mid.current)).statements
  {
    ClassifyAppend(a, b);
    RunAppend(Classify(a), Classify(b), Start());
    RunExtends(Classify(b), Run(Classify(a), Start()));
  }

  /** A whole-line comment, wherever it stands, changes nothing: not the statements, not the pending text. */
  lemma CommentLineContributesNothing(a: seq<string>, line: string, b: seq<string>, s: Splitter)
    requires IsCommentLine(line)
    ensures Run(Classify(a + [line] + b), s) == Run(Classify(a + b), s)
  {
    var ka, kb := Classify(a), Classify(b);
    assert a + [line] + b == a + ([line] + b);
    ClassifyAppend(a, [line] + b);
    ClassifyAppend(a, b);
    assert ([line] + b)[0] == line && ([line] + b)[1..] == b;
    assert Classify([line] + b) == [CommentLine] + kb;
    RunAppend(ka, [CommentLine] + kb, s);
    RunAppend(ka, kb, s);
    assert ([CommentLine] + kb)[1..] == kb;
  }

  /** The comment-stripped text of classified lines, one `\n`-terminated line per code line. */
  function PendingText(kinds: seq<LineKind>): string {
    if kinds == [] then ""
    else (if kinds[0].CommentLine? then "" else kinds[0].text + "\n") + PendingText(kinds[1..])
  }

  predicate NoTerminator(kinds: seq<LineKind>) {
    forall k <- kinds :: !IsTerminator(k)
  }

  /** Lines without a terminator emit nothing; they only add their comment-stripped text to `current`. */
  lemma {:induction false} NoTerminatorOnlyAccumulates(kinds: seq<LineKind>, s: Splitter)
    requires NoTerminator(kinds)
    ensures Run(kinds, s) == Splitter(s.statements, s.current + PendingText(kinds))
  {
    if kinds == [] {
      assert s.current + "" == s.current;
    } else {
      var piece := if kinds[0].CommentLine? then "" else kinds[0].text + "\n";
      var next := Splitter(s.statements, s.current + piece);
      assert kinds[0] in kinds;
      assert Step(s, kinds[0]) == next;
      NoTerminatorOnlyAccumulates(kinds[1..], next);
      assert (s.current + piece) + PendingText(kinds[1..]) == s.current + (piece + PendingText(kinds[1..]));
    }
  }

  /**
   * A statement is the stripped, comment-free text of the lines since the previous
   * terminator, up to and including the terminator; it is emitted unless blank.
   */
  lemma StatementOfBlock(block: seq<LineKind>, line: LineKind, s: Splitter)
    requires NoTerminator(block) && IsTerminator(line)
    ensures var stmt := Strip(s.current + PendingText(block) + line.text + "\n");
      Run(block + [line], s)
        == Splitter(if stmt != "" then s.statements + [stmt] else s.statements, "")
  {
    RunAppend(block, [line], s);
    NoTerminatorOnlyAccumulates(block, s);
  }

  /** Text after the last terminator line is never emitted: the pending text is dropped. */
  lemma TrailingTextDropped(schema: string, n: nat)
    requires n <= |SchemaLines(schema)| && NoTerminator(SchemaLines(schema)[n..])
    ensures Statements(schema) == Run(SchemaLines(schema)[..n], Start()).statements
  {
    var kinds := SchemaLines(schema);
    assert kinds == kinds[..n] + kinds[n..];
    RunAppend(kinds[..n], kinds[n..], Start());
    NoTerminatorOnlyAccumulates(kinds[n..], Run(kinds[..n], Start()));
  }

  function CountTerminators(kinds: seq<LineKind>): nat {
    if kinds == [] then 0 else (if IsTerminator(kinds[0]) then 1 else 0) + CountTerminators(kinds[1..])
  }

  /**
   * Exactly one statement per terminator line: the `;` that closes a statement survives
   * the strip, so the closed text is never blank, and a `;` that only occurs inside a
   * comment closes nothing.
   */
  lemma {:induction false} OneStatementPerTerminator(kinds: seq<LineKind>, s: Splitter)
    ensures |Run(kinds, s).statements| == |s.statements| + CountTerminators(kinds)
  {
    if kinds != [] {
      if IsTerminator(kinds[0]) {
        ClosedHasSemicolon(s.current, kinds[0].text);
      }
      OneStatementPerTerminator(kinds[1..], Step(s, kinds[0]));
    }
  }

  /** The text being accumulated: no `;`, no `--`, and empty or ending with a newline. */
  predicate Pending(current: string) {
    ';' !in current && !HasDashDash(current) && (current == [] || current[|current| - 1] == '\n')
  }

  predicate Good(s: Splitter) {
    Pending(s.current) && forall st <- s.statements :: WellFormedStatement(st)
  }

  /** What a classified line of a schema text holds: code without `--` and without a newline. */
  predicate CleanKind(k: LineKind) {
    k.CodeLine? ==> !HasDashDash(k.text) && '\n' !in k.text
  }

  /** `"--" in a + b` either lies in one of them or straddles the seam. */
  lemma DashDashAppend(a: string, b: string)
    requires !HasDashDash(a) && !HasDashDash(b)
    requires a == [] || b == [] || a[|a| - 1] != '-' || b[0] != '-'
    ensures !HasDashDash(a + b)
  {
    forall i | 0 <= i < |a + b| - 1 ensures !DashAt(a + b, i) {
      if i + 1 < |a| {
        assert (a + b)[i] == a[i] && (a + b)[i + 1] == a[i + 1];
        assert !DashAt(a, i);
      } else if i >= |a| {
        assert (a + b)[i] == b[i - |a|] && (a + b)[i + 1] == b[i - |a| + 1];
        assert !DashAt(b, i - |a|);
      } else {
        assert (a + b)[i] == a[|a| - 1] && (a + b)[i + 1] == b[0];
      }
    }
  }

  /** Text appended after a pending line, then closed by a newline, has no `--`. */
  lemma AccumulateNoDashDash(current: string, cut: string)
    requires Pending(current) && !HasDashDash(cut)
    ensures !HasDashDash(current + cut + "\n")
  {
    DashDashAppend(current, cut);
    DashDashAppend(current + cut, "\n");
  }

  /** The `;` of a terminating line survives stripping, so the closed text is a non-empty statement. */
  lemma ClosedHasSemicolon(current: string, cut: string)
    requires ';' in cut
    ensures ';' in Strip(current + cut + "\n")
  {
    var t := current + cut + "\n";
    var p :| 0 <= p < |cut| && cut[p] == ';';
    assert t[|current| + p] == ';';
    StripKeeps(t, |current| + p);
  }

  /** A slice of a text without `--` has none either. */
  lemma SliceNoDashDash(t: string, lo: nat, hi: nat)
    requires lo <= hi <= |t| && !HasDashDash(t)
    ensures !HasDashDash(t[lo..hi])
  {
    var u := t[lo..hi];
    forall i | 0 <= i < |u| - 1 ensures !DashAt(u, i) {
      assert u[i] == t[lo + i] && u[i + 1] == t[lo + i + 1];
      assert !DashAt(t, lo + i);
    }
  }

  /** No newline follows a `;` in the closed statement: its `;` are all on its last line. */
  lemma ClosedSemicolonsOnLastLine(current: string, cut: string)
    requires ';' !in current && '\n' !in cut
    ensures SemicolonsOnLastLine(Strip(current + cut + "\n"))
  {
    var t := current + cut + "\n";
    var stmt := Strip(t);
    var lead := Lead(t);
    StripSlice(t);
    assert t[|t| - 1] == '\n';
    assert stmt != [] ==> lead + |stmt| <= |t| - 1;
    assert forall k :: 0 <= k < |current| ==> t[k] == current[k];
    forall i, j | 0 <= i < j < |stmt| && stmt[i] == ';' ensures stmt[j] != '\n' {
      assert t[lead + i] == ';';
      assert cut[lead + j - |current|] == t[lead + j];
    }
  }

  /** A statement closed from a pending text and a terminating line is well formed. */
  lemma ClosedStatement(current: string, cut: string)
    requires Pending(current) && !HasDashDash(cut) && '\n' !in cut && ';' in cut
    ensures WellFormedStatement(Strip(current + cut + "\n"))
  {
    var t := current + cut + "\n";
    ClosedHasSemicolon(current, cut);
    AccumulateNoDashDash(current, cut);
    StripSlice(t);
    SliceNoDashDash(t, Lead(t), Lead(t) + |Strip(t)|);
    ClosedSemicolonsOnLastLine(current, cut);
  }

  lemma StepGood(s: Splitter, k: LineKind)
    requires Good(s) && CleanKind(k)
    ensures Good(Step(s, k))
  {
    if k.CodeLine? {
      if ';' in k.text {
        ClosedStatement(s.current, k.text);
      } else {
        AccumulateNoDashDash(s.current, k.text);
      }
    }
  }

  lemma {:induction false} RunGood(kinds: seq<LineKind>, s: Splitter)
    requires Good(s) && forall k <- kinds :: CleanKind(k)
    ensures Good(Run(kinds, s))
  {
    if kinds != [] {
      StepGood(s, kinds[0]);
      RunGood(kinds[1..], Step(s, kinds[0]));
    }
  }

  /**
   * Every statement the script extracts from any schema text is non-empty, has no
   * surrounding white space, contains no `--`, contains a `;`, and has all its `;`
   * on its last line.
   */
  lemma StatementsWellFormed(schema: string)
    ensures forall st <- Statements(schema) :: WellFormedStatement(st)
  {
    ClassifyClean(SplitLines(schema));
    RunGood(SchemaLines(schema), Start());
  }
}
