/** The interactive shell (internal/connect/shell.go), which submits statements while lines
    arrive, against the batch splitter, which sees the whole text; and the way back from
    statements to text. */
module SqlShell {
  import opened Text
  import opened SqlLexer
  import opened SqlTokens
  import opened SqlSplit
  import opened SqlStreaming

  const EXIT_COMMAND := "exit"

  /** What the line reader can return before it reaches the end of its input. */
  datatype ReadResult = Line(text: string) | Interrupt | Failure

  datatype Ending = AtEOF | OnExit | OnFailure

  function LinesOf(inputs: seq<ReadResult>): seq<string> {
    if inputs == [] then []
    else LinesOf(inputs[..|inputs| - 1]) + if inputs[|inputs| - 1].Line? then [inputs[|inputs| - 1].text] else []
  }

  class Shell {
    var executeOnSemicolon: bool
    var pendingStatementBuf: string
    /** The inputs handed to the statement callback, in order. */
    var executed: seq<string>

    constructor (executeOnSemicolon: bool)
      ensures this.executeOnSemicolon == executeOnSemicolon
      ensures pendingStatementBuf == "" && executed == []
    {
      this.executeOnSemicolon := executeOnSemicolon;
      pendingStatementBuf, executed := "", [];
    }

    method ExecStatement(stmt: string)
      modifies `executed
      ensures executed == old(executed) + [stmt]
    {
      executed := executed + [stmt];
    }

    method HandleEOF()
      modifies `executed
      ensures executed == old(executed) + Kept(pendingStatementBuf)
    {
      var remaining := TrimSpace(pendingStatementBuf);
      if remaining == "" {
        return;
      }
      ExecStatement(remaining);
    }

    method ProcessInputSemicolonMode(line: string)
      modifies `executed, `pendingStatementBuf
      ensures executed == old(executed) + Split(Appended(old(pendingStatementBuf), line)).statements
      ensures pendingStatementBuf == Split(Appended(old(pendingStatementBuf), line)).remainder
    {
      hide Split;
      var buffer := pendingStatementBuf;
      if pendingStatementBuf != "" {
        pendingStatementBuf := pendingStatementBuf + "\n";
      }
      pendingStatementBuf := pendingStatementBuf + line;
      assert pendingStatementBuf == Appended(buffer, line);
      var statements, remainder := SplitStatements(pendingStatementBuf);
      StatementsAreTrimmed(pendingStatementBuf);
      pendingStatementBuf := remainder;
      for i := 0 to |statements|
        invariant executed == old(executed) + statements[..i]
        invariant pendingStatementBuf == remainder
      {
        assert TrimSpace(statements[i]) == statements[i];
        ExecStatement(TrimSpace(statements[i]));
      }
    }

    /** Reads lines until the input ends, an exit command, or a read failure. In semicolon mode
        the submitted statements are those of the lines read, as a batch, exactly when every cut
        stays; otherwise each line is submitted, trimmed. */
    method Run(inputs: seq<ReadResult>) returns (taken: nat, ending: Ending)
      requires pendingStatementBuf == "" && executed == []
      modifies this
      ensures taken <= |inputs| && Failure !in inputs[..taken] && executeOnSemicolon == old(executeOnSemicolon)
      ensures ending == AtEOF ==> taken == |inputs|
      ensures ending == OnFailure ==> taken < |inputs| && inputs[taken] == Failure
      ensures ending == OnExit ==> taken < |inputs| && inputs[taken].Line? && TrimSpace(inputs[taken].text) == "exit"
      ensures forall i :: 0 <= i < taken && inputs[i].Line? && TrimSpace(inputs[i].text) == "exit" ==>
                executeOnSemicolon && TrimSpace(Fed(LinesOf(inputs[..i])).pending) != ""
      ensures ending == OnExit && executeOnSemicolon ==> TrimSpace(Fed(LinesOf(inputs[..taken])).pending) == ""
      ensures !executeOnSemicolon ==> executed == AllTrimmed(LinesOf(inputs[..taken]))
      ensures executeOnSemicolon ==>
        (executed == (if ending == OnFailure then Split(Join(LinesOf(inputs[..taken]))).statements
                      else NonInteractive(Join(LinesOf(inputs[..taken]))))
         <==> StaysOrdinary("", LinesOf(inputs[..taken])))
    {
      hide Split, NonInteractive, Kept, TrimSpace, Fed, LinesOf, Join, StaysOrdinary, AllTrimmed;
      taken := 0;
      NothingRead(inputs);
      while taken < |inputs|
        invariant taken <= |inputs| && Failure !in inputs[..taken] && executeOnSemicolon == old(executeOnSemicolon)
        invariant forall i :: 0 <= i < taken && inputs[i].Line? && TrimSpace(inputs[i].text) == EXIT_COMMAND ==>
                    executeOnSemicolon && TrimSpace(Fed(LinesOf(inputs[..i])).pending) != ""
        invariant executeOnSemicolon ==> Progress(executed, pendingStatementBuf) == Fed(LinesOf(inputs[..taken]))
        invariant !executeOnSemicolon ==> executed == AllTrimmed(LinesOf(inputs[..taken])) && pendingStatementBuf == ""
      {
        var input := inputs[taken];
        OneMoreRead(inputs, taken);
        if input.Line? {
          var trimmedLine := TrimSpace(input.text);
          if trimmedLine == EXIT_COMMAND && TrimSpace(pendingStatementBuf) == "" {
            StreamingEqualsBatch(LinesOf(inputs[..taken]));
            BlankIsNotKept(pendingStatementBuf);
            return taken, OnExit;
          }
          if !executeOnSemicolon {
            ExecStatement(trimmedLine);
          } else {
            ProcessInputSemicolonMode(input.text);
          }
        } else if input.Failure? {
          StreamingEqualsBatch(LinesOf(inputs[..taken]));
          return taken, OnFailure;
        }
        taken := taken + 1;
      }
      StreamingEqualsBatch(LinesOf(inputs[..taken]));
      if pendingStatementBuf == "" {
        BlankIsNotKept("");
      }
      HandleEOF();
      return taken, AtEOF;
    }
  }

  function AllTrimmed(lines: seq<string>): (r: seq<string>)
    ensures |r| == |lines| && forall i :: 0 <= i < |lines| ==> r[i] == TrimSpace(lines[i])
  {
    seq(|lines|, i requires 0 <= i < |lines| => TrimSpace(lines[i]))
  }

  lemma NothingRead(inputs: seq<ReadResult>)
    ensures LinesOf(inputs[..0]) == [] && Fed([]) == Progress([], "") && AllTrimmed([]) == []
    ensures TrimSpace("") == ""
  {
  }

  lemma LinesOfNext(inputs: seq<ReadResult>, taken: nat)
    requires taken < |inputs|
    ensures LinesOf(inputs[..taken + 1]) == LinesOf(inputs[..taken]) + if inputs[taken].Line? then [inputs[taken].text] else []
  {
    assert inputs[..taken + 1][..taken] == inputs[..taken];
  }

  /** What one more input adds to the lines, to what a shell submits and to the trimmed lines. */
  lemma OneMoreRead(inputs: seq<ReadResult>, taken: nat)
    requires taken < |inputs|
    ensures inputs[..taken + 1] == inputs[..taken] + [inputs[taken]]
    ensures !inputs[taken].Line? ==> LinesOf(inputs[..taken + 1]) == LinesOf(inputs[..taken])
    ensures inputs[taken].Line? ==>
      var lines, line := LinesOf(inputs[..taken]), inputs[taken].text;
      var r := Split(Appended(Fed(lines).pending, line));
      && Fed(LinesOf(inputs[..taken + 1])) == Progress(Fed(lines).submitted + r.statements, r.remainder)
      && AllTrimmed(LinesOf(inputs[..taken + 1])) == AllTrimmed(lines) + [TrimSpace(line)]
  {
    hide Split, TrimSpace, LinesOf, Fed, Appended;
    LinesOfNext(inputs, taken);
    if inputs[taken].Line? {
      FedOneMore(LinesOf(inputs[..taken]), inputs[taken].text);
    }
  }

  lemma BlankIsNotKept(s: string)
    requires TrimSpace(s) == ""
    ensures Kept(s) == []
  {
  }

  lemma {:induction false} StatementsAreTrimmed(s: string)
    ensures forall i :: 0 <= i < |Split(s).statements| ==> TrimSpace(Split(s).statements[i]) == Split(s).statements[i]
    decreases |s|
  {
    hide StatementTerminator, TrimSpace;
    if StatementTerminator(s).Some? {
      var t := StatementTerminator(s).value;
      TrimIdempotent(s[..t.statementEnd]);
      StatementsAreTrimmed(s[t.nextStart..]);
    }
  }

  // ----- from statements to text and back -----

  datatype Statement = Ordinary(text: string) | Script(text: string)

  function Print(statements: seq<Statement>): string {
    if statements == [] then ""
    else
      var s := statements[0];
      s.text + (if s.Ordinary? then "\n;\n" else "\n/\n") + Print(statements[1..])
  }

  function Texts(statements: seq<Statement>): seq<string> {
    if statements == [] then [] else [statements[0].text] + Texts(statements[1..])
  }

  /** An ordinary statement keeps its `;` to quoted texts and comments and closes both; a
      script has no line that is a lone `/`. */
  predicate WellFormed(s: Statement) {
    && s.text != "" && Trimmed(s.text)
    && (s.Ordinary? ==>
          && !LooksLikeScript(s.text) && NoShortComment(s.text)
          && NoSemicolonBefore(s.text, |s.text|)
          && InCode(StateAt(s.text + "\n", |s.text| + 1)))
    && (s.Script? ==> LooksLikeScript(s.text) && ScriptTerminatorFrom(s.text, 0).None?)
  }

  lemma {:induction false} ScriptAheadInText(t: string, b: string, p: nat)
    requires b == t + "\n;" && NoShortComment(b) && CodeSemicolon(b, |t| + 1)
    requires Synced(b, p) && p <= |t|
    requires ScriptKeywordAhead(b, p)
    ensures ScriptKeywordAhead(t, p)
    decreases |t| - p
  {
    TokenInText(t, b, p);
    var (token, next) := TokenAt(b, p);
    if token != "SCRIPT" && token != "FUNCTION" {
      ScriptAheadInText(t, b, next);
    }
  }

  /** Above a line that holds only a `;`, a token ends within the text. */
  lemma TokenInText(t: string, b: string, p: nat)
    requires b == t + "\n;" && NoShortComment(b) && CodeSemicolon(b, |t| + 1)
    requires Synced(b, p) && p <= |t|
    requires TokenAt(b, p).0 != ""
    ensures TokenAt(t, p) == TokenAt(b, p)
    ensures TokenAt(b, p).1 <= |t| && Synced(b, TokenAt(b, p).1)
  {
    assert b[..|t|] == t;
    TokenStaysSynced(b, p, |t| + 1);
    TokenContinues(t, b, p);
    var start := SkipSpaceAndComments(b, p);
    SkipSpaceStaysSynced(b, p, |t| + 1);
    if start <= |t| {
      TokenEndContinues(t, b, start);
    }
  }

  lemma OrdinaryPrinted(t: string, rest: string)
    requires WellFormed(Ordinary(t))
    ensures StatementTerminator(t + "\n;\n" + rest) == Some(Terminator(|t| + 1, |t| + 2))
  {
    hide WellFormed, LooksLikeScript, StateAt, NoShortComment;
    var a, b := t + "\n;", t + "\n;\n" + rest;
    OrdinaryEnds(t);
    assert Continues(a, b) by {
      assert b == a + ("\n" + rest);
      assert b[..|a|] == a;
    }
    OrdinaryContinues(a, b, |t| + 1);
    FirstSemicolonIs(a, |t| + 1);
    assert b == a + ("\n" + rest);
    FirstSemicolonExtends(a, "\n" + rest);
  }

  lemma OrdinaryEnds(t: string)
    requires WellFormed(Ordinary(t))
    ensures NoShortComment(t + "\n;") && !LooksLikeScript(t + "\n;")
    ensures CodeSemicolon(t + "\n;", |t| + 1) && NoSemicolonBefore(t + "\n;", |t| + 1)
  {
    var a := t + "\n;";
    forall i | 0 <= i < |a| ensures !(HasPair(a, i, '/', '*') && HasPair(a, i + 1, '*', '/')) {
      if i < |t| {
        assert !(HasPair(t, i, '/', '*') && HasPair(t, i + 1, '*', '/'));
      }
    }
    assert a == (t + "\n") + ";";
    StateOfPrefix(t + "\n", ";", |t| + 1);
    forall k | 0 <= k < |t| + 1 ensures !CodeSemicolon(a, k) {
      if k < |t| {
        assert a == t + "\n;";
        SemicolonOfPrefix(t, "\n;", k);
      }
    }
    OrdinaryHead(t);
  }

  lemma OrdinaryHead(t: string)
    requires !LooksLikeScript(t)
    requires NoShortComment(t + "\n;") && CodeSemicolon(t + "\n;", |t| + 1)
    ensures !LooksLikeScript(t + "\n;")
  {
    var a := t + "\n;";
    if LooksLikeScript(a) {
      TokenInText(t, a, 0);
      ScriptAheadInText(t, a, TokenAt(a, 0).1);
    }
  }

  lemma {:induction false} ScriptLinesContinue(t: string, b: string, p: nat)
    requires Continues(t, b) && p <= |t|
    requires ScriptTerminatorFrom(t, p).None?
    ensures ScriptTerminatorFrom(b, p) == ScriptTerminatorFrom(b, |t| + 1)
    decreases |t| - p
  {
    hide TrimSpace, FindChar;
    FindCharContinues(t, b, p, '\n');
    var newline := FindChar(t, p, '\n');
    SliceContinues(t, b, p, newline);
    BlankLineIsNoSlash();
    assert p == |t| ==> b[p..newline] == "";
    assert FindChar(b, p, '\n') == newline;
    assert ScriptTerminatorFrom(b, p) == ScriptTerminatorFrom(b, newline + 1);
    if newline < |t| {
      ScriptLinesContinue(t, b, newline + 1);
    }
  }

  lemma BlankLineIsNoSlash()
    ensures TrimSpace("") != LONE_SLASH
  {
  }

  lemma ScriptPrinted(t: string, rest: string)
    requires WellFormed(Script(t))
    ensures StatementTerminator(t + "\n/\n" + rest) == Some(Terminator(|t| + 1, |t| + 3))
  {
    hide LooksLikeScript, TrimSpace, ScriptTerminatorFrom;
    var b := t + "\n/\n" + rest;
    assert Continues(t, b) by {
      assert b == t + ("\n/\n" + rest);
      assert b[..|t|] == t;
    }
    LooksLikeScriptContinues(t, b);
    ScriptLinesContinue(t, b, 0);
    SlashLine(b, |t| + 1);
  }

  lemma SlashLine(b: string, p: nat)
    requires p + 1 < |b| && b[p] == '/' && b[p + 1] == '\n'
    ensures ScriptTerminatorFrom(b, p) == Some(Terminator(p, p + 2))
  {
    hide TrimSpace;
    assert FindChar(b, p, '\n') == p + 1;
    assert b[p..p + 1] == "/";
    TrimTrimmed("/");
  }

  /** Writing well-formed statements one below the other, each with its terminator on a line
      of its own, and splitting the text gives the same statements back. */
  lemma {:induction false} SplitOfPrint(statements: seq<Statement>)
    requires forall i :: 0 <= i < |statements| ==> WellFormed(statements[i])
    ensures Split(Print(statements)).statements == Texts(statements)
    ensures StripNewlines(Split(Print(statements)).remainder) == ""
  {
    hide StatementTerminator, Split, WellFormed, TrimSpace;
    if statements == [] {
      EmptyHasNoTerminator();
      SplitDone("");
    } else {
      var s, rest := statements[0], Print(statements[1..]);
      SplitOfPrint(statements[1..]);
      SplitPrinted(s, rest);
    }
  }

  lemma SplitPrinted(s: Statement, rest: string)
    requires WellFormed(s)
    ensures var b := s.text + (if s.Ordinary? then "\n;\n" else "\n/\n") + rest;
            && Split(b).statements == [s.text] + Split(rest).statements
            && StripNewlines(Split(b).remainder) == StripNewlines(Split(rest).remainder)
  {
    hide StatementTerminator, Split, StripNewlines, Kept, WellFormed;
    var t := s.text;
    KeptPrinted(s);
    if s.Ordinary? {
      var b := t + "\n;\n" + rest;
      OrdinaryPrinted(t, rest);
      SplitFirst(b, Terminator(|t| + 1, |t| + 2));
      assert b[|t| + 2..] == "\n" + rest;
      SplitAfterNewline(rest);
      assert b[..|t| + 1] == t + "\n";
    } else {
      var b := t + "\n/\n" + rest;
      ScriptPrinted(t, rest);
      SplitFirst(b, Terminator(|t| + 1, |t| + 3));
      assert b[|t| + 3..] == rest;
      assert b[..|t| + 1] == t + "\n";
    }
  }

  lemma KeptPrinted(s: Statement)
    requires WellFormed(s)
    ensures Kept(s.text + "\n") == [s.text]
  {
    TrimCore("", s.text, "\n");
    assert "" + s.text + "\n" == s.text + "\n";
  }

  /** The same through the batch entry point: nothing is left over to run. */
  lemma PrintRoundTrip(statements: seq<Statement>)
    requires forall i :: 0 <= i < |statements| ==> WellFormed(statements[i])
    ensures NonInteractive(Print(statements)) == Texts(statements)
  {
    hide Split, WellFormed, StripNewlines;
    SplitOfPrint(statements);
    KeptStripped(Split(Print(statements)).remainder);
    TrimTrimmed("");
  }
}
