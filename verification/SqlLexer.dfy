/** The semicolon scanner of the SQL shell (internal/connect/shell.go) and the lexical
    automaton it implements. The automaton reads one character at a time and never looks
    ahead; the scanner keeps four flags, looks one character ahead and skips. */
module SqlLexer {
  import opened Text

  datatype Terminator = Terminator(statementEnd: nat, nextStart: nat)

  /** `Dash` and `Slash` are code states that have just seen the first half of a comment
      opener, `Star` is a block comment that has just seen the first half of its closer. */
  datatype Lex = Code | Dash | Slash | SingleQuoted | DoubleQuoted | LineComment | BlockComment | Star

  predicate InCode(q: Lex) {
    q == Code || q == Dash || q == Slash
  }

  function FromCode(c: char): Lex {
    if c == '\'' then SingleQuoted
    else if c == '"' then DoubleQuoted
    else if c == '-' then Dash
    else if c == '/' then Slash
    else Code
  }

  function Next(q: Lex, c: char): Lex {
    match q
    case Code => FromCode(c)
    case Dash => if c == '-' then LineComment else FromCode(c)
    case Slash => if c == '*' then BlockComment else FromCode(c)
    case SingleQuoted => if c == '\'' then Code else SingleQuoted
    case DoubleQuoted => if c == '"' then Code else DoubleQuoted
    case LineComment => if c == '\n' then Code else LineComment
    case BlockComment => if c == '*' then Star else BlockComment
    case Star => if c == '/' then Code else if c == '*' then Star else BlockComment
  }

  /** The automaton's state after the first `k` characters. */
  function StateAt(s: string, k: nat): Lex
    requires k <= |s|
  {
    if k == 0 then Code else Next(StateAt(s, k - 1), s[k - 1])
  }

  /** A `;` that is code, not part of a quoted text or a comment. */
  predicate CodeSemicolon(s: string, k: int) {
    0 <= k < |s| && s[k] == ';' && InCode(StateAt(s, k))
  }

  /** No `;` of the first `k` characters is code. */
  predicate NoSemicolonBefore(s: string, k: int) {
    forall i :: 0 <= i < k ==> !CodeSemicolon(s, i)
  }

  function FirstSemicolon(s: string, from: nat): (r: Option<nat>)
    requires from <= |s|
    requires NoSemicolonBefore(s, from)
    ensures r.Some? ==> CodeSemicolon(s, r.value) && NoSemicolonBefore(s, r.value)
    ensures r.None? ==> NoSemicolonBefore(s, |s|)
    decreases |s| - from
  {
    if from == |s| then None
    else if CodeSemicolon(s, from) then Some(from)
    else FirstSemicolon(s, from + 1)
  }

  function SemicolonTerminator(s: string): (r: Option<Terminator>)
    ensures r.Some? ==> CodeSemicolon(s, r.value.statementEnd) && r.value.nextStart == r.value.statementEnd + 1
  {
    match FirstSemicolon(s, 0)
    case None => None
    case Some(k) => Some(Terminator(k, k + 1))
  }

  lemma StartsInCode(s: string)
    ensures StateAt(s, 0) == Code
  {
  }

  /** What was read first cannot be undone by what follows. */
  lemma {:induction false} StateOfPrefix(a: string, x: string, k: nat)
    requires k <= |a|
    ensures StateAt(a + x, k) == StateAt(a, k)
  {
    if k > 0 {
      StateOfPrefix(a, x, k - 1);
    }
  }

  lemma SemicolonOfPrefix(a: string, x: string, k: int)
    requires k < |a|
    ensures CodeSemicolon(a + x, k) <==> CodeSemicolon(a, k)
  {
    if 0 <= k {
      StateOfPrefix(a, x, k);
    }
  }

  lemma FirstSemicolonIs(s: string, k: nat)
    requires CodeSemicolon(s, k) && NoSemicolonBefore(s, k)
    ensures SemicolonTerminator(s) == Some(Terminator(k, k + 1))
  {
  }

  lemma FirstSemicolonExtends(a: string, x: string)
    requires SemicolonTerminator(a).Some?
    ensures SemicolonTerminator(a + x) == SemicolonTerminator(a)
  {
    var k := SemicolonTerminator(a).value.statementEnd;
    forall i | 0 <= i <= k ensures CodeSemicolon(a + x, i) <==> CodeSemicolon(a, i) {
      SemicolonOfPrefix(a, x, i);
    }
    FirstSemicolonIs(a + x, k);
  }

  /** A newline in front changes no lexical state. */
  lemma {:induction false} StateAfterNewline(s: string, k: nat)
    requires k <= |s|
    ensures StateAt("\n" + s, k + 1) == StateAt(s, k)
  {
    if k == 0 {
      assert StateAt("\n" + s, 0) == Code;
    } else {
      StateAfterNewline(s, k - 1);
    }
  }

  lemma FirstSemicolonAfterNewline(s: string)
    ensures match SemicolonTerminator(s)
            case None => SemicolonTerminator("\n" + s) == None
            case Some(t) => SemicolonTerminator("\n" + s) == Some(Terminator(t.statementEnd + 1, t.nextStart + 1))
  {
    var b := "\n" + s;
    forall i | 0 <= i < |s| ensures CodeSemicolon(b, i + 1) <==> CodeSemicolon(s, i) {
      StateAfterNewline(s, i);
    }
    assert !CodeSemicolon(b, 0);
    var bound := if SemicolonTerminator(s).Some? then SemicolonTerminator(s).value.statementEnd else |s|;
    forall i | 0 <= i < bound + 1 ensures !CodeSemicolon(b, i) {
      if i > 0 {
        assert CodeSemicolon(b, (i - 1) + 1) <==> CodeSemicolon(s, i - 1);
      }
    }
    if SemicolonTerminator(s).Some? {
      FirstSemicolonIs(b, bound + 1);
    }
  }

  // ----- the scanner -----

  /** The scanner's flags. The source sets them through a pointer. */
  class QuoteCommentState {
    var inSingleQuotes: bool
    var inDoubleQuotes: bool
    var inLineComment: bool
    var inBlockComment: bool

    constructor ()
      ensures !inSingleQuotes && !inDoubleQuotes && !inLineComment && !inBlockComment
    {
      inSingleQuotes, inDoubleQuotes, inLineComment, inBlockComment := false, false, false, false;
    }

    /** At most one of the four flags is set. */
    predicate Exclusive()
      reads this
    {
      && !(inSingleQuotes && (inDoubleQuotes || inLineComment || inBlockComment))
      && !(inDoubleQuotes && (inLineComment || inBlockComment))
      && !(inLineComment && inBlockComment)
    }

    function Kind(): Lex
      reads this
    {
      if inLineComment then LineComment
      else if inBlockComment then BlockComment
      else if inSingleQuotes then SingleQuoted
      else if inDoubleQuotes then DoubleQuoted
      else Code
    }

    /** The flags stand for the automaton's state at position `k`: they are equal, or the
        automaton waits for a second half that the scanner has already seen is not there. */
    predicate Stands(s: string, k: nat)
      reads this
      requires k <= |s|
    {
      && Exclusive()
      && Settled(StateAt(s, k), s, k)
      && Kind() == Base(StateAt(s, k))
    }

    method ConsumeLineComment(sql: string, charIndex: nat) returns (skip: nat)
      requires charIndex < |sql|
      requires Stands(sql, charIndex) && inLineComment
      modifies this
      ensures charIndex + skip < |sql| && Stands(sql, charIndex + skip + 1)
      ensures skip == 0
      ensures !InCode(StateAt(sql, charIndex))
    {
      if sql[charIndex] == '\n' {
        inLineComment := false;
      }
      return 0;
    }

    method ConsumeBlockComment(sql: string, charIndex: nat) returns (skip: nat)
      requires charIndex < |sql|
      requires Stands(sql, charIndex) && inBlockComment
      modifies this
      ensures charIndex + skip < |sql| && Stands(sql, charIndex + skip + 1)
      ensures !InCode(StateAt(sql, charIndex))
      ensures skip <= 1 && (skip == 1 ==> sql[charIndex + 1] == '/')
    {
      if sql[charIndex] == '*' && charIndex + 1 < |sql| && sql[charIndex + 1] == '/' {
        inBlockComment := false;
        assert StateAt(sql, charIndex + 1) == Star;
        assert StateAt(sql, charIndex + 2) == Code;
        return 1;
      }
      return 0;
    }

    method ConsumeSingleQuote(sql: string, charIndex: nat) returns (skip: nat)
      requires charIndex < |sql|
      requires Stands(sql, charIndex) && inSingleQuotes
      modifies this
      ensures charIndex + skip < |sql| && Stands(sql, charIndex + skip + 1)
      ensures !InCode(StateAt(sql, charIndex))
      ensures skip <= 1 && (skip == 1 ==> sql[charIndex + 1] == '\'')
    {
      if sql[charIndex] == '\'' && charIndex + 1 < |sql| && sql[charIndex + 1] == '\'' {
        assert StateAt(sql, charIndex + 1) == Code;
        assert StateAt(sql, charIndex + 2) == SingleQuoted;
        return 1;
      }
      if sql[charIndex] == '\'' {
        inSingleQuotes := false;
      }
      return 0;
    }

    method ConsumeDoubleQuote(sql: string, charIndex: nat) returns (skip: nat)
      requires charIndex < |sql|
      requires Stands(sql, charIndex) && inDoubleQuotes
      modifies this
      ensures charIndex + skip < |sql| && Stands(sql, charIndex + skip + 1)
      ensures !InCode(StateAt(sql, charIndex))
      ensures skip <= 1 && (skip == 1 ==> sql[charIndex + 1] == '"')
    {
      if sql[charIndex] == '"' && charIndex + 1 < |sql| && sql[charIndex + 1] == '"' {
        assert StateAt(sql, charIndex + 1) == Code;
        assert StateAt(sql, charIndex + 2) == DoubleQuoted;
        return 1;
      }
      if sql[charIndex] == '"' {
        inDoubleQuotes := false;
      }
      return 0;
    }

    method ConsumeDefault(sql: string, charIndex: nat) returns (found: bool, skip: nat)
      requires charIndex < |sql|
      requires Stands(sql, charIndex) && Kind() == Code
      modifies this
      ensures found <==> CodeSemicolon(sql, charIndex)
      ensures !found ==> charIndex + skip < |sql| && Stands(sql, charIndex + skip + 1)
      ensures skip <= 1 && (skip == 1 ==> !found && sql[charIndex + 1] != ';')
    {
      found, skip := false, 0;
      var c := sql[charIndex];
      if c == '\'' {
        inSingleQuotes := true;
      } else if c == '"' {
        inDoubleQuotes := true;
      } else if c == '-' {
        if charIndex + 1 < |sql| && sql[charIndex + 1] == '-' {
          inLineComment := true;
          assert StateAt(sql, charIndex + 1) == Dash;
          assert StateAt(sql, charIndex + 2) == LineComment;
          return false, 1;
        }
      } else if c == '/' {
        if charIndex + 1 < |sql| && sql[charIndex + 1] == '*' {
          inBlockComment := true;
          assert StateAt(sql, charIndex + 1) == Slash;
          assert StateAt(sql, charIndex + 2) == BlockComment;
          return false, 1;
        }
      } else if c == ';' {
        return true, 0;
      }
    }
  }

  function Base(q: Lex): Lex {
    if InCode(q) then Code else if q == Star then BlockComment else q
  }

  /** The character at `k`, if any, does not complete what the state waits for. */
  predicate Settled(q: Lex, s: string, k: nat)
    requires k <= |s|
  {
    k < |s| ==>
      && (q == Dash ==> s[k] != '-')
      && (q == Slash ==> s[k] != '*')
      && (q == Star ==> s[k] != '/')
  }

  /** The scanner finds exactly the first `;` that the automaton reads as code. */
  method FindSemicolonTerminator(sql: string, from: nat) returns (term: Terminator, ok: bool)
    requires from <= |sql|
    ensures ok ==> from <= term.statementEnd < |sql| && term.nextStart == term.statementEnd + 1
    ensures ok ==> CodeSemicolon(sql[from..], term.statementEnd - from)
    ensures ok ==> NoSemicolonBefore(sql[from..], term.statementEnd - from)
    ensures !ok ==> NoSemicolonBefore(sql[from..], |sql| - from)
  {
    hide StateAt;
    var state := new QuoteCommentState();
    StartsInCode(sql[from..]);
    ghost var s := sql[from..];
    var charIndex := from;
    while charIndex < |sql|
      invariant from <= charIndex <= |sql|
      invariant fresh(state)
      invariant state.Stands(s, charIndex - from)
      invariant NoSemicolonBefore(s, charIndex - from)
    {
      var skip;
      ghost var k := charIndex - from;
      if state.inLineComment {
        skip := state.ConsumeLineComment(sql[from..], charIndex - from);
      } else if state.inBlockComment {
        skip := state.ConsumeBlockComment(sql[from..], charIndex - from);
      } else if state.inSingleQuotes {
        skip := state.ConsumeSingleQuote(sql[from..], charIndex - from);
      } else if state.inDoubleQuotes {
        skip := state.ConsumeDoubleQuote(sql[from..], charIndex - from);
      } else {
        var found;
        found, skip := state.ConsumeDefault(sql[from..], charIndex - from);
        if found {
          return Terminator(charIndex, charIndex + 1), true;
        }
      }
      assert !CodeSemicolon(s, k);
      charIndex := charIndex + skip + 1;
    }
    return Terminator(0, 0), false;
  }
}
