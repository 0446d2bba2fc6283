/** Splitting SQL text into statements (internal/connect/shell.go): the batch splitter, what
    it keeps of its input, and why re-splitting a growing text line by line agrees with
    splitting the whole text once. */
module SqlSplit {
  import opened Text
  import opened SqlLexer
  import opened SqlTokens

  const LONE_SLASH := "/"

  /** The first line at or after `lineStart` that holds nothing but a `/`. */
  function ScriptTerminatorFrom(s: string, lineStart: nat): (r: Option<Terminator>)
    requires lineStart <= |s|
    ensures r.Some? ==> lineStart <= r.value.statementEnd < r.value.nextStart <= |s|
    decreases |s| - lineStart
  {
    if lineStart == |s| then None
    else
      var newline := FindChar(s, lineStart, '\n');
      if TrimSpace(s[lineStart..newline]) == LONE_SLASH then
        Some(Terminator(lineStart, if newline == |s| then |s| else newline + 1))
      else if newline == |s| then None
      else ScriptTerminatorFrom(s, newline + 1)
  }

  function StatementTerminator(s: string): (r: Option<Terminator>)
    ensures r.Some? ==> r.value.statementEnd < r.value.nextStart <= |s|
  {
    if LooksLikeScript(s) then ScriptTerminatorFrom(s, 0) else SemicolonTerminator(s)
  }

  datatype SplitResult = SplitResult(statements: seq<string>, remainder: string)

  /** A statement is kept when anything but white space is left of it. */
  function Kept(raw: string): seq<string> {
    if TrimSpace(raw) == "" then [] else [TrimSpace(raw)]
  }

  function Split(s: string): SplitResult
    decreases |s|
  {
    match StatementTerminator(s)
    case None => SplitResult([], s)
    case Some(t) =>
      var rest := Split(s[t.nextStart..]);
      SplitResult(Kept(s[..t.statementEnd]) + rest.statements, rest.remainder)
  }

  function NonInteractive(s: string): seq<string> {
    var r := Split(s);
    r.statements + Kept(r.remainder)
  }

  // ----- the loops of the source -----

  lemma FindCharInSuffix(s: string, k: nat, c: char)
    requires k <= |s|
    ensures FindChar(s, k, c) == k + FindChar(s[k..], 0, c)
  {
    var r := FindChar(s[k..], 0, c);
    forall i | k <= i < k + r ensures s[i] != c {
      assert s[k..][i - k] == s[i];
    }
    assert forall i :: 0 <= i < |s| - k ==> s[k..][i] == s[i + k];
  }

  lemma LineInSuffix(sql: string, from: nat, lineStart: nat)
    requires from <= lineStart <= |sql|
    ensures var newline := FindChar(sql[lineStart..], 0, '\n');
            && FindChar(sql[from..], lineStart - from, '\n') == lineStart - from + newline
            && sql[from..][lineStart - from..lineStart - from + newline] == sql[lineStart..][..newline]
  {
    assert sql[from..][lineStart - from..] == sql[lineStart..];
    FindCharInSuffix(sql[from..], lineStart - from, '\n');
  }

  method FindScriptTerminator(sql: string, from: nat) returns (term: Terminator, ok: bool)
    requires from <= |sql|
    ensures ok == ScriptTerminatorFrom(sql[from..], 0).Some?
    ensures ok ==> from <= term.statementEnd < term.nextStart <= |sql|
    ensures ok ==> Some(Terminator(term.statementEnd - from, term.nextStart - from)) == ScriptTerminatorFrom(sql[from..], 0)
  {
    hide TrimSpace, FindChar;
    ghost var s := sql[from..];
    var lineStart := from;
    while lineStart < |sql|
      invariant from <= lineStart <= |sql|
      invariant ScriptTerminatorFrom(s, lineStart - from) == ScriptTerminatorFrom(s, 0)
    {
      var newline := FindChar(sql[lineStart..], 0, '\n');
      var line := sql[lineStart..][..newline];
      LineInSuffix(sql, from, lineStart);
      if TrimSpace(line) == LONE_SLASH {
        if lineStart + newline == |sql| {
          return Terminator(lineStart, |sql|), true;
        }
        return Terminator(lineStart, lineStart + newline + 1), true;
      }
      if lineStart + newline == |sql| {
        return Terminator(0, 0), false;
      }
      lineStart := lineStart + newline + 1;
    }
    return Terminator(0, 0), false;
  }

  lemma NoSemicolonAtAll(s: string)
    requires NoSemicolonBefore(s, |s|)
    ensures SemicolonTerminator(s).None?
  {
  }

  method FindStatementTerminator(sql: string, from: nat) returns (term: Terminator, ok: bool)
    requires from <= |sql|
    ensures ok == StatementTerminator(sql[from..]).Some?
    ensures ok ==> from <= term.statementEnd < term.nextStart <= |sql|
    ensures ok ==> Some(Terminator(term.statementEnd - from, term.nextStart - from)) == StatementTerminator(sql[from..])
  {
    hide LooksLikeScript, ScriptTerminatorFrom, SemicolonTerminator, CodeSemicolon, NoSemicolonBefore;
    var script := LooksLikeScriptDDL(sql[from..]);
    if script {
      term, ok := FindScriptTerminator(sql, from);
    } else {
      term, ok := FindSemicolonTerminator(sql, from);
      if ok {
        FirstSemicolonIs(sql[from..], term.statementEnd - from);
      } else {
        NoSemicolonAtAll(sql[from..]);
      }
    }
  }

  /** One step of splitting, on the part of the text from `start`. */
  lemma SplitStep(sql: string, start: nat, t: Terminator)
    requires start <= |sql|
    requires StatementTerminator(sql[start..]) == Some(t)
    ensures start + t.nextStart <= |sql|
    ensures Split(sql[start..]).statements == Kept(sql[start..start + t.statementEnd]) + Split(sql[start + t.nextStart..]).statements
    ensures Split(sql[start..]).remainder == Split(sql[start + t.nextStart..]).remainder
  {
    var s := sql[start..];
    assert s[..t.statementEnd] == sql[start..start + t.statementEnd];
    assert s[t.nextStart..] == sql[start + t.nextStart..];
  }

  lemma SplitMore(sql: string, start: nat, t: Terminator, before: seq<string>)
    requires start <= |sql| && StatementTerminator(sql[start..]) == Some(t)
    ensures start + t.nextStart <= |sql|
    ensures var kept := Kept(sql[start..start + t.statementEnd]);
      && (kept == [] ==> before + Split(sql[start..]).statements == before + Split(sql[start + t.nextStart..]).statements)
      && before + Split(sql[start..]).statements == (before + kept) + Split(sql[start + t.nextStart..]).statements
    ensures Split(sql[start..]).remainder == Split(sql[start + t.nextStart..]).remainder
  {
    hide StatementTerminator, Split, Kept;
    SplitStep(sql, start, t);
  }

  lemma SplitDone(s: string)
    requires StatementTerminator(s).None?
    ensures Split(s) == SplitResult([], s)
  {
  }

  method SplitStatements(sql: string) returns (statements: seq<string>, remainder: string)
    ensures SplitResult(statements, remainder) == Split(sql)
  {
    hide StatementTerminator, Split, TrimSpace, Kept;
    statements := [];
    var start := 0;
    assert sql[0..] == sql;
    while start < |sql|
      invariant start <= |sql|
      invariant Split(sql).statements == statements + Split(sql[start..]).statements
      invariant Split(sql).remainder == Split(sql[start..]).remainder
    {
      var term, ok := FindStatementTerminator(sql, start);
      if !ok {
        SplitDone(sql[start..]);
        return statements, sql[start..];
      }
      var statement := TrimSpace(sql[start..term.statementEnd]);
      KeptIs(sql[start..term.statementEnd]);
      SplitMore(sql, start, Terminator(term.statementEnd - start, term.nextStart - start), statements);
      if statement != "" {
        statements := statements + [statement];
      }
      start := term.nextStart;
    }
    EmptyHasNoTerminator();
    SplitDone("");
    assert sql[start..] == "";
    return statements, sql[start..];
  }

  lemma KeptIs(raw: string)
    ensures Kept(raw) == if TrimSpace(raw) == "" then [] else [TrimSpace(raw)]
  {
  }

  lemma EmptyHasNoTerminator()
    ensures StatementTerminator("").None?
  {
  }

  method NonInteractiveStatements(sql: string) returns (statements: seq<string>)
    ensures statements == NonInteractive(sql)
  {
    var remainder;
    statements, remainder := SplitStatements(sql);
    var trailing := TrimSpace(remainder);
    if trailing != "" {
      statements := statements + [trailing];
    }
  }

  // ----- coverage: nothing is lost and nothing is cut short -----

  /** One statement as it stood in the text, and the terminator that followed it. */
  datatype Piece = Piece(raw: string, terminator: string)

  predicate LoneSlashLine(s: string) {
    && TrimSpace(s) == LONE_SLASH
    && forall i :: 0 <= i < |s| - 1 ==> s[i] != '\n'
  }

  /** No line that ends before `end` is a lone `/`. */
  predicate NoLoneSlashBefore(s: string, end: nat) {
    forall i, j ::
      0 <= i <= j < |s| && j < end && (i == 0 || s[i - 1] == '\n') && FindChar(s, i, '\n') == j ==>
        TrimSpace(s[i..j]) != LONE_SLASH
  }

  /** A piece with this text after it ends at the first terminator of the kind that its head
      asks for, and not before. */
  predicate CutAtFirst(p: Piece, rest: string) {
    if LooksLikeScript(p.raw + p.terminator + rest) then
      LoneSlashLine(p.terminator) && NoLoneSlashBefore(p.raw, |p.raw|)
    else p.terminator == ";" && CodeSemicolon(p.raw + p.terminator, |p.raw|) && NoSemicolonBefore(p.raw, |p.raw|)
  }

  function Joined(pieces: seq<Piece>): string {
    if pieces == [] then "" else pieces[0].raw + pieces[0].terminator + Joined(pieces[1..])
  }

  function AllKept(pieces: seq<Piece>): seq<string> {
    if pieces == [] then [] else Kept(pieces[0].raw) + AllKept(pieces[1..])
  }

  /** One line of the search for a script's terminator. */
  lemma ScriptStep(s: string, p: nat)
    requires p <= |s|
    ensures var newline := FindChar(s, p, '\n');
      ScriptTerminatorFrom(s, p) ==
        if p == |s| then None
        else if TrimSpace(s[p..newline]) == LONE_SLASH then Some(Terminator(p, if newline == |s| then |s| else newline + 1))
        else if newline == |s| then None
        else ScriptTerminatorFrom(s, newline + 1)
  {
    hide TrimSpace, FindChar;
  }

  lemma {:induction false} ScriptLinesBefore(s: string, lineStart: nat, t: Terminator)
    requires lineStart <= |s|
    requires lineStart == 0 || s[lineStart - 1] == '\n'
    requires ScriptTerminatorFrom(s, lineStart) == Some(t)
    ensures LoneSlashLine(s[t.statementEnd..t.nextStart])
    ensures t.statementEnd == 0 || s[t.statementEnd - 1] == '\n'
    ensures t.nextStart == |s| || s[t.nextStart - 1] == '\n'
    ensures forall i, j ::
      lineStart <= i <= j < t.statementEnd && (i == 0 || s[i - 1] == '\n') && FindChar(s, i, '\n') == j ==>
        TrimSpace(s[i..j]) != LONE_SLASH
    decreases |s| - lineStart
  {
    hide TrimSpace, FindChar, ScriptTerminatorFrom;
    ScriptStep(s, lineStart);
    var newline := FindChar(s, lineStart, '\n');
    var line := s[lineStart..newline];
    if TrimSpace(line) == LONE_SLASH {
      if newline < |s| {
        assert s[lineStart..newline + 1] == line + "\n";
        TrimLineEnd(line);
      }
    } else {
      ScriptLinesBefore(s, newline + 1, t);
      forall i, j | lineStart <= i <= j < t.statementEnd && (i == 0 || s[i - 1] == '\n') && FindChar(s, i, '\n') == j
        ensures TrimSpace(s[i..j]) != LONE_SLASH
      {
        if i <= newline {
          assert i == lineStart;
        }
      }
    }
  }

  lemma TrimLineEnd(line: string)
    ensures TrimSpace(line + "\n") == TrimSpace(line)
  {
    var a, b := TrimParts(line);
    var t := TrimSpace(line);
    assert line + "\n" == a + t + (b + "\n");
    TrimCore(a, t, b + "\n");
  }

  lemma TrimLineStart(line: string)
    ensures TrimSpace("\n" + line) == TrimSpace(line)
  {
    var a, b := TrimParts(line);
    var t := TrimSpace(line);
    assert "\n" + line == ("\n" + a) + t + b;
    TrimCore("\n" + a, t, b);
  }

  lemma FirstScriptPiece(s: string, t: Terminator)
    requires ScriptTerminatorFrom(s, 0) == Some(t)
    ensures LoneSlashLine(s[t.statementEnd..t.nextStart]) && NoLoneSlashBefore(s[..t.statementEnd], t.statementEnd)
  {
    hide ScriptTerminatorFrom, TrimSpace;
    var raw := s[..t.statementEnd];
    ScriptLinesBefore(s, 0, t);
    forall i, j | 0 <= i <= j < |raw| && (i == 0 || raw[i - 1] == '\n') && FindChar(raw, i, '\n') == j
      ensures TrimSpace(raw[i..j]) != LONE_SLASH
    {
      assert raw[i..j] == s[i..j];
      assert FindChar(s, i, '\n') == j;
    }
  }

  lemma FirstOrdinaryPiece(s: string, t: Terminator)
    requires SemicolonTerminator(s) == Some(t)
    ensures s[t.statementEnd..t.nextStart] == ";" && NoSemicolonBefore(s[..t.statementEnd], t.statementEnd)
    ensures CodeSemicolon(s[..t.statementEnd] + ";", t.statementEnd)
  {
    var raw := s[..t.statementEnd];
    assert s == raw + s[t.statementEnd..];
    forall k | 0 <= k < |raw| ensures !CodeSemicolon(raw, k) {
      SemicolonOfPrefix(raw, s[t.statementEnd..], k);
    }
    assert s == (raw + ";") + s[t.nextStart..];
    SemicolonOfPrefix(raw + ";", s[t.nextStart..], t.statementEnd);
  }

  lemma FirstPiece(s: string, t: Terminator)
    requires StatementTerminator(s) == Some(t)
    ensures CutAtFirst(Piece(s[..t.statementEnd], s[t.statementEnd..t.nextStart]), s[t.nextStart..])
  {
    hide LooksLikeScript, ScriptTerminatorFrom, SemicolonTerminator, LoneSlashLine, NoLoneSlashBefore, CodeSemicolon, NoSemicolonBefore;
    assert s[..t.statementEnd] + s[t.statementEnd..t.nextStart] + s[t.nextStart..] == s;
    if LooksLikeScript(s) {
      FirstScriptPiece(s, t);
    } else {
      FirstOrdinaryPiece(s, t);
    }
  }

  /** The pieces, their terminators and the remainder are exactly the input, the returned
      statements are the visible pieces in order, each cut at the first terminator of the kind
      that its head asks for, and the remainder holds no terminator. */
  lemma {:induction false} SplitCovers(s: string) returns (pieces: seq<Piece>)
    ensures s == Joined(pieces) + Split(s).remainder
    ensures Split(s).statements == AllKept(pieces)
    ensures forall i :: 0 <= i < |pieces| ==> CutAtFirst(pieces[i], Joined(pieces[i + 1..]) + Split(s).remainder)
    ensures StatementTerminator(Split(s).remainder).None?
    decreases |s|
  {
    hide StatementTerminator, Kept, CutAtFirst, Split, AllKept, Joined;
    if StatementTerminator(s).None? {
      SplitDone(s);
      NoPieces();
      pieces := [];
    } else {
      var t := StatementTerminator(s).value;
      var rest := SplitCovers(s[t.nextStart..]);
      var first := Piece(s[..t.statementEnd], s[t.statementEnd..t.nextStart]);
      pieces := [first] + rest;
      FirstPiece(s, t);
      SplitFirst(s, t);
      assert s == first.raw + first.terminator + s[t.nextStart..];
      JoinedNext(first, rest, Split(s).remainder);
      LaterPieces(first, rest);
      forall i | 0 <= i < |pieces| ensures CutAtFirst(pieces[i], Joined(pieces[i + 1..]) + Split(s).remainder) {
        if i > 0 {
          assert pieces[i] == rest[i - 1] && pieces[i + 1..] == rest[i - 1 + 1..];
        }
      }
    }
  }

  lemma NoPieces()
    ensures Joined([]) == "" && AllKept([]) == []
  {
  }

  lemma JoinedNext(first: Piece, rest: seq<Piece>, remainder: string)
    ensures Joined([first] + rest) + remainder == first.raw + first.terminator + (Joined(rest) + remainder)
    ensures AllKept([first] + rest) == Kept(first.raw) + AllKept(rest)
  {
    hide Kept;
    assert ([first] + rest)[1..] == rest;
  }

  lemma LaterPieces(first: Piece, rest: seq<Piece>)
    ensures ([first] + rest)[1..] == rest
    ensures forall i :: 0 < i <= |rest| ==> ([first] + rest)[i] == rest[i - 1] && ([first] + rest)[i + 1..] == rest[i..]
  {
  }

  /** What is kept of a piece: nothing exactly if it is blank, and otherwise its visible core. */
  lemma KeptIsTheCore(raw: string) returns (a: string, b: string)
    ensures Kept(raw) == [] <==> AllSpace(raw)
    ensures AllSpace(a) && AllSpace(b)
    ensures !AllSpace(raw) ==> |Kept(raw)| == 1 && Kept(raw)[0] != "" && Trimmed(Kept(raw)[0]) && raw == a + Kept(raw)[0] + b
  {
    a, b := TrimParts(raw);
    if TrimSpace(raw) == "" {
      BlankIsSpace(raw);
    } else {
      VisibleInside(raw, a, TrimSpace(raw), b);
    }
  }

  lemma VisibleInside(s: string, a: string, t: string, b: string)
    requires s == a + t + b && t != "" && Trimmed(t)
    ensures !AllSpace(s)
  {
    assert s[|a|] == t[0];
  }

  // ----- blank lines in front of a text do not matter -----

  /** `b` is the text `s` with a newline in front. */
  predicate NewlineThen(b: string, s: string) {
    |b| == |s| + 1 && b[0] == '\n' && forall i {:trigger s[i]} :: 0 <= i < |s| ==> b[i + 1] == s[i]
  }

  lemma PairAfterNewline(b: string, s: string, p: nat, c: char, d: char)
    requires NewlineThen(b, s)
    ensures HasPair(b, p + 1, c, d) <==> HasPair(s, p, c, d)
  {
    if p + 1 < |s| {
      assert s[p] == b[p + 1] && s[p + 1] == b[p + 2];
    }
  }

  lemma {:induction false} FindCharAfterNewline(b: string, s: string, p: nat, c: char)
    requires NewlineThen(b, s) && p <= |s|
    ensures FindChar(b, p + 1, c) == FindChar(s, p, c) + 1
    decreases |s| - p
  {
    if p < |s| && s[p] != c {
      FindCharAfterNewline(b, s, p + 1, c);
    }
  }

  lemma {:induction false} FindPairAfterNewline(b: string, s: string, p: nat, c: char, d: char)
    requires NewlineThen(b, s) && p <= |s|
    ensures FindPair(b, p + 1, c, d) == FindPair(s, p, c, d) + 1
    decreases |s| - p
  {
    PairAfterNewline(b, s, p, c, d);
    if p < |s| && !HasPair(s, p, c, d) {
      FindPairAfterNewline(b, s, p + 1, c, d);
    }
  }

  lemma SkipOneAfterNewline(b: string, s: string, p: nat)
    requires NewlineThen(b, s) && p < |s|
    ensures SkipOne(b, p + 1) == SkipOne(s, p) + 1
  {
    assert b[p + 1] == s[p];
    PairAfterNewline(b, s, p, '-', '-');
    PairAfterNewline(b, s, p, '/', '*');
    FindCharAfterNewline(b, s, p, '\n');
    FindPairAfterNewline(b, s, p, '*', '/');
  }

  lemma {:induction false} SkipSpaceAfterNewline(b: string, s: string, p: nat)
    requires NewlineThen(b, s) && p <= |s|
    ensures SkipSpaceAndComments(b, p + 1) == SkipSpaceAndComments(s, p) + 1
    decreases |s| - p
  {
    hide SkipOne;
    if p < |s| {
      SkipOneAfterNewline(b, s, p);
      if SkipOne(s, p) != p {
        SkipSpaceAfterNewline(b, s, SkipOne(s, p));
      }
    }
  }

  lemma {:induction false} SkipQuotedAfterNewline(b: string, s: string, c: nat, quote: char)
    requires NewlineThen(b, s) && c <= |s|
    ensures SkipQuotedFrom(b, c + 1, quote) == SkipQuotedFrom(s, c, quote) + 1
    decreases |s| - c
  {
    if c < |s| {
      PairAfterNewline(b, s, c, quote, quote);
      if s[c] != quote {
        SkipQuotedAfterNewline(b, s, c + 1, quote);
      } else if HasPair(s, c, quote, quote) {
        SkipQuotedAfterNewline(b, s, c + 2, quote);
      }
    }
  }

  lemma {:induction false} TokenEndAfterNewline(b: string, s: string, p: nat)
    requires NewlineThen(b, s) && p <= |s|
    ensures TokenEnd(b, p + 1) == TokenEnd(s, p) + 1
    decreases |s| - p
  {
    PairAfterNewline(b, s, p, '-', '-');
    PairAfterNewline(b, s, p, '/', '*');
    if p < |s| && !IsTokenSeparator(s, p) {
      if IsQuote(s[p]) {
        SkipQuotedAfterNewline(b, s, p + 1, s[p]);
        TokenEndAfterNewline(b, s, SkipQuotedFrom(s, p + 1, s[p]));
      } else {
        TokenEndAfterNewline(b, s, p + 1);
      }
    }
  }

  lemma SliceAfterNewline(b: string, s: string, i: nat, j: nat)
    requires NewlineThen(b, s) && i <= j <= |s|
    ensures b[i + 1..j + 1] == s[i..j]
  {
    forall k | 0 <= k < j - i ensures b[i + 1..j + 1][k] == s[i..j][k] {
      assert b[(i + k) + 1] == s[i + k];
    }
  }

  lemma TokenAfterNewline(b: string, s: string, p: nat)
    requires NewlineThen(b, s) && p <= |s|
    ensures TokenAt(b, p + 1) == (TokenAt(s, p).0, TokenAt(s, p).1 + 1)
  {
    SkipSpaceAfterNewline(b, s, p);
    var start := SkipSpaceAndComments(s, p);
    TokenEndAfterNewline(b, s, start);
    SliceAfterNewline(b, s, start, TokenEnd(s, start));
  }

  lemma {:induction false} ScriptAheadAfterNewline(b: string, s: string, p: nat)
    requires NewlineThen(b, s) && p <= |s|
    ensures ScriptKeywordAhead(b, p + 1) == ScriptKeywordAhead(s, p)
    decreases |s| - p
  {
    hide TokenAt;
    TokenAfterNewline(b, s, p);
    var (token, next) := TokenAt(s, p);
    if token != "" {
      ScriptAheadAfterNewline(b, s, next);
    }
  }

  lemma LooksLikeScriptAfterNewline(b: string, s: string)
    requires NewlineThen(b, s)
    ensures LooksLikeScript(b) == LooksLikeScript(s)
  {
    hide ScriptKeywordAhead, TokenEnd, FindChar, FindPair, HasPair;
    assert SkipSpaceAndComments(b, 0) == SkipSpaceAndComments(b, 1);
    assert TokenAt(b, 0) == TokenAt(b, 1);
    TokenAfterNewline(b, s, 0);
    ScriptAheadAfterNewline(b, s, TokenAt(s, 0).1);
  }

  function Shifted(t: Option<Terminator>): Option<Terminator> {
    match t
    case None => None
    case Some(u) => Some(Terminator(u.statementEnd + 1, u.nextStart + 1))
  }

  lemma {:induction false} ScriptTerminatorAfterNewline(b: string, s: string, p: nat)
    requires NewlineThen(b, s) && p <= |s|
    ensures ScriptTerminatorFrom(b, p + 1) == Shifted(ScriptTerminatorFrom(s, p))
    decreases |s| - p
  {
    hide TrimSpace, FindChar, ScriptTerminatorFrom;
    ScriptStep(s, p);
    ScriptStep(b, p + 1);
    if p < |s| {
      FindCharAfterNewline(b, s, p, '\n');
      var newline := FindChar(s, p, '\n');
      SliceAfterNewline(b, s, p, newline);
      if TrimSpace(s[p..newline]) != LONE_SLASH && newline < |s| {
        ScriptTerminatorAfterNewline(b, s, newline + 1);
      }
    }
  }

  /** An empty first line is no terminator. */
  lemma ScriptTerminatorSkips(b: string)
    requires b != "" && b[0] == '\n'
    ensures ScriptTerminatorFrom(b, 0) == ScriptTerminatorFrom(b, 1)
  {
    assert b[0..0] == "";
    assert TrimSpace("") == "";
  }

  lemma TerminatorAfterNewline(b: string, s: string)
    requires NewlineThen(b, s)
    ensures StatementTerminator(b) == Shifted(StatementTerminator(s))
  {
    hide LooksLikeScript, SemicolonTerminator, ScriptTerminatorFrom;
    LooksLikeScriptAfterNewline(b, s);
    if LooksLikeScript(s) {
      ScriptTerminatorSkips(b);
      ScriptTerminatorAfterNewline(b, s, 0);
    } else {
      assert b == "\n" + s by {
        forall k | 1 <= k < |b| ensures b[k] == ("\n" + s)[k] {
          assert b[(k - 1) + 1] == s[k - 1];
        }
      }
      FirstSemicolonAfterNewline(s);
    }
  }

  /** The text without the newlines in front of it. */
  function StripNewlines(s: string): string {
    if s != "" && s[0] == '\n' then StripNewlines(s[1..]) else s
  }

  lemma SplitAfterNewline(s: string)
    ensures Split("\n" + s).statements == Split(s).statements
    ensures StripNewlines(Split("\n" + s).remainder) == StripNewlines(Split(s).remainder)
  {
    hide StatementTerminator, TrimSpace;
    var b := "\n" + s;
    TerminatorAfterNewline(b, s);
    match StatementTerminator(s)
    case None =>
      assert b[1..] == s;
    case Some(t) =>
      assert b[t.nextStart + 1..] == s[t.nextStart..];
      assert b[..t.statementEnd + 1] == "\n" + s[..t.statementEnd];
      TrimLineStart(s[..t.statementEnd]);
  }

  lemma {:induction false} SplitStripped(s: string)
    ensures Split(s).statements == Split(StripNewlines(s)).statements
    ensures StripNewlines(Split(s).remainder) == StripNewlines(Split(StripNewlines(s)).remainder)
  {
    if s != "" && s[0] == '\n' {
      assert s == "\n" + s[1..];
      SplitAfterNewline(s[1..]);
      SplitStripped(s[1..]);
    }
  }

  lemma {:induction false} KeptStripped(s: string)
    ensures Kept(s) == Kept(StripNewlines(s))
  {
    if s != "" && s[0] == '\n' {
      assert s == "\n" + s[1..];
      TrimLineStart(s[1..]);
      KeptStripped(s[1..]);
    }
  }

  lemma {:induction false} StripContinued(s: string, x: string)
    ensures StripNewlines(s + "\n" + x) == if StripNewlines(s) == "" then StripNewlines(x) else StripNewlines(s) + "\n" + x
  {
    if s != "" && s[0] == '\n' {
      assert (s + "\n" + x)[1..] == s[1..] + "\n" + x;
      StripContinued(s[1..], x);
    } else if s == "" {
      assert (s + "\n" + x)[1..] == x;
    }
  }

  // ----- a text that grows by a line -----

  lemma {:induction false} ScriptTerminatorContinues(a: string, b: string, p: nat)
    requires Continues(a, b) && p <= |a|
    requires ScriptTerminatorFrom(a, p).Some?
    ensures ScriptTerminatorFrom(b, p).Some?
    ensures var t, u := ScriptTerminatorFrom(a, p).value, ScriptTerminatorFrom(b, p).value;
            u.statementEnd == t.statementEnd && (u.nextStart == t.nextStart || (t.nextStart == |a| && u.nextStart == |a| + 1))
    decreases |a| - p
  {
    hide TrimSpace, FindChar, ScriptTerminatorFrom;
    ScriptStep(a, p);
    ScriptStep(b, p);
    FindCharContinues(a, b, p, '\n');
    var newline := FindChar(a, p, '\n');
    assert FindChar(b, p, '\n') == newline;
    SliceContinues(a, b, p, newline);
    if TrimSpace(a[p..newline]) != LONE_SLASH {
      ScriptTerminatorContinues(a, b, newline + 1);
    }
  }

  /** A text is cut at the same place when it grows by a line, unless the new line turns its head
      into that of a script. */
  lemma TerminatorContinues(a: string, b: string)
    requires Continues(a, b) && StatementTerminator(a).Some?
    requires LooksLikeScript(a) || !LooksLikeScript(b)
    ensures StatementTerminator(b).Some?
    ensures var t, u := StatementTerminator(a).value, StatementTerminator(b).value;
            u.statementEnd == t.statementEnd && (u.nextStart == t.nextStart || (t.nextStart == |a| && u.nextStart == |a| + 1))
  {
    hide LooksLikeScript, ScriptTerminatorFrom, SemicolonTerminator;
    if LooksLikeScript(a) {
      LooksLikeScriptContinues(a, b);
      ScriptTerminatorContinues(a, b, 0);
    } else {
      assert b == a + b[|a|..];
      FirstSemicolonExtends(a, b[|a|..]);
    }
  }

  /** Every piece of `a` that was cut at a `;` still has an ordinary head with the text `x` on the
      lines below it. */
  predicate CutsStay(a: string, x: string)
    decreases |a|
  {
    match StatementTerminator(a)
    case None => true
    case Some(t) => (LooksLikeScript(a) || !LooksLikeScript(a + "\n" + x)) && CutsStay(a[t.nextStart..], x)
  }

  /** Splitting a text continued on a new line: first what the text alone gives, then what
      its remainder, so continued, gives. */
  lemma {:induction false} SplitContinues(a: string, x: string)
    requires CutsStay(a, x)
    ensures var b, c := a + "\n" + x, Split(a).remainder + "\n" + x;
            && Split(b).statements == Split(a).statements + Split(c).statements
            && StripNewlines(Split(b).remainder) == StripNewlines(Split(c).remainder)
    decreases |a|
  {
    hide StatementTerminator, Split, Kept, StripNewlines, LooksLikeScript;
    if StatementTerminator(a).None? {
      SplitDone(a);
    } else {
      var t := StatementTerminator(a).value;
      SplitContinues(a[t.nextStart..], x);
      SplitFirst(a, t);
      StayingCut(a, x, t);
    }
  }

  /** A cut that stays is the first cut of the longer text too. */
  lemma StayingCut(a: string, x: string, t: Terminator)
    requires StatementTerminator(a) == Some(t) && (LooksLikeScript(a) || !LooksLikeScript(a + "\n" + x))
    ensures var b, c := a + "\n" + x, a[t.nextStart..] + "\n" + x;
            && Split(b).statements == Kept(a[..t.statementEnd]) + Split(c).statements
            && StripNewlines(Split(b).remainder) == StripNewlines(Split(c).remainder)
  {
    hide StatementTerminator, Split, Kept, StripNewlines, LooksLikeScript;
    var b := a + "\n" + x;
    assert b[..|a|] == a;
    TerminatorContinues(a, b);
    var u := StatementTerminator(b).value;
    SplitFirst(b, u);
    assert b[..u.statementEnd] == a[..t.statementEnd];
    SplitTail(a, x, t, u);
  }

  /** Without the text that the two lexers read differently every cut stays. */
  lemma {:induction false} NoShortCommentStays(a: string, x: string)
    requires NoShortComment(a)
    ensures CutsStay(a, x)
    decreases |a|
  {
    hide LooksLikeScript, NoShortComment, ScriptTerminatorFrom, SemicolonTerminator;
    if StatementTerminator(a).Some? {
      var t := StatementTerminator(a).value;
      var b := a + "\n" + x;
      assert b[..|a|] == a;
      if !LooksLikeScript(a) {
        assert CodeSemicolon(a, t.statementEnd);
        OrdinaryContinues(a, b, t.statementEnd);
      }
      SuffixHasNoShortComment(a, t.nextStart);
      NoShortCommentStays(a[t.nextStart..], x);
    }
  }

  lemma SplitFirst(s: string, t: Terminator)
    requires StatementTerminator(s) == Some(t)
    ensures Split(s).statements == Kept(s[..t.statementEnd]) + Split(s[t.nextStart..]).statements
    ensures Split(s).remainder == Split(s[t.nextStart..]).remainder
  {
  }

  /** The same tail, whether or not the newline that ends a lone `/` was there already. */
  lemma SplitTail(a: string, x: string, t: Terminator, u: Terminator)
    requires t.nextStart <= |a|
    requires u.nextStart == t.nextStart || (t.nextStart == |a| && u.nextStart == |a| + 1)
    ensures var long, short := (a + "\n" + x)[u.nextStart..], a[t.nextStart..] + "\n" + x;
            && Split(long).statements == Split(short).statements
            && StripNewlines(Split(long).remainder) == StripNewlines(Split(short).remainder)
  {
    hide Split, StripNewlines;
    var b := a + "\n" + x;
    assert b[t.nextStart..] == a[t.nextStart..] + "\n" + x;
    if u.nextStart != t.nextStart {
      assert b[t.nextStart..] == "\n" + b[u.nextStart..];
      SplitAfterNewline(b[u.nextStart..]);
    }
  }

  lemma SuffixHasNoShortComment(s: string, k: nat)
    requires NoShortComment(s) && k <= |s|
    ensures NoShortComment(s[k..])
  {
    forall i | 0 <= i < |s[k..]|
      ensures !(HasPair(s[k..], i, '/', '*') && HasPair(s[k..], i + 1, '*', '/'))
    {
      assert !(HasPair(s, k + i, '/', '*') && HasPair(s, k + i + 1, '*', '/'));
    }
  }

  lemma PrefixHasNoShortComment(a: string, x: string)
    requires NoShortComment(a + x)
    ensures NoShortComment(a)
  {
    forall i | 0 <= i < |a|
      ensures !(HasPair(a, i, '/', '*') && HasPair(a, i + 1, '*', '/'))
    {
      assert !(HasPair(a + x, i, '/', '*') && HasPair(a + x, i + 1, '*', '/'));
    }
  }
}
