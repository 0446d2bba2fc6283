/** The second tokenizer of the SQL shell: it reads the head of a statement to decide
    whether the statement is a script or function definition, which ends at a lone `/`
    instead of a `;`. */
module SqlTokens {
  import opened Text
  import opened SqlLexer

  predicate IsSpaceByte(c: char) {
    c == ' ' || c == '\t' || c == '\r' || c == '\n'
  }

  predicate HasPair(s: string, pos: nat, c: char, d: char) {
    pos + 1 < |s| && s[pos] == c && s[pos + 1] == d
  }

  predicate IsTokenSeparator(s: string, pos: nat)
    requires pos < |s|
  {
    IsSpaceByte(s[pos]) || s[pos] == '(' || s[pos] == ';' || HasPair(s, pos, '-', '-') || HasPair(s, pos, '/', '*')
  }

  predicate IsQuote(c: char) {
    c == '\'' || c == '"'
  }

  function FindPair(s: string, from: nat, c: char, d: char): (r: nat)
    requires from <= |s|
    ensures from <= r <= |s|
    ensures r < |s| ==> HasPair(s, r, c, d)
    ensures forall i :: from <= i < r ==> !HasPair(s, i, c, d)
    decreases |s| - from
  {
    if from == |s| || HasPair(s, from, c, d) then from else FindPair(s, from + 1, c, d)
  }

  // ----- what the tokenizer computes -----

  /** The position behind one blank or one comment at `pos`, or `pos` itself. */
  function SkipOne(s: string, pos: nat): (r: nat)
    requires pos < |s|
    ensures pos <= r <= |s|
  {
    if IsSpaceByte(s[pos]) then pos + 1
    else if HasPair(s, pos, '-', '-') then
      var newline := FindChar(s, pos, '\n');
      if newline == |s| then |s| else newline + 1
    else if HasPair(s, pos, '/', '*') then
      var end := FindPair(s, pos, '*', '/');
      if end == |s| then |s| else end + 2
    else pos
  }

  function SkipSpaceAndComments(s: string, pos: nat): (r: nat)
    requires pos <= |s|
    ensures pos <= r <= |s|
    decreases |s| - pos
  {
    if pos == |s| || SkipOne(s, pos) == pos then pos else SkipSpaceAndComments(s, SkipOne(s, pos))
  }

  /** The position behind the quote that closes a quoted text, from inside the text. */
  function SkipQuotedFrom(s: string, cursor: nat, quote: char): (r: nat)
    requires cursor <= |s|
    ensures cursor <= r <= |s|
    decreases |s| - cursor
  {
    if cursor == |s| then |s|
    else if s[cursor] != quote then SkipQuotedFrom(s, cursor + 1, quote)
    else if HasPair(s, cursor, quote, quote) then SkipQuotedFrom(s, cursor + 2, quote)
    else cursor + 1
  }

  function TokenEnd(s: string, pos: nat): (r: nat)
    requires pos <= |s|
    ensures pos <= r <= |s|
    decreases |s| - pos
  {
    if pos == |s| || IsTokenSeparator(s, pos) then pos
    else if IsQuote(s[pos]) then TokenEnd(s, SkipQuotedFrom(s, pos + 1, s[pos]))
    else TokenEnd(s, pos + 1)
  }

  function TokenAt(s: string, from: nat): (r: (string, nat))
    requires from <= |s|
    ensures from <= r.1 <= |s|
    ensures r.0 != "" ==> from < r.1
  {
    var start := SkipSpaceAndComments(s, from);
    var end := TokenEnd(s, start);
    (ToUpper(s[start..end]), end)
  }

  function ScriptKeywordAhead(s: string, pos: nat): bool
    requires pos <= |s|
    decreases |s| - pos
  {
    var (token, next) := TokenAt(s, pos);
    if token == "" || token == "AS" then false
    else token == "SCRIPT" || token == "FUNCTION" || ScriptKeywordAhead(s, next)
  }

  predicate LooksLikeScript(s: string) {
    var (token, next) := TokenAt(s, 0);
    token == "CREATE" && ScriptKeywordAhead(s, next)
  }

  // ----- the loops of the source -----

  method SkipSpaceAndCommentsLoop(sql: string, from: nat) returns (r: nat)
    requires from <= |sql|
    ensures r == SkipSpaceAndComments(sql, from)
  {
    var pos := from;
    while pos < |sql|
      invariant from <= pos <= |sql|
      invariant SkipSpaceAndComments(sql, pos) == SkipSpaceAndComments(sql, from)
    {
      if IsSpaceByte(sql[pos]) {
        pos := pos + 1;
      } else if HasPair(sql, pos, '-', '-') {
        var newline := FindChar(sql, pos, '\n');
        if newline == |sql| {
          return |sql|;
        }
        pos := newline + 1;
      } else if HasPair(sql, pos, '/', '*') {
        var end := FindPair(sql, pos, '*', '/');
        if end == |sql| {
          return |sql|;
        }
        pos := end + 2;
      } else {
        return pos;
      }
    }
    return |sql|;
  }

  method SkipQuoted(sql: string, pos: nat) returns (r: nat)
    requires pos < |sql|
    ensures r == SkipQuotedFrom(sql, pos + 1, sql[pos])
  {
    var quote := sql[pos];
    var cursor := pos + 1;
    while cursor < |sql|
      invariant pos < cursor <= |sql|
      invariant SkipQuotedFrom(sql, cursor, quote) == SkipQuotedFrom(sql, pos + 1, quote)
    {
      if sql[cursor] != quote {
        cursor := cursor + 1;
        continue;
      }
      if cursor + 1 < |sql| && sql[cursor + 1] == quote {
        cursor := cursor + 2;
        continue;
      }
      return cursor + 1;
    }
    return |sql|;
  }

  method NextToken(sql: string, from: nat) returns (token: string, pos: nat)
    requires from <= |sql|
    ensures (token, pos) == TokenAt(sql, from)
  {
    var start := SkipSpaceAndCommentsLoop(sql, from);
    var end := start;
    while end < |sql| && !IsTokenSeparator(sql, end)
      invariant start <= end <= |sql|
      invariant TokenEnd(sql, end) == TokenEnd(sql, start)
    {
      if IsQuote(sql[end]) {
        end := SkipQuoted(sql, end);
        continue;
      }
      end := end + 1;
    }
    if end == start {
      return "", end;
    }
    return ToUpper(sql[start..end]), end;
  }

  method LooksLikeScriptDDL(sql: string) returns (r: bool)
    ensures r == LooksLikeScript(sql)
  {
    var token, pos := NextToken(sql, 0);
    if token != "CREATE" {
      return false;
    }
    ghost var first := pos;
    while true
      invariant pos <= |sql| && first <= |sql|
      invariant ScriptKeywordAhead(sql, pos) == ScriptKeywordAhead(sql, first)
      decreases |sql| - pos
    {
      token, pos := NextToken(sql, pos);
      if token == "" || token == "AS" {
        return false;
      }
      if token == "SCRIPT" || token == "FUNCTION" {
        return true;
      }
    }
  }

  // ----- the two lexers agree up to a code-level `;` -----

  /** The text that the two lexers read differently: the tokenizer takes it for a whole
      comment, the scanner for the beginning of one. */
  predicate NoShortComment(s: string) {
    forall i :: 0 <= i < |s| ==> !(HasPair(s, i, '/', '*') && HasPair(s, i + 1, '*', '/'))
  }

  /** The automaton is in code at `p` and not in the middle of a comment opener. */
  predicate Synced(s: string, p: nat) {
    p <= |s| && InCode(StateAt(s, p)) && Settled(StateAt(s, p), s, p)
  }

  lemma {:induction false} InsideLineComment(s: string, p: nat, k: nat)
    requires Synced(s, p) && HasPair(s, p, '-', '-')
    requires p + 2 <= k <= FindChar(s, p, '\n')
    ensures StateAt(s, k) == LineComment
  {
    if k == p + 2 {
      assert StateAt(s, p + 1) == Dash;
    } else {
      InsideLineComment(s, p, k - 1);
    }
  }

  lemma {:induction false} InsideBlockComment(s: string, p: nat, k: nat)
    requires Synced(s, p) && HasPair(s, p, '/', '*') && !HasPair(s, p + 1, '*', '/')
    requires p + 2 <= k <= |s| && k <= FindPair(s, p, '*', '/') + 1
    ensures StateAt(s, k) == if s[k - 1] == '*' && k > p + 2 then Star else BlockComment
  {
    if k == p + 2 {
      assert StateAt(s, p + 1) == Slash;
    } else {
      InsideBlockComment(s, p, k - 1);
      assert !HasPair(s, k - 2, '*', '/');
    }
  }

  lemma SkipOneStaysSynced(s: string, p: nat, i: nat)
    requires NoShortComment(s) && Synced(s, p)
    requires CodeSemicolon(s, i) && p <= i
    ensures SkipOne(s, p) <= i && Synced(s, SkipOne(s, p))
  {
    if IsSpaceByte(s[p]) {
      assert StateAt(s, p + 1) == Code;
    } else if HasPair(s, p, '-', '-') {
      var newline := FindChar(s, p, '\n');
      if p + 2 <= i <= newline {
        InsideLineComment(s, p, i);
      }
      InsideLineComment(s, p, newline);
      assert StateAt(s, newline + 1) == Code;
    } else if HasPair(s, p, '/', '*') {
      var end := FindPair(s, p, '*', '/');
      assert !HasPair(s, p + 1, '*', '/');
      if p + 2 <= i <= end + 1 {
        InsideBlockComment(s, p, i);
      }
      InsideBlockComment(s, p, end + 1);
      assert StateAt(s, end + 2) == Code;
    }
  }

  lemma {:induction false} SkipSpaceStaysSynced(s: string, p: nat, i: nat)
    requires NoShortComment(s) && Synced(s, p)
    requires CodeSemicolon(s, i) && p <= i
    ensures SkipSpaceAndComments(s, p) <= i && Synced(s, SkipSpaceAndComments(s, p))
    decreases |s| - p
  {
    hide SkipOne, NoShortComment, Synced;
    SkipOneStaysSynced(s, p, i);
    if SkipOne(s, p) != p {
      SkipSpaceStaysSynced(s, SkipOne(s, p), i);
    }
  }

  lemma {:induction false} SkipQuotedStaysSynced(s: string, c: nat, quote: char, i: nat)
    requires IsQuote(quote) && c <= i && CodeSemicolon(s, i)
    requires StateAt(s, c) == if quote == '"' then DoubleQuoted else SingleQuoted
    ensures SkipQuotedFrom(s, c, quote) <= i && Synced(s, SkipQuotedFrom(s, c, quote))
    decreases |s| - c
  {
    if s[c] != quote {
      SkipQuotedStaysSynced(s, c + 1, quote, i);
    } else if HasPair(s, c, quote, quote) {
      assert StateAt(s, c + 1) == Code;
      SkipQuotedStaysSynced(s, c + 2, quote, i);
    } else {
      assert StateAt(s, c + 1) == Code;
    }
  }

  lemma {:induction false} TokenEndStaysSynced(s: string, p: nat, i: nat)
    requires Synced(s, p) && p <= i && CodeSemicolon(s, i)
    ensures TokenEnd(s, p) <= i && Synced(s, TokenEnd(s, p))
    decreases |s| - p
  {
    if IsTokenSeparator(s, p) {
    } else if IsQuote(s[p]) {
      SkipQuotedStaysSynced(s, p + 1, s[p], i);
      TokenEndStaysSynced(s, SkipQuotedFrom(s, p + 1, s[p]), i);
    } else {
      TokenEndStaysSynced(s, p + 1, i);
    }
  }

  /** Reading tokens never runs past a `;` that the scanner reads as code. */
  lemma TokenStaysSynced(s: string, p: nat, i: nat)
    requires NoShortComment(s) && Synced(s, p) && p <= i && CodeSemicolon(s, i)
    ensures TokenAt(s, p).1 <= i && Synced(s, TokenAt(s, p).1)
  {
    SkipSpaceStaysSynced(s, p, i);
    TokenEndStaysSynced(s, SkipSpaceAndComments(s, p), i);
  }

  // ----- more lines below a text do not change how the text is read -----

  function Min(a: nat, b: nat): nat { if a <= b then a else b }

  /** `b` is the text `a` continued on a new line. */
  predicate Continues(a: string, b: string) {
    |a| < |b| && b[..|a|] == a && b[|a|] == '\n'
  }

  lemma SliceContinues(a: string, b: string, i: nat, j: nat)
    requires Continues(a, b) && i <= j <= |a|
    ensures b[i..j] == a[i..j]
  {
    assert b[..|a|][i..j] == b[i..j];
  }

  lemma PairContinues(a: string, b: string, p: nat, c: char, d: char)
    requires Continues(a, b) && p < |a| && d != '\n'
    ensures HasPair(a, p, c, d) <==> HasPair(b, p, c, d)
    ensures a[p] == b[p]
  {
    assert b[..|a|][p] == a[p];
    if p + 1 < |a| {
      assert b[..|a|][p + 1] == a[p + 1];
    }
  }

  lemma {:induction false} FindCharContinues(a: string, b: string, p: nat, c: char)
    requires Continues(a, b) && p <= |a|
    ensures FindChar(a, p, c) == Min(|a|, FindChar(b, p, c))
    decreases |a| - p
  {
    if p < |a| {
      assert b[..|a|][p] == a[p];
      FindCharContinues(a, b, p + 1, c);
    }
  }

  lemma {:induction false} FindPairContinues(a: string, b: string, p: nat, c: char, d: char)
    requires Continues(a, b) && p <= |a| && d != '\n'
    ensures FindPair(a, p, c, d) == Min(|a|, FindPair(b, p, c, d))
    decreases |a| - p
  {
    if p < |a| {
      PairContinues(a, b, p, c, d);
      FindPairContinues(a, b, p + 1, c, d);
    }
  }

  lemma SkipOneContinues(a: string, b: string, p: nat)
    requires Continues(a, b) && p < |a|
    ensures SkipOne(a, p) == Min(|a|, SkipOne(b, p))
    ensures SkipOne(a, p) == p <==> SkipOne(b, p) == p
  {
    PairContinues(a, b, p, '-', '-');
    PairContinues(a, b, p, '/', '*');
    FindCharContinues(a, b, p, '\n');
    FindPairContinues(a, b, p, '*', '/');
  }

  lemma {:induction false} SkipSpaceContinues(a: string, b: string, p: nat)
    requires Continues(a, b) && p <= |a|
    ensures SkipSpaceAndComments(a, p) == Min(|a|, SkipSpaceAndComments(b, p))
    decreases |a| - p
  {
    hide SkipOne, Continues;
    assert |a| < |b| by { ContinuesIsLonger(a, b); }
    if p < |a| {
      SkipOneContinues(a, b, p);
      if p < SkipOne(b, p) <= |a| {
        SkipSpaceContinues(a, b, SkipOne(b, p));
      }
    }
  }

  lemma ContinuesIsLonger(a: string, b: string)
    requires Continues(a, b)
    ensures |a| < |b|
  {
  }

  lemma {:induction false} SkipQuotedContinues(a: string, b: string, c: nat, quote: char)
    requires Continues(a, b) && c <= |a| && IsQuote(quote)
    ensures SkipQuotedFrom(a, c, quote) == Min(|a|, SkipQuotedFrom(b, c, quote))
    decreases |a| - c
  {
    if c < |a| {
      PairContinues(a, b, c, quote, quote);
      if a[c] != quote {
        SkipQuotedContinues(a, b, c + 1, quote);
      } else if HasPair(a, c, quote, quote) {
        SkipQuotedContinues(a, b, c + 2, quote);
      }
    }
  }

  lemma {:induction false} SkipQuotedCloses(s: string, c: nat, quote: char)
    requires c <= |s|
    ensures var r := SkipQuotedFrom(s, c, quote); r == |s| || (c < r && s[r - 1] == quote)
    decreases |s| - c
  {
    if c < |s| {
      if s[c] != quote {
        SkipQuotedCloses(s, c + 1, quote);
      } else if HasPair(s, c, quote, quote) {
        SkipQuotedCloses(s, c + 2, quote);
      }
    }
  }

  /** A token that goes on below the text is one whose quoted part was still open. */
  lemma {:induction false} TokenEndContinues(a: string, b: string, p: nat)
    requires Continues(a, b) && p <= |a|
    ensures TokenEnd(a, p) == Min(|a|, TokenEnd(b, p))
    ensures TokenEnd(b, p) > |a| ==> exists i :: p <= i < |a| && IsQuote(a[i])
    ensures TokenEnd(b, p) > |a| ==> TokenEnd(b, p) == |b| || exists j :: |a| <= j < |b| && IsQuote(b[j])
    decreases |a| - p
  {
    if p < |a| {
      PairContinues(a, b, p, '-', '-');
      PairContinues(a, b, p, '/', '*');
      if IsTokenSeparator(a, p) {
      } else if IsQuote(a[p]) {
        SkipQuotedContinues(a, b, p + 1, a[p]);
        SkipQuotedCloses(b, p + 1, a[p]);
        var q := SkipQuotedFrom(b, p + 1, a[p]);
        if q <= |a| {
          TokenEndContinues(a, b, q);
        }
      } else {
        TokenEndContinues(a, b, p + 1);
      }
    }
  }

  lemma TokenContinues(a: string, b: string, p: nat)
    requires Continues(a, b) && p <= |a|
    ensures TokenAt(a, p).1 == Min(|a|, TokenAt(b, p).1)
    ensures TokenAt(b, p).1 < |a| ==> TokenAt(a, p) == TokenAt(b, p)
    ensures TokenAt(b, p).1 == |a| && (TokenAt(a, p).0 != "" || TokenAt(b, p).0 != "") ==> TokenAt(a, p) == TokenAt(b, p)
    ensures TokenAt(b, p).1 > |a| ==> TokenAt(a, p).0 == "" || exists i :: 0 <= i < |TokenAt(a, p).0| && IsQuote(TokenAt(a, p).0[i])
  {
    SkipSpaceContinues(a, b, p);
    var start := SkipSpaceAndComments(b, p);
    if start < |a| {
      TokenEndContinues(a, b, start);
      var end := TokenEnd(b, start);
      if end <= |a| {
        SliceContinues(a, b, start, end);
      } else {
        var i :| start <= i < |a| && IsQuote(a[i]);
        var t := TokenAt(a, p).0;
        assert t[i - start] == ToUpperChar(a[i]) == a[i];
      }
    }
  }

  /** Once a script head is recognised, further lines cannot make it an ordinary statement. */
  lemma {:induction false} ScriptAheadContinues(a: string, b: string, p: nat)
    requires Continues(a, b) && p <= |a|
    requires ScriptKeywordAhead(a, p)
    ensures ScriptKeywordAhead(b, p)
    decreases |a| - p
  {
    TokenContinues(a, b, p);
    var (token, next) := TokenAt(a, p);
    if TokenAt(b, p).1 <= |a| && token != "SCRIPT" && token != "FUNCTION" {
      ScriptAheadContinues(a, b, next);
    }
  }

  lemma LooksLikeScriptContinues(a: string, b: string)
    requires Continues(a, b) && LooksLikeScript(a)
    ensures LooksLikeScript(b)
  {
    TokenContinues(a, b, 0);
    ScriptAheadContinues(a, b, TokenAt(a, 0).1);
  }

  /** A head that ended at a code-level `;` without a script keyword stays an ordinary one. */
  lemma {:induction false} OrdinaryAheadContinues(a: string, b: string, p: nat, i: nat)
    requires Continues(a, b) && NoShortComment(a)
    requires Synced(a, p) && p <= i && CodeSemicolon(a, i)
    ensures ScriptKeywordAhead(b, p) == ScriptKeywordAhead(a, p)
    decreases |a| - p
  {
    TokenStaysSynced(a, p, i);
    TokenContinues(a, b, p);
    var (token, next) := TokenAt(a, p);
    if token != "" {
      OrdinaryAheadContinues(a, b, next, i);
    }
  }

  lemma OrdinaryContinues(a: string, b: string, i: nat)
    requires Continues(a, b) && NoShortComment(a) && CodeSemicolon(a, i)
    ensures LooksLikeScript(b) == LooksLikeScript(a)
  {
    TokenStaysSynced(a, 0, i);
    TokenContinues(a, b, 0);
    OrdinaryAheadContinues(a, b, TokenAt(a, 0).1, i);
  }
}
