/** Which `;` of a text ends a statement (internal/connect/shell.go), said of texts put together
    from plain characters, quoted texts and comments. */
module SqlSegments {
  import opened Text
  import opened SqlLexer

  datatype Segment = Plain(c: char) | Quoted(quote: char, body: string) | LineNote(body: string) | BlockNote(body: string)

  /** Inside quotes a quote is written twice. */
  function Doubled(body: string, quote: char): string {
    if body == "" then ""
    else (if body[0] == quote then [quote, quote] else [body[0]]) + Doubled(body[1..], quote)
  }

  function SegmentText(seg: Segment): (r: string)
    ensures r != ""
  {
    match seg
    case Plain(c) => [c]
    case Quoted(q, body) => [q] + Doubled(body, q) + [q]
    case LineNote(body) => "--" + body + "\n"
    case BlockNote(body) => "/*" + body + "*/"
  }

  predicate SegmentOk(seg: Segment) {
    match seg
    case Plain(c) => c !in ['\'', '"', '-', '/']
    case Quoted(q, _) => q == '\'' || q == '"'
    case LineNote(body) => '\n' !in body
    case BlockNote(body) => forall i :: 0 < i < |body| ==> !(body[i - 1] == '*' && body[i] == '/')
  }

  function SegmentsText(segs: seq<Segment>): string {
    if segs == [] then "" else SegmentText(segs[0]) + SegmentsText(segs[1..])
  }

  predicate SegmentsOk(segs: seq<Segment>) {
    forall i :: 0 <= i < |segs| ==> SegmentOk(segs[i])
  }

  /** Position `i` of the text is a plain `;`. */
  predicate PlainSemicolonAt(segs: seq<Segment>, i: int) {
    segs != [] && i >= 0
    && if i < |SegmentText(segs[0])| then segs[0] == Plain(';') else PlainSemicolonAt(segs[1..], i - |SegmentText(segs[0])|)
  }

  lemma StateNext(s: string, p: nat)
    requires p < |s|
    ensures StateAt(s, p + 1) == Next(StateAt(s, p), s[p])
  {
  }

  function Inside(q: char): Lex {
    if q == '\'' then SingleQuoted else DoubleQuoted
  }

  /** No position from `p` up to `e` is a `;` in code. */
  predicate NoneBetween(s: string, p: nat, e: nat) {
    forall k :: p <= k < e ==> !CodeSemicolon(s, k)
  }

  lemma {:induction false} InsideQuotes(s: string, p: nat, q: char, body: string)
    requires (q == '\'' || q == '"') && At(s, p, Doubled(body, q)) && StateAt(s, p) == Inside(q)
    ensures StateAt(s, p + |Doubled(body, q)|) == Inside(q) && NoneBetween(s, p, p + |Doubled(body, q)|)
    decreases |body|
  {
    hide At, StateAt;
    AtBounds(s, p, Doubled(body, q));
    if body != "" {
      var first := if body[0] == q then [q, q] else [body[0]];
      AtParts(s, p, first, Doubled(body[1..], q));
      AtBounds(s, p, first);
      AtChar(s, p, first, 0);
      StateNext(s, p);
      if body[0] == q {
        AtChar(s, p, first, 1);
        StateNext(s, p + 1);
      }
      InsideQuotes(s, p + |first|, q, body[1..]);
    }
  }

  lemma QuotedSegment(s: string, p: nat, q: char, body: string)
    requires (q == '\'' || q == '"') && At(s, p, [q] + Doubled(body, q) + [q]) && StateAt(s, p) == Code
    ensures var e := p + |Doubled(body, q)| + 2; StateAt(s, e) == Code && NoneBetween(s, p, e)
  {
    hide At, StateAt;
    AtBounds(s, p, [q] + Doubled(body, q) + [q]);
    AtParts(s, p, [q] + Doubled(body, q), [q]);
    AtParts(s, p, [q], Doubled(body, q));
    AtChar(s, p, [q], 0);
    StateNext(s, p);
    InsideQuotes(s, p + 1, q, body);
    var e := p + 1 + |Doubled(body, q)|;
    AtChar(s, e, [q], 0);
    StateNext(s, e);
  }

  lemma {:induction false} InsideLine(s: string, p: nat, body: string)
    requires At(s, p, body) && '\n' !in body && StateAt(s, p) == LineComment
    ensures StateAt(s, p + |body|) == LineComment && NoneBetween(s, p, p + |body|)
    decreases |body|
  {
    hide At, StateAt;
    AtBounds(s, p, body);
    if body != "" {
      assert body == [body[0]] + body[1..];
      AtParts(s, p, [body[0]], body[1..]);
      AtChar(s, p, body, 0);
      StateNext(s, p);
      InsideLine(s, p + 1, body[1..]);
    }
  }

  lemma LineSegment(s: string, p: nat, body: string)
    requires At(s, p, "--" + body + "\n") && '\n' !in body && StateAt(s, p) == Code
    ensures var e := p + |body| + 3; StateAt(s, e) == Code && NoneBetween(s, p, e)
  {
    hide At, StateAt;
    AtBounds(s, p, "--" + body + "\n");
    AtParts(s, p, "--" + body, "\n");
    AtParts(s, p, "--", body);
    AtChar(s, p, "--", 0);
    AtChar(s, p, "--", 1);
    StateNext(s, p);
    StateNext(s, p + 1);
    InsideLine(s, p + 2, body);
    AtChar(s, p + 2 + |body|, "\n", 0);
    StateNext(s, p + 2 + |body|);
  }

  lemma {:induction false} InsideBlock(s: string, p: nat, body: string)
    requires At(s, p, body) && (StateAt(s, p) == BlockComment || (StateAt(s, p) == Star && (body == "" || body[0] != '/')))
    requires forall i :: 0 < i < |body| ==> !(body[i - 1] == '*' && body[i] == '/')
    ensures (StateAt(s, p + |body|) == BlockComment || StateAt(s, p + |body|) == Star) && NoneBetween(s, p, p + |body|)
    decreases |body|
  {
    hide At, StateAt;
    AtBounds(s, p, body);
    if body != "" {
      assert body == [body[0]] + body[1..];
      AtParts(s, p, [body[0]], body[1..]);
      AtChar(s, p, body, 0);
      StateNext(s, p);
      InsideBlock(s, p + 1, body[1..]);
    }
  }

  lemma BlockSegment(s: string, p: nat, body: string)
    requires At(s, p, "/*" + body + "*/") && SegmentOk(BlockNote(body)) && StateAt(s, p) == Code
    ensures var e := p + |body| + 4; StateAt(s, e) == Code && NoneBetween(s, p, e)
  {
    hide At, StateAt;
    AtBounds(s, p, "/*" + body + "*/");
    AtParts(s, p, "/*" + body, "*/");
    AtParts(s, p, "/*", body);
    AtChar(s, p, "/*", 0);
    AtChar(s, p, "/*", 1);
    StateNext(s, p);
    StateNext(s, p + 1);
    InsideBlock(s, p + 2, body);
    var e := p + 2 + |body|;
    AtChar(s, e, "*/", 0);
    AtChar(s, e, "*/", 1);
    StateNext(s, e);
    StateNext(s, e + 1);
  }

  lemma OneSegment(s: string, p: nat, seg: Segment)
    requires At(s, p, SegmentText(seg)) && SegmentOk(seg) && StateAt(s, p) == Code
    ensures var e := p + |SegmentText(seg)|;
      && e <= |s| && StateAt(s, e) == Code
      && forall k :: p <= k < e ==> (CodeSemicolon(s, k) <==> seg == Plain(';'))
  {
    hide At, StateAt;
    AtBounds(s, p, SegmentText(seg));
    match seg
    case Plain(c) =>
      AtChar(s, p, [c], 0);
      StateNext(s, p);
    case Quoted(q, body) => QuotedSegment(s, p, q, body);
    case LineNote(body) => LineSegment(s, p, body);
    case BlockNote(body) => BlockSegment(s, p, body);
  }

  lemma {:induction false} SegmentsFrom(s: string, p: nat, segs: seq<Segment>)
    requires At(s, p, SegmentsText(segs)) && SegmentsOk(segs) && StateAt(s, p) == Code
    ensures forall k :: p <= k < p + |SegmentsText(segs)| ==> (CodeSemicolon(s, k) <==> PlainSemicolonAt(segs, k - p))
    decreases |segs|
  {
    hide At, StateAt, CodeSemicolon, SegmentText, SegmentOk;
    if segs != [] {
      AtParts(s, p, SegmentText(segs[0]), SegmentsText(segs[1..]));
      OneSegment(s, p, segs[0]);
      SegmentsFrom(s, p + |SegmentText(segs[0])|, segs[1..]);
    }
  }

  /** Of a text put together from segments exactly the plain `;` count: none in quotes, quoted
      quotes and comments included, and no other. So the scanner stops at the first of them. */
  lemma PlainSemicolonsCount(segs: seq<Segment>)
    requires SegmentsOk(segs)
    ensures var s := SegmentsText(segs);
      && (forall k :: 0 <= k < |s| ==> (CodeSemicolon(s, k) <==> PlainSemicolonAt(segs, k)))
      && match SemicolonTerminator(s)
         case None => forall k :: 0 <= k < |s| ==> !PlainSemicolonAt(segs, k)
         case Some(t) => PlainSemicolonAt(segs, t.statementEnd) && forall k :: 0 <= k < t.statementEnd ==> !PlainSemicolonAt(segs, k)
  {
    hide CodeSemicolon, PlainSemicolonAt, SegmentsText;
    var s := SegmentsText(segs);
    assert At(s, 0, s);
    StartsInCode(s);
    SegmentsFrom(s, 0, segs);
    TerminatorIsFirst(s);
  }

  lemma TerminatorIsFirst(s: string)
    ensures match SemicolonTerminator(s)
      case None => forall k :: 0 <= k < |s| ==> !CodeSemicolon(s, k)
      case Some(t) => t.statementEnd < |s| && CodeSemicolon(s, t.statementEnd) && forall k :: 0 <= k < t.statementEnd ==> !CodeSemicolon(s, k)
  {
  }
}
