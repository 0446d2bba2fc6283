/** Submitting statements while lines arrive, against splitting the whole text at once
    (internal/connect/shell.go): exactly when the two agree. */
module SqlStreaming {
  import opened Text
  import opened SqlLexer
  import opened SqlTokens
  import opened SqlSplit

  /** The text of the lines, joined by newlines. */
  function Join(lines: seq<string>): string {
    if |lines| == 0 then ""
    else if |lines| == 1 then lines[0]
    else Join(lines[..|lines| - 1]) + "\n" + lines[|lines| - 1]
  }

  /** What a shell has submitted and kept pending after reading the lines. */
  datatype Progress = Progress(submitted: seq<string>, pending: string)

  function Appended(pending: string, line: string): string {
    if pending != "" then pending + "\n" + line else line
  }

  function Fed(lines: seq<string>): Progress {
    if |lines| == 0 then Progress([], "")
    else
      var before := Fed(lines[..|lines| - 1]);
      var r := Split(Appended(before.pending, lines[|lines| - 1]));
      Progress(before.submitted + r.statements, r.remainder)
  }

  lemma FedOneMore(lines: seq<string>, line: string)
    ensures Fed(lines + [line]) ==
            var r := Split(Appended(Fed(lines).pending, line));
            Progress(Fed(lines).submitted + r.statements, r.remainder)
  {
    hide Split;
    assert (lines + [line])[..|lines|] == lines;
  }

  /** What the shell submits and keeps, from a pending text on. */
  function FedFrom(pending: string, lines: seq<string>): Progress
    decreases |lines|
  {
    if lines == [] then Progress([], pending)
    else
      var r := Split(Appended(pending, lines[0]));
      var later := FedFrom(r.remainder, lines[1..]);
      Progress(r.statements + later.submitted, later.pending)
  }

  lemma {:induction false} FedInParts(lines: seq<string>, i: nat)
    requires i <= |lines|
    ensures var early := Fed(lines[..i]); var late := FedFrom(early.pending, lines[i..]);
            Fed(lines) == Progress(early.submitted + late.submitted, late.pending)
    decreases |lines| - i
  {
    hide Split, Fed, FedFrom, Appended;
    if i == |lines| {
      assert lines[..i] == lines && lines[i..] == [];
      FedFromNone(Fed(lines).pending);
    } else {
      FedInParts(lines, i + 1);
      assert lines[..i + 1] == lines[..i] + [lines[i]];
      FedOneMore(lines[..i], lines[i]);
      FedFromNext(Fed(lines[..i]).pending, lines, i);
    }
  }

  lemma FedFromNone(pending: string)
    ensures FedFrom(pending, []) == Progress([], pending)
  {
  }

  lemma FedFromNext(pending: string, lines: seq<string>, i: nat)
    requires i < |lines|
    ensures var r := Split(Appended(pending, lines[i])); var later := FedFrom(r.remainder, lines[i + 1..]);
            FedFrom(pending, lines[i..]) == Progress(r.statements + later.submitted, later.pending)
  {
    hide Split, Appended;
    assert lines[i..][0] == lines[i] && lines[i..][1..] == lines[i + 1..];
  }

  lemma FedFromNothing(lines: seq<string>)
    ensures Fed(lines) == FedFrom("", lines)
  {
    hide Split;
    FedInParts(lines, 0);
    assert lines[..0] == [] && lines[0..] == lines;
  }

  lemma {:induction false} JoinFront(lines: seq<string>)
    requires |lines| > 1
    ensures Join(lines) == lines[0] + "\n" + Join(lines[1..])
  {
    var n := |lines| - 1;
    if n == 1 {
      assert lines[..1] == [lines[0]] && lines[1..] == [lines[1]];
    } else {
      JoinFront(lines[..n]);
      assert lines[..n][1..] == lines[1..][..n - 1];
    }
  }

  lemma AppendedLikeText(pending: string, remainder: string, line: string)
    requires StripNewlines(pending) == StripNewlines(remainder)
    ensures StripNewlines(Appended(pending, line)) == StripNewlines(remainder + "\n" + line)
  {
    StripContinued(pending, line);
    StripContinued(remainder, line);
  }

  lemma SplitSameStripped(a: string, b: string)
    requires StripNewlines(a) == StripNewlines(b)
    ensures Split(a).statements == Split(b).statements
    ensures StripNewlines(Split(a).remainder) == StripNewlines(Split(b).remainder)
  {
    hide Split;
    SplitStripped(a);
    SplitStripped(b);
  }

  // ----- a cut that does not stay shows -----

  /** Visible text between two cuts makes the trimmed pieces differ. */
  lemma TrimDiffers(s: string, p: nat, q: nat, i: nat)
    requires p <= i < q <= |s| && !IsSpace(s[i])
    ensures TrimSpace(s[..p]) != TrimSpace(s[..q]) && TrimSpace(s[..q]) != ""
  {
    hide TrimSpace;
    var a, b := TrimParts(s[..p]);
    var c, d := TrimParts(s[..q]);
    var t, u := TrimSpace(s[..p]), TrimSpace(s[..q]);
    VisibleIsInside(s[..q], c, u, d, i);
    if t != "" {
      assert s[..p][|a|] == t[0] && s[..q][|a|] == s[..p][|a|];
      VisibleIsInside(s[..q], c, u, d, |a|);
    }
  }

  lemma VisibleIsInside(s: string, a: string, t: string, b: string, i: nat)
    requires s == a + t + b && AllSpace(a) && AllSpace(b) && i < |s| && !IsSpace(s[i])
    ensures |a| <= i < |a| + |t|
  {
  }

  lemma {:induction false} SkipStopsAt(s: string, from: nat, p: nat)
    requires from <= p < |s| && forall i :: from <= i < p ==> IsSpace(s[i])
    requires !IsSpace(s[p]) && !HasPair(s, p, '-', '-') && !HasPair(s, p, '/', '*')
    ensures var r := SkipSpaceAndComments(s, from); from <= r <= p
    decreases p - from
  {
    if from < p && SkipOne(s, from) != from {
      SkipStopsAt(s, from + 1, p);
    }
  }

  /** A script's first visible character is that of its keyword or of a comment. */
  lemma ScriptStartsVisibly(s: string, p: nat)
    requires p < |s| && (forall i :: 0 <= i < p ==> IsSpace(s[i])) && !IsSpace(s[p])
    requires s[p] == ';' || (s[p] == '/' && !HasPair(s, p, '/', '*'))
    ensures !LooksLikeScript(s)
  {
    SkipStopsAt(s, 0, p);
    hide SkipSpaceAndComments;
    var start := SkipSpaceAndComments(s, 0);
    var token := TokenAt(s, 0).0;
    assert token != "" ==> token[0] == ToUpperChar(s[start]);
    assert ToUpperChar(s[start]) != 'C' && "CREATE"[0] == 'C';
  }

  /** The line of a script's terminator holds one visible character. */
  lemma SlashAt(s: string, t: Terminator) returns (i: nat)
    requires ScriptTerminatorFrom(s, 0) == Some(t)
    ensures t.statementEnd <= i < t.nextStart && s[i] == '/' && !HasPair(s, i, '/', '*')
    ensures forall j :: t.statementEnd <= j < t.nextStart && j != i ==> IsSpace(s[j])
  {
    ScriptLinesBefore(s, 0, t);
    hide ScriptTerminatorFrom, TrimSpace;
    var line := s[t.statementEnd..t.nextStart];
    var a, b := TrimParts(line);
    assert line == a + LONE_SLASH + b;
    i := t.statementEnd + |a|;
    assert line[|a|] == '/' && s[i] == '/';
    forall j | t.statementEnd <= j < t.nextStart && j != i ensures IsSpace(s[j]) {
      assert s[j] == line[j - t.statementEnd];
      if j > i {
        assert line[j - t.statementEnd] == b[j - i - 1];
      }
    }
  }

  /** The shell's cut at a `;` is no statement of a batch that reads a script there: the batch
      ends its first statement elsewhere, with visible text in between. */
  lemma CutShows(a: string, x: string, k: nat)
    requires CodeSemicolon(a, k) && LooksLikeScript(a + "\n" + x)
    ensures var b := a + "\n" + x;
      && |Kept(a[..k])| == 1
      && NonInteractive(b) != [] && NonInteractive(b)[0] != Kept(a[..k])[0]
      && (Split(b).statements == [] || Split(b).statements[0] != Kept(a[..k])[0])
  {
    hide LooksLikeScript, TrimSpace, ScriptTerminatorFrom, Split;
    var b := a + "\n" + x;
    assert b[..k] == a[..k] && b[k] == ';';
    assert TrimSpace(a[..k]) != "" by {
      if TrimSpace(a[..k]) == "" {
        BlankIsSpace(a[..k]);
        assert forall i :: 0 <= i < k ==> b[i] == a[..k][i];
        ScriptStartsVisibly(b, k);
      }
    }
    if ScriptTerminatorFrom(b, 0).None? {
      SplitDone(b);
      TrimDiffers(b, k, |b|, k);
      assert b[..|b|] == b;
    } else {
      var u := ScriptTerminatorFrom(b, 0).value;
      SplitFirst(b, u);
      BatchPieceDiffers(b, u, k);
    }
  }

  lemma BatchPieceDiffers(b: string, u: Terminator, k: nat)
    requires k < |b| && b[k] == ';' && LooksLikeScript(b) && ScriptTerminatorFrom(b, 0) == Some(u)
    ensures TrimSpace(b[..u.statementEnd]) != "" && TrimSpace(b[..u.statementEnd]) != TrimSpace(b[..k])
  {
    hide LooksLikeScript, TrimSpace, ScriptTerminatorFrom;
    var e := u.statementEnd;
    var i := SlashAt(b, u);
    if TrimSpace(b[..e]) == "" {
      BlankIsSpace(b[..e]);
      assert forall j :: 0 <= j < e ==> b[j] == b[..e][j];
      ScriptStartsVisibly(b, i);
    }
    if e <= k {
      assert i < k;
      TrimDiffers(b, e, k, i);
    } else {
      TrimDiffers(b, k, e, k);
    }
  }

  /** A text with a cut that does not stay is split differently once it has grown, whatever the
      shell submits later. */
  lemma {:induction false} LostCutShows(a: string, x: string, more: seq<string>)
    requires !CutsStay(a, x)
    ensures Split(a).statements + more != Split(a + "\n" + x).statements
    ensures Split(a).statements + more != NonInteractive(a + "\n" + x)
    decreases |a|
  {
    hide LooksLikeScript, Split, Kept, StripNewlines;
    var t := StatementTerminator(a).value;
    var tail := a[t.nextStart..];
    SplitFirst(a, t);
    if LooksLikeScript(a) || !LooksLikeScript(a + "\n" + x) {
      StayingCut(a, x, t);
      NonInteractiveAfter(a, x, t);
      LostCutShows(tail, x, more);
      var k, rest := Kept(a[..t.statementEnd]), Split(tail).statements + more;
      assert Split(a).statements + more == k + rest;
      SamePrefix(k, rest, Split(tail + "\n" + x).statements);
      SamePrefix(k, rest, NonInteractive(tail + "\n" + x));
    } else {
      CutShows(a, x, t.statementEnd);
      assert (Split(a).statements + more)[0] == Kept(a[..t.statementEnd])[0];
    }
  }

  lemma SamePrefix(k: seq<string>, a: seq<string>, b: seq<string>)
    ensures k + a == k + b <==> a == b
  {
    assert (k + a)[|k|..] == a && (k + b)[|k|..] == b;
  }

  lemma NonInteractiveAfter(a: string, x: string, t: Terminator)
    requires StatementTerminator(a) == Some(t) && (LooksLikeScript(a) || !LooksLikeScript(a + "\n" + x))
    ensures NonInteractive(a + "\n" + x) == Kept(a[..t.statementEnd]) + NonInteractive(a[t.nextStart..] + "\n" + x)
  {
    hide StatementTerminator, LooksLikeScript, Split, Kept, StripNewlines;
    StayingCut(a, x, t);
    KeptStripped(Split(a + "\n" + x).remainder);
    KeptStripped(Split(a[t.nextStart..] + "\n" + x).remainder);
  }

  // ----- streaming equals batch -----

  /** Line by line, every cut at a `;` stays when all the lines below are there. */
  predicate StaysOrdinary(pending: string, lines: seq<string>)
    decreases |lines|
  {
    |lines| > 1 ==>
      var a := Appended(pending, lines[0]);
      CutsStay(a, Join(lines[1..])) && StaysOrdinary(Split(a).remainder, lines[1..])
  }

  /** From a pending text on, the shell agrees with the batch exactly when every cut stays. */
  lemma {:induction false} FedFromAgrees(pending: string, lines: seq<string>)
    requires lines != []
    ensures var fed, whole := FedFrom(pending, lines), Appended(pending, Join(lines));
      && (fed.submitted == Split(whole).statements <==> StaysOrdinary(pending, lines))
      && (fed.submitted + Kept(fed.pending) == NonInteractive(whole) <==> StaysOrdinary(pending, lines))
      && (StaysOrdinary(pending, lines) ==> StripNewlines(fed.pending) == StripNewlines(Split(whole).remainder))
    decreases |lines|
  {
    hide Split, CutsStay, Kept, StripNewlines, Join;
    var a := Appended(pending, lines[0]);
    var r := Split(a);
    if |lines| == 1 {
      OneLine(pending, lines);
    } else {
      var x, later := Join(lines[1..]), FedFrom(r.remainder, lines[1..]);
      var whole := Appended(pending, Join(lines));
      JoinFront(lines);
      assert whole == a + "\n" + x;
      FedFromAgrees(r.remainder, lines[1..]);
      var fed := FedFrom(pending, lines);
      if CutsStay(a, x) {
        LaterAgrees(a, x, later);
      } else {
        LostCutShows(a, x, later.submitted);
        LostCutShows(a, x, later.submitted + Kept(later.pending));
        assert r.statements + (later.submitted + Kept(later.pending)) == fed.submitted + Kept(fed.pending);
      }
    }
  }

  lemma OneLine(pending: string, lines: seq<string>)
    requires |lines| == 1
    ensures FedFrom(pending, lines) == Progress(Split(Appended(pending, Join(lines))).statements, Split(Appended(pending, Join(lines))).remainder)
    ensures StaysOrdinary(pending, lines)
  {
    hide Split;
    assert lines[1..] == [];
  }

  /** After cuts that stay, the rest decides. */
  lemma LaterAgrees(a: string, x: string, later: Progress)
    requires CutsStay(a, x)
    ensures var r, b := Split(a), a + "\n" + x; var rest := Appended(r.remainder, x);
      && (r.statements + later.submitted == Split(b).statements <==> later.submitted == Split(rest).statements)
      && ((r.statements + later.submitted + Kept(later.pending) == NonInteractive(b)) <==>
            (later.submitted + Kept(later.pending) == NonInteractive(rest)))
      && StripNewlines(Split(b).remainder) == StripNewlines(Split(rest).remainder)
  {
    hide Split, CutsStay, Kept, StripNewlines;
    var r, b := Split(a), a + "\n" + x;
    var rest, c := Appended(r.remainder, x), r.remainder + "\n" + x;
    SplitContinues(a, x);
    AppendedLikeText(r.remainder, r.remainder, x);
    SplitSameStripped(rest, c);
    SamePrefix(r.statements, later.submitted, Split(c).statements);
    KeptStripped(Split(b).remainder);
    KeptStripped(Split(rest).remainder);
    assert NonInteractive(b) == r.statements + NonInteractive(rest);
    assert r.statements + later.submitted + Kept(later.pending) == r.statements + (later.submitted + Kept(later.pending));
    SamePrefix(r.statements, later.submitted + Kept(later.pending), NonInteractive(rest));
  }

  /** Submitting line by line and then at the end of input is the batch exactly when every
      statement cut at a `;` still has an ordinary head with the remaining lines below it. The
      same holds of what was submitted before the end of input. */
  lemma StreamingEqualsBatch(lines: seq<string>)
    ensures Fed(lines).submitted == Split(Join(lines)).statements <==> StaysOrdinary("", lines)
    ensures Fed(lines).submitted + Kept(Fed(lines).pending) == NonInteractive(Join(lines)) <==> StaysOrdinary("", lines)
  {
    hide Split, Fed, FedFrom;
    if lines == [] {
      NoLines();
    } else {
      hide StaysOrdinary, Join, Kept;
      FedFromNothing(lines);
      FedFromAgrees("", lines);
    }
  }

  lemma NoLines()
    ensures Fed([]) == Progress([], "") && Split(Join([])) == SplitResult([], "") && StaysOrdinary("", [])
  {
    EmptyHasNoTerminator();
    SplitDone("");
  }

  /** Line by line, the shell has then submitted exactly the statements of the text so far, and
      keeps what the batch splitter would leave over, up to newlines in front. */
  lemma FedAgreesWithSplit(lines: seq<string>)
    requires StaysOrdinary("", lines)
    ensures Fed(lines).submitted == Split(Join(lines)).statements
    ensures StripNewlines(Fed(lines).pending) == StripNewlines(Split(Join(lines)).remainder)
  {
    hide Split, Fed, FedFrom, StripNewlines;
    if lines == [] {
      NoLines();
    } else {
      hide StaysOrdinary, Join, Kept;
      FedFromNothing(lines);
      FedFromAgrees("", lines);
    }
  }

  /** Without the text that the two lexers read differently every cut stays. */
  lemma {:induction false} NoShortCommentStreams(pending: string, lines: seq<string>)
    requires lines != [] && NoShortComment(Appended(pending, Join(lines)))
    ensures StaysOrdinary(pending, lines)
    decreases |lines|
  {
    hide Split, NoShortComment, CutsStay, Join;
    if |lines| > 1 {
      var a, x := Appended(pending, lines[0]), Join(lines[1..]);
      JoinFront(lines);
      var whole := Appended(pending, Join(lines));
      assert whole == a + ("\n" + x);
      PrefixHasNoShortComment(a, "\n" + x);
      NoShortCommentStays(a, x);
      var k := RemainderIsSuffix(a);
      assert whole[k..] == Split(a).remainder + "\n" + x;
      assert whole[|a| + 1..] == x;
      SuffixHasNoShortComment(whole, if Split(a).remainder == "" then |a| + 1 else k);
      NoShortCommentStreams(Split(a).remainder, lines[1..]);
    }
  }

  lemma RemainderIsSuffix(a: string) returns (k: nat)
    ensures k <= |a| && a[k..] == Split(a).remainder
  {
    hide Split;
    var pieces := SplitCovers(a);
    k := |Joined(pieces)|;
  }

  /** So a text without it always streams as the batch. */
  lemma NoShortCommentIsEnough(lines: seq<string>)
    requires NoShortComment(Join(lines))
    ensures StaysOrdinary("", lines)
    ensures Fed(lines).submitted + Kept(Fed(lines).pending) == NonInteractive(Join(lines))
  {
    hide Split, NoShortComment, Fed, Kept, Join;
    if lines != [] {
      NoShortCommentStreams("", lines);
    }
    StreamingEqualsBatch(lines);
  }
}
