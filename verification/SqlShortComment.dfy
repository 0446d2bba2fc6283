/** Why the streaming law needs its hypothesis: one input with a comment opener that shares
    its star with a closer, on which the shell and the batch splitter differ. */
module SqlShortComment {
  import opened Text
  import opened SqlLexer
  import opened SqlTokens
  import opened SqlSplit
  import opened SqlStreaming

  /** On the first line the tokenizer is inside a quoted text while the scanner sees a `;`,
      so the shell submits it; with the second line the tokenizer reads a script head and the batch waits for a lone `/`. */
  lemma ShortCommentBreaksStreaming()
    ensures var lines := ["CREATE/*/'*/;", "' SCRIPT"];
            Fed(lines).submitted + Kept(Fed(lines).pending) != NonInteractive(Join(lines))
  {
    hide Split, StatementTerminator, Kept, Fed, NonInteractive;
    var first, second := "CREATE/*/'*/;", "' SCRIPT";
    var lines := [first, second];
    BatchWaits();
    ShellSubmits();
    FedOneMore([], first);
    assert [] + [first] == [first];
    FedOneMore([first], second);
    assert [first] + [second] == lines;
    assert Fed([]) == Progress([], "") by { NothingFed(); }
    assert Join(lines) == first + "\n" + second by {
      assert lines[..1] == [first];
    }
    AtMostOne(Join(lines));
  }

  lemma NothingFed()
    ensures Fed([]) == Progress([], "")
  {
  }

  lemma AtMostOne(text: string)
    requires Split(text).statements == []
    ensures |NonInteractive(text)| <= 1
  {
  }

  lemma KeptVisible(s: string)
    requires s != "" && Trimmed(s)
    ensures Kept(s) == [s]
  {
    TrimTrimmed(s);
  }

  lemma ShellSubmits()
    ensures Split("CREATE/*/'*/;") == SplitResult(["CREATE/*/'*/"], "")
    ensures Split("' SCRIPT") == SplitResult([], "' SCRIPT") && Kept("' SCRIPT") == ["' SCRIPT"]
  {
    hide Split, StatementTerminator, Kept, LooksLikeScript;
    var first, second := "CREATE/*/'*/;", "' SCRIPT";
    assert StatementTerminator(first) == Some(Terminator(12, 13)) by {
      FirstLineScanned();
      FirstLineTokens();
      OrdinaryTerminator(first);
    }
    SplitFirst(first, Terminator(12, 13));
    assert first[..12] == "CREATE/*/'*/" && first[13..] == "";
    KeptVisible("CREATE/*/'*/");
    EmptyHasNoTerminator();
    SplitDone("");
    assert StatementTerminator(second).None? by {
      SecondLine();
      OrdinaryTerminator(second);
    }
    SplitDone(second);
    KeptVisible(second);
  }

  lemma OrdinaryTerminator(s: string)
    requires !LooksLikeScript(s)
    ensures StatementTerminator(s) == SemicolonTerminator(s)
  {
  }

  lemma FirstLineScanned()
    ensures SemicolonTerminator("CREATE/*/'*/;") == Some(Terminator(12, 13))
  {
    var s := "CREATE/*/'*/;";
    assert StateAt(s, 3) == Code;
    assert StateAt(s, 6) == Code;
    assert StateAt(s, 8) == BlockComment;
    assert StateAt(s, 10) == BlockComment;
    assert StateAt(s, 12) == Code;
    assert NoSemicolonBefore(s, 12);
    FirstSemicolonIs(s, 12);
  }

  predicate StartsWithFirstLine(s: string) {
    && |s| >= 13
    && s[0] == 'C' && s[1] == 'R' && s[2] == 'E' && s[3] == 'A' && s[4] == 'T' && s[5] == 'E'
    && s[6] == '/' && s[7] == '*' && s[8] == '/' && s[9] == '\'' && s[10] == '*' && s[11] == '/' && s[12] == ';'
  }

  lemma CreateToken(s: string)
    requires StartsWithFirstLine(s)
    ensures TokenAt(s, 0) == ("CREATE", 6)
  {
    hide FindPair, SkipQuotedFrom, FindChar;
    assert TokenEnd(s, 6) == 6;
    assert TokenEnd(s, 4) == 6;
    assert TokenEnd(s, 2) == 6;
    assert TokenEnd(s, 0) == 6;
    assert s[0..6] == "CREATE";
    assert ToUpper("CREATE") == "CREATE";
  }

  lemma QuotedToken(s: string)
    requires StartsWithFirstLine(s)
    ensures SkipSpaceAndComments(s, 6) == 9
    ensures TokenEnd(s, 9) == TokenEnd(s, SkipQuotedFrom(s, 10, '\''))
  {
    hide SkipQuotedFrom, FindChar;
    assert FindPair(s, 6, '*', '/') == 7;
    assert SkipOne(s, 6) == 9 && SkipOne(s, 9) == 9;
    assert SkipSpaceAndComments(s, 9) == 9;
  }

  lemma FirstLineTokens()
    ensures !LooksLikeScript("CREATE/*/'*/;")
  {
    hide IsTokenSeparator, SkipSpaceAndComments;
    var s := "CREATE/*/'*/;";
    CreateToken(s);
    QuotedToken(s);
    assert SkipQuotedFrom(s, 12, '\'') == 13;
    assert SkipQuotedFrom(s, 10, '\'') == 13;
    assert TokenAt(s, 6).0[0] == '\'';
    assert TokenAt(s, 13) == ("", 13);
  }

  lemma SecondLine()
    ensures !LooksLikeScript("' SCRIPT") && SemicolonTerminator("' SCRIPT").None?
  {
    var s := "' SCRIPT";
    assert SkipOne(s, 0) == 0;
    assert SkipQuotedFrom(s, 5, '\'') == 8;
    assert SkipQuotedFrom(s, 3, '\'') == 8;
    assert SkipQuotedFrom(s, 1, '\'') == 8;
    assert TokenAt(s, 0).0[0] == '\'';
    assert NoSemicolonBefore(s, 8);
  }

  lemma BatchWaits()
    ensures Split("CREATE/*/'*/;" + "\n" + "' SCRIPT") == SplitResult([], "CREATE/*/'*/;" + "\n" + "' SCRIPT")
  {
    hide Split, TrimSpace, TokenAt, LooksLikeScript;
    var first, second := "CREATE/*/'*/;", "' SCRIPT";
    var s := first + "\n" + second;
    BothLinesTokens();
    NoNewlineWithin(s, 0, 13);
    NoNewlineWithin(s, 14, 22);
    assert s[0..13] == first && s[14..22] == second;
    TrimTrimmed(first);
    TrimTrimmed(second);
    assert ScriptTerminatorFrom(s, 14).None?;
    assert ScriptTerminatorFrom(s, 0).None?;
    SplitDone(s);
  }

  lemma NoNewlineWithin(s: string, i: nat, j: nat)
    requires i <= j <= |s| && (j < |s| ==> s[j] == '\n')
    requires forall k :: i <= k < j ==> s[k] != '\n'
    ensures FindChar(s, i, '\n') == j
  {
  }

  lemma BothLinesTokens()
    ensures LooksLikeScript("CREATE/*/'*/;" + "\n" + "' SCRIPT")
  {
    hide IsTokenSeparator, SkipSpaceAndComments;
    var s := "CREATE/*/'*/;" + "\n" + "' SCRIPT";
    CreateToken(s);
    QuotedToken(s);
    assert SkipQuotedFrom(s, 14, '\'') == 15;
    assert SkipQuotedFrom(s, 12, '\'') == 15;
    assert SkipQuotedFrom(s, 10, '\'') == 15;
    ScriptToken(s);
    assert TokenAt(s, 6).0[0] == '\'';
    assert ScriptKeywordAhead(s, 15);
    assert ScriptKeywordAhead(s, 6);
  }

  lemma ScriptToken(s: string)
    requires s == "CREATE/*/'*/;" + "\n" + "' SCRIPT"
    ensures TokenEnd(s, 15) == 15 && TokenAt(s, 15) == ("SCRIPT", 22)
  {
    assert SkipOne(s, 15) == 16 && SkipOne(s, 16) == 16;
    assert SkipSpaceAndComments(s, 16) == 16;
    assert SkipSpaceAndComments(s, 15) == 16;
    assert TokenEnd(s, 22) == 22;
    assert TokenEnd(s, 20) == 22;
    assert TokenEnd(s, 18) == 22;
    assert TokenEnd(s, 16) == 22;
    assert s[16..22] == "SCRIPT";
    assert ToUpper("SCRIPT") == "SCRIPT";
  }
}
