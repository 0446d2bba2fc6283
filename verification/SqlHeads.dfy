/** Which statements have the head of a script (internal/connect/shell.go), said of their text:
    words with blanks and comments between them, up to a parenthesis, a `;` or the end. */
module SqlHeads {
  import opened Text
  import opened SqlTokens

  /** What may stand between two words. */
  datatype Filler = Blank(c: char) | LineNote(body: string) | BlockNote(body: string)

  function FillerText(f: Filler): (r: string)
    ensures r != ""
  {
    match f
    case Blank(c) => [c]
    case LineNote(body) => "--" + body + "\n"
    case BlockNote(body) => "/*" + body + "*/"
  }

  /** A line note ends with its line; a block note does not close itself early. */
  predicate FillerOk(f: Filler) {
    match f
    case Blank(c) => c == ' ' || c == '\t' || c == '\r' || c == '\n'
    case LineNote(body) => '\n' !in body
    case BlockNote(body) => forall i :: 0 <= i < |body| && body[i] == '/' ==> i > 0 && body[i - 1] != '*'
  }

  function GapText(gap: seq<Filler>): string {
    if gap == [] then "" else FillerText(gap[0]) + GapText(gap[1..])
  }

  predicate GapOk(gap: seq<Filler>) {
    forall i :: 0 <= i < |gap| ==> FillerOk(gap[i])
  }

  predicate WordChar(c: char) {
    c !in [' ', '\t', '\r', '\n', '(', ';', '\'', '"', '-', '/']
  }

  predicate WordOk(w: string) {
    w != "" && forall i :: 0 <= i < |w| ==> WordChar(w[i])
  }

  /** A word and the gap in front of it. */
  datatype Item = Item(gap: seq<Filler>, word: string)

  function HeadText(items: seq<Item>, last: seq<Filler>, tail: string): string {
    if items == [] then GapText(last) + tail
    else GapText(items[0].gap) + items[0].word + HeadText(items[1..], last, tail)
  }

  predicate ItemsOk(items: seq<Item>) {
    && (forall i :: 0 <= i < |items| ==> GapOk(items[i].gap) && WordOk(items[i].word))
    && (forall i :: 0 < i < |items| ==> items[i].gap != [])
  }

  predicate TailOk(tail: string) {
    tail == "" || tail[0] == '(' || tail[0] == ';'
  }

  /** Some word is a script keyword, and none before it is AS. */
  predicate KeywordAmong(items: seq<Item>) {
    exists k :: 0 <= k < |items|
      && (ToUpper(items[k].word) == "SCRIPT" || ToUpper(items[k].word) == "FUNCTION")
      && forall j :: 0 <= j < k ==> ToUpper(items[j].word) != "AS"
  }

  // ----- gaps and words are read as such -----

  lemma SkipBlank(s: string, p: nat, c: char)
    requires At(s, p, [c]) && FillerOk(Blank(c))
    ensures SkipOne(s, p) == p + 1
  {
    AtChar(s, p, [c], 0);
  }

  lemma SkipLineNote(s: string, p: nat, body: string)
    requires At(s, p, "--" + body + "\n") && '\n' !in body
    ensures SkipOne(s, p) == p + |body| + 3
  {
    var t := "--" + body + "\n";
    forall j | p <= j < p + |t| ensures s[j] == t[j - p] {
      AtChar(s, p, t, j - p);
    }
    assert t[0] == '-' && t[1] == '-' && t[|body| + 2] == '\n';
    assert forall i :: 0 <= i < |body| + 2 ==> t[i] != '\n';
    var newline := FindChar(s, p, '\n');
    assert newline == p + |body| + 2;
  }

  lemma SkipBlockNote(s: string, p: nat, body: string)
    requires At(s, p, "/*" + body + "*/") && FillerOk(BlockNote(body))
    ensures SkipOne(s, p) == p + |body| + 4
  {
    var t := "/*" + body + "*/";
    forall i | 0 <= i < |t| ensures s[p + i] == t[i] {
      AtChar(s, p, t, i);
    }
    assert s[p + 0] == '/' && s[p + 1] == '*' && s[p + |body| + 2] == '*' && s[p + |body| + 3] == '/';
    var end := FindPair(s, p, '*', '/');
    assert HasPair(s, p + |body| + 2, '*', '/');
    assert end <= p + |body| + 2;
    var i := end - p;
    assert s[p + i] == t[i] && s[p + (i + 1)] == t[i + 1];
    assert t[i] == '*' && t[i + 1] == '/';
    assert i == |body| + 2;
  }

  lemma SkipFiller(s: string, p: nat, f: Filler)
    requires At(s, p, FillerText(f)) && FillerOk(f)
    ensures SkipOne(s, p) == p + |FillerText(f)|
  {
    hide At, SkipOne;
    match f
    case Blank(c) => SkipBlank(s, p, c);
    case LineNote(body) => SkipLineNote(s, p, body);
    case BlockNote(body) => SkipBlockNote(s, p, body);
  }

  lemma {:induction false} SkipGap(s: string, p: nat, gap: seq<Filler>)
    requires At(s, p, GapText(gap)) && GapOk(gap)
    requires var q := p + |GapText(gap)|; q == |s| || SkipOne(s, q) == q
    ensures SkipSpaceAndComments(s, p) == p + |GapText(gap)|
    decreases |gap|
  {
    hide At, SkipOne, FillerText, FillerOk;
    AtBounds(s, p, GapText(gap));
    if gap != [] {
      AtParts(s, p, FillerText(gap[0]), GapText(gap[1..]));
      AtBounds(s, p, FillerText(gap[0]));
      SkipFiller(s, p, gap[0]);
      SkipGap(s, p + |FillerText(gap[0])|, gap[1..]);
    }
  }

  /** The character at `p` ends a word, if there is one. */
  predicate Ends(s: string, p: nat) {
    p <= |s| && (p == |s| || IsTokenSeparator(s, p))
  }

  lemma FillerEnds(s: string, p: nat, f: Filler)
    requires At(s, p, FillerText(f)) && FillerOk(f)
    ensures Ends(s, p)
  {
    var t := FillerText(f);
    AtChar(s, p, t, 0);
    if !f.Blank? {
      AtChar(s, p, t, 1);
    }
  }

  lemma {:induction false} WordEnds(s: string, p: nat, w: string)
    requires At(s, p, w) && Ends(s, p + |w|) && forall i :: 0 <= i < |w| ==> WordChar(w[i])
    ensures TokenEnd(s, p) == p + |w|
    decreases |w|
  {
    if w != "" {
      AtChar(s, p, w, 0);
      assert WordChar(s[p]);
      assert w == [w[0]] + w[1..];
      AtParts(s, p, [w[0]], w[1..]);
      WordEnds(s, p + 1, w[1..]);
    }
  }

  lemma WordIsNoGap(s: string, p: nat, w: string)
    requires At(s, p, w) && WordOk(w)
    ensures p < |s| && SkipOne(s, p) == p
  {
    AtChar(s, p, w, 0);
    assert WordChar(s[p]);
  }

  /** A gap and a word with an end behind it are one token. */
  lemma ItemIsToken(s: string, p: nat, item: Item)
    requires GapOk(item.gap) && WordOk(item.word) && At(s, p, GapText(item.gap) + item.word)
    requires Ends(s, p + |GapText(item.gap)| + |item.word|)
    ensures TokenAt(s, p) == (ToUpper(item.word), p + |GapText(item.gap)| + |item.word|)
  {
    hide GapOk, SkipOne, TokenEnd, SkipSpaceAndComments, GapText, Ends;
    AtParts(s, p, GapText(item.gap), item.word);
    var start := p + |GapText(item.gap)|;
    WordIsNoGap(s, start, item.word);
    SkipGap(s, p, item.gap);
    WordEnds(s, start, item.word);
  }

  /** A gap with nothing but a parenthesis, a `;` or the end behind it has no token. */
  lemma TailHasNoToken(s: string, p: nat, last: seq<Filler>, tail: string)
    requires GapOk(last) && TailOk(tail) && p <= |s| && s[..p] + GapText(last) + tail == s
    ensures TokenAt(s, p).0 == ""
  {
    hide GapOk, GapText;
    var q := p + |GapText(last)|;
    assert At(s, p, GapText(last)) by {
      assert (s[..p] + GapText(last) + tail)[p..q] == GapText(last);
    }
    assert tail != "" ==> s[q] == tail[0];
    SkipGap(s, p, last);
  }

  lemma HeadStartEnds(s: string, p: nat, items: seq<Item>, last: seq<Filler>, tail: string)
    requires ItemsOk(items) && GapOk(last) && TailOk(tail) && p <= |s| && s[p..] == HeadText(items, last, tail)
    requires items != [] ==> items[0].gap != []
    ensures Ends(s, p)
  {
    var gap := if items == [] then last else items[0].gap;
    if gap != [] {
      var f := FillerText(gap[0]);
      assert At(s, p, f) by {
        assert s[p..][..|f|] == f;
      }
      FillerEnds(s, p, gap[0]);
    } else {
      assert s[p..] == tail;
      assert tail != "" ==> s[p] == tail[0];
    }
  }

  lemma ItemAt(s: string, p: nat, items: seq<Item>, last: seq<Filler>, tail: string)
    requires items != [] && p <= |s| && s[p..] == HeadText(items, last, tail)
    ensures var n := |GapText(items[0].gap)| + |items[0].word|;
      At(s, p, GapText(items[0].gap) + items[0].word) && p + n <= |s| && s[p + n..] == HeadText(items[1..], last, tail)
  {
    hide GapText;
    var first := GapText(items[0].gap) + items[0].word;
    assert s[p..] == first + HeadText(items[1..], last, tail);
    assert s[p..][..|first|] == first;
    assert s[p..][|first|..] == HeadText(items[1..], last, tail);
    assert s[p..][|first|..] == s[p + |first|..];
  }

  /** Reading the first item leaves the rest. */
  lemma FirstToken(s: string, p: nat, items: seq<Item>, last: seq<Filler>, tail: string)
    requires ItemsOk(items) && GapOk(last) && TailOk(tail) && p <= |s| && s[p..] == HeadText(items, last, tail) && items != []
    ensures var n := |GapText(items[0].gap)| + |items[0].word|;
      && TokenAt(s, p) == (ToUpper(items[0].word), p + n)
      && p + n <= |s| && s[p + n..] == HeadText(items[1..], last, tail)
  {
    hide GapText, HeadText, At, Ends, TokenAt;
    ItemAt(s, p, items, last, tail);
    var n := |GapText(items[0].gap)| + |items[0].word|;
    HeadStartEnds(s, p + n, items[1..], last, tail);
    ItemIsToken(s, p, items[0]);
  }

  lemma {:induction false} KeywordAheadIs(s: string, p: nat, items: seq<Item>, last: seq<Filler>, tail: string)
    requires ItemsOk(items) && GapOk(last) && TailOk(tail) && p <= |s| && s[p..] == HeadText(items, last, tail)
    ensures ScriptKeywordAhead(s, p) <==> KeywordAmong(items)
    decreases |items|
  {
    hide TokenAt, GapText, GapOk, WordOk;
    if items == [] {
      assert s == s[..p] + s[p..];
      assert s[p..] == GapText(last) + tail;
      assert s[..p] + GapText(last) + tail == s;
      TailHasNoToken(s, p, last, tail);
    } else {
      FirstToken(s, p, items, last, tail);
      var n := |GapText(items[0].gap)| + |items[0].word|;
      assert WordOk(items[0].word);
      UpperIsVisible(items[0].word);
      KeywordAheadIs(s, p + n, items[1..], last, tail);
      KeywordSplit(items);
    }
  }

  lemma UpperIsVisible(w: string)
    requires WordOk(w)
    ensures ToUpper(w) != ""
  {
  }

  lemma KeywordSplit(items: seq<Item>)
    requires items != []
    ensures var word := ToUpper(items[0].word);
      KeywordAmong(items) <==> word == "SCRIPT" || word == "FUNCTION" || (word != "AS" && KeywordAmong(items[1..]))
  {
    var word, rest := ToUpper(items[0].word), items[1..];
    if KeywordAmong(items) && word != "SCRIPT" && word != "FUNCTION" {
      var k :| 0 <= k < |items|
        && (ToUpper(items[k].word) == "SCRIPT" || ToUpper(items[k].word) == "FUNCTION")
        && forall j :: 0 <= j < k ==> ToUpper(items[j].word) != "AS";
      assert rest[k - 1] == items[k];
      assert forall j :: 0 <= j < k - 1 ==> rest[j] == items[j + 1];
    }
    if word == "SCRIPT" || word == "FUNCTION" {
      assert KeywordAmong(items) by { assert items[0] == items[0]; }
    } else if word != "AS" && KeywordAmong(rest) {
      var k :| 0 <= k < |rest|
        && (ToUpper(rest[k].word) == "SCRIPT" || ToUpper(rest[k].word) == "FUNCTION")
        && forall j :: 0 <= j < k ==> ToUpper(rest[j].word) != "AS";
      assert items[k + 1] == rest[k];
      forall j | 0 <= j < k + 1 ensures ToUpper(items[j].word) != "AS" {
        if j > 0 {
          assert items[j] == rest[j - 1];
        }
      }
    }
  }

  /** A statement has the head of a script exactly when its first word is CREATE and a later one
      SCRIPT or FUNCTION, in any letter case, with no AS between and only blanks and comments
      between the words. */
  lemma ScriptHeads(items: seq<Item>, last: seq<Filler>, tail: string)
    requires ItemsOk(items) && GapOk(last) && TailOk(tail)
    ensures LooksLikeScript(HeadText(items, last, tail)) <==>
      items != [] && ToUpper(items[0].word) == "CREATE" && KeywordAmong(items[1..])
  {
    hide TokenAt, HeadText, KeywordAmong, GapOk, WordOk, ScriptKeywordAhead;
    var s := HeadText(items, last, tail);
    assert s[0..] == s;
    if items == [] {
      NoWords(last, tail);
    } else {
      FirstToken(s, 0, items, last, tail);
      KeywordAheadIs(s, |GapText(items[0].gap)| + |items[0].word|, items[1..], last, tail);
    }
  }

  lemma NoWords(last: seq<Filler>, tail: string)
    requires GapOk(last) && TailOk(tail)
    ensures TokenAt(HeadText([], last, tail), 0).0 == ""
  {
    hide TokenAt, GapText;
    var s := HeadText([], last, tail);
    assert s[..0] + GapText(last) + tail == s;
    TailHasNoToken(s, 0, last, tail);
  }
}
