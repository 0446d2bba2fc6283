/** The SCRIPT_LANGUAGES parameter (internal/customslc/customslc.go): its text form and the
    edits that activating and deactivating a custom script language container make to it. */
module ScriptLanguages {
  import opened Text

  datatype AliasEntry = AliasEntry(alias: string, uri: string)

  function NormalizeAlias(alias: string): string {
    ToUpper(TrimSpace(alias))
  }

  predicate Normalized(alias: string) {
    NormalizeAlias(alias) == alias
  }

  // ----- the text form -----

  /** The length of the run of visible characters that a text starts with. */
  function VisibleLength(s: string): (n: nat)
    ensures n <= |s| && NoSpace(s[..n]) && (n < |s| ==> IsSpace(s[n]))
  {
    if s == "" || IsSpace(s[0]) then 0
    else
      var n := VisibleLength(s[1..]) + 1;
      assert s[..n] == [s[0]] + s[1..][..n - 1];
      n
  }

  /** The runs of visible characters of a text, in order. */
  function Fields(s: string): seq<string>
    decreases |s|
  {
    if s == "" then []
    else if IsSpace(s[0]) then Fields(s[1..])
    else [s[..VisibleLength(s)]] + Fields(s[VisibleLength(s)..])
  }

  function EntryOf(field: string): seq<AliasEntry> {
    var k := FindChar(field, 0, '=');
    if k == |field| then [] else [AliasEntry(NormalizeAlias(field[..k]), field[k + 1..])]
  }

  function EntriesOf(fields: seq<string>): seq<AliasEntry> {
    if fields == [] then [] else EntriesOf(fields[..|fields| - 1]) + EntryOf(fields[|fields| - 1])
  }

  function Parse(value: string): seq<AliasEntry> {
    EntriesOf(Fields(value))
  }

  function Part(e: AliasEntry): string {
    e.alias + "=" + e.uri
  }

  function JoinWords(parts: seq<string>): string {
    if parts == [] then ""
    else if |parts| == 1 then parts[0]
    else parts[0] + " " + JoinWords(parts[1..])
  }

  function Parts(entries: seq<AliasEntry>): (r: seq<string>)
    ensures |r| == |entries| && forall i :: 0 <= i < |entries| ==> r[i] == Part(entries[i])
  {
    seq(|entries|, i requires 0 <= i < |entries| => Part(entries[i]))
  }

  function Serialize(entries: seq<AliasEntry>): string {
    JoinWords(Parts(entries))
  }

  /** What an entry must be to survive the text form. */
  predicate Canonical(e: AliasEntry) {
    NoSpace(e.alias) && '=' !in e.alias && Normalized(e.alias) && NoSpace(e.uri)
  }

  predicate AllCanonical(entries: seq<AliasEntry>) {
    forall i :: 0 <= i < |entries| ==> Canonical(entries[i])
  }

  lemma {:induction false} VisiblePrefix(w: string, rest: string)
    requires NoSpace(w) && (rest == "" || IsSpace(rest[0]))
    ensures VisibleLength(w + rest) == |w|
  {
    if w == "" {
      assert w + rest == rest;
    } else {
      assert (w + rest)[1..] == w[1..] + rest;
      VisiblePrefix(w[1..], rest);
    }
  }

  lemma {:induction false} FieldsOfJoin(parts: seq<string>)
    requires forall i :: 0 <= i < |parts| ==> parts[i] != "" && NoSpace(parts[i])
    ensures Fields(JoinWords(parts)) == parts
  {
    if |parts| == 1 {
      assert parts[0] + "" == parts[0];
      VisiblePrefix(parts[0], "");
      assert parts[0][..|parts[0]|] == parts[0] && parts[0][|parts[0]|..] == "";
    } else if |parts| > 1 {
      var w, rest := parts[0], JoinWords(parts[1..]);
      var s := w + " " + rest;
      assert s == w + (" " + rest);
      VisiblePrefix(w, " " + rest);
      assert s[..|w|] == w && s[|w|..] == " " + rest && (" " + rest)[1..] == rest;
      FieldsOfJoin(parts[1..]);
    }
  }

  lemma EntryOfPart(e: AliasEntry)
    requires Canonical(e)
    ensures EntryOf(Part(e)) == [e] && NoSpace(Part(e)) && Part(e) != ""
  {
    var f := Part(e);
    var k := FindChar(f, 0, '=');
    assert f[|e.alias|] == '=';
    assert forall i :: 0 <= i < |e.alias| ==> f[i] == e.alias[i] && e.alias[i] in e.alias;
    assert k == |e.alias|;
    assert f[..k] == e.alias && f[k + 1..] == e.uri;
  }

  lemma {:induction false} EntriesOfParts(entries: seq<AliasEntry>)
    requires AllCanonical(entries)
    ensures EntriesOf(Parts(entries)) == entries
  {
    hide Canonical, EntryOf, Part;
    if entries != [] {
      var n := |entries| - 1;
      EntriesOfParts(entries[..n]);
      assert Parts(entries)[..n] == Parts(entries[..n]);
      EntryOfPart(entries[n]);
      assert entries == entries[..n] + [entries[n]];
    }
  }

  lemma CanonicalReadsBack(entries: seq<AliasEntry>)
    requires AllCanonical(entries)
    ensures Parse(Serialize(entries)) == entries
  {
    forall i | 0 <= i < |entries| ensures Parts(entries)[i] != "" && NoSpace(Parts(entries)[i]) {
      EntryOfPart(entries[i]);
    }
    FieldsOfJoin(Parts(entries));
    EntriesOfParts(entries);
  }

  lemma {:induction false} FieldsAreVisible(s: string)
    ensures forall i :: 0 <= i < |Fields(s)| ==> NoSpace(Fields(s)[i])
    decreases |s|
  {
    if s != "" {
      if IsSpace(s[0]) {
        FieldsAreVisible(s[1..]);
      } else {
        FieldsAreVisible(s[VisibleLength(s)..]);
      }
    }
  }

  lemma UpperKeeps(a: string)
    requires NoSpace(a) && '=' !in a
    ensures NormalizeAlias(a) == ToUpper(a) && Normalized(NormalizeAlias(a))
    ensures NoSpace(ToUpper(a)) && '=' !in ToUpper(a)
  {
    TrimTrimmed(a);
    var u := ToUpper(a);
    forall i | 0 <= i < |u| ensures !IsSpace(u[i]) && u[i] != '=' && ToUpperChar(u[i]) == u[i] {
      assert a[i] in a;
    }
    TrimTrimmed(u);
    assert ToUpper(u) == u;
  }

  lemma {:induction false} EntriesAreCanonical(fields: seq<string>)
    requires forall i :: 0 <= i < |fields| ==> NoSpace(fields[i])
    ensures AllCanonical(EntriesOf(fields))
  {
    if fields != [] {
      EntriesAreCanonical(fields[..|fields| - 1]);
      var f := fields[|fields| - 1];
      var k := FindChar(f, 0, '=');
      if k < |f| {
        UpperKeeps(f[..k]);
      }
    }
  }

  /** Whatever the database reports, what is read from it survives being written back. */
  lemma ParseIsCanonical(value: string)
    ensures AllCanonical(Parse(value)) && Parse(Serialize(Parse(value))) == Parse(value)
  {
    FieldsAreVisible(value);
    EntriesAreCanonical(Fields(value));
    CanonicalReadsBack(Parse(value));
  }

  /** Writing entries and reading them back gives the same entries exactly when all of them are
      canonical. */
  lemma ParseOfSerialize(entries: seq<AliasEntry>)
    ensures Parse(Serialize(entries)) == entries <==> AllCanonical(entries)
  {
    hide Parse, Serialize, AllCanonical;
    ParseIsCanonical(Serialize(entries));
    if AllCanonical(entries) {
      CanonicalReadsBack(entries);
    }
  }

  // ----- edits -----

  predicate Has(entries: seq<AliasEntry>, alias: string) {
    exists i :: 0 <= i < |entries| && entries[i].alias == alias
  }

  predicate UniqueAliases(entries: seq<AliasEntry>) {
    forall i, j :: 0 <= i < j < |entries| ==> entries[i].alias != entries[j].alias
  }

  function Redirected(entries: seq<AliasEntry>, alias: string, uri: string): (r: seq<AliasEntry>)
    ensures |r| == |entries|
    ensures forall i :: 0 <= i < |entries| ==> r[i] == if entries[i].alias == alias then AliasEntry(alias, uri) else entries[i]
  {
    seq(|entries|, i requires 0 <= i < |entries| => if entries[i].alias == alias then AliasEntry(alias, uri) else entries[i])
  }

  function WithAlias(entries: seq<AliasEntry>, alias: string, uri: string): seq<AliasEntry> {
    var n := NormalizeAlias(alias);
    if Has(entries, n) then Redirected(entries, n, uri) else entries + [AliasEntry(n, uri)]
  }

  function Without(entries: seq<AliasEntry>, alias: string): seq<AliasEntry> {
    if entries == [] then []
    else
      var last := entries[|entries| - 1];
      Without(entries[..|entries| - 1], alias) + if last.alias == NormalizeAlias(alias) then [] else [last]
  }

  function Lookup(entries: seq<AliasEntry>, alias: string): (r: Option<AliasEntry>)
    ensures r.Some? ==> r.value in entries && r.value.alias == NormalizeAlias(alias)
    ensures r.None? ==> !Has(entries, NormalizeAlias(alias))
  {
    if entries == [] then None
    else if entries[0].alias == NormalizeAlias(alias) then Some(entries[0])
    else
      assert Has(entries, NormalizeAlias(alias)) ==> Has(entries[1..], NormalizeAlias(alias)) by {
        if Has(entries, NormalizeAlias(alias)) {
          var i :| 0 <= i < |entries| && entries[i].alias == NormalizeAlias(alias);
          assert entries[1..][i - 1] == entries[i];
        }
      }
      Lookup(entries[1..], alias)
  }

  // ----- the loops of the source -----

  method ParseScriptLanguages(value: string) returns (entries: seq<AliasEntry>)
    ensures entries == Parse(value)
  {
    var fields := Fields(value);
    entries := [];
    for i := 0 to |fields|
      invariant entries == EntriesOf(fields[..i])
    {
      var field := fields[i];
      assert fields[..i + 1][..i] == fields[..i];
      var equals := FindChar(field, 0, '=');
      if equals == |field| {
        continue;
      }
      entries := entries + [AliasEntry(NormalizeAlias(field[..equals]), field[equals + 1..])];
    }
    assert fields[..|fields|] == fields;
  }

  method SerializeScriptLanguages(entries: seq<AliasEntry>) returns (value: string)
    ensures value == Serialize(entries)
  {
    var parts := [];
    for i := 0 to |entries|
      invariant parts == Parts(entries[..i])
    {
      parts := parts + [entries[i].alias + "=" + entries[i].uri];
    }
    assert entries[..|entries|] == entries;
    value := JoinWords(parts);
  }

  method SetAlias(entries: seq<AliasEntry>, alias: string, uri: string) returns (updated: seq<AliasEntry>)
    ensures updated == WithAlias(entries, alias, uri)
  {
    var normalized := NormalizeAlias(alias);
    updated := [];
    var found := false;
    for i := 0 to |entries|
      invariant updated == Redirected(entries[..i], normalized, uri)
      invariant found == Has(entries[..i], normalized)
    {
      var entry := entries[i];
      assert entries[..i + 1] == entries[..i] + [entry];
      if entry.alias == normalized {
        updated := updated + [AliasEntry(normalized, uri)];
        found := true;
        assert entries[..i + 1][i].alias == normalized;
        continue;
      }
      assert Has(entries[..i], normalized) ==> Has(entries[..i + 1], normalized) by {
        if Has(entries[..i], normalized) {
          var j :| 0 <= j < i && entries[..i][j].alias == normalized;
          assert entries[..i + 1][j].alias == normalized;
        }
      }
      updated := updated + [entry];
    }
    assert entries[..|entries|] == entries;
    if !found {
      updated := updated + [AliasEntry(normalized, uri)];
      assert Redirected(entries, normalized, uri) == entries;
    }
  }

  method RemoveAlias(entries: seq<AliasEntry>, alias: string) returns (updated: seq<AliasEntry>)
    ensures updated == Without(entries, alias)
  {
    var normalized := NormalizeAlias(alias);
    updated := [];
    for i := 0 to |entries|
      invariant updated == Without(entries[..i], alias)
    {
      assert entries[..i + 1][..i] == entries[..i];
      if entries[i].alias == normalized {
        continue;
      }
      updated := updated + [entries[i]];
    }
    assert entries[..|entries|] == entries;
  }

  method FindAlias(entries: seq<AliasEntry>, alias: string) returns (entry: AliasEntry, ok: bool)
    ensures ok == Lookup(entries, alias).Some?
    ensures ok ==> entry == Lookup(entries, alias).value
  {
    var normalized := NormalizeAlias(alias);
    assert entries[0..] == entries;
    for i := 0 to |entries|
      invariant Lookup(entries[i..], alias) == Lookup(entries, alias)
    {
      assert entries[i..][1..] == entries[i + 1..];
      if entries[i].alias == normalized {
        return entries[i], true;
      }
    }
    return AliasEntry("", ""), false;
  }

  // ----- URIs -----

  predicate HasScheme(uri: string) {
    exists i :: 0 <= i < |uri| - 2 && uri[i] == ':' && uri[i + 1] == '/' && uri[i + 2] == '/'
  }

  predicate IsBuiltinURI(uri: string) {
    !HasScheme(uri)
  }

  const URI_HEAD := "localzmq+protobuf:///__builtin__/slc/"
  const URI_LANGUAGE := "?lang="
  const URI_TAIL := "#/exaudf/exaudfclient"

  function BuildActivationURI(dir: string, language: string): string {
    URI_HEAD + dir + URI_LANGUAGE + language + URI_TAIL
  }

  lemma NoSpaceParts(a: string, b: string)
    requires NoSpace(a) && NoSpace(b)
    ensures NoSpace(a + b)
  {
  }

  lemma URIPartsAreVisible()
    ensures NoSpace(URI_HEAD) && NoSpace(URI_LANGUAGE) && NoSpace(URI_TAIL)
  {
    HeadIsVisible();
    TailIsVisible();
    hide URI_HEAD, URI_TAIL;
  }

  lemma HeadIsVisible()
    ensures NoSpace(URI_HEAD)
  {
    assert NoSpace("localzmq+protobuf:") && NoSpace("///__builtin__/slc/");
    hide NoSpace;
    NoSpaceParts("localzmq+protobuf:", "///__builtin__/slc/");
    assert URI_HEAD == "localzmq+protobuf:" + "///__builtin__/slc/";
  }

  lemma TailIsVisible()
    ensures NoSpace(URI_TAIL)
  {
  }

  lemma HeadHasScheme()
    ensures |URI_HEAD| > 19 && URI_HEAD[17] == ':' && URI_HEAD[18] == '/' && URI_HEAD[19] == '/'
  {
  }

  lemma ActivationURIHasScheme(dir: string, language: string)
    ensures HasScheme(BuildActivationURI(dir, language))
    ensures NoSpace(dir) && NoSpace(language) ==> NoSpace(BuildActivationURI(dir, language))
  {
    hide URI_HEAD, URI_LANGUAGE, URI_TAIL, NoSpace, HasScheme;
    HeadHasScheme();
    URIPartsAreVisible();
    var rest := dir + URI_LANGUAGE + language + URI_TAIL;
    assert BuildActivationURI(dir, language) == URI_HEAD + rest;
    SchemeInFront(URI_HEAD, rest);
    if NoSpace(dir) && NoSpace(language) {
      NoSpaceParts(dir, URI_LANGUAGE);
      NoSpaceParts(dir + URI_LANGUAGE, language);
      NoSpaceParts(dir + URI_LANGUAGE + language, URI_TAIL);
      NoSpaceParts(URI_HEAD, rest);
    }
  }

  lemma SchemeInFront(head: string, rest: string)
    requires |head| > 19 && head[17] == ':' && head[18] == '/' && head[19] == '/'
    ensures HasScheme(head + rest)
  {
    var uri := head + rest;
    assert uri[17] == ':' && uri[18] == '/' && uri[19] == '/';
  }

  // ----- the directory in an activation URI -----

  /** The first `://`, or the length of the text. */
  function FindScheme(s: string, from: nat): (r: nat)
    requires from <= |s|
    ensures from <= r <= |s| && (r < |s| ==> r + 2 < |s|)
    decreases |s| - from
  {
    if from + 2 >= |s| then |s|
    else if s[from] == ':' && s[from + 1] == '/' && s[from + 2] == '/' then from
    else FindScheme(s, from + 1)
  }

  function TrimSlashes(s: string): string {
    if s != "" && s[0] == '/' then TrimSlashes(s[1..]) else s
  }

  /** What follows the last slash. */
  function AfterLastSlash(s: string): string {
    if '/' !in s then s else AfterLastSlash(s[FindChar(s, 0, '/') + 1..])
  }

  function DirFromURI(uri: string): string {
    if IsBuiltinURI(uri) then ""
    else
      var k := FindScheme(uri, 0);
      var body := TrimSlashes(if k < |uri| then uri[k + 3..] else uri);
      AfterLastSlash(body[..FindChar(body, 0, '?')])
  }

  lemma SchemeOfHead(rest: string)
    ensures FindScheme(URI_HEAD + rest, 0) == 17
  {
    var uri := URI_HEAD + rest;
    assert forall i :: 0 <= i < 17 ==> uri[i] == URI_HEAD[i] && URI_HEAD[i] != ':';
    SchemeFrom(uri, 0);
  }

  lemma {:induction false} SchemeFrom(uri: string, i: nat)
    requires i <= 17 && |uri| > 20 && uri[17] == ':' && uri[18] == '/' && uri[19] == '/'
    requires forall j :: i <= j < 17 ==> uri[j] != ':'
    ensures FindScheme(uri, i) == 17
    decreases 17 - i
  {
    if i < 17 {
      SchemeFrom(uri, i + 1);
    }
  }

  lemma BodyOfURI(dir: string, language: string)
    ensures var uri := BuildActivationURI(dir, language); var rest := dir + URI_LANGUAGE + language + URI_TAIL;
      |uri| > 20 && TrimSlashes(uri[20..]) == "__builtin__/slc/" + rest
  {
    hide URI_HEAD, URI_LANGUAGE, URI_TAIL, TrimSlashes;
    var rest := dir + URI_LANGUAGE + language + URI_TAIL;
    HeadTail();
    assert BuildActivationURI(dir, language) == URI_HEAD + rest;
    assert (URI_HEAD + rest)[20..] == URI_HEAD[20..] + rest;
    OneSlash(rest);
  }

  lemma HeadTail()
    ensures |URI_HEAD| == 37 && URI_HEAD[20..] == "/" + "__builtin__/slc/"
  {
  }

  lemma OneSlash(rest: string)
    ensures TrimSlashes("/" + "__builtin__/slc/" + rest) == "__builtin__/slc/" + rest
  {
    var body := "__builtin__/slc/" + rest;
    assert "/" + "__builtin__/slc/" + rest == "/" + body;
    assert ("/" + body)[1..] == body && body[0] == '_';
  }

  lemma LastSlashOf(dir: string)
    requires '/' !in dir
    ensures AfterLastSlash("__builtin__/slc/" + dir) == dir
  {
    hide AfterLastSlash;
    NoSlashes();
    StripOne("__builtin__", "slc/" + dir);
    StripOne("slc", dir);
    PathParts(dir);
    NoSlashStays(dir);
  }

  lemma NoSlashes()
    ensures '/' !in "__builtin__" && '/' !in "slc"
  {
  }

  lemma PathParts(dir: string)
    ensures "__builtin__/slc/" + dir == "__builtin__" + "/" + ("slc/" + dir) && "slc/" + dir == "slc" + "/" + dir
  {
    assert "__builtin__/slc/" == "__builtin__" + "/" + "slc/" && "slc/" == "slc" + "/";
  }

  lemma NoSlashStays(s: string)
    requires '/' !in s
    ensures AfterLastSlash(s) == s
  {
  }

  lemma StripOne(a: string, b: string)
    requires '/' !in a
    ensures AfterLastSlash(a + "/" + b) == AfterLastSlash(b)
  {
    var s := a + "/" + b;
    assert s[|a|] == '/';
    assert forall i :: 0 <= i < |a| ==> s[i] == a[i];
    assert FindChar(s, 0, '/') == |a| && s[|a| + 1..] == b;
  }

  /** The directory that an activation URI was built from can be read back from it. */
  lemma DirOfActivation(dir: string, language: string)
    requires '/' !in dir && '?' !in dir
    ensures DirFromURI(BuildActivationURI(dir, language)) == dir
  {
    hide URI_HEAD, URI_TAIL, TrimSlashes, AfterLastSlash, FindScheme, HasScheme;
    var uri, rest := BuildActivationURI(dir, language), dir + URI_LANGUAGE + language + URI_TAIL;
    assert uri == URI_HEAD + rest;
    ActivationURIHasScheme(dir, language);
    SchemeOfHead(rest);
    BodyOfURI(dir, language);
    var front := "__builtin__/slc/" + dir;
    var body := "__builtin__/slc/" + rest;
    QuestionMark(front, language);
    assert body == front + (URI_LANGUAGE + language + URI_TAIL);
    LastSlashOf(dir);
  }

  lemma QuestionMark(front: string, language: string)
    requires '?' !in front
    ensures var body := front + (URI_LANGUAGE + language + URI_TAIL); FindChar(body, 0, '?') == |front| && body[..|front|] == front
  {
    hide URI_TAIL;
    var body := front + (URI_LANGUAGE + language + URI_TAIL);
    assert body[|front|] == '?';
    assert forall i :: 0 <= i < |front| ==> body[i] == front[i] && front[i] in front;
  }

  /** So URIs tell directories and languages apart. */
  lemma ActivationURIInjective(dir: string, language: string, otherDir: string, otherLanguage: string)
    requires '/' !in dir && '?' !in dir && '/' !in otherDir && '?' !in otherDir
    requires BuildActivationURI(dir, language) == BuildActivationURI(otherDir, otherLanguage)
    ensures dir == otherDir && language == otherLanguage
  {
    hide URI_HEAD, URI_LANGUAGE, URI_TAIL;
    DirOfActivation(dir, language);
    DirOfActivation(otherDir, otherLanguage);
    var head := URI_HEAD + dir + URI_LANGUAGE;
    assert BuildActivationURI(dir, language)[|head|..|head| + |language|] == language;
    assert BuildActivationURI(otherDir, otherLanguage)[|head|..|head| + |otherLanguage|] == otherLanguage;
  }

  // ----- what a text means -----

  /** A word of the parameter: an alias with its URI, or anything without an equals sign. */
  datatype Word = Pair(alias: string, uri: string) | Junk(text: string)

  function WordText(w: Word): string {
    match w
    case Pair(alias, uri) => alias + "=" + uri
    case Junk(text) => text
  }

  predicate WordOk(w: Word) {
    match w
    case Pair(alias, uri) => NoSpace(alias) && '=' !in alias && NoSpace(uri)
    case Junk(text) => text != "" && NoSpace(text) && '=' !in text
  }

  /** Words with white space in front of each. */
  datatype Item = Item(gap: string, word: Word)

  function ItemsText(items: seq<Item>, tail: string): string {
    if items == [] then tail else items[0].gap + WordText(items[0].word) + ItemsText(items[1..], tail)
  }

  predicate ItemsOk(items: seq<Item>) {
    && (forall i :: 0 <= i < |items| ==> AllSpace(items[i].gap) && WordOk(items[i].word))
    && (forall i :: 0 < i < |items| ==> items[i].gap != "")
  }

  /** The entries that the words give, with aliases in upper case. */
  function Meaning(items: seq<Item>): seq<AliasEntry> {
    if items == [] then []
    else
      var last := items[|items| - 1].word;
      Meaning(items[..|items| - 1]) + if last.Pair? then [AliasEntry(ToUpper(last.alias), last.uri)] else []
  }

  function WordTexts(items: seq<Item>): (r: seq<string>)
    ensures |r| == |items| && forall i :: 0 <= i < |r| ==> r[i] == WordText(items[i].word)
  {
    seq(|items|, i requires 0 <= i < |items| => WordText(items[i].word))
  }

  lemma {:induction false} FieldsAfterSpace(gap: string, t: string)
    requires AllSpace(gap)
    ensures Fields(gap + t) == Fields(t)
  {
    if gap == "" {
      assert gap + t == t;
    } else {
      assert (gap + t)[1..] == gap[1..] + t;
      FieldsAfterSpace(gap[1..], t);
    }
  }

  lemma FieldsOfWord(w: string, rest: string)
    requires w != "" && NoSpace(w) && (rest == "" || IsSpace(rest[0]))
    ensures Fields(w + rest) == [w] + Fields(rest)
  {
    VisiblePrefix(w, rest);
    assert (w + rest)[..|w|] == w && (w + rest)[|w|..] == rest;
  }

  lemma {:induction false} FieldsOfItems(items: seq<Item>, tail: string)
    requires ItemsOk(items) && AllSpace(tail)
    ensures Fields(ItemsText(items, tail)) == WordTexts(items)
    decreases |items|
  {
    hide Fields, NoSpace;
    if items == [] {
      FieldsAfterSpace(tail, "");
      assert tail + "" == tail;
      NoFields();
    } else {
      var gap, w, rest := items[0].gap, WordText(items[0].word), ItemsText(items[1..], tail);
      FieldsOfItems(items[1..], tail);
      WordIsVisible(items[0].word);
      assert gap + w + rest == gap + (w + rest);
      FieldsAfterSpace(gap, w + rest);
      assert rest == "" || IsSpace(rest[0]);
      FieldsOfWord(w, rest);
      assert WordTexts(items) == [w] + WordTexts(items[1..]);
    }
  }

  lemma NoFields()
    ensures Fields("") == []
  {
  }

  lemma WordIsVisible(w: Word)
    requires WordOk(w)
    ensures WordText(w) != "" && NoSpace(WordText(w))
  {
  }

  lemma EntryOfWord(w: Word)
    requires WordOk(w)
    ensures EntryOf(WordText(w)) == if w.Pair? then [AliasEntry(ToUpper(w.alias), w.uri)] else []
  {
    var f := WordText(w);
    var k := FindChar(f, 0, '=');
    if w.Pair? {
      assert f[|w.alias|] == '=';
      assert forall i :: 0 <= i < |w.alias| ==> f[i] == w.alias[i] && w.alias[i] in w.alias;
      assert k == |w.alias| && f[..k] == w.alias && f[k + 1..] == w.uri;
      TrimTrimmed(w.alias);
    }
  }

  lemma {:induction false} EntriesOfWords(items: seq<Item>)
    requires ItemsOk(items)
    ensures EntriesOf(WordTexts(items)) == Meaning(items)
  {
    hide EntryOf, WordText, WordOk;
    if items != [] {
      var n := |items| - 1;
      EntriesOfWords(items[..n]);
      assert WordTexts(items)[..n] == WordTexts(items[..n]);
      EntryOfWord(items[n].word);
    }
  }

  /** Reading any text of words and white space gives an entry for every pair, in order, with the
      alias in upper case and the URI as it stands; words without an equals sign are skipped. */
  lemma ParseReads(items: seq<Item>, tail: string)
    requires ItemsOk(items) && AllSpace(tail)
    ensures Parse(ItemsText(items, tail)) == Meaning(items)
  {
    hide Fields, EntriesOf;
    FieldsOfItems(items, tail);
    EntriesOfWords(items);
  }
}
