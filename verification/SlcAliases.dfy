/** Which aliases the installed script language containers provide (internal/deploy/custom_slc.go,
    slc.go): custom and official containers are installed, updated and removed, and no alias of
    a custom container may be provided by any other. */
module SlcAliases {
  import opened Text
  import opened ScriptLanguages

  /** A custom container. Its package aliases are the recorded ones or, if none are recorded,
      those that its package declares. */
  datatype Custom = Custom(alias: string, packageAliases: seq<string>, language: string, sha256: string, activated: bool)

  datatype Official = Official(language: string, flavor: string, image: string, aliases: seq<string>)

  datatype State = State(customs: seq<Custom>, officials: seq<Official>)

  // ----- the order of custom containers -----

  /** Strictly increasing aliases: sorted and unique. */
  predicate Sorted(customs: seq<Custom>) {
    forall i, j :: 0 <= i < j < |customs| ==> Less(customs[i].alias, customs[j].alias)
  }

  // ----- names and conflicts -----

  function Names(aliases: seq<string>): set<string> {
    set i | 0 <= i < |aliases| :: NormalizeAlias(aliases[i])
  }

  function CustomAliases(c: Custom): seq<string> {
    [c.alias] + c.packageAliases
  }

  datatype Provider = Provider(name: string, aliases: seq<string>)

  function OfficialProviders(officials: seq<Official>): (r: seq<Provider>)
    ensures |r| == |officials| && forall i :: 0 <= i < |r| ==> r[i].aliases == officials[i].aliases
  {
    seq(|officials|, i requires 0 <= i < |officials| => Provider(officials[i].flavor, officials[i].aliases))
  }

  /** The providers among the custom containers, leaving one out. */
  function CustomProviders(customs: seq<Custom>, exclude: int): (r: seq<Provider>)
    ensures forall i :: 0 <= i < |customs| && i != exclude ==> Provider(customs[i].alias, CustomAliases(customs[i])) in r
  {
    if customs == [] then []
    else
      var n := |customs| - 1;
      var r := CustomProviders(customs[..n], exclude) + if n == exclude then [] else [Provider(customs[n].alias, CustomAliases(customs[n]))];
      assert forall i :: 0 <= i < n ==> customs[..n][i] == customs[i];
      r
  }

  ghost predicate ConflictFree(candidate: seq<string>, providers: seq<Provider>) {
    forall p :: p in providers ==> Names(candidate) !! Names(p.aliases)
  }

  // ----- the invariant -----

  predicate AliasesValid(customs: seq<Custom>) {
    forall i :: 0 <= i < |customs| ==> Normalized(customs[i].alias)
  }

  ghost predicate Disjoint(s: State) {
    && Sorted(s.customs) && AliasesValid(s.customs)
    && (forall x, y :: x in s.customs && y in s.customs && x != y ==> Names(CustomAliases(x)) !! Names(CustomAliases(y)))
    && (forall x, o :: x in s.customs && o in s.officials ==> Names(CustomAliases(x)) !! Names(o.aliases))
  }

  // ----- operations -----

  function FindCustom(customs: seq<Custom>, alias: string): (r: int)
    ensures -1 <= r < |customs|
    ensures r >= 0 ==> NormalizeAlias(customs[r].alias) == NormalizeAlias(alias)
    ensures forall i :: 0 <= i < (if r < 0 then |customs| else r) ==> NormalizeAlias(customs[i].alias) != NormalizeAlias(alias)
  {
    FindCustomFrom(customs, alias, 0)
  }

  function FindCustomFrom(customs: seq<Custom>, alias: string, k: nat): (r: int)
    requires k <= |customs|
    ensures -1 <= r < |customs| && (r >= 0 ==> k <= r)
    ensures r >= 0 ==> NormalizeAlias(customs[r].alias) == NormalizeAlias(alias)
    ensures forall i :: k <= i < (if r < 0 then |customs| else r) ==> NormalizeAlias(customs[i].alias) != NormalizeAlias(alias)
    decreases |customs| - k
  {
    if k == |customs| then -1
    else if NormalizeAlias(customs[k].alias) == NormalizeAlias(alias) then k
    else FindCustomFrom(customs, alias, k + 1)
  }

  /** The other containers, in order. */
  function Others(customs: seq<Custom>, alias: string): seq<Custom> {
    if customs == [] then []
    else
      var n := |customs| - 1;
      Others(customs[..n], alias) + if NormalizeAlias(customs[n].alias) == NormalizeAlias(alias) then [] else [customs[n]]
  }

  /** Where a container with this alias belongs. */
  function Insert(customs: seq<Custom>, c: Custom): seq<Custom> {
    if customs == [] then [c]
    else
      var n := |customs| - 1;
      if Less(c.alias, customs[n].alias) then Insert(customs[..n], c) + [customs[n]] else customs + [c]
  }

  function SortCustoms(customs: seq<Custom>): seq<Custom> {
    if customs == [] then [] else Insert(SortCustoms(customs[..|customs| - 1]), customs[|customs| - 1])
  }

  function UpsertCustom(customs: seq<Custom>, c: Custom): seq<Custom> {
    SortCustoms(Others(customs, c.alias) + [c])
  }

  function RemoveAt<T>(s: seq<T>, i: int): (r: seq<T>)
    ensures !(0 <= i < |s|) ==> r == s
    ensures 0 <= i < |s| ==> |r| == |s| - 1 && forall j :: 0 <= j < |r| ==> r[j] == s[if j < i then j else j + 1]
  {
    if 0 <= i < |s| then s[..i] + s[i + 1..] else s
  }

  /** What is asked for: an alias, the archive's digest, language and declared aliases. */
  datatype Request = Request(alias: string, sha256: string, language: string, archiveAliases: seq<string>)

  predicate Unchanged(c: Custom, r: Request) {
    c.activated && c.sha256 == r.sha256 && c.language == r.language
  }

  function NewCustom(r: Request): Custom {
    Custom(NormalizeAlias(r.alias), r.archiveAliases, r.language, r.sha256, false)
  }

  /** Installing and updating differ in whether the alias must already be there. */
  ghost function StageCustom(s: State, r: Request, update: bool): State {
    var idx := FindCustom(s.customs, r.alias);
    if (update && idx < 0) || (idx >= 0 && Unchanged(s.customs[idx], r)) then s
    else if !ConflictFree(CustomAliases(NewCustom(r)), OfficialProviders(s.officials) + CustomProviders(s.customs, idx)) then s
    else s.(customs := UpsertCustom(s.customs, NewCustom(r)))
  }

  function RemoveCustom(s: State, alias: string): State {
    s.(customs := RemoveAt(s.customs, FindCustom(s.customs, alias)))
  }

  predicate SameFold(a: string, b: string) {
    ToUpper(a) == ToUpper(b)
  }

  function OtherFlavors(officials: seq<Official>, flavor: string): seq<Official> {
    if officials == [] then []
    else
      var n := |officials| - 1;
      OtherFlavors(officials[..n], flavor) + if SameFold(officials[n].flavor, flavor) then [] else [officials[n]]
  }

  function InsertOfficial(officials: seq<Official>, o: Official): seq<Official> {
    if officials == [] then [o]
    else
      var n := |officials| - 1;
      if Less(o.flavor, officials[n].flavor) then InsertOfficial(officials[..n], o) + [officials[n]] else officials + [o]
  }

  function SortOfficials(officials: seq<Official>): seq<Official> {
    if officials == [] then [] else InsertOfficial(SortOfficials(officials[..|officials| - 1]), officials[|officials| - 1])
  }

  function UpsertOfficial(officials: seq<Official>, o: Official): seq<Official> {
    SortOfficials(OtherFlavors(officials, o.flavor) + [o])
  }

  predicate Answers(o: Official, needle: string) {
    || SameFold(o.language, needle) || SameFold(o.flavor, needle)
    || exists i :: 0 <= i < |o.aliases| && SameFold(o.aliases[i], needle)
  }

  function FindOfficialFrom(officials: seq<Official>, needle: string, k: nat): (r: int)
    requires k <= |officials|
    ensures r == -1 || (k <= r < |officials| && Answers(officials[r], needle))
    ensures forall j :: k <= j < (if r < 0 then |officials| else r) ==> !Answers(officials[j], needle)
    decreases |officials| - k
  {
    if k == |officials| then -1 else if Answers(officials[k], needle) then k else FindOfficialFrom(officials, needle, k + 1)
  }

  /** The first container whose language, flavor or alias is the trimmed name, or -1. */
  function FindOfficial(officials: seq<Official>, alias: string): (r: int)
    ensures r == -1 || (0 <= r < |officials| && Answers(officials[r], TrimSpace(alias)))
    ensures forall j :: 0 <= j < (if r < 0 then |officials| else r) ==> !Answers(officials[j], TrimSpace(alias))
  {
    FindOfficialFrom(officials, TrimSpace(alias), 0)
  }

  predicate HasImage(officials: seq<Official>, image: string) {
    exists i :: 0 <= i < |officials| && officials[i].image == image
  }

  /** Recording an official container, if no custom one holds any of its aliases. Whether the
      catalog's own check lets it in is an answer from outside. */
  ghost function InstallOfficial(s: State, o: Official, allowed: bool): State {
    if !ConflictFree(o.aliases, CustomProviders(s.customs, -1)) || HasImage(s.officials, o.image) || !allowed then s
    else s.(officials := UpsertOfficial(s.officials, o))
  }

  ghost function UpdateOfficial(s: State, o: Official, allowed: bool): State {
    var idx := FindOfficial(s.officials, o.language);
    if !ConflictFree(o.aliases, CustomProviders(s.customs, -1)) || idx < 0 || HasImage(s.officials, o.image) || !allowed then s
    else s.(officials := UpsertOfficial(RemoveAt(s.officials, idx), o))
  }

  function RemoveOfficial(s: State, alias: string): State {
    s.(officials := RemoveAt(s.officials, FindOfficial(s.officials, alias)))
  }

  datatype Operation =
    | InstallCustom(request: Request)
    | UpdateCustom(request: Request)
    | DropCustom(alias: string)
    | ActivateCustom(index: nat)
    | InstallOfficialSlc(official: Official, allowed: bool)
    | UpdateOfficialSlc(official: Official, allowed: bool)
    | DropOfficial(alias: string)

  ghost predicate Does(s: State, op: Operation, t: State) {
    match op
    case InstallCustom(r) => t == s || t == StageCustom(s, r, false)
    case UpdateCustom(r) => t == s || t == StageCustom(s, r, true)
    case DropCustom(alias) => t == s || t == RemoveCustom(s, alias)
    case ActivateCustom(i) => t == if i < |s.customs| then s.(customs := s.customs[i := s.customs[i].(activated := true)]) else s
    case InstallOfficialSlc(o, allowed) => t == s || t == InstallOfficial(s, o, allowed)
    case UpdateOfficialSlc(o, allowed) => t == s || t == UpdateOfficial(s, o, allowed)
    case DropOfficial(alias) => t == s || t == RemoveOfficial(s, alias)
  }

  /** A run of commands over the state file: each reads the whole file at some point, possibly
      before others have written, and later writes the whole result of what it read, or nothing. */
  ghost predicate IsRun(states: seq<State>, ops: seq<Operation>, sources: seq<nat>) {
    && |states| == |ops| + 1 && |sources| == |ops|
    && forall i :: 0 <= i < |ops| ==>
         sources[i] <= i && (states[i + 1] == states[i] || Does(states[sources[i]], ops[i], states[i + 1]))
  }

  // ----- upserting keeps the order and changes one container -----

  lemma {:induction false} OthersAre(customs: seq<Custom>, alias: string)
    ensures forall c :: c in Others(customs, alias) <==> c in customs && NormalizeAlias(c.alias) != NormalizeAlias(alias)
    ensures Sorted(customs) ==> Sorted(Others(customs, alias))
  {
    hide Less, NormalizeAlias;
    if customs != [] {
      var n := |customs| - 1;
      OthersAre(customs[..n], alias);
      assert customs == customs[..n] + [customs[n]];
      if Sorted(customs) {
        var o := Others(customs[..n], alias);
        forall i | 0 <= i < |o| ensures Less(o[i].alias, customs[n].alias) {
          assert o[i] in customs[..n];
          var j :| 0 <= j < n && customs[..n][j] == o[i];
          assert customs[j] == o[i];
        }
      }
    }
  }

  lemma {:induction false} InsertMembers(customs: seq<Custom>, c: Custom)
    ensures forall x :: x in Insert(customs, c) <==> x in customs || x == c
  {
    if customs != [] {
      var n := |customs| - 1;
      assert customs == customs[..n] + [customs[n]];
      InsertMembers(customs[..n], c);
    }
  }

  lemma AppendSorted(customs: seq<Custom>, c: Custom)
    requires Sorted(customs) && forall x :: x in customs ==> Less(x.alias, c.alias)
    ensures Sorted(customs + [c])
  {
    forall i | 0 <= i < |customs| ensures Less(customs[i].alias, c.alias) {
      assert customs[i] in customs;
    }
  }

  lemma {:induction false} InsertSorted(customs: seq<Custom>, c: Custom)
    requires Sorted(customs) && forall x :: x in customs ==> x.alias != c.alias
    ensures Sorted(Insert(customs, c))
  {
    hide Less;
    if customs != [] {
      var n := |customs| - 1;
      var last := customs[n];
      assert customs == customs[..n] + [last];
      assert last in customs;
      LessIsTotal(c.alias, last.alias);
      forall x | x in customs[..n] ensures Less(x.alias, last.alias) {
        var i :| 0 <= i < n && customs[..n][i] == x;
        assert customs[i] == x;
      }
      if Less(c.alias, last.alias) {
        assert Sorted(customs[..n]);
        InsertSorted(customs[..n], c);
        InsertMembers(customs[..n], c);
        AppendSorted(Insert(customs[..n], c), last);
      } else {
        forall x | x in customs ensures Less(x.alias, c.alias) {
          if x in customs[..n] {
            LessIsTransitive(x.alias, last.alias, c.alias);
          }
        }
        AppendSorted(customs, c);
      }
    }
  }

  lemma {:induction false} SortSorted(customs: seq<Custom>)
    requires Sorted(customs)
    ensures SortCustoms(customs) == customs
  {
    hide Less;
    if customs != [] {
      var n := |customs| - 1;
      SortSorted(customs[..n]);
      assert customs == customs[..n] + [customs[n]];
      if n > 0 {
        LessIsTotal(customs[n - 1].alias, customs[n].alias);
      }
    }
  }

  lemma SortAfterAppending(customs: seq<Custom>, c: Custom)
    requires Sorted(customs)
    ensures SortCustoms(customs + [c]) == Insert(customs, c)
  {
    hide Less, Insert;
    SortSorted(customs);
    assert (customs + [c])[..|customs|] == customs;
  }

  /** Upserting leaves the container under its alias exactly once and every other untouched. */
  lemma UpsertMembers(customs: seq<Custom>, c: Custom)
    requires Sorted(customs) && AliasesValid(customs) && Normalized(c.alias)
    ensures Sorted(UpsertCustom(customs, c)) && AliasesValid(UpsertCustom(customs, c))
    ensures forall x :: x in UpsertCustom(customs, c) <==> x == c || (x in customs && x.alias != c.alias)
  {
    hide Sorted, Insert, Others, NormalizeAlias, SortCustoms;
    OthersAre(customs, c.alias);
    var o := Others(customs, c.alias);
    SortAfterAppending(o, c);
    forall x | x in o ensures x.alias != c.alias && Normalized(x.alias) {
      assert x in customs;
    }
    forall x | x in customs ensures Normalized(x.alias) {
    }
    InsertSorted(o, c);
    InsertMembers(o, c);
    forall i | 0 <= i < |UpsertCustom(customs, c)| ensures Normalized(UpsertCustom(customs, c)[i].alias) {
      assert UpsertCustom(customs, c)[i] in UpsertCustom(customs, c);
    }
  }

  // ----- what every operation keeps -----

  lemma StageCustomKeepsDisjoint(s: State, r: Request, update: bool)
    requires Disjoint(s)
    ensures Disjoint(StageCustom(s, r, update))
  {
    var t := StageCustom(s, r, update);
    if t != s {
      var idx := FindCustom(s.customs, r.alias);
      var c := NewCustom(r);
      NormalizedTwice(r.alias);
      UpsertMembers(s.customs, c);
      var providers := OfficialProviders(s.officials) + CustomProviders(s.customs, idx);
      forall x | x in t.customs && x != c ensures x in s.customs && Names(CustomAliases(c)) !! Names(CustomAliases(x)) {
        var i :| 0 <= i < |s.customs| && s.customs[i] == x;
        assert i != idx by { assert Normalized(s.customs[i].alias); }
        assert Provider(x.alias, CustomAliases(x)) in providers;
      }
      forall o | o in t.officials ensures Names(CustomAliases(c)) !! Names(o.aliases) {
        var i :| 0 <= i < |s.officials| && s.officials[i] == o;
        assert OfficialProviders(s.officials)[i] in providers;
      }
    }
  }

  lemma NormalizedTwice(alias: string)
    ensures Normalized(NormalizeAlias(alias))
  {
    var t := TrimSpace(alias);
    var a, b := TrimParts(alias);
    var u := ToUpper(t);
    assert Trimmed(u) by {
      if u != "" {
        assert u[0] == ToUpperChar(t[0]) && u[|u| - 1] == ToUpperChar(t[|t| - 1]);
      }
    }
    TrimTrimmed(u);
    assert ToUpper(u) == u;
  }

  lemma RemoveCustomKeepsDisjoint(s: State, alias: string)
    requires Disjoint(s)
    ensures Disjoint(RemoveCustom(s, alias))
  {
    var t, k := RemoveCustom(s, alias), FindCustom(s.customs, alias);
    if k >= 0 {
      forall i | 0 <= i < |t.customs| ensures t.customs[i] == s.customs[if i < k then i else i + 1] {
      }
      assert forall x :: x in t.customs ==> x in s.customs;
    }
  }

  lemma ActivateKeepsDisjoint(s: State, i: nat)
    requires Disjoint(s) && i < |s.customs|
    ensures Disjoint(s.(customs := s.customs[i := s.customs[i].(activated := true)]))
  {
    hide Less, Names, CustomAliases, Normalized;
    var t := s.(customs := s.customs[i := s.customs[i].(activated := true)]);
    SameAliases(s.customs[i]);
    forall j | 0 <= j < |t.customs|
      ensures CustomAliases(t.customs[j]) == CustomAliases(s.customs[j]) && t.customs[j].alias == s.customs[j].alias && s.customs[j] in s.customs
    {
    }
    forall x, y | x in t.customs && y in t.customs && x != y ensures Names(CustomAliases(x)) !! Names(CustomAliases(y)) {
      var j :| 0 <= j < |t.customs| && t.customs[j] == x;
      var k :| 0 <= k < |t.customs| && t.customs[k] == y;
      DifferentPlaces(s.customs, j, k);
    }
    forall x, o | x in t.customs && o in t.officials ensures Names(CustomAliases(x)) !! Names(o.aliases) {
      var j :| 0 <= j < |t.customs| && t.customs[j] == x;
    }
  }

  lemma SameAliases(c: Custom)
    ensures CustomAliases(c.(activated := true)) == CustomAliases(c)
  {
  }

  lemma DifferentPlaces(customs: seq<Custom>, j: nat, k: nat)
    requires Sorted(customs) && j < |customs| && k < |customs| && j != k
    ensures customs[j] != customs[k]
  {
    LessIsTotal(customs[j].alias, customs[k].alias);
  }

  lemma {:induction false} InsertOfficialMembers(officials: seq<Official>, o: Official)
    ensures forall x :: x in InsertOfficial(officials, o) <==> x in officials || x == o
  {
    hide Less;
    if officials != [] {
      var n := |officials| - 1;
      assert officials == officials[..n] + [officials[n]];
      InsertOfficialMembers(officials[..n], o);
    }
  }

  lemma {:induction false} SortOfficialsMembers(officials: seq<Official>)
    ensures forall x :: x in SortOfficials(officials) <==> x in officials
  {
    hide InsertOfficial;
    if officials != [] {
      var n := |officials| - 1;
      assert officials == officials[..n] + [officials[n]];
      SortOfficialsMembers(officials[..n]);
      InsertOfficialMembers(SortOfficials(officials[..n]), officials[n]);
    }
  }

  lemma {:induction false} OtherFlavorsMembers(officials: seq<Official>, flavor: string)
    ensures forall x :: x in OtherFlavors(officials, flavor) <==> x in officials && !SameFold(x.flavor, flavor)
  {
    hide SameFold;
    if officials != [] {
      var n := |officials| - 1;
      assert officials == officials[..n] + [officials[n]];
      OtherFlavorsMembers(officials[..n], flavor);
    }
  }

  /** Recording an official container replaces the ones of its flavor and no other. */
  lemma UpsertOfficialMembers(officials: seq<Official>, o: Official)
    ensures forall x :: x in UpsertOfficial(officials, o) <==> x == o || (x in officials && !SameFold(x.flavor, o.flavor))
  {
    hide SameFold, OtherFlavors, SortOfficials;
    OtherFlavorsMembers(officials, o.flavor);
    SortOfficialsMembers(OtherFlavors(officials, o.flavor) + [o]);
  }

  lemma OfficialKeepsDisjoint(s: State, o: Official, officials: seq<Official>)
    requires Disjoint(s) && ConflictFree(o.aliases, CustomProviders(s.customs, -1))
    requires forall x :: x in officials ==> x in s.officials
    ensures Disjoint(s.(officials := UpsertOfficial(officials, o)))
  {
    var t := s.(officials := UpsertOfficial(officials, o));
    UpsertOfficialMembers(officials, o);
    forall x, p | x in t.customs && p in t.officials ensures Names(CustomAliases(x)) !! Names(p.aliases) {
      if p == o {
        var i :| 0 <= i < |s.customs| && s.customs[i] == x;
        assert Provider(x.alias, CustomAliases(x)) in CustomProviders(s.customs, -1);
      } else {
        assert p in s.officials;
      }
    }
  }

  lemma RemoveAtMembers<T>(s: seq<T>, i: int)
    ensures forall x :: x in RemoveAt(s, i) ==> x in s
  {
  }

  lemma OperationKeepsDisjoint(s: State, op: Operation, t: State)
    requires Disjoint(s) && Does(s, op, t)
    ensures Disjoint(t)
  {
    hide Disjoint, StageCustom, RemoveCustom, UpsertOfficial, FindOfficial, ConflictFree;
    match op
    case InstallCustom(r) => StageCustomKeepsDisjoint(s, r, false);
    case UpdateCustom(r) => StageCustomKeepsDisjoint(s, r, true);
    case DropCustom(alias) => RemoveCustomKeepsDisjoint(s, alias);
    case ActivateCustom(i) =>
      if i < |s.customs| {
        ActivateKeepsDisjoint(s, i);
      }
    case InstallOfficialSlc(o, _) =>
      if t != s {
        OfficialKeepsDisjoint(s, o, s.officials);
      }
    case UpdateOfficialSlc(o, _) =>
      if t != s {
        RemoveAtMembers(s.officials, FindOfficial(s.officials, o.language));
        OfficialKeepsDisjoint(s, o, RemoveAt(s.officials, FindOfficial(s.officials, o.language)));
      }
    case DropOfficial(alias) => DropOfficialKeepsDisjoint(s, alias);
  }

  lemma DropOfficialKeepsDisjoint(s: State, alias: string)
    requires Disjoint(s)
    ensures Disjoint(RemoveOfficial(s, alias))
  {
    RemoveAtMembers(s.officials, FindOfficial(s.officials, alias));
  }

  /** Over every run of installs, updates, removals and activations, succeeding or not, even on
      a file that others have written since it was read: no name of a custom container is
      provided by any other installed container, and the custom aliases stay sorted and unique. */
  lemma {:induction false} RunKeepsDisjoint(states: seq<State>, ops: seq<Operation>, sources: seq<nat>, k: nat)
    requires IsRun(states, ops, sources) && k <= |ops| && Disjoint(states[0])
    ensures Disjoint(states[k])
  {
    hide Disjoint, Does;
    if k > 0 {
      RunKeepsDisjoint(states, ops, sources, k - 1);
      RunKeepsDisjoint(states, ops, sources, sources[k - 1]);
      if states[k] != states[k - 1] {
        OperationKeepsDisjoint(states[sources[k - 1]], ops[k - 1], states[k]);
      }
    }
  }

  // ----- what every operation does -----

  /** The custom container is installed under the alias. */
  predicate Under(c: Custom, alias: string) {
    NormalizeAlias(c.alias) == NormalizeAlias(alias)
  }

  /** Removing a custom container removes the one under its alias and no other. */
  lemma RemoveCustomDoes(s: State, alias: string)
    requires Disjoint(s)
    ensures var t := RemoveCustom(s, alias);
      && t.officials == s.officials && Sorted(t.customs)
      && forall x :: x in t.customs <==> x in s.customs && !Under(x, alias)
  {
    hide Disjoint, Sorted, NormalizeAlias;
    RemoveCustomKeepsDisjoint(s, alias);
    var t, k := RemoveCustom(s, alias), FindCustom(s.customs, alias);
    DisjointIsSorted(t);
    if k >= 0 {
      forall x | x in t.customs ensures x in s.customs && !Under(x, alias) {
        var j :| 0 <= j < |t.customs| && t.customs[j] == x;
        OnlyOneUnder(s, k, if j < k then j else j + 1);
      }
      forall x | x in s.customs && !Under(x, alias) ensures x in t.customs {
        var j :| 0 <= j < |s.customs| && s.customs[j] == x;
        assert t.customs[if j < k then j else j - 1] == x;
      }
    }
  }

  lemma DisjointIsSorted(s: State)
    requires Disjoint(s)
    ensures Sorted(s.customs)
  {
    hide Sorted;
  }

  lemma OnlyOneUnder(s: State, k: nat, j: nat)
    requires Disjoint(s) && k < |s.customs| && j < |s.customs| && j != k
    ensures NormalizeAlias(s.customs[j].alias) != NormalizeAlias(s.customs[k].alias)
  {
    hide Less, NormalizeAlias, Names;
    assert Normalized(s.customs[j].alias) && Normalized(s.customs[k].alias);
    LessIsTotal(s.customs[j].alias, s.customs[k].alias);
  }

  predicate FirstAnswering(officials: seq<Official>, name: string, k: nat) {
    k < |officials| && Answers(officials[k], name) && forall j :: 0 <= j < k ==> !Answers(officials[j], name)
  }

  /** Removing an official container removes the first that answers to the name and no other;
      with none that does, nothing changes. */
  lemma RemoveOfficialDoes(s: State, alias: string, k: nat)
    ensures RemoveOfficial(s, alias).customs == s.customs
    ensures (forall j :: 0 <= j < |s.officials| ==> !Answers(s.officials[j], TrimSpace(alias))) ==> RemoveOfficial(s, alias) == s
    ensures FirstAnswering(s.officials, TrimSpace(alias), k) ==>
      var after := RemoveOfficial(s, alias).officials;
      && after == s.officials[..k] + s.officials[k + 1..]
      && multiset(after) == multiset(s.officials) - multiset{s.officials[k]}
  {
    hide Answers, TrimSpace;
    var found := FindOfficial(s.officials, alias);
    if FirstAnswering(s.officials, TrimSpace(alias), k) {
      assert found == k;
      OneLess(s.officials, k);
    }
  }

  lemma OneLess<T>(s: seq<T>, k: nat)
    requires k < |s|
    ensures multiset(s[..k] + s[k + 1..]) == multiset(s) - multiset{s[k]}
  {
    assert s == s[..k] + [s[k]] + s[k + 1..];
  }

  /** Some other container provides one of the names. */
  ghost predicate Clashes(s: State, names: set<string>, alias: string) {
    || (exists x :: x in s.customs && !Under(x, alias) && !(names !! Names(CustomAliases(x))))
    || (exists o :: o in s.officials && !(names !! Names(o.aliases)))
  }

  /** Installing or updating a custom container changes nothing if it is to be updated and not
      there, if it is there already, active and the same, or if one of its names is provided by
      another container; otherwise it is recorded once under its alias, inactive, and every
      other container stays. */
  lemma StageCustomDoes(s: State, r: Request, update: bool)
    requires Disjoint(s)
    ensures var t, names := StageCustom(s, r, update), Names([NormalizeAlias(r.alias)] + r.archiveAliases);
      if (update && forall x :: x in s.customs ==> !Under(x, r.alias))
         || (exists x :: x in s.customs && Under(x, r.alias) && x.activated && x.sha256 == r.sha256 && x.language == r.language)
         || Clashes(s, names, r.alias)
      then t == s
      else
        && t.officials == s.officials && Sorted(t.customs)
        && forall x :: x in t.customs <==>
             x == Custom(NormalizeAlias(r.alias), r.archiveAliases, r.language, r.sha256, false) || (x in s.customs && !Under(x, r.alias))
  {
    var idx, c := FindCustom(s.customs, r.alias), NewCustom(r);
    FoundUnder(s, r.alias);
    ConflictIsClash(s, CustomAliases(c), r.alias);
    NormalizedTwice(r.alias);
    assert Sorted(s.customs) && AliasesValid(s.customs);
    UpsertMembers(s.customs, c);
    hide Disjoint, Sorted, ConflictFree, Clashes, CustomProviders, OfficialProviders, UpsertCustom, Names;
    var t := UpsertCustom(s.customs, c);
    forall x | x in s.customs ensures x.alias != c.alias <==> !Under(x, r.alias) {
      var i :| 0 <= i < |s.customs| && s.customs[i] == x;
      assert Normalized(s.customs[i].alias);
    }
  }

  /** The container found is the one under the alias. */
  lemma FoundUnder(s: State, alias: string)
    requires Disjoint(s)
    ensures var k := FindCustom(s.customs, alias);
      && (k < 0 <==> forall x :: x in s.customs ==> !Under(x, alias))
      && (k >= 0 ==> forall x :: x in s.customs && Under(x, alias) ==> x == s.customs[k])
  {
    var k := FindCustom(s.customs, alias);
    hide Disjoint, NormalizeAlias;
    if k >= 0 {
      assert s.customs[k] in s.customs;
      forall x | x in s.customs && Under(x, alias) ensures x == s.customs[k] {
        var j :| 0 <= j < |s.customs| && s.customs[j] == x;
        if j != k {
          OnlyOneUnder(s, k, j);
        }
      }
    }
  }

  lemma ConflictIsClash(s: State, candidate: seq<string>, alias: string)
    requires Disjoint(s)
    ensures ConflictFree(candidate, OfficialProviders(s.officials) + CustomProviders(s.customs, FindCustom(s.customs, alias)))
      <==> !Clashes(s, Names(candidate), alias)
  {
    var k := FindCustom(s.customs, alias);
    var officials, customs := OfficialProviders(s.officials), CustomProviders(s.customs, k);
    FoundUnder(s, alias);
    ProvidersAre(s.customs, k);
    hide Disjoint, Names, NormalizeAlias, CustomProviders;
    if ConflictFree(candidate, officials + customs) {
      forall x | x in s.customs && !Under(x, alias) ensures Names(candidate) !! Names(CustomAliases(x)) {
        var j :| 0 <= j < |s.customs| && s.customs[j] == x;
        assert Provider(x.alias, CustomAliases(x)) in officials + customs;
      }
      forall o | o in s.officials ensures Names(candidate) !! Names(o.aliases) {
        var j :| 0 <= j < |s.officials| && s.officials[j] == o;
        assert officials[j] in officials + customs;
      }
    }
    if !Clashes(s, Names(candidate), alias) {
      forall p | p in officials + customs ensures Names(candidate) !! Names(p.aliases) {
        if p in officials {
          var j :| 0 <= j < |officials| && officials[j] == p;
          assert s.officials[j] in s.officials;
        } else {
          var j :| 0 <= j < |s.customs| && j != k && p == Provider(s.customs[j].alias, CustomAliases(s.customs[j]));
          assert s.customs[j] in s.customs;
          OtherThanFound(s, alias, j);
        }
      }
    }
  }

  lemma OtherThanFound(s: State, alias: string, j: nat)
    requires Disjoint(s) && j < |s.customs| && j != FindCustom(s.customs, alias)
    ensures !Under(s.customs[j], alias)
  {
    var k := FindCustom(s.customs, alias);
    hide Disjoint, NormalizeAlias;
    if k >= 0 {
      OnlyOneUnder(s, k, j);
    }
  }

  lemma {:induction false} ProvidersAre(customs: seq<Custom>, exclude: int)
    ensures forall p :: p in CustomProviders(customs, exclude) ==>
      exists j :: 0 <= j < |customs| && j != exclude && p == Provider(customs[j].alias, CustomAliases(customs[j]))
  {
    if customs != [] {
      var n := |customs| - 1;
      ProvidersAre(customs[..n], exclude);
      forall p | p in CustomProviders(customs, exclude)
        ensures exists j :: 0 <= j < |customs| && j != exclude && p == Provider(customs[j].alias, CustomAliases(customs[j]))
      {
        if p in CustomProviders(customs[..n], exclude) {
          var j :| 0 <= j < n && j != exclude && p == Provider(customs[..n][j].alias, CustomAliases(customs[..n][j]));
          assert customs[j] == customs[..n][j];
        } else {
          assert p == Provider(customs[n].alias, CustomAliases(customs[n]));
        }
      }
    }
  }

  /** Some custom container provides one of the names. */
  ghost predicate HeldByCustom(s: State, aliases: seq<string>) {
    exists x :: x in s.customs && !(Names(aliases) !! Names(CustomAliases(x)))
  }

  lemma ConflictIsHeld(s: State, aliases: seq<string>)
    ensures ConflictFree(aliases, CustomProviders(s.customs, -1)) <==> !HeldByCustom(s, aliases)
  {
    ProvidersAre(s.customs, -1);
    hide Names, CustomProviders;
    var providers := CustomProviders(s.customs, -1);
    if ConflictFree(aliases, providers) {
      forall x | x in s.customs ensures Names(aliases) !! Names(CustomAliases(x)) {
        var j :| 0 <= j < |s.customs| && s.customs[j] == x;
        assert Provider(x.alias, CustomAliases(x)) in providers;
      }
    }
    if !HeldByCustom(s, aliases) {
      forall p | p in providers ensures Names(aliases) !! Names(p.aliases) {
        var j :| 0 <= j < |s.customs| && j != -1 && p == Provider(s.customs[j].alias, CustomAliases(s.customs[j]));
        assert s.customs[j] in s.customs;
      }
    }
  }

  /** Installing an official container changes nothing if a custom one has one of its aliases, if
      its image is installed, or if the catalog refuses; otherwise it replaces those of its flavor
      and every other container stays. */
  lemma InstallOfficialDoes(s: State, o: Official, allowed: bool)
    ensures var t := InstallOfficial(s, o, allowed);
      if HeldByCustom(s, o.aliases) || (exists x :: x in s.officials && x.image == o.image) || !allowed then t == s
      else t.customs == s.customs && forall x :: x in t.officials <==> x == o || (x in s.officials && !SameFold(x.flavor, o.flavor))
  {
    ConflictIsHeld(s, o.aliases);
    ImageIsThere(s.officials, o.image);
    UpsertOfficialMembers(s.officials, o);
    hide ConflictFree, CustomProviders, UpsertOfficial, SameFold, HasImage, HeldByCustom;
  }

  lemma ImageIsThere(officials: seq<Official>, image: string)
    ensures HasImage(officials, image) <==> exists x :: x in officials && x.image == image
  {
    if x :| x in officials && x.image == image {
      var i :| 0 <= i < |officials| && officials[i] == x;
      assert officials[i].image == image;
    }
  }

  /** Updating replaces the first container of the language, and those of the new flavor; every
      other container stays. */
  lemma UpdateOfficialDoes(s: State, o: Official, allowed: bool)
    ensures var t, k := UpdateOfficial(s, o, allowed), FindOfficial(s.officials, o.language);
      if HeldByCustom(s, o.aliases) || k < 0 || (exists x :: x in s.officials && x.image == o.image) || !allowed then t == s
      else
        && t.customs == s.customs && o in t.officials
        && (forall j :: 0 <= j < |s.officials| && j != k && !SameFold(s.officials[j].flavor, o.flavor) ==> s.officials[j] in t.officials)
        && (forall x :: x in t.officials && x != o ==>
              exists j :: 0 <= j < |s.officials| && j != k && s.officials[j] == x && !SameFold(x.flavor, o.flavor))
  {
    ConflictIsHeld(s, o.aliases);
    ImageIsThere(s.officials, o.image);
    var k := FindOfficial(s.officials, o.language);
    var rest := RemoveAt(s.officials, k);
    UpsertOfficialMembers(rest, o);
    hide ConflictFree, CustomProviders, UpsertOfficial, SameFold, HasImage, HeldByCustom, FindOfficial;
    var t := UpdateOfficial(s, o, allowed);
    if k >= 0 && t == s.(officials := UpsertOfficial(rest, o)) {
      forall j | 0 <= j < |s.officials| && j != k && !SameFold(s.officials[j].flavor, o.flavor) ensures s.officials[j] in t.officials {
        assert rest[if j < k then j else j - 1] == s.officials[j];
      }
      forall x | x in t.officials && x != o
        ensures exists j :: 0 <= j < |s.officials| && j != k && s.officials[j] == x && !SameFold(x.flavor, o.flavor)
      {
        var i :| 0 <= i < |rest| && rest[i] == x;
        assert s.officials[if i < k then i else i + 1] == x;
      }
    }
  }

  // ----- the loops of the source -----

  method FindInstalledCustomSLC(installed: seq<Custom>, alias: string) returns (idx: int)
    ensures idx == FindCustom(installed, alias)
  {
    hide NormalizeAlias;
    var needle := NormalizeAlias(alias);
    for i := 0 to |installed|
      invariant FindCustomFrom(installed, alias, 0) == FindCustomFrom(installed, alias, i)
    {
      if NormalizeAlias(installed[i].alias) == needle {
        return i;
      }
    }
    return -1;
  }

  method CustomSLCProviders(customs: seq<Custom>, excludeIndex: int) returns (providers: seq<Provider>)
    ensures providers == CustomProviders(customs, excludeIndex)
  {
    providers := [];
    for i := 0 to |customs|
      invariant providers == CustomProviders(customs[..i], excludeIndex)
    {
      assert customs[..i + 1][..i] == customs[..i];
      if i == excludeIndex {
        continue;
      }
      providers := providers + [Provider(customs[i].alias, CustomAliases(customs[i]))];
    }
    assert customs[..|customs|] == customs;
  }

  /** Finds an alias of the candidate that some provider has, and its provider. */
  method FindSLCAliasConflict(candidate: seq<string>, providers: seq<Provider>) returns (conflict: string, provider: string, found: bool)
    ensures found <==> !ConflictFree(candidate, providers)
    ensures found ==> conflict in Names(candidate)
    ensures found ==> exists p :: p in providers && p.name == provider && conflict in Names(p.aliases)
  {
    hide NormalizeAlias;
    for i := 0 to |candidate|
      invariant forall p, k :: p in providers && 0 <= k < i ==> NormalizeAlias(candidate[k]) !in Names(p.aliases)
    {
      var normalized := NormalizeAlias(candidate[i]);
      for j := 0 to |providers|
        invariant forall k :: 0 <= k < j ==> normalized !in Names(providers[k].aliases)
      {
        for k := 0 to |providers[j].aliases|
          invariant forall m :: 0 <= m < k ==> NormalizeAlias(providers[j].aliases[m]) != normalized
        {
          if normalized == NormalizeAlias(providers[j].aliases[k]) {
            assert normalized in Names(candidate) && normalized in Names(providers[j].aliases);
            assert providers[j] in providers;
            return normalized, providers[j].name, true;
          }
        }
      }
    }
    forall p | p in providers ensures Names(candidate) !! Names(p.aliases) {
      forall n | n in Names(candidate) ensures n !in Names(p.aliases) {
        var k :| 0 <= k < |candidate| && NormalizeAlias(candidate[k]) == n;
      }
    }
    return "", "", false;
  }

  method UpsertInstalledCustomSLC(existing: seq<Custom>, entry: Custom) returns (updated: seq<Custom>)
    ensures updated == UpsertCustom(existing, entry)
  {
    hide NormalizeAlias;
    updated := [];
    for i := 0 to |existing|
      invariant updated == Others(existing[..i], entry.alias)
    {
      assert existing[..i + 1][..i] == existing[..i];
      if NormalizeAlias(existing[i].alias) == NormalizeAlias(entry.alias) {
        continue;
      }
      updated := updated + [existing[i]];
    }
    assert existing[..|existing|] == existing;
    updated := SortCustoms(updated + [entry]);
  }

  method UpsertInstalledSLC(existing: seq<Official>, entry: Official) returns (updated: seq<Official>)
    ensures updated == UpsertOfficial(existing, entry)
  {
    hide SameFold, SortOfficials;
    updated := [];
    for i := 0 to |existing|
      invariant updated == OtherFlavors(existing[..i], entry.flavor)
    {
      assert existing[..i + 1][..i] == existing[..i];
      if SameFold(existing[i].flavor, entry.flavor) {
        continue;
      }
      updated := updated + [existing[i]];
    }
    assert existing[..|existing|] == existing;
    updated := SortOfficials(updated + [entry]);
  }

  method FindInstalledSLC(installed: seq<Official>, alias: string) returns (idx: int)
    ensures idx == FindOfficial(installed, alias)
  {
    hide SameFold;
    var needle := TrimSpace(alias);
    for i := 0 to |installed|
      invariant FindOfficialFrom(installed, needle, 0) == FindOfficialFrom(installed, needle, i)
    {
      if SameFold(installed[i].language, needle) || SameFold(installed[i].flavor, needle) {
        return i;
      }
      for k := 0 to |installed[i].aliases|
        invariant forall j :: 0 <= j < k ==> !SameFold(installed[i].aliases[j], needle)
      {
        if SameFold(installed[i].aliases[k], needle) {
          return i;
        }
      }
    }
    return -1;
  }

  /** The installed containers as the launcher records them. `proceeds` tells whether the steps
      that can refuse (confirmation, download, catalog, writing the state) let it go on. */
  class Installation {
    var customs: seq<Custom>
    var officials: seq<Official>

    function Now(): State
      reads this
    {
      State(customs, officials)
    }

    method StageCustomSLC(r: Request, update: bool, proceeds: bool) returns (changed: bool)
      modifies this
      ensures Now() == if proceeds then StageCustom(old(Now()), r, update) else old(Now())
      ensures Disjoint(old(Now())) ==> Disjoint(Now())
    {
      ghost var before := Now();
      var idx := FindInstalledCustomSLC(customs, r.alias);
      if !proceeds || (update && idx < 0) {
        return false;
      }
      if idx >= 0 && Unchanged(customs[idx], r) {
        return false;
      }
      var custom := CustomSLCProviders(customs, idx);
      var alias, provider, conflict := FindSLCAliasConflict(CustomAliases(NewCustom(r)), OfficialProviders(officials) + custom);
      if conflict {
        return false;
      }
      customs := UpsertInstalledCustomSLC(customs, NewCustom(r));
      if Disjoint(before) {
        StageCustomKeepsDisjoint(before, r, update);
      }
      return true;
    }

    method RemoveCustomSLCLocked(alias: string, proceeds: bool) returns (changed: bool)
      modifies this
      ensures Now() == if proceeds then RemoveCustom(old(Now()), alias) else old(Now())
      ensures Disjoint(old(Now())) ==> Disjoint(Now())
    {
      ghost var before := Now();
      var idx := FindInstalledCustomSLC(customs, alias);
      if idx < 0 || !proceeds {
        return false;
      }
      customs := customs[..idx] + customs[idx + 1..];
      if Disjoint(before) {
        RemoveCustomKeepsDisjoint(before, alias);
      }
      return true;
    }

    method InstallSLC(o: Official, allowed: bool, proceeds: bool) returns (changed: bool)
      modifies this
      ensures Now() == if proceeds then InstallOfficial(old(Now()), o, allowed) else old(Now())
      ensures Disjoint(old(Now())) ==> Disjoint(Now())
    {
      ghost var before := Now();
      var providers := CustomSLCProviders(customs, -1);
      var alias, provider, conflict := FindSLCAliasConflict(o.aliases, providers);
      if conflict || HasImage(officials, o.image) || !allowed || !proceeds {
        return false;
      }
      officials := UpsertInstalledSLC(officials, o);
      if Disjoint(before) {
        OfficialKeepsDisjoint(before, o, before.officials);
      }
      return true;
    }

    method UpdateSLC(o: Official, allowed: bool, proceeds: bool) returns (changed: bool)
      modifies this
      ensures Now() == if proceeds then UpdateOfficial(old(Now()), o, allowed) else old(Now())
      ensures Disjoint(old(Now())) ==> Disjoint(Now())
    {
      ghost var before := Now();
      var providers := CustomSLCProviders(customs, -1);
      var alias, provider, conflict := FindSLCAliasConflict(o.aliases, providers);
      if conflict {
        return false;
      }
      var index := FindInstalledSLC(officials, o.language);
      if index < 0 || HasImage(officials, o.image) || !allowed || !proceeds {
        return false;
      }
      var remaining := officials[..index] + officials[index + 1..];
      RemoveAtMembers(officials, index);
      officials := UpsertInstalledSLC(remaining, o);
      if Disjoint(before) {
        OfficialKeepsDisjoint(before, o, remaining);
      }
      return true;
    }

    method RemoveSLC(alias: string, proceeds: bool) returns (changed: bool)
      modifies this
      ensures Now() == if proceeds then RemoveOfficial(old(Now()), alias) else old(Now())
      ensures Disjoint(old(Now())) ==> Disjoint(Now())
    {
      ghost var before := Now();
      var index := FindInstalledSLC(officials, alias);
      if index < 0 || !proceeds {
        return false;
      }
      officials := officials[..index] + officials[index + 1..];
      if Disjoint(before) {
        DropOfficialKeepsDisjoint(before, alias);
      }
      return true;
    }
  }
}
