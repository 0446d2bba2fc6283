/** Activating and removing custom script language containers (internal/deploy/custom_slc.go):
    what activation does to SCRIPT_LANGUAGES and when removal undoes it. */
module CustomSlc {
  import opened Text
  import opened ScriptLanguages

  datatype Custom = Custom(alias: string, language: string, activated: bool, displacedURI: string)

  function ToLowerChar(c: char): char {
    if 'A' <= c <= 'Z' then c - 'A' + 'a' else c
  }

  function ToLower(s: string): (r: string)
    ensures |r| == |s| && forall i :: 0 <= i < |s| ==> r[i] == ToLowerChar(s[i])
  {
    seq(|s|, i requires 0 <= i < |s| => ToLowerChar(s[i]))
  }

  function CustomDir(alias: string): string {
    "custom-" + ToLower(alias)
  }

  function ActivationURI(c: Custom): string {
    BuildActivationURI(CustomDir(c.alias), c.language)
  }

  /** What validation leaves of an alias and a language: visible, no `=`, upper case. */
  predicate Usable(c: Custom) {
    NoSpace(c.alias) && '=' !in c.alias && Normalized(c.alias) && NoSpace(c.language)
  }

  // ----- activation and deactivation of one container -----

  /** The builtin that activation pushes aside, remembered once. */
  function Displaced(entries: seq<AliasEntry>, c: Custom): string {
    var existing := Lookup(entries, c.alias);
    if existing.Some? && IsBuiltinURI(existing.value.uri) && c.displacedURI == "" then existing.value.uri else c.displacedURI
  }

  function Remembering(entries: seq<AliasEntry>, c: Custom): Custom {
    c.(activated := true, displacedURI := Displaced(entries, c))
  }

  datatype Activation = Activation(entries: seq<AliasEntry>, customs: seq<Custom>)

  function ActivateAll(entries: seq<AliasEntry>, pending: seq<Custom>): (r: Activation)
    ensures |r.customs| == |pending|
  {
    if pending == [] then Activation(entries, [])
    else
      var before := ActivateAll(entries, pending[..|pending| - 1]);
      var c := pending[|pending| - 1];
      Activation(
        WithAlias(before.entries, c.alias, ActivationURI(c)),
        before.customs + [Remembering(before.entries, c)])
  }

  function Deactivated(entries: seq<AliasEntry>, c: Custom): seq<AliasEntry> {
    if c.displacedURI != "" then WithAlias(entries, c.alias, c.displacedURI) else Without(entries, c.alias)
  }

  /** One removal after the other, each through the parameter's text. */
  function RemoveAll(value: string, order: seq<Custom>): string {
    if order == [] then value
    else Serialize(Deactivated(Parse(RemoveAll(value, order[..|order| - 1])), order[|order| - 1]))
  }

  // ----- the entries while some aliases are active -----

  function Base(base: seq<AliasEntry>, active: map<string, string>): (r: seq<AliasEntry>)
    ensures |r| == |base|
    ensures forall i :: 0 <= i < |base| ==> r[i] == if base[i].alias in active then AliasEntry(base[i].alias, active[base[i].alias]) else base[i]
  {
    seq(|base|, i requires 0 <= i < |base| => if base[i].alias in active then AliasEntry(base[i].alias, active[base[i].alias]) else base[i])
  }

  function Tail(added: seq<string>, active: map<string, string>): seq<AliasEntry> {
    if added == [] then []
    else
      var last := added[|added| - 1];
      Tail(added[..|added| - 1], active) + if last in active then [AliasEntry(last, active[last])] else []
  }

  /** The original entries with the active aliases redirected in place, then the active aliases
      that were not there before, in the order in which they came. */
  function View(base: seq<AliasEntry>, added: seq<string>, active: map<string, string>): seq<AliasEntry> {
    Base(base, active) + Tail(added, active)
  }

  predicate Distinct(names: seq<string>) {
    forall i, j :: 0 <= i < j < |names| ==> names[i] != names[j]
  }

  ghost predicate ViewWf(base: seq<AliasEntry>, added: seq<string>) {
    && UniqueAliases(base) && Distinct(added)
    && (forall i :: 0 <= i < |added| ==> !Has(base, added[i]))
  }

  lemma {:induction false} TailHas(added: seq<string>, active: map<string, string>, x: string)
    ensures Has(Tail(added, active), x) <==> x in added && x in active
  {
    if added != [] {
      var n := |added| - 1;
      TailHas(added[..n], active, x);
      var t, last := Tail(added[..n], active), added[n];
      assert added == added[..n] + [last];
      if last in active {
        HasAppended(t, AliasEntry(last, active[last]), x);
      } else {
        assert Tail(added, active) == t;
      }
    }
  }

  lemma HasAppended(entries: seq<AliasEntry>, e: AliasEntry, x: string)
    ensures Has(entries + [e], x) <==> Has(entries, x) || e.alias == x
  {
    assert (entries + [e])[|entries|] == e;
    forall i | 0 <= i < |entries| ensures (entries + [e])[i] == entries[i] {
    }
    if Has(entries, x) {
      var i :| 0 <= i < |entries| && entries[i].alias == x;
      assert (entries + [e])[i].alias == x;
    }
  }

  lemma HasInEither(a: seq<AliasEntry>, b: seq<AliasEntry>, x: string)
    ensures Has(a + b, x) <==> Has(a, x) || Has(b, x)
  {
    if Has(a, x) {
      var i :| 0 <= i < |a| && a[i].alias == x;
      assert (a + b)[i].alias == x;
    }
    if Has(b, x) {
      var i :| 0 <= i < |b| && b[i].alias == x;
      assert (a + b)[|a| + i].alias == x;
    }
  }

  lemma BaseHas(base: seq<AliasEntry>, active: map<string, string>, x: string)
    ensures Has(Base(base, active), x) <==> Has(base, x)
  {
    assert forall i :: 0 <= i < |base| ==> Base(base, active)[i].alias == base[i].alias;
  }

  lemma {:induction false} TailRedirected(added: seq<string>, active: map<string, string>, x: string, u: string)
    requires x !in added
    ensures Tail(added, active[x := u]) == Tail(added, active)
    ensures Tail(added, active - {x}) == Tail(added, active)
  {
    if added != [] {
      TailRedirected(added[..|added| - 1], active, x, u);
    }
  }

  lemma RedirectedParts(a: seq<AliasEntry>, b: seq<AliasEntry>, x: string, u: string)
    requires !Has(b, x)
    ensures Redirected(a + b, x, u) == Redirected(a, x, u) + b
  {
  }

  /** Redirecting an alias of the original entries: activation and its undoing. */
  lemma RedirectInView(base: seq<AliasEntry>, added: seq<string>, active: map<string, string>, x: string, u: string)
    requires ViewWf(base, added) && Has(base, x) && Normalized(x)
    ensures WithAlias(View(base, added, active), x, u) == View(base, added, active[x := u])
  {
    assert x !in added;
    TailHas(added, active, x);
    BaseHas(base, active, x);
    HasInEither(Base(base, active), Tail(added, active), x);
    RedirectedParts(Base(base, active), Tail(added, active), x, u);
    TailRedirected(added, active, x, u);
    assert Redirected(Base(base, active), x, u) == Base(base, active[x := u]);
  }

  lemma RestoreInView(base: seq<AliasEntry>, added: seq<string>, active: map<string, string>, x: string, i: nat)
    requires ViewWf(base, added) && i < |base| && base[i].alias == x && Normalized(x)
    ensures WithAlias(View(base, added, active), x, base[i].uri) == View(base, added, active - {x})
  {
    assert Has(base, x);
    RedirectInView(base, added, active, x, base[i].uri);
    TailRedirected(added, active, x, base[i].uri);
    var restored := active[x := base[i].uri];
    forall j | 0 <= j < |base| ensures Base(base, restored)[j] == Base(base, active - {x})[j] {
    }
    assert Base(base, restored) == Base(base, active - {x});
  }

  /** A new alias comes at the end. */
  lemma AppendInView(base: seq<AliasEntry>, added: seq<string>, active: map<string, string>, x: string, u: string)
    requires ViewWf(base, added) && !Has(base, x) && x !in added && Normalized(x)
    ensures WithAlias(View(base, added, active), x, u) == View(base, added + [x], active[x := u])
    ensures ViewWf(base, added + [x])
  {
    TailHas(added, active, x);
    BaseHas(base, active, x);
    HasInEither(Base(base, active), Tail(added, active), x);
    TailRedirected(added, active, x, u);
    assert (added + [x])[..|added|] == added;
    assert Base(base, active[x := u]) == Base(base, active) by {
      forall i | 0 <= i < |base| ensures base[i].alias != x {
      }
    }
  }

  lemma {:induction false} WithoutAbsent(entries: seq<AliasEntry>, x: string)
    requires !Has(entries, x) && Normalized(x)
    ensures Without(entries, x) == entries
  {
    if entries != [] {
      var n := |entries| - 1;
      assert entries[n].alias != x;
      assert !Has(entries[..n], x) by {
        assert forall i :: 0 <= i < n ==> entries[..n][i] == entries[i];
      }
      WithoutAbsent(entries[..n], x);
      assert entries == entries[..n] + [entries[n]];
    }
  }

  lemma {:induction false} WithoutParts(a: seq<AliasEntry>, b: seq<AliasEntry>, x: string)
    ensures Without(a + b, x) == Without(a, x) + Without(b, x)
  {
    if b == [] {
      assert a + b == a;
    } else {
      assert (a + b)[..|a + b| - 1] == a + b[..|b| - 1];
      WithoutParts(a, b[..|b| - 1], x);
    }
  }

  lemma WithoutOne(e: AliasEntry, x: string)
    requires Normalized(x)
    ensures Without([e], x) == if e.alias == x then [] else [e]
  {
    assert [e][..0] == [];
  }

  lemma {:induction false} TailWithout(added: seq<string>, active: map<string, string>, x: string)
    requires Normalized(x)
    ensures Without(Tail(added, active), x) == Tail(added, active - {x})
  {
    hide Without, Normalized;
    if added == [] {
      NoTail(active, x);
    } else {
      var n := |added| - 1;
      var last := added[n];
      TailWithout(added[..n], active, x);
      if last in active {
        var e := AliasEntry(last, active[last]);
        WithoutParts(Tail(added[..n], active), [e], x);
        WithoutOne(e, x);
      } else {
        assert Tail(added, active) == Tail(added[..n], active);
      }
    }
  }

  lemma NoTail(active: map<string, string>, x: string)
    ensures Without(Tail([], active), x) == []
  {
  }

  lemma DropInView(base: seq<AliasEntry>, added: seq<string>, active: map<string, string>, x: string)
    requires ViewWf(base, added) && !Has(base, x) && Normalized(x)
    ensures Without(View(base, added, active), x) == View(base, added, active - {x})
  {
    hide Without, Tail;
    BaseHas(base, active, x);
    WithoutParts(Base(base, active), Tail(added, active), x);
    WithoutAbsent(Base(base, active), x);
    TailWithout(added, active, x);
    assert Base(base, active - {x}) == Base(base, active) by {
      forall i | 0 <= i < |base| ensures base[i].alias != x {
      }
    }
  }

  lemma {:induction false} TailInactive(added: seq<string>)
    ensures Tail(added, map[]) == []
  {
    if added != [] {
      TailInactive(added[..|added| - 1]);
    }
  }

  /** With nothing active the entries are the original ones. */
  lemma ViewInactive(base: seq<AliasEntry>, added: seq<string>)
    ensures View(base, added, map[]) == base
  {
    TailInactive(added);
    assert Base(base, map[]) == base;
  }

  // ----- activation, as seen through the view -----

  /** The aliases of the batch that the original entries do not have, in order. */
  function AddedBy(base: seq<AliasEntry>, pending: seq<Custom>): seq<string> {
    if pending == [] then []
    else
      var x := pending[|pending| - 1].alias;
      AddedBy(base, pending[..|pending| - 1]) + if Has(base, x) then [] else [x]
  }

  function ActiveBy(pending: seq<Custom>): map<string, string> {
    if pending == [] then map[]
    else ActiveBy(pending[..|pending| - 1])[pending[|pending| - 1].alias := ActivationURI(pending[|pending| - 1])]
  }

  /** A batch as it is installed: usable, pairwise different aliases, nothing displaced yet. */
  ghost predicate Batch(pending: seq<Custom>) {
    && (forall i :: 0 <= i < |pending| ==> Usable(pending[i]) && pending[i].displacedURI == "")
    && (forall i, j :: 0 <= i < j < |pending| ==> pending[i].alias != pending[j].alias)
  }

  lemma BatchPrefix(pending: seq<Custom>, n: nat)
    requires Batch(pending) && n <= |pending|
    ensures Batch(pending[..n])
    ensures forall i :: n <= i < |pending| ==> !(exists j :: 0 <= j < n && pending[..n][j].alias == pending[i].alias)
  {
  }

  lemma {:induction false} AddedAndActive(base: seq<AliasEntry>, pending: seq<Custom>, x: string)
    ensures x in ActiveBy(pending) <==> exists i :: 0 <= i < |pending| && pending[i].alias == x
    ensures x in AddedBy(base, pending) ==> x in ActiveBy(pending)
  {
    if pending != [] {
      var n := |pending| - 1;
      AddedAndActive(base, pending[..n], x);
      if exists i :: 0 <= i < n && pending[..n][i].alias == x {
        var i :| 0 <= i < n && pending[..n][i].alias == x;
        assert pending[i].alias == x;
      }
      if i :| 0 <= i < |pending| && pending[i].alias == x {
        assert i < n ==> pending[..n][i].alias == x;
      }
    }
  }

  /** What an alias that is not active resolves to is what it resolved to originally. */
  lemma LookupInView(base: seq<AliasEntry>, added: seq<string>, active: map<string, string>, x: string)
    requires Normalized(x) && x !in active
    ensures Lookup(View(base, added, active), x) == Lookup(base, x)
  {
    TailHas(added, active, x);
    LookupInParts(Base(base, active), Tail(added, active), x);
    LookupPointwise(base, Base(base, active), x);
  }

  lemma {:induction false} LookupInParts(a: seq<AliasEntry>, b: seq<AliasEntry>, x: string)
    requires !Has(b, NormalizeAlias(x))
    ensures Lookup(a + b, x) == Lookup(a, x)
  {
    if a == [] {
      assert a + b == b;
    } else {
      assert (a + b)[1..] == a[1..] + b;
      LookupInParts(a[1..], b, x);
    }
  }

  lemma {:induction false} LookupPointwise(a: seq<AliasEntry>, b: seq<AliasEntry>, x: string)
    requires |a| == |b|
    requires forall i :: 0 <= i < |a| ==> a[i].alias == b[i].alias && (a[i].alias == NormalizeAlias(x) ==> a[i] == b[i])
    ensures Lookup(a, x) == Lookup(b, x)
  {
    if a != [] {
      LookupPointwise(a[1..], b[1..], x);
    }
  }

  lemma RememberingAgrees(a: seq<AliasEntry>, b: seq<AliasEntry>, c: Custom)
    requires Lookup(a, c.alias) == Lookup(b, c.alias)
    ensures Remembering(a, c) == Remembering(b, c)
  {
  }

  lemma UsableIsNormalized(c: Custom)
    requires Usable(c)
    ensures Normalized(c.alias)
  {
  }

  lemma ActivateOneInView(base: seq<AliasEntry>, before: seq<Custom>, c: Custom)
    requires ViewWf(base, AddedBy(base, before)) && Usable(c) && c.alias !in ActiveBy(before)
    ensures var view := View(base, AddedBy(base, before), ActiveBy(before));
            && ViewWf(base, AddedBy(base, before + [c]))
            && WithAlias(view, c.alias, ActivationURI(c)) == View(base, AddedBy(base, before + [c]), ActiveBy(before + [c]))
            && Remembering(view, c) == Remembering(base, c)
  {
    UsableIsNormalized(c);
    AddedAndActive(base, before, c.alias);
    var added, active := AddedBy(base, before), ActiveBy(before);
    hide Usable, Remembering, ActivationURI, View, Normalized, ViewWf;
    assert (before + [c])[..|before|] == before;
    LookupInView(base, added, active, c.alias);
    RememberingAgrees(View(base, added, active), base, c);
    if Has(base, c.alias) {
      RedirectInView(base, added, active, c.alias, ActivationURI(c));
      assert added + [] == added;
    } else {
      AppendInView(base, added, active, c.alias, ActivationURI(c));
    }
  }

  /** Activating a batch redirects or appends each alias once, and remembers exactly the
      builtin that each alias resolved to originally. */
  lemma {:induction false} ActivateAllInView(base: seq<AliasEntry>, pending: seq<Custom>)
    requires UniqueAliases(base) && Batch(pending)
    ensures ViewWf(base, AddedBy(base, pending))
    ensures ActivateAll(base, pending).entries == View(base, AddedBy(base, pending), ActiveBy(pending))
    ensures forall i :: 0 <= i < |pending| ==> ActivateAll(base, pending).customs[i] == Remembering(base, pending[i])
  {
    hide Usable, Remembering, ActivationURI, ViewWf, Batch, WithAlias, ActiveBy;
    if pending == [] {
      NothingActive(base);
    } else {
      hide View, AddedBy;
      var n := |pending| - 1;
      var before, c := pending[..n], pending[n];
      BatchPrefix(pending, n);
      BatchMember(pending, n);
      NotYetActive(base, pending, n);
      ActivateAllInView(base, before);
      ActivateOneInView(base, before, c);
      assert before + [c] == pending;
      var done := ActivateAll(base, pending).customs;
      assert done == ActivateAll(base, before).customs + [Remembering(base, c)];
      forall i | 0 <= i < |pending| ensures done[i] == Remembering(base, pending[i]) {
        assert i < n ==> before[i] == pending[i];
      }
    }
  }

  lemma NothingActive(base: seq<AliasEntry>)
    requires UniqueAliases(base)
    ensures ViewWf(base, []) && View(base, [], ActiveBy([])) == base
  {
    ViewInactive(base, []);
  }

  lemma NotYetActive(base: seq<AliasEntry>, pending: seq<Custom>, n: nat)
    requires Batch(pending) && n < |pending|
    ensures pending[n].alias !in ActiveBy(pending[..n])
  {
    BatchPrefix(pending, n);
    AddedAndActive(base, pending[..n], pending[n].alias);
  }

  lemma BatchMember(pending: seq<Custom>, j: nat)
    requires Batch(pending) && j < |pending|
    ensures Usable(pending[j]) && pending[j].displacedURI == ""
  {
  }

  // ----- removal undoes activation -----

  /** The alias is free, or resolves to a builtin that can be remembered. */
  ghost predicate Restorable(base: seq<AliasEntry>, alias: string) {
    var existing := Lookup(base, alias);
    existing.None? || (IsBuiltinURI(existing.value.uri) && existing.value.uri != "")
  }

  lemma DeactivateInView(base: seq<AliasEntry>, added: seq<string>, active: map<string, string>, c: Custom)
    requires ViewWf(base, added) && Usable(c) && Restorable(base, c.alias)
    requires c.displacedURI == Displaced(base, c.(displacedURI := ""))
    ensures Deactivated(View(base, added, active), c) == View(base, added, active - {c.alias})
  {
    var existing := Lookup(base, c.alias);
    if existing.Some? {
      var i :| 0 <= i < |base| && base[i] == existing.value;
      RestoreInView(base, added, active, c.alias, i);
    } else {
      DropInView(base, added, active, c.alias);
    }
  }

  lemma {:induction false} TailCanonical(added: seq<string>, active: map<string, string>)
    requires forall x :: x in active ==> Canonical(AliasEntry(x, active[x]))
    ensures AllCanonical(Tail(added, active))
  {
    if added != [] {
      TailCanonical(added[..|added| - 1], active);
    }
  }

  lemma ViewCanonical(base: seq<AliasEntry>, added: seq<string>, active: map<string, string>)
    requires AllCanonical(base)
    requires forall x :: x in active ==> Canonical(AliasEntry(x, active[x]))
    ensures AllCanonical(View(base, added, active))
  {
    TailCanonical(added, active);
  }

  lemma {:induction false} ActiveCanonical(pending: seq<Custom>)
    requires Batch(pending)
    ensures forall x :: x in ActiveBy(pending) ==> Canonical(AliasEntry(x, ActiveBy(pending)[x]))
  {
    if pending != [] {
      var n := |pending| - 1;
      BatchPrefix(pending, n);
      ActiveCanonical(pending[..n]);
      var c := pending[n];
      LowerIsVisible(c.alias);
      ActivationURIHasScheme(CustomDir(c.alias), c.language);
    }
  }

  lemma LowerIsVisible(alias: string)
    requires NoSpace(alias)
    ensures NoSpace(CustomDir(alias))
  {
  }

  function AliasSet(order: seq<Custom>): set<string> {
    set i | 0 <= i < |order| :: order[i].alias
  }

  /** Removing any of the batch, in any order and through the text, leaves the view with the
      others active. */
  lemma {:induction false} RemoveAllInView(base: seq<AliasEntry>, added: seq<string>, active: map<string, string>, order: seq<Custom>)
    requires ViewWf(base, added) && AllCanonical(base)
    requires forall x :: x in active ==> Canonical(AliasEntry(x, active[x]))
    requires forall i :: 0 <= i < |order| ==>
      Usable(order[i]) && Restorable(base, order[i].alias) && order[i].displacedURI == Displaced(base, order[i].(displacedURI := ""))
    ensures Parse(RemoveAll(Serialize(View(base, added, active)), order)) == View(base, added, active - AliasSet(order))
  {
    hide Parse, Serialize, Canonical, Restorable, Usable, Displaced;
    if order == [] {
      ViewCanonical(base, added, active);
      ParseOfSerialize(View(base, added, active));
      assert active - AliasSet(order) == active;
    } else {
      var n := |order| - 1;
      RemoveAllInView(base, added, active, order[..n]);
      var left := active - AliasSet(order[..n]);
      DeactivateInView(base, added, left, order[n]);
      assert AliasSet(order) == AliasSet(order[..n]) + {order[n].alias} by { AliasSetOneMore(order, n); }
      assert left - {order[n].alias} == active - AliasSet(order);
      ViewCanonical(base, added, active - AliasSet(order));
      ParseOfSerialize(View(base, added, active - AliasSet(order)));
    }
  }

  lemma AliasSetOneMore(order: seq<Custom>, n: nat)
    requires |order| == n + 1
    ensures AliasSet(order) == AliasSet(order[..n]) + {order[n].alias}
  {
    forall x | x in AliasSet(order) ensures x in AliasSet(order[..n]) + {order[n].alias} {
      var i :| 0 <= i < |order| && order[i].alias == x;
      if i < n {
        assert order[..n][i].alias == x;
      }
    }
    forall x | x in AliasSet(order[..n]) ensures x in AliasSet(order) {
      var i :| 0 <= i < n && order[..n][i].alias == x;
      assert order[i].alias == x;
    }
  }

  // ----- other aliases -----

  lemma {:induction false} LookupAfterWithout(entries: seq<AliasEntry>, alias: string, x: string)
    requires NormalizeAlias(alias) != NormalizeAlias(x)
    ensures Lookup(Without(entries, alias), x) == Lookup(entries, x)
  {
    hide NormalizeAlias;
    if entries != [] {
      var n := |entries| - 1;
      LookupAfterWithout(entries[..n], alias, x);
      assert entries == entries[..n] + [entries[n]];
      LookupAppended(entries[..n], entries[n], x);
      LookupAppended(Without(entries[..n], alias), entries[n], x);
      assert Without(entries[..n], alias) + [] == Without(entries[..n], alias);
    }
  }

  lemma {:induction false} LookupAppended(entries: seq<AliasEntry>, e: AliasEntry, x: string)
    ensures Lookup(entries + [e], x) ==
            if Lookup(entries, x).Some? then Lookup(entries, x) else if e.alias == NormalizeAlias(x) then Some(e) else None
  {
    hide NormalizeAlias;
    if entries == [] {
      assert entries + [e] == [e] && [e][1..] == [];
    } else {
      assert (entries + [e])[1..] == entries[1..] + [e];
      LookupAppended(entries[1..], e, x);
    }
  }

  lemma LookupAfterWithAlias(entries: seq<AliasEntry>, alias: string, uri: string, x: string)
    requires NormalizeAlias(alias) != NormalizeAlias(x)
    ensures Lookup(WithAlias(entries, alias, uri), x) == Lookup(entries, x)
  {
    var n := NormalizeAlias(alias);
    if Has(entries, n) {
      LookupPointwise(entries, Redirected(entries, n, uri), x);
    } else {
      LookupAppended(entries, AliasEntry(n, uri), x);
    }
  }

  lemma DeactivatedIsCanonical(entries: seq<AliasEntry>, c: Custom)
    requires AllCanonical(entries) && Usable(c) && NoSpace(c.displacedURI)
    ensures AllCanonical(Deactivated(entries, c))
  {
    if c.displacedURI == "" {
      WithoutIsCanonical(entries, c.alias);
    }
  }

  lemma {:induction false} WithoutIsCanonical(entries: seq<AliasEntry>, alias: string)
    requires AllCanonical(entries)
    ensures AllCanonical(Without(entries, alias)) && !Has(Without(entries, alias), NormalizeAlias(alias))
  {
    if entries != [] {
      var n := |entries| - 1;
      WithoutIsCanonical(entries[..n], alias);
      HasAppended(Without(entries[..n], alias), entries[n], NormalizeAlias(alias));
      assert Without(entries[..n], alias) + [] == Without(entries[..n], alias);
    }
  }

  /** Containers as activation leaves them: usable, with a visible builtin remembered or none. */
  ghost predicate Removable(order: seq<Custom>) {
    forall i :: 0 <= i < |order| ==> Usable(order[i]) && NoSpace(order[i].displacedURI)
  }

  lemma RemoveOneMore(value: string, order: seq<Custom>)
    requires order != [] && Removable(order)
    ensures Parse(RemoveAll(value, order)) == Deactivated(Parse(RemoveAll(value, order[..|order| - 1])), order[|order| - 1])
  {
    hide Parse, Serialize, Deactivated;
    var before := Parse(RemoveAll(value, order[..|order| - 1]));
    ParseIsCanonical(RemoveAll(value, order[..|order| - 1]));
    DeactivatedIsCanonical(before, order[|order| - 1]);
    ParseOfSerialize(Deactivated(before, order[|order| - 1]));
  }

  /** Removals, in any number and order, never change what another alias resolves to. */
  lemma {:induction false} RemovalKeepsOthers(value: string, order: seq<Custom>, x: string)
    requires Removable(order) && Normalized(x)
    requires forall i :: 0 <= i < |order| ==> order[i].alias != x
    ensures Lookup(Parse(RemoveAll(value, order)), x) == Lookup(Parse(value), x)
  {
    hide Parse, Serialize, RemoveAll, Lookup;
    if order == [] {
      assert RemoveAll(value, order) == value by { RemoveNone(value); }
    } else {
      var n := |order| - 1;
      RemovalKeepsOthers(value, order[..n], x);
      RemoveOneMore(value, order);
      var before := Parse(RemoveAll(value, order[..n]));
      assert Usable(order[n]);
      LookupAfterWithout(before, order[n].alias, x);
      LookupAfterWithAlias(before, order[n].alias, order[n].displacedURI, x);
    }
  }

  /** Neither does activation, whatever the batch. */
  lemma {:induction false} ActivationKeepsOthers(entries: seq<AliasEntry>, pending: seq<Custom>, x: string)
    requires forall i :: 0 <= i < |pending| ==> NormalizeAlias(pending[i].alias) != NormalizeAlias(x)
    ensures Lookup(ActivateAll(entries, pending).entries, x) == Lookup(entries, x)
  {
    hide Lookup, WithAlias, NormalizeAlias;
    if pending != [] {
      var n := |pending| - 1;
      ActivationKeepsOthers(entries, pending[..n], x);
      LookupAfterWithAlias(ActivateAll(entries, pending[..n]).entries, pending[n].alias, ActivationURI(pending[n]), x);
    }
  }

  lemma RemoveNone(value: string)
    ensures RemoveAll(value, []) == value
  {
  }

  /** An alias removed without a builtin to go back to stays away. */
  lemma {:induction false} RemovedStaysAway(value: string, order: seq<Custom>, k: nat)
    requires Removable(order) && k < |order| && order[k].displacedURI == ""
    requires forall i :: k < i < |order| ==> order[i].alias != order[k].alias
    ensures !Has(Parse(RemoveAll(value, order)), order[k].alias)
  {
    hide Parse, Serialize, RemoveAll;
    var n := |order| - 1;
    var x := order[k].alias;
    RemoveOneMore(value, order);
    var before := Parse(RemoveAll(value, order[..n]));
    ParseIsCanonical(RemoveAll(value, order[..n]));
    assert Usable(order[k]) && Usable(order[n]);
    if k == n {
      WithoutIsCanonical(before, x);
    } else {
      assert order[..n][k] == order[k];
      RemovedStaysAway(value, order[..n], k);
      WithoutAddsNothing(before, order[n].alias, x);
      HasAppended(before, AliasEntry(order[n].alias, order[n].displacedURI), x);
    }
  }

  lemma {:induction false} WithoutAddsNothing(entries: seq<AliasEntry>, alias: string, x: string)
    requires !Has(entries, x)
    ensures !Has(Without(entries, alias), x)
  {
    if entries != [] {
      var n := |entries| - 1;
      assert !Has(entries[..n], x) by {
        assert forall i :: 0 <= i < n ==> entries[..n][i] == entries[i];
      }
      WithoutAddsNothing(entries[..n], alias, x);
      HasAppended(Without(entries[..n], alias), entries[n], x);
      assert entries[n].alias != x;
      assert Without(entries[..n], alias) + [] == Without(entries[..n], alias);
    }
  }

  // ----- the main result -----

  /** The container is one of the batch, with what activation remembered. */
  ghost predicate FromBatch(base: seq<AliasEntry>, pending: seq<Custom>, c: Custom) {
    exists j :: 0 <= j < |pending| && c == Remembering(base, pending[j])
  }

  lemma ActivatedCustoms(base: seq<AliasEntry>, pending: seq<Custom>, order: seq<Custom>)
    requires UniqueAliases(base) && Batch(pending)
    requires multiset(order) == multiset(ActivateAll(base, pending).customs)
    ensures forall i :: 0 <= i < |order| ==> FromBatch(base, pending, order[i])
    ensures forall j :: 0 <= j < |pending| ==> Remembering(base, pending[j]) in order
  {
    ActivateAllInView(base, pending);
    hide ActivateAll, View, ViewWf, Remembering, Batch, UniqueAliases;
    var customs := ActivateAll(base, pending).customs;
    forall i | 0 <= i < |order| ensures FromBatch(base, pending, order[i]) {
      MemberOfBoth(order, customs, order[i]);
      var j :| 0 <= j < |customs| && customs[j] == order[i];
      assert order[i] == Remembering(base, pending[j]);
    }
    forall j | 0 <= j < |pending| ensures Remembering(base, pending[j]) in order {
      assert customs[j] in customs;
      MemberOfBoth(customs, order, customs[j]);
    }
  }

  lemma BatchIsRemovable(base: seq<AliasEntry>, pending: seq<Custom>, order: seq<Custom>)
    requires AllCanonical(base) && Batch(pending)
    requires forall i :: 0 <= i < |order| ==> FromBatch(base, pending, order[i])
    ensures Removable(order)
  {
    hide Remembering, Batch, AllCanonical, Usable;
    forall i | 0 <= i < |order| ensures Usable(order[i]) && NoSpace(order[i].displacedURI) {
      var j :| 0 <= j < |pending| && order[i] == Remembering(base, pending[j]);
      BatchMember(pending, j);
      DisplacedIsVisible(base, pending[j]);
    }
  }

  lemma MemberOfBoth(a: seq<Custom>, b: seq<Custom>, c: Custom)
    requires multiset(a) == multiset(b) && c in a
    ensures c in b
  {
    assert c in multiset(a);
  }

  lemma DisplacedIsVisible(base: seq<AliasEntry>, c: Custom)
    requires AllCanonical(base) && Usable(c) && c.displacedURI == ""
    ensures NoSpace(Remembering(base, c).displacedURI) && Usable(Remembering(base, c))
    ensures Remembering(base, c).displacedURI == "" <==> !Restorable(base, c.alias) || Lookup(base, c.alias).None?
  {
    var existing := Lookup(base, c.alias);
    if existing.Some? {
      var i :| 0 <= i < |base| && base[i] == existing.value;
      assert Canonical(base[i]);
    }
  }

  lemma RestoredWhenRestorable(value: string, pending: seq<Custom>, order: seq<Custom>)
    requires UniqueAliases(Parse(value)) && Batch(pending)
    requires multiset(order) == multiset(ActivateAll(Parse(value), pending).customs)
    requires forall i :: 0 <= i < |pending| ==> Restorable(Parse(value), pending[i].alias)
    ensures Parse(RemoveAll(Serialize(ActivateAll(Parse(value), pending).entries), order)) == Parse(value)
  {
    hide Parse, Serialize, Remembering, Usable, Restorable, ActivateAll, RemoveAll, Canonical, View, Batch, AllCanonical, UniqueAliases;
    var base := Parse(value);
    ParseIsCanonical(value);
    ActivateAllInView(base, pending);
    ActivatedCustoms(base, pending, order);
    ActiveCanonical(pending);
    var added, active := AddedBy(base, pending), ActiveBy(pending);
    forall i | 0 <= i < |order|
      ensures Usable(order[i]) && Restorable(base, order[i].alias) && order[i].displacedURI == Displaced(base, order[i].(displacedURI := ""))
    {
      assert FromBatch(base, pending, order[i]);
      var j :| 0 <= j < |pending| && order[i] == Remembering(base, pending[j]);
      BatchMember(pending, j);
      RememberedOnce(base, pending[j]);
    }
    RemoveAllInView(base, added, active, order);
    assert active - AliasSet(order) == map[] by {
      forall x | x in active ensures x in AliasSet(order) {
        AddedAndActive(base, pending, x);
        var j :| 0 <= j < |pending| && pending[j].alias == x;
        RememberedOnce(base, pending[j]);
        var i :| 0 <= i < |order| && order[i] == Remembering(base, pending[j]);
        assert order[i].alias == x;
      }
    }
    ViewInactive(base, added);
  }

  lemma RememberedOnce(base: seq<AliasEntry>, c: Custom)
    ensures Remembering(base, c).alias == c.alias
    ensures Usable(c) ==> Usable(Remembering(base, c))
    ensures c.displacedURI == "" ==> Remembering(base, c).displacedURI == Displaced(base, Remembering(base, c).(displacedURI := ""))
  {
  }

  lemma LostWhenNotRestorable(value: string, pending: seq<Custom>, order: seq<Custom>, j: nat)
    requires UniqueAliases(Parse(value)) && Batch(pending)
    requires multiset(order) == multiset(ActivateAll(Parse(value), pending).customs)
    requires j < |pending| && !Restorable(Parse(value), pending[j].alias)
    ensures Parse(RemoveAll(Serialize(ActivateAll(Parse(value), pending).entries), order)) != Parse(value)
  {
    hide Parse, Serialize, Remembering, Usable, RemoveAll, ActivateAll, AllCanonical;
    var base := Parse(value);
    ParseIsCanonical(value);
    ActivatedCustoms(base, pending, order);
    BatchIsRemovable(base, pending, order);
    BatchMember(pending, j);
    DisplacedIsVisible(base, pending[j]);
    var x := pending[j].alias;
    RememberedOnce(base, pending[j]);
    UsableIsNormalized(pending[j]);
    LookupMeansHas(base, x);
    var k := LastOf(order, x, Remembering(base, pending[j]));
    assert FromBatch(base, pending, order[k]);
    var i :| 0 <= i < |pending| && order[k] == Remembering(base, pending[i]);
    RememberedOnce(base, pending[i]);
    assert i == j;
    RemovedStaysAway(Serialize(ActivateAll(base, pending).entries), order, k);
  }

  lemma LookupMeansHas(base: seq<AliasEntry>, x: string)
    requires Lookup(base, x).Some? && Normalized(x)
    ensures Has(base, x)
  {
    var i :| 0 <= i < |base| && base[i] == Lookup(base, x).value;
    assert base[i].alias == x;
  }

  lemma {:induction false} LastOf(order: seq<Custom>, x: string, c: Custom) returns (k: nat)
    requires c in order && c.alias == x
    ensures k < |order| && order[k].alias == x && forall i :: k < i < |order| ==> order[i].alias != x
  {
    var n := |order| - 1;
    if order[n].alias == x {
      k := n;
    } else {
      assert c in order[..n] by {
        var i :| 0 <= i < |order| && order[i] == c;
        assert order[..n][i] == c;
      }
      k := LastOf(order[..n], x, c);
      assert forall i :: 0 <= i < n ==> order[..n][i] == order[i];
    }
  }

  /** Activating a batch and removing it again, in any order, each time through the text of the
      parameter, restores the original entries exactly when every alias of the batch was free
      or resolved to a builtin with a URI to remember. */
  lemma ActivationUndoneByRemoval(value: string, pending: seq<Custom>, order: seq<Custom>)
    requires UniqueAliases(Parse(value)) && Batch(pending)
    requires multiset(order) == multiset(ActivateAll(Parse(value), pending).customs)
    ensures Parse(RemoveAll(Serialize(ActivateAll(Parse(value), pending).entries), order)) == Parse(value)
      <==> forall i :: 0 <= i < |pending| ==> Restorable(Parse(value), pending[i].alias)
  {
    hide Parse, Serialize, Restorable, ActivateAll, RemoveAll, Batch;
    if forall i :: 0 <= i < |pending| ==> Restorable(Parse(value), pending[i].alias) {
      RestoredWhenRestorable(value, pending, order);
    } else {
      var j :| 0 <= j < |pending| && !Restorable(Parse(value), pending[j].alias);
      LostWhenNotRestorable(value, pending, order, j);
    }
  }

  // ----- the database's parameter and the recorded containers -----

  /** How the database takes an ALTER SYSTEM: it applies it, ignores it silently, or fails. */
  datatype ExecAnswer = Applied | Ignored | Refused

  predicate ResolvesTo(entries: seq<AliasEntry>, alias: string, uri: string) {
    Lookup(entries, alias).Some? && Lookup(entries, alias).value.uri == uri
  }

  function Picked(customs: seq<Custom>, pending: seq<nat>): (r: seq<Custom>)
    requires forall i :: 0 <= i < |pending| ==> pending[i] < |customs|
    ensures |r| == |pending| && forall i :: 0 <= i < |pending| ==> r[i] == customs[pending[i]]
  {
    seq(|pending|, i requires 0 <= i < |pending| => customs[pending[i]])
  }

  function Placed(customs: seq<Custom>, pending: seq<nat>, done: seq<Custom>): (r: seq<Custom>)
    requires |pending| == |done| && forall i :: 0 <= i < |pending| ==> pending[i] < |customs|
    ensures |r| == |customs|
    ensures forall k :: 0 <= k < |customs| && k !in pending ==> r[k] == customs[k]
  {
    if pending == [] then customs
    else
      var n := |pending| - 1;
      assert forall k :: k !in pending ==> k !in pending[..n];
      Placed(customs, pending[..n], done[..n])[pending[n] := done[n]]
  }

  lemma SameURI(c: Custom, displaced: string)
    ensures ActivationURI(c.(displacedURI := displaced)) == ActivationURI(c)
  {
  }

  lemma StartOfActivation(customs: seq<Custom>, first: seq<AliasEntry>)
    ensures ActivateAll(first, []) == Activation(first, []) && Placed(customs, [], []) == customs
  {
  }

  lemma StepOfActivation(customs: seq<Custom>, pending: seq<nat>, first: seq<AliasEntry>, picked: seq<Custom>, i: nat)
    requires i < |pending| == |picked| && forall k :: 0 <= k < |pending| ==> pending[k] < |customs|
    ensures var before, after := ActivateAll(first, picked[..i]), ActivateAll(first, picked[..i + 1]);
      && after.entries == WithAlias(before.entries, picked[i].alias, ActivationURI(picked[i]))
      && Placed(customs, pending[..i + 1], after.customs)
           == Placed(customs, pending[..i], before.customs)[pending[i] := Remembering(before.entries, picked[i])]
  {
    hide WithAlias, Remembering, ActivationURI;
    assert picked[..i + 1][..i] == picked[..i] && pending[..i + 1][..i] == pending[..i];
    var before, after := ActivateAll(first, picked[..i]), ActivateAll(first, picked[..i + 1]);
    assert after.customs[..i] == before.customs;
  }

  /** After setting an alias it resolves to the new URI. */
  lemma {:induction false} LookupOfWithAlias(entries: seq<AliasEntry>, alias: string, uri: string)
    ensures ResolvesTo(WithAlias(entries, alias, uri), alias, uri)
  {
    hide NormalizeAlias;
    var r := WithAlias(entries, alias, uri);
    assert Has(r, NormalizeAlias(alias)) by {
      if !Has(entries, NormalizeAlias(alias)) {
        assert r[|entries|].alias == NormalizeAlias(alias);
      } else {
        var i :| 0 <= i < |entries| && entries[i].alias == NormalizeAlias(alias);
        assert r[i].alias == NormalizeAlias(alias);
      }
    }
    var e := Lookup(r, alias).value;
    var i :| 0 <= i < |r| && r[i] == e;
  }

  /** After an activation every alias of the batch resolves to its container. */
  lemma {:induction false} ActivatedResolve(entries: seq<AliasEntry>, pending: seq<Custom>, i: nat)
    requires i < |pending| && forall k :: i < k < |pending| ==> NormalizeAlias(pending[k].alias) != NormalizeAlias(pending[i].alias)
    ensures ResolvesTo(ActivateAll(entries, pending).entries, pending[i].alias, ActivationURI(pending[i]))
  {
    hide Lookup, WithAlias, NormalizeAlias;
    var n := |pending| - 1;
    if i == n {
      LookupOfWithAlias(ActivateAll(entries, pending[..n]).entries, pending[n].alias, ActivationURI(pending[n]));
    } else {
      ActivatedResolve(entries, pending[..n], i);
      LookupAfterWithAlias(ActivateAll(entries, pending[..n]).entries, pending[n].alias, ActivationURI(pending[n]), pending[i].alias);
    }
  }

  lemma {:induction false} ActivatedCanonical(entries: seq<AliasEntry>, pending: seq<Custom>)
    requires AllCanonical(entries) && forall i :: 0 <= i < |pending| ==> Usable(pending[i])
    ensures AllCanonical(ActivateAll(entries, pending).entries)
  {
    hide Usable, Canonical, WithAlias;
    if pending != [] {
      var n := |pending| - 1;
      ActivatedCanonical(entries, pending[..n]);
      SetIsCanonical(ActivateAll(entries, pending[..n]).entries, pending[n]);
    }
  }

  lemma SetIsCanonical(entries: seq<AliasEntry>, c: Custom)
    requires AllCanonical(entries) && Usable(c)
    ensures AllCanonical(WithAlias(entries, c.alias, ActivationURI(c)))
  {
    LowerIsVisible(c.alias);
    ActivationURIHasScheme(CustomDir(c.alias), c.language);
    hide ActivationURI, BuildActivationURI, CustomDir;
    assert ActivationURI(c) == BuildActivationURI(CustomDir(c.alias), c.language) by { ActivationURIIs(c); }
  }

  lemma ActivationURIIs(c: Custom)
    ensures ActivationURI(c) == BuildActivationURI(CustomDir(c.alias), c.language)
  {
  }

  /** What validation allows in an alias: nothing that has a meaning in a URI. */
  predicate PlainAlias(alias: string) {
    '/' !in alias && '?' !in alias
  }

  lemma LowerInjective(a: string, b: string)
    requires Normalized(a) && Normalized(b) && ToLower(a) == ToLower(b)
    ensures a == b
  {
    UpperStays(a);
    UpperStays(b);
    hide Normalized;
    assert |a| == |b|;
    forall i | 0 <= i < |a| ensures a[i] == b[i] {
      assert ToLower(a)[i] == ToLowerChar(a[i]) && ToLower(b)[i] == ToLowerChar(b[i]);
      assert ToUpperChar(a[i]) == a[i] && ToUpperChar(b[i]) == b[i];
    }
  }

  lemma UpperStays(a: string)
    requires Normalized(a)
    ensures forall i :: 0 <= i < |a| ==> ToUpperChar(a[i]) == a[i]
  {
    var x, y := TrimParts(a);
    assert |TrimSpace(a)| == |a|;
    assert TrimSpace(a) == a;
    assert ToUpper(a) == a;
    forall i | 0 <= i < |a| ensures ToUpperChar(a[i]) == a[i] {
      assert ToUpper(a)[i] == ToUpperChar(a[i]);
    }
  }

  lemma DirIsPlain(alias: string)
    requires PlainAlias(alias)
    ensures '/' !in CustomDir(alias) && '?' !in CustomDir(alias)
  {
    var lower := ToLower(alias);
    forall i | 0 <= i < |lower| ensures lower[i] != '/' && lower[i] != '?' {
      assert lower[i] == ToLowerChar(alias[i]) && alias[i] in alias;
    }
  }

  /** The URI of a container leads to its own directory, and tells it from every other. */
  lemma ActivationURIsDiffer(c: Custom, d: Custom)
    requires Usable(c) && Usable(d) && PlainAlias(c.alias) && PlainAlias(d.alias)
    ensures DirFromURI(ActivationURI(c)) == CustomDir(c.alias)
    ensures ActivationURI(c) == ActivationURI(d) <==> c.alias == d.alias && c.language == d.language
  {
    hide BuildActivationURI, Usable, DirFromURI, PlainAlias;
    DirIsPlain(c.alias);
    DirIsPlain(d.alias);
    DirOfActivation(CustomDir(c.alias), c.language);
    if ActivationURI(c) == ActivationURI(d) {
      ActivationURIInjective(CustomDir(c.alias), c.language, CustomDir(d.alias), d.language);
      var head := "custom-";
      assert CustomDir(c.alias)[|head|..] == ToLower(c.alias) && CustomDir(d.alias)[|head|..] == ToLower(d.alias);
      UsableIsNormalized(c);
      UsableIsNormalized(d);
      LowerInjective(c.alias, d.alias);
    }
  }

  /** A database that applies what it is sent confirms it. */
  lemma ActivationIsConfirmed(value: string, pending: seq<Custom>, i: nat)
    requires Batch(pending) && i < |pending|
    ensures ResolvesTo(Parse(Serialize(ActivateAll(Parse(value), pending).entries)), pending[i].alias, ActivationURI(pending[i]))
  {
    hide Parse, Serialize, Canonical, NormalizeAlias, ResolvesTo;
    ParseIsCanonical(value);
    ActivatedCanonical(Parse(value), pending);
    ParseOfSerialize(ActivateAll(Parse(value), pending).entries);
    ActivatedResolve(Parse(value), pending, i);
  }

  lemma DeactivationIsConfirmed(value: string, c: Custom)
    requires Usable(c) && NoSpace(c.displacedURI)
    ensures var now := Parse(Serialize(Deactivated(Parse(value), c)));
      if c.displacedURI != "" then ResolvesTo(now, c.alias, c.displacedURI) else Lookup(now, c.alias).None?
  {
    hide Parse, Serialize, Canonical, Lookup, WithAlias, Without;
    ParseIsCanonical(value);
    DeactivatedIsCanonical(Parse(value), c);
    ParseOfSerialize(Deactivated(Parse(value), c));
    if c.displacedURI != "" {
      LookupOfWithAlias(Parse(value), c.alias, c.displacedURI);
    } else {
      WithoutIsCanonical(Parse(value), c.alias);
    }
  }

  class Activations {
    var customs: seq<Custom>
    var scriptLanguages: string

    /** A value with a quote is never sent. */
    method SetScriptLanguages(entries: seq<AliasEntry>, answer: ExecAnswer) returns (ok: bool)
      modifies `scriptLanguages
      ensures ok <==> '\'' !in Serialize(entries) && answer != Refused
      ensures scriptLanguages == if ok && answer == Applied then Serialize(entries) else old(scriptLanguages)
    {
      var value := SerializeScriptLanguages(entries);
      if '\'' in value {
        return false;
      }
      if answer == Applied {
        scriptLanguages := value;
      }
      return answer != Refused;
    }

    /** Activates the pending containers and records them only if the database confirms every
        one of their aliases. */
    method ActivatePendingCustomSLCs(pending: seq<nat>, answer: ExecAnswer) returns (ok: bool)
      requires forall i :: 0 <= i < |pending| ==> pending[i] < |customs|
      requires forall i, j :: 0 <= i < j < |pending| ==> pending[i] != pending[j]
      modifies this
      ensures !ok ==> customs == old(customs)
      ensures ok ==> forall i :: 0 <= i < |pending| ==>
                ResolvesTo(Parse(scriptLanguages), old(customs)[pending[i]].alias, ActivationURI(old(customs)[pending[i]]))
      ensures ok && answer == Applied ==>
                var r := ActivateAll(Parse(old(scriptLanguages)), Picked(old(customs), pending));
                scriptLanguages == Serialize(r.entries) && customs == Placed(old(customs), pending, r.customs)
      ensures scriptLanguages == old(scriptLanguages)
           || scriptLanguages == Serialize(ActivateAll(Parse(old(scriptLanguages)), Picked(old(customs), pending)).entries)
      ensures (&& answer == Applied && Batch(Picked(old(customs), pending))
               && '\'' !in Serialize(ActivateAll(Parse(old(scriptLanguages)), Picked(old(customs), pending)).entries)) ==> ok
    {
      hide Lookup, WithAlias, Parse, Serialize, ActivationURI, ActivateAll, Placed, Picked;
      var entries := ParseScriptLanguages(scriptLanguages);
      ghost var first := entries;
      var updated := customs;
      ghost var picked := Picked(customs, pending);
      StartOfActivation(customs, first);
      assert picked[..0] == [] && pending[..0] == [];
      for i := 0 to |pending|
        invariant customs == old(customs) && scriptLanguages == old(scriptLanguages) && |updated| == |customs|
        invariant |picked| == |pending| && forall k :: 0 <= k < |pending| ==> picked[k] == customs[pending[k]]
        invariant entries == ActivateAll(first, picked[..i]).entries
        invariant updated == Placed(customs, pending[..i], ActivateAll(first, picked[..i]).customs)
      {
        var idx := pending[i];
        assert idx !in pending[..i];
        var custom := updated[idx];
        assert custom == picked[i];
        var existing, found := FindAlias(entries, custom.alias);
        if found && IsBuiltinURI(existing.uri) && custom.displacedURI == "" {
          custom := custom.(displacedURI := existing.uri);
        }
        SameURI(picked[i], custom.displacedURI);
        StepOfActivation(customs, pending, first, picked, i);
        entries := SetAlias(entries, custom.alias, ActivationURI(custom));
        custom := custom.(activated := true);
        updated := updated[idx := custom];
      }
      assert picked[..|pending|] == picked && pending[..|pending|] == pending;
      ok := SetScriptLanguages(entries, answer);
      if !ok {
        return;
      }
      var now := ParseScriptLanguages(scriptLanguages);
      for i := 0 to |pending|
        invariant customs == old(customs) && Parse(scriptLanguages) == now
        invariant answer == Applied ==> scriptLanguages == Serialize(entries)
        invariant answer != Applied ==> scriptLanguages == old(scriptLanguages)
        invariant forall k :: 0 <= k < i ==> ResolvesTo(now, customs[pending[k]].alias, ActivationURI(customs[pending[k]]))
      {
        var entry, found := FindAlias(now, customs[pending[i]].alias);
        if !found || entry.uri != ActivationURI(customs[pending[i]]) {
          if answer == Applied && Batch(picked) {
            ActivationIsConfirmed(old(scriptLanguages), picked, i);
          }
          return false;
        }
      }
      customs := updated;
    }

    /** Puts the alias back and believes it only when the database confirms it. */
    method DeactivateCustomSLC(alias: string, restoreURI: string, answer: ExecAnswer) returns (ok: bool)
      modifies `scriptLanguages
      ensures ok ==> if restoreURI != "" then ResolvesTo(Parse(scriptLanguages), alias, restoreURI)
                     else Lookup(Parse(scriptLanguages), alias).None?
      ensures ok && answer == Applied ==>
                scriptLanguages == Serialize(Deactivated(Parse(old(scriptLanguages)), Custom(alias, "", true, restoreURI)))
      ensures scriptLanguages == old(scriptLanguages)
           || scriptLanguages == Serialize(Deactivated(Parse(old(scriptLanguages)), Custom(alias, "", true, restoreURI)))
      ensures (&& answer == Applied && Usable(Custom(alias, "", true, restoreURI)) && NoSpace(restoreURI)
               && '\'' !in Serialize(Deactivated(Parse(old(scriptLanguages)), Custom(alias, "", true, restoreURI)))) ==> ok
    {
      hide Parse, Serialize, Lookup, WithAlias, Without, Usable, NoSpace;
      var entries := ParseScriptLanguages(scriptLanguages);
      var updated;
      if restoreURI != "" {
        updated := SetAlias(entries, alias, restoreURI);
      } else {
        updated := RemoveAlias(entries, alias);
      }
      ok := SetScriptLanguages(updated, answer);
      if !ok {
        return;
      }
      var confirmed := ParseScriptLanguages(scriptLanguages);
      var entry, found := FindAlias(confirmed, alias);
      if answer == Applied && Usable(Custom(alias, "", true, restoreURI)) && NoSpace(restoreURI) {
        DeactivationIsConfirmed(old(scriptLanguages), Custom(alias, "", true, restoreURI));
      }
      return if restoreURI != "" then found && entry.uri == restoreURI else !found;
    }
  }
}
