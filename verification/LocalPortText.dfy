/** The text of the host port mappings (internal/deploy/local_ports.go): `db:8563,ui:8443`, where
    port 0 and a service left out stand for a port still to be chosen. */
module LocalPortText {
  import opened Text

  const MAXIMUM_PORT: nat := 65535

  datatype Service = Service(name: string, guestPort: int, defaultHostPort: int)

  datatype Failure =
    | InvalidMapping | ConfiguredTwice | InvalidPort
    | SamePort | NoLoopback | InvalidDefault | NoUsablePort | UnknownService

  datatype Result<+T> = Ok(value: T) | Err(failure: Failure)

  /** The ports by service and the services in the order of the text. */
  datatype Mapped = Mapped(ports: map<string, nat>, order: seq<string>)

  // ----- reading -----

  function Split(s: string): (r: seq<string>)
    ensures r != []
    decreases |s|
  {
    var k := FindChar(s, 0, ',');
    if k == |s| then [s] else [s[..k]] + Split(s[k + 1..])
  }

  /** Decimal digits after an optional sign. */
  function Atoi(s: string): Option<int> {
    var signed := s != "" && (s[0] == '+' || s[0] == '-');
    var digits := if signed then s[1..] else s;
    if digits == "" || !AllDigits(digits) then None
    else
      var value: int := Value(digits);
      Some(if signed && s[0] == '-' then -value else value)
  }

  function AddEntry(m: Mapped, raw: string): Result<Mapped> {
    var entry := TrimSpace(raw);
    var k := FindChar(entry, 0, ':');
    var service := TrimSpace(entry[..k]);
    var port := if k < |entry| then TrimSpace(entry[k + 1..]) else "";
    if k == |entry| || service == "" || port == "" then Err(InvalidMapping)
    else if service in m.ports then Err(ConfiguredTwice)
    else
      match Atoi(port)
      case None => Err(InvalidPort)
      case Some(p) =>
        if 0 <= p <= MAXIMUM_PORT then Ok(Mapped(m.ports[service := p], m.order + [service])) else Err(InvalidPort)
  }

  /** Entry by entry; the first bad one decides. */
  function AddEntries(entries: seq<string>): Result<Mapped> {
    if entries == [] then Ok(Mapped(map[], []))
    else
      match AddEntries(entries[..|entries| - 1])
      case Err(e) => Err(e)
      case Ok(m) => AddEntry(m, entries[|entries| - 1])
  }

  predicate IsAutomatic(text: string) {
    text == "" || ToUpper(text) == "AUTO"
  }

  function Parse(raw: string): Result<Mapped> {
    var text := TrimSpace(raw);
    if IsAutomatic(text) then Ok(Mapped(map[], [])) else AddEntries(Split(text))
  }

  // ----- writing -----

  /** The services that have a mapping, in the order of the services. */
  function Named(services: seq<Service>, ports: map<string, nat>): (r: seq<string>)
    ensures forall s :: s in r ==> s in ports
  {
    if services == [] then []
    else
      var last := services[|services| - 1].name;
      Named(services[..|services| - 1], ports) + if last in ports then [last] else []
  }

  /** The names that are not there yet, each once. */
  function Unseen(order: seq<string>, seen: seq<string>): (r: seq<string>)
    ensures Distinct(r) && forall s :: s in r <==> s in order && s !in seen
  {
    if order == [] then []
    else
      var r := Unseen(order[..|order| - 1], seen);
      var last := order[|order| - 1];
      assert order == order[..|order| - 1] + [last];
      if last in seen + r then r else r + [last]
  }

  predicate Distinct(names: seq<string>) {
    forall i, j :: 0 <= i < j < |names| ==> names[i] != names[j]
  }

  predicate Increasing(names: seq<string>) {
    forall i, j :: 0 <= i < j < |names| ==> Less(names[i], names[j])
  }

  function InsertName(names: seq<string>, x: string): seq<string> {
    if names == [] then [x]
    else
      var n := |names| - 1;
      if Less(x, names[n]) then InsertName(names[..n], x) + [names[n]] else names + [x]
  }

  lemma {:induction false} InsertNameKeeps(names: seq<string>, x: string)
    requires Increasing(names) && x !in names
    ensures Increasing(InsertName(names, x)) && forall s :: s in InsertName(names, x) <==> s in names || s == x
  {
    hide Less;
    if names != [] {
      var n := |names| - 1;
      assert names == names[..n] + [names[n]];
      LessIsTotal(x, names[n]);
      if Less(x, names[n]) {
        InsertNameKeeps(names[..n], x);
        var r := InsertName(names[..n], x);
        forall i | 0 <= i < |r| ensures Less(r[i], names[n]) {
          assert r[i] in r;
        }
      } else {
        forall i | 0 <= i < n ensures Less(names[i], x) {
          LessIsTransitive(names[i], names[n], x);
        }
      }
    }
  }

  /** The names of a set in increasing order. */
  ghost function Sorted(names: set<string>): (r: seq<string>)
    ensures Increasing(r) && forall s :: s in r <==> s in names
  {
    if names == {} then []
    else
      var x :| x in names;
      InsertNameKeeps(Sorted(names - {x}), x);
      InsertName(Sorted(names - {x}), x)
  }

  /** There is only one such order. */
  lemma {:induction false} SortedIsUnique(a: seq<string>, b: seq<string>)
    requires Increasing(a) && Increasing(b) && forall s :: s in a <==> s in b
    ensures a == b
  {
    hide Less;
    if a == [] || b == [] {
      NoMembers(a, b);
    } else {
      var x, y := a[|a| - 1], b[|b| - 1];
      LastIsLargest(a, y);
      LastIsLargest(b, x);
      LessIsTotal(x, y);
      assert a == a[..|a| - 1] + [x] && b == b[..|b| - 1] + [y];
      LastOnce(a);
      LastOnce(b);
      var c, d := a[..|a| - 1], b[..|b| - 1];
      forall s | s in c ensures s in d {
        assert s in b;
      }
      forall s | s in d ensures s in c {
        assert s in a;
      }
      SortedIsUnique(c, d);
    }
  }

  lemma NoMembers(a: seq<string>, b: seq<string>)
    requires (a == [] || b == []) && forall s :: s in a <==> s in b
    ensures a == b
  {
    FirstIsMember(a);
    FirstIsMember(b);
  }

  lemma FirstIsMember(a: seq<string>)
    ensures a != [] ==> a[0] in a
  {
  }

  lemma LastIsLargest(a: seq<string>, x: string)
    requires Increasing(a) && a != [] && (x in a || x == a[|a| - 1])
    ensures x == a[|a| - 1] || Less(x, a[|a| - 1])
  {
    hide Less;
    assert a[|a| - 1] in a;
    var i :| 0 <= i < |a| && a[i] == x;
  }

  lemma LastOnce(a: seq<string>)
    requires Increasing(a) && a != []
    ensures a[|a| - 1] !in a[..|a| - 1]
  {
    hide Less;
    LessIsTotal(a[|a| - 1], a[|a| - 1]);
  }

  /** Services first, then the order of the text, then the rest in alphabetical order. */
  ghost function Ordered(ports: map<string, nat>, services: seq<Service>, order: seq<string>): seq<string> {
    var named := Named(services, ports);
    var known := named + Unseen(order, named);
    known + Sorted(set s | s in ports && s !in known)
  }

  function Part(name: string, port: nat): string {
    name + ":" + Itoa(port)
  }

  function Parts(ports: map<string, nat>, names: seq<string>): (r: seq<string>)
    requires forall s :: s in names ==> s in ports
    ensures |r| == |names| && forall i :: 0 <= i < |r| ==> r[i] == Part(names[i], ports[names[i]])
  {
    seq(|names|, i requires 0 <= i < |names| => Part(names[i], ports[names[i]]))
  }

  function Join(parts: seq<string>): string {
    if parts == [] then "" else if |parts| == 1 then parts[0] else parts[0] + "," + Join(parts[1..])
  }

  ghost function Format(ports: map<string, nat>, services: seq<Service>, order: seq<string>): string
    requires forall s :: s in order ==> s in ports
  {
    OrderedCovers(ports, services, order);
    Join(Parts(ports, Ordered(ports, services, order)))
  }

  lemma OrderedCovers(ports: map<string, nat>, services: seq<Service>, order: seq<string>)
    requires forall s :: s in order ==> s in ports
    ensures forall s :: s in Ordered(ports, services, order) <==> s in ports
    ensures Distinct(Ordered(ports, services, order)) <==> Distinct(Named(services, ports))
  {
    hide Less;
    var named := Named(services, ports);
    var known := named + Unseen(order, named);
    var rest := Sorted(set s | s in ports && s !in known);
    assert Distinct(rest) by { IncreasingIsDistinct(rest); }
    DistinctParts(named, Unseen(order, named));
    DistinctParts(known, rest);
  }

  lemma IncreasingIsDistinct(a: seq<string>)
    requires Increasing(a)
    ensures Distinct(a)
  {
    hide Less;
    forall i, j | 0 <= i < j < |a| ensures a[i] != a[j] {
      LessIsTotal(a[i], a[j]);
    }
  }

  lemma DistinctParts(a: seq<string>, b: seq<string>)
    requires Distinct(b) && forall s :: s in b ==> s !in a
    ensures Distinct(a + b) <==> Distinct(a)
  {
    if Distinct(a + b) {
      forall i, j | 0 <= i < j < |a| ensures a[i] != a[j] {
        assert (a + b)[i] == a[i] && (a + b)[j] == a[j];
      }
    }
    forall i, j | 0 <= i < |a| && 0 <= j < |b| ensures a[i] != b[j] {
      assert b[j] in b && a[i] in a;
    }
  }

  // ----- what reading delivers -----

  /** A name that survives the text. */
  predicate Clean(name: string) {
    name != "" && Trimmed(name) && ',' !in name && ':' !in name
  }

  ghost predicate Readable(ports: map<string, nat>) {
    forall s :: s in ports ==> Clean(s) && ports[s] <= MAXIMUM_PORT
  }

  ghost predicate WellFormed(m: Mapped) {
    Readable(m.ports) && Distinct(m.order) && forall s :: s in m.order <==> s in m.ports
  }

  lemma {:induction false} SplitHasNoComma(s: string)
    ensures forall i :: 0 <= i < |Split(s)| ==> ',' !in Split(s)[i]
    decreases |s|
  {
    var k := FindChar(s, 0, ',');
    if k < |s| {
      SplitHasNoComma(s[k + 1..]);
    }
  }

  lemma TrimKeepsOut(s: string, c: char)
    requires c !in s
    ensures c !in TrimSpace(s) && Trimmed(TrimSpace(s))
  {
    var a, b := TrimParts(s);
  }

  lemma AddEntryWellFormed(m: Mapped, raw: string)
    requires WellFormed(m) && ',' !in raw && AddEntry(m, raw).Ok?
    ensures WellFormed(AddEntry(m, raw).value)
  {
    hide Atoi, TrimSpace, Trimmed;
    TrimKeepsOut(raw, ',');
    var entry := TrimSpace(raw);
    var k := FindChar(entry, 0, ':');
    TrimKeepsOut(entry[..k], ',');
    TrimKeepsOut(entry[..k], ':');
    var service := TrimSpace(entry[..k]);
    assert Clean(service);
    OneMoreName(m.order, service);
  }

  lemma OneMoreName(order: seq<string>, name: string)
    requires Distinct(order) && name !in order
    ensures Distinct(order + [name])
  {
  }

  lemma {:induction false} AddEntriesWellFormed(entries: seq<string>)
    requires forall i :: 0 <= i < |entries| ==> ',' !in entries[i]
    requires AddEntries(entries).Ok?
    ensures WellFormed(AddEntries(entries).value)
  {
    hide AddEntry, WellFormed;
    if entries == [] {
      NothingIsWellFormed();
    } else {
      var n := |entries| - 1;
      AddEntriesWellFormed(entries[..n]);
      AddEntryWellFormed(AddEntries(entries[..n]).value, entries[n]);
    }
  }

  lemma NothingIsWellFormed()
    ensures WellFormed(Mapped(map[], []))
  {
  }

  /** Whatever is read has clean names, each once, and ports in range. */
  lemma ParseIsWellFormed(raw: string)
    requires Parse(raw).Ok?
    ensures WellFormed(Parse(raw).value)
  {
    var text := TrimSpace(raw);
    if !IsAutomatic(text) {
      SplitHasNoComma(text);
      AddEntriesWellFormed(Split(text));
    }
  }

  // ----- reading what was written -----

  lemma AtoiOfItoa(n: nat)
    ensures Atoi(Itoa(n)) == Some(n) && Trimmed(Itoa(n)) && ',' !in Itoa(n) && ':' !in Itoa(n)
  {
    ItoaValue(n);
    assert IsDigit(Itoa(n)[0]) && IsDigit(Itoa(n)[|Itoa(n)| - 1]);
  }

  /** The first colon of a text with none in front of it. */
  lemma FirstColon(left: string, right: string)
    requires ':' !in left
    ensures var s := left + ":" + right;
      FindChar(s, 0, ':') == |left| && |left| < |s| && s[..|left|] == left && s[|left| + 1..] == right
  {
    var s := left + ":" + right;
    assert s[|left|] == ':';
    assert forall i :: 0 <= i < |left| ==> s[i] == left[i];
  }

  /** Reading an entry whose name and port are known. */
  lemma AddEntryIs(m: Mapped, raw: string, left: string, right: string, service: string, port: string)
    requires TrimSpace(raw) == left + ":" + right && ':' !in left
    requires TrimSpace(left) == service != "" && TrimSpace(right) == port != ""
    ensures AddEntry(m, raw) ==
      if service in m.ports then Err(ConfiguredTwice)
      else
        match Atoi(port)
        case None => Err(InvalidPort)
        case Some(p) =>
          if 0 <= p <= MAXIMUM_PORT then Ok(Mapped(m.ports[service := p], m.order + [service])) else Err(InvalidPort)
  {
    hide TrimSpace, Atoi, FindChar;
    FirstColon(left, right);
  }

  lemma PartReads(m: Mapped, name: string, port: nat)
    requires Clean(name) && port <= MAXIMUM_PORT
    ensures Trimmed(Part(name, port)) && ',' !in Part(name, port)
    ensures AddEntry(m, Part(name, port)) ==
      if name in m.ports then Err(ConfiguredTwice) else Ok(Mapped(m.ports[name := port], m.order + [name]))
  {
    AtoiOfItoa(port);
    PartIsTrimmed(name, port);
    hide Trimmed, Atoi, Itoa, TrimSpace, AddEntry;
    TrimTrimmed(Part(name, port));
    TrimTrimmed(name);
    TrimTrimmed(Itoa(port));
    AddEntryIs(m, Part(name, port), name, Itoa(port), name, Itoa(port));
  }

  lemma PartIsTrimmed(name: string, port: nat)
    requires Clean(name)
    ensures Trimmed(Part(name, port)) && ',' !in Part(name, port)
  {
    AtoiOfItoa(port);
    hide Itoa;
    var text := Part(name, port);
    assert text[0] == name[0] && text[|text| - 1] == Itoa(port)[|Itoa(port)| - 1];
  }

  function Restricted(ports: map<string, nat>, names: seq<string>): map<string, nat>
    requires forall s :: s in names ==> s in ports
  {
    map s | s in names :: ports[s]
  }

  lemma {:induction false} PartsRead(ports: map<string, nat>, names: seq<string>)
    requires Readable(ports) && forall s :: s in names ==> s in ports
    ensures AddEntries(Parts(ports, names)) ==
      if Distinct(names) then Ok(Mapped(Restricted(ports, names), names)) else Err(ConfiguredTwice)
  {
    hide AddEntry, AddEntries, Clean, Part, Parts, Distinct, Restricted;
    if names == [] {
      NoParts(ports);
    } else {
      var n := |names| - 1;
      assert names[n] in names;
      PartsRead(ports, names[..n]);
      PartsNext(ports, names);
      PartReads(Mapped(Restricted(ports, names[..n]), names[..n]), names[n], ports[names[n]]);
      RestrictedNext(ports, names);
      DistinctSplit(names);
    }
  }

  lemma PartsNext(ports: map<string, nat>, names: seq<string>)
    requires names != [] && forall s :: s in names ==> s in ports
    ensures var n := |names| - 1;
      AddEntries(Parts(ports, names)) ==
        match AddEntries(Parts(ports, names[..n]))
        case Err(e) => Err(e)
        case Ok(m) => AddEntry(m, Part(names[n], ports[names[n]]))
  {
    hide AddEntry, Part;
    assert Parts(ports, names)[..|names| - 1] == Parts(ports, names[..|names| - 1]);
  }

  lemma RestrictedNext(ports: map<string, nat>, names: seq<string>)
    requires names != [] && forall s :: s in names ==> s in ports
    ensures var n := |names| - 1;
      && names == names[..n] + [names[n]]
      && Restricted(ports, names) == Restricted(ports, names[..n])[names[n] := ports[names[n]]]
      && forall s :: s in Restricted(ports, names[..n]) <==> s in names[..n]
  {
  }

  lemma NoParts(ports: map<string, nat>)
    ensures AddEntries(Parts(ports, [])) == Ok(Mapped(Restricted(ports, []), [])) && Distinct([])
  {
  }

  lemma DistinctSplit(names: seq<string>)
    requires names != []
    ensures Distinct(names) <==> Distinct(names[..|names| - 1]) && names[|names| - 1] !in names[..|names| - 1]
  {
    var n := |names| - 1;
    if Distinct(names[..n]) && names[n] !in names[..n] {
      forall i, j | 0 <= i < j < |names| ensures names[i] != names[j] {
        assert names[..n][i] == names[i];
        assert j < n ==> names[..n][j] == names[j];
      }
    }
  }

  lemma {:induction false} SplitOfJoin(parts: seq<string>)
    requires parts != [] && forall i :: 0 <= i < |parts| ==> ',' !in parts[i]
    ensures Split(Join(parts)) == parts
  {
    hide Split;
    if |parts| == 1 {
      SplitWord(parts[0]);
    } else {
      SplitFirst(parts[0], Join(parts[1..]));
      SplitOfJoin(parts[1..]);
    }
  }

  lemma SplitWord(w: string)
    requires ',' !in w
    ensures Split(w) == [w]
  {
    var k := FindChar(w, 0, ',');
  }

  lemma SplitFirst(w: string, rest: string)
    requires ',' !in w
    ensures Split(w + "," + rest) == [w] + Split(rest)
  {
    var s := w + "," + rest;
    assert s[|w|] == ',';
    assert forall i :: 0 <= i < |w| ==> s[i] == w[i];
    var k := FindChar(s, 0, ',');
    assert k == |w| && s[..k] == w && s[k + 1..] == rest;
  }

  lemma {:induction false} JoinEnds(parts: seq<string>)
    requires parts != [] && forall i :: 0 <= i < |parts| ==> parts[i] != "" && Trimmed(parts[i])
    ensures var s := Join(parts); s != "" && Trimmed(s) && forall c :: c in parts[0] ==> c in s
  {
    if |parts| > 1 {
      JoinEnds(parts[1..]);
      var s, rest := Join(parts), Join(parts[1..]);
      assert s == parts[0] + "," + rest;
      assert s[0] == parts[0][0] && s[|s| - 1] == rest[|rest| - 1];
    }
  }

  lemma JoinReads(ports: map<string, nat>, names: seq<string>)
    requires Readable(ports) && forall s :: s in names ==> s in ports
    ensures Parse(Join(Parts(ports, names))) ==
      if Distinct(names) then Ok(Mapped(Restricted(ports, names), names)) else Err(ConfiguredTwice)
  {
    hide Clean, AddEntry, Part, Split, Join;
    PartsRead(ports, names);
    if names == [] {
      NothingReads(ports);
    } else {
      var parts := Parts(ports, names);
      forall i | 0 <= i < |parts| ensures parts[i] != "" && Trimmed(parts[i]) && ',' !in parts[i] && ':' in parts[i] {
        assert names[i] in names;
        PartReads(Mapped(map[], []), names[i], ports[names[i]]);
        PartHasColon(names[i], ports[names[i]]);
      }
      JoinEnds(parts);
      TrimTrimmed(Join(parts));
      NotAutomatic(Join(parts));
      SplitOfJoin(parts);
    }
  }

  lemma PartHasColon(name: string, port: nat)
    ensures ':' in Part(name, port)
  {
    assert Part(name, port)[|name|] == ':';
  }

  lemma NothingReads(ports: map<string, nat>)
    ensures Parse(Join(Parts(ports, []))) == Ok(Mapped(map[], []))
  {
  }

  lemma NotAutomatic(s: string)
    requires ':' in s
    ensures !IsAutomatic(s)
  {
    var i :| 0 <= i < |s| && s[i] == ':';
    assert ToUpper(s)[i] == ':';
    assert forall k :: 0 <= k < 4 ==> "AUTO"[k] != ':';
  }

  /** Reading the written mappings gives the same mappings back exactly when every name is clean,
      every port in range and no service listed twice; the order is then that of the text. */
  lemma ParseOfFormat(ports: map<string, nat>, services: seq<Service>, order: seq<string>)
    requires forall s :: s in order ==> s in ports
    ensures var r := Parse(Format(ports, services, order));
      && ((r.Ok? && r.value.ports == ports) <==> (Readable(ports) && Distinct(Named(services, ports))))
      && (r.Ok? && r.value.ports == ports ==> r.value.order == Ordered(ports, services, order))
  {
    hide Parse, Clean, Ordered, Join, Named;
    var r := Parse(Format(ports, services, order));
    OrderedCovers(ports, services, order);
    if r.Ok? && r.value.ports == ports {
      ParseIsWellFormed(Format(ports, services, order));
    }
    if Readable(ports) {
      var names := Ordered(ports, services, order);
      JoinReads(ports, names);
      assert Restricted(ports, names) == ports;
    }
  }

  // ----- what a text means -----

  predicate SameLetter(c: char, upper: char, lower: char) {
    c == upper || c == lower
  }

  /** The four letters of auto, in any case. */
  predicate SpellsAuto(text: string) {
    && |text| == 4 && SameLetter(text[0], 'A', 'a') && SameLetter(text[1], 'U', 'u')
    && SameLetter(text[2], 'T', 't') && SameLetter(text[3], 'O', 'o')
  }

  /** A blank text, and auto in any letter case with any blanks around it, maps nothing. */
  lemma AutomaticReads(raw: string)
    requires AllSpace(raw) || SpellsAuto(TrimSpace(raw))
    ensures IsAutomatic(TrimSpace(raw)) && Parse(raw) == Ok(Mapped(map[], []))
  {
    var text := TrimSpace(raw);
    if AllSpace(raw) {
      TrimCore(raw, "", "");
      assert raw + "" + "" == raw;
    } else {
      var upper := ToUpper(text);
      assert upper[0] == 'A' && upper[1] == 'U' && upper[2] == 'T' && upper[3] == 'O';
      assert upper == "AUTO";
    }
  }

  /** And no other text is taken for one of these. */
  lemma AutomaticIs(text: string)
    ensures IsAutomatic(text) <==> text == "" || SpellsAuto(text)
  {
    if ToUpper(text) == "AUTO" {
      assert ToUpper(text)[0] == 'A' && ToUpper(text)[1] == 'U' && ToUpper(text)[2] == 'T' && ToUpper(text)[3] == 'O';
    }
    if SpellsAuto(text) {
      var upper := ToUpper(text);
      assert upper[0] == 'A' && upper[1] == 'U' && upper[2] == 'T' && upper[3] == 'O';
    }
  }

  /** An entry: a name and a decimal port, with blanks around each. */
  datatype Entry = Entry(before: string, name: string, after: string, front: string, digits: string, back: string)

  function EntryText(e: Entry): string {
    e.before + e.name + e.after + ":" + (e.front + e.digits + e.back)
  }

  predicate EntryOk(e: Entry) {
    && AllSpace(e.before) && AllSpace(e.after) && AllSpace(e.front) && AllSpace(e.back)
    && Clean(e.name) && e.digits != "" && AllDigits(e.digits)
  }

  function PortOf(e: Entry): nat
    requires EntryOk(e)
  {
    Value(e.digits)
  }

  lemma DigitsAreTrimmed(digits: string)
    requires digits != "" && AllDigits(digits)
    ensures Trimmed(digits) && ',' !in digits && ':' !in digits && Atoi(digits) == Some(Value(digits))
  {
    assert IsDigit(digits[0]) && IsDigit(digits[|digits| - 1]);
  }

  lemma SpaceHasNo(s: string)
    requires AllSpace(s)
    ensures ',' !in s && ':' !in s
  {
  }

  function Core(e: Entry): string {
    e.name + e.after + ":" + (e.front + e.digits)
  }

  lemma TrimName(name: string, after: string)
    requires Trimmed(name) && AllSpace(after)
    ensures TrimSpace(name + after) == name
  {
    hide TrimSpace, Trimmed, AllSpace;
    NoSpaceAtAll();
    TrimCore("", name, after);
    assert "" + name + after == name + after;
  }

  lemma TrimPort(front: string, digits: string)
    requires Trimmed(digits) && AllSpace(front)
    ensures TrimSpace(front + digits) == digits
  {
    hide TrimSpace, Trimmed, AllSpace;
    NoSpaceAtAll();
    TrimCore(front, digits, "");
    assert front + digits + "" == front + digits;
  }

  lemma NoSpaceAtAll()
    ensures AllSpace("")
  {
  }

  lemma CoreIsTrimmed(e: Entry)
    requires EntryOk(e)
    ensures Core(e) != "" && Trimmed(Core(e))
  {
    DigitsAreTrimmed(e.digits);
    var core := Core(e);
    assert core[0] == e.name[0] && core[|core| - 1] == e.digits[|e.digits| - 1];
  }

  lemma TrimBetween(e: Entry)
    requires EntryOk(e)
    ensures TrimSpace(e.name + e.after) == e.name && TrimSpace(e.front + e.digits) == e.digits
    ensures TrimSpace(EntryText(e)) == Core(e)
  {
    hide TrimSpace, Trimmed, AllSpace, AllDigits, Core, EntryText;
    DigitsAreTrimmed(e.digits);
    CoreIsTrimmed(e);
    TrimName(e.name, e.after);
    TrimPort(e.front, e.digits);
    TrimCore(e.before, Core(e), e.back);
    EntryAroundCore(e);
  }

  lemma EntryAroundCore(e: Entry)
    ensures e.before + Core(e) + e.back == EntryText(e)
  {
  }

  /** Reading one entry: the name must be new and the port in range. */
  lemma EntryReads(m: Mapped, e: Entry)
    requires EntryOk(e)
    ensures AddEntry(m, EntryText(e)) ==
      if e.name in m.ports then Err(ConfiguredTwice)
      else if PortOf(e) <= 65535 then Ok(Mapped(m.ports[e.name := PortOf(e)], m.order + [e.name]))
      else Err(InvalidPort)
  {
    TrimBetween(e);
    DigitsAreTrimmed(e.digits);
    SpaceHasNo(e.after);
    hide TrimSpace, Trimmed, Atoi, Value, AddEntry, EntryText, AllSpace, AllDigits;
    AddEntryIs(m, EntryText(e), e.name + e.after, e.front + e.digits, e.name, e.digits);
  }

  lemma EntryHasColon(e: Entry)
    requires EntryOk(e)
    ensures ',' !in EntryText(e) && ':' in EntryText(e) && EntryText(e) != ""
  {
    DigitsAreTrimmed(e.digits);
    SpaceHasNo(e.before);
    SpaceHasNo(e.after);
    SpaceHasNo(e.front);
    SpaceHasNo(e.back);
    var left := e.before + e.name + e.after;
    assert EntryText(e)[|left|] == ':';
  }

  function Texts(es: seq<Entry>): (r: seq<string>)
    ensures |r| == |es| && forall i :: 0 <= i < |es| ==> r[i] == EntryText(es[i])
  {
    seq(|es|, i requires 0 <= i < |es| => EntryText(es[i]))
  }

  function NamesIn(es: seq<Entry>): (r: seq<string>)
    ensures |r| == |es| && forall i :: 0 <= i < |es| ==> r[i] == es[i].name
  {
    seq(|es|, i requires 0 <= i < |es| => es[i].name)
  }

  predicate EntriesOk(es: seq<Entry>) {
    forall i :: 0 <= i < |es| ==> EntryOk(es[i])
  }

  /** Each name once and every port in range. */
  predicate Acceptable(es: seq<Entry>)
    requires EntriesOk(es)
  {
    Distinct(NamesIn(es)) && forall i :: 0 <= i < |es| ==> PortOf(es[i]) <= 65535
  }

  /** The mappings are those of the entries and no other. */
  ghost predicate Says(es: seq<Entry>, m: Mapped)
    requires EntriesOk(es)
  {
    && m.order == NamesIn(es)
    && (forall s :: s in m.ports <==> s in NamesIn(es))
    && (forall i :: 0 <= i < |es| ==> es[i].name in m.ports && m.ports[es[i].name] == PortOf(es[i]))
  }

  lemma {:induction false} EntriesRead(es: seq<Entry>)
    requires EntriesOk(es)
    ensures AddEntries(Texts(es)).Ok? <==> Acceptable(es)
    ensures Acceptable(es) ==> Says(es, AddEntries(Texts(es)).value)
  {
    hide AddEntry, AddEntries, EntryOk, EntryText, Value;
    if es == [] {
      NoEntries();
    } else {
      var n := |es| - 1;
      var before, last := es[..n], es[n];
      EntriesRead(before);
      assert Texts(es)[..n] == Texts(before) && Texts(es)[n] == EntryText(last);
      assert Texts(es)[..n + 1] == Texts(es);
      AddLast(Texts(es));
      AcceptableSplit(es);
      if AddEntries(Texts(before)).Ok? {
        EntryReads(AddEntries(Texts(before)).value, last);
        if Acceptable(es) {
          SaysNext(es, AddEntries(Texts(before)).value);
        }
      }
    }
  }

  lemma AddLast(entries: seq<string>)
    requires entries != []
    ensures AddEntries(entries) ==
      match AddEntries(entries[..|entries| - 1])
      case Err(e) => Err(e)
      case Ok(m) => AddEntry(m, entries[|entries| - 1])
  {
    hide AddEntry;
  }

  lemma AcceptableSplit(es: seq<Entry>)
    requires es != [] && EntriesOk(es)
    ensures var n := |es| - 1;
      Acceptable(es) <==> Acceptable(es[..n]) && es[n].name !in NamesIn(es[..n]) && PortOf(es[n]) <= 65535
  {
    hide EntryOk, Value;
    var n := |es| - 1;
    assert NamesIn(es)[..n] == NamesIn(es[..n]);
    DistinctSplit(NamesIn(es));
    assert forall i :: 0 <= i < n ==> es[..n][i] == es[i];
  }

  lemma SaysNext(es: seq<Entry>, m: Mapped)
    requires es != [] && EntriesOk(es) && Says(es[..|es| - 1], m) && es[|es| - 1].name !in NamesIn(es[..|es| - 1])
    ensures var last := es[|es| - 1]; Says(es, Mapped(m.ports[last.name := PortOf(last)], m.order + [last.name]))
  {
    hide EntryOk, Value;
    var n := |es| - 1;
    assert NamesIn(es) == NamesIn(es[..n]) + [es[n].name];
    forall i | 0 <= i < n ensures es[..n][i] == es[i] && es[i].name != es[n].name {
      assert NamesIn(es[..n])[i] == es[i].name;
    }
  }

  lemma {:induction false} JoinTrimmed(parts: seq<string>)
    requires parts != [] && (forall i :: 0 <= i < |parts| ==> parts[i] != "")
    requires !IsSpace(parts[|parts| - 1][|parts[|parts| - 1]| - 1])
    ensures var s := Join(parts);
      && s != "" && s[0] == parts[0][0] && !IsSpace(s[|s| - 1])
      && forall c :: c in parts[0] ==> c in s
  {
    if |parts| > 1 {
      JoinTrimmed(parts[1..]);
      var s, rest := Join(parts), Join(parts[1..]);
      assert s == parts[0] + "," + rest;
      assert s[|s| - 1] == rest[|rest| - 1];
    }
  }

  /** A text of entries with any blanks around names, ports and the whole: it is read exactly when
      no name occurs twice and every port is in range, and then maps each name to its port and
      nothing else, in the order of the text. */
  lemma ParseReads(front: string, es: seq<Entry>, back: string)
    requires AllSpace(front) && AllSpace(back) && es != [] && EntriesOk(es)
    requires es[0].before == "" && es[|es| - 1].back == ""
    ensures Parse(front + Join(Texts(es)) + back).Ok? <==> Acceptable(es)
    ensures Acceptable(es) ==> Says(es, Parse(front + Join(Texts(es)) + back).value)
  {
    var parts, n := Texts(es), |es| - 1;
    EntryFirst(es[0]);
    EntryLast(es[n]);
    hide Acceptable, Says, AddEntries, Split, Join, EntryText, Clean, AllSpace, Trimmed;
    forall i | 0 <= i < |parts| ensures parts[i] != "" && ',' !in parts[i] {
      EntryHasColon(es[i]);
    }
    EntryHasColon(es[0]);
    JoinTrimmed(parts);
    var text := Join(parts);
    VisibleEnds(text);
    TrimCore(front, text, back);
    NotAutomatic(text);
    SplitOfJoin(parts);
    EntriesRead(es);
  }

  lemma EntriesAreNoAuto(front: string, es: seq<Entry>, back: string)
    requires AllSpace(front) && AllSpace(back) && es != [] && EntriesOk(es)
    requires es[0].before == "" && es[|es| - 1].back == ""
    ensures !IsAutomatic(TrimSpace(front + Join(Texts(es)) + back))
  {
    var parts, n := Texts(es), |es| - 1;
    EntryFirst(es[0]);
    EntryLast(es[n]);
    hide Join, EntryText, Clean, AllSpace, Trimmed, IsAutomatic;
    forall i | 0 <= i < |parts| ensures parts[i] != "" {
      EntryHasColon(es[i]);
    }
    EntryHasColon(es[0]);
    JoinTrimmed(parts);
    VisibleEnds(Join(parts));
    TrimCore(front, Join(parts), back);
    NotAutomatic(Join(parts));
  }

  lemma VisibleEnds(s: string)
    requires s != "" && !IsSpace(s[0]) && !IsSpace(s[|s| - 1])
    ensures Trimmed(s)
  {
  }

  lemma EntryFirst(e: Entry)
    requires EntryOk(e) && e.before == ""
    ensures EntryText(e) != "" && !IsSpace(EntryText(e)[0])
  {
    assert EntryText(e)[0] == e.name[0];
  }

  lemma EntryLast(e: Entry)
    requires EntryOk(e) && e.back == ""
    ensures EntryText(e) != "" && !IsSpace(EntryText(e)[|EntryText(e)| - 1])
  {
    DigitsAreTrimmed(e.digits);
    var t := EntryText(e);
    assert t[|t| - 1] == e.digits[|e.digits| - 1];
  }

  /** An entry without a colon, without a name or without a port is refused as no mapping. */
  lemma NoMappingIsRefused(m: Mapped, name: string, port: string)
    requires ':' !in name
    ensures AddEntry(m, name) == Err(InvalidMapping)
    ensures AllSpace(name) || AllSpace(port) ==> AddEntry(m, name + ":" + port) == Err(InvalidMapping)
  {
    NoColonRefused(m, name);
    if AllSpace(name) {
      BlankNameRefused(m, name, port);
    } else if AllSpace(port) {
      BlankPortRefused(m, name, port);
    }
  }

  /** A port with anything but digits behind its first character is refused. */
  lemma JunkPortIsRefused(m: Mapped, name: string, port: string, i: nat)
    requires Clean(name) && Trimmed(port) && 0 < i < |port| && !IsDigit(port[i]) && name !in m.ports
    ensures AddEntry(m, name + ":" + port) == Err(InvalidPort)
  {
    var entry := name + ":" + port;
    assert entry[0] == name[0] && entry[|entry| - 1] == port[|port| - 1];
    TrimTrimmed(entry);
    TrimTrimmed(name);
    TrimTrimmed(port);
    hide TrimSpace, Trimmed;
    AddEntryIs(m, entry, name, port, name, port);
    assert port[1..][i - 1] == port[i];
    assert Atoi(port).None?;
  }

  lemma NoColonRefused(m: Mapped, name: string)
    requires ':' !in name
    ensures AddEntry(m, name) == Err(InvalidMapping)
  {
    TrimKeepsOut(name, ':');
    hide TrimSpace;
    var k := FindChar(TrimSpace(name), 0, ':');
  }

  lemma BlankNameRefused(m: Mapped, name: string, port: string)
    requires AllSpace(name) && ':' !in name
    ensures AddEntry(m, name + ":" + port) == Err(InvalidMapping)
  {
    var entry := name + ":" + port;
    var a, b := TrimParts(entry);
    var text := TrimSpace(entry);
    var k := FindChar(text, 0, ':');
    assert entry[|name|] == ':';
    ColonInside(entry, a, text, b, |name|);
    assert text[|name| - |a|] == ':';
    forall i | 0 <= i < k ensures IsSpace(text[i]) {
      assert text[i] == entry[|a| + i];
      assert entry[|a| + i] == name[|a| + i];
    }
    TrimCore(text[..k], "", "");
    assert text[..k] + "" + "" == text[..k];
  }

  lemma ColonInside(s: string, a: string, t: string, b: string, i: nat)
    requires s == a + t + b && AllSpace(a) && AllSpace(b) && i < |s| && s[i] == ':'
    ensures |a| <= i < |a| + |t|
  {
  }

  lemma BlankPortRefused(m: Mapped, name: string, port: string)
    requires AllSpace(port) && ':' !in name
    ensures AddEntry(m, name + ":" + port) == Err(InvalidMapping)
  {
    var entry := name + ":" + port;
    var a, b := TrimParts(entry);
    var text := TrimSpace(entry);
    var k := FindChar(text, 0, ':');
    assert entry[|name|] == ':';
    ColonInside(entry, a, text, b, |name|);
    assert text[|name| - |a|] == ':';
    assert k == |name| - |a| by {
      forall i | 0 <= i < |name| - |a| ensures text[i] != ':' {
        assert text[i] == entry[|a| + i] == name[|a| + i];
      }
    }
    forall i | k + 1 <= i < |text| ensures IsSpace(text[i]) {
      assert text[i] == entry[|a| + i] == port[|a| + i - |name| - 1];
    }
    TrimCore(text[k + 1..], "", "");
    assert text[k + 1..] + "" + "" == text[k + 1..];
  }

  // ----- the loops of the source -----

  method ParseLocalPortMappings(raw: string) returns (r: Result<Mapped>)
    ensures r == Parse(raw)
  {
    hide AddEntry, AddEntries;
    var text := TrimSpace(raw);
    if IsAutomatic(text) {
      return Ok(Mapped(map[], []));
    }
    var m := Mapped(map[], []);
    var entries := Split(text);
    NoEntries();
    assert entries[..0] == [];
    for i := 0 to |entries|
      invariant AddEntries(entries[..i]) == Ok(m)
    {
      var next := AddEntry(m, entries[i]);
      NextEntry(entries, i);
      if next.Err? {
        FirstErrorDecides(entries, i + 1);
        return next;
      }
      m := next.value;
    }
    assert entries[..|entries|] == entries;
    return Ok(m);
  }

  lemma NoEntries()
    ensures AddEntries([]) == Ok(Mapped(map[], []))
  {
  }

  lemma NextEntry(entries: seq<string>, i: nat)
    requires i < |entries| && AddEntries(entries[..i]).Ok?
    ensures AddEntries(entries[..i + 1]) == AddEntry(AddEntries(entries[..i]).value, entries[i])
  {
    hide AddEntry;
    assert entries[..i + 1][..i] == entries[..i];
  }

  lemma {:induction false} FirstErrorDecides(entries: seq<string>, i: nat)
    requires i <= |entries| && AddEntries(entries[..i]).Err?
    ensures AddEntries(entries) == AddEntries(entries[..i])
    decreases |entries| - i
  {
    hide AddEntry;
    if i == |entries| {
      assert entries[..i] == entries;
    } else {
      assert entries[..i + 1][..i] == entries[..i];
      FirstErrorDecides(entries, i + 1);
    }
  }

  method FormatLocalPortMappings(ports: map<string, nat>, services: seq<Service>, originalOrder: seq<string>)
      returns (text: string)
    requires forall s :: s in originalOrder ==> s in ports
    ensures text == Format(ports, services, originalOrder)
  {
    hide Less, Distinct, Named, Unseen, Sorted, Part, Join;
    var ordered := [];
    NothingNamed(ports);
    assert services[..0] == [] && originalOrder[..0] == [];
    for i := 0 to |services|
      invariant ordered == Named(services[..i], ports)
    {
      NamedNext(services, ports, i);
      if services[i].name in ports {
        ordered := ordered + [services[i].name];
      }
    }
    assert services[..|services|] == services;
    ghost var named := ordered;
    for i := 0 to |originalOrder|
      invariant ordered == named + Unseen(originalOrder[..i], named)
    {
      UnseenNext(originalOrder, named, i);
      if originalOrder[i] !in ordered {
        ordered := ordered + [originalOrder[i]];
      }
    }
    assert originalOrder[..|originalOrder|] == originalOrder;
    var remaining := SortedRemaining(ports, ordered);
    ordered := ordered + remaining;
    OrderedCovers(ports, services, originalOrder);
    text := JoinParts(ports, ordered);
  }

  lemma NothingNamed(ports: map<string, nat>)
    ensures Named([], ports) == [] && forall seen :: Unseen([], seen) == []
  {
  }

  lemma NamedNext(services: seq<Service>, ports: map<string, nat>, i: nat)
    requires i < |services|
    ensures Named(services[..i + 1], ports) == Named(services[..i], ports) + if services[i].name in ports then [services[i].name] else []
  {
    assert services[..i + 1][..i] == services[..i];
  }

  lemma UnseenNext(order: seq<string>, seen: seq<string>, i: nat)
    requires i < |order|
    ensures var r := Unseen(order[..i], seen);
      Unseen(order[..i + 1], seen) == if order[i] in seen + r then r else r + [order[i]]
  {
    assert order[..i + 1][..i] == order[..i];
  }

  method SortedRemaining(ports: map<string, nat>, seen: seq<string>) returns (remaining: seq<string>)
    ensures remaining == Sorted(set s | s in ports && s !in seen)
  {
    hide Less, InsertName;
    remaining := [];
    var left := ports.Keys;
    while left != {}
      invariant left <= ports.Keys
      invariant Increasing(remaining)
      invariant forall s :: s in remaining <==> s in ports && s !in left && s !in seen
      decreases left
    {
      var s :| s in left;
      if s !in seen {
        InsertNameKeeps(remaining, s);
        remaining := InsertName(remaining, s);
      }
      left := left - {s};
    }
    SortedIsUnique(remaining, Sorted(set s | s in ports && s !in seen));
  }

  method JoinParts(ports: map<string, nat>, names: seq<string>) returns (text: string)
    requires forall s :: s in names ==> s in ports
    ensures text == Join(Parts(ports, names))
  {
    hide Part;
    var parts := [];
    for i := 0 to |names|
      invariant parts == Parts(ports, names)[..i]
    {
      parts := parts + [Part(names[i], ports[names[i]])];
    }
    assert parts == Parts(ports, names);
    text := Join(parts);
  }
}
