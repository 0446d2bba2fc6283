/** Choosing host ports for the local services (internal/deploy/local_ports.go, local_backend.go):
    a cyclic search from each service's default, with every chosen port held open until the end. */
module LocalPorts {
  import opened Text
  import opened LocalPortText

  /** One answer of the name lookup for localhost. */
  datatype Address = Address(ip: Option<string>, zone: string, loopback: bool)

  /** A listening socket. */
  datatype Binding = Binding(host: string, port: nat)

  /** What the search sees: the loopback hosts, if there are any, the sockets already bound, and
      the range of automatic ports. */
  datatype Net = Net(hosts: Option<seq<string>>, taken: set<Binding>, minimum: nat, maximum: nat)

  // ----- loopback addresses -----

  function Key(a: Address): string
    requires a.ip.Some?
  {
    a.ip.value + "%" + a.zone
  }

  function Host(a: Address): string
    requires a.ip.Some?
  {
    if a.zone == "" then a.ip.value else a.ip.value + "%" + a.zone
  }

  /** The loopback hosts, each once. */
  function Loopbacks(addresses: seq<Address>): (r: seq<Address>)
    ensures forall i :: 0 <= i < |r| ==> r[i].ip.Some? && r[i].loopback && r[i] in addresses
  {
    if addresses == [] then []
    else
      var r, a := Loopbacks(addresses[..|addresses| - 1]), addresses[|addresses| - 1];
      assert addresses == addresses[..|addresses| - 1] + [a];
      if a.ip.None? || !a.loopback || (exists i :: 0 <= i < |r| && Key(r[i]) == Key(a)) then r else r + [a]
  }

  function Hosts(addresses: seq<Address>): (r: seq<string>)
    requires forall i :: 0 <= i < |addresses| ==> addresses[i].ip.Some?
    ensures |r| == |addresses| && forall i :: 0 <= i < |r| ==> r[i] == Host(addresses[i])
  {
    seq(|addresses|, i requires 0 <= i < |addresses| => Host(addresses[i]))
  }

  /** The text of an IP address has no percent sign. */
  predicate ProperAddresses(addresses: seq<Address>) {
    forall i :: 0 <= i < |addresses| && addresses[i].ip.Some? ==> '%' !in addresses[i].ip.value
  }

  lemma HostKey(a: Address, b: Address)
    requires a.ip.Some? && b.ip.Some? && '%' !in a.ip.value && '%' !in b.ip.value
    requires Key(a) != Key(b)
    ensures Host(a) != Host(b)
  {
    if a.zone == "" && b.zone != "" {
      assert Host(b)[|b.ip.value|] == '%';
    } else if b.zone == "" && a.zone != "" {
      assert Host(a)[|a.ip.value|] == '%';
    }
  }

  lemma {:induction false} LoopbacksDistinct(addresses: seq<Address>)
    requires ProperAddresses(addresses)
    ensures Distinct(Hosts(Loopbacks(addresses)))
  {
    hide Key, Host;
    if addresses != [] {
      var n := |addresses| - 1;
      LoopbacksDistinct(addresses[..n]);
      var r, a := Loopbacks(addresses[..n]), addresses[n];
      if Loopbacks(addresses) == r + [a] {
        forall i | 0 <= i < |r| && a.ip.Some? && Key(r[i]) != Key(a) ensures Host(r[i]) != Host(a) {
          assert r[i] in addresses;
          HostKey(r[i], a);
        }
        assert Hosts(r + [a])[..|r|] == Hosts(r);
        forall i, j | 0 <= i < j < |r + [a]| ensures Hosts(r + [a])[i] != Hosts(r + [a])[j] {
          assert Hosts(r + [a])[i] == Hosts(r)[i];
          if j < |r| {
            assert Hosts(r + [a])[j] == Hosts(r)[j];
          }
        }
      }
    }
  }

  lemma SameKeySameHost(a: Address, b: Address)
    requires a.ip.Some? && b.ip.Some? && '%' !in a.ip.value && '%' !in b.ip.value && Key(a) == Key(b)
    ensures Host(a) == Host(b)
  {
    var s, t := a.ip.value, b.ip.value;
    assert Key(a)[|s|] == '%' && Key(b)[|t|] == '%';
    assert forall i :: 0 <= i < |s| ==> Key(a)[i] == s[i];
    assert forall i :: 0 <= i < |t| ==> Key(b)[i] == t[i];
    assert |s| == |t|;
    assert Key(a)[..|s|] == s && Key(b)[..|t|] == t;
    assert Key(a)[|s| + 1..] == a.zone && Key(b)[|t| + 1..] == b.zone;
  }

  predicate HostAmong(r: seq<Address>, h: string) {
    exists k :: 0 <= k < |r| && r[k].ip.Some? && Host(r[k]) == h
  }

  lemma HostAmongMore(r: seq<Address>, a: Address, h: string)
    requires a.ip.Some?
    ensures HostAmong(r, h) ==> HostAmong(r + [a], h)
    ensures HostAmong(r + [a], Host(a))
  {
    hide Host;
    var all := r + [a];
    if HostAmong(r, h) {
      var k :| 0 <= k < |r| && r[k].ip.Some? && Host(r[k]) == h;
      assert all[k] == r[k];
    }
    assert all[|r|] == a;
  }

  /** The hosts to listen on are those of the loopback addresses and no other. */
  lemma {:induction false} LoopbacksAre(addresses: seq<Address>, i: nat)
    requires ProperAddresses(addresses) && i < |addresses| && addresses[i].ip.Some? && addresses[i].loopback
    ensures HostAmong(Loopbacks(addresses), Host(addresses[i]))
    ensures forall k :: 0 <= k < |Loopbacks(addresses)| ==> Loopbacks(addresses)[k] in addresses && Loopbacks(addresses)[k].loopback
  {
    hide Key, Host, HostAmong;
    var n := |addresses| - 1;
    var r, a := Loopbacks(addresses[..n]), addresses[n];
    if i < n {
      assert addresses[..n][i] == addresses[i];
      LoopbacksAre(addresses[..n], i);
      if a.ip.Some? {
        HostAmongMore(r, a, Host(addresses[i]));
      }
    } else if k :| 0 <= k < |r| && Key(r[k]) == Key(a) {
      assert r[k] in addresses;
      SameKeySameHost(r[k], a);
      KeptHost(r, k);
    } else {
      HostAmongMore(r, a, Host(a));
    }
  }

  lemma KeptHost(r: seq<Address>, k: nat)
    requires k < |r| && r[k].ip.Some?
    ensures HostAmong(r, Host(r[k]))
  {
  }

  // ----- one search -----

  predicate Usable(net: Net, reserved: set<nat>, port: nat) {
    && port !in reserved
    && net.hosts.Some? && forall i :: 0 <= i < |net.hosts.value| ==> Binding(net.hosts.value[i], port) !in net.taken
  }

  /** The first usable port of `low..high`, or `high`. */
  function FirstUsable(net: Net, reserved: set<nat>, low: nat, high: nat): (r: nat)
    requires low <= high
    ensures low <= r <= high
    ensures forall q :: low <= q < r ==> !Usable(net, reserved, q)
    ensures r < high ==> Usable(net, reserved, r)
    decreases high - low
  {
    if low == high || Usable(net, reserved, low) then low else FirstUsable(net, reserved, low + 1, high)
  }

  /** How far a port is from the default, going up and around. */
  function Distance(net: Net, from: int, port: nat): int {
    if from <= port then port - from else port - from + net.maximum - net.minimum + 1
  }

  predicate InRange(net: Net, port: int) {
    net.minimum <= port <= net.maximum
  }

  /** The usable port that comes first in cyclic order from the default. */
  ghost predicate IsFirst(net: Net, reserved: set<nat>, from: int, port: nat) {
    && InRange(net, port) && Usable(net, reserved, port)
    && forall q: nat :: InRange(net, q) && Usable(net, reserved, q) ==> Distance(net, from, port) <= Distance(net, from, q)
  }

  function Search(net: Net, reserved: set<nat>, service: Service): (r: Result<nat>)
    ensures r.Ok? ==> InRange(net, service.defaultHostPort) && IsFirst(net, reserved, service.defaultHostPort, r.value)
    ensures r.Err? ==>
      match r.failure
      case NoLoopback => net.hosts.None?
      case InvalidDefault => !InRange(net, service.defaultHostPort)
      case NoUsablePort => forall q: nat :: InRange(net, q) ==> !Usable(net, reserved, q)
      case _ => false
  {
    var from := service.defaultHostPort;
    if net.hosts.None? then Err(NoLoopback)
    else if !InRange(net, from) then Err(InvalidDefault)
    else
      var up := FirstUsable(net, reserved, from, net.maximum + 1);
      if up <= net.maximum then Ok(up)
      else
        var around := FirstUsable(net, reserved, net.minimum, from);
        if around < from then Ok(around) else Err(NoUsablePort)
  }

  // ----- all services -----

  function PortsOf(ports: map<string, nat>): set<nat> {
    set s | s in ports && ports[s] > 0 :: ports[s]
  }

  ghost predicate DistinctPorts(ports: map<string, nat>) {
    forall s, t :: s in ports && t in ports && s != t && ports[s] > 0 ==> ports[s] != ports[t]
  }

  predicate Automatic(ports: map<string, nat>, service: Service) {
    service.name !in ports || ports[service.name] == 0
  }

  function Assign(net: Net, ports: map<string, nat>, services: seq<Service>): Result<map<string, nat>> {
    if services == [] then Ok(ports)
    else
      match Assign(net, ports, services[..|services| - 1])
      case Err(e) => Err(e)
      case Ok(m) =>
        var last := services[|services| - 1];
        if !Automatic(m, last) then Ok(m)
        else
          match Search(net, PortsOf(m), last)
          case Err(e) => Err(e)
          case Ok(p) => Ok(m[last.name := p])
  }

  predicate Knows(services: seq<Service>, name: string) {
    exists i :: 0 <= i < |services| && services[i].name == name
  }

  ghost predicate HasUnknown(ports: map<string, nat>, services: seq<Service>) {
    exists s :: s in ports && ports[s] == 0 && !Knows(services, s)
  }

  /** The mappings that resolving a text arrives at, with the order of the text. */
  ghost function Resolution(net: Net, raw: string, services: seq<Service>): Result<Mapped> {
    match Parse(raw)
    case Err(e) => Err(e)
    case Ok(m) =>
      if !DistinctPorts(m.ports) then Err(SamePort)
      else
        match Assign(net, m.ports, services)
        case Err(e) => Err(e)
        case Ok(a) => if HasUnknown(a, services) then Err(UnknownService) else Ok(Mapped(a, m.order))
  }

  ghost function Resolved(net: Net, raw: string, services: seq<Service>): Result<string> {
    match Resolution(net, raw, services)
    case Err(e) => Err(e)
    case Ok(m) =>
      ResolutionCovers(net, raw, services);
      Ok(Format(m.ports, services, m.order))
  }

  // ----- what a resolution is -----

  lemma {:induction false} AssignExtends(net: Net, ports: map<string, nat>, services: seq<Service>)
    requires Assign(net, ports, services).Ok?
    ensures var m := Assign(net, ports, services).value;
      && (forall s :: s in ports ==> s in m && (ports[s] > 0 ==> m[s] == ports[s]))
      && (forall s :: s in m ==> s in ports || Knows(services, s))
      && (forall s :: s in m && !Knows(services, s) ==> m[s] == ports[s])
  {
    if services != [] {
      var n := |services| - 1;
      AssignExtends(net, ports, services[..n]);
      KnowsSplit(services);
      hide Knows, Search;
    }
  }

  lemma KnowsSplit(services: seq<Service>)
    requires services != []
    ensures forall s :: Knows(services, s) <==> Knows(services[..|services| - 1], s) || s == services[|services| - 1].name
  {
    var n := |services| - 1;
    forall s | Knows(services[..n], s) ensures Knows(services, s) {
      var i :| 0 <= i < n && services[..n][i].name == s;
      assert services[i].name == s;
    }
    forall s | Knows(services, s) && s != services[n].name ensures Knows(services[..n], s) {
      var i :| 0 <= i < |services| && services[i].name == s;
      assert services[..n][i].name == s;
    }
    assert services[n].name == services[|services| - 1].name;
  }

  lemma ResolutionCovers(net: Net, raw: string, services: seq<Service>)
    requires Resolution(net, raw, services).Ok?
    ensures var m := Resolution(net, raw, services).value; forall s :: s in m.order ==> s in m.ports
  {
    ParseIsWellFormed(raw);
    AssignExtends(net, Parse(raw).value.ports, services);
  }

  lemma {:induction false} AssignDistinct(net: Net, ports: map<string, nat>, services: seq<Service>)
    requires net.minimum > 0 && DistinctPorts(ports) && Assign(net, ports, services).Ok?
    ensures var m := Assign(net, ports, services).value;
      && DistinctPorts(m)
      && (forall s :: Knows(services, s) ==> s in m && m[s] > 0)
      && (forall s :: s in m && (s !in ports || m[s] != ports[s]) ==> net.minimum <= m[s] <= net.maximum)
  {
    if services != [] {
      var n := |services| - 1;
      AssignDistinct(net, ports, services[..n]);
      KnowsSplit(services);
      hide Knows, Usable;
      var m := Assign(net, ports, services[..n]).value;
      var last := services[n];
      if Automatic(m, last) {
        var p := Search(net, PortsOf(m), last).value;
        assert p !in PortsOf(m) by { UsableIsFree(net, PortsOf(m), p); }
        forall s | s in m && m[s] > 0 ensures m[s] != p {
          assert m[s] in PortsOf(m);
        }
      }
    }
  }

  lemma UsableIsFree(net: Net, reserved: set<nat>, port: nat)
    requires Usable(net, reserved, port)
    ensures port !in reserved
  {
  }

  /** A successful resolution keeps every explicit port, gives every service a port, and makes
      all ports positive and pairwise different. */
  lemma ResolutionIsCorrect(net: Net, raw: string, services: seq<Service>)
    requires net.minimum > 0 && Resolution(net, raw, services).Ok?
    ensures Parse(raw).Ok?
    ensures var before, m := Parse(raw).value.ports, Resolution(net, raw, services).value.ports;
      && (forall s :: s in before && before[s] > 0 ==> s in m && m[s] == before[s])
      && (forall s :: s in m <==> s in before || Knows(services, s))
      && (forall s :: s in m ==> m[s] > 0)
      && DistinctPorts(m)
  {
    hide Knows, Assign, Parse;
    var before := Parse(raw).value.ports;
    AssignExtends(net, before, services);
    AssignDistinct(net, before, services);
  }

  /** The ports that are spoken for when service `i` is served: the explicit ones and those of
      the services before it. */
  function Spoken(before: map<string, nat>, m: map<string, nat>, services: seq<Service>, i: nat): set<nat>
    requires i <= |services|
  {
    PortsOf(before) + set k | 0 <= k < i && services[k].name in m && m[services[k].name] > 0 :: m[services[k].name]
  }

  lemma {:induction false} AssignSpoken(net: Net, ports: map<string, nat>, services: seq<Service>)
    requires Assign(net, ports, services).Ok?
    ensures PortsOf(Assign(net, ports, services).value) == Spoken(ports, Assign(net, ports, services).value, services, |services|)
  {
    var m := Assign(net, ports, services).value;
    AssignExtends(net, ports, services);
    forall p | p in PortsOf(m) ensures p in Spoken(ports, m, services, |services|) {
      var s :| s in m && m[s] == p && p > 0;
      if Knows(services, s) {
        var k :| 0 <= k < |services| && services[k].name == s;
        assert m[services[k].name] == p;
      } else {
        assert ports[s] == p;
      }
    }
    forall p | p in PortsOf(ports) ensures p in PortsOf(m) {
      var s :| s in ports && ports[s] == p && p > 0;
      assert m[s] == p;
    }
  }

  /** Later services do not change the ports of earlier ones. */
  lemma {:induction false} AssignPrefix(net: Net, ports: map<string, nat>, services: seq<Service>, i: nat)
    requires i <= |services| && Assign(net, ports, services).Ok?
    ensures Assign(net, ports, services[..i]).Ok?
    ensures var early, m := Assign(net, ports, services[..i]).value, Assign(net, ports, services).value;
      forall s :: s in early && early[s] > 0 ==> s in m && m[s] == early[s]
    decreases |services|
  {
    hide Search;
    if i == |services| {
      assert services[..i] == services;
    } else {
      var n := |services| - 1;
      assert services[..n][..i] == services[..i];
      AssignPrefix(net, ports, services[..n], i);
    }
  }

  /** Each automatic service gets the usable port that is first in cyclic order from its default,
      given the explicit ports and those of the services before it. */
  lemma EachGetsTheFirst(net: Net, ports: map<string, nat>, services: seq<Service>, i: nat)
    requires net.minimum > 0 && DistinctPorts(ports) && Assign(net, ports, services).Ok?
    requires i < |services| && Automatic(ports, services[i])
    requires forall k :: 0 <= k < i ==> services[k].name != services[i].name
    ensures var m := Assign(net, ports, services).value;
      && services[i].name in m
      && IsFirst(net, Spoken(ports, m, services, i), services[i].defaultHostPort, m[services[i].name])
  {
    hide Search, IsFirst, DistinctPorts;
    var m := Assign(net, ports, services).value;
    AssignPrefix(net, ports, services, i);
    AssignPrefix(net, ports, services, i + 1);
    assert services[..i + 1][..i] == services[..i];
    var early := Assign(net, ports, services[..i]).value;
    AssignExtends(net, ports, services[..i]);
    assert !Knows(services[..i], services[i].name);
    assert Automatic(early, services[i]);
    var p := Search(net, PortsOf(early), services[i]).value;
    assert p > 0 by { FirstIsPositive(net, PortsOf(early), services[i].defaultHostPort, p); }
    assert m[services[i].name] == p;
    AssignSpoken(net, ports, services[..i]);
    AssignDistinct(net, ports, services[..i]);
    SpokenPrefix(ports, early, m, services, i);
  }

  lemma FirstIsPositive(net: Net, reserved: set<nat>, from: int, p: nat)
    requires net.minimum > 0 && IsFirst(net, reserved, from, p)
    ensures p > 0
  {
  }

  lemma SpokenPrefix(ports: map<string, nat>, early: map<string, nat>, m: map<string, nat>, services: seq<Service>, i: nat)
    requires i <= |services|
    requires forall s :: Knows(services[..i], s) ==> s in early && early[s] > 0
    requires forall s :: s in early && early[s] > 0 ==> s in m && m[s] == early[s]
    ensures Spoken(ports, early, services[..i], i) == Spoken(ports, m, services, i)
  {
    forall k | 0 <= k < i ensures services[k].name in early && services[k].name in m && early[services[k].name] == m[services[k].name] {
      assert services[..i][k] == services[k];
      assert Knows(services[..i], services[k].name);
    }
  }

  /** Assigning fails only at a service whose own search fails, the services before it served. */
  lemma {:induction false} AssignFailsAt(net: Net, ports: map<string, nat>, services: seq<Service>) returns (i: nat, m: map<string, nat>)
    requires Assign(net, ports, services).Err?
    ensures i < |services| && Assign(net, ports, services[..i]) == Ok(m) && Automatic(m, services[i])
    ensures Search(net, PortsOf(m), services[i]) == Err(Assign(net, ports, services).failure)
    ensures Assign(net, ports, services) == Err(NoUsablePort) ==>
      forall q: nat :: InRange(net, q) ==> !Usable(net, Spoken(ports, m, services, i), q)
  {
    hide Usable, PortsOf;
    var n := |services| - 1;
    if Assign(net, ports, services[..n]).Ok? {
      i, m := n, Assign(net, ports, services[..n]).value;
    } else {
      i, m := AssignFailsAt(net, ports, services[..n]);
      assert services[..n][..i] == services[..i];
    }
    AssignSpoken(net, ports, services[..i]);
    SpokenSame(ports, m, services, i);
  }

  lemma SpokenSame(ports: map<string, nat>, m: map<string, nat>, services: seq<Service>, i: nat)
    requires i <= |services|
    ensures Spoken(ports, m, services[..i], i) == Spoken(ports, m, services, i)
  {
    assert forall k :: 0 <= k < i ==> services[..i][k] == services[k];
  }

  // ----- when there are ports enough -----

  ghost function UsablePorts(net: Net, reserved: set<nat>): set<nat> {
    set q: nat | q <= net.maximum && net.minimum <= q && Usable(net, reserved, q)
  }

  lemma OneFewer(net: Net, reserved: set<nat>, p: nat)
    ensures UsablePorts(net, reserved + {p}) == UsablePorts(net, reserved) - {p}
    ensures |UsablePorts(net, reserved + {p})| >= |UsablePorts(net, reserved)| - 1
  {
  }

  /** With loopback hosts, defaults in range and as many usable ports as services, every service
      gets a port. */
  lemma {:induction false} EnoughPortsSuffice(net: Net, ports: map<string, nat>, services: seq<Service>)
    requires net.minimum > 0 && net.hosts.Some? && |UsablePorts(net, PortsOf(ports))| >= |services|
    requires forall i :: 0 <= i < |services| ==> InRange(net, services[i].defaultHostPort)
    ensures Assign(net, ports, services).Ok?
    ensures |UsablePorts(net, PortsOf(Assign(net, ports, services).value))| >= |UsablePorts(net, PortsOf(ports))| - |services|
  {
    hide Usable, PortsOf, UsablePorts;
    if services != [] {
      var n := |services| - 1;
      EnoughPortsSuffice(net, ports, services[..n]);
      var m, last := Assign(net, ports, services[..n]).value, services[n];
      if Automatic(m, last) {
        SomePortIsFound(net, PortsOf(m), last);
        var p := Search(net, PortsOf(m), last).value;
        FoundIsNew(net, PortsOf(m), last);
        PortsAfter(m, last.name, p);
        OneFewer(net, PortsOf(m), p);
      }
    }
  }

  lemma SomePortIsFound(net: Net, reserved: set<nat>, service: Service)
    requires net.hosts.Some? && InRange(net, service.defaultHostPort) && |UsablePorts(net, reserved)| > 0
    ensures Search(net, reserved, service).Ok?
  {
    hide Usable;
    var q :| q in UsablePorts(net, reserved);
    assert InRange(net, q) && Usable(net, reserved, q);
  }

  /** A text that can be read, with distinct explicit ports, no service left open but known ones
      and ports enough, is resolved; two services with one explicit port never are. */
  lemma ResolutionSucceeds(net: Net, raw: string, services: seq<Service>)
    requires Parse(raw).Ok?
    ensures !DistinctPorts(Parse(raw).value.ports) ==> Resolution(net, raw, services) == Err(SamePort)
    ensures var ports := Parse(raw).value.ports;
      (&& net.minimum > 0 && net.hosts.Some? && DistinctPorts(ports)
       && |UsablePorts(net, PortsOf(ports))| >= |services|
       && (forall i :: 0 <= i < |services| ==> InRange(net, services[i].defaultHostPort))
       && (forall s :: s in ports && ports[s] == 0 ==> Knows(services, s))) ==> Resolution(net, raw, services).Ok?
  {
    hide Parse, Assign, UsablePorts, PortsOf, Knows;
    var ports := Parse(raw).value.ports;
    if net.minimum > 0 && net.hosts.Some? && DistinctPorts(ports) && |UsablePorts(net, PortsOf(ports))| >= |services|
       && (forall i :: 0 <= i < |services| ==> InRange(net, services[i].defaultHostPort))
       && (forall s :: s in ports && ports[s] == 0 ==> Knows(services, s)) {
      EnoughPortsSuffice(net, ports, services);
      AssignExtends(net, ports, services);
    }
  }

  // ----- resolving again -----

  predicate ProperServices(services: seq<Service>) {
    && (forall i :: 0 <= i < |services| ==> Clean(services[i].name))
    && (forall i, j :: 0 <= i < j < |services| ==> services[i].name != services[j].name)
  }

  function NeedsNormalization(raw: string, services: seq<Service>): bool {
    var text := TrimSpace(raw);
    IsAutomatic(text)
    || (Parse(text).Ok? && exists i :: 0 <= i < |services| && Automatic(Parse(text).value.ports, services[i]))
  }

  /** Blank text and auto always need normalisation; text that cannot be read never does. */
  lemma AutomaticNeedsNormalization(raw: string, services: seq<Service>)
    ensures AllSpace(raw) || SpellsAuto(TrimSpace(raw)) ==> NeedsNormalization(raw, services)
    ensures Parse(raw).Err? ==> !NeedsNormalization(raw, services)
  {
    hide Parse;
    TrimIdempotent(raw);
    if AllSpace(raw) || SpellsAuto(TrimSpace(raw)) {
      AutomaticReads(raw);
    }
    ParseOfTrimmed(raw);
  }

  lemma ParseOfTrimmed(raw: string)
    ensures Parse(TrimSpace(raw)) == Parse(raw)
    ensures IsAutomatic(TrimSpace(raw)) ==> Parse(raw).Ok?
  {
    TrimIdempotent(raw);
  }

  /** A text of entries needs normalisation exactly when it leaves out a service or gives it
      port 0. */
  lemma EntriesNeedNormalization(front: string, es: seq<Entry>, back: string, services: seq<Service>)
    requires AllSpace(front) && AllSpace(back) && es != [] && EntriesOk(es)
    requires es[0].before == "" && es[|es| - 1].back == ""
    ensures NeedsNormalization(front + Join(Texts(es)) + back, services) <==>
      Acceptable(es) && exists j :: 0 <= j < |services| && PortIsOpen(es, services[j])
  {
    hide Parse, IsAutomatic, Acceptable, EntryOk, Value, TrimSpace, Join, Texts, Says, PortIsOpen;
    var raw := front + Join(Texts(es)) + back;
    ParseReads(front, es, back);
    ParseOfTrimmed(raw);
    EntriesAreNoAuto(front, es, back);
    if Acceptable(es) {
      var m := Parse(raw).value;
      forall j | 0 <= j < |services| ensures Automatic(m.ports, services[j]) <==> PortIsOpen(es, services[j]) {
        AutomaticMeans(es, m, services[j]);
      }
    }
  }

  /** No entry gives the service a port. */
  predicate PortIsOpen(es: seq<Entry>, service: Service)
    requires EntriesOk(es)
  {
    forall i :: 0 <= i < |es| && es[i].name == service.name ==> PortOf(es[i]) == 0
  }

  lemma AutomaticMeans(es: seq<Entry>, m: Mapped, service: Service)
    requires EntriesOk(es) && Says(es, m)
    ensures Automatic(m.ports, service) <==> PortIsOpen(es, service)
  {
    hide EntryOk, Value;
    if service.name in m.ports {
      var i :| 0 <= i < |es| && NamesIn(es)[i] == service.name;
    } else {
      forall i | 0 <= i < |es| ensures es[i].name != service.name {
        assert NamesIn(es)[i] == es[i].name;
      }
    }
  }

  lemma {:induction false} NothingToAssign(net: Net, ports: map<string, nat>, services: seq<Service>)
    requires forall i :: 0 <= i < |services| ==> !Automatic(ports, services[i])
    ensures Assign(net, ports, services) == Ok(ports)
  {
    hide Automatic;
    if services != [] {
      NothingToAssign(net, ports, services[..|services| - 1]);
    }
  }

  lemma {:induction false} NamedAll(services: seq<Service>, ports: map<string, nat>)
    requires forall i :: 0 <= i < |services| ==> services[i].name in ports
    ensures |Named(services, ports)| == |services|
    ensures forall i :: 0 <= i < |services| ==> Named(services, ports)[i] == services[i].name
  {
    if services != [] {
      NamedAll(services[..|services| - 1], ports);
    }
  }

  predicate InOrder(order: seq<string>, x: string, y: string) {
    exists a, b :: 0 <= a < b < |order| && order[a] == x && order[b] == y
  }

  lemma InOrderLonger(order: seq<string>, n: nat, x: string, y: string)
    requires n <= |order|
    ensures InOrder(order[..n], x, y) ==> InOrder(order, x, y)
    ensures n < |order| && x in order[..n] ==> InOrder(order, x, order[n])
  {
    if InOrder(order[..n], x, y) {
      var a, b :| 0 <= a < b < n && order[..n][a] == x && order[..n][b] == y;
      assert order[a] == x && order[b] == y;
    }
    if n < |order| && x in order[..n] {
      var a :| 0 <= a < n && order[..n][a] == x;
      assert order[a] == x;
    }
  }

  ghost predicate AllInOrder(order: seq<string>, r: seq<string>) {
    forall i, j :: 0 <= i < j < |r| ==> InOrder(order, r[i], r[j])
  }

  lemma {:induction false} UnseenInOrder(order: seq<string>, seen: seq<string>)
    ensures AllInOrder(order, Unseen(order, seen))
  {
    hide InOrder;
    if order != [] {
      var n := |order| - 1;
      UnseenInOrder(order[..n], seen);
      var r, all := Unseen(order[..n], seen), Unseen(order, seen);
      forall i, j | 0 <= i < j < |all| ensures InOrder(order, all[i], all[j]) {
        assert all[i] == r[i] && r[i] in order[..n];
        InOrderLonger(order, n, all[i], all[j]);
      }
    }
  }

  /** The order in which mappings are written when every service has one: the services as in the
      catalog, then the other names of the text as in the text, then the rest alphabetically. */
  lemma WrittenInOrder(ports: map<string, nat>, services: seq<Service>, order: seq<string>)
    requires (forall s :: s in order ==> s in ports) && forall i :: 0 <= i < |services| ==> services[i].name in ports
    ensures var r, n := Ordered(ports, services, order), |services|;
      && n <= |r| && (forall i :: 0 <= i < n ==> r[i] == services[i].name)
      && (forall i, j :: n <= i < j < |r| && r[j] in order ==> r[i] in order && InOrder(order, r[i], r[j]))
      && (forall i, j :: n <= i < j < |r| && r[i] !in order ==> Less(r[i], r[j]))
  {
    hide Less, Named, Unseen, Sorted, Ordered, InOrder;
    NamedAll(services, ports);
    var named := Named(services, ports);
    UnseenInOrder(order, named);
    var unseen, rest := OrderedParts(ports, services, order);
    var r, n, k := Ordered(ports, services, order), |named|, |named| + |unseen|;
    forall i | n <= i < k ensures r[i] in order {
      assert r[i] == unseen[i - n] && unseen[i - n] in unseen;
    }
    forall i | k <= i < |r| ensures r[i] !in order {
      assert r[i] == rest[i - k] && rest[i - k] in rest;
    }
    forall i, j | n <= i < j < |r| && r[j] in order ensures r[i] in order && InOrder(order, r[i], r[j]) {
      assert r[i] == unseen[i - n] && r[j] == unseen[j - n];
    }
    forall i, j | n <= i < j < |r| && r[i] !in order ensures Less(r[i], r[j]) {
      assert r[i] == rest[i - k] && r[j] == rest[j - k];
    }
  }

  lemma OrderedParts(ports: map<string, nat>, services: seq<Service>, order: seq<string>) returns (unseen: seq<string>, rest: seq<string>)
    ensures unseen == Unseen(order, Named(services, ports)) && Increasing(rest)
    ensures Ordered(ports, services, order) == Named(services, ports) + unseen + rest
    ensures (forall s :: s in unseen ==> s in order) && forall s :: s in rest ==> s !in order
  {
    hide Less;
    var named := Named(services, ports);
    unseen := Unseen(order, named);
    rest := Sorted(set s | s in ports && s !in named + unseen);
    UnseenMembers(order, named);
    forall s | s in rest ensures s !in order {
      RestIsNew(order, named, named + unseen, s);
    }
  }

  lemma UnseenMembers(order: seq<string>, seen: seq<string>)
    ensures forall s :: s in Unseen(order, seen) <==> s in order && s !in seen
  {
  }

  lemma RestIsNew(order: seq<string>, named: seq<string>, known: seq<string>, s: string)
    requires known == named + Unseen(order, named) && s !in known
    ensures s !in order
  {
    UnseenMembers(order, named);
  }

  /** Writing the mappings in the order they were read in changes nothing. */
  lemma OrderedAgain(ports: map<string, nat>, services: seq<Service>, order: seq<string>)
    requires (forall s :: s in order ==> s in ports) && Distinct(Named(services, ports))
    ensures Ordered(ports, services, Ordered(ports, services, order)) == Ordered(ports, services, order)
  {
    hide Ordered, Named, Distinct;
    var names, named := Ordered(ports, services, order), Named(services, ports);
    OrderedCovers(ports, services, order);
    var rest := OrderedHead(ports, services, order);
    UnseenSkips(named, rest);
    OrderedOfAll(ports, services, names, rest);
  }

  lemma OrderedHead(ports: map<string, nat>, services: seq<Service>, order: seq<string>) returns (rest: seq<string>)
    ensures Ordered(ports, services, order) == Named(services, ports) + rest
  {
    hide Named, Unseen, Sorted, Less;
    var named := Named(services, ports);
    rest := Unseen(order, named) + Sorted(set s | s in ports && s !in named + Unseen(order, named));
  }

  /** When the order has every name, nothing is left to sort. */
  lemma OrderedOfAll(ports: map<string, nat>, services: seq<Service>, names: seq<string>, rest: seq<string>)
    requires names == Named(services, ports) + rest && Unseen(names, Named(services, ports)) == rest
    requires forall s :: s in names <==> s in ports
    ensures Ordered(ports, services, names) == names
  {
    hide Named, Unseen, Sorted, Less;
    assert (set s | s in ports && s !in names) == {};
    SortedNothing();
  }

  lemma SortedNothing()
    ensures Sorted({}) == []
  {
  }

  lemma {:induction false} UnseenSkips(named: seq<string>, rest: seq<string>)
    requires Distinct(named + rest)
    ensures Unseen(named + rest, named) == rest
  {
    var all := named + rest;
    if rest == [] {
      assert all == named;
      FirstIsMember(Unseen(named, named));
    } else {
      var n := |rest| - 1;
      assert all[..|all| - 1] == named + rest[..n];
      UnseenSkips(named, rest[..n]);
      assert all[|all| - 1] == rest[n];
      assert rest[n] !in named + rest[..n] by {
        DistinctSplit(all);
      }
    }
  }

  /** Resolved text needs no normalisation, and resolving it again, whatever the ports in use by
      then, gives the same text with no service left to search for. */
  lemma ResolvedIsStable(net: Net, raw: string, services: seq<Service>, later: Net)
    requires 0 < net.minimum && net.maximum <= MAXIMUM_PORT && ProperServices(services) && services != []
    requires Resolved(net, raw, services).Ok?
    ensures var text := Resolved(net, raw, services).value;
      && !NeedsNormalization(text, services)
      && Parse(text) == Ok(Mapped(Resolution(net, raw, services).value.ports, Ordered(Resolution(net, raw, services).value.ports, services, Parse(raw).value.order)))
      && (forall i :: 0 <= i < |services| ==> !Automatic(Parse(text).value.ports, services[i]))
      && Resolved(later, text, services) == Ok(text)
  {
    hide Assign, Parse, Ordered, Knows, Clean, IsAutomatic, Distinct, Named;
    var m := Resolution(net, raw, services).value;
    var text := Resolved(net, raw, services).value;
    ResolutionCovers(net, raw, services);
    ResolutionIsReadable(net, raw, services);
    ParseOfFormat(m.ports, services, m.order);
    assert Parse(text) == Ok(Mapped(m.ports, Ordered(m.ports, services, m.order)));
    ResolutionIsCorrect(net, raw, services);
    NothingToAssign(later, m.ports, services);
    OrderedAgain(m.ports, services, m.order);
    OrderedCovers(m.ports, services, m.order);
    NotAutomaticText(text, m.ports, services);
    assert !HasUnknown(m.ports, services);
  }

  lemma NotAutomaticText(text: string, ports: map<string, nat>, services: seq<Service>)
    requires Parse(text).Ok? && Parse(text).value.ports == ports && services != []
    requires forall i :: 0 <= i < |services| ==> !Automatic(ports, services[i])
    ensures !NeedsNormalization(text, services)
  {
    assert !Automatic(ports, services[0]);
    TrimIdempotent(text);
  }

  lemma ResolutionIsReadable(net: Net, raw: string, services: seq<Service>)
    requires 0 < net.minimum && net.maximum <= MAXIMUM_PORT && ProperServices(services)
    requires Resolution(net, raw, services).Ok?
    ensures var m := Resolution(net, raw, services).value;
      && Readable(m.ports) && Distinct(Named(services, m.ports))
      && forall i :: 0 <= i < |services| ==> !Automatic(m.ports, services[i])
  {
    hide Assign, Parse, Clean, Distinct, DistinctPorts, Knows;
    var before, m := Parse(raw).value.ports, Resolution(net, raw, services).value;
    ParseIsWellFormed(raw);
    AssignExtends(net, before, services);
    AssignDistinct(net, before, services);
    forall i | 0 <= i < |services| ensures !Automatic(m.ports, services[i]) {
      KnowsOwn(services, i);
    }
    NamedIsDistinct(services, m.ports);
    forall s | s in m.ports && s !in before ensures Clean(s) {
      KnownIsClean(services, s);
    }
  }

  lemma KnowsOwn(services: seq<Service>, i: nat)
    requires i < |services|
    ensures Knows(services, services[i].name)
  {
  }

  lemma KnownIsClean(services: seq<Service>, s: string)
    requires ProperServices(services) && Knows(services, s)
    ensures Clean(s)
  {
    hide Clean;
  }

  lemma NamedIsDistinct(services: seq<Service>, ports: map<string, nat>)
    requires ProperServices(services) && forall i :: 0 <= i < |services| ==> !Automatic(ports, services[i])
    ensures Distinct(Named(services, ports))
  {
    hide Clean, Named;
    NamedAll(services, ports);
  }

  const MINIMUM_AUTOMATIC_PORT: nat := 1024
  const LOCAL_SERVICE_CATALOG: seq<Service> := [Service("db", 8563, 8563)]

  lemma CatalogIsProper()
    ensures ProperServices(LOCAL_SERVICE_CATALOG) && LOCAL_SERVICE_CATALOG != []
    ensures InRange(Net(None, {}, MINIMUM_AUTOMATIC_PORT, MAXIMUM_PORT), LOCAL_SERVICE_CATALOG[0].defaultHostPort)
  {
    var name := LOCAL_SERVICE_CATALOG[0].name;
    assert name[0] == 'd' && name[1] == 'b';
  }

  // ----- the allocator -----

  function BindingsOf(hosts: seq<string>, port: nat): (r: seq<Binding>)
    ensures |r| == |hosts| && forall i :: 0 <= i < |r| ==> r[i] == Binding(hosts[i], port)
  {
    seq(|hosts|, i requires 0 <= i < |hosts| => Binding(hosts[i], port))
  }

  ghost function SetOf(bindings: seq<Binding>): set<Binding> {
    set b | b in bindings
  }

  class PortAllocator {
    const minimumPort: nat
    const maximumPort: nat
    /** The answer of the name lookup. */
    const lookup: Option<seq<Address>>
    /** The sockets that other programs listen on. */
    const busy: set<Binding>

    /** The sockets this program listens on, and how often it looked up and probed. */
    var open: set<Binding>
    var lookups: nat
    var probes: nat

    constructor (lookup: Option<seq<Address>>, busy: set<Binding>, minimumPort: nat, maximumPort: nat)
      ensures this.lookup == lookup && this.busy == busy && this.minimumPort == minimumPort && this.maximumPort == maximumPort
      ensures open == {} && lookups == 0 && probes == 0
    {
      this.lookup, this.busy, this.minimumPort, this.maximumPort := lookup, busy, minimumPort, maximumPort;
      open, lookups, probes := {}, 0, 0;
    }

    ghost predicate Proper()
    {
      minimumPort > 0 && (lookup.Some? ==> ProperAddresses(lookup.value))
    }

    function HostsFound(): Option<seq<string>>
    {
      if lookup.None? || Loopbacks(lookup.value) == [] then None else Some(Hosts(Loopbacks(lookup.value)))
    }

    ghost function Seen(): Net
      reads this
    {
      Net(HostsFound(), busy + open, minimumPort, maximumPort)
    }

    method Listen(host: string, port: nat) returns (ok: bool)
      modifies `open, `probes
      ensures ok <==> Binding(host, port) !in busy + old(open)
      ensures open == if ok then old(open) + {Binding(host, port)} else old(open)
      ensures probes == old(probes) + 1
    {
      probes := probes + 1;
      ok := Binding(host, port) !in busy && Binding(host, port) !in open;
      if ok {
        open := open + {Binding(host, port)};
      }
    }

    /** Closes the listeners, leaving every other socket open. */
    method CloseAll(listeners: seq<Binding>)
      modifies `open
      ensures open == old(open) - SetOf(listeners)
    {
      for i := 0 to |listeners|
        invariant open == old(open) - SetOf(listeners[..i])
      {
        assert SetOf(listeners[..i + 1]) == SetOf(listeners[..i]) + {listeners[i]};
        open := open - {listeners[i]};
      }
      assert listeners[..|listeners|] == listeners;
    }

    method LoopbackAddresses() returns (r: Option<seq<string>>)
      modifies `lookups
      ensures r == HostsFound() && lookups == old(lookups) + 1
    {
      hide Key, Host;
      lookups := lookups + 1;
      if lookup.None? {
        return None;
      }
      var addresses := lookup.value;
      var seen: set<string> := {};
      var loopbacks := [];
      for i := 0 to |addresses|
        invariant loopbacks == Loopbacks(addresses[..i])
        invariant seen == set k | 0 <= k < |loopbacks| :: Key(loopbacks[k])
      {
        var address := addresses[i];
        assert addresses[..i + 1][..i] == addresses[..i];
        if address.ip.None? || !address.loopback || Key(address) in seen {
          continue;
        }
        seen := seen + {Key(address)};
        ghost var before := loopbacks;
        loopbacks := loopbacks + [address];
        assert loopbacks[|before|] == address && forall k :: 0 <= k < |before| ==> loopbacks[k] == before[k];
      }
      assert addresses[..|addresses|] == addresses;
      if loopbacks == [] {
        return None;
      }
      return Some(Hosts(loopbacks));
    }

    /** Opens the port on every host, or on none. */
    method TryPort(port: nat, hosts: seq<string>, reserved: set<nat>) returns (listeners: seq<Binding>, ok: bool)
      requires Distinct(hosts)
      modifies `open, `probes
      ensures ok <==> Usable(Net(Some(hosts), busy + old(open), minimumPort, maximumPort), reserved, port)
      ensures listeners == if ok then BindingsOf(hosts, port) else []
      ensures open == old(open) + SetOf(listeners)
      ensures SetOf(listeners) !! old(open)
    {
      if port in reserved {
        return [], false;
      }
      listeners := [];
      for i := 0 to |hosts|
        invariant listeners == BindingsOf(hosts, port)[..i]
        invariant forall k :: 0 <= k < i ==> Binding(hosts[k], port) !in busy + old(open)
        invariant open == old(open) + SetOf(listeners) && SetOf(listeners) !! old(open)
      {
        var b := Binding(hosts[i], port);
        assert b !in SetOf(listeners);
        ok := Listen(hosts[i], port);
        if !ok {
          CloseAll(listeners);
          return [], false;
        }
        assert SetOf(listeners + [b]) == SetOf(listeners) + {b};
        listeners := listeners + [b];
      }
      assert listeners == BindingsOf(hosts, port);
      ok := true;
    }

    /** The cyclic search; it leaves open the port it found and nothing else. */
    method SelectPort(service: Service, hosts: seq<string>, reserved: set<nat>) returns (r: Result<nat>, listeners: seq<Binding>)
      requires Distinct(hosts)
      modifies `open, `probes
      ensures r == Search(Net(Some(hosts), busy + old(open), minimumPort, maximumPort), reserved, service)
      ensures listeners == if r.Ok? then BindingsOf(hosts, r.value) else []
      ensures open == old(open) + SetOf(listeners) && SetOf(listeners) !! old(open)
    {
      hide Usable, Distinct;
      var from := service.defaultHostPort;
      ghost var net := Net(Some(hosts), busy + open, minimumPort, maximumPort);
      if from < minimumPort || from > maximumPort {
        return Err(InvalidDefault), [];
      }
      var ok;
      for port := from to maximumPort + 1
        invariant open == old(open)
        invariant forall q :: from <= q < port ==> !Usable(net, reserved, q)
      {
        listeners, ok := TryPort(port, hosts, reserved);
        if ok {
          FirstIs(net, reserved, from, maximumPort + 1, port);
          return Ok(port), listeners;
        }
      }
      NoneIs(net, reserved, from, maximumPort + 1);
      for port := minimumPort to from
        invariant open == old(open)
        invariant forall q :: minimumPort <= q < port ==> !Usable(net, reserved, q)
      {
        listeners, ok := TryPort(port, hosts, reserved);
        if ok {
          FirstIs(net, reserved, minimumPort, from, port);
          return Ok(port), listeners;
        }
      }
      NoneIs(net, reserved, minimumPort, from);
      return Err(NoUsablePort), [];
    }
  
    method CheckExplicitPorts(ports: map<string, nat>) returns (reserved: map<nat, string>, ok: bool)
      ensures ok <==> DistinctPorts(ports)
      ensures ok ==> reserved.Keys == PortsOf(ports)
    {
      reserved := map[];
      var left := ports.Keys;
      while left != {}
        invariant left <= ports.Keys
        invariant forall p :: p in reserved ==> p > 0 && reserved[p] in ports && reserved[p] !in left && ports[reserved[p]] == p
        invariant forall s :: s in ports && s !in left && ports[s] > 0 ==> ports[s] in reserved && reserved[ports[s]] == s
        decreases left
      {
        var service :| service in left;
        left := left - {service};
        var port := ports[service];
        if port == 0 {
          continue;
        }
        if port in reserved && reserved[port] != service {
          return reserved, false;
        }
        reserved := reserved[port := service];
      }
      return reserved, true;
    }

    method CheckUnknown(ports: map<string, nat>, known: set<string>) returns (unknown: bool)
      ensures unknown <==> exists s :: s in ports && ports[s] == 0 && s !in known
    {
      var left := ports.Keys;
      while left != {}
        invariant left <= ports.Keys && forall s :: s in ports && s !in left ==> ports[s] != 0 || s in known
        decreases left
      {
        var service :| service in left;
        left := left - {service};
        if service !in known && ports[service] == 0 {
          return true;
        }
      }
      return false;
    }

    /** Looks up the hosts if that was not done before, and selects a port. Listeners held on
        reserved ports make no difference. */
    method AllocateOne(service: Service, addresses: Option<seq<string>>, reserved: set<nat>, ghost held: set<Binding>)
        returns (r: Result<nat>, found: Option<seq<string>>, listeners: seq<Binding>)
      requires Proper() && (addresses.Some? ==> addresses == HostsFound())
      requires forall b :: b in held ==> b.port in reserved
      modifies this
      ensures forall taken :: old(open) == taken + held ==>
                r == Search(Net(HostsFound(), busy + taken, minimumPort, maximumPort), reserved, service)
      ensures found == HostsFound() && lookups == old(lookups) + if addresses.None? then 1 else 0
      ensures open == old(open) + SetOf(listeners) && SetOf(listeners) !! old(open)
      ensures forall b :: b in listeners ==> r.Ok? && b.port == r.value
      ensures r.Ok? ==> found.Some? && r.value > 0 && r.value !in reserved
    {
      hide Search, Distinct, HostsFound, ProperAddresses;
      ghost var before := open;
      found, listeners := addresses, [];
      if found.None? {
        found := LoopbackAddresses();
      }
      forall taken | before == taken + held
        ensures Search(Seen(), reserved, service) == Search(Net(HostsFound(), busy + taken, minimumPort, maximumPort), reserved, service)
      {
        assert busy + open == busy + taken + held;
        SearchIgnoresHeld(Net(HostsFound(), busy + taken, minimumPort, maximumPort), Seen(), reserved, held, service);
      }
      if found.None? {
        SearchWithoutHosts(Seen(), reserved, service);
        r := Err(NoLoopback);
      } else {
        HostsAreDistinct();
        ghost var net := Seen();
        r, listeners := SelectPort(service, found.value, reserved);
        if r.Ok? {
          FoundIsNew(net, reserved, service);
        }
      }
    }

    /** Gives every automatic service a port; the listeners it still holds are for the caller
        to close. */
    method AllocateServices(ports: map<string, nat>, services: seq<Service>, explicit: map<nat, string>)
        returns (r: Result<map<string, nat>>, known: set<string>, held: seq<Binding>)
      requires Proper() && explicit.Keys == PortsOf(ports)
      modifies this
      ensures r == Assign(old(Seen()), ports, services)
      ensures r.Ok? ==> forall s :: s in known <==> Knows(services, s)
      ensures open == old(open) + SetOf(held) && SetOf(held) !! old(open)
      ensures lookups <= old(lookups) + 1
      ensures (forall i :: 0 <= i < |services| ==> !Automatic(ports, services[i])) ==>
                lookups == old(lookups) && probes == old(probes)
    {
      hide Search, HostsFound, Proper, PortsOf, Assign, Knows, SetOf;
      NothingHeld();
      ghost var net := Seen();
      var mappings, reserved := ports, explicit;
      var addresses: Option<seq<string>> := None;
      known, held := {}, [];
      NoServices(net, ports);
      assert services[..0] == [];
      for i := 0 to |services|
        invariant Assign(net, ports, services[..i]) == Ok(mappings)
        invariant reserved.Keys == PortsOf(mappings)
        invariant forall s :: s in known <==> Knows(services[..i], s)
        invariant addresses.Some? ==> addresses == HostsFound()
        invariant lookups == old(lookups) + if addresses.Some? then 1 else 0
        invariant (forall k :: 0 <= k < i ==> !Automatic(ports, services[k])) ==>
                    mappings == ports && addresses.None? && probes == old(probes)
        invariant open == old(open) + SetOf(held) && SetOf(held) !! old(open)
        invariant forall b :: b in SetOf(held) ==> b.port in reserved
      {
        var service := services[i];
        NextService(net, ports, services, i);
        KnowsNext(services, i);
        known := known + {service.name};
        if !Automatic(mappings, service) {
          continue;
        }
        assert (forall k :: 0 <= k < i ==> !Automatic(ports, services[k])) ==> Automatic(ports, service);
        var port, listeners;
        port, addresses, listeners := AllocateOne(service, addresses, reserved.Keys, SetOf(held));
        assert port == Search(net, PortsOf(mappings), service);
        HeldTogether(held, listeners);
        held := held + listeners;
        if port.Err? {
          FirstFailureDecides(net, ports, services, i + 1);
          return Err(port.failure), known, held;
        }
        PortsAfter(mappings, service.name, port.value);
        mappings := mappings[service.name := port.value];
        reserved := reserved[port.value := service.name];
      }
      assert services[..|services|] == services;
      return Ok(mappings), known, held;
    }

    /** Resolves a text; the listeners it still holds are for the caller to close. */
    method Allocate(raw: string, services: seq<Service>) returns (r: Result<string>, held: seq<Binding>)
      requires Proper()
      modifies this
      ensures r == Resolved(old(Seen()), raw, services)
      ensures open == old(open) + SetOf(held) && SetOf(held) !! old(open)
      ensures lookups <= old(lookups) + 1
      ensures (Parse(raw).Ok? && forall i :: 0 <= i < |services| ==> !Automatic(Parse(raw).value.ports, services[i])) ==>
                lookups == old(lookups) && probes == old(probes)
    {
      hide Parse, Proper, Automatic, Assign, Knows, PortsOf, DistinctPorts;
      ghost var net := Seen();
      held := [];
      var parsed := ParseLocalPortMappings(raw);
      if parsed.Err? {
        return Err(parsed.failure), held;
      }
      var reserved, distinct := CheckExplicitPorts(parsed.value.ports);
      if !distinct {
        return Err(SamePort), held;
      }
      var mappings, known;
      mappings, known, held := AllocateServices(parsed.value.ports, services, reserved);
      if mappings.Err? {
        return Err(mappings.failure), held;
      }
      var unknown := CheckUnknown(mappings.value, known);
      if unknown {
        return Err(UnknownService), held;
      }
      ResolutionCovers(net, raw, services);
      var text := FormatLocalPortMappings(mappings.value, services, parsed.value.order);
      return Ok(text), held;
    }

    lemma HostsAreDistinct()
      requires Proper() && HostsFound().Some?
      ensures Distinct(HostsFound().value)
    {
      LoopbacksDistinct(lookup.value);
    }

    /** Resolves a text and leaves no listener of its own open, however it ends. */
    method Resolve(raw: string, services: seq<Service>) returns (r: Result<string>)
      requires Proper()
      modifies this
      ensures r == Resolved(old(Seen()), raw, services)
      ensures open == old(open)
      ensures lookups <= old(lookups) + 1
      ensures (Parse(raw).Ok? && forall i :: 0 <= i < |services| ==> !Automatic(Parse(raw).value.ports, services[i])) ==>
                lookups == old(lookups) && probes == old(probes)
    {
      hide Parse, Resolved, Automatic, Proper;
      var held;
      r, held := Allocate(raw, services);
      CloseAll(held);
    }
  }

  /** The local backend's port setting, as its manifest records it. */
  class LocalBackend {
    const allocator: PortAllocator
    var ports: string

    constructor (allocator: PortAllocator, ports: string)
      ensures this.allocator == allocator && this.ports == ports
    {
      this.allocator, this.ports := allocator, ports;
    }

    method LocalPortsNeedNormalization() returns (needed: bool)
      ensures needed <==> NeedsNormalization(ports, LOCAL_SERVICE_CATALOG)
    {
      hide Parse;
      var trimmed := TrimSpace(ports);
      if IsAutomatic(trimmed) {
        return true;
      }
      var parsed := ParseLocalPortMappings(trimmed);
      if parsed.Err? {
        return false;
      }
      for i := 0 to |LOCAL_SERVICE_CATALOG|
        invariant forall k :: 0 <= k < i ==> !Automatic(parsed.value.ports, LOCAL_SERVICE_CATALOG[k])
      {
        if Automatic(parsed.value.ports, LOCAL_SERVICE_CATALOG[i]) {
          return true;
        }
      }
      return false;
    }

    /** After a successful call nothing is left to normalise, so the next call changes nothing
        and probes nothing. `written` tells whether the manifest could be checked and written. */
    method NormalizeAutomaticPorts(written: bool) returns (ok: bool)
      requires allocator.Proper() && allocator.maximumPort <= MAXIMUM_PORT
      modifies `ports, allocator
      ensures ok ==> !NeedsNormalization(ports, LOCAL_SERVICE_CATALOG)
      ensures !NeedsNormalization(old(ports), LOCAL_SERVICE_CATALOG) ==>
                ok && ports == old(ports) && allocator.probes == old(allocator.probes) && allocator.lookups == old(allocator.lookups)
      ensures NeedsNormalization(old(ports), LOCAL_SERVICE_CATALOG) && ok ==>
                Resolved(old(allocator.Seen()), TrimSpace(old(ports)), LOCAL_SERVICE_CATALOG) == Ok(ports)
      ensures !ok ==> ports == old(ports)
      ensures allocator.open == old(allocator.open)
      ensures ok <==> (|| !NeedsNormalization(old(ports), LOCAL_SERVICE_CATALOG)
                       || (written && Resolved(old(allocator.Seen()), TrimSpace(old(ports)), LOCAL_SERVICE_CATALOG).Ok?))
    {
      hide NeedsNormalization, Resolved, Resolution, Parse, Automatic, ProperServices, ProperAddresses, LOCAL_SERVICE_CATALOG;
      ghost var net := allocator.Seen();
      var needed := LocalPortsNeedNormalization();
      if !needed {
        return true;
      }
      var resolved := allocator.Resolve(TrimSpace(ports), LOCAL_SERVICE_CATALOG);
      if resolved.Err? || !written {
        return false;
      }
      CatalogIsProper();
      ResolvedIsStable(net, TrimSpace(ports), LOCAL_SERVICE_CATALOG, net);
      ports := resolved.value;
      return true;
    }
  }

  lemma NothingHeld()
    ensures SetOf([]) == {}
  {
  }

  lemma HeldTogether(a: seq<Binding>, b: seq<Binding>)
    ensures SetOf(a + b) == SetOf(a) + SetOf(b)
    ensures forall x :: x in SetOf(b) <==> x in b
  {
  }

  lemma NoServices(net: Net, ports: map<string, nat>)
    ensures Assign(net, ports, []) == Ok(ports) && forall s :: !Knows([], s)
  {
  }

  lemma KnowsNext(services: seq<Service>, i: nat)
    requires i < |services|
    ensures forall s :: Knows(services[..i + 1], s) <==> Knows(services[..i], s) || s == services[i].name
  {
    assert services[..i + 1][..i] == services[..i];
    KnowsSplit(services[..i + 1]);
  }

  lemma FoundIsNew(net: Net, reserved: set<nat>, service: Service)
    requires net.minimum > 0 && Search(net, reserved, service).Ok?
    ensures Search(net, reserved, service).value > 0 && Search(net, reserved, service).value !in reserved
  {
  }

  lemma NextService(net: Net, ports: map<string, nat>, services: seq<Service>, i: nat)
    requires i < |services| && Assign(net, ports, services[..i]).Ok?
    ensures var m := Assign(net, ports, services[..i]).value;
      Assign(net, ports, services[..i + 1]) ==
        if !Automatic(m, services[i]) then Ok(m)
        else match Search(net, PortsOf(m), services[i])
          case Err(e) => Err(e)
          case Ok(p) => Ok(m[services[i].name := p])
  {
    hide Search, Automatic;
    assert services[..i + 1][..i] == services[..i];
  }

  lemma {:induction false} FirstFailureDecides(net: Net, ports: map<string, nat>, services: seq<Service>, i: nat)
    requires i <= |services| && Assign(net, ports, services[..i]).Err?
    ensures Assign(net, ports, services) == Assign(net, ports, services[..i])
    decreases |services| - i
  {
    hide Search, Automatic;
    if i == |services| {
      assert services[..i] == services;
    } else {
      assert services[..i + 1][..i] == services[..i];
      FirstFailureDecides(net, ports, services, i + 1);
    }
  }

  lemma SearchWithoutHosts(net: Net, reserved: set<nat>, service: Service)
    requires net.hosts.None?
    ensures Search(net, reserved, service) == Err(NoLoopback)
  {
  }

  lemma PortsAfter(ports: map<string, nat>, name: string, port: nat)
    requires (name !in ports || ports[name] == 0) && port > 0
    ensures PortsOf(ports[name := port]) == PortsOf(ports) + {port}
  {
    var m := ports[name := port];
    assert m[name] in PortsOf(m);
    forall p | p in PortsOf(ports) ensures p in PortsOf(m) {
      var s :| s in ports && ports[s] == p && p > 0;
      assert m[s] == p;
    }
  }

  /** Listeners held on reserved ports do not change what is found. */
  lemma SearchIgnoresHeld(net: Net, now: Net, reserved: set<nat>, held: set<Binding>, service: Service)
    requires now == net.(taken := net.taken + held) && forall b :: b in held ==> b.port in reserved
    ensures Search(now, reserved, service) == Search(net, reserved, service)
  {
    hide Usable;
    forall q: nat ensures Usable(now, reserved, q) <==> Usable(net, reserved, q) {
      SameUsable(net, now, reserved, held, q);
    }
    var from := service.defaultHostPort;
    if InRange(net, from) {
      var f, g := FirstUsable(net, reserved, from, net.maximum + 1), FirstUsable(now, reserved, from, net.maximum + 1);
      var h, k := FirstUsable(net, reserved, net.minimum, from), FirstUsable(now, reserved, net.minimum, from);
    }
  }

  lemma SameUsable(net: Net, now: Net, reserved: set<nat>, held: set<Binding>, q: nat)
    requires now == net.(taken := net.taken + held) && forall b :: b in held ==> b.port in reserved
    ensures Usable(now, reserved, q) <==> Usable(net, reserved, q)
  {
  }

  lemma FirstIs(net: Net, reserved: set<nat>, low: nat, high: nat, p: nat)
    requires low <= p < high && Usable(net, reserved, p) && forall q :: low <= q < p ==> !Usable(net, reserved, q)
    ensures FirstUsable(net, reserved, low, high) == p
  {
    var f := FirstUsable(net, reserved, low, high);
  }

  lemma NoneIs(net: Net, reserved: set<nat>, low: nat, high: nat)
    requires low <= high && forall q :: low <= q < high ==> !Usable(net, reserved, q)
    ensures FirstUsable(net, reserved, low, high) == high
  {
    var f := FirstUsable(net, reserved, low, high);
  }
}
