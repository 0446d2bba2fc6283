/** Sidecar containers (internal/localinstall/sidecars.go, internal/deploy/sidecars.go): a pass
    over the desired sidecars that replaces what differs and removes what is not wanted. */
module Sidecars {
  import opened Text

  datatype Port = Port(hostIP: string, hostPort: nat)

  /** A container's port and the host's port for it, as the definition declares it once defaults
      are filled in, or as it is bound. With a host port of 0 it stays inside. */
  datatype Mapping = Mapping(host: Port, containerPort: nat)

  /** A desired sidecar, with the fingerprint of its container if its references resolve. */
  datatype Definition = Definition(name: string, ports: seq<Mapping>, fingerprint: Option<string>)

  /** A container as the engine lists it, with its owner, sidecar and definition labels. */
  datatype Container = Container(
    id: string, name: string, owner: string, sidecar: string, definition: string, running: bool, ports: seq<Mapping>)

  function ContainerName(owner: string, sidecar: string): string {
    owner + "-sidecar-" + sidecar
  }

  lemma ContainerNameInjective(owner: string, a: string, b: string)
    requires ContainerName(owner, a) == ContainerName(owner, b)
    ensures a == b
  {
    var head := owner + "-sidecar-";
    assert a == (head + a)[|head|..] && b == (head + b)[|head|..];
  }

  predicate Listed(owner: string, c: Container) {
    c.owner == owner && c.sidecar != ""
  }

  predicate Serves(owner: string, c: Container, name: string) {
    Listed(owner, c) && c.sidecar == name
  }

  predicate Good(c: Container, fingerprint: string) {
    c.running && c.definition == fingerprint
  }

  // ----- what the engine holds -----

  /** The engine keeps identifiers and names unique. */
  ghost predicate Unique(containers: set<Container>) {
    forall c, d :: c in containers && d in containers && (c.id == d.id || c.name == d.name) ==> c == d
  }

  /** The owner's sidecars carry the names that the launcher gives them. */
  ghost predicate Launched(owner: string, containers: set<Container>) {
    forall c :: c in containers && Listed(owner, c) ==> c.name == ContainerName(owner, c.sidecar)
  }

  ghost predicate Sound(owner: string, containers: set<Container>) {
    Unique(containers) && Launched(owner, containers)
  }

  /** Exactly one container for the sidecar, running and as defined. */
  ghost predicate Served(owner: string, containers: set<Container>, d: Definition) {
    && d.fingerprint.Some?
    && (exists c :: c in containers && Serves(owner, c, d.name) && Good(c, d.fingerprint.value))
    && (forall x, y :: x in containers && y in containers && Serves(owner, x, d.name) && Serves(owner, y, d.name) ==> x == y)
  }

  ghost predicate Wanted(desired: seq<Definition>, name: string) {
    exists i :: 0 <= i < |desired| && desired[i].name == name
  }

  /** Every desired sidecar served and nothing else of this owner there. */
  ghost predicate Converged(owner: string, containers: set<Container>, desired: seq<Definition>) {
    && (forall i :: 0 <= i < |desired| ==> Served(owner, containers, desired[i]))
    && (forall c :: c in containers && Listed(owner, c) ==> Wanted(desired, c.sidecar))
  }

  /** Nothing changed but containers of this sidecar. */
  ghost predicate OnlyTouches(owner: string, before: set<Container>, after: set<Container>, name: string) {
    forall c :: !Serves(owner, c, name) ==> (c in before <==> c in after)
  }

  /** Nothing changed outside the owner's sidecars. */
  ghost predicate KeepsOthers(owner: string, before: set<Container>, after: set<Container>) {
    forall c :: !Listed(owner, c) ==> (c in before <==> c in after)
  }

  predicate Proper(desired: seq<Definition>) {
    && (forall i :: 0 <= i < |desired| ==> desired[i].name != "")
    && (forall i, j :: 0 <= i < j < |desired| ==> desired[i].name != desired[j].name)
  }

  lemma AtMostOne(owner: string, containers: set<Container>, x: Container, y: Container)
    requires Sound(owner, containers) && x in containers && y in containers
    requires Listed(owner, x) && Listed(owner, y) && x.sidecar == y.sidecar
    ensures x == y
  {
  }

  lemma OneMoreIsSound(owner: string, before: set<Container>, c: Container)
    requires Sound(owner, before) && c.name == ContainerName(owner, c.sidecar)
    requires forall x :: x in before ==> x.id != c.id && x.name != c.name
    ensures Sound(owner, before + {c})
  {
  }

  lemma StaysServed(owner: string, before: set<Container>, after: set<Container>, d: Definition, other: string)
    requires Served(owner, before, d) && OnlyTouches(owner, before, after, other) && d.name != other
    ensures Served(owner, after, d)
  {
    var c :| c in before && Serves(owner, c, d.name) && Good(c, d.fingerprint.value);
    assert c in after;
  }

  /** The engine gave the owner's containers identifiers. */
  ghost predicate Identified(owner: string, containers: set<Container>) {
    forall c :: c in containers && Listed(owner, c) ==> c.id != ""
  }

  /** No container of someone else has the name that this sidecar's container gets. */
  ghost predicate NameFree(owner: string, containers: set<Container>, name: string) {
    forall c :: c in containers && !Listed(owner, c) ==> c.name != ContainerName(owner, name)
  }

  /** Nothing but a failure can keep the desired sidecars from being served. */
  ghost predicate Servable(owner: string, containers: set<Container>, desired: seq<Definition>) {
    Identified(owner, containers)
    && forall i :: 0 <= i < |desired| ==> desired[i].fingerprint.Some? && NameFree(owner, containers, desired[i].name)
  }

  lemma NameIsUnused(owner: string, containers: set<Container>, name: string)
    requires Sound(owner, containers) && NameFree(owner, containers, name) && forall c :: c in containers ==> !Serves(owner, c, name)
    ensures forall c :: c in containers ==> c.name != ContainerName(owner, name)
  {
    forall c | c in containers && Listed(owner, c) ensures c.name != ContainerName(owner, name) {
      if ContainerName(owner, c.sidecar) == ContainerName(owner, name) {
        ContainerNameInjective(owner, c.sidecar, name);
      }
    }
  }

  lemma NamesStayFree(owner: string, before: set<Container>, after: set<Container>, desired: seq<Definition>)
    requires Servable(owner, before, desired) && KeepsOthers(owner, before, after) && Identified(owner, after)
    ensures Servable(owner, after, desired)
  {
  }

  // ----- the engine and the owner's sidecars in it -----

  datatype Attachment = Attached | Unreachable | RestartRequired | AttachFailed

  class SidecarRuntime {
    const owner: string
    /** Nothing fails that the engine could do. */
    const reliable: bool
    var containers: set<Container>
    /** How many removals and creations were asked of the engine. */
    var changes: nat

    constructor (owner: string, containers: set<Container>, reliable: bool)
      ensures this.owner == owner && this.containers == containers && changes == 0 && this.reliable == reliable
    {
      this.owner, this.containers, changes, this.reliable := owner, containers, 0, reliable;
    }

    /** The owner's sidecars in any order, or a failure. */
    method List() returns (r: Option<seq<Container>>)
      ensures r.Some? ==> IsListing(owner, containers, r.value)
      ensures reliable ==> r.Some?
    {
      var failed: bool := *;
      if failed && !reliable {
        return None;
      }
      var found, left := [], containers;
      while left != {}
        invariant left <= containers
        invariant forall c :: c in found <==> c in containers && c !in left && Listed(owner, c)
        invariant forall i, j :: 0 <= i < j < |found| ==> found[i] != found[j]
        decreases left
      {
        var c :| c in left;
        left := left - {c};
        if Listed(owner, c) {
          found := found + [c];
        }
      }
      return Some(found);
    }

    /** The engine removes a container; a failure may still have removed it. */
    method RemoveContainer(c: Container) returns (ok: bool)
      requires Sound(owner, containers) && c in containers
      modifies this
      ensures containers == old(containers) || containers == old(containers) - {c}
      ensures ok ==> containers == old(containers) - {c}
      ensures Sound(owner, containers)
      ensures reliable && c.id != "" ==> ok
    {
      if c.id == "" {
        return false;
      }
      changes := changes + 1;
      var gone: bool;
      ok, gone := *, *;
      ok := ok || reliable;
      if ok || gone {
        containers := set x | x in containers && x.id != c.id;
      }
    }

    /** The engine creates and starts a container. A failure may leave it there, not running. */
    method Create(name: string, fingerprint: string) returns (ok: bool)
      requires Sound(owner, containers)
      modifies this
      ensures OnlyTouches(owner, old(containers), containers, name) || name == ""
      ensures Sound(owner, containers)
      ensures ok ==> exists c :: containers == old(containers) + {c} && c !in old(containers) && Good(c, fingerprint)
                       && c.owner == owner && c.sidecar == name
      ensures reliable ==> (ok <==> forall c :: c in old(containers) ==> c.name != ContainerName(owner, name))
      ensures Identified(owner, old(containers)) ==> Identified(owner, containers)
    {
      changes := changes + 1;
      var id := FreshName((set x | x in containers :: x.id) + {""});
      var started: bool, refused: bool, bound: seq<Mapping>;
      started, refused, bound := *, *, *;
      started, refused := started || reliable, refused && !reliable;
      var c := Container(id, ContainerName(owner, name), owner, name, fingerprint, started, bound);
      if refused || exists x :: x in containers && x.name == c.name {
        return false;
      }
      ghost var before := containers;
      forall x | x in before ensures x.id != id {
        assert x.id in set y | y in before :: y.id;
      }
      OneMoreIsSound(owner, containers, c);
      containers := containers + {c};
      assert containers == before + {c} && c !in before;
      return started;
    }

    /** Removes what differs from the definition, up to a container that agrees with it. */
    method Converge(name: string, fingerprint: string) returns (converged: bool, ok: bool)
      requires Sound(owner, containers)
      modifies this
      ensures Sound(owner, containers) && containers <= old(containers)
      ensures OnlyTouches(owner, old(containers), containers, name)
      ensures converged ==> ok && Served(owner, containers, Definition(name, [], Some(fingerprint)))
      ensures !converged && ok ==> forall c :: c in containers ==> !Serves(owner, c, name)
      ensures Served(owner, old(containers), Definition(name, [], Some(fingerprint))) ==>
                containers == old(containers) && changes == old(changes) && (ok ==> converged)
      ensures reliable && Identified(owner, old(containers)) ==> ok
    {
      hide Sound;
      var listing := List();
      if listing.None? {
        return false, false;
      }
      var found := listing.value;
      ghost var d := Definition(name, [], Some(fingerprint));
      for i := 0 to |found|
        invariant Sound(owner, containers) && containers <= old(containers)
        invariant OnlyTouches(owner, old(containers), containers, name)
        invariant forall k :: i <= k < |found| ==> found[k] in containers
        invariant forall k :: 0 <= k < i && found[k].sidecar == name ==> found[k] !in containers
        invariant Served(owner, old(containers), d) ==>
                    containers == old(containers) && changes == old(changes) && forall k :: 0 <= k < i ==> found[k].sidecar != name
      {
        var c := found[i];
        assert c in found;
        if c.sidecar != name {
          continue;
        }
        if Good(c, fingerprint) {
          forall x, y | x in containers && y in containers && Serves(owner, x, name) && Serves(owner, y, name) ensures x == y {
            AtMostOne(owner, containers, x, y);
          }
          return true, true;
        }
        assert !Served(owner, old(containers), d);
        var removed := RemoveContainer(c);
        if !removed {
          return false, false;
        }
      }
      NoneLeft(owner, old(containers), containers, found, name);
      return false, true;
    }

    /** Makes sure that the sidecar runs as defined, touching nothing but its own containers and,
        where it is served already, not even these. */
    method Ensure(d: Definition) returns (ok: bool)
      requires Sound(owner, containers) && d.name != ""
      modifies this
      ensures Sound(owner, containers)
      ensures OnlyTouches(owner, old(containers), containers, d.name)
      ensures ok ==> Served(owner, containers, d)
      ensures Served(owner, old(containers), d) ==> containers == old(containers) && changes == old(changes)
      ensures Identified(owner, old(containers)) ==> Identified(owner, containers)
      ensures reliable && d.fingerprint.Some? && Identified(owner, old(containers)) && NameFree(owner, old(containers), d.name) ==> ok
    {
      hide Sound;
      if d.fingerprint.None? {
        return false;
      }
      var converged;
      converged, ok := Converge(d.name, d.fingerprint.value);
      SameService(owner, old(containers), d);
      SameService(owner, containers, d);
      if !ok || converged {
        return;
      }
      var unwritten: bool := *;
      if unwritten && !reliable {
        return false;  // the file with the environment
      }
      ghost var cleared := containers;
      if NameFree(owner, old(containers), d.name) {
        NameIsUnused(owner, cleared, d.name);
      }
      ok := Create(d.name, d.fingerprint.value);
      if ok {
        ghost var c :| containers == cleared + {c} && c !in cleared && Good(c, d.fingerprint.value) && c.owner == owner && c.sidecar == d.name;
        assert Serves(owner, c, d.name);
      }
    }

    /** Removes every container of a sidecar. */
    method Remove(name: string) returns (ok: bool)
      requires Sound(owner, containers)
      modifies this
      ensures Sound(owner, containers) && containers <= old(containers)
      ensures OnlyTouches(owner, old(containers), containers, name)
      ensures ok ==> forall c :: c in containers ==> !Serves(owner, c, name)
      ensures reliable && Identified(owner, old(containers)) ==> ok
    {
      hide Sound;
      var listing := List();
      if listing.None? {
        return false;
      }
      var found := listing.value;
      ok := true;
      for i := 0 to |found|
        invariant Sound(owner, containers) && containers <= old(containers)
        invariant OnlyTouches(owner, old(containers), containers, name)
        invariant forall k :: i <= k < |found| ==> found[k] in containers
        invariant ok ==> forall k :: 0 <= k < i && found[k].sidecar == name ==> found[k] !in containers
        invariant reliable && Identified(owner, old(containers)) ==> ok
      {
        var c := found[i];
        assert c in found;
        if c.sidecar == name {
          var removed := RemoveContainer(c);
          ok := ok && removed;
        }
      }
      if ok {
        NoneLeft(owner, old(containers), containers, found, name);
      }
    }
  }

  lemma SameService(owner: string, containers: set<Container>, d: Definition)
    requires d.fingerprint.Some?
    ensures Served(owner, containers, d) <==> Served(owner, containers, Definition(d.name, [], d.fingerprint))
  {
  }

  lemma NoneLeft(owner: string, before: set<Container>, after: set<Container>, found: seq<Container>, name: string)
    requires after <= before && forall c :: c in found <==> c in before && Listed(owner, c)
    requires forall k :: 0 <= k < |found| && found[k].sidecar == name ==> found[k] !in after
    ensures forall c :: c in after ==> !Serves(owner, c, name)
  {
    forall c | c in after && Listed(owner, c) ensures c.sidecar != name {
      assert c in found;
      var k :| 0 <= k < |found| && found[k] == c;
    }
  }

  // ----- one pass -----

  /** A host port to open for a sidecar, and the port of the runtime that it leads to, 0 while
      there is none. */
  datatype Published = Published(sidecar: string, index: nat, mapping: Mapping, runtimePort: nat)

  /** The ports of one sidecar that have a host port. */
  function PublishedOf(name: string, ports: seq<Mapping>): seq<Published> {
    if ports == [] then []
    else
      var n := |ports| - 1;
      PublishedOf(name, ports[..n]) + if ports[n].host.hostPort > 0 then [Published(name, n, ports[n], 0)] else []
  }

  function Declared(ports: seq<Mapping>): seq<Port> {
    if ports == [] then []
    else
      var n := |ports| - 1;
      Declared(ports[..n]) + if ports[n].host.hostPort > 0 then [ports[n].host] else []
  }

  function AllToOpen(desired: seq<Definition>): seq<Published> {
    if desired == [] then []
    else
      var last := desired[|desired| - 1];
      AllToOpen(desired[..|desired| - 1]) + PublishedOf(last.name, last.ports)
  }

  function Unrouted(ports: seq<Published>): (r: seq<Published>)
    ensures |r| == |ports| && forall i :: 0 <= i < |r| ==> r[i] == ports[i].(runtimePort := 0)
  {
    seq(|ports|, i requires 0 <= i < |ports| => ports[i].(runtimePort := 0))
  }

  /** A running container of the sidecar has bound this port of the runtime for its own. */
  ghost predicate Binds(c: Container, sidecar: string, containerPort: nat, hostPort: nat) {
    && c.running && c.sidecar == sidecar && hostPort > 0
    && exists i :: 0 <= i < |c.ports| && c.ports[i].containerPort == containerPort && c.ports[i].host.hostPort == hostPort
  }

  /** A runtime port is one that a running container has bound, and 0 only if there is none. */
  ghost predicate Routed(listing: seq<Container>, p: Published) {
    if p.runtimePort > 0 then
      exists c :: c in listing && Binds(c, p.sidecar, p.mapping.containerPort, p.runtimePort)
    else
      forall c, port: nat :: c in listing ==> !Binds(c, p.sidecar, p.mapping.containerPort, port)
  }

  /** Every declared host port of every desired sidecar is open, and leads to where a running
      container listens. */
  ghost predicate Opened(owner: string, containers: set<Container>, desired: seq<Definition>, openPorts: seq<Published>) {
    && Unrouted(openPorts) == AllToOpen(desired)
    && exists listing :: IsListing(owner, containers, listing) && forall i :: 0 <= i < |openPorts| ==> Routed(listing, openPorts[i])
  }

  ghost predicate IsListing(owner: string, containers: set<Container>, listing: seq<Container>) {
    && (forall c :: c in listing <==> c in containers && Listed(owner, c))
    && (forall i, j :: 0 <= i < j < |listing| ==> listing[i] != listing[j])
  }

  type Key = (string, nat)

  ghost predicate BoundIn(listing: seq<Container>, bound: map<Key, nat>) {
    && (forall k :: k in bound ==> bound[k] > 0 && exists c :: c in listing && Binds(c, k.0, k.1, bound[k]))
    && (forall c, sidecar: string, containerPort: nat, port: nat :: c in listing && Binds(c, sidecar, containerPort, port) ==> (sidecar, containerPort) in bound)
  }

  /** The first bound port for each port of each sidecar. */
  method BoundContainerPorts(containers: seq<Container>) returns (bound: map<Key, nat>)
    ensures BoundIn(containers, bound)
  {
    bound := map[];
    for i := 0 to |containers|
      invariant BoundIn(containers[..i], bound)
    {
      var c := containers[i];
      assert containers[..i + 1] == containers[..i] + [c];
      ghost var before := bound;
      for k := 0 to |c.ports|
        invariant forall q :: q in before ==> q in bound && bound[q] == before[q]
        invariant forall q :: q in bound && q !in before ==> Binds(c, q.0, q.1, bound[q])
        invariant c.running ==> forall j :: 0 <= j < k && c.ports[j].host.hostPort > 0 ==> (c.sidecar, c.ports[j].containerPort) in bound
      {
        var port := c.ports[k];
        var key := (c.sidecar, port.containerPort);
        if c.running && port.host.hostPort > 0 && key !in bound {
          bound := bound[key := port.host.hostPort];
        }
      }
      OneMoreBound(containers[..i], c, before, bound);
    }
    assert containers[..|containers|] == containers;
  }

  lemma OneMoreBound(listing: seq<Container>, c: Container, before: map<Key, nat>, bound: map<Key, nat>)
    requires BoundIn(listing, before)
    requires forall q :: q in before ==> q in bound && bound[q] == before[q]
    requires forall q :: q in bound && q !in before ==> Binds(c, q.0, q.1, bound[q])
    requires c.running ==> forall j :: 0 <= j < |c.ports| && c.ports[j].host.hostPort > 0 ==> (c.sidecar, c.ports[j].containerPort) in bound
    ensures BoundIn(listing + [c], bound)
  {
    forall k | k in bound ensures bound[k] > 0 && exists x :: x in listing + [c] && Binds(x, k.0, k.1, bound[k]) {
      if k in before {
        var x :| x in listing && Binds(x, k.0, k.1, before[k]);
        assert x in listing + [c];
      } else {
        assert c in listing + [c];
      }
    }
  }

  ghost predicate Accounted(owner: string, containers: set<Container>, desired: seq<Definition>, failures: set<string>) {
    && (forall i :: 0 <= i < |desired| && desired[i].name !in failures ==> Served(owner, containers, desired[i]))
    && (forall c :: c in containers && Listed(owner, c) && !Wanted(desired, c.sidecar) ==> c.sidecar in failures)
  }

  class DeploymentSidecars {
    const runtime: SidecarRuntime
    /** The host ports that are open for sidecars. */
    var openPorts: seq<Published>
    /** The sidecars with a recorded failure. */
    var recorded: set<string>

    constructor (runtime: SidecarRuntime)
      ensures this.runtime == runtime && openPorts == [] && recorded == {}
    {
      this.runtime, openPorts, recorded := runtime, [], {};
    }

    method EnsureAll(desired: seq<Definition>, unreachable: bool) returns (failures: set<string>)
      requires Proper(desired) && Sound(runtime.owner, runtime.containers)
      modifies runtime
      ensures Sound(runtime.owner, runtime.containers)
      ensures KeepsOthers(runtime.owner, old(runtime.containers), runtime.containers)
      ensures forall i :: 0 <= i < |desired| && desired[i].name !in failures ==> Served(runtime.owner, runtime.containers, desired[i])
      ensures Converged(runtime.owner, old(runtime.containers), desired) ==>
                runtime.containers == old(runtime.containers) && runtime.changes == old(runtime.changes)
      ensures Identified(runtime.owner, old(runtime.containers)) ==> Identified(runtime.owner, runtime.containers)
      ensures runtime.reliable && !unreachable && Servable(runtime.owner, old(runtime.containers), desired) ==> failures == {}
      ensures unreachable ==> runtime.containers == old(runtime.containers) && forall i :: 0 <= i < |desired| ==> desired[i].name in failures
    {
      hide Sound, Served;
      failures := {};
      for i := 0 to |desired|
        invariant Sound(runtime.owner, runtime.containers)
        invariant KeepsOthers(runtime.owner, old(runtime.containers), runtime.containers)
        invariant forall k :: 0 <= k < i && desired[k].name !in failures ==> Served(runtime.owner, runtime.containers, desired[k])
        invariant Converged(runtime.owner, old(runtime.containers), desired) ==>
                    runtime.containers == old(runtime.containers) && runtime.changes == old(runtime.changes)
        invariant Identified(runtime.owner, old(runtime.containers)) ==> Identified(runtime.owner, runtime.containers)
        invariant unreachable ==> runtime.containers == old(runtime.containers) && forall k :: 0 <= k < i ==> desired[k].name in failures
        invariant runtime.reliable && !unreachable && Servable(runtime.owner, old(runtime.containers), desired) ==> failures == {}
      {
        var d := desired[i];
        if Servable(runtime.owner, old(runtime.containers), desired) {
          NamesStayFree(runtime.owner, old(runtime.containers), runtime.containers, desired);
        }
        if unreachable {
          failures := failures + {d.name};
          continue;
        }
        ghost var before := runtime.containers;
        var ok := runtime.Ensure(d);
        if !ok {
          failures := failures + {d.name};
        }
        forall k | 0 <= k < i && desired[k].name !in failures ensures Served(runtime.owner, runtime.containers, desired[k]) {
          StaysServed(runtime.owner, before, runtime.containers, desired[k], d.name);
        }
      }
    }

    method OwnedNames(containers: seq<Container>) returns (names: seq<string>)
      ensures forall c :: c in containers && c.sidecar != "" ==> c.sidecar in names
      ensures forall n :: n in names ==> exists c :: c in containers && c.sidecar == n
      ensures forall i, j :: 0 <= i < j < |names| ==> names[i] != names[j]
    {
      names := [];
      for i := 0 to |containers|
        invariant forall k :: 0 <= k < i && containers[k].sidecar != "" ==> containers[k].sidecar in names
        invariant forall n :: n in names ==> exists c :: c in containers && c.sidecar == n
        invariant forall j, k :: 0 <= j < k < |names| ==> names[j] != names[k]
      {
        var name := containers[i].sidecar;
        assert containers[i] in containers;
        if name != "" && name !in names {
          names := names + [name];
        }
      }
    }

    method RemoveUndesired(desired: seq<Definition>, failed: set<string>) returns (failures: set<string>, ok: bool)
      requires Sound(runtime.owner, runtime.containers)
      requires forall i :: 0 <= i < |desired| && desired[i].name !in failed ==> Served(runtime.owner, runtime.containers, desired[i])
      modifies runtime
      ensures Sound(runtime.owner, runtime.containers)
      ensures KeepsOthers(runtime.owner, old(runtime.containers), runtime.containers)
      ensures failed <= failures && (ok ==> Accounted(runtime.owner, runtime.containers, desired, failures))
      ensures Converged(runtime.owner, old(runtime.containers), desired) ==>
                runtime.containers == old(runtime.containers) && runtime.changes == old(runtime.changes)
      ensures runtime.reliable && Identified(runtime.owner, old(runtime.containers)) ==> ok && failures == failed
    {
      hide Sound, Served;
      failures := failed;
      var listing := runtime.List();
      if listing.None? {
        return failures, false;
      }
      var names := OwnedNames(listing.value);
      ghost var owner := runtime.owner;
      for i := 0 to |names|
        invariant Sound(owner, runtime.containers) && runtime.containers <= old(runtime.containers) && failed <= failures
        invariant KeepsOthers(owner, old(runtime.containers), runtime.containers)
        invariant forall k :: 0 <= k < |desired| && desired[k].name !in failures ==> Served(owner, runtime.containers, desired[k])
        invariant forall k, c :: 0 <= k < i && c in runtime.containers && Serves(owner, c, names[k]) ==>
                    Wanted(desired, names[k]) || names[k] in failures
        invariant Converged(owner, old(runtime.containers), desired) ==>
                    runtime.containers == old(runtime.containers) && runtime.changes == old(runtime.changes)
        invariant runtime.reliable && Identified(owner, old(runtime.containers)) ==> failures == failed
      {
        var name := names[i];
        if exists k :: 0 <= k < |desired| && desired[k].name == name {
          continue;
        }
        assert !Converged(owner, old(runtime.containers), desired) by {
          assert name in names;
          var c :| c in listing.value && c.sidecar == name;
          assert !Wanted(desired, c.sidecar);
        }
        ghost var before := runtime.containers;
        var removed := runtime.Remove(name);
        if !removed {
          failures := failures + {name};
        }
        forall k | 0 <= k < |desired| && desired[k].name !in failures ensures Served(owner, runtime.containers, desired[k]) {
          StaysServed(owner, before, runtime.containers, desired[k], name);
        }
      }
      forall c | c in runtime.containers && Listed(owner, c) && !Wanted(desired, c.sidecar) ensures c.sidecar in failures {
        assert c in listing.value;
        var k :| 0 <= k < |names| && names[k] == c.sidecar;
        assert Serves(owner, c, names[k]);
      }
      return failures, true;
    }

    /** Opens the declared host ports where the containers' own bindings stay behind a boundary. */
    method Publish(desired: seq<Definition>, forwards: bool) returns (ok: bool)
      modifies `openPorts
      ensures ok && forwards ==> Opened(runtime.owner, runtime.containers, desired, openPorts)
      ensures !(ok && forwards) ==> openPorts == old(openPorts)
      ensures runtime.reliable ==> ok
    {
      hide Routed, IsListing, BoundIn;
      var listing := runtime.List();
      if listing.None? {
        return false;
      }
      var bound := BoundContainerPorts(listing.value);
      var ports := [];
      NothingToOpen();
      assert desired[..0] == [] && Unrouted([]) == [];
      for i := 0 to |desired|
        invariant Unrouted(ports) == AllToOpen(desired[..i]) && openPorts == old(openPorts)
        invariant forall k :: 0 <= k < |ports| ==> Routed(listing.value, ports[k])
      {
        NextToOpen(desired, i);
        var own := PublishedFor(listing.value, desired[i], bound);
        UnroutedParts(ports, own);
        ports := ports + own;
      }
      assert desired[..|desired|] == desired;
      ok := *;
      ok := ok || runtime.reliable;
      if ok && forwards {
        openPorts := ports;
      }
    }

    method PublishedFor(ghost listing: seq<Container>, d: Definition, bound: map<Key, nat>) returns (ports: seq<Published>)
      requires BoundIn(listing, bound)
      ensures Unrouted(ports) == PublishedOf(d.name, d.ports)
      ensures forall k :: 0 <= k < |ports| ==> Routed(listing, ports[k])
    {
      hide Routed, BoundIn;
      ports := [];
      for index := 0 to |d.ports|
        invariant Unrouted(ports) == PublishedOf(d.name, d.ports[..index])
        invariant forall k :: 0 <= k < |ports| ==> Routed(listing, ports[k])
      {
        var port := d.ports[index];
        assert d.ports[..index + 1][..index] == d.ports[..index];
        if port.host.hostPort == 0 {
          continue;
        }
        var key := (d.name, port.containerPort);
        var next := Published(d.name, index, port, if key in bound then bound[key] else 0);
        RoutedThere(listing, bound, next);
        UnroutedParts(ports, [next]);
        ports := ports + [next];
      }
      assert d.ports[..|d.ports|] == d.ports;
    }

    /** One pass. If it reports no error, every desired sidecar without a failure is served and
        every other sidecar of this owner is gone or has a failure; a pass over what is already
        as desired asks the engine for no change, whatever fails. */
    method ApplySidecars(desired: seq<Definition>, forwards: bool) returns (applied: bool, failures: set<string>, ok: bool)
      requires Proper(desired) && Sound(runtime.owner, runtime.containers)
      modifies runtime, `openPorts
      ensures Sound(runtime.owner, runtime.containers)
      ensures KeepsOthers(runtime.owner, old(runtime.containers), runtime.containers)
      ensures !applied ==> runtime.containers == old(runtime.containers) && openPorts == old(openPorts)
      ensures applied && ok ==> Accounted(runtime.owner, runtime.containers, desired, failures)
      ensures applied && ok && failures == {} ==> Converged(runtime.owner, runtime.containers, desired)
      ensures applied && ok && forwards ==> Opened(runtime.owner, runtime.containers, desired, openPorts)
      ensures applied && ok && failures == {} && PortsBound(runtime.owner, runtime.containers, desired, openPorts) ==>
                AllComplete(runtime.owner, runtime.containers, desired, openPorts)
      ensures Converged(runtime.owner, old(runtime.containers), desired) ==>
                runtime.containers == old(runtime.containers) && runtime.changes == old(runtime.changes)
      ensures runtime.reliable && Servable(runtime.owner, old(runtime.containers), desired) ==>
                applied && ok && failures == {} && Converged(runtime.owner, runtime.containers, desired)
    {
      hide Sound, Served, Opened, PortsBound, AllComplete;
      var hostRunning: bool, reachedHost: bool, haveSecrets: bool;
      var attachment: Attachment := *;
      hostRunning, reachedHost, haveSecrets := *, *, *;
      if runtime.reliable {
        hostRunning, reachedHost, haveSecrets, attachment := true, true, true, Attached;
      }
      if !reachedHost || !hostRunning {
        return false, {}, reachedHost;
      }
      if desired != [] && (attachment == AttachFailed || attachment == RestartRequired) {
        return false, {}, false;
      }
      if !haveSecrets {
        return false, {}, false;
      }
      applied := true;
      failures := EnsureAll(desired, desired != [] && attachment == Unreachable);
      failures, ok := RemoveUndesired(desired, failures);
      if ok {
        ok := Publish(desired, forwards);
      }
      if ok && failures == {} && PortsBound(runtime.owner, runtime.containers, desired, openPorts) {
        ConvergedIsComplete(runtime.owner, runtime.containers, desired, openPorts);
      }
    }

    /** A pass and the record of its failures. `touched` tells whether there is a document or a
        record at all, `document` what the document desires, if they can be read. A deployment that
        never had sidecars is left alone. Otherwise every desired sidecar of a deployment that
        could be reached is afterwards served or recorded as failed. */
    method Reconcile(touched: Option<bool>, document: Option<seq<Definition>>, cleanup: bool, forwards: bool) returns (reached: bool, ok: bool)
      requires (document.Some? ==> Proper(document.value)) && Sound(runtime.owner, runtime.containers)
      modifies runtime, this
      ensures Sound(runtime.owner, runtime.containers)
      ensures KeepsOthers(runtime.owner, old(runtime.containers), runtime.containers)
      ensures touched != Some(true) || (document.None? && !cleanup) ==>
                !reached && runtime.containers == old(runtime.containers) && runtime.changes == old(runtime.changes)
                && (ok <==> touched == Some(false))
      ensures ok && reached && !cleanup ==>
                forall i :: 0 <= i < |document.value| ==>
                  document.value[i].name in recorded || Served(runtime.owner, runtime.containers, document.value[i])
      ensures ok && reached && recorded == {} ==> Converged(runtime.owner, runtime.containers, if cleanup then [] else document.value)
      ensures !reached || !ok ==> recorded == old(recorded)
      ensures (runtime.reliable && touched == Some(true) && document.Some?
               && Servable(runtime.owner, old(runtime.containers), if cleanup then [] else document.value)) ==> reached && ok && recorded == {}
    {
      hide Sound, Served, Converged, Accounted, Opened, PortsBound, AllComplete;
      if touched != Some(true) {
        return false, touched == Some(false);
      }
      if document.None? && !cleanup {
        return false, false;
      }
      var all := if document.Some? then document.value else [];
      var desired := if cleanup then [] else all;
      var applied, failures, passed := ApplySidecars(desired, forwards);
      var written: bool := *;
      written := written || runtime.reliable;
      if !passed {
        if all == [] || !written {
          return true, false;
        }
        failures := set d | d in all :: d.name;
        assert all[0] in all;
        assert all[0].name in failures;
        forall i | 0 <= i < |all| ensures all[i].name in failures {
          assert all[i] in all;
        }
      } else if !applied {
        return false, true;
      } else {
        AccountedFor(runtime.owner, runtime.containers, desired, failures);
        if !written {
          return true, false;
        }
      }
      recorded := failures;
      return true, true;
    }
  }

  lemma AccountedFor(owner: string, containers: set<Container>, desired: seq<Definition>, failures: set<string>)
    requires Accounted(owner, containers, desired, failures)
    ensures forall i :: 0 <= i < |desired| ==> desired[i].name in failures || Served(owner, containers, desired[i])
  {
    hide Served;
  }

  lemma NothingToOpen()
    ensures AllToOpen([]) == []
  {
  }

  lemma NextToOpen(desired: seq<Definition>, i: nat)
    requires i < |desired|
    ensures AllToOpen(desired[..i + 1]) == AllToOpen(desired[..i]) + PublishedOf(desired[i].name, desired[i].ports)
  {
    hide PublishedOf;
    assert desired[..i + 1][..i] == desired[..i];
  }

  lemma UnroutedParts(a: seq<Published>, b: seq<Published>)
    ensures Unrouted(a + b) == Unrouted(a) + Unrouted(b)
  {
  }

  lemma RoutedThere(listing: seq<Container>, bound: map<Key, nat>, p: Published)
    requires BoundIn(listing, bound)
    requires p.runtimePort == if (p.sidecar, p.mapping.containerPort) in bound then bound[(p.sidecar, p.mapping.containerPort)] else 0
    ensures Routed(listing, p)
  {
    hide Binds;
  }

  // ----- what is reported -----

  function Bracketed(ip: string): string {
    if ':' in ip then "[" + ip + "]" else ip
  }

  function HostAddress(p: Port): string {
    Bracketed(p.hostIP) + ":" + Itoa(p.hostPort)
  }

  lemma SamePrefix(a: string, x: string, b: string, y: string)
    requires a + ":" + x == b + ":" + y && ':' !in x && |a| <= |b|
    ensures a == b && x == y
  {
    var t := a + ":" + x;
    assert t == b + ":" + y;
    assert t[|b|] == ':';
    assert forall k :: |a| < k < |t| ==> t[k] == x[k - |a| - 1];
    assert t[..|a|] == a && t[..|b|] == b && t[|a| + 1..] == x && t[|b| + 1..] == y;
  }

  lemma NoColonInNumber(n: nat)
    ensures ':' !in Itoa(n)
  {
    ItoaValue(n);
    hide Itoa;
  }

  lemma BracketedInjective(a: string, b: string)
    requires Bracketed(a) == Bracketed(b)
    ensures a == b
  {
    ColonStays(a);
    ColonStays(b);
    if ':' in a {
      assert Bracketed(a)[1..|a| + 1] == a && Bracketed(b)[1..|b| + 1] == b;
    }
  }

  lemma ColonStays(ip: string)
    ensures ':' in ip <==> ':' in Bracketed(ip)
  {
    if ':' in ip {
      var i :| 0 <= i < |ip| && ip[i] == ':';
      assert Bracketed(ip)[i + 1] == ':';
    }
  }

  /** The text of an address tells addresses apart. */
  lemma HostAddressInjective(p: Port, q: Port)
    requires HostAddress(p) == HostAddress(q)
    ensures p == q
  {
    hide Bracketed, Itoa;
    var a, b := Bracketed(p.hostIP), Bracketed(q.hostIP);
    NoColonInNumber(p.hostPort);
    NoColonInNumber(q.hostPort);
    if |a| <= |b| {
      SamePrefix(a, Itoa(p.hostPort), b, Itoa(q.hostPort));
    } else {
      SamePrefix(b, Itoa(q.hostPort), a, Itoa(p.hostPort));
    }
    ItoaInjective(p.hostPort, q.hostPort);
    BracketedInjective(p.hostIP, q.hostIP);
  }

  function Addresses(ports: seq<Port>): (r: seq<string>)
    ensures |r| == |ports| && forall i :: 0 <= i < |r| ==> r[i] == HostAddress(ports[i])
  {
    seq(|ports|, i requires 0 <= i < |ports| => HostAddress(ports[i]))
  }

  lemma AddressesPrefix(ports: seq<Port>, i: nat)
    requires i < |ports|
    ensures Addresses(ports[..i + 1]) == Addresses(ports[..i]) + [HostAddress(ports[i])]
  {
  }

  lemma {:induction false} AddressCount(ports: seq<Port>, p: Port)
    ensures multiset(Addresses(ports))[HostAddress(p)] == multiset(ports)[p]
  {
    hide HostAddress;
    if ports != [] {
      var n := |ports| - 1;
      AddressCount(ports[..n], p);
      AddressesPrefix(ports, n);
      assert ports[..n + 1] == ports && ports == ports[..n] + [ports[n]];
      if HostAddress(ports[n]) == HostAddress(p) {
        HostAddressInjective(ports[n], p);
      }
    }
  }

  lemma SameAddresses(a: seq<Port>, b: seq<Port>)
    ensures multiset(Addresses(a)) == multiset(Addresses(b)) <==> multiset(a) == multiset(b)
  {
    hide HostAddress;
    if multiset(Addresses(a)) == multiset(Addresses(b)) {
      forall p: Port ensures multiset(a)[p] == multiset(b)[p] {
        AddressCount(a, p);
        AddressCount(b, p);
      }
    }
    if multiset(a) == multiset(b) {
      forall t: string ensures multiset(Addresses(a))[t] == multiset(Addresses(b))[t] {
        if i :| 0 <= i < |a| && HostAddress(a[i]) == t {
          AddressCount(a, a[i]);
          AddressCount(b, a[i]);
        } else if i :| 0 <= i < |b| && HostAddress(b[i]) == t {
          AddressCount(a, b[i]);
          AddressCount(b, b[i]);
        } else {
          assert t !in Addresses(a) && t !in Addresses(b);
        }
      }
    }
  }

  function CountIn(counts: map<string, int>, t: string): int {
    if t in counts then counts[t] else 0
  }

  ghost predicate CountsAre(counts: map<string, int>, plus: multiset<string>, minus: multiset<string>) {
    forall t :: CountIn(counts, t) + minus[t] == plus[t]
  }

  lemma CountUp(counts: map<string, int>, plus: multiset<string>, address: string)
    requires CountsAre(counts, plus, multiset{})
    ensures CountsAre(counts[address := CountIn(counts, address) + 1], plus + multiset{address}, multiset{})
  {
  }

  lemma CountDown(counts: map<string, int>, plus: multiset<string>, minus: multiset<string>, address: string)
    requires CountsAre(counts, plus, minus)
    ensures CountsAre(counts[address := CountIn(counts, address) - 1], plus, minus + multiset{address})
  {
  }

  lemma AllZero(counts: map<string, int>, plus: multiset<string>, minus: multiset<string>)
    requires CountsAre(counts, plus, minus)
    ensures (forall t :: t in counts ==> counts[t] == 0) <==> plus == minus
  {
    if forall t :: t in counts ==> counts[t] == 0 {
      forall t: string ensures plus[t] == minus[t] {
        assert CountIn(counts, t) == 0;
      }
    }
    if plus == minus {
      forall t | t in counts ensures counts[t] == 0 {
        assert CountIn(counts, t) == 0;
      }
    }
  }

  lemma DeclaredNext(ports: seq<Mapping>, i: nat)
    requires i < |ports|
    ensures multiset(Addresses(Declared(ports[..i + 1]))) ==
      if ports[i].host.hostPort > 0 then multiset(Addresses(Declared(ports[..i]))) + multiset{HostAddress(ports[i].host)}
      else multiset(Addresses(Declared(ports[..i])))
  {
    hide HostAddress;
    assert ports[..i + 1][..i] == ports[..i];
    if ports[i].host.hostPort > 0 {
      assert Addresses(Declared(ports[..i + 1])) == Addresses(Declared(ports[..i])) + [HostAddress(ports[i].host)];
    } else {
      assert Declared(ports[..i + 1]) == Declared(ports[..i]);
    }
  }

  /** The endpoints are the declared host ports, each as often as it is declared. */
  method EndpointsMatch(ports: seq<Mapping>, endpoints: seq<Port>) returns (r: bool)
    ensures r <==> multiset(endpoints) == multiset(Declared(ports))
  {
    hide HostAddress, CountsAre, Declared, CountIn;
    var declared: map<string, int> := map[];
    NothingCounted();
    assert ports[..0] == [] && endpoints[..0] == [];
    for i := 0 to |ports|
      invariant CountsAre(declared, multiset(Addresses(Declared(ports[..i]))), multiset{})
    {
      DeclaredNext(ports, i);
      if ports[i].host.hostPort > 0 {
        var address := HostAddress(ports[i].host);
        CountUp(declared, multiset(Addresses(Declared(ports[..i]))), address);
        declared := declared[address := CountIn(declared, address) + 1];
      }
    }
    assert ports[..|ports|] == ports;
    ghost var wanted := multiset(Addresses(Declared(ports)));
    for i := 0 to |endpoints|
      invariant CountsAre(declared, wanted, multiset(Addresses(endpoints[..i])))
    {
      var address := HostAddress(endpoints[i]);
      AddressesPrefix(endpoints, i);
      CountDown(declared, wanted, multiset(Addresses(endpoints[..i])), address);
      declared := declared[address := CountIn(declared, address) - 1];
    }
    assert endpoints[..|endpoints|] == endpoints;
    AllZero(declared, wanted, multiset(Addresses(endpoints)));
    SameAddresses(endpoints, Declared(ports));
    r := AllAreZero(declared);
  }

  lemma NothingCounted()
    ensures CountsAre(map[], multiset(Addresses(Declared([]))), multiset{})
  {
  }

  method AllAreZero(counts: map<string, int>) returns (r: bool)
    ensures r <==> forall t :: t in counts ==> counts[t] == 0
  {
    var left := counts.Keys;
    while left != {}
      invariant left <= counts.Keys && forall t :: t in counts && t !in left ==> counts[t] == 0
      decreases left
    {
      var t :| t in left;
      left := left - {t};
      if counts[t] != 0 {
        return false;
      }
    }
    return true;
  }

  /** One listed container, as a status command sees it. */
  datatype Observation = Observation(name: string, running: bool, matches: bool, endpoints: seq<Port>)

  function OpenedFor(openPorts: seq<Published>, name: string): seq<Port> {
    if openPorts == [] then []
    else
      var n := |openPorts| - 1;
      OpenedFor(openPorts[..n], name) + if openPorts[n].sidecar == name then [openPorts[n].mapping.host] else []
  }

  /** Ports opened for the sidecar replace the bindings that stay behind the boundary. */
  function Endpoints(c: Container, openPorts: seq<Published>): seq<Port> {
    var forwarded := OpenedFor(openPorts, c.sidecar);
    if !c.running then [] else if forwarded != [] then forwarded else Declared(c.ports)
  }

  function Observe(c: Container, d: Definition, openPorts: seq<Published>): Observation {
    Observation(
      c.sidecar, c.running,
      d.fingerprint.Some? && c.sidecar == d.name && Good(c, d.fingerprint.value),
      Endpoints(c, openPorts))
  }

  /** What is observed of one sidecar, in the order of the listing. */
  function ObservationsFor(listing: seq<Container>, d: Definition, openPorts: seq<Published>): seq<Observation> {
    if listing == [] then []
    else
      var n := |listing| - 1;
      ObservationsFor(listing[..n], d, openPorts) + if listing[n].sidecar == d.name then [Observe(listing[n], d, openPorts)] else []
  }

  datatype Reconciliation = Complete | Pending

  /** The endpoints reported are those of the last running container. */
  method Describe(observed: seq<Observation>) returns (endpoints: seq<Port>)
    ensures forall i :: 0 <= i < |observed| && observed[i].running && (forall k :: i < k < |observed| ==> !observed[k].running) ==>
              endpoints == observed[i].endpoints
    ensures (forall i :: 0 <= i < |observed| ==> !observed[i].running) ==> endpoints == []
  {
    endpoints := [];
    for i := 0 to |observed|
      invariant forall j :: 0 <= j < i && observed[j].running && (forall k :: j < k < i ==> !observed[k].running) ==>
                  endpoints == observed[j].endpoints
      invariant (forall j :: 0 <= j < i ==> !observed[j].running) ==> endpoints == []
    {
      if observed[i].running {
        endpoints := observed[i].endpoints;
      }
    }
  }

  function Report(enabled: bool, databaseRunning: bool, restartRequired: bool, d: Definition, observed: seq<Observation>): Reconciliation {
    if !enabled || !databaseRunning then if observed == [] then Complete else Pending
    else if !restartRequired && |observed| == 1 && observed[0].running && observed[0].matches
            && multiset(observed[0].endpoints) == multiset(Declared(d.ports)) then Complete
    else Pending
  }

  /** Complete for a wanted sidecar: one container, running, as defined, reachable where it is
      declared to be. Complete for any other: nothing left of it. */
  method ReportReconciliation(enabled: bool, databaseRunning: bool, restartRequired: bool, d: Definition, observed: seq<Observation>)
      returns (r: Reconciliation)
    ensures r == Report(enabled, databaseRunning, restartRequired, d, observed)
    ensures enabled && databaseRunning ==>
      (r == Complete <==>
        !restartRequired && |observed| == 1 && observed[0].running && observed[0].matches
        && multiset(observed[0].endpoints) == multiset(Declared(d.ports)))
    ensures !(enabled && databaseRunning) ==> (r == Complete <==> observed == [])
  {
    var endpoints := Describe(observed);
    if !enabled || !databaseRunning {
      return if observed == [] && endpoints == [] then Complete else Pending;
    }
    if restartRequired || |observed| != 1 {
      return Pending;
    }
    if !observed[0].running || !observed[0].matches {
      return Pending;
    }
    var same := EndpointsMatch(d.ports, endpoints);
    return if same then Complete else Pending;
  }

  // ----- after a pass without failures -----

  lemma {:induction false} ObservedNone(listing: seq<Container>, d: Definition, openPorts: seq<Published>)
    requires forall c :: c in listing ==> c.sidecar != d.name
    ensures ObservationsFor(listing, d, openPorts) == []
  {
    if listing != [] {
      ObservedNone(listing[..|listing| - 1], d, openPorts);
      assert listing[|listing| - 1] in listing;
    }
  }

  lemma {:induction false} ObservedOnce(listing: seq<Container>, d: Definition, openPorts: seq<Published>, c: Container)
    requires c in listing && c.sidecar == d.name
    requires forall x :: x in listing && x.sidecar == d.name ==> x == c
    requires forall i, j :: 0 <= i < j < |listing| ==> listing[i] != listing[j]
    ensures ObservationsFor(listing, d, openPorts) == [Observe(c, d, openPorts)]
  {
    var n := |listing| - 1;
    assert listing == listing[..n] + [listing[n]];
    if listing[n] == c {
      forall x | x in listing[..n] ensures x.sidecar != d.name {
        var k :| 0 <= k < n && listing[..n][k] == x;
        assert listing[k] != listing[n];
      }
      ObservedNone(listing[..n], d, openPorts);
    } else {
      assert listing[n] in listing;
      ObservedOnce(listing[..n], d, openPorts, c);
    }
  }

  /** Once a pass has converged, a status command observes each desired sidecar once, running and
      as defined; so it reports completion exactly when the ports are bound as declared. */
  lemma ConvergedIsObserved(owner: string, containers: set<Container>, desired: seq<Definition>, listing: seq<Container>,
                            openPorts: seq<Published>, i: nat) returns (c: Container)
    requires Converged(owner, containers, desired) && IsListing(owner, containers, listing) && i < |desired|
    ensures c in containers && Serves(owner, c, desired[i].name) && c.running
    ensures ObservationsFor(listing, desired[i], openPorts)
         == [Observation(desired[i].name, true, true, Endpoints(c, openPorts))]
  {
    var d := desired[i];
    c :| c in containers && Serves(owner, c, d.name) && Good(c, d.fingerprint.value);
    forall x | x in listing && x.sidecar == d.name ensures x == c {
      assert Serves(owner, x, d.name);
    }
    ObservedOnce(listing, d, openPorts, c);
  }

  lemma {:induction false} OpenedInParts(a: seq<Published>, b: seq<Published>, name: string)
    ensures OpenedFor(a + b, name) == OpenedFor(a, name) + OpenedFor(b, name)
  {
    if b == [] {
      assert a + b == a;
    } else {
      assert (a + b)[..|a + b| - 1] == a + b[..|b| - 1];
      OpenedInParts(a, b[..|b| - 1], name);
    }
  }

  lemma {:induction false} OpenedOfOne(sidecar: string, ports: seq<Mapping>, name: string)
    ensures OpenedFor(PublishedOf(sidecar, ports), name) == if sidecar == name then Declared(ports) else []
  {
    if ports != [] {
      var n := |ports| - 1;
      var last := [Published(sidecar, n, ports[n], 0)];
      OpenedOfOne(sidecar, ports[..n], name);
      if ports[n].host.hostPort > 0 {
        OpenedInParts(PublishedOf(sidecar, ports[..n]), last, name);
        assert last[..0] == [];
        assert OpenedFor(last, name) == if sidecar == name then [ports[n].host] else [];
      } else {
        assert PublishedOf(sidecar, ports) == PublishedOf(sidecar, ports[..n]) && Declared(ports) == Declared(ports[..n]);
      }
    }
  }

  lemma {:induction false} OpenedUnrouted(openPorts: seq<Published>, name: string)
    ensures OpenedFor(Unrouted(openPorts), name) == OpenedFor(openPorts, name)
  {
    if openPorts != [] {
      var n := |openPorts| - 1;
      OpenedUnrouted(openPorts[..n], name);
      assert Unrouted(openPorts)[..n] == Unrouted(openPorts[..n]);
    }
  }

  lemma {:induction false} OpenedOfAll(desired: seq<Definition>, name: string)
    requires Proper(desired)
    ensures !Wanted(desired, name) ==> OpenedFor(AllToOpen(desired), name) == []
    ensures forall i :: 0 <= i < |desired| && desired[i].name == name ==> OpenedFor(AllToOpen(desired), name) == Declared(desired[i].ports)
  {
    hide OpenedFor, Declared, PublishedOf;
    if desired == [] {
      NothingOpened(name);
    } else {
      var n := |desired| - 1;
      OpenedOfAll(desired[..n], name);
      OpenedInParts(AllToOpen(desired[..n]), PublishedOf(desired[n].name, desired[n].ports), name);
      OpenedOfOne(desired[n].name, desired[n].ports, name);
      forall i | 0 <= i < n && desired[i].name == name ensures desired[..n][i] == desired[i] && desired[n].name != name {
      }
      if desired[n].name == name {
        assert !Wanted(desired[..n], name);
      }
    }
  }

  lemma NothingOpened(name: string)
    ensures OpenedFor(AllToOpen([]), name) == []
  {
  }

  /** The endpoints of every container of a desired sidecar are the declared host ports. */
  ghost predicate PortsBound(owner: string, containers: set<Container>, desired: seq<Definition>, openPorts: seq<Published>) {
    forall i, c :: 0 <= i < |desired| && c in containers && Serves(owner, c, desired[i].name) && c.running ==>
      multiset(Endpoints(c, openPorts)) == multiset(Declared(desired[i].ports))
  }

  /** A status command reports completion for every desired sidecar, whatever the order in which
      containers are listed. */
  ghost predicate AllComplete(owner: string, containers: set<Container>, desired: seq<Definition>, openPorts: seq<Published>) {
    forall i, listing :: 0 <= i < |desired| && IsListing(owner, containers, listing) ==>
      Report(true, true, false, desired[i], ObservationsFor(listing, desired[i], openPorts)) == Complete
  }

  /** A converged pass with ports bound as declared makes the report complete for each sidecar. */
  lemma ConvergedIsComplete(owner: string, containers: set<Container>, desired: seq<Definition>, openPorts: seq<Published>)
    requires Converged(owner, containers, desired) && PortsBound(owner, containers, desired, openPorts)
    ensures AllComplete(owner, containers, desired, openPorts)
  {
    hide Converged, Endpoints, Declared, ObservationsFor, IsListing;
    forall i, listing | 0 <= i < |desired| && IsListing(owner, containers, listing)
      ensures Report(true, true, false, desired[i], ObservationsFor(listing, desired[i], openPorts)) == Complete
    {
      var c := ConvergedIsObserved(owner, containers, desired, listing, openPorts, i);
    }
  }

  /** Where host ports are forwarded, the ports after a pass are bound as declared; a sidecar that
      declares none must have bound none. */
  lemma ForwardedAsDeclared(owner: string, containers: set<Container>, desired: seq<Definition>, openPorts: seq<Published>)
    requires Proper(desired) && Opened(owner, containers, desired, openPorts)
    requires forall i, c :: 0 <= i < |desired| && c in containers && Serves(owner, c, desired[i].name) ==>
               Declared(desired[i].ports) != [] || Declared(c.ports) == []
    ensures PortsBound(owner, containers, desired, openPorts)
  {
    hide Declared, OpenedFor, Routed;
    forall i, c | 0 <= i < |desired| && c in containers && Serves(owner, c, desired[i].name) && c.running
      ensures Endpoints(c, openPorts) == Declared(desired[i].ports)
    {
      OpenedOfAll(desired, c.sidecar);
      OpenedUnrouted(openPorts, c.sidecar);
    }
  }
}
