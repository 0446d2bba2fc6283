/** What a Nano start works on (internal/localinstall, internal/deploy/local_credentials.go):
    directories, containers and the stored credentials, and what the database inside a running
    container may do to them on its own. */
module NanoWorld {
  import opened Text

  const CONF := "exasol.conf"
  const INIT_MARKER := ".exanano-initial-create-in-progress"
  const TLS_FILES := ["certificates/fullchain.pem", "certificates/privkey.pem"]

  /** A database, and the bootstrap password it was initialised with, if any. */
  datatype Database = Database(id: nat, password: Option<string>)

  /** A directory: its files, and the database that it holds whole. A partial copy may hold
      the database's files, even its configuration, but not the database. */
  datatype Tree = Tree(files: set<string>, database: Option<Database>)

  const EMPTY := Tree({}, None)

  /** A container keeps its data in its own overlay, or in the data directory. */
  datatype Storage = Overlay(tree: Tree) | Bind

  /** First initialisation: a bootstrap container reads its password when it begins. */
  datatype Init = NotBegun | Begun(password: Option<string>)

  datatype Container = Container(running: bool, storage: Storage, bootstrap: bool, init: Init)

  datatype Secrets = Missing | Stored(password: string)

  datatype CredentialMarker = CredentialMarker(generated: bool, verified: bool)

  datatype World = World(
    data: Option<Tree>,              // the data directory, if it exists
    others: map<string, Tree>,       // staging and quarantine directories next to it
    main: Option<Container>,         // the container with the deployment's name
    legacy: map<string, Container>,  // containers with names of earlier versions
    bootstrapFile: Option<string>,   // the initial password handed to the first container
    secrets: Secrets,                // secrets.json
    marker: CredentialMarker)        // the credential marker; missing reads as neither

  // ----- databases are whole -----

  predicate TreeWf(t: Tree) {
    t.database.Some? ==> CONF in t.files
  }

  predicate ContainerWf(c: Container) {
    c.storage.Overlay? ==> TreeWf(c.storage.tree)
  }

  ghost predicate Wf(w: World) {
    && (w.data.Some? ==> TreeWf(w.data.value))
    && (w.main.Some? ==> ContainerWf(w.main.value))
    && (forall d :: d in w.others ==> TreeWf(w.others[d]))
    && (forall c :: c in w.legacy ==> ContainerWf(w.legacy[c]))
  }

  predicate InContainer(c: Container, d: Database) {
    c.storage.Overlay? && c.storage.tree.database == Some(d)
  }

  /** The database is whole in the data directory, a staging or quarantine directory, or the
      overlay of a container. */
  ghost predicate Holds(w: World, d: Database) {
    || OnDisk(w, d)
    || (w.main.Some? && InContainer(w.main.value, d))
    || InLegacy(w, d)
  }

  ghost predicate OnDisk(w: World, d: Database) {
    || (w.data.Some? && w.data.value.database == Some(d))
    || (exists o :: o in w.others && w.others[o].database == Some(d))
  }

  ghost predicate InLegacy(w: World, d: Database) {
    exists c :: c in w.legacy && InContainer(w.legacy[c], d)
  }

  ghost predicate Preserved(before: World, after: World) {
    forall d :: Holds(before, d) ==> Holds(after, d)
  }

  /** No database in the data directory or next to it is lost. */
  ghost predicate DiskKept(before: World, after: World) {
    forall d :: OnDisk(before, d) ==> OnDisk(after, d)
  }

  predicate NoOverlay(c: Container) {
    c.storage.Overlay? ==> c.storage.tree.database.None?
  }

  /** No container keeps a database in its own overlay. */
  ghost predicate NoOverlayDatabase(w: World) {
    (w.main.Some? ==> NoOverlay(w.main.value)) && forall c :: c in w.legacy ==> NoOverlay(w.legacy[c])
  }

  lemma DiskIsEnough(before: World, after: World)
    requires NoOverlayDatabase(before) && DiskKept(before, after)
    ensures Preserved(before, after)
  {
    forall d | Holds(before, d) ensures Holds(after, d) {
      assert OnDisk(before, d);
    }
  }

  /** The database in the container's overlay, if any, is held somewhere else too. */
  ghost predicate MainIsRedundant(w: World) {
    w.main.Some? && !NoOverlay(w.main.value) ==>
      OnDisk(w, w.main.value.storage.tree.database.value) || InLegacy(w, w.main.value.storage.tree.database.value)
  }

  /** Removing the container, whatever it holds, loses nothing exactly when the database in its
      overlay, if any, is held somewhere else too. */
  lemma RemovalPreservesExactly(w: World)
    ensures Preserved(w, w.(main := None)) <==> MainIsRedundant(w)
    ensures DiskKept(w, w.(main := None))
  {
    var v := w.(main := None);
    assert forall d :: OnDisk(v, d) <==> OnDisk(w, d);
    assert forall d :: InLegacy(v, d) <==> InLegacy(w, d);
    if Preserved(w, v) && w.main.Some? && !NoOverlay(w.main.value) {
      assert Holds(w, w.main.value.storage.tree.database.value);
    }
  }

  // ----- the stored password is the database's -----

  predicate Recorded(w: World, password: string) {
    w.secrets == Stored(password) && w.marker.generated
  }

  predicate LegacyPassword(c: Container) {
    && !(c.init.Begun? && c.init.password.Some?)
    && (c.storage.Overlay? && c.storage.tree.database.Some? ==> c.storage.tree.database.value.password == None)
  }

  ghost predicate Agree(w: World) {
    && (w.bootstrapFile.Some? ==> Recorded(w, w.bootstrapFile.value))
    && (w.data.Some? && w.data.value.database.Some? && w.data.value.database.value.password.Some? ==>
          Recorded(w, w.data.value.database.value.password.value))
    && (w.main.Some? && w.main.value.running && w.main.value.init.Begun? && w.main.value.init.password.Some? ==>
          Recorded(w, w.main.value.init.password.value))
    && (w.main.Some? ==> if w.main.value.bootstrap then w.main.value.storage.Bind? else LegacyPassword(w.main.value))
    && (forall c :: c in w.legacy ==> !w.legacy[c].bootstrap && LegacyPassword(w.legacy[c]))
  }

  /** A generated password that no login has confirmed yet. */
  predicate Pending(w: World) {
    w.marker.generated && !w.marker.verified
  }

  /** A well-formed state in which a clean-up destroys the only copy of a database: a start found
      an unmigrated container beside a data directory with content, and the marker is pending. */
  lemma CleanUpCanLose()
    ensures var d := Database(1, None);
      var w := World(Some(Tree({"leftover"}, None)), map[], Some(Container(false, Overlay(Tree({CONF}, Some(d))), false, NotBegun)),
                     map[], None, Stored("secret"), CredentialMarker(true, false));
      Wf(w) && Agree(w) && Pending(w) && Holds(w, d) && !Holds(w.(main := None), d)
  {
  }

  /** Nothing alive or stored depends on the current password: it may be replaced. */
  predicate NoPasswordInUse(w: World) {
    && w.bootstrapFile.None?
    && (w.data.Some? && w.data.value.database.Some? ==> w.data.value.database.value.password == None)
    && (w.main.Some? ==> !w.main.value.running)
  }

  /** A change that loses no database and keeps the stored password right. */
  ghost predicate Safe(a: World, b: World) {
    && (Wf(a) ==> Wf(b))
    && (Agree(a) ==> Agree(b))
    && Preserved(a, b) && DiskKept(a, b)
  }

  lemma SafeReflexive(a: World)
    ensures Safe(a, a)
  {
  }

  lemma SafeTransitive(a: World, b: World, c: World)
    requires Safe(a, b) && Safe(b, c)
    ensures Safe(a, c)
  {
    hide Wf, Agree, Holds, OnDisk;
  }

  // ----- what the database may do by itself -----

  predicate TreeRan(s: Tree, t: Tree) {
    && (s.database.Some? ==> t.database == s.database)
    && (CONF in s.files ==> CONF in t.files)
  }

  predicate ContainerRan(a: Container, b: Container) {
    && b.storage.Bind? == a.storage.Bind? && b.bootstrap == a.bootstrap
    && (b.running ==> a.running)
    && (!a.running ==> b == a)
    && (a.storage.Overlay? ==> TreeRan(a.storage.tree, b.storage.tree))
  }

  predicate DataMounted(w: World) {
    w.main.Some? && w.main.value.running && w.main.value.storage.Bind?
  }

  /** `b` is `a` after the database of a running container worked for a while: it may have
      initialised and written its own files, and it may have exited. */
  ghost predicate Ran(a: World, b: World) {
    && b.others == a.others && b.legacy == a.legacy
    && b.bootstrapFile == a.bootstrapFile && b.secrets == a.secrets && b.marker == a.marker
    && (if a.main.Some? then b.main.Some? && ContainerRan(a.main.value, b.main.value) else b.main.None?)
    && (if a.data.Some? then b.data.Some? && TreeRan(a.data.value, b.data.value) else b.data.None?)
    && (!DataMounted(a) ==> b.data == a.data)
    && (Wf(a) ==> Wf(b))
    && (Agree(a) ==> Agree(b))
  }

  lemma RanIsSafe(a: World, b: World)
    requires Ran(a, b)
    ensures Safe(a, b)
  {
    hide Wf, Agree;
  }

  lemma RanReflexive(w: World)
    ensures Ran(w, w)
  {
    hide Wf, Agree;
  }

  lemma RanTransitive(a: World, b: World, c: World)
    requires Ran(a, b) && Ran(b, c)
    ensures Ran(a, c)
  {
    hide Wf, Agree;
  }

  /** No database runs in the main container. */
  predicate Quiet(w: World) {
    w.main.Some? ==> !w.main.value.running
  }

  lemma QuietStays(a: World, b: World)
    requires Quiet(a) && Ran(a, b)
    ensures b == a
  {
  }

  // ----- one step of the database -----

  datatype DatabaseStep = Writes(files: set<string>) | BeginsInit | WritesConf(id: nat) | EndsInit | Exits

  function TreeOf(w: World): Option<Tree> {
    if w.main.None? then None
    else if w.main.value.storage.Overlay? then Some(w.main.value.storage.tree)
    else w.data
  }

  function WithTree(w: World, t: Tree): World
    requires w.main.Some?
  {
    if w.main.value.storage.Overlay? then w.(main := Some(w.main.value.(storage := Overlay(t)))) else w.(data := Some(t))
  }

  function WithInit(w: World, init: Init): World
    requires w.main.Some?
  {
    w.(main := Some(w.main.value.(init := init)))
  }

  /** Ordinary writes keep the configuration and the marker as they are. The initialisation of
      a fresh directory sets the marker, with the password read by then writes the
      configuration, and removes the marker. */
  function DatabaseDoes(w: World, step: DatabaseStep): World {
    if w.main.None? || !w.main.value.running || TreeOf(w).None? then w
    else
      var c, t := w.main.value, TreeOf(w).value;
      match step
      case Writes(files) =>
        if (CONF in files) == (CONF in t.files) && (INIT_MARKER in files) == (INIT_MARKER in t.files) then
          WithTree(w, t.(files := files))
        else w
      case BeginsInit =>
        if CONF in t.files || c.init.Begun? || (c.bootstrap && w.bootstrapFile.None?) then w
        else WithInit(WithTree(w, t.(files := t.files + {INIT_MARKER})), Begun(if c.bootstrap then w.bootstrapFile else None))
      case WritesConf(id) =>
        if CONF in t.files || t.database.Some? || c.init.NotBegun? then w
        else WithTree(w, Tree(t.files + {CONF}, Some(Database(id, c.init.password))))
      case EndsInit => WithTree(w, t.(files := t.files - {INIT_MARKER}))
      case Exits => w.(main := Some(c.(running := false)))
  }

  lemma DatabaseDoesAgree(w: World, step: DatabaseStep)
    requires Agree(w)
    ensures Agree(DatabaseDoes(w, step))
  {
  }

  lemma DatabaseDoesRan(w: World, step: DatabaseStep)
    ensures Ran(w, DatabaseDoes(w, step))
  {
    hide Agree;
    if Agree(w) {
      DatabaseDoesAgree(w, step);
    }
  }
}
