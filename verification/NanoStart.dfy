/** Starting Nano (internal/localinstall/podman_install.go, podman_migration.go,
    podman_recovery.go): legacy adoption, overlay migration, recovery of an interrupted first
    start, and the container start. Every operation may succeed, fail, or be the last one
    before the launcher dies, and the database may work between any two of them; so what a
    method ensures of its final state, whatever its result, holds of every prefix of every run. */
module NanoStart {
  import opened Text
  import opened NanoWorld
  import opened NanoEffects

  datatype ContainerStatus = ContainerStatus(present: bool, running: bool)

  const ABSENT := ContainerStatus(false, false)

  datatype StartConfig = StartConfig(
    dataDir: string,
    legacyNames: seq<string>,
    hasInitialPassword: bool,
    preparesDataDir: bool,
    now: string)  // the clock, in the format of quarantine names

  const QUARANTINE_SUFFIX := ".failed-"
  const DEFAULT_PASSWORD := "exasol"

  function FilesOf(w: World): set<string> {
    if w.data.Some? then w.data.value.files else {}
  }

  function Certificates(): set<string> {
    {TLS_FILES[0], TLS_FILES[1]}
  }

  /** The first of the names that a container has, or none. */
  function FirstLegacy(names: seq<string>, legacy: map<string, Container>): (r: string)
    ensures r != "" ==> r in legacy
  {
    if names == [] then ""
    else if TrimSpace(names[0]) != "" && TrimSpace(names[0]) in legacy then TrimSpace(names[0])
    else FirstLegacy(names[1..], legacy)
  }

  /** The state that a start finds once a container of an earlier name has been adopted. */
  function AfterAdoption(w: World, names: seq<string>): World {
    if w.main.Some? || FirstLegacy(names, w.legacy) == "" then w else Adopted(w, FirstLegacy(names, w.legacy))
  }

  /** No container runs. */
  ghost predicate NothingRuns(w: World) {
    Quiet(w) && forall c :: c in w.legacy ==> !w.legacy[c].running
  }

  predicate HasOverlay(w: World) {
    w.main.Some? && w.main.value.storage.Overlay?
  }

  /** A container that is to be migrated finds a data directory with content. */
  predicate Blocked(w: World) {
    HasOverlay(w) && FilesOf(w) != {}
  }

  /** The files of the directory that a start hands to its container: those of a container that
      is migrated, or those found; none where a first initialisation did not finish. */
  function FilesStartedOn(w: World): set<string> {
    var files := if HasOverlay(w) && w.main.value.storage.tree.files != {} then w.main.value.storage.tree.files else FilesOf(w);
    if INIT_MARKER in files then {} else files
  }

  /** A container with data of its own was moved into the data directory: its database is on disk
      and the container that is there now uses the data directory. */
  ghost predicate MigrationDone(before: World, after: World) {
    && !Blocked(before)
    && (HasOverlay(before) && before.main.value.storage.tree.database.Some? ==> OnDisk(after, before.main.value.storage.tree.database.value))
  }

  /** From a state in which nothing runs: an unfinished directory was set aside whole under a new
      name, any other is the one started on and keeps its database, and the container was handed
      a first password exactly where the directory it was started on held no database. */
  ghost predicate RecoveryDone(before: World, after: World, hasPassword: bool) {
    && after.main.Some? && (after.main.value.bootstrap <==> CONF !in FilesStartedOn(before) && hasPassword)
    && var tree := (if HasOverlay(before) && before.main.value.storage.tree.files != {} then Some(before.main.value.storage.tree) else before.data);
       if tree.Some? && INIT_MARKER in tree.value.files then
         exists q :: q !in before.others && after.others == before.others[q := tree.value]
       else
         after.others == before.others
         && (tree.Some? && tree.value.database.Some? ==> after.data.Some? && after.data.value.database == tree.value.database)
  }

  predicate HasPassword(w: World) {
    w.secrets.Stored? && w.secrets.password != ""
  }

  /** The credentials are as before, or a generated password is stored. */
  predicate CredentialsUsable(before: World, after: World) {
    (after.secrets == before.secrets && after.marker == before.marker) || (after.marker.generated && HasPassword(after))
  }

  class NanoInstall {
    /** Nothing fails and nothing is cut off. */
    const reliable: bool
    var world: World
    ghost var origin: World  // the state that must not lose anything
    ghost var drawn: seq<string>  // the passwords generated so far
    ghost var removals: nat  // the attempts to remove the bootstrap file so far

    /** Well-formed, the stored password is right, and nothing of the origin is lost. */
    ghost predicate Sound()
      reads this
    {
      Wf(world) && Agree(world) && Safe(origin, world)
    }

    // ----- operations of the host and the container engine -----

    method DatabaseWorks()
      modifies `world
      ensures Ran(old(world), world)
    {
      hide Ran, DatabaseDoes;
      RanReflexive(world);
      var steps: int := *;
      while steps > 0
        invariant Ran(old(world), world)
      {
        steps := steps - 1;
        var step: DatabaseStep := *;
        ghost var before := world;
        DatabaseDoesRan(world, step);
        world := DatabaseDoes(world, step);
        RanTransitive(old(world), before, world);
      }
    }

    method Attempt(next: World) returns (r: Result)
      requires Sound() && Safe(world, next)
      modifies `world
      ensures Sound() && Attempted(old(world), next, r, world)
      ensures reliable ==> r == Ok
    {
      hide Ran, Wf, Agree, Preserved;
      r := *;
      if reliable {
        r := Ok;
      }
      var done: bool := *;
      if r == Ok || (r == Crashed && done) {
        world := next;
      }
      DatabaseWorks();
      AttemptedIsSafe(old(world), next, r, world);
      SafeTransitive(origin, old(world), world);
    }

    /** A step that changes nothing modelled here: a query, an image load, a network, a wait. */
    method Foreign() returns (r: Result)
      requires Sound()
      modifies `world
      ensures Sound() && Ran(old(world), world)
      ensures reliable ==> r == Ok
    {
      hide Ran, Wf, Agree, Safe;
      SafeReflexive(world);
      r := Attempt(world);
    }

    method InspectContainerStatus() returns (r: Result, status: ContainerStatus)
      requires Sound()
      modifies `world
      ensures Sound() && Ran(old(world), world)
      ensures status.present == world.main.Some?
      ensures !status.running ==> Quiet(world)
      ensures status.running ==> status.present
      ensures reliable ==> r == Ok
      ensures status.running ==> old(world).main.Some? && old(world).main.value.running
    {
      hide Wf, Agree, Safe;
      status := ContainerStatus(world.main.Some?, world.main.Some? && world.main.value.running);
      r := Foreign();
    }

    method RemoveBootstrapPassword() returns (r: Result)
      requires Sound()
      modifies `world, `removals
      ensures removals == old(removals) + 1
      ensures Sound() && Attempted(old(world), old(world).(bootstrapFile := None), r, world)
      ensures reliable ==> r == Ok
    {
      hide Ran, Wf, Agree, Safe;
      removals := removals + 1;
      RemovingBootstrapIsSafe(world);
      r := Attempt(world.(bootstrapFile := None));
    }

    method StopContainer() returns (r: Result)
      requires Sound()
      modifies `world
      ensures Sound() && Attempted(old(world), Stopped(old(world)), r, world)
      ensures reliable ==> r == Ok
    {
      hide Ran, Wf, Agree, Safe;
      StoppingIsSafe(world);
      r := Attempt(Stopped(world));
    }

    /** Without force the engine refuses to remove a running container. */
    method RemoveContainer(force: bool) returns (r: Result)
      requires Sound() && Safe(world, world.(main := None))
      modifies `world
      ensures Sound() && Attempted(old(world), old(world).(main := None), r, world)
      ensures reliable && (force || Quiet(old(world))) ==> r == Ok
    {
      hide Ran, Wf, Agree, Safe;
      if !force && world.main.Some? && world.main.value.running {
        r := Foreign();
        return Failed;
      }
      r := Attempt(world.(main := None));
    }

    method DataHasEntries() returns (r: Result, populated: bool)
      requires Sound()
      modifies `world
      ensures Sound() && Ran(old(world), world)
      ensures populated == (old(world).data.Some? && old(world).data.value.files != {})
      ensures reliable ==> r == Ok
    {
      hide Ran, Wf, Agree, Safe;
      populated := world.data.Some? && world.data.value.files != {};
      r := Foreign();
    }

    method DataHas(name: string) returns (r: Result, found: bool)
      requires Sound()
      modifies `world
      ensures Sound() && Ran(old(world), world)
      ensures found == (old(world).data.Some? && name in old(world).data.value.files)
      ensures reliable ==> r == Ok
    {
      hide Ran, Wf, Agree, Safe;
      found := world.data.Some? && name in world.data.value.files;
      r := Foreign();
    }

    method MkdirData() returns (r: Result)
      requires Sound()
      modifies `world
      ensures Sound() && Attempted(old(world), WithDataDir(old(world)), r, world)
      ensures reliable ==> r == Ok
    {
      hide Ran, Wf, Agree, Safe;
      MakingDataDirIsSafe(world);
      r := Attempt(WithDataDir(world));
    }

    /** Only an empty directory can be removed. */
    method RemoveDataDir() returns (r: Result)
      requires Sound()
      modifies `world
      ensures Sound() && Attempted(old(world), WithoutEmptyDataDir(old(world)), r, world)
      ensures r == Ok ==> WithoutEmptyDataDir(old(world)).data.None?
      ensures reliable && FilesOf(old(world)) == {} ==> r == Ok
    {
      hide Ran, Wf, Agree, Safe;
      if world.data.Some? && world.data.value.files != {} {
        r := Foreign();
        return Failed;
      }
      RemovingEmptyDataDirIsSafe(world);
      r := Attempt(WithoutEmptyDataDir(world));
    }

    // ----- adoption of a container with an earlier name -----

    /** Renames the first container with an earlier name, if there is none with the present one. */
    method AdoptLegacyContainerName(legacyNames: seq<string>) returns (r: Result)
      requires Sound() && world.bootstrapFile.None?
      modifies `world
      ensures Sound() && world.bootstrapFile.None?
      ensures r == Ok ==>
                Ran(if old(world).main.Some? || FirstLegacy(legacyNames, old(world).legacy) == "" then old(world)
                    else Adopted(old(world), FirstLegacy(legacyNames, old(world).legacy)), world)
      ensures world.marker == old(world).marker
      ensures reliable ==> r == Ok
      ensures world.secrets == old(world).secrets
    {
      hide Wf, Agree, Safe;
      ghost var before := world;
      var status;
      r, status := InspectContainerStatus();
      if r != Ok || status.present {
        return;
      }
      QuietStays(before, world);
      for i := 0 to |legacyNames|
        invariant Sound() && world == before && before.main.None? && before.bootstrapFile.None?
        invariant FirstLegacy(legacyNames, before.legacy) == FirstLegacy(legacyNames[i..], before.legacy)
      {
        assert legacyNames[i..][0] == legacyNames[i] && legacyNames[i..][1..] == legacyNames[i + 1..];
        var legacyName := TrimSpace(legacyNames[i]);
        if legacyName == "" {
          continue;
        }
        r := Foreign();
        QuietStays(before, world);
        if r != Ok {
          return;
        }
        if legacyName !in world.legacy {
          continue;
        }
        AdoptingIsSafe(world, legacyName);
        r := Attempt(Adopted(world, legacyName));
        return;
      }
      RanReflexive(world);
      return Ok;
    }

    // ----- migration of a legacy container's overlay -----

    /** Moves the staged tree into the place of the empty data directory. On any other result
        the staged tree is where it was, or already in place. */
    method InstallOverlayDataAtomically(stagingDir: string) returns (r: Result)
      requires Sound() && Quiet(world) && stagingDir in world.others
      requires world.others[stagingDir].database.Some? ==> world.others[stagingDir].database.value.password == None
      modifies `world
      ensures Sound() && world.main == old(world).main && world.bootstrapFile == old(world).bootstrapFile
      ensures r == Ok ==> world.data == Some(old(world).others[stagingDir])
      ensures world.marker == old(world).marker
      ensures reliable && FilesOf(old(world)) == {} ==> r == Ok
      ensures r == Ok ==> world == old(world).(data := world.data, others := old(world).others - {stagingDir})
      ensures world.secrets == old(world).secrets
    {
      hide Wf, Agree, Safe, Ran;
      var populated;
      r, populated := DataHasEntries();
      QuietStays(old(world), world);
      if r != Ok {
        return;
      }
      if populated {
        return Failed;
      }
      r := RemoveDataDir();
      QuietAttempt(old(world), WithoutEmptyDataDir(old(world)), r, world);
      if r != Ok {
        return;
      }
      ghost var cleared := world;
      MovingToDataIsSafe(world, stagingDir);
      r := Attempt(MovedToData(world, stagingDir));
      QuietAttempt(cleared, MovedToData(cleared, stagingDir), r, world);
      if r == Failed {
        r := MkdirData();
        QuietAttempt(cleared, WithDataDir(cleared), r, world);
        if r == Ok {
          r := Failed;
        }
      }
    }

    /** The engine copies the container's overlay into the staging directory. A failed or cut
        off copy may leave any part of it there. */
    method CopyFrom(stagingDir: string) returns (r: Result)
      requires Sound() && Quiet(world) && world.main.Some? && world.main.value.storage.Overlay?
      requires stagingDir in world.others && world.others[stagingDir].database.None?
      modifies `world
      ensures Sound()
      ensures stagingDir in world.others && world == old(world).(others := old(world).others[stagingDir := world.others[stagingDir]])
      ensures r == Ok ==> world.others[stagingDir] == world.main.value.storage.tree
      ensures r == Failed ==> world.others[stagingDir].database.None?
      ensures reliable ==> r == Ok
    {
      hide Wf, Agree, Safe, Ran;
      var whole := world.main.value.storage.tree;
      assert TreeWf(whole) by { MainIsWf(world); }
      r := *;
      if reliable {
        r := Ok;
      }
      ghost var before := world;
      var staged := whole;
      if r != Ok {
        var part: set<string> := *;
        staged := Tree(part * whole.files, None);
      }
      StagingIsSafe(world, stagingDir, staged);
      var done := Attempt(world.(others := world.others[stagingDir := staged]));
      QuietAttempt(before, before.(others := before.others[stagingDir := staged]), done, world);
      if r == Ok && done != Ok {
        return Crashed;
      }
    }

    lemma MainIsWf(w: World)
      requires Wf(w) && w.main.Some? && w.main.value.storage.Overlay?
      ensures TreeWf(w.main.value.storage.tree)
    {
    }

    lemma OverlayPassword(w: World)
      requires Agree(w) && w.main.Some? && w.main.value.storage.Overlay? && w.main.value.storage.tree.database.Some?
      ensures w.main.value.storage.tree.database.value.password == None
    {
    }

    /** Copies the data of a legacy container into the data directory and removes the container
        only when the copy is in place. */
    method MigrateOverlayDataIfNeeded(status: ContainerStatus) returns (r: Result, migrated: bool)
      requires Sound() && world.bootstrapFile.None? && status.present == world.main.Some?
      modifies `world
      ensures Sound() && world.bootstrapFile.None?
      ensures migrated ==> r == Ok && world.main.None?
      ensures migrated ==> old(world).main.Some? && old(world).main.value.storage.Overlay?
      ensures migrated && old(world).main.value.storage.tree.database.Some? ==>
                world.data.Some? && world.data.value.database == old(world).main.value.storage.tree.database
      ensures r == Ok && !migrated ==> Ran(old(world), world)
      ensures r == Ok && world.main.Some? ==> world.main.value.storage.Bind?
      ensures world.marker == old(world).marker
      ensures r == Ok ==> !Blocked(old(world)) && (migrated <==> HasOverlay(old(world)))
      ensures r == Ok && migrated && Quiet(old(world)) ==> world == Migrated(old(world))
      ensures reliable ==> (r == Ok <==> !Blocked(old(world)))
      ensures world.secrets == old(world).secrets
      ensures reliable && r != Ok ==> r == Failed && HasOverlay(world)
    {
      hide Wf, Agree, Safe;
      migrated := false;
      if !status.present {
        return Ok, false;
      }
      var persistent := world.main.value.storage.Bind?;
      r := Foreign();
      if r != Ok || persistent {
        return;
      }
      var populated;
      r, populated := DataHasEntries();
      if r != Ok {
        return;
      }
      if populated {
        return Failed, false;
      }
      r := StopContainer();
      if r != Ok {
        return;
      }
      r := Foreign();  // the parent directory
      if r != Ok {
        return;
      }
      r := MigrateStopped();
      migrated := r == Ok;
    }

    /** The part of the migration after the container has been stopped. */
    method MigrateStopped() returns (r: Result)
      requires Sound() && Quiet(world) && world.bootstrapFile.None?
      requires world.main.Some? && world.main.value.storage.Overlay?
      modifies `world
      ensures Sound() && world.bootstrapFile.None?
      ensures r == Ok ==> world.main.None?
      ensures r == Ok && old(world).main.value.storage.tree.database.Some? ==>
                world.data.Some? && world.data.value.database == old(world).main.value.storage.tree.database
      ensures world.marker == old(world).marker
      ensures r == Ok ==> world == Migrated(old(world))
      ensures reliable && FilesOf(old(world)) == {} ==> r == Ok
      ensures world.secrets == old(world).secrets
    {
      hide Wf, Agree, Safe, Ran;
      ghost var overlay := world.main.value.storage.tree;
      var stagingDir := FreshName(world.others.Keys);
      ghost var before := world;
      StagingIsSafe(world, stagingDir, EMPTY);
      r := Attempt(world.(others := world.others[stagingDir := EMPTY]));
      QuietAttempt(before, before.(others := before.others[stagingDir := EMPTY]), r, world);
      if r != Ok {
        return;
      }
      r := CopyFrom(stagingDir);
      if r == Failed {
        before := world;
        RemovingStagingIsSafe(world, stagingDir);
        r := Attempt(world.(others := world.others - {stagingDir}));
        QuietAttempt(before, before.(others := before.others - {stagingDir}), r, world);
        return Failed;
      }
      if r != Ok {
        return;
      }
      before := world;
      var stagedData := world.others[stagingDir].files != {};
      r := Foreign();
      QuietStays(before, world);
      if r != Ok {
        return;
      }
      if stagedData {
        if overlay.database.Some? {
          OverlayPassword(world);
        }
        r := InstallOverlayDataAtomically(stagingDir);
      } else {
        NothingStaged(world, overlay);
        RemovingStagingIsSafe(world, stagingDir);
        r := Attempt(world.(others := world.others - {stagingDir}));
        QuietAttempt(before, before.(others := before.others - {stagingDir}), r, world);
      }
      if r != Ok {
        return;
      }
      RemovingContainerIsSafe(world);
      before := world;
      r := RemoveContainer(false);
      QuietAttempt(before, before.(main := None), r, world);
    }

    lemma NothingStaged(w: World, overlay: Tree)
      requires Wf(w) && w.main.Some? && w.main.value.storage == Overlay(overlay) && overlay.files == {}
      ensures overlay.database.None?
    {
    }

    // ----- recovery of an interrupted first start -----

    /** The first candidate that does not exist. The search ends because the candidates are
        pairwise distinct and only finitely many names are taken. */
    method NextQuarantinePath(dataDir: string, now: string) returns (r: Result, path: string)
      requires Sound() && Quiet(world)
      modifies `world
      ensures Sound() && world == old(world)
      ensures r == Ok ==> path !in world.others
      ensures r == Ok ==> exists k: nat :: path == Candidate(dataDir + QUARANTINE_SUFFIX + now, k)
                            && forall i: nat :: i < k ==> Candidate(dataDir + QUARANTINE_SUFFIX + now, i) in world.others
      ensures reliable ==> r == Ok
    {
      hide Wf, Agree, Safe, Ran;
      var stem := dataDir + QUARANTINE_SUFFIX + now;
      path := stem;
      var suffix := 1;
      ghost var tried: set<string> := {};
      while true
        invariant suffix >= 1 && path == Candidate(stem, suffix - 1)
        invariant Sound() && world == old(world)
        invariant tried == set i | 0 <= i < suffix - 1 :: Candidate(stem, i)
        invariant tried <= world.others.Keys
        decreases |world.others.Keys - tried|
      {
        r := Foreign();
        QuietStays(old(world), world);
        if r != Ok {
          return;
        }
        if path !in world.others {
          assert forall i: nat :: i < suffix - 1 ==> Candidate(stem, i) in tried;
          return;
        }
        NextCandidate(stem, suffix - 1, tried);
        FewerLeft(world.others.Keys, tried, path);
        tried := tried + {path};
        path := stem + "-" + Itoa(suffix);
        suffix := suffix + 1;
      }
    }

    /** A data directory whose first initialisation did not finish is set aside, never
        overwritten, and never on top of data set aside before. */
    method RecoverIncompleteInitialCreate(config: StartConfig, status: ContainerStatus) returns (r: Result, recovered: bool)
      requires Sound() && world.bootstrapFile.None?
      requires status.present == world.main.Some?
      requires world.main.Some? ==> world.main.value.storage.Bind?
      modifies `world
      ensures Sound() && world.bootstrapFile.None?
      ensures forall o :: o in old(world).others ==> o in world.others && world.others[o] == old(world).others[o]
      ensures recovered ==> r == Ok && world.main.None? && world.data == Some(EMPTY)
      ensures recovered ==> old(world).data.Some? && INIT_MARKER in old(world).data.value.files
      ensures recovered ==> exists q :: q in world.others && q !in old(world).others && TreeRan(old(world).data.value, world.others[q])
      ensures r == Ok && !recovered ==> Ran(old(world), world)
      ensures r == Ok && !recovered ==> old(world).data.None? || INIT_MARKER !in old(world).data.value.files
      ensures world.marker == old(world).marker
      ensures reliable ==> r == Ok
      ensures recovered && Quiet(old(world)) ==> exists q :: q !in old(world).others && world == old(world).(main := None, data := Some(EMPTY), others := old(world).others[q := old(world).data.value])
      ensures r == Ok ==> (recovered <==> INIT_MARKER in FilesOf(old(world)))
      ensures world.secrets == old(world).secrets
    {
      hide Wf, Agree, Safe;
      recovered := false;
      var markerExists;
      r, markerExists := DataHas(INIT_MARKER);
      if r != Ok || !markerExists {
        return;
      }
      if status.present {
        r := StopContainer();
        if r != Ok {
          return;
        }
        RemovingContainerIsSafe(world);
        r := RemoveContainer(true);
        if r != Ok {
          return;
        }
      }
      ghost var before := world;
      var quarantinePath;
      r, quarantinePath := NextQuarantinePath(config.dataDir, config.now);
      if r != Ok {
        return;
      }
      MovingAwayIsSafe(world, quarantinePath);
      r := Attempt(MovedAway(world, quarantinePath));
      QuietAttempt(before, MovedAway(before, quarantinePath), r, world);
      if r != Ok {
        return;
      }
      before := world;
      r := MkdirData();
      QuietAttempt(before, WithDataDir(before), r, world);
      recovered := r == Ok;
    }

    // ----- the data directory -----

    method RemoveDataFile(name: string) returns (r: Result)
      requires Sound() && Quiet(world) && world.bootstrapFile.None? && name != CONF
      modifies `world
      ensures Sound() && Quiet(world) && world.bootstrapFile.None? && world.main == old(world).main
      ensures world == old(world) || world == WithFiles(old(world), FilesOf(old(world)) - {name})
      ensures r == Ok ==> name !in FilesOf(world)
      ensures world.marker == old(world).marker
      ensures reliable ==> r == Ok
      ensures world.secrets == old(world).secrets
    {
      hide Wf, Agree, Safe, Ran;
      var files := if world.data.Some? then world.data.value.files - {name} else {};
      ChangingFilesIsSafe(world, files);
      r := Attempt(WithFiles(world, files));
      QuietAttempt(old(world), WithFiles(old(world), files), r, world);
    }

    method RemoveStaleNanoTLSFiles() returns (r: Result)
      requires Sound() && Quiet(world) && world.bootstrapFile.None?
      modifies `world
      ensures Sound() && Quiet(world) && world.bootstrapFile.None? && world.main == old(world).main
      ensures world == WithFiles(old(world), FilesOf(world)) && FilesOf(old(world)) - Certificates() <= FilesOf(world) <= FilesOf(old(world))
      ensures r == Ok ==> FilesOf(world) == FilesOf(old(world)) - Certificates()
      ensures world.marker == old(world).marker
      ensures reliable ==> r == Ok
      ensures world.secrets == old(world).secrets
    {
      hide Wf, Agree, Safe, Ran;
      r := RemoveDataFile(TLS_FILES[0]);
      if r != Ok {
        return;
      }
      r := RemoveDataFile(TLS_FILES[1]);
    }

    /** Readies the data directory and reports whether it holds a database yet. */
    method PrepareDataDir(config: StartConfig) returns (r: Result, isFresh: bool)
      requires Sound() && Quiet(world) && world.bootstrapFile.None?
      modifies `world
      ensures Sound() && Quiet(world) && world.bootstrapFile.None? && world.main == old(world).main
      ensures r == Ok && isFresh ==> NoPasswordInUse(world)
      ensures r == Ok ==> (isFresh <==> CONF !in FilesOf(old(world)))
      ensures r == Ok ==> world.data.Some? && world.data.value.database == (if old(world).data.Some? then old(world).data.value.database else None)
      ensures r == Ok && isFresh ==> FilesOf(world) !! Certificates()
      ensures world.marker == old(world).marker
      ensures reliable ==> r == Ok
      ensures world.others == old(world).others
      ensures world.secrets == old(world).secrets
    {
      hide Wf, Agree, Safe, Ran;
      isFresh := false;
      r := MkdirData();
      QuietAttempt(old(world), WithDataDir(old(world)), r, world);
      if r != Ok {
        return;
      }
      if config.preparesDataDir {
        var made: set<string> := *;
        var files := world.data.value.files + (made - {CONF, INIT_MARKER});
        ghost var before := world;
        ChangingFilesIsSafe(world, files);
        r := Attempt(WithFiles(world, files));
        QuietAttempt(before, WithFiles(before, files), r, world);
        if r != Ok {
          return;
        }
      }
      ghost var ready := world;
      var found;
      r, found := DataHas(CONF);
      QuietStays(ready, world);
      if r != Ok || found {
        return;
      }
      r := RemoveStaleNanoTLSFiles();
      isFresh := true;
      FreshHasNoPassword(world);
    }

    // ----- the first password -----

    /** The password a fresh database is initialised with: a generated one that is stored and
        can be read is reused, any other is replaced. */
    method ResolveLocalInitialPassword() returns (r: Result, password: string, readable: bool)
      requires Sound() && NoPasswordInUse(world)
      modifies `world, `drawn
      ensures Sound() && NoPasswordInUse(world)
      ensures world == old(world).(secrets := world.secrets, marker := world.marker)
      ensures r == Ok ==> password != "" && Recorded(world, password)
      ensures r == Ok ==> world == old(world) || world.marker == CredentialMarker(true, false)
      ensures r == Ok && readable && old(world).marker.generated && old(world).secrets.Stored? && old(world).secrets.password != "" ==>
                password == old(world).secrets.password && world == old(world)
      ensures reliable ==> r == Ok
      ensures r == Ok ==> drawn == old(drawn) || drawn == old(drawn) + [password]
      ensures r == Ok && drawn == old(drawn) ==> old(world).marker.generated && old(world).secrets == Stored(password)
    {
      hide Wf, Agree, Safe, Ran;
      password := "";
      readable := *;
      r := Foreign();  // the marker
      QuietStays(old(world), world);
      if r != Ok {
        return;
      }
      var stored := if readable && world.secrets.Stored? then world.secrets.password else "";
      if world.marker.generated && stored != "" {
        password := stored;
        return;
      }
      password := *;
      if password == "" {
        if !reliable {
          return Failed, "", readable;  // no randomness
        }
        password := "generated";
      }
      drawn := drawn + [password];
      ghost var before := world;
      ReplacingSecretsIsSafe(world, password);
      r := Attempt(world.(secrets := Stored(password)));
      QuietAttempt(before, before.(secrets := Stored(password)), r, world);
      if r != Ok {
        return;
      }
      before := world;
      MarkingGeneratedIsSafe(world, false);
      r := Attempt(world.(marker := CredentialMarker(true, false)));
      QuietAttempt(before, before.(marker := CredentialMarker(true, false)), r, world);
    }

    method WriteBootstrapPassword() returns (r: Result)
      requires Sound() && NoPasswordInUse(world)
      modifies `world, `drawn
      ensures Sound() && Quiet(world) && world.main == old(world).main
      ensures r == Ok ==> world.bootstrapFile.Some? && Recorded(world, world.bootstrapFile.value)
      ensures reliable ==> r == Ok
      ensures world.others == old(world).others && world.data == old(world).data
      ensures r == Ok ==> HasPassword(world) && world.marker.generated
      ensures r == Failed ==> world.bootstrapFile == old(world).bootstrapFile
    {
      hide Wf, Agree, Safe, Ran;
      var password, readable;
      r, password, readable := ResolveLocalInitialPassword();
      if r != Ok {
        return;
      }
      ghost var before := world;
      HandingOverIsSafe(world, password);
      r := Attempt(world.(bootstrapFile := Some(password)));
      QuietAttempt(before, before.(bootstrapFile := Some(password)), r, world);
    }

    // ----- the start -----

    /** Replaces the container. A failure may leave the old one, none, or a stopped new one. */
    method CreateContainer(bootstrap: bool) returns (r: Result)
      requires Sound() && Quiet(world)
      requires world.main.Some? ==> world.main.value.storage.Bind?
      modifies `world
      ensures Sound() && world.bootstrapFile == old(world).bootstrapFile
      ensures r == Ok ==> Ran(old(world).(main := Some(Container(true, Bind, bootstrap, NotBegun))), world)
      ensures r == Failed ==> Quiet(world) && (world.main.Some? ==> world.main.value.storage.Bind?)
      ensures world.marker == old(world).marker
      ensures world.main.Some? ==> world.main.value.storage.Bind?
      ensures reliable ==> r == Ok
      ensures world.others == old(world).others
      ensures old(world).data.Some? && old(world).data.value.database.Some? ==> world.data.Some? && world.data.value.database == old(world).data.value.database
      ensures world.secrets == old(world).secrets
    {
      hide Wf, Agree, Safe;
      var created := Container(true, Bind, bootstrap, NotBegun);
      ReplacingContainerIsSafe(world, Some(created));
      r := Attempt(world.(main := Some(created)));
      if r == Failed {
        QuietStays(old(world), world);
        var left: Option<Container> := None;
        var kept: bool := *;
        if kept {
          left := Some(created.(running := false));
        }
        ghost var before := world;
        ReplacingContainerIsSafe(world, left);
        var cleanup := Attempt(world.(main := left));
        QuietAttempt(before, before.(main := left), cleanup, world);
      }
    }

    /** Image, script language containers, storage sync and network: foreign steps. */
    method PrepareRuntime() returns (r: Result)
      requires Sound() && Quiet(world)
      modifies `world
      ensures Sound() && world == old(world)
      ensures reliable ==> r == Ok
    {
      hide Wf, Agree, Safe, Ran;
      for i := 0 to 5
        invariant Sound() && world == old(world)
      {
        r := Foreign();
        QuietStays(old(world), world);
        if r != Ok {
          return;
        }
      }
      return Ok;
    }

    /** Whatever happens and wherever it stops, no database that was there is lost, and the
        stored password stays that of the database. A start that succeeds has moved a database
        out of a container's overlay and, where a first initialisation did not finish, set the
        directory aside whole; it succeeds whenever nothing fails, unless a container is to be
        migrated beside a data directory with content. */
    method Start(config: StartConfig) returns (r: Result)
      requires Wf(world) && Agree(world)
      modifies this
      ensures Wf(world) && Agree(world) && Preserved(old(world), world)
      ensures r == Ok ==> world.main.Some? && world.main.value.storage.Bind?
      ensures r == Ok ==> MigrationDone(AfterAdoption(old(world), config.legacyNames), world)
      ensures r == Ok && NothingRuns(old(world)) ==> RecoveryDone(AfterAdoption(old(world), config.legacyNames), world, config.hasInitialPassword)
      ensures reliable ==> (r == Ok <==> !Blocked(AfterAdoption(old(world), config.legacyNames)))
    {
      hide Wf, Agree, Preserved, MigrationDone, RecoveryDone, Blocked;
      origin := world;
      SafeReflexive(world);
      r := StartFromOrigin(config);
    }

    /** Up to the state of the container: no bootstrap file, and an earlier name adopted. */
    method FindContainer(config: StartConfig) returns (r: Result, status: ContainerStatus)
      requires Sound()
      modifies `world, `removals
      ensures Sound() && world.marker == old(world).marker
      ensures r == Ok ==> world.bootstrapFile.None? && status.present == world.main.Some?
      ensures r == Ok ==> (!status.running ==> Quiet(world)) && (status.running ==> status.present && !Quiet(AfterAdoption(old(world), config.legacyNames)))
      ensures r == Ok ==> Ran(AfterAdoption(old(world), config.legacyNames).(bootstrapFile := None), world)
      ensures reliable ==> r == Ok
      ensures world.secrets == old(world).secrets
    {
      hide Wf, Agree, Safe;
      status := ABSENT;
      r := RemoveBootstrapPassword();
      if r != Ok {
        return;
      }
      ghost var cleared := world;
      RanReflexive(cleared);
      if |config.legacyNames| > 0 {
        r := AdoptLegacyContainerName(config.legacyNames);
        if r != Ok {
          return;
        }
      }
      AdoptionFollows(old(world), cleared, world, config.legacyNames);
      ghost var adopted := world;
      r, status := InspectContainerStatus();
      RanTransitive(AfterAdoption(old(world), config.legacyNames).(bootstrapFile := None), adopted, world);
    }

    lemma AdoptionFollows(w: World, cleared: World, adopted: World, names: seq<string>)
      requires Ran(w.(bootstrapFile := None), cleared) && Ran(AfterAdoption(cleared, names), adopted)
      ensures Ran(AfterAdoption(w, names).(bootstrapFile := None), adopted)
      ensures !Quiet(adopted) ==> !Quiet(AfterAdoption(w, names))
    {
      hide Wf, Agree;
      if w.main.Some? {
        RanTransitive(w.(bootstrapFile := None), cleared, adopted);
      } else {
        QuietStays(w.(bootstrapFile := None), cleared);
      }
    }

    method StartFromOrigin(config: StartConfig) returns (r: Result)
      requires Sound()
      modifies this
      ensures Sound() && origin == old(origin)
      ensures r == Ok ==> world.main.Some? && world.main.value.storage.Bind?
      ensures world.marker == old(world).marker || (world.main.Some? ==> world.main.value.storage.Bind?)
      ensures r == Ok ==> MigrationDone(AfterAdoption(old(world), config.legacyNames), world)
      ensures r == Ok && NothingRuns(old(world)) ==> RecoveryDone(AfterAdoption(old(world), config.legacyNames), world, config.hasInitialPassword)
      ensures reliable ==> (r == Ok <==> !Blocked(AfterAdoption(old(world), config.legacyNames)))
      ensures r == Ok ==> CredentialsUsable(old(world), world)
      ensures reliable && r != Ok ==> r == Failed && HasOverlay(world) && world.marker == old(world).marker
    {
      hide Wf, Agree, Safe, Ran, Blocked, MigrationDone, RecoveryDone, AfterAdoption, OnDisk, Migrated, HasOverlay, FilesOf;
      ghost var start, goal := AfterAdoption(world, config.legacyNames), origin;
      var status;
      r, status := FindContainer(config);
      if r != Ok {
        return;
      }
      ghost var found := world;
      FoundLike(start, found);
      var migrated;
      r, migrated := MigrateOverlayDataIfNeeded(status);
      if r != Ok {
        return;
      }
      if migrated {
        status := ABSENT;
      }
      ghost var moved := world;
      if !migrated {
        RanKeepsBind(found, moved);
      }
      origin := world;
      SafeReflexive(world);
      var recovered;
      r, recovered := RecoverIncompleteInitialCreate(config, status);
      ghost var ready := world;
      SafeTransitive(goal, moved, world);
      if r != Ok {
        origin := goal;
        return;
      }
      if recovered {
        status := ABSENT;
      } else {
        RanKeepsBind(moved, ready);
      }
      if status.running {
        SafeKeeps(moved, world);
        MigrationFollows(start, found, moved, world, migrated);
        RunningFollows(old(world), config.legacyNames);
        origin := goal;
        return;
      }
      r := StartStopped(config);
      SafeTransitive(goal, moved, world);
      SafeKeeps(moved, world);
      origin := goal;
      if r == Ok {
        MigrationFollows(start, found, moved, world, migrated);
        if NothingRuns(old(world)) {
          QuietStart(old(world), config.legacyNames, found);
          RecoveryFollows(start, found, moved, ready, world, migrated, recovered, config.hasInitialPassword);
        }
      }
    }

    lemma RanKeepsBind(a: World, b: World)
      requires Ran(a, b)
      ensures (a.main.Some? <==> b.main.Some?) && (a.main.Some? ==> a.main.value.storage.Bind? == b.main.value.storage.Bind?)
      ensures Quiet(a) ==> b == a
      ensures Quiet(a) ==> Quiet(b)
    {
      if Quiet(a) {
        QuietStays(a, b);
      }
    }

    /** What a running database does leaves the container's kind and its database alone. */
    lemma FoundLike(start: World, found: World)
      requires Ran(start.(bootstrapFile := None), found)
      ensures Blocked(start) <==> Blocked(found)
      ensures HasOverlay(start) <==> HasOverlay(found)
      ensures HasOverlay(start) && start.main.value.storage.tree.database.Some? ==>
                found.main.value.storage.tree.database == start.main.value.storage.tree.database
    {
      hide Wf, Agree;
    }

    lemma MigrationFollows(start: World, found: World, moved: World, end: World, migrated: bool)
      requires Ran(start.(bootstrapFile := None), found) && !Blocked(found) && (migrated <==> HasOverlay(found))
      requires migrated && found.main.value.storage.tree.database.Some? ==>
                 moved.data.Some? && moved.data.value.database == found.main.value.storage.tree.database
      requires DiskKept(moved, end)
      ensures MigrationDone(start, end)
    {
      FoundLike(start, found);
      hide Ran, Blocked;
      if migrated && found.main.value.storage.tree.database.Some? {
        assert OnDisk(moved, found.main.value.storage.tree.database.value);
      }
    }

    lemma QuietStart(w: World, names: seq<string>, found: World)
      requires NothingRuns(w) && Ran(AfterAdoption(w, names).(bootstrapFile := None), found)
      ensures found == AfterAdoption(w, names).(bootstrapFile := None) && Quiet(found)
    {
      QuietStays(AfterAdoption(w, names).(bootstrapFile := None), found);
    }

    lemma RunningFollows(w: World, names: seq<string>)
      ensures NothingRuns(w) ==> Quiet(AfterAdoption(w, names))
    {
    }

    lemma RecoveryFollows(start: World, found: World, moved: World, ready: World, end: World, migrated: bool, recovered: bool, hasPassword: bool)
      requires found == start.(bootstrapFile := None) && !Blocked(found) && (migrated <==> HasOverlay(found))
      requires moved == if migrated then Migrated(found) else found
      requires recovered ==> moved.data.Some?
      requires recovered ==>
                 exists q :: q !in moved.others && ready == moved.(main := None, data := Some(EMPTY), others := moved.others[q := moved.data.value])
      requires !recovered ==> ready == moved
      requires recovered <==> INIT_MARKER in FilesOf(moved)
      requires end.main.Some? && end.others == ready.others
      requires end.main.value.bootstrap <==> CONF !in FilesOf(ready) && hasPassword
      requires ready.data.Some? && ready.data.value.database.Some? ==> end.data.Some? && end.data.value.database == ready.data.value.database
      ensures RecoveryDone(start, end, hasPassword)
    {
    }

    /** The rest of a start, when no container is running. */
    method StartStopped(config: StartConfig) returns (r: Result)
      requires Sound() && Quiet(world) && world.bootstrapFile.None?
      requires world.main.Some? ==> world.main.value.storage.Bind?
      modifies `world, `drawn, `removals
      ensures Sound()
      ensures r == Failed && removals == old(removals) ==> world.bootstrapFile.None?
      ensures r == Ok ==> world.main.Some? && world.main.value.storage.Bind?
      ensures r == Ok ==> (world.main.value.bootstrap <==> world.bootstrapFile.Some?)
      ensures r == Ok ==> (world.main.value.bootstrap <==> CONF !in FilesOf(old(world)) && config.hasInitialPassword)
      ensures world.main.Some? ==> world.main.value.storage.Bind?
      ensures reliable ==> r == Ok
      ensures r == Ok ==> world.others == old(world).others
      ensures r == Ok && old(world).data.Some? && old(world).data.value.database.Some? ==> world.data.Some? && world.data.value.database == old(world).data.value.database
      ensures r == Ok ==> CredentialsUsable(old(world), world)
    {
      hide Wf, Agree, Safe;
      var isFresh;
      r, isFresh := PrepareDataDir(config);
      if r != Ok {
        return;
      }
      r := PrepareRuntime();
      if r != Ok {
        return;
      }
      var bootstrap := isFresh && config.hasInitialPassword;
      if bootstrap {
        r := WriteBootstrapPassword();
        if r != Ok {
          return;
        }
      }
      r := CreateContainer(bootstrap);
      var networkUnsupported: bool := *;
      if r == Failed && networkUnsupported {
        r := CreateContainer(bootstrap);
      }
      if r == Failed && bootstrap {
        r := RemoveBootstrapPassword();
        return if r == Crashed then Crashed else Failed;
      }
    }

    // ----- the start as the deployment runs it (internal/deploy/local_runtime.go) -----

    /** Keeps a stored password. A missing or unreadable one is replaced with the default only
        where no password was generated. */
    method EnsureLocalSecrets() returns (r: Result)
      requires Sound()
      modifies `world
      ensures Sound()
      ensures old(world).marker.generated ==> Ran(old(world), world)
      ensures r == Ok ==> world.secrets.Stored? && world.secrets.password != ""
      ensures r == Ok && world.secrets != old(world).secrets ==> world.secrets == Stored(DEFAULT_PASSWORD) && !world.marker.generated
      ensures world.marker == old(world).marker
      ensures world.main.Some? ==> old(world).main.Some? && world.main.value.storage.Bind? == old(world).main.value.storage.Bind?
      ensures reliable ==> (r == Ok <==> HasPassword(old(world)) || !old(world).marker.generated)
    {
      hide Wf, Agree, Safe;
      var readable: bool := *;
      readable := readable || reliable;
      r := Foreign();
      if r != Ok {
        return;
      }
      if world.secrets.Stored? && readable && world.secrets.password != "" {
        return;
      }
      if world.marker.generated {
        return Failed;
      }
      DefaultSecretsAreSafe(world, DEFAULT_PASSWORD);
      r := Attempt(world.(secrets := Stored(DEFAULT_PASSWORD)));
    }

    /** Stopping removes the container, whatever it holds: a database on disk always stays, and
        nothing is lost exactly when one in the container's overlay is held elsewhere. */
    method Stop() returns (r: Result)
      requires Wf(world) && Agree(world)
      modifies this
      ensures Sound() && origin == world
      ensures r == Ok ==> world == old(world).(main := None)
      ensures DiskKept(old(world), world)
      ensures MainIsRedundant(old(world)) ==> Preserved(old(world), world)
      ensures r == Ok ==> (Preserved(old(world), world) <==> MainIsRedundant(old(world)))
      ensures reliable ==> r == Ok
    {
      r := *;
      if reliable {
        r := Ok;
      }
      var done: bool := *;
      RemovalPreservesExactly(world);
      ghost var before := world;
      if r == Ok || (r == Crashed && done) {
        world := world.(main := None);
      }
      assert Wf(world) && Agree(world);
      hide Wf, Agree, Preserved, DiskKept, MainIsRedundant;
      ghost var removed := world;
      DatabaseWorks();
      if removed == before {
        RanIsSafe(before, world);
      } else {
        QuietStays(removed, world);
      }
      origin := world;
      SafeReflexive(world);
    }

    method StartLocalRuntimeAndWait(config: StartConfig) returns (r: Result)
      requires Wf(world) && Agree(world)
      modifies this
      ensures Sound() && origin == old(world)
      ensures world.marker == old(world).marker || (world.main.Some? ==> world.main.value.storage.Bind?)
      ensures r == Ok ==> HasPassword(world)
      ensures reliable && !Blocked(AfterAdoption(old(world), config.legacyNames)) && (HasPassword(old(world)) || !old(world).marker.generated) ==> r == Ok
      ensures reliable && Blocked(AfterAdoption(old(world), config.legacyNames)) ==>
                r == Failed && HasOverlay(world) && world.marker == old(world).marker
    {
      hide Wf, Agree, Safe, Blocked, AfterAdoption;
      origin := world;
      SafeReflexive(world);
      r := StartFromOrigin(config);
      if r != Ok {
        return;
      }
      r := Foreign();  // endpoints and deployment information
      if r != Ok {
        return;
      }
      r := EnsureLocalSecrets();
      if r != Ok {
        return;
      }
      r := Foreign();  // sidecars, the wait for the database, the sync
    }

    /** The start as a deployment runs it, with its clean-up. At every point the stored password
        is right and no database on disk is lost. No database at all is lost if at the beginning
        no container keeps one in its overlay, or if no verification was pending. `skipsWait`
        stands for the environment variable that leaves out the verification. */
    method StartPreparedLocalRuntime(config: StartConfig, skipsWait: bool) returns (r: Result)
      requires Wf(world) && Agree(world)
      modifies this
      ensures Wf(world) && Agree(world)
      ensures DiskKept(old(world), world)
      ensures NoOverlayDatabase(old(world)) || !Pending(old(world)) ==> Preserved(old(world), world)
      ensures r == Ok ==> world.bootstrapFile.None?
      ensures r == Ok && !skipsWait && world.marker.generated ==> world.marker.verified
      ensures reliable && !Blocked(AfterAdoption(old(world), config.legacyNames)) && (HasPassword(old(world)) || !old(world).marker.generated) ==> r == Ok
      ensures reliable && Blocked(AfterAdoption(old(world), config.legacyNames)) ==>
                r == Failed && (if Pending(old(world)) then world.main.None? else HasOverlay(world))
    {
      hide Wf, Agree, Safe, Preserved, DiskKept, NoOverlayDatabase, Blocked, AfterAdoption;
      ghost var first := world;
      origin := world;
      SafeReflexive(world);
      r := RemoveBootstrapPassword();
      if r != Ok {
        SafeKeeps(first, world);
        return;
      }
      ghost var cleared := world;
      BlockedStays(first, cleared, config.legacyNames);
      r := StartLocalRuntimeAndWait(config);
      SafeTransitive(first, cleared, world);
      origin := first;
      if r == Crashed {
        SafeKeeps(first, world);
        return;
      }
      var pending := world.marker.generated && !world.marker.verified;
      var markerRead := Foreign();
      if markerRead == Crashed {
        SafeKeeps(first, world);
        return Crashed;
      }
      if markerRead == Failed {
        r := Failed;
      }
      if r == Ok && pending && !skipsWait {
        r := Foreign();  // a login with the stored password
        if r == Ok {
          MarkingGeneratedIsSafe(world, true);
          r := Attempt(world.(marker := CredentialMarker(true, true)));
        }
        if r == Crashed {
          SafeKeeps(first, world);
          return;
        }
      }
      SafeKeeps(first, world);
      if r == Failed && pending && markerRead == Ok {
        ghost var started := world;
        var stopped := Stop();
        StoppedAfter(first, started, world);
        if stopped == Crashed {
          return Crashed;
        }
      }
      ghost var last := world;
      origin := world;
      SafeReflexive(world);
      var removed := RemoveBootstrapPassword();
      KeptFurther(first, last, world);
      if removed != Ok {
        r := removed;
      }
    }

    lemma BlockedStays(w: World, cleared: World, names: seq<string>)
      requires Ran(w.(bootstrapFile := None), cleared)
      ensures Blocked(AfterAdoption(w, names)) <==> Blocked(AfterAdoption(cleared, names))
      ensures cleared.secrets == w.secrets && cleared.marker == w.marker
    {
      hide Wf, Agree, Blocked, HasOverlay;
      RanReflexive(AfterAdoption(cleared, names));
      AdoptionFollows(w, cleared, AfterAdoption(cleared, names), names);
      FoundLike(AfterAdoption(w, names), AfterAdoption(cleared, names));
    }

    lemma SafeKeeps(a: World, b: World)
      requires Safe(a, b)
      ensures Preserved(a, b) && DiskKept(a, b)
    {
    }

    /** A clean-up loses nothing on disk, and nothing at all if nothing was in an overlay at the
        beginning or the container has none now. */
    lemma StoppedAfter(first: World, started: World, stopped: World)
      requires Safe(first, started) && DiskKept(started, stopped)
      requires MainIsRedundant(started) ==> Preserved(started, stopped)
      ensures DiskKept(first, stopped)
      ensures NoOverlayDatabase(first) || (started.main.Some? ==> started.main.value.storage.Bind?) ==> Preserved(first, stopped)
    {
      if NoOverlayDatabase(first) {
        DiskIsEnough(first, stopped);
      }
    }

    lemma KeptFurther(first: World, a: World, b: World)
      requires DiskKept(first, a) && Safe(a, b)
      ensures DiskKept(first, b) && (Preserved(first, a) ==> Preserved(first, b))
    {
    }

    /** Any number of starts, stops and clean-ups, each of which may fail or die anywhere, with
        the database working in between: at every moment the password stored for the data
        directory's database is the one it was initialised with, and no database that was on
        disk is lost; nor is any other if at the beginning none was kept in an overlay. */
    method Lifetime(config: StartConfig)
      requires Wf(world) && Agree(world)
      modifies this
      ensures Wf(world) && Agree(world)
      ensures DiskKept(old(world), world)
      ensures NoOverlayDatabase(old(world)) ==> Preserved(old(world), world)
    {
      hide Wf, Agree, Safe, DiskKept, Preserved, NoOverlayDatabase;
      ghost var first := world;
      SafeReflexive(world);
      SafeKeeps(first, world);
      var rounds: int := *;
      while rounds > 0
        invariant Wf(world) && Agree(world) && DiskKept(first, world)
      {
        rounds := rounds - 1;
        var choice: int := *;
        ghost var before := world;
        var r;
        if choice == 0 {
          var skipsWait: bool := *;
          r := StartPreparedLocalRuntime(config, skipsWait);
        } else if choice == 1 {
          r := Stop();
        } else {
          origin := world;
          SafeReflexive(world);
          r := RemoveBootstrapPassword();
          SafeKeeps(before, world);
        }
        DiskKeptFurther(first, before, world);
      }
      if NoOverlayDatabase(first) {
        DiskIsEnough(first, world);
      }
    }

    lemma DiskKeptFurther(a: World, b: World, c: World)
      requires DiskKept(a, b) && DiskKept(b, c)
      ensures DiskKept(a, c)
    {
    }
  }
}
