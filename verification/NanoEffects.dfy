/** The single operations of a Nano start as changes of the world, and why each is safe where
    the start uses it. */
module NanoEffects {
  import opened Text
  import opened NanoWorld

  datatype Result = Ok | Failed | Crashed

  // ----- effects of single operations -----

  function Stopped(w: World): World {
    if w.main.Some? then w.(main := Some(w.main.value.(running := false))) else w
  }

  function Adopted(w: World, name: string): World {
    if name in w.legacy then w.(main := Some(w.legacy[name]), legacy := w.legacy - {name}) else w
  }

  /** The container's own data takes the place of the data directory, if it has any. */
  function Migrated(w: World): World
    requires w.main.Some? && w.main.value.storage.Overlay?
  {
    var tree := w.main.value.storage.tree;
    w.(main := None, data := if tree.files != {} then Some(tree) else w.data)
  }

  function WithDataDir(w: World): World {
    if w.data.Some? then w else w.(data := Some(EMPTY))
  }

  function WithoutEmptyDataDir(w: World): World {
    if w.data.Some? && w.data.value.files == {} then w.(data := None) else w
  }

  /** A directory moves only to a name that is free or to an empty directory. */
  function MovedToData(w: World, from: string): World {
    if from in w.others && (w.data.None? || w.data.value.files == {}) then
      w.(data := Some(w.others[from]), others := w.others - {from})
    else w
  }

  function MovedAway(w: World, to: string): World {
    if w.data.Some? && to !in w.others then w.(data := None, others := w.others[to := w.data.value]) else w
  }

  function WithFiles(w: World, files: set<string>): World {
    if w.data.Some? then w.(data := Some(w.data.value.(files := files))) else w
  }

  /** An operation whose effect would be `next`: done, not done, or cut off before or after. */
  ghost predicate Attempted(before: World, next: World, r: Result, after: World) {
    && (r == Ok ==> Ran(next, after))
    && (r == Failed ==> Ran(before, after))
    && (r == Crashed ==> Ran(before, after) || Ran(next, after))
  }

  lemma AttemptedIsSafe(before: World, next: World, r: Result, after: World)
    requires Attempted(before, next, r, after) && Safe(before, next)
    ensures Safe(before, after)
  {
    hide Safe, Ran;
    if Ran(before, after) {
      RanIsSafe(before, after);
    } else {
      RanIsSafe(next, after);
      SafeTransitive(before, next, after);
    }
  }

  /** With no database running, an operation has its effect or none. */
  lemma QuietAttempt(before: World, next: World, r: Result, after: World)
    requires Attempted(before, next, r, after) && Quiet(before) && Quiet(next)
    ensures r == Ok ==> after == next
    ensures r == Failed ==> after == before
    ensures after == before || after == next
  {
    hide Ran, Quiet;
    if Ran(before, after) {
      QuietStays(before, after);
    }
    if Ran(next, after) {
      QuietStays(next, after);
    }
  }

  // ----- each effect is safe where it is used -----

  lemma StoppingIsSafe(w: World)
    ensures Safe(w, Stopped(w))
  {
  }

  lemma AdoptingIsSafe(w: World, name: string)
    requires w.main.None?
    ensures Safe(w, Adopted(w, name))
  {
    if name in w.legacy {
      var v := Adopted(w, name);
      assert forall d :: OnDisk(w, d) ==> OnDisk(v, d);
      forall d | InLegacy(w, d) ensures Holds(v, d) {
        var c :| c in w.legacy && InContainer(w.legacy[c], d);
        if c != name {
          assert c in v.legacy && InContainer(v.legacy[c], d);
        }
      }
    }
  }

  lemma MakingDataDirIsSafe(w: World)
    ensures Safe(w, WithDataDir(w))
  {
  }

  lemma RemovingEmptyDataDirIsSafe(w: World)
    requires Wf(w)
    ensures Safe(w, WithoutEmptyDataDir(w))
  {
  }

  lemma MovingToDataIsSafe(w: World, from: string)
    requires Wf(w)
    requires from in w.others && w.others[from].database.Some? ==> w.others[from].database.value.password == None
    ensures Safe(w, MovedToData(w, from))
  {
    var v := MovedToData(w, from);
    if v != w {
      forall d | OnDisk(w, d) ensures OnDisk(v, d) {
        if exists o :: o in w.others && w.others[o].database == Some(d) {
          var o :| o in w.others && w.others[o].database == Some(d);
          if o != from {
            assert o in v.others && v.others[o].database == Some(d);
          }
        }
      }
      assert forall d :: InLegacy(w, d) ==> InLegacy(v, d);
    }
  }

  lemma MovingAwayIsSafe(w: World, to: string)
    ensures Safe(w, MovedAway(w, to))
  {
    var v := MovedAway(w, to);
    if v != w {
      forall d | OnDisk(w, d) ensures OnDisk(v, d) {
        if w.data.value.database == Some(d) {
          assert v.others[to].database == Some(d);
        } else {
          var o :| o in w.others && w.others[o].database == Some(d);
          assert o in v.others && v.others[o].database == Some(d);
        }
      }
      assert forall d :: InLegacy(w, d) ==> InLegacy(v, d);
    }
  }

  lemma ChangingFilesIsSafe(w: World, files: set<string>)
    requires w.data.Some? && CONF in w.data.value.files ==> CONF in files
    ensures Safe(w, WithFiles(w, files))
  {
  }

  lemma RemovingBootstrapIsSafe(w: World)
    ensures Safe(w, w.(bootstrapFile := None))
  {
  }

  /** The container may go when its overlay holds nothing that is not elsewhere. */
  lemma RemovingContainerIsSafe(w: World)
    requires w.main.Some? && w.main.value.storage.Overlay? && w.main.value.storage.tree.database.Some? ==>
               w.data.Some? && w.data.value.database == w.main.value.storage.tree.database
    ensures Safe(w, w.(main := None))
  {
  }

  /** A staging directory appears, or takes content that holds no database or a copy of one. */
  lemma StagingIsSafe(w: World, stagingDir: string, t: Tree)
    requires stagingDir in w.others ==> w.others[stagingDir].database.None?
    requires TreeWf(t)
    ensures Safe(w, w.(others := w.others[stagingDir := t]))
  {
    var v := w.(others := w.others[stagingDir := t]);
    forall d | OnDisk(w, d) ensures OnDisk(v, d) {
      if exists o :: o in w.others && w.others[o].database == Some(d) {
        var o :| o in w.others && w.others[o].database == Some(d);
        assert o in v.others && v.others[o].database == Some(d);
      }
    }
    assert forall d :: InLegacy(w, d) ==> InLegacy(v, d);
  }

  lemma RemovingStagingIsSafe(w: World, stagingDir: string)
    requires stagingDir in w.others ==> w.others[stagingDir].database.None?
    ensures Safe(w, w.(others := w.others - {stagingDir}))
  {
    var v := w.(others := w.others - {stagingDir});
    forall d | OnDisk(w, d) ensures OnDisk(v, d) {
      if exists o :: o in w.others && w.others[o].database == Some(d) {
        var o :| o in w.others && w.others[o].database == Some(d);
        assert o in v.others && v.others[o].database == Some(d);
      }
    }
    assert forall d :: InLegacy(w, d) ==> InLegacy(v, d);
  }

  /** A password that nothing depends on may be replaced. */
  lemma ReplacingSecretsIsSafe(w: World, password: string)
    requires NoPasswordInUse(w)
    ensures Safe(w, w.(secrets := Stored(password)))
  {
  }

  lemma MarkingGeneratedIsSafe(w: World, verified: bool)
    ensures Safe(w, w.(marker := CredentialMarker(true, verified)))
  {
  }

  lemma HandingOverIsSafe(w: World, password: string)
    requires Recorded(w, password)
    ensures Safe(w, w.(bootstrapFile := Some(password)))
  {
  }

  /** Where no password was generated, no database was given one. */
  lemma DefaultSecretsAreSafe(w: World, password: string)
    requires !w.marker.generated
    ensures Safe(w, w.(secrets := Stored(password)))
  {
  }

  lemma ReplacingContainerIsSafe(w: World, c: Option<Container>)
    requires w.main.Some? ==> w.main.value.storage.Bind?
    requires c.Some? ==> c.value.storage.Bind? && c.value.init.NotBegun?
    ensures Safe(w, w.(main := c))
  {
  }

  lemma FreshHasNoPassword(w: World)
    requires Wf(w) && Quiet(w) && w.bootstrapFile.None?
    requires w.data.Some? ==> CONF !in w.data.value.files
    ensures NoPasswordInUse(w)
  {
  }
}
