/** The marker-file reader/writer lock (internal/directorymutex/directorymutex.go): marker
    names, the scan for a marker, and the file action each attempt takes on what it saw. */
module DirectoryMutex {
  import opened Text

  const MARKER_PREFIX := ".dirmutex."
  const EXCLUSIVE_MARKER := ".dirmutex.exclusive"
  const SHARED_PREFIX := ".dirmutex.shared."
  const MAX_INT := 0x7FFF_FFFF_FFFF_FFFF

  datatype Mode = Shared | Exclusive

  datatype Marker = ExclusiveMarker | SharedMarker(count: nat)

  datatype Found = Found(name: string, marker: Marker)

  /** What a directory scan reports. */
  datatype ScanResult = NoMarker | One(found: Found) | Invalid

  /** `WouldBlock` is retried by the caller; `Error` ends the attempt. */
  datatype Outcome = Done | WouldBlock | Error

  predicate HasPrefix(s: string, prefix: string) {
    |prefix| <= |s| && s[..|prefix|] == prefix
  }

  function ParseMarker(name: string): Option<Marker> {
    if name == EXCLUSIVE_MARKER then Some(ExclusiveMarker)
    else if !HasPrefix(name, SHARED_PREFIX) then None
    else
      var token := name[|SHARED_PREFIX|..];
      if token == "" || !AllDigits(token) then None
      else if Value(token) == 0 || Value(token) > MAX_INT then None
      else Some(SharedMarker(Value(token)))
  }

  function SharedMarkerName(count: nat): string {
    SHARED_PREFIX + Itoa(count)
  }

  /** Reading a shared marker's name gives its count back, for exactly the counts that a machine
      integer can have. */
  lemma ParseOfSharedMarkerName(n: nat)
    ensures ParseMarker(SharedMarkerName(n)) == if 1 <= n <= MAX_INT then Some(SharedMarker(n)) else None
    ensures IsMarkerName(SharedMarkerName(n))
  {
    ItoaValue(n);
    SharedNamesAreShared(n);
  }

  lemma SharedNamesAreShared(n: nat)
    ensures SharedMarkerName(n) != EXCLUSIVE_MARKER
    ensures HasPrefix(SharedMarkerName(n), SHARED_PREFIX) && SharedMarkerName(n)[|SHARED_PREFIX|..] == Itoa(n)
    ensures IsMarkerName(SharedMarkerName(n))
  {
    assert SharedMarkerName(n)[..|SHARED_PREFIX|] == SHARED_PREFIX;
    assert SharedMarkerName(n)[10] == 's' && EXCLUSIVE_MARKER[10] == 'e';
    assert SharedMarkerName(n)[..|MARKER_PREFIX|] == SHARED_PREFIX[..|MARKER_PREFIX|] == MARKER_PREFIX;
  }

  predicate IsMarkerName(name: string) {
    HasPrefix(name, MARKER_PREFIX)
  }

  function MarkerNames(files: set<string>): set<string> {
    set f | f in files && IsMarkerName(f)
  }

  /** What a scan of these files reports: exactly one readable marker, none, or trouble. */
  ghost function Scan(files: set<string>): ScanResult {
    var names := MarkerNames(files);
    if names == {} then NoMarker
    else
      var name :| name in names;
      if names != {name} || ParseMarker(name).None? then Invalid else One(Found(name, ParseMarker(name).value))
  }

  lemma ScanOfOne(files: set<string>, name: string)
    requires MarkerNames(files) == {name}
    ensures Scan(files) == if ParseMarker(name).None? then Invalid else One(Found(name, ParseMarker(name).value))
  {
  }

  lemma ScanOfMany(files: set<string>, a: string, b: string)
    requires a in MarkerNames(files) && b in MarkerNames(files) && a != b
    ensures Scan(files) == Invalid
  {
  }

  lemma ScanOfUnreadable(files: set<string>, name: string)
    requires name in MarkerNames(files) && ParseMarker(name).None?
    ensures Scan(files) == Invalid
  {
  }

  // ----- the file action of one attempt, on what its scan saw -----

  datatype Effect = Effect(files: set<string>, outcome: Outcome)

  function Create(files: set<string>, name: string): Effect {
    if name in files then Effect(files, WouldBlock) else Effect(files + {name}, Done)
  }

  /** Renaming replaces a file that already has the new name. */
  function Rename(files: set<string>, from: string, to: string): Effect {
    if from !in files then Effect(files, WouldBlock) else Effect(files - {from} + {to}, Done)
  }

  function Remove(files: set<string>, name: string): Effect {
    if name !in files then Effect(files, WouldBlock) else Effect(files - {name}, Done)
  }

  function Acquire(files: set<string>, mode: Mode, seen: ScanResult): Effect {
    match seen
    case Invalid => Effect(files, Error)
    case NoMarker =>
      if mode == Exclusive then Create(files, EXCLUSIVE_MARKER) else Create(files, SharedMarkerName(1))
    case One(found) =>
      if mode == Exclusive || found.marker.ExclusiveMarker? then Effect(files, WouldBlock)
      else Rename(files, found.name, SharedMarkerName(found.marker.count + 1))
  }

  function Release(files: set<string>, mode: Mode, seen: ScanResult): Effect {
    match seen
    case Invalid => Effect(files, Error)
    case NoMarker => Effect(files, Done)
    case One(found) =>
      if mode == Exclusive then
        if found.marker.ExclusiveMarker? then Remove(files, found.name) else Effect(files, Error)
      else if found.marker.ExclusiveMarker? then Effect(files, Error)
      else if found.marker.count <= 1 then Remove(files, found.name)
      else Rename(files, found.name, SharedMarkerName(found.marker.count - 1))
  }

  // ----- what one undisturbed attempt does to a directory -----

  lemma SharedOne()
    ensures SharedMarkerName(1) == ".dirmutex.shared.1" && EXCLUSIVE_MARKER == ".dirmutex.exclusive"
  {
    assert Itoa(1) == "1";
  }

  lemma NotAMarkerYet(files: set<string>, name: string)
    requires IsMarkerName(name) && MarkerNames(files) == {}
    ensures name !in files
  {
    assert name !in MarkerNames(files);
  }

  /** Acquiring: an empty directory gets the marker asked for; next to n shared owners a shared
      one becomes the next, and nothing else is let in; a directory that cannot be understood is
      an error and stays as it is. */
  lemma AcquireOutcome(files: set<string>, mode: Mode, n: nat)
    ensures var e := Acquire(files, mode, Scan(files));
      && (MarkerNames(files) == {} ==>
            e == Effect(files + {if mode == Exclusive then ".dirmutex.exclusive" else ".dirmutex.shared.1"}, Done))
      && (MarkerNames(files) == {EXCLUSIVE_MARKER} ==> e == Effect(files, WouldBlock))
      && (1 <= n < MAX_INT && MarkerNames(files) == {SharedMarkerName(n)} ==>
            e == if mode == Exclusive then Effect(files, WouldBlock)
                 else Effect(files - {SharedMarkerName(n)} + {SharedMarkerName(n + 1)}, Done))
      && (Scan(files) == Invalid ==> e == Effect(files, Error))
  {
    hide Scan;
    SharedOne();
    if MarkerNames(files) == {} {
      ScanOfNone(files);
      SharedNamesAreShared(1);
      NotAMarkerYet(files, SharedMarkerName(1));
      ExclusiveIsMarker();
      NotAMarkerYet(files, EXCLUSIVE_MARKER);
    }
    if MarkerNames(files) == {EXCLUSIVE_MARKER} {
      ScanOfOne(files, EXCLUSIVE_MARKER);
    }
    if 1 <= n < MAX_INT && MarkerNames(files) == {SharedMarkerName(n)} {
      ScanOfShared(files, n);
    }
  }

  lemma ExclusiveIsMarker()
    ensures IsMarkerName(EXCLUSIVE_MARKER)
  {
  }

  lemma ScanOfNone(files: set<string>)
    requires MarkerNames(files) == {}
    ensures Scan(files) == NoMarker
  {
  }

  lemma ScanOfShared(files: set<string>, n: nat)
    requires 1 <= n <= MAX_INT && MarkerNames(files) == {SharedMarkerName(n)}
    ensures Scan(files) == One(Found(SharedMarkerName(n), SharedMarker(n))) && SharedMarkerName(n) in files
  {
    assert SharedMarkerName(n) in MarkerNames(files);
    ParseOfSharedMarkerName(n);
    ScanOfOne(files, SharedMarkerName(n));
    hide Scan, SharedMarkerName;
  }

  /** Releasing: nothing to release is no error; the exclusive marker goes, a shared one becomes
      the one before or goes; a marker of the other kind is an error and stays. */
  lemma ReleaseOutcome(files: set<string>, mode: Mode, n: nat)
    ensures var e := Release(files, mode, Scan(files));
      && (MarkerNames(files) == {} ==> e == Effect(files, Done))
      && (MarkerNames(files) == {EXCLUSIVE_MARKER} ==>
            e == if mode == Exclusive then Effect(files - {EXCLUSIVE_MARKER}, Done) else Effect(files, Error))
      && (1 <= n <= MAX_INT && MarkerNames(files) == {SharedMarkerName(n)} ==>
            e == if mode == Exclusive then Effect(files, Error)
                 else if n == 1 then Effect(files - {SharedMarkerName(n)}, Done)
                 else Effect(files - {SharedMarkerName(n)} + {SharedMarkerName(n - 1)}, Done))
      && (Scan(files) == Invalid ==> e == Effect(files, Error))
  {
    hide Scan;
    if MarkerNames(files) == {} {
      ScanOfNone(files);
    }
    if MarkerNames(files) == {EXCLUSIVE_MARKER} {
      ScanOfOne(files, EXCLUSIVE_MARKER);
      assert EXCLUSIVE_MARKER in MarkerNames(files);
    }
    if 1 <= n <= MAX_INT && MarkerNames(files) == {SharedMarkerName(n)} {
      ScanOfShared(files, n);
    }
  }

  // ----- the lock as the source implements it -----

  datatype Entry = Entry(name: string, isDir: bool)

  function FileNames(entries: seq<Entry>): set<string> {
    set i | 0 <= i < |entries| && !entries[i].isDir :: entries[i].name
  }

  predicate DistinctNames(entries: seq<Entry>) {
    forall i, j :: 0 <= i < j < |entries| ==> entries[i].name != entries[j].name
  }

  method FindMarker(entries: seq<Entry>) returns (r: ScanResult)
    requires DistinctNames(entries)
    ensures r == Scan(FileNames(entries))
  {
    r := NoMarker;
    for k := 0 to |entries|
      invariant r != Invalid
      invariant r.NoMarker? ==> MarkerNames(FileNames(entries[..k])) == {}
      invariant r.One? ==> MarkerNames(FileNames(entries[..k])) == {r.found.name} && ParseMarker(r.found.name) == Some(r.found.marker)
    {
      var entry := entries[k];
      ghost var all := FileNames(entries);
      NamesOneMore(entries, k);
      if entry.isDir || !IsMarkerName(entry.name) {
        continue;
      }
      assert entry.name in MarkerNames(all);
      var marker := ParseMarker(entry.name);
      if marker.None? {
        ScanOfUnreadable(all, entry.name);
        return Invalid;
      }
      if r.One? {
        assert r.found.name in MarkerNames(FileNames(entries[..k]));
        NameFromEarlier(entries, k, r.found.name);
        ScanOfMany(all, r.found.name, entry.name);
        return Invalid;
      }
      r := One(Found(entry.name, marker.value));
    }
    assert entries[..|entries|] == entries;
    if r.One? {
      ScanOfOne(FileNames(entries), r.found.name);
    }
  }

  lemma NamesOneMore(entries: seq<Entry>, k: nat)
    requires k < |entries|
    ensures FileNames(entries[..k + 1]) == FileNames(entries[..k]) + if entries[k].isDir then {} else {entries[k].name}
    ensures !entries[k].isDir ==> entries[k].name in FileNames(entries)
  {
    var more, less := entries[..k + 1], entries[..k];
    forall n | n in FileNames(more)
      ensures n in FileNames(less) + if entries[k].isDir then {} else {entries[k].name}
    {
      var i :| 0 <= i < |more| && !more[i].isDir && more[i].name == n;
      if i < k {
        assert less[i] == more[i];
      }
    }
    forall n | n in FileNames(less) ensures n in FileNames(more) {
      var i :| 0 <= i < |less| && !less[i].isDir && less[i].name == n;
      assert more[i] == less[i];
    }
    if !entries[k].isDir {
      assert more[k] == entries[k];
    }
  }

  lemma NameFromEarlier(entries: seq<Entry>, k: nat, name: string)
    requires DistinctNames(entries) && k < |entries|
    requires name in MarkerNames(FileNames(entries[..k]))
    ensures name in MarkerNames(FileNames(entries)) && name != entries[k].name
  {
    var i :| 0 <= i < k && !entries[..k][i].isDir && entries[..k][i].name == name;
    assert entries[i].name == name;
  }

  class Mutex {
    var files: set<string>

    /** The directory's entries in some order; sub-directories are not files. */
    method ReadDir() returns (entries: seq<Entry>)
      ensures DistinctNames(entries) && FileNames(entries) == files
    {
      entries := [];
      var left := files;
      while left != {}
        invariant left <= files && DistinctNames(entries)
        invariant FileNames(entries) == files - left
        invariant forall i :: 0 <= i < |entries| ==> !entries[i].isDir
      {
        var name :| name in left;
        var more := entries + [Entry(name, false)];
        assert more[..|entries| + 1] == more && more[..|entries|] == entries;
        NamesOneMore(more, |entries|);
        forall i | 0 <= i < |entries| ensures entries[i].name != name {
          NamesAreFiles(entries, i);
        }
        entries, left := more, left - {name};
      }
    }

    lemma NamesAreFiles(entries: seq<Entry>, i: nat)
      requires i < |entries|
      ensures !entries[i].isDir ==> entries[i].name in FileNames(entries)
    {
    }

    method TryAcquire(mode: Mode) returns (outcome: Outcome)
      modifies this
      ensures Effect(files, outcome) == Acquire(old(files), mode, Scan(old(files)))
    {
      var entries := ReadDir();
      var marker := FindMarker(entries);
      if marker.Invalid? {
        return Error;
      }
      if mode == Exclusive {
        outcome := TryAcquireExclusive(marker);
      } else {
        outcome := TryAcquireShared(marker);
      }
    }

    method TryAcquireExclusive(marker: ScanResult) returns (outcome: Outcome)
      requires !marker.Invalid?
      modifies this
      ensures Effect(files, outcome) == Acquire(old(files), Exclusive, marker)
    {
      if marker.One? {
        return WouldBlock;
      }
      outcome := CreateMarker(EXCLUSIVE_MARKER);
    }

    method TryAcquireShared(marker: ScanResult) returns (outcome: Outcome)
      requires !marker.Invalid?
      modifies this
      ensures Effect(files, outcome) == Acquire(old(files), Shared, marker)
    {
      if marker.NoMarker? {
        outcome := CreateMarker(SharedMarkerName(1));
        return;
      }
      if marker.found.marker.ExclusiveMarker? {
        return WouldBlock;
      }
      outcome := RenameMarker(marker.found.name, SharedMarkerName(marker.found.marker.count + 1));
    }

    method TryRelease(mode: Mode) returns (outcome: Outcome)
      modifies this
      ensures Effect(files, outcome) == Release(old(files), mode, Scan(old(files)))
    {
      var entries := ReadDir();
      var marker := FindMarker(entries);
      if marker.Invalid? {
        return Error;
      }
      if marker.NoMarker? {
        return Done;
      }
      if mode == Exclusive {
        if !marker.found.marker.ExclusiveMarker? {
          return Error;
        }
        outcome := RemoveMarkerFile(marker.found.name);
      } else {
        if marker.found.marker.ExclusiveMarker? {
          return Error;
        }
        if marker.found.marker.count <= 1 {
          outcome := RemoveMarkerFile(marker.found.name);
        } else {
          outcome := RenameMarker(marker.found.name, SharedMarkerName(marker.found.marker.count - 1));
        }
      }
    }

    method CreateMarker(name: string) returns (outcome: Outcome)
      modifies this
      ensures Effect(files, outcome) == Create(old(files), name)
    {
      if name in files {
        return WouldBlock;
      }
      files := files + {name};
      return Done;
    }

    method RenameMarker(from: string, to: string) returns (outcome: Outcome)
      modifies this
      ensures Effect(files, outcome) == Rename(old(files), from, to)
    {
      if from !in files {
        return WouldBlock;
      }
      files := files - {from} + {to};
      return Done;
    }

    method RemoveMarkerFile(name: string) returns (outcome: Outcome)
      modifies this
      ensures Effect(files, outcome) == Remove(old(files), name)
    {
      if name !in files {
        return WouldBlock;
      }
      files := files - {name};
      return Done;
    }
  }
}
