/** Any number of processes taking and giving back the directory lock. Scanning the directory
    and acting on what was seen are separate steps, so other processes run in between. */
module LockProtocol {
  import opened Text
  import opened DirectoryMutex

  type Process = nat

  datatype Phase =
    | Idle
    | Acquiring(mode: Mode)
    | AcquireScanned(mode: Mode, seen: ScanResult)
    | Holding(mode: Mode)
    | Releasing(mode: Mode)
    | ReleaseScanned(mode: Mode, seen: ScanResult)
    | Stranded(mode: Mode)  // gave up or died without giving the lock back

  datatype State = State(files: set<string>, phases: map<Process, Phase>) {
    function At(p: Process): Phase {
      if p in phases then phases[p] else Idle
    }

    function With(p: Process, phase: Phase): State {
      this.(phases := phases[p := phase])
    }
  }

  datatype Action = WantAcquire(mode: Mode) | WantRelease | ScanDirectory | Act | GiveUp

  function AfterAcquire(m: Mode, outcome: Outcome): Phase {
    match outcome
    case Done => Holding(m)
    case WouldBlock => Acquiring(m)
    case Error => Idle
  }

  function AfterRelease(m: Mode, outcome: Outcome): Phase {
    match outcome
    case Done => Idle
    case WouldBlock => Releasing(m)
    case Error => Stranded(m)
  }

  /** One step of one process. An action that its phase does not allow changes nothing. A
      timeout, a failed file operation and a crash are all the action GiveUp. */
  ghost function Step(s: State, p: Process, a: Action): State {
    match (s.At(p), a)
    case (Idle, WantAcquire(m)) => s.With(p, Acquiring(m))
    case (Acquiring(m), ScanDirectory) => s.With(p, AcquireScanned(m, Scan(s.files)))
    case (AcquireScanned(m, seen), Act) =>
      var e := Acquire(s.files, m, seen);
      s.With(p, AfterAcquire(m, e.outcome)).(files := e.files)
    case (Holding(m), WantRelease) => s.With(p, Releasing(m))
    case (Releasing(m), ScanDirectory) => s.With(p, ReleaseScanned(m, Scan(s.files)))
    case (ReleaseScanned(m, seen), Act) =>
      var e := Release(s.files, m, seen);
      s.With(p, AfterRelease(m, e.outcome)).(files := e.files)
    case (Acquiring(_), GiveUp) => s.With(p, Idle)
    case (AcquireScanned(_, _), GiveUp) => s.With(p, Idle)
    case (Holding(m), GiveUp) => s.With(p, Stranded(m))
    case (Releasing(m), GiveUp) => s.With(p, Stranded(m))
    case (ReleaseScanned(m, _), GiveUp) => s.With(p, Stranded(m))
    case _ => s
  }

  type Schedule = seq<(Process, Action)>

  ghost function Run(s: State, schedule: Schedule): State {
    if schedule == [] then s
    else
      var before := Run(s, schedule[..|schedule| - 1]);
      var (p, a) := schedule[|schedule| - 1];
      Step(before, p, a)
  }

  /** The process has the lock, or had it and never gave it back. */
  predicate Owns(phase: Phase, mode: Mode) {
    match phase
    case Holding(m) => m == mode
    case Releasing(m) => m == mode
    case ReleaseScanned(m, _) => m == mode
    case Stranded(m) => m == mode
    case _ => false
  }

  predicate Readable(seen: ScanResult) {
    seen.One? ==> ParseMarker(seen.found.name) == Some(seen.found.marker)
  }

  lemma ScanIsReadable(files: set<string>)
    ensures Readable(Scan(files))
    ensures EXCLUSIVE_MARKER in files ==> Scan(files) != NoMarker
  {
    if EXCLUSIVE_MARKER in files {
      assert IsMarkerName(EXCLUSIVE_MARKER);
      assert EXCLUSIVE_MARKER in MarkerNames(files);
    }
  }

  // ----- at most one exclusive owner, however the steps interleave -----

  ghost predicate PhaseInv(phase: Phase) {
    && (phase.AcquireScanned? || phase.ReleaseScanned? ==> Readable(phase.seen))
    && (phase.ReleaseScanned? && phase.mode == Exclusive ==> phase.seen != NoMarker)
  }

  ghost predicate ExclusiveInv(s: State) {
    && (forall p, q :: Owns(s.At(p), Exclusive) && Owns(s.At(q), Exclusive) ==> p == q)
    && (EXCLUSIVE_MARKER in s.files <==> exists p :: Owns(s.At(p), Exclusive))
    && (forall p :: PhaseInv(s.At(p)))
  }

  /** A file action leaves the exclusive marker alone, unless it creates it where there was
      none, or removes it as an exclusive release. */
  lemma AcquireAndTheMarker(files: set<string>, m: Mode, seen: ScanResult)
    requires Readable(seen)
    ensures var e := Acquire(files, m, seen);
            if m == Exclusive && e.outcome == Done then EXCLUSIVE_MARKER !in files && EXCLUSIVE_MARKER in e.files
            else EXCLUSIVE_MARKER in e.files <==> EXCLUSIVE_MARKER in files
  {
    SharedNamesAreShared(1);
    if seen.One? && seen.found.marker.SharedMarker? {
      SharedNamesAreShared(seen.found.marker.count + 1);
    }
  }

  lemma ReleaseAndTheMarker(files: set<string>, m: Mode, seen: ScanResult)
    requires Readable(seen)
    ensures var e := Release(files, m, seen);
            if m == Exclusive && e.outcome == Done && seen != NoMarker then EXCLUSIVE_MARKER !in e.files
            else EXCLUSIVE_MARKER in e.files <==> EXCLUSIVE_MARKER in files
  {
    if seen.One? {
      assert seen.found.marker.ExclusiveMarker? <==> seen.found.name == EXCLUSIVE_MARKER;
      if seen.found.marker.SharedMarker? && seen.found.marker.count > 1 {
        SharedNamesAreShared(seen.found.marker.count - 1);
      }
    }
  }

  lemma AtAfterWith(s: State, p: Process, phase: Phase, q: Process)
    ensures s.With(p, phase).At(q) == if q == p then phase else s.At(q)
  {
  }

  /** How a step changes the ownership and the exclusive marker. */
  lemma StepEffect(s: State, p: Process, a: Action)
    requires ExclusiveInv(s)
    ensures var t := Step(s, p, a);
            && (forall q :: q != p ==> t.At(q) == s.At(q))
            && PhaseInv(t.At(p))
            && (EXCLUSIVE_MARKER in t.files <==>
                  if Owns(s.At(p), Exclusive) != Owns(t.At(p), Exclusive) then Owns(t.At(p), Exclusive)
                  else EXCLUSIVE_MARKER in s.files)
            && (Owns(t.At(p), Exclusive) && !Owns(s.At(p), Exclusive) ==> EXCLUSIVE_MARKER !in s.files)
  {
    hide Scan, Acquire, Release, Readable;
    ScanIsReadable(s.files);
    assert Owns(s.At(p), Exclusive) ==> EXCLUSIVE_MARKER in s.files;
    assert PhaseInv(s.At(p));
    match (s.At(p), a)
    case (AcquireScanned(m, seen), Act) => AcquireAndTheMarker(s.files, m, seen);
    case (ReleaseScanned(m, seen), Act) => ReleaseAndTheMarker(s.files, m, seen);
    case _ =>
  }

  lemma StepKeepsExclusiveInv(s: State, p: Process, a: Action)
    requires ExclusiveInv(s)
    ensures ExclusiveInv(Step(s, p, a))
  {
    hide Step, PhaseInv;
    var t := Step(s, p, a);
    StepEffect(s, p, a);
    if EXCLUSIVE_MARKER in t.files {
      if Owns(t.At(p), Exclusive) {
      } else {
        var q :| Owns(s.At(q), Exclusive);
        assert q != p && Owns(t.At(q), Exclusive);
      }
    }
  }

  lemma {:induction false} RunKeepsExclusiveInv(s: State, schedule: Schedule)
    requires ExclusiveInv(s)
    ensures ExclusiveInv(Run(s, schedule))
  {
    hide Step, ExclusiveInv;
    if schedule != [] {
      RunKeepsExclusiveInv(s, schedule[..|schedule| - 1]);
      var (p, a) := schedule[|schedule| - 1];
      StepKeepsExclusiveInv(Run(s, schedule[..|schedule| - 1]), p, a);
    }
  }

  function Start(files: set<string>): State {
    State(files, map[])
  }

  /** At most one process has the exclusive lock at any time of any run. */
  lemma ExclusiveExcludesExclusive(files: set<string>, schedule: Schedule, p: Process, q: Process)
    requires MarkerNames(files) == {}
    requires Run(Start(files), schedule).At(p) == Holding(Exclusive)
    requires Run(Start(files), schedule).At(q) == Holding(Exclusive)
    ensures p == q
  {
    StartInv(files);
    RunKeepsExclusiveInv(Start(files), schedule);
  }

  lemma StartInv(files: set<string>)
    requires MarkerNames(files) == {}
    ensures ExclusiveInv(Start(files))
  {
    assert IsMarkerName(EXCLUSIVE_MARKER);
    assert EXCLUSIVE_MARKER !in MarkerNames(files);
  }

  /** Only the owner of the exclusive lock ever removes the exclusive marker, and only as the
      file action of its release. */
  lemma OnlyTheOwnerRemovesTheMarker(files: set<string>, schedule: Schedule, p: Process, a: Action)
    requires MarkerNames(files) == {}
    requires EXCLUSIVE_MARKER in Run(Start(files), schedule).files
    requires EXCLUSIVE_MARKER !in Step(Run(Start(files), schedule), p, a).files
    ensures Owns(Run(Start(files), schedule).At(p), Exclusive)
    ensures forall q :: q != p ==> !Owns(Run(Start(files), schedule).At(q), Exclusive)
  {
    hide Step, Run, Start;
    StartInv(files);
    RunKeepsExclusiveInv(Start(files), schedule);
    StepEffect(Run(Start(files), schedule), p, a);
  }

  /** Shared and exclusive do not exclude each other at this granularity: two processes that
      both saw an empty directory create differently named markers. */
  lemma SharedMeetsExclusive()
    ensures exists schedule :: var s := Run(Start({}), schedule);
              s.At(1) == Holding(Exclusive) && s.At(2) == Holding(Shared)
  {
    hide Run, Step, Start;
    var before := [(1, WantAcquire(Exclusive)), (2, WantAcquire(Shared)), (1, ScanDirectory), (2, ScanDirectory)];
    BothSawNothing(before);
    var s := Run(Start({}), before);
    RunOneMore(Start({}), before, 1, Act);
    RunOneMore(Start({}), before + [(1, Act)], 2, Act);
    BothCreate(s);
    assert Run(Start({}), before + [(1, Act)] + [(2, Act)]).At(1) == Holding(Exclusive);
  }

  lemma BothSawNothing(before: Schedule)
    requires before == [(1, WantAcquire(Exclusive)), (2, WantAcquire(Shared)), (1, ScanDirectory), (2, ScanDirectory)]
    ensures var s := Run(Start({}), before);
            s.files == {} && s.At(1) == AcquireScanned(Exclusive, NoMarker) && s.At(2) == AcquireScanned(Shared, NoMarker)
  {
    assert MarkerNames({}) == {};
    assert Scan({}) == NoMarker;
    hide Scan, Run;
    RunOfFour(Start({}), before);
    var s2 := Step(Step(Start({}), 1, WantAcquire(Exclusive)), 2, WantAcquire(Shared));
    assert s2.files == {} && s2.At(1) == Acquiring(Exclusive) && s2.At(2) == Acquiring(Shared);
  }

  lemma BothCreate(s: State)
    requires s.files == {} && s.At(1) == AcquireScanned(Exclusive, NoMarker) && s.At(2) == AcquireScanned(Shared, NoMarker)
    ensures var t := Step(Step(s, 1, Act), 2, Act);
            t.At(1) == Holding(Exclusive) && t.At(2) == Holding(Shared)
  {
    hide Scan;
    SharedNamesAreShared(1);
    var t := Step(s, 1, Act);
    assert t.files == {EXCLUSIVE_MARKER} && t.At(1) == Holding(Exclusive) && t.At(2) == AcquireScanned(Shared, NoMarker);
  }

  lemma RunOneMore(s: State, schedule: Schedule, p: Process, a: Action)
    ensures Run(s, schedule + [(p, a)]) == Step(Run(s, schedule), p, a)
  {
    hide Step;
    assert (schedule + [(p, a)])[..|schedule|] == schedule;
  }

  lemma RunOfFour(s: State, l: Schedule)
    requires |l| == 4
    ensures Run(s, l) == Step(Step(Step(Step(s, l[0].0, l[0].1), l[1].0, l[1].1), l[2].0, l[2].1), l[3].0, l[3].1)
  {
    hide Step;
    RunOneMore(s, [], l[0].0, l[0].1);
    RunOneMore(s, [l[0]], l[1].0, l[1].1);
    RunOneMore(s, [l[0], l[1]], l[2].0, l[2].1);
    RunOneMore(s, [l[0], l[1], l[2]], l[3].0, l[3].1);
    assert [] + [l[0]] == [l[0]] && [l[0]] + [l[1]] == [l[0], l[1]];
    assert [l[0], l[1]] + [l[2]] == [l[0], l[1], l[2]] && [l[0], l[1], l[2]] + [l[3]] == l;
  }

  // ----- counting: the one step that breaks it -----

  function Owners(s: State, mode: Mode): set<Process> {
    set p | p in s.phases && Owns(s.phases[p], mode)
  }

  /** The directory tells how many owners there are and of which kind. */
  ghost predicate Counted(files: set<string>, shared: set<Process>, exclusive: set<Process>) {
    || (MarkerNames(files) == {} && shared == {} && exclusive == {})
    || (MarkerNames(files) == {EXCLUSIVE_MARKER} && shared == {} && |exclusive| == 1)
    || (shared != {} && MarkerNames(files) == {SharedMarkerName(|shared|)} && exclusive == {})
  }

  function NewMarker(m: Mode): string {
    if m == Exclusive then EXCLUSIVE_MARKER else SharedMarkerName(1)
  }

  /** The file action of a process that saw no marker, while there is one by now and not the one
      that it creates. */
  predicate StaleCreate(s: State, p: Process, a: Action) {
    && a == Act && s.At(p).AcquireScanned? && s.At(p).seen == NoMarker
    && MarkerNames(s.files) != {} && NewMarker(s.At(p).mode) !in s.files
  }

  /** A scan that was right when it was made: no marker, the exclusive one, or a shared one under
      the name that belongs to its count. */
  predicate Plausible(seen: ScanResult) {
    match seen
    case NoMarker => true
    case One(Found(name, ExclusiveMarker)) => name == EXCLUSIVE_MARKER
    case One(Found(name, SharedMarker(n))) => 1 <= n && name == SharedMarkerName(n)
    case Invalid => false
  }

  /** A process that releases has seen a marker of its own kind. */
  predicate PhaseFine(phase: Phase) {
    match phase
    case AcquireScanned(_, seen) => Plausible(seen)
    case ReleaseScanned(m, seen) => Plausible(seen) && seen.One? && (m == Exclusive <==> seen.found.marker.ExclusiveMarker?)
    case _ => true
  }

  ghost predicate CountInv(s: State) {
    Counted(s.files, Owners(s, Shared), Owners(s, Exclusive))
  }

  ghost predicate FineInv(s: State, everyone: set<Process>) {
    && s.phases.Keys <= everyone && |everyone| <= MAX_INT
    && (forall p :: PhaseFine(s.At(p)))
    && CountInv(s)
  }

  lemma OwnersAfterWith(s: State, p: Process, phase: Phase, mode: Mode)
    ensures Owners(s.With(p, phase), mode) == if Owns(phase, mode) then Owners(s, mode) + {p} else Owners(s, mode) - {p}
  {
  }

  /** Under the counting invariant a scan sees exactly what is there. */
  lemma ScanOfCounted(files: set<string>, shared: set<Process>, exclusive: set<Process>)
    requires Counted(files, shared, exclusive) && |shared| <= MAX_INT
    ensures Scan(files) ==
            if shared != {} then One(Found(SharedMarkerName(|shared|), SharedMarker(|shared|)))
            else if exclusive != {} then One(Found(EXCLUSIVE_MARKER, ExclusiveMarker))
            else NoMarker
  {
    if shared != {} {
      ParseOfSharedMarkerName(|shared|);
      ScanOfOne(files, SharedMarkerName(|shared|));
    } else if exclusive != {} {
      ScanOfOne(files, EXCLUSIVE_MARKER);
    }
  }

  lemma MarkersAfterAdding(files: set<string>, name: string)
    requires IsMarkerName(name)
    ensures MarkerNames(files + {name}) == MarkerNames(files) + {name}
    ensures MarkerNames(files - {name}) == MarkerNames(files) - {name}
  {
  }

  /** An attempt on a directory without a marker creates the first one. */
  lemma FirstAcquireCounts(files: set<string>, p: Process, m: Mode)
    requires MarkerNames(files) == {}
    ensures var e := Acquire(files, m, NoMarker);
            && e.outcome == Done
            && Counted(e.files, if m == Shared then {p} else {}, if m == Exclusive then {p} else {})
  {
    var name := if m == Shared then SharedMarkerName(1) else EXCLUSIVE_MARKER;
    SharedNamesAreShared(1);
    MarkersAfterAdding(files, name);
    assert name !in MarkerNames(files);
    assert |{p}| == 1;
  }

  /** An attempt next to `n` shared owners renames the marker to the next number. */
  lemma NextAcquireCounts(files: set<string>, shared: set<Process>, p: Process)
    requires shared != {} && p !in shared && MarkerNames(files) == {SharedMarkerName(|shared|)}
    ensures var e := Rename(files, SharedMarkerName(|shared|), SharedMarkerName(|shared| + 1));
            e.outcome == Done && Counted(e.files, shared + {p}, {})
  {
    var n := |shared|;
    SharedNamesAreShared(n);
    SharedNamesAreShared(n + 1);
    assert |shared + {p}| == n + 1;
    assert SharedMarkerName(n) in MarkerNames(files);
    MarkersAfterAdding(files, SharedMarkerName(n));
    MarkersAfterAdding(files - {SharedMarkerName(n)}, SharedMarkerName(n + 1));
  }

  function Joined(owners: set<Process>, p: Process, joins: bool): set<Process> {
    if joins then owners + {p} else owners
  }

  /** The file action of an acquire on any plausible scan, current or not, keeps the count unless
      it is a stale creation. */
  lemma AcquireCounts(files: set<string>, shared: set<Process>, exclusive: set<Process>, p: Process, m: Mode, seen: ScanResult)
    requires Counted(files, shared, exclusive) && p !in shared && p !in exclusive && Plausible(seen)
    ensures var e := Acquire(files, m, seen);
      && Counted(e.files, Joined(shared, p, e.outcome == Done && m == Shared), Joined(exclusive, p, e.outcome == Done && m == Exclusive))
           == !(seen == NoMarker && MarkerNames(files) != {} && NewMarker(m) !in files)
      && e.outcome != Error && (e.outcome == WouldBlock ==> e.files == files)
  {
    SharedNamesAreShared(1);
    if seen == NoMarker {
      if MarkerNames(files) == {} {
        FirstAcquireCounts(files, p, m);
        assert {} + {p} == {p};
      } else if NewMarker(m) !in files {
        MarkersAfterAdding(files, NewMarker(m));
        TwoMarkers(files + {NewMarker(m)}, NewMarker(m), Joined(shared, p, m == Shared), Joined(exclusive, p, m == Exclusive));
      }
    } else if m == Shared && seen.found.marker.SharedMarker? && seen.found.name in files {
      PresentMarkerCounts(files, shared, exclusive, seen.found.marker.count);
      NextAcquireCounts(files, shared, p);
    }
  }

  lemma TwoMarkers(files: set<string>, name: string, shared: set<Process>, exclusive: set<Process>)
    requires name in MarkerNames(files) && MarkerNames(files) - {name} != {}
    ensures !Counted(files, shared, exclusive)
  {
    var other :| other in MarkerNames(files) - {name};
  }

  /** A shared marker that is still there tells the number of owners. */
  lemma PresentMarkerCounts(files: set<string>, shared: set<Process>, exclusive: set<Process>, n: nat)
    requires Counted(files, shared, exclusive) && SharedMarkerName(n) in files
    ensures n == |shared| && shared != {} && exclusive == {}
  {
    SharedNamesAreShared(n);
    assert SharedMarkerName(n) in MarkerNames(files);
    if shared != {} {
      SharedNamesAreShared(|shared|);
      ItoaInjective(n, |shared|);
    }
  }

  /** The file action of a release keeps the count, on any plausible scan of its own kind. */
  lemma ReleaseCounts(files: set<string>, shared: set<Process>, exclusive: set<Process>, p: Process, m: Mode, seen: ScanResult)
    requires Counted(files, shared, exclusive) && PhaseFine(ReleaseScanned(m, seen))
    requires if m == Shared then p in shared else p in exclusive
    ensures var e := Release(files, m, seen);
      && e.outcome != Error && (e.outcome == WouldBlock ==> e.files == files)
      && (e.outcome == Done ==>
            Counted(e.files, if m == Shared then shared - {p} else shared, if m == Exclusive then exclusive - {p} else exclusive))
  {
    if m == Exclusive {
      assert EXCLUSIVE_MARKER in MarkerNames(files);
      MarkersAfterAdding(files, EXCLUSIVE_MARKER);
      assert |exclusive - {p}| == 0;
    } else if seen.found.name in files {
      var n := seen.found.marker.count;
      PresentMarkerCounts(files, shared, exclusive, n);
      SharedNamesAreShared(n);
      MarkersAfterAdding(files, SharedMarkerName(n));
      assert |shared - {p}| == n - 1;
      SharedNamesAreShared(n - 1);
      MarkersAfterAdding(files - {SharedMarkerName(n)}, SharedMarkerName(n - 1));
    }
  }

  lemma SharedOwnersBounded(s: State, everyone: set<Process>)
    requires FineInv(s, everyone)
    ensures |Owners(s, Shared)| <= MAX_INT
  {
    SubsetSize(Owners(s, Shared), everyone);
  }

  lemma {:induction false} SubsetSize<T>(a: set<T>, b: set<T>)
    requires a <= b
    ensures |a| <= |b|
  {
    if a != {} {
      var x :| x in a;
      SubsetSize(a - {x}, b - {x});
    }
  }

  ghost predicate CountedWith(s: State, p: Process, phase: Phase, files: set<string>) {
    Counted(files,
      if Owns(phase, Shared) then Owners(s, Shared) + {p} else Owners(s, Shared) - {p},
      if Owns(phase, Exclusive) then Owners(s, Exclusive) + {p} else Owners(s, Exclusive) - {p})
  }

  lemma FineInvAfter(s: State, everyone: set<Process>, p: Process, phase: Phase, files: set<string>)
    requires FineInv(s, everyone) && p in everyone && PhaseFine(phase)
    ensures FineInv(s.With(p, phase).(files := files), everyone) <==> CountedWith(s, p, phase, files)
    ensures CountInv(s.With(p, phase).(files := files)) <==> CountedWith(s, p, phase, files)
  {
    hide Counted, PhaseFine;
    var t := s.With(p, phase).(files := files);
    OwnersAfterWith(s, p, phase, Shared);
    OwnersAfterWith(s, p, phase, Exclusive);
    assert Owners(t, Shared) == Owners(s.With(p, phase), Shared);
    assert Owners(t, Exclusive) == Owners(s.With(p, phase), Exclusive);
    forall q ensures t.At(q) == if q == p then phase else s.At(q) {
      AtAfterWith(s, p, phase, q);
    }
  }

  lemma ScanIsFine(s: State, everyone: set<Process>, p: Process)
    requires FineInv(s, everyone)
    ensures Plausible(Scan(s.files))
    ensures s.At(p).Releasing? ==> PhaseFine(ReleaseScanned(s.At(p).mode, Scan(s.files)))
    ensures Scan(s.files) == NoMarker <==> MarkerNames(s.files) == {}
  {
    hide Scan;
    SharedOwnersBounded(s, everyone);
    ScanOfCounted(s.files, Owners(s, Shared), Owners(s, Exclusive));
    assert s.At(p).Releasing? ==> p in Owners(s, s.At(p).mode);
  }

  lemma CountedAfterAcquire(s: State, p: Process, m: Mode, outcome: Outcome, files: set<string>)
    requires !Owns(s.At(p), Shared) && !Owns(s.At(p), Exclusive)
    ensures CountedWith(s, p, AfterAcquire(m, outcome), files) <==>
      Counted(files, Joined(Owners(s, Shared), p, outcome == Done && m == Shared),
                     Joined(Owners(s, Exclusive), p, outcome == Done && m == Exclusive))
  {
    hide Counted;
    assert Owners(s, Shared) - {p} == Owners(s, Shared) && Owners(s, Exclusive) - {p} == Owners(s, Exclusive);
  }

  lemma AcquireActs(s: State, everyone: set<Process>, p: Process)
    requires FineInv(s, everyone) && p in everyone && s.At(p).AcquireScanned?
    ensures FineInv(Step(s, p, Act), everyone) <==> !StaleCreate(s, p, Act)
    ensures CountInv(Step(s, p, Act)) <==> !StaleCreate(s, p, Act)
  {
    hide Counted, CountedWith, Acquire, Plausible, NewMarker, MarkerNames;
    var m, seen := s.At(p).mode, s.At(p).seen;
    var e := Acquire(s.files, m, seen);
    assert PhaseFine(s.At(p));
    AcquireCounts(s.files, Owners(s, Shared), Owners(s, Exclusive), p, m, seen);
    CountedAfterAcquire(s, p, m, e.outcome, e.files);
    FineInvAfter(s, everyone, p, AfterAcquire(m, e.outcome), e.files);
  }

  lemma ReleaseActs(s: State, everyone: set<Process>, p: Process)
    requires FineInv(s, everyone) && p in everyone && s.At(p).ReleaseScanned?
    ensures FineInv(Step(s, p, Act), everyone)
  {
    var m, seen := s.At(p).mode, s.At(p).seen;
    var shared, exclusive := Owners(s, Shared), Owners(s, Exclusive);
    var e := Release(s.files, m, seen);
    assert PhaseFine(s.At(p));
    hide Counted, Release, Plausible;
    ReleaseCounts(s.files, shared, exclusive, p, m, seen);
    assert m == Shared ==> exclusive - {p} == exclusive && shared + {p} == shared;
    assert m == Exclusive ==> shared - {p} == shared && exclusive + {p} == exclusive;
    FineInvAfter(s, everyone, p, AfterRelease(m, e.outcome), e.files);
  }

  /** A step touches no other process, and one that is not a file action changes no file and
      no owner. */
  lemma StepTouches(s: State, p: Process, a: Action)
    ensures forall q :: q != p ==> Step(s, p, a).At(q) == s.At(q)
    ensures !(a == Act && (s.At(p).AcquireScanned? || s.At(p).ReleaseScanned?)) ==>
      var t := Step(s, p, a);
      && (t == s || t == s.With(p, t.At(p)).(files := s.files))
      && (t == s || !t.At(p).AcquireScanned? || t.At(p) == AcquireScanned(s.At(p).mode, Scan(s.files)))
      && (t == s || !t.At(p).ReleaseScanned? || (s.At(p).Releasing? && t.At(p) == ReleaseScanned(s.At(p).mode, Scan(s.files))))
      && forall m :: Owns(t.At(p), m) <==> Owns(s.At(p), m)
  {
    hide Scan, Acquire, Release;
  }

  lemma SameOwners(s: State, p: Process, phase: Phase)
    requires Counted(s.files, Owners(s, Shared), Owners(s, Exclusive))
    requires forall m :: Owns(phase, m) <==> Owns(s.At(p), m)
    ensures CountedWith(s, p, phase, s.files)
  {
    hide Counted;
    forall m ensures Owners(s, m) == if Owns(phase, m) then Owners(s, m) + {p} else Owners(s, m) - {p} {
      assert p in Owners(s, m) <==> Owns(s.At(p), m);
    }
    assert Owners(s, Shared) == if Owns(phase, Shared) then Owners(s, Shared) + {p} else Owners(s, Shared) - {p};
    assert Owners(s, Exclusive) == if Owns(phase, Exclusive) then Owners(s, Exclusive) + {p} else Owners(s, Exclusive) - {p};
  }

  lemma OtherStepIsFine(s: State, everyone: set<Process>, p: Process, a: Action)
    requires FineInv(s, everyone) && p in everyone && !(a == Act && (s.At(p).AcquireScanned? || s.At(p).ReleaseScanned?))
    ensures FineInv(Step(s, p, a), everyone)
  {
    hide Scan, Step, Counted, Plausible, Owners, Owns;
    ScanIsFine(s, everyone, p);
    StepTouches(s, p, a);
    var t := Step(s, p, a);
    if t != s {
      SameOwners(s, p, t.At(p));
      FineInvAfter(s, everyone, p, t.At(p), s.files);
    }
  }

  /** With scan and file action as separate steps, a step keeps the counting invariant exactly
      when it is no stale creation. */
  lemma StepKeepsFineInv(s: State, everyone: set<Process>, p: Process, a: Action)
    requires FineInv(s, everyone) && p in everyone
    ensures FineInv(Step(s, p, a), everyone) <==> !StaleCreate(s, p, a)
    ensures CountInv(Step(s, p, a)) <==> !StaleCreate(s, p, a)
  {
    hide CountInv, Step;
    if a == Act && s.At(p).AcquireScanned? {
      AcquireActs(s, everyone, p);
    } else if a == Act && s.At(p).ReleaseScanned? {
      ReleaseActs(s, everyone, p);
    } else {
      OtherStepIsFine(s, everyone, p, a);
    }
  }

  // ----- over whole runs -----

  ghost predicate Among(schedule: Schedule, everyone: set<Process>) {
    forall i :: 0 <= i < |schedule| ==> schedule[i].0 in everyone
  }

  /** No step of the run is a stale creation. */
  ghost predicate Clean(s: State, schedule: Schedule) {
    forall k :: 0 <= k < |schedule| ==> !StaleCreate(Run(s, schedule[..k]), schedule[k].0, schedule[k].1)
  }

  ghost predicate AlwaysCounted(s: State, schedule: Schedule) {
    forall k :: 0 <= k <= |schedule| ==> CountInv(Run(s, schedule[..k]))
  }

  lemma RunNext(s: State, schedule: Schedule, k: nat)
    requires k < |schedule|
    ensures Run(s, schedule[..k + 1]) == Step(Run(s, schedule[..k]), schedule[k].0, schedule[k].1)
  {
    assert schedule[..k + 1][..k] == schedule[..k];
  }

  lemma {:induction false} CleanRunIsFine(s: State, schedule: Schedule, everyone: set<Process>, k: nat)
    requires FineInv(s, everyone) && Among(schedule, everyone) && Clean(s, schedule) && k <= |schedule|
    ensures FineInv(Run(s, schedule[..k]), everyone)
  {
    hide FineInv, StaleCreate, Step;
    if k > 0 {
      CleanRunIsFine(s, schedule, everyone, k - 1);
      RunNext(s, schedule, k - 1);
      assert schedule[k - 1].0 in everyone;
      StepKeepsFineInv(Run(s, schedule[..k - 1]), everyone, schedule[k - 1].0, schedule[k - 1].1);
    }
  }

  /** At every point of a run the directory tells the owners, as no marker and no owner, the
      exclusive marker and one exclusive owner, or the shared marker with the number of shared
      owners, exactly when no step of the run is a stale creation. */
  lemma RunIsCountedIffClean(files: set<string>, schedule: Schedule, everyone: set<Process>)
    requires MarkerNames(files) == {} && |everyone| <= MAX_INT && Among(schedule, everyone)
    ensures AlwaysCounted(Start(files), schedule) <==> Clean(Start(files), schedule)
  {
    var s := Start(files);
    StartIsFine(files, everyone);
    hide CountInv, StaleCreate, Step, Run;
    if Clean(s, schedule) {
      forall k | 0 <= k <= |schedule| ensures CountInv(Run(s, schedule[..k])) {
        CleanRunIsFine(s, schedule, everyone, k);
      }
    }
    if AlwaysCounted(s, schedule) {
      forall k | 0 <= k < |schedule| ensures !StaleCreate(Run(s, schedule[..k]), schedule[k].0, schedule[k].1) {
        CountedRunIsFine(s, schedule, everyone, k);
        RunNext(s, schedule, k);
        StepKeepsFineInv(Run(s, schedule[..k]), everyone, schedule[k].0, schedule[k].1);
      }
    }
  }

  lemma {:induction false} CountedRunIsFine(s: State, schedule: Schedule, everyone: set<Process>, k: nat)
    requires FineInv(s, everyone) && Among(schedule, everyone) && AlwaysCounted(s, schedule) && k <= |schedule|
    ensures FineInv(Run(s, schedule[..k]), everyone)
  {
    hide FineInv, CountInv, StaleCreate, Step;
    if k > 0 {
      CountedRunIsFine(s, schedule, everyone, k - 1);
      RunNext(s, schedule, k - 1);
      assert CountInv(Run(s, schedule[..k]));
      StepKeepsFineInv(Run(s, schedule[..k - 1]), everyone, schedule[k - 1].0, schedule[k - 1].1);
    }
  }

  lemma StartIsFine(files: set<string>, everyone: set<Process>)
    requires MarkerNames(files) == {} && |everyone| <= MAX_INT
    ensures FineInv(Start(files), everyone)
  {
    assert Owners(Start(files), Shared) == {} && Owners(Start(files), Exclusive) == {};
  }

  lemma CleanRunEndsFine(files: set<string>, schedule: Schedule, everyone: set<Process>)
    requires MarkerNames(files) == {} && |everyone| <= MAX_INT && Among(schedule, everyone) && Clean(Start(files), schedule)
    ensures FineInv(Run(Start(files), schedule), everyone)
  {
    hide FineInv, Clean, Run;
    StartIsFine(files, everyone);
    CleanRunIsFine(Start(files), schedule, everyone, |schedule|);
    assert schedule[..|schedule|] == schedule;
  }

  /** So in a clean run a holder of the exclusive lock is alone. */
  lemma ExclusiveExcludesEveryone(files: set<string>, schedule: Schedule, everyone: set<Process>, p: Process, q: Process)
    requires MarkerNames(files) == {} && |everyone| <= MAX_INT && Among(schedule, everyone) && Clean(Start(files), schedule)
    requires Run(Start(files), schedule).At(p) == Holding(Exclusive)
    requires Run(Start(files), schedule).At(q).Holding?
    ensures p == q
  {
    hide Run, Clean;
    CleanRunEndsFine(files, schedule, everyone);
    var s := Run(Start(files), schedule);
    assert p in Owners(s, Exclusive);
    assert q in Owners(s, s.At(q).mode);
    SubsetSize({p, q}, Owners(s, Exclusive));
  }

  /** At the end of a clean run a scan and the file action right after it acquire exactly when
      nobody owns the lock in a way that excludes it, and otherwise block; they always release. */
  lemma AttemptIsDecided(files: set<string>, schedule: Schedule, everyone: set<Process>, p: Process)
    requires MarkerNames(files) == {} && |everyone| <= MAX_INT && Among(schedule, everyone) && Clean(Start(files), schedule)
    ensures var s := Run(Start(files), schedule);
      && (s.At(p).Acquiring? ==>
            Whole(s, p, Try).At(p) ==
              if Owners(s, Exclusive) == {} && (s.At(p).mode == Shared || Owners(s, Shared) == {}) then Holding(s.At(p).mode)
              else s.At(p))
      && (s.At(p).Releasing? ==> Whole(s, p, Try).At(p) == Idle)
  {
    hide Run, Clean, Start;
    CleanRunEndsFine(files, schedule, everyone);
    var s := Run(Start(files), schedule);
    var shared, exclusive := Owners(s, Shared), Owners(s, Exclusive);
    SharedOwnersBounded(s, everyone);
    ScanOfCounted(s.files, shared, exclusive);
    WholeTry(s, p);
    if s.At(p).Acquiring? {
      FreshAcquireSucceeds(s.files, shared, exclusive, s.At(p).mode);
    }
    if s.At(p).Releasing? {
      assert p in Owners(s, s.At(p).mode);
      FreshReleaseSucceeds(s.files, shared, exclusive, s.At(p).mode);
    }
  }

  lemma FreshAcquireSucceeds(files: set<string>, shared: set<Process>, exclusive: set<Process>, m: Mode)
    requires Counted(files, shared, exclusive) && |shared| <= MAX_INT
    ensures Acquire(files, m, Scan(files)).outcome == if exclusive == {} && (m == Shared || shared == {}) then Done else WouldBlock
  {
    hide Scan;
    ScanOfCounted(files, shared, exclusive);
    SharedNamesAreShared(1);
    if shared != {} {
      assert SharedMarkerName(|shared|) in MarkerNames(files);
    } else if exclusive == {} {
      assert NewMarker(m) !in MarkerNames(files);
    }
  }

  lemma FreshReleaseSucceeds(files: set<string>, shared: set<Process>, exclusive: set<Process>, m: Mode)
    requires Counted(files, shared, exclusive) && |shared| <= MAX_INT && (if m == Shared then shared else exclusive) != {}
    ensures Release(files, m, Scan(files)).outcome == Done
  {
    hide Scan;
    ScanOfCounted(files, shared, exclusive);
    if m == Shared {
      assert SharedMarkerName(|shared|) in MarkerNames(files);
    } else {
      assert EXCLUSIVE_MARKER in MarkerNames(files);
    }
  }

  // ----- runs in which nobody acts between a scan and its file action -----

  datatype Attempt = Begin(mode: Mode) | Try | End | Abandon

  function StepsOf(p: Process, a: Attempt): Schedule {
    match a
    case Begin(m) => [(p, WantAcquire(m))]
    case End => [(p, WantRelease)]
    case Abandon => [(p, GiveUp)]
    case Try => [(p, ScanDirectory), (p, Act)]
  }

  /** One whole attempt: the scan and the file action that follows it. */
  ghost function Whole(s: State, p: Process, a: Attempt): State {
    Run(s, StepsOf(p, a))
  }

  function Expanded(attempts: seq<(Process, Attempt)>): Schedule {
    if attempts == [] then []
    else
      var (p, a) := attempts[|attempts| - 1];
      Expanded(attempts[..|attempts| - 1]) + StepsOf(p, a)
  }

  lemma WholeIs(s: State, p: Process, a: Attempt)
    ensures a == Try ==> Whole(s, p, a) == Step(Step(s, p, ScanDirectory), p, Act)
    ensures a != Try ==> Whole(s, p, a) == Step(s, p, StepsOf(p, a)[0].1)
  {
    hide Step;
    RunOneMore(s, [], p, StepsOf(p, a)[0].1);
    assert [] + [StepsOf(p, a)[0]] == [StepsOf(p, a)[0]];
    if a == Try {
      RunOneMore(s, [(p, ScanDirectory)], p, Act);
      assert [(p, ScanDirectory)] + [(p, Act)] == StepsOf(p, a);
    }
  }

  /** An attempt is the file action on what the directory holds now. */
  lemma WholeTry(s: State, p: Process)
    ensures s.At(p).Acquiring? ==>
              var m, e := s.At(p).mode, Acquire(s.files, s.At(p).mode, Scan(s.files));
              Whole(s, p, Try) == s.With(p, AfterAcquire(m, e.outcome)).(files := e.files)
    ensures s.At(p).Releasing? ==>
              var m, e := s.At(p).mode, Release(s.files, s.At(p).mode, Scan(s.files));
              Whole(s, p, Try) == s.With(p, AfterRelease(m, e.outcome)).(files := e.files)
  {
    WholeIs(s, p, Try);
    hide Scan, Acquire, Release, Whole;
    if s.At(p).Acquiring? || s.At(p).Releasing? {
      var t := Step(s, p, ScanDirectory);
      assert s.phases[p := t.At(p)] == t.phases;
    }
  }

  /** Nobody has scanned without having acted. */
  ghost predicate Settled(s: State) {
    forall p :: !s.At(p).AcquireScanned? && !s.At(p).ReleaseScanned?
  }

  lemma WholeIsClean(s: State, everyone: set<Process>, p: Process, a: Attempt)
    requires FineInv(s, everyone) && Settled(s) && p in everyone
    ensures Clean(s, StepsOf(p, a)) && FineInv(Whole(s, p, a), everyone)
  {
    ScanIsFine(s, everyone, p);
    hide FineInv, Scan, Acquire, Release, Run;
    var steps := StepsOf(p, a);
    assert steps[..0] == [];
    RunOfNone(s);
    WholeIs(s, p, a);
    var s1 := Step(s, p, steps[0].1);
    assert !StaleCreate(s, p, steps[0].1);
    StepKeepsFineInv(s, everyone, p, steps[0].1);
    if a == Try {
      assert steps[..1] == [] + [steps[0]];
      RunOneMore(s, [], p, ScanDirectory);
      assert Run(s, steps[..1]) == s1;
      assert !StaleCreate(s1, p, Act);
      StepKeepsFineInv(s1, everyone, p, Act);
    }
  }

  lemma RunOfNone(s: State)
    ensures Run(s, []) == s
  {
  }

  lemma WholeSettles(s: State, p: Process, a: Attempt)
    requires Settled(s)
    ensures Settled(Whole(s, p, a))
  {
    hide Scan, Acquire, Release, Run;
    WholeIs(s, p, a);
    var steps := StepsOf(p, a);
    StepTouches(s, p, steps[0].1);
    if a == Try {
      StepTouches(Step(s, p, ScanDirectory), p, Act);
    }
    assert !Whole(s, p, a).At(p).AcquireScanned? && !Whole(s, p, a).At(p).ReleaseScanned?;
    forall q ensures !Whole(s, p, a).At(q).AcquireScanned? && !Whole(s, p, a).At(q).ReleaseScanned? {
      if q != p {
        assert Whole(s, p, a).At(q) == s.At(q);
      }
    }
  }

  lemma RunInParts(s: State, a: Schedule, b: Schedule)
    ensures Run(s, a + b) == Run(Run(s, a), b)
    decreases |b|
  {
    hide Step;
    if b == [] {
      assert a + b == a;
    } else {
      var n := |b| - 1;
      RunInParts(s, a, b[..n]);
      assert (a + b)[..|a + b| - 1] == a + b[..n] && (a + b)[|a + b| - 1] == b[n];
    }
  }

  lemma CleanInParts(s: State, a: Schedule, b: Schedule)
    requires Clean(s, a) && Clean(Run(s, a), b)
    ensures Clean(s, a + b)
  {
    hide StaleCreate, Run;
    forall k | 0 <= k < |a + b| ensures !StaleCreate(Run(s, (a + b)[..k]), (a + b)[k].0, (a + b)[k].1) {
      if k < |a| {
        assert (a + b)[..k] == a[..k] && (a + b)[k] == a[k];
      } else {
        assert (a + b)[..k] == a + b[..k - |a|] && (a + b)[k] == b[k - |a|];
        RunInParts(s, a, b[..k - |a|]);
      }
    }
  }

  lemma AmongInParts(before: Schedule, p: Process, a: Attempt, everyone: set<Process>)
    requires Among(before, everyone) && p in everyone
    ensures Among(before + StepsOf(p, a), everyone)
  {
  }

  /** Runs of whole attempts are clean, so every law above holds of them without a condition. */
  lemma {:induction false} WholeAttemptsAreClean(files: set<string>, everyone: set<Process>, attempts: seq<(Process, Attempt)>)
    requires MarkerNames(files) == {} && |everyone| <= MAX_INT
    requires forall i :: 0 <= i < |attempts| ==> attempts[i].0 in everyone
    ensures Clean(Start(files), Expanded(attempts)) && Among(Expanded(attempts), everyone)
    ensures Settled(Run(Start(files), Expanded(attempts))) && FineInv(Run(Start(files), Expanded(attempts)), everyone)
  {
    hide Clean, Settled, FineInv, Run, Start, StepsOf, Among, MarkerNames;
    if attempts == [] {
      NoAttempts(files, everyone);
    } else {
      var n := |attempts| - 1;
      WholeAttemptsAreClean(files, everyone, attempts[..n]);
      var (p, a) := attempts[n];
      assert attempts[n].0 in everyone;
      NextAttempt(Start(files), Expanded(attempts[..n]), everyone, p, a);
    }
  }

  lemma NoAttempts(files: set<string>, everyone: set<Process>)
    requires MarkerNames(files) == {} && |everyone| <= MAX_INT
    ensures Clean(Start(files), []) && Among([], everyone) && Settled(Run(Start(files), [])) && FineInv(Run(Start(files), []), everyone)
  {
    StartIsFine(files, everyone);
  }

  lemma NextAttempt(s: State, before: Schedule, everyone: set<Process>, p: Process, a: Attempt)
    requires Clean(s, before) && Among(before, everyone) && Settled(Run(s, before)) && FineInv(Run(s, before), everyone) && p in everyone
    ensures var all := before + StepsOf(p, a);
      Clean(s, all) && Among(all, everyone) && Settled(Run(s, all)) && FineInv(Run(s, all), everyone)
  {
    hide Clean, Settled, FineInv, Run, StepsOf, Among;
    WholeIsClean(Run(s, before), everyone, p, a);
    WholeSettles(Run(s, before), p, a);
    AmongInParts(before, p, a, everyone);
    CleanInParts(s, before, StepsOf(p, a));
    RunInParts(s, before, StepsOf(p, a));
  }

  /** Over every run of whole attempts: no marker and no owner, or the exclusive marker and one
      exclusive owner, or the shared marker whose number is the number of shared owners. */
  lemma RunKeepsCountInv(files: set<string>, everyone: set<Process>, attempts: seq<(Process, Attempt)>)
    requires MarkerNames(files) == {} && |everyone| <= MAX_INT
    requires forall i :: 0 <= i < |attempts| ==> attempts[i].0 in everyone
    ensures CountInv(Run(Start(files), Expanded(attempts))) && Settled(Run(Start(files), Expanded(attempts)))
  {
    hide Run, Expanded, Settled, CountInv;
    WholeAttemptsAreClean(files, everyone, attempts);
  }

  /** And in these runs a holder of the exclusive lock is alone without further condition. */
  lemma WholeAttemptsExclude(files: set<string>, everyone: set<Process>, attempts: seq<(Process, Attempt)>, p: Process, q: Process)
    requires MarkerNames(files) == {} && |everyone| <= MAX_INT
    requires forall i :: 0 <= i < |attempts| ==> attempts[i].0 in everyone
    requires Run(Start(files), Expanded(attempts)).At(p) == Holding(Exclusive)
    requires Run(Start(files), Expanded(attempts)).At(q).Holding?
    ensures p == q
  {
    hide Run, Expanded, Clean, Start;
    WholeAttemptsAreClean(files, everyone, attempts);
    ExclusiveExcludesEveryone(files, Expanded(attempts), everyone, p, q);
  }
}
