/**
  Crash atomicity of the promotion, and the exact condition under which a recovery
  that was itself interrupted can be repeated.
 */
module PublicBuildSafety {
  import opened Wrappers
  import opened PublicBuild

  // ---------- What every crash point of a build looks like ----------

  ghost predicate BuildInv(w: World) {
    var d := w.disk;
    && (w.receipt ==> w.status.Finished?)
    && match d.journal
       case None =>
         && d.stage.Absent? && d.backup.Absent?
         && (w.status.NotBegun? || w.status.Finished?)
         && (w.status.NotBegun? ==> d.final == w.prior)
         && (w.status.Finished? ==> !d.temp && d.final == w.candidate && CandidateBuilt(w) && SafeDir(w.prior))
       case Some(j) =>
         && w.status.Open?
         && j.sha == w.request.sha && j.date == w.request.date
         && match j.phase
            case INIT => d.final == w.prior && d.backup.Absent?
            case BUILDING => d.final == w.prior && d.backup.Absent?
            case STAGED => d.final == w.prior && d.backup.Absent? && d.stage == w.candidate && CandidateBuilt(w)
            case PRE_SWAP =>
              && d.stage == w.candidate && CandidateBuilt(w)
              && ((d.final == w.prior && d.backup.Absent?) || (d.final.Absent? && PriorAside(w)))
            case PRIOR_MOVED =>
              && CandidateBuilt(w) && (w.prior == Absent == d.backup || PriorAside(w))
              && ((d.stage == w.candidate && d.final.Absent?) || (d.stage.Absent? && d.final == w.candidate))
            case PROMOTED =>
              && CandidateBuilt(w) && (w.prior == Absent == d.backup || PriorAside(w))
              && d.stage.Absent? && d.final == w.candidate
            case COMMITTED =>
              && CandidateBuilt(w) && d.stage.Absent? && d.final == w.candidate
              && SafeDir(w.prior)
              && (d.backup.Absent? || PartDir(d.backup, w.prior))
  }

  ghost predicate CandidateBuilt(w: World) {
    BuiltFor(w.request, w.candidate)
  }

  ghost predicate PriorAside(w: World) {
    w.prior.Tree? && Safe(w.prior.artifact) && w.disk.backup == w.prior
  }

  lemma StepKeepsInv(w: World, a: Action)
    requires BuildInv(w) && Enabled(w, a)
    ensures BuildInv(Apply(w, a))
    ensures Apply(w, a).prior == w.prior && Apply(w, a).request == w.request
  {
  }

  // Every durable state of every run of a build, whatever was published before it.
  lemma {:induction false} RunKeepsInv(w: World, acts: seq<Action>)
    requires BuildInv(w) && Admissible(w, acts)
    ensures BuildInv(Run(w, acts))
    ensures Run(w, acts).prior == w.prior && Run(w, acts).request == w.request
    decreases |acts|
  {
    if acts != [] {
      StepKeepsInv(w, acts[0]);
      RunKeepsInv(Apply(w, acts[0]), acts[1..]);
    }
  }

  // No crash point of a build has all three directories, so the recovery's
  // three-directory error cannot be raised; and without a journal nothing is left behind.
  lemma NeverThreeDirectories(rq: Request, prior: Dir, temp: bool, acts: seq<Action>, expected: Option<Sha>)
    requires Admissible(Fresh(rq, prior, temp), acts)
    ensures
      var d := Run(Fresh(rq, prior, temp), acts).disk;
      && !(d.final.Tree? && d.stage.Tree? && d.backup.Tree?)
      && Plan(expected, d) != Err(ThreeDirectories)
      && Plan(expected, d) != Err(PathsWithoutJournal)
  {
    RunKeepsInv(Fresh(rq, prior, temp), acts);
  }

  // What a recovery under the journal's own source SHA must make of a crash point.
  ghost function Owed(w: World): Result<Disk, RecoveryError>
    requires BuildInv(w)
  {
    var d := w.disk;
    if d.journal.None? then
      Ok(Settled(if w.status.Finished? then w.candidate else w.prior))
    else if !SafeDir(w.prior) then
      Err(if d.stage.Tree? then UnsafePrevious else UnsafeRecovered)
    else if !d.journal.value.phase.COMMITTED? then
      Ok(Settled(w.prior))
    else if !SafeDir(d.backup) then
      Err(UnsafePrevious)  // a half-removed backup
    else if Recoverable(w.candidate.artifact, d.journal.value) then
      Ok(Settled(w.candidate))
    else
      Ok(Settled(d.backup))
  }

  // Crash a build anywhere and run one recovery to its end. Before COMMITTED the prior
  // artifact is back. After it a verifiable candidate is kept, and an unverifiable one gives
  // way to the backup: to the prior artifact while that is there, and to nothing once it has
  // been discarded (see NothingPublished). Where recovery refuses, the published directory
  // is untouched.
  lemma CrashAtomicity(rq: Request, prior: Dir, temp: bool, acts: seq<Action>)
    requires Admissible(Fresh(rq, prior, temp), acts)
    ensures
      var w := Run(Fresh(rq, prior, temp), acts);
      var d := w.disk;
      && w.prior == prior && BuildInv(w)
      && Recovered(Some(rq.sha), d) == Recovered(None, d) == Owed(w)
      && (Owed(w).Err? ==> d.final == if PhaseIs(d, COMMITTED) then w.candidate else prior)
      && (PhaseIs(d, COMMITTED) && d.backup.Tree? ==> PartDir(d.backup, prior))
  {
    var w := Run(Fresh(rq, prior, temp), acts);
    RunKeepsInv(Fresh(rq, prior, temp), acts);
    if w.candidate.Tree? && Exact(w.candidate.artifact) { ExactIsSafe(w.candidate.artifact); }
  }

  // Nothing is touched when the journal belongs to another source SHA.
  lemma ForeignShaTouchesNothing(rq: Request, prior: Dir, temp: bool, acts: seq<Action>, other: Sha, m: Disk)
    requires Admissible(Fresh(rq, prior, temp), acts) && other != rq.sha
    requires Run(Fresh(rq, prior, temp), acts).disk.journal.Some?
    requires CrashState(Some(other), Run(Fresh(rq, prior, temp), acts).disk, m)
    ensures
      var d := Run(Fresh(rq, prior, temp), acts).disk;
      Recovered(Some(other), d) == Err(WrongSourceSha) && m.(temp := d.temp) == d
  {
    RunKeepsInv(Fresh(rq, prior, temp), acts);
  }

  // A COMPLETE receipt is never contradicted: recovery keeps the committed candidate, which
  // holds the public files and no others, passed the scan and names the request.
  lemma ReceiptIsNeverFalse(rq: Request, prior: Dir, temp: bool, acts: seq<Action>, expected: Option<Sha>)
    requires Admissible(Fresh(rq, prior, temp), acts) && Run(Fresh(rq, prior, temp), acts).receipt
    ensures
      var w := Run(Fresh(rq, prior, temp), acts);
      && w.candidate.Tree? && Recovered(expected, w.disk) == Ok(Settled(w.candidate))
      && var c := w.candidate.artifact;
         c.files == PUBLIC_FILES && c.scanClean && c.manifestSha == rq.sha && c.manifestDate == rq.date
  {
    RunKeepsInv(Fresh(rq, prior, temp), acts);
  }

  // ---------- What may be removed ----------

  // A directory is safe exactly when it holds all public files and otherwise only private ones.
  lemma SafeIff(a: Artifact)
    ensures Safe(a) <==> PUBLIC_FILES <= a.files <= PUBLIC_FILES + PRIVATE_FILES
  {
    assert PUBLIC_FILES !! PRIVATE_FILES;
    if Safe(a) {
      assert forall f :: f in a.files ==> f in a.files - PRIVATE_FILES || f in PRIVATE_FILES;
    }
  }

  // Over a published directory with any other file in it a build moves and removes nothing,
  // and neither does a recovery of it, wherever either is interrupted.
  lemma ForeignFilesStay(rq: Request, prior: Dir, temp: bool, acts: seq<Action>, expected: Option<Sha>, m: Disk, f: FileName)
    requires prior.Tree? && f in prior.artifact.files && f !in PUBLIC_FILES + PRIVATE_FILES
    requires Admissible(Fresh(rq, prior, temp), acts)
    requires CrashState(expected, Run(Fresh(rq, prior, temp), acts).disk, m)
    ensures Run(Fresh(rq, prior, temp), acts).disk.final == prior && m.final == prior
    ensures Recovered(expected, m).Ok? ==> Recovered(expected, m).value.final == prior
  {
    var w := Run(Fresh(rq, prior, temp), acts);
    RunKeepsInv(Fresh(rq, prior, temp), acts);
    SafeIff(prior.artifact);
    assert w.disk.final == prior && w.disk.backup.Absent?;
    assert w.disk.journal.Some? ==> !Late(w.disk.journal.value.phase);
    FinalStays(expected, w.disk, m);
  }

  lemma FinalStays(expected: Option<Sha>, d: Disk, m: Disk)
    requires CrashState(expected, d, m) && d.backup.Absent? && !SafeDir(d.final)
    requires d.journal.Some? ==> !Late(d.journal.value.phase)
    ensures m.final == d.final
    ensures Recovered(expected, m).Ok? ==> Recovered(expected, m).value.final == d.final
  {
  }

  // No recovery of any disk touches a backup with such a file in it, or brings one back.
  lemma ForeignBackupStays(expected: Option<Sha>, d: Disk, m: Disk, f: FileName)
    requires d.backup.Tree? && f in d.backup.artifact.files && f !in PUBLIC_FILES + PRIVATE_FILES
    requires CrashState(expected, d, m)
    ensures m.(temp := d.temp) == d && Recovered(expected, d).Err?
  {
    SafeIff(d.backup.artifact);
  }

  // And what a recovery of any disk leaves published under a journal is of that inventory.
  lemma RecoveredInventory(expected: Option<Sha>, d: Disk)
    requires d.journal.Some? && Recovered(expected, d).Ok? && Recovered(expected, d).value.final.Tree?
    ensures PUBLIC_FILES <= Recovered(expected, d).value.final.artifact.files <= PUBLIC_FILES + PRIVATE_FILES
  {
    var left := Recovered(expected, d).value.final;
    var acts := Plan(expected, d).value;
    if d.final.Tree? && Exact(d.final.artifact) { ExactIsSafe(d.final.artifact); }
    assert acts[1..] == [] || acts[1..][1..] == [] || acts[1..][1..][1..] == [];
    assert Safe(left.artifact);
    SafeIff(left.artifact);
  }

  // On any disk a COMMITTED directory with nothing beside it stays published exactly when its
  // files are the public ones, its manifest names what the journal does, and both the
  // verifier and the scan accept it; otherwise nothing is left.
  lemma CommittedStaysIff(expected: Option<Sha>, d: Disk)
    requires d.journal.Some? && d.journal.value.phase == COMMITTED
    requires expected.None? || expected.value == d.journal.value.sha
    requires d.final.Tree? && d.stage.Absent? && d.backup.Absent?
    ensures var a, j := d.final.artifact, d.journal.value;
            var kept := && a.files == PUBLIC_FILES && a.manifestSha == j.sha && a.manifestDate == j.date
                        && a.verified && a.scanClean;
            Recovered(expected, d) == Ok(Settled(if kept then d.final else Absent))
  {
    if Exact(d.final.artifact) { ExactIsSafe(d.final.artifact); }
  }

  // ---------- Recovery that is itself interrupted ----------

  // Kept by builds, by recoveries and by their crashes outside the window below.
  predicate ExpectedShape(d: Disk) {
    && (PhaseIs(d, COMMITTED) && d.final.Tree? ==> d.final.artifact.files <= PUBLIC_FILES)
    && (d.journal.Some? && Late(d.journal.value.phase) && d.final.Tree? ==> d.stage.Absent?)
  }

  // A recovery that meets `m` will delete what is published.
  predicate LooksLikeFirstPromotion(m: Disk) {
    && m.journal.Some? && Late(m.journal.value.phase)
    && m.stage.Absent? && m.backup.Absent? && m.final.Tree?
    && !(m.journal.value.phase.COMMITTED? && Recoverable(m.final.artifact, m.journal.value))
  }

  // The restore rename has happened and the journal is still there.
  predicate InRestoreWindow(d: Disk, m: Disk) {
    d.backup.Tree? && LooksLikeFirstPromotion(m)
  }

  predicate HalfRemovedBackup(m: Disk) {
    m.backup.Tree? && !Safe(m.backup.artifact)
  }

  lemma MidwayCases(expected: Option<Sha>, d: Disk, m: Disk)
    requires ExpectedShape(d) && Plan(expected, d).Ok? && !d.temp
    requires Plan(expected, d).value != [] && Midway(d, Plan(expected, d).value[0], m)
    ensures ExpectedShape(m) && !m.temp
    ensures !InRestoreWindow(d, m)
    ensures !HalfRemovedBackup(m) ==> Recovered(expected, m) == Recovered(expected, d)
    ensures HalfRemovedBackup(m) ==> Recovered(expected, m) == Err(UnsafePrevious) && m.final == d.final
  {
    if d.final.Tree? && m.final.Tree? && PhaseIs(d, COMMITTED) && Exact(m.final.artifact) {
      ProperPartIsNotExact(m.final.artifact, d.final.artifact);
    }
  }

  // After the first action has completed: the second action, if any, is not a tree removal.
  lemma AfterFirstAction(expected: Option<Sha>, d: Disk, m: Disk)
    requires ExpectedShape(d) && Plan(expected, d).Ok? && !d.temp
    requires var acts := Plan(expected, d).value; acts != [] && CrashDuring(Do(d, acts[0]), acts[1..], m)
    ensures !m.temp && !HalfRemovedBackup(m)
    ensures !InRestoreWindow(d, m) ==> ExpectedShape(m) && Recovered(expected, m) == Recovered(expected, d)
    ensures InRestoreWindow(d, m) ==> m.final == d.backup && Recovered(expected, m) == Ok(Settled(Absent))
                                      && Recovered(expected, d) == Ok(Settled(d.backup))
  {
    var acts := Plan(expected, d).value;
    var d1 := Do(d, acts[0]);
    if d.final.Tree? && Exact(d.final.artifact) { ExactIsSafe(d.final.artifact); }
    if |acts| == 1 {
      assert m == d1;
    } else {
      var d2 := Do(d1, acts[1]);
      assert acts[1..][0] == acts[1] && acts[1..][1..] == acts[2..];
      assert DoAll(d, acts) == DoAll(d2, acts[2..]);
      if m == d1 {
        assert !InRestoreWindow(d, m) ==> Plan(expected, m) == Ok(acts[1..]);
      } else if |acts| == 2 {
        assert m == d2;
      } else {
        assert acts[2..] == [ClearJournal];
        assert m == d2 || m == Do(d2, ClearJournal);
      }
    }
  }

  // A recovery can be crashed and repeated with the same result, except in exactly two
  // situations that can be read off the disk: between the restoring rename and the removal
  // of the journal, where the restored artifact is taken for an unfinished first promotion
  // and deleted, and with a half-removed backup, where it stops with the candidate in place.
  lemma RecoveryIsRepeatable(expected: Option<Sha>, d: Disk, m: Disk)
    requires ExpectedShape(d) && Plan(expected, d).Ok? && CrashState(expected, d, m)
    ensures Recovered(expected, m) == Recovered(expected, d)
            <==> !InRestoreWindow(d, m) && !HalfRemovedBackup(m)
    ensures InRestoreWindow(d, m) ==> m.final == d.backup && Recovered(expected, m) == Ok(Settled(Absent))
                                      && Recovered(expected, d) == Ok(Settled(d.backup))
    ensures HalfRemovedBackup(m) ==> Recovered(expected, m) == Err(UnsafePrevious) && m.final == d.final
    ensures !InRestoreWindow(d, m) ==> ExpectedShape(m)
  {
    var d0 := d.(temp := false);
    var acts := Plan(expected, d).value;
    assert Plan(expected, d0) == Plan(expected, d) && Recovered(expected, d0) == Recovered(expected, d);
    if m != d && m != d0 && acts != [] {
      if Midway(d0, acts[0], m) {
        MidwayCases(expected, d0, m);
      } else {
        AfterFirstAction(expected, d0, m);
      }
    }
  }

  // Any number of crashed recoveries in a row.
  predicate CrashedRecoveries(expected: Option<Sha>, ds: seq<Disk>)
    decreases |ds|
  {
    |ds| > 1 ==>
      && CrashState(expected, ds[0], ds[1])
      && !InRestoreWindow(ds[0], ds[1]) && !HalfRemovedBackup(ds[1])
      && CrashedRecoveries(expected, ds[1..])
  }

  lemma {:induction false} RepeatedCrashesAgree(expected: Option<Sha>, ds: seq<Disk>)
    requires |ds| > 0 && ExpectedShape(ds[0]) && Plan(expected, ds[0]).Ok?
    requires CrashedRecoveries(expected, ds)
    ensures Recovered(expected, ds[|ds| - 1]) == Recovered(expected, ds[0])
    decreases |ds|
  {
    if |ds| > 1 {
      RecoveryIsRepeatable(expected, ds[0], ds[1]);
      RepeatedCrashesAgree(expected, ds[1..]);
    }
  }

  // The crash points of a build from which a recovery can enter the window.
  ghost predicate RollsBackPrior(w: World) {
    && w.disk.journal.Some? && Late(w.disk.journal.value.phase)
    && w.disk.backup.Tree? && Safe(w.disk.backup.artifact)
    && !(PhaseIs(w.disk, COMMITTED) && w.candidate.Tree? && Recoverable(w.candidate.artifact, w.disk.journal.value))
    && !(PhaseIs(w.disk, COMMITTED) && Recoverable(w.disk.backup.artifact, w.disk.journal.value))
  }

  // The window is open exactly when a build crashed late with a prior artifact to bring
  // back; early phases, first promotions and verified commits are safe.
  lemma WindowExists(rq: Request, prior: Dir, temp: bool, acts: seq<Action>)
    requires Admissible(Fresh(rq, prior, temp), acts)
    ensures
      var w := Run(Fresh(rq, prior, temp), acts);
      && BuildInv(w) && ExpectedShape(w.disk)
      && (RollsBackPrior(w) <==> exists m :: CrashState(Some(rq.sha), w.disk, m) && InRestoreWindow(w.disk, m))
  {
    var w := Run(Fresh(rq, prior, temp), acts);
    var d := w.disk;
    RunKeepsInv(Fresh(rq, prior, temp), acts);
    if RollsBackPrior(w) {
      var m := d.(temp := false, stage := Absent, final := d.backup, backup := Absent);
      var d0 := d.(temp := false);
      var plan := Plan(Some(rq.sha), d).value;
      var d1 := Do(d0, plan[0]);
      assert plan[0] == Restore || plan[1..][0] == Restore;
      assert CrashDuring(d0, plan, m) by {
        if plan[0] != Restore {
          assert Do(d1, plan[1..][0]) == m;
          assert CrashDuring(m, plan[1..][1..], m);
          assert CrashDuring(d1, plan[1..], m);
        }
      }
      assert CrashState(Some(rq.sha), d, m) && InRestoreWindow(d, m);
    } else {
      forall m | CrashState(Some(rq.sha), d, m) ensures !InRestoreWindow(d, m) {
        if Plan(Some(rq.sha), d).Ok? {
          RecoveryIsRepeatable(Some(rq.sha), d, m);
        }
      }
    }
  }

  // A recovery can be stopped by a half-removed backup exactly when it is discarding the
  // backup of a verified commit; the published candidate is then already the right one.
  lemma HalfRemovalExists(rq: Request, prior: Dir, temp: bool, acts: seq<Action>)
    requires Admissible(Fresh(rq, prior, temp), acts)
    ensures
      var w := Run(Fresh(rq, prior, temp), acts);
      && BuildInv(w)
      && (PhaseIs(w.disk, COMMITTED) && w.disk.backup.Tree? && SafeDir(w.disk.backup)
          && Recoverable(w.candidate.artifact, w.disk.journal.value)
          <==> Recovered(None, w.disk).Ok? && exists m :: CrashState(None, w.disk, m) && HalfRemovedBackup(m))
  {
    var w := Run(Fresh(rq, prior, temp), acts);
    var d := w.disk;
    RunKeepsInv(Fresh(rq, prior, temp), acts);
    if Plan(None, d).Ok? {
      if Plan(None, d).value == [DropBackup, ClearJournal] {
        var m := d.(temp := false, backup := Tree(d.backup.artifact.(files := {})));
        EmptyIsUnsafe(m.backup.artifact);
        assert Midway(d.(temp := false), DropBackup, m);
        assert CrashState(None, d, m) && HalfRemovedBackup(m);
      } else {
        forall m | CrashState(None, d, m) ensures !HalfRemovedBackup(m) {
          if HalfRemovedBackup(m) {
            RecoveryIsRepeatable(None, d, m);
            OnlyDropBackupHalves(None, d, m);
          }
        }
      }
    }
  }

  lemma OnlyDropBackupHalves(expected: Option<Sha>, d: Disk, m: Disk)
    requires ExpectedShape(d) && Plan(expected, d).Ok? && CrashState(expected, d, m) && HalfRemovedBackup(m)
    ensures Plan(expected, d).value == [DropBackup, ClearJournal]
  {
    var d0 := d.(temp := false);
    var acts := Plan(expected, d).value;
    assert Plan(expected, d0) == Plan(expected, d);
    if acts != [] && m != d && m != d0 && !Midway(d0, acts[0], m) {
      AfterFirstAction(expected, d0, m);
    }
  }

  // ---------- What a disk inside the window can be ----------

  // The window after a rollback from PROMOTED, with `a` restored.
  function WindowDisk(rq: Request, a: Artifact): Disk {
    Disk(Tree(a), Absent, Absent, Some(Journal(rq.sha, rq.date, PROMOTED)), false)
  }

  lemma WindowIsReached(rq: Request, a: Artifact, c: Artifact)
    requires Safe(a) && BuiltFor(rq, Tree(c))
    ensures var over, m := PromotionOf(c, true), WindowDisk(rq, a);
            && Admissible(Fresh(rq, Tree(a), false), over)
            && var d := Run(Fresh(rq, Tree(a), false), over).disk;
               CrashState(None, d, m) && InRestoreWindow(d, m) && Recovered(None, d) == Ok(Settled(Tree(a)))
    ensures Recovered(None, WindowDisk(rq, a)) == Ok(Settled(Absent))
  {
    var m := WindowDisk(rq, a);
    PromotionRuns(rq, Tree(a), c);
    hide Run, Admissible, PromotionOf;
    var d := Run(Fresh(rq, Tree(a), false), PromotionOf(c, true)).disk;
    var d1 := Do(d, DropFinal);
    assert Do(d1, Restore) == m;
    assert CrashDuring(m, [ClearJournal], m);
    assert [Restore, ClearJournal][1..] == [ClearJournal];
    assert CrashDuring(d1, [Restore, ClearJournal], m);
    assert [DropFinal, Restore, ClearJournal][1..] == [Restore, ClearJournal];
  }

  // `m` is also the disk of a build that had nothing published before it.
  ghost predicate OfFirstPromotion(rq: Request, m: Disk) {
    exists temp, acts :: Admissible(Fresh(rq, Absent, temp), acts) && Run(Fresh(rq, Absent, temp), acts).disk == m
  }

  // The two builds are owed different results. They share the disk exactly when the restored
  // artifact could have been built for the request itself, its manifest naming the same
  // source SHA and market date; then no rule that looks only at the disk can serve both.
  lemma WindowIsAmbiguous(rq: Request, a: Artifact)
    ensures OfFirstPromotion(rq, WindowDisk(rq, a)) <==> BuiltFor(rq, Tree(a))
    ensures Exact(a) && a.scanClean ==>
      (OfFirstPromotion(rq, WindowDisk(rq, a)) <==> a.manifestSha == rq.sha && a.manifestDate == rq.date)
  {
    if BuiltFor(rq, Tree(a)) {
      PromotionRuns(rq, Absent, a);
      assert Admissible(Fresh(rq, Absent, false), PromotionOf(a, false));
    }
    forall temp, acts | Admissible(Fresh(rq, Absent, temp), acts) && Run(Fresh(rq, Absent, temp), acts).disk == WindowDisk(rq, a)
      ensures BuiltFor(rq, Tree(a))
    {
      RunKeepsInv(Fresh(rq, Absent, temp), acts);
    }
  }

  // A recovery that keeps a complete artifact whose manifest is not the journal's.
  predicate KeepsByLineage(expected: Option<Sha>, d: Disk) {
    && d.journal.Some? && (expected.Some? ==> d.journal.value.sha == expected.value)
    && Late(d.journal.value.phase) && d.stage.Absent? && d.backup.Absent?
    && d.final.Tree? && Safe(d.final.artifact) && !OfLineage(d.final.artifact, d.journal.value.sha, d.journal.value.date)
  }

  function RecoveredByLineage(expected: Option<Sha>, d: Disk): Result<Disk, RecoveryError> {
    if KeepsByLineage(expected, d) then Ok(Settled(d.final)) else Recovered(expected, d)
  }

  // Such a recovery does the same at every crash point of every build, and inside the window
  // it brings back what a completed recovery would have, exactly when the prior artifact is
  // of another SHA or date than the build.
  lemma LineageRuleRestores(rq: Request, prior: Dir, temp: bool, acts: seq<Action>, m: Disk)
    requires Admissible(Fresh(rq, prior, temp), acts)
    requires CrashState(Some(rq.sha), Run(Fresh(rq, prior, temp), acts).disk, m)
    requires InRestoreWindow(Run(Fresh(rq, prior, temp), acts).disk, m)
    ensures
      var d := Run(Fresh(rq, prior, temp), acts).disk;
      && RecoveredByLineage(Some(rq.sha), d) == Recovered(Some(rq.sha), d)
      && prior.Tree?
      && (RecoveredByLineage(Some(rq.sha), m) == Recovered(Some(rq.sha), d)
          <==> !OfLineage(prior.artifact, rq.sha, rq.date))
  {
    var w := Run(Fresh(rq, prior, temp), acts);
    RunKeepsInv(Fresh(rq, prior, temp), acts);
    LineageRuleIsQuiet(w, Some(rq.sha));
    WindowExists(rq, prior, temp, acts);
    OnlyWithAPlan(Some(rq.sha), w.disk, m);
    RecoveryIsRepeatable(Some(rq.sha), w.disk, m);
    KeptJournal(Some(rq.sha), w.disk, m);
  }

  // No crash point of a build makes the rule act.
  lemma LineageRuleIsQuiet(w: World, expected: Option<Sha>)
    requires BuildInv(w)
    ensures RecoveredByLineage(expected, w.disk) == Recovered(expected, w.disk)
  {
  }

  lemma OnlyWithAPlan(expected: Option<Sha>, d: Disk, m: Disk)
    requires CrashState(expected, d, m) && InRestoreWindow(d, m)
    ensures Plan(expected, d).Ok?
  {
  }

  // While the journal is there it is the one the recovery began with.
  lemma KeptJournal(expected: Option<Sha>, d: Disk, m: Disk)
    requires CrashState(expected, d, m) && m.journal.Some?
    ensures m.journal == d.journal
  {
    if Plan(expected, d).Ok? && CrashDuring(d.(temp := false), Plan(expected, d).value, m) {
      KeptDuring(d.(temp := false), Plan(expected, d).value, m);
    }
  }

  lemma {:induction false} KeptDuring(d: Disk, acts: seq<RecoveryAction>, m: Disk)
    requires CrashDuring(d, acts, m) && m.journal.Some?
    ensures m.journal == d.journal
    decreases |acts|
  {
    if m != d && !Midway(d, acts[0], m) { KeptDuring(Do(d, acts[0]), acts[1..], m); }
  }

  // ---------- A commit that nothing is left of ----------

  // With the backup already discarded, recovery has nothing to put in the place of a
  // committed candidate that the artifact verifier rejects. This is the only way in which a
  // build over a published artifact can end with nothing published.
  lemma NothingPublished(rq: Request, prior: Dir, temp: bool, acts: seq<Action>)
    requires Admissible(Fresh(rq, prior, temp), acts) && prior.Tree?
    ensures
      var w := Run(Fresh(rq, prior, temp), acts);
      Recovered(Some(rq.sha), w.disk) == Ok(Settled(Absent)) <==>
        && PhaseIs(w.disk, COMMITTED) && w.disk.backup.Absent?
        && w.candidate.Tree? && !Recoverable(w.candidate.artifact, w.disk.journal.value)
  {
    RunKeepsInv(Fresh(rq, prior, temp), acts);
  }

  lemma {:induction false} BackupRemovalRuns(w: World) returns (acts: seq<Action>)
    requires PhaseIs(w.disk, COMMITTED) && w.disk.backup.Tree?
    ensures Admissible(w, acts) && Run(w, acts) == w.(disk := w.disk.(backup := Absent))
    decreases w.disk.backup.artifact.files
  {
    var files := w.disk.backup.artifact.files;
    if files == {} {
      acts := [DropBackupDir];
      RunOne(w, DropBackupDir);
    } else {
      var f :| f in files;
      var rest := BackupRemovalRuns(Apply(w, DropBackupFile(f)));
      acts := [DropBackupFile(f)] + rest;
      assert acts[1..] == rest;
    }
  }

  // And a candidate can be committed without the verifier's consent.
  lemma UnverifiedCommitRuns(rq: Request, a: Artifact, c: Artifact) returns (acts: seq<Action>)
    requires Safe(a) && BuiltFor(rq, Tree(c)) && !c.verified
    ensures Admissible(Fresh(rq, Tree(a), false), acts)
    ensures var d := Run(Fresh(rq, Tree(a), false), acts).disk;
            d.final == Tree(c) && Recovered(Some(rq.sha), d) == Ok(Settled(Absent))
  {
    hide Run, Admissible, PromotionOf, Journaling;
    var w0 := Fresh(rq, Tree(a), false);
    var promotion := PromotionOf(c, true);
    PromotionRuns(rq, Tree(a), c);
    var w1 := Run(w0, promotion);
    RunKeepsInv(w0, promotion);
    JournalingRuns(w1, COMMITTED);
    RunConcat(w0, promotion, Journaling(COMMITTED));
    var w2 := Journaled(w1, COMMITTED);
    var removal := BackupRemovalRuns(w2);
    RunConcat(w0, promotion + Journaling(COMMITTED), removal);
    acts := promotion + Journaling(COMMITTED) + removal;
  }

  // Replacing the journal: write the temporary file, then rename it.
  function Journaling(p: Phase): seq<Action> {
    [SetTemp(true), Mark(p)]
  }

  // The actions of an undisturbed build of `c`, up to the STAGED journal ...
  function StagingOf(c: Artifact): seq<Action> {
    Journaling(INIT) + ([MakeStage] + (Journaling(BUILDING) + ([Work(Tree(c))] + Journaling(STAGED))))
  }

  // ... and from there to the PROMOTED one.
  function SwapOf(hasPrior: bool): seq<Action> {
    Journaling(PRE_SWAP) + ((if hasPrior then [MoveAside] else []) +
    (Journaling(PRIOR_MOVED) + ([Install] + Journaling(PROMOTED))))
  }

  function PromotionOf(c: Artifact, hasPrior: bool): seq<Action> {
    StagingOf(c) + SwapOf(hasPrior)
  }

  lemma {:induction false} RunConcat(w: World, a: seq<Action>, b: seq<Action>)
    requires Admissible(w, a) && Admissible(Run(w, a), b)
    ensures Admissible(w, a + b) && Run(w, a + b) == Run(Run(w, a), b)
    decreases |a|
  {
    if a == [] {
      assert a + b == b;
    } else {
      RunConcat(Apply(w, a[0]), a[1..], b);
      assert (a + b)[0] == a[0] && (a + b)[1..] == a[1..] + b;
    }
  }

  // Every prefix of a run is a run: the theorems above speak about each crash point of it.
  lemma {:induction false} PrefixAdmissible(w: World, acts: seq<Action>, k: nat)
    requires Admissible(w, acts) && k <= |acts|
    ensures Admissible(w, acts[..k])
    decreases |acts|
  {
    if k > 0 {
      PrefixAdmissible(Apply(w, acts[0]), acts[1..], k - 1);
      assert acts[..k][1..] == acts[1..][..k - 1];
    }
  }

  lemma RunOne(w: World, a: Action)
    requires Enabled(w, a)
    ensures Admissible(w, [a]) && Run(w, [a]) == Apply(w, a)
  {
    assert [a][1..] == [];
    assert Run(Apply(w, a), []) == Apply(w, a);
  }

  lemma JournalingRuns(w: World, p: Phase)
    requires MarkEnabled(w, p) && !w.status.Finished?
    ensures Admissible(w, Journaling(p))
    ensures Run(w, Journaling(p)) == Journaled(w, p)
  {
    var w1 := Apply(w, SetTemp(true));
    assert Journaling(p)[1..] == [Mark(p)] && MarkEnabled(w1, p);
    RunOne(w1, Mark(p));
  }

  function StagedWorld(rq: Request, prior: Dir, c: Artifact): World {
    World(rq, prior, Tree(c), Open, false,
          Disk(prior, Tree(c), Absent, Some(Journal(rq.sha, rq.date, STAGED)), false))
  }

  lemma StagingRuns(rq: Request, prior: Dir, c: Artifact)
    requires BuiltFor(rq, Tree(c))
    ensures Admissible(Fresh(rq, prior, false), StagingOf(c))
    ensures Run(Fresh(rq, prior, false), StagingOf(c)) == StagedWorld(rq, prior, c)
  {
    var w0 := Fresh(rq, prior, false);
    var w1 := Journaled(w0, INIT);
    var w2 := Apply(w1, MakeStage);
    var w3 := Journaled(w2, BUILDING);
    var w4 := Apply(w3, Work(Tree(c)));
    hide Run, Admissible;
    var t4 := Journaling(STAGED);
    JournalingRuns(w4, STAGED);
    var t3 := [Work(Tree(c))] + t4;
    RunOne(w3, Work(Tree(c)));
    RunConcat(w3, [Work(Tree(c))], t4);
    var t2 := Journaling(BUILDING) + t3;
    JournalingRuns(w2, BUILDING);
    RunConcat(w2, Journaling(BUILDING), t3);
    var t1 := [MakeStage] + t2;
    RunOne(w1, MakeStage);
    RunConcat(w1, [MakeStage], t2);
    JournalingRuns(w0, INIT);
    RunConcat(w0, Journaling(INIT), t1);
  }

  lemma SwapRuns(rq: Request, prior: Dir, c: Artifact)
    requires BuiltFor(rq, Tree(c)) && SafeDir(prior)
    ensures Admissible(StagedWorld(rq, prior, c), SwapOf(prior.Tree?))
    ensures Run(StagedWorld(rq, prior, c), SwapOf(prior.Tree?)).disk
            == Disk(Tree(c), Absent, prior, Some(Journal(rq.sha, rq.date, PROMOTED)), false)
  {
    var w5 := StagedWorld(rq, prior, c);
    var w6 := Journaled(w5, PRE_SWAP);
    var w7 := if prior.Tree? then Apply(w6, MoveAside) else w6;
    var w8 := Journaled(w7, PRIOR_MOVED);
    var w9 := Apply(w8, Install);
    var aside := if prior.Tree? then [MoveAside] else [];
    if prior.Tree? { RunOne(w6, MoveAside); }
    assert Admissible(w6, aside) && Run(w6, aside) == w7;
    hide Run, Admissible;
    var t9 := Journaling(PROMOTED);
    JournalingRuns(w9, PROMOTED);
    var t8 := [Install] + t9;
    RunOne(w8, Install);
    RunConcat(w8, [Install], t9);
    var t7 := Journaling(PRIOR_MOVED) + t8;
    JournalingRuns(w7, PRIOR_MOVED);
    RunConcat(w7, Journaling(PRIOR_MOVED), t8);
    RunConcat(w6, aside, t7);
    JournalingRuns(w5, PRE_SWAP);
    RunConcat(w5, Journaling(PRE_SWAP), aside + t7);
  }

  lemma PromotionRuns(rq: Request, prior: Dir, c: Artifact)
    requires BuiltFor(rq, Tree(c)) && SafeDir(prior)
    ensures Admissible(Fresh(rq, prior, false), PromotionOf(c, prior.Tree?))
    ensures Run(Fresh(rq, prior, false), PromotionOf(c, prior.Tree?)).disk
            == Disk(Tree(c), Absent, prior, Some(Journal(rq.sha, rq.date, PROMOTED)), false)
  {
    hide Run, Admissible, StagingOf, SwapOf;
    StagingRuns(rq, prior, c);
    SwapRuns(rq, prior, c);
    RunConcat(Fresh(rq, prior, false), StagingOf(c), SwapOf(prior.Tree?));
  }
}
