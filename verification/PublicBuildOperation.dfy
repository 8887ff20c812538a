/**
  The operation object: its methods change the directories and the journal one durable
  action at a time. `log` holds every state a crash could leave behind.
 */
module PublicBuildOperation {
  import opened Wrappers
  import opened PublicBuild
  import opened PublicBuildSafety

  class Operation {
    const expectedSha: Option<Sha>

    var final: Dir
    var stage: Dir
    var backup: Dir
    var journal: Option<Journal>
    var temp: bool
    // Whether the private receipt of this invocation says COMPLETE.
    var receipt: bool

    // The build in progress: where it began and the durable actions it has taken since.
    ghost var origin: World
    ghost var acts: seq<Action>
    // The durable states passed through, the present one included.
    ghost var log: seq<Disk>

    function DiskState(): Disk
      reads this
    {
      Disk(final, stage, backup, journal, temp)
    }

    // The disk is the one the recorded build has reached.
    ghost predicate Building()
      reads this
    {
      && origin == Fresh(origin.request, origin.prior, origin.disk.temp)
      && Admissible(origin, acts)
      && Run(origin, acts).disk == DiskState()
      && Run(origin, acts).receipt == receipt
    }

    ghost function Reached(): World
      requires Building()
      reads this
    {
      Run(origin, acts)
    }

    constructor (disk: Disk, expected: Option<Sha>)
      ensures DiskState() == disk && expectedSha == expected && log == [disk]
    {
      expectedSha := expected;
      final, stage, backup, journal, temp := disk.final, disk.stage, disk.backup, disk.journal, disk.temp;
      receipt := false;
      log := [disk];
    }

    // ---------- Building ----------

    // Note one durable action that has just been carried out.
    ghost method Record(a: Action, w: World)
      requires origin == Fresh(origin.request, origin.prior, origin.disk.temp)
      requires Admissible(origin, acts) && w == Run(origin, acts)
      requires Enabled(w, a) && Apply(w, a).disk == DiskState() && Apply(w, a).receipt == receipt
      modifies this`acts, this`log
      ensures Building() && Reached() == Apply(w, a)
      ensures acts == old(acts) + [a] && log == old(log) + [DiskState()]
    {
      RunOne(w, a);
      RunConcat(origin, acts, [a]);
      acts := acts + [a];
      log := log + [DiskState()];
    }

    // Replace the journal through its temporary file.
    method WriteJournal(entry: Journal)
      requires Building() && MarkEnabled(Reached(), entry.phase) && !Reached().status.Finished?
      requires Reached().request == Request(entry.sha, entry.date)
      modifies this`final, this`stage, this`backup, this`journal, this`temp, this`acts, this`log
      ensures Building() && origin == old(origin) && old(acts) <= acts
      ensures Reached() == Journaled(old(Reached()), entry.phase)
    {
      ghost var w := Reached();
      if temp {
        temp := false;
        Record(SetTemp(false), w);
      }
      ghost var w0 := Reached();
      temp := true;
      Record(SetTemp(true), w0);
      ghost var w1 := Reached();
      journal, temp := Some(entry), false;
      Record(Action.Mark(entry.phase), w1);
    }

    // The next phase of the operation the journal already describes.
    method Mark(phase: Phase)
      requires Building() && journal.Some? && MarkEnabled(Reached(), phase)
      modifies this`final, this`stage, this`backup, this`journal, this`temp, this`acts, this`log
      ensures Building() && origin == old(origin) && old(acts) <= acts
      ensures Reached() == Journaled(old(Reached()), phase)
    {
      RunKeepsInv(origin, acts);
      WriteJournal(Journal(journal.value.sha, journal.value.date, phase));
    }

    method Begin(rq: Request) returns (ok: bool)
      requires !receipt
      modifies this`final, this`stage, this`backup, this`journal, this`temp, this`origin, this`acts, this`log
      ensures ok <==> old(journal.None? && stage.Absent? && backup.Absent?)
      ensures !ok ==> DiskState() == old(DiskState()) && log == old(log)
      ensures ok ==>
                && Building() && Reached().prior == old(final) && origin == Fresh(rq, old(final), old(temp))
                && PhaseIs(DiskState(), BUILDING) && stage == Tree(EMPTY) && final == old(final) && backup.Absent?
    {
      if journal.Some? || stage.Tree? || backup.Tree? {
        return false;
      }
      origin, acts := Fresh(rq, final, temp), [];
      WriteJournal(Journal(rq.sha, rq.date, INIT));
      ghost var w := Reached();
      stage := Tree(EMPTY);
      Record(MakeStage, w);
      Mark(BUILDING);
      ok := true;
    }

    // Any one write into the staging directory.
    method Write(content: Dir)
      requires Building() && PhaseIs(DiskState(), BUILDING)
      modifies this`stage, this`acts, this`log
      ensures Building() && origin == old(origin) && old(acts) <= acts
      ensures DiskState() == old(DiskState()).(stage := content)
    {
      ghost var w := Reached();
      stage := content;
      Record(Work(content), w);
    }

    // Move the prior artifact aside and install the staged one. It refuses an inexact
    // candidate, and a prior artifact that is not safe.
    method Promote() returns (ok: bool)
      requires Building() && PhaseIs(DiskState(), STAGED)
      modifies this`final, this`stage, this`backup, this`journal, this`temp, this`acts, this`log
      ensures Building() && origin == old(origin) && old(acts) <= acts
      ensures ok <==> old(&& stage.Tree? && stage.artifact.files == PUBLIC_FILES
                          && (final.Tree? ==> PUBLIC_FILES <= final.artifact.files <= PUBLIC_FILES + PRIVATE_FILES))
      ensures ok ==> DiskState() == Disk(old(stage), Absent, old(final),
                                         Some(old(journal.value).(phase := PROMOTED)), false)
      ensures !ok ==> final == old(final) && stage == old(stage) && backup == old(backup)
      ensures !ok ==> journal.Some? && !PhaseIs(DiskState(), COMMITTED)
    {
      RunKeepsInv(origin, acts);
      if final.Tree? { SafeIff(final.artifact); }
      if stage.Absent? || !Exact(stage.artifact) {
        return false;
      }
      Mark(PRE_SWAP);
      ok := SetAside();
      if ok {
        Mark(PRIOR_MOVED);
        InstallStage();
        Mark(PROMOTED);
      }
    }

    // Move the prior artifact out of the way, if there is one and it is safe.
    method SetAside() returns (ok: bool)
      requires Building() && PhaseIs(DiskState(), PRE_SWAP) && backup.Absent?
      modifies this`final, this`backup, this`acts, this`log
      ensures Building() && origin == old(origin) && old(acts) <= acts && ok == old(SafeDir(final))
      ensures DiskState() == if ok then old(DiskState()).(final := Absent, backup := old(final)) else old(DiskState())
      ensures Reached() == old(Reached()).(disk := DiskState())
    {
      if final.Tree? {
        if !Safe(final.artifact) {
          return false;
        }
        ghost var w := Reached();
        backup, final := final, Absent;
        Record(MoveAside, w);
      }
      ok := true;
    }

    // Put the staged artifact in its place.
    method InstallStage()
      requires Building() && PhaseIs(DiskState(), PRIOR_MOVED) && stage.Tree? && final.Absent?
      modifies this`final, this`stage, this`acts, this`log
      ensures Building() && origin == old(origin) && old(acts) <= acts
      ensures DiskState() == old(DiskState()).(final := old(stage), stage := Absent)
      ensures Reached() == old(Reached()).(disk := DiskState())
    {
      ghost var w := Reached();
      final, stage := stage, Absent;
      Record(Install, w);
    }

    // Make the promotion irreversible: COMMITTED first, then the backup, then the journal.
    method Commit() returns (ok: bool)
      requires Building()
      modifies this`final, this`stage, this`backup, this`journal, this`temp, this`acts, this`log
      ensures Building() && origin == old(origin) && old(acts) <= acts
      ensures ok <==> old(PhaseIs(DiskState(), PROMOTED))
      ensures ok ==> DiskState() == Settled(old(final)) && Reached().status.Finished?
      ensures !ok ==> DiskState() == old(DiskState())
    {
      RunKeepsInv(origin, acts);
      if journal.None? || !journal.value.phase.PROMOTED? {
        return false;
      }
      assert Reached().disk == DiskState();
      Mark(COMMITTED);
      if backup.Tree? {
        RemoveBackup();
      }
      RunKeepsInv(origin, acts);
      ghost var w := Reached();
      journal := None;
      Record(UnlinkJournal, w);
      ok := true;
    }

    // The manifest of the build, of its own source SHA and market date.
    method WriteManifest(rq: Request)
      requires Building() && PhaseIs(DiskState(), BUILDING) && stage.Tree?
      modifies this`stage, this`acts, this`log
      ensures Building() && origin == old(origin) && old(acts) <= acts
      ensures DiskState() == old(DiskState()).(stage := Manifested(rq, old(stage)))
    {
      Write(Manifested(rq, stage));
    }

    // Build the staging directory and check it. The manifest is the last file written; a
    // directory the scan objects to is removed.
    method Build(rq: Request, writes: seq<Dir>, sourceKept: bool, publishable: bool) returns (staged: bool)
      requires Building() && PhaseIs(DiskState(), BUILDING) && !receipt && Reached().request == rq
      modifies this`final, this`stage, this`backup, this`journal, this`temp, this`acts, this`log
      ensures Building() && origin == old(origin) && old(acts) <= acts
      ensures staged <==> Stageable(writes, sourceKept, publishable)
      ensures staged ==>
                && PhaseIs(DiskState(), STAGED) && final == old(final) && backup == old(backup)
                && stage == Manifested(rq, writes[|writes| - 1]) && BuiltFor(rq, stage) && Reached().request == rq
                && stage.artifact.manifestSha == rq.sha && stage.artifact.manifestDate == rq.date
      ensures !staged ==> PhaseIs(DiskState(), BUILDING)
    {
      hide Admissible, Run, Enabled, Apply;
      RequestStays(origin, acts);
      var i := 0;
      while i < |writes|
        invariant 0 <= i <= |writes| && Building() && origin == old(origin) && old(acts) <= acts
        invariant DiskState() == old(DiskState()).(stage := if i > 0 then writes[i - 1] else old(stage))
      {
        Write(writes[i]);
        i := i + 1;
      }
      if |writes| == 0 || stage.Absent? {
        return false;
      }
      WriteManifest(rq);
      if !Exact(stage.artifact) {
        return false;
      }
      if !stage.artifact.scanClean || !sourceKept {
        Write(Absent);
        return false;
      }
      if !publishable {
        return false;
      }
      RequestStays(origin, acts);
      Mark(STAGED);
      RequestStays(origin, acts);
      staged := true;
    }

    // One build after the directories have been recovered: the receipt says COMPLETE only once
    // the commit can no longer be undone.
    method Publish(rq: Request, writes: seq<Dir>, sourceKept: bool, publishable: bool) returns (complete: bool)
      modifies this
      ensures receipt == complete
      ensures complete <==>
                && old(&& Idle(DiskState())
                       && (final.Tree? ==> PUBLIC_FILES <= final.artifact.files <= PUBLIC_FILES + PRIVATE_FILES))
                && Stageable(writes, sourceKept, publishable)
      ensures !old(Idle(DiskState())) ==> DiskState() == old(DiskState())
      ensures old(Idle(DiskState())) ==> Building() && origin == Fresh(rq, old(final), old(temp))
      ensures complete ==> sourceKept && publishable && final.Tree? && final.artifact.files == PUBLIC_FILES && final.artifact.scanClean
      ensures complete ==> Reached().status.Finished? && BuiltFor(rq, final)
                           && DiskState() == Settled(Manifested(rq, writes[|writes| - 1]))
      ensures old(Idle(DiskState())) && !complete ==> journal.Some? && !PhaseIs(DiskState(), COMMITTED)
    {
      hide Admissible, Run, Enabled, Apply, MarkEnabled, Journaled, Stageable;
      receipt := false;
      complete := Begin(rq);
      if !complete {
        return;
      }
      RequestStays(origin, acts);
      var staged := Build(rq, writes, sourceKept, publishable);
      if !staged {
        return false;
      }
      var promoted := Promote();
      if !promoted {
        return false;
      }
      var committed := Commit();
      WriteReceiptNow();
      StageableIsChecked(writes, sourceKept, publishable);
      complete := true;
    }

    // A whole invocation: recover what an earlier one left, build, and recover again on the way
    // out. It ends with the new artifact and a receipt, or with the recovered prior artifact
    // and no receipt, or it is refused with the published directory as it was.
    method Invoke(rq: Request, writes: seq<Dir>, sourceKept: bool, publishable: bool)
        returns (complete: bool, refused: Option<RecoveryError>)
      requires expectedSha == Some(rq.sha)
      modifies this
      ensures receipt == complete
      ensures match Recovered(expectedSha, old(DiskState()))
              case Err(e) => !complete && refused == Some(e) && DiskState() == old(DiskState()).(temp := false)
              case Ok(d) =>
                && (complete <==> SafeDir(d.final) && Stageable(writes, sourceKept, publishable))
                && (refused.Some? <==> !SafeDir(d.final))
                && (if complete then DiskState() == Settled(Manifested(rq, writes[|writes| - 1]))
                    else if SafeDir(d.final) then DiskState() == Settled(d.final)
                    else final == d.final)
    {
      hide Plan, Stageable, Admissible, Run, Enabled, Apply;
      receipt := false;
      RecoveredIsIdle(expectedSha, DiskState());
      ghost var d := Recovered(expectedSha, DiskState());
      var before := Recover();
      if before.Err? {
        return false, Some(before.error);
      }
      complete := Publish(rq, writes, sourceKept, publishable);
      ghost var w := DiskState();
      if complete { SettledStays(expectedSha, w.final); } else { UncommittedIsOwed(origin, acts); }
      var after := Recover();
      refused := if after.Err? then Some(after.error) else None;
    }

    method WriteReceiptNow()
      requires Building() && Reached().status.Finished?
      modifies this`receipt, this`acts, this`log
      ensures Building() && receipt && origin == old(origin) && Reached().status.Finished?
      ensures DiskState() == old(DiskState())
    {
      ghost var w := Reached();
      receipt := true;
      Record(WriteReceipt, w);
    }

    // Entries are removed in whatever order the directory lists them.
    method RemoveBackup()
      requires Building() && PhaseIs(DiskState(), COMMITTED) && backup.Tree?
      modifies this`backup, this`acts, this`log
      ensures Building() && origin == old(origin) && old(acts) <= acts
      ensures DiskState() == old(DiskState()).(backup := Absent)
      ensures Reached() == old(Reached()).(disk := DiskState())
    {
      while backup.artifact.files != {}
        invariant Building() && origin == old(origin) && old(acts) <= acts
        invariant backup.Tree? && DiskState() == old(DiskState()).(backup := backup)
        invariant Reached() == old(Reached()).(disk := DiskState())
        decreases if backup.Tree? then backup.artifact.files else {}
      {
        ghost var w := Reached();
        var f :| f in backup.artifact.files;
        backup := Tree(WithoutFile(backup.artifact, f));
        Record(DropBackupFile(f), w);
      }
      ghost var w := Reached();
      backup := Absent;
      Record(DropBackupDir, w);
    }

    // ---------- Recovery ----------

    // Remove one of the three directories, an entry at a time.
    method RemoveTree(a: RecoveryAction)
      requires a in {DropStage, DropFinal, DropBackup} && Target(a).Tree?
      modifies this`stage, this`final, this`backup, this`log
      ensures DiskState() == Do(old(DiskState()), a) && old(log) <= log
      ensures forall k :: |old(log)| <= k < |log| ==>
                            Midway(old(DiskState()), a, log[k]) || log[k] == Do(old(DiskState()), a)
    {
      var left := Target(a).artifact;
      while left.files != {}
        invariant PartOf(left, old(Target(a)).artifact) && old(log) <= log
        invariant Target(a) == Tree(left) && Midway(old(DiskState()), a, DiskState())
        invariant forall k :: |old(log)| <= k < |log| ==> Midway(old(DiskState()), a, log[k])
        decreases left.files
      {
        var f :| f in left.files;
        left := WithoutFile(left, f);
        SetTarget(a, Tree(left));
        log := log + [DiskState()];
      }
      SetTarget(a, Absent);
      log := log + [DiskState()];
    }

    function Target(a: RecoveryAction): Dir
      requires a in {DropStage, DropFinal, DropBackup}
      reads this
    {
      match a
      case DropStage => stage
      case DropFinal => final
      case DropBackup => backup
    }

    method SetTarget(a: RecoveryAction, d: Dir)
      requires a in {DropStage, DropFinal, DropBackup}
      modifies this`stage, this`final, this`backup
      ensures DiskState() == if a.DropStage? then old(DiskState()).(stage := d)
                             else if a.DropFinal? then old(DiskState()).(final := d)
                             else old(DiskState()).(backup := d)
    {
      match a
      case DropStage => stage := d;
      case DropFinal => final := d;
      case DropBackup => backup := d;
    }

    // Carry out the next action of a recovery that began with disk `d0`.
    method Carry(a: RecoveryAction, ghost d0: Disk, ghost plan: seq<RecoveryAction>, ghost k: nat)
      requires k < |plan| && plan[k] == a && DiskState() == DoAll(d0, plan[..k])
      requires a in {DropStage, DropFinal, DropBackup} ==> Target(a).Tree?
      modifies this`stage, this`final, this`backup, this`journal, this`log
      ensures DiskState() == Do(old(DiskState()), a) == DoAll(d0, plan[..k + 1]) && old(log) <= log
      ensures forall i :: |old(log)| <= i < |log| ==> CrashDuring(d0, plan, log[i])
    {
      if a.Restore? {
        final, backup := backup, Absent;
        log := log + [DiskState()];
      } else if a.ClearJournal? {
        journal := None;
        log := log + [DiskState()];
      } else {
        RemoveTree(a);
      }
      DoAllSnoc(d0, plan, k);
      forall i | |old(log)| <= i < |log| ensures CrashDuring(d0, plan, log[i]) {
        CrashPoint(d0, plan, k, log[i]);
      }
    }

    // Bring the directories to one published tree, or refuse without touching them.
    method Converge() returns (refused: Option<RecoveryError>)
      requires journal.Some? && (expectedSha.Some? ==> journal.value.sha == expectedSha.value)
      modifies this`stage, this`final, this`backup, this`journal, this`log
      ensures old(log) <= log
      ensures match Plan(expectedSha, old(DiskState()))
              case Err(e) =>
                && DiskState() == old(DiskState()) && log == old(log)
                && (if e.UnsafeRecovered? then refused.None? && !SafeDir(final) else refused == Some(e))
              case Ok(plan) =>
                && refused.None? && SafeDir(final) && EndsIn(plan, ClearJournal)
                && DiskState() == DoAll(old(DiskState()), plan[..|plan| - 1])
                && forall i :: |old(log)| <= i < |log| ==> CrashDuring(old(DiskState()), plan, log[i])
    {
      ghost var d0 := DiskState();
      ghost var plan := if Plan(expectedSha, d0).Ok? then Plan(expectedSha, d0).value else [];
      assert plan[..0] == [];
      var phase := journal.value.phase;
      if backup.Tree? && final.Absent? {
        if !Safe(backup.artifact) {
          return Some(UnsafePrevious);
        }
        ghost var k := 0;
        if stage.Tree? {
          Carry(DropStage, d0, plan, 0);
          k := 1;
        }
        Carry(Restore, d0, plan, k);
      } else if backup.Tree? && final.Tree? {
        if stage.Tree? {
          return Some(ThreeDirectories);
        }
        if !Safe(backup.artifact) {
          return Some(UnsafePrevious);
        }
        if phase.COMMITTED? && Recoverable(final.artifact, journal.value) {
          ExactIsSafe(final.artifact);
          Carry(DropBackup, d0, plan, 0);
        } else {
          Carry(DropFinal, d0, plan, 0);
          Carry(Restore, d0, plan, 1);
        }
      } else if stage.Tree? {
        if final.Tree? && !Safe(final.artifact) {
          return Some(UnsafePrevious);
        }
        Carry(DropStage, d0, plan, 0);
      } else if final.Tree? && Late(phase) {
        if !phase.COMMITTED? || !Recoverable(final.artifact, journal.value) {
          Carry(DropFinal, d0, plan, 0);
        }
      }
      refused := None;
    }

    // The recovery, in the order of the program: the temporary journal first, then every
    // check, then the directories, and the journal last.
    method Recover() returns (r: Result<(), RecoveryError>)
      modifies this`stage, this`final, this`backup, this`journal, this`temp, this`log
      ensures match Recovered(expectedSha, old(DiskState()))
              case Ok(d) => r == Ok(()) && DiskState() == d
              case Err(e) => r == Err(e) && DiskState() == old(DiskState()).(temp := false)
      ensures old(log) <= log
      ensures forall i :: |old(log)| <= i < |log| ==> CrashState(expectedSha, old(DiskState()), log[i])
    {
      if temp {
        temp := false;
        log := log + [DiskState()];
      }
      if journal.None? {
        return if stage.Tree? || backup.Tree? then Err(PathsWithoutJournal) else Ok(());
      }
      if expectedSha.Some? && journal.value.sha != expectedSha.value {
        return Err(WrongSourceSha);
      }
      ghost var d0 := DiskState();
      assert Plan(expectedSha, d0) == Plan(expectedSha, old(DiskState()));
      var refused := Converge();
      if refused.Some? {
        return Err(refused.value);
      }
      if final.Tree? && !Safe(final.artifact) {
        return Err(UnsafeRecovered);
      }
      ghost var plan := Plan(expectedSha, d0).value;
      Carry(ClearJournal, d0, plan, |plan| - 1);
      assert plan[..|plan| - 1 + 1] == plan;
      return Ok(());
    }
  }

  const EMPTY: Artifact := Artifact({}, "", "", false, false)

  // The directory with the manifest of this build in it.
  function Manifested(rq: Request, d: Dir): Dir {
    if d.Absent? then Absent
    else Tree(d.artifact.(manifestSha := rq.sha, manifestDate := rq.date))
  }

  // No operation is open.
  predicate Idle(d: Disk) {
    d.journal.None? && d.stage.Absent? && d.backup.Absent?
  }

  // The last write and the checks after it let the directory be staged.
  predicate Stageable(writes: seq<Dir>, sourceKept: bool, publishable: bool) {
    && |writes| > 0 && sourceKept && publishable
    && var last := writes[|writes| - 1]; last.Tree? && last.artifact.files == PUBLIC_FILES && last.artifact.scanClean
  }

  lemma StageableIsChecked(writes: seq<Dir>, sourceKept: bool, publishable: bool)
    ensures Stageable(writes, sourceKept, publishable) ==> sourceKept && publishable
  {
  }

  lemma RecoveredIsIdle(expected: Option<Sha>, d: Disk)
    ensures Recovered(expected, d).Ok? ==> Idle(Recovered(expected, d).value) && !Recovered(expected, d).value.temp
  {
    match Plan(expected, d)
    case Err(_) =>
    case Ok(acts) =>
      var d0 := d.(temp := false);
      if |acts| == 1 {
        assert acts == [acts[0]] && DoAll(d0, acts) == Do(d0, acts[0]);
      } else if |acts| == 2 {
        assert acts[1..][1..] == [] && DoAll(d0, acts) == Do(Do(d0, acts[0]), acts[1]);
      } else if |acts| == 3 {
        assert acts[1..][1..][1..] == [] && DoAll(d0, acts) == Do(Do(Do(d0, acts[0]), acts[1]), acts[2]);
      }
  }

  lemma SettledStays(expected: Option<Sha>, final: Dir)
    ensures Recovered(expected, Settled(final)) == Ok(Settled(final))
  {
  }

  // What a recovery owes to a build that did not commit.
  lemma UncommittedIsOwed(origin: World, acts: seq<Action>)
    requires origin == Fresh(origin.request, origin.prior, origin.disk.temp) && Admissible(origin, acts)
    requires var d := Run(origin, acts).disk; d.journal.Some? && !PhaseIs(d, COMMITTED)
    ensures var r := Recovered(Some(origin.request.sha), Run(origin, acts).disk);
            && (SafeDir(origin.prior) ==> r == Ok(Settled(origin.prior)))
            && (!SafeDir(origin.prior) ==> r.Err? && Run(origin, acts).disk.final == origin.prior)
  {
    CrashAtomicity(origin.request, origin.prior, origin.disk.temp, acts);
    RunKeepsInv(origin, acts);
  }

  lemma RequestStays(origin: World, acts: seq<Action>)
    requires BuildInv(origin) && Admissible(origin, acts)
    ensures Run(origin, acts).request == origin.request && Run(origin, acts).prior == origin.prior
  {
    RunKeepsInv(origin, acts);
  }

  predicate EndsIn(plan: seq<RecoveryAction>, last: RecoveryAction) {
    |plan| > 0 && plan[|plan| - 1] == last
  }

  lemma {:induction false} DoAllSnoc(d: Disk, acts: seq<RecoveryAction>, k: nat)
    requires k < |acts|
    ensures DoAll(d, acts[..k + 1]) == Do(DoAll(d, acts[..k]), acts[k])
    decreases k
  {
    assert acts[..k + 1][0] == acts[0];
    if k == 0 {
      assert acts[..1][1..] == [];
    } else {
      DoAllSnoc(Do(d, acts[0]), acts[1..], k - 1);
      assert acts[..k + 1][1..] == acts[1..][..k] && acts[..k][1..] == acts[1..][..k - 1];
    }
  }

  // A state within or just after the k-th action is a crash point of the whole plan.
  lemma {:induction false} CrashPoint(d: Disk, acts: seq<RecoveryAction>, k: nat, m: Disk)
    requires k < |acts|
    requires var before := DoAll(d, acts[..k]); Midway(before, acts[k], m) || m == Do(before, acts[k])
    ensures CrashDuring(d, acts, m)
    decreases k
  {
    if k > 0 {
      assert acts[..k][1..] == acts[1..][..k - 1];
      CrashPoint(Do(d, acts[0]), acts[1..], k - 1, m);
    } else {
      assert acts[..0] == [];
    }
  }
}
