/**
  The journaled two-rename promotion of the public artifact: the durable state it
  leaves on disk, the steps of a build, and the plan a recovery carries out.

  A directory tree is removed one entry at a time, so a crash can leave any part of
  it behind; a rename and the replacement of the journal are single steps.
 */
module PublicBuild {
  import opened Wrappers

  type Sha = string
  type MarketDate = string

  // ---------- Artifacts ----------

  datatype FileName = PublicFile(index: nat) | PrivateFile(index: nat) | ForeignFile(index: nat)

  const PUBLIC_FILES: set<FileName> := set i: nat | i < 18 :: PublicFile(i)
  const PRIVATE_FILES: set<FileName> := set i: nat | i < 2 :: PrivateFile(i)

  // What the checks can observe of a directory: its inventory, the lineage its build
  // manifest declares, and the verdicts of the artifact verifier and the security scan.
  datatype Artifact = Artifact(
    files: set<FileName>, manifestSha: Sha, manifestDate: MarketDate, verified: bool, scanClean: bool)

  predicate Exact(a: Artifact) {
    a.files == PUBLIC_FILES
  }

  predicate Safe(a: Artifact) {
    a.files - PRIVATE_FILES == PUBLIC_FILES
  }

  // The manifest declares the source SHA and market date that the journal names.
  predicate OfLineage(a: Artifact, sha: Sha, date: MarketDate) {
    a.manifestSha == sha && a.manifestDate == date
  }

  predicate Recoverable(a: Artifact, j: Journal) {
    && Exact(a)
    && OfLineage(a, j.sha, j.date)
    && a.verified
    && a.scanClean
  }

  // `part` is what an interrupted removal of `whole` can leave.
  predicate PartOf(part: Artifact, whole: Artifact) {
    part.files <= whole.files && part == whole.(files := part.files)
  }

  lemma ExactIsSafe(a: Artifact)
    requires Exact(a)
    ensures Safe(a)
  {
    assert a.files !! PRIVATE_FILES;
  }

  lemma ProperPartIsNotExact(part: Artifact, whole: Artifact)
    requires PartOf(part, whole) && whole.files <= PUBLIC_FILES && Exact(part)
    ensures part == whole
  {
  }

  lemma EmptyIsUnsafe(a: Artifact)
    requires a.files == {}
    ensures !Safe(a)
  {
    assert PublicFile(0) in PUBLIC_FILES;
  }

  // ---------- The durable state ----------

  datatype Dir = Absent | Tree(artifact: Artifact)

  datatype Phase = INIT | BUILDING | STAGED | PRE_SWAP | PRIOR_MOVED | PROMOTED | COMMITTED

  datatype Journal = Journal(sha: Sha, date: MarketDate, phase: Phase)

  datatype Disk = Disk(final: Dir, stage: Dir, backup: Dir, journal: Option<Journal>, temp: bool)

  predicate Late(p: Phase) {
    p in {PRIOR_MOVED, PROMOTED, COMMITTED}
  }

  predicate SafeDir(d: Dir) {
    d.Tree? ==> Safe(d.artifact)
  }

  predicate PartDir(part: Dir, whole: Dir) {
    part.Tree? && whole.Tree? && PartOf(part.artifact, whole.artifact)
  }

  // No operation in progress, `final` published.
  function Settled(final: Dir): Disk {
    Disk(final, Absent, Absent, None, false)
  }

  // ---------- A build ----------

  datatype Request = Request(sha: Sha, date: MarketDate)

  // What the build has made sure of before it declares its directory staged: it wrote the
  // manifest itself, and the inventory check and the security scan have passed. The artifact
  // verifier is not among the checks.
  predicate BuiltFor(rq: Request, d: Dir) {
    d.Tree? && Exact(d.artifact) && OfLineage(d.artifact, rq.sha, rq.date) && d.artifact.scanClean
  }

  datatype Status = NotBegun | Open | Finished

  // A build in progress: its request, what was published when it began, the directory it
  // declared staged, whether a COMPLETE receipt was written, and the disk.
  datatype World = World(
    request: Request, prior: Dir, candidate: Dir, status: Status, receipt: bool, disk: Disk)

  // One durable action of a build.
  datatype Action =
    | SetTemp(on: bool)        // create or remove the temporary journal
    | Mark(phase: Phase)       // replace the journal by the temporary one
    | MakeStage                // mkdir of the staging directory
    | Work(stage: Dir)         // any change of the staging directory while building
    | MoveAside                // rename final -> backup
    | Install                  // rename stage -> final
    | DropBackupFile(file: FileName)
    | DropBackupDir
    | UnlinkJournal
    | WriteReceipt

  predicate PhaseIs(d: Disk, p: Phase) {
    d.journal.Some? && d.journal.value.phase == p
  }

  predicate MarkEnabled(w: World, p: Phase) {
    var d := w.disk;
    match p
    case INIT => w.status.NotBegun? && d.journal.None? && d.stage.Absent? && d.backup.Absent?
    case BUILDING => PhaseIs(d, INIT) && d.stage.Tree?
    case STAGED => PhaseIs(d, BUILDING) && BuiltFor(w.request, d.stage)
    case PRE_SWAP => PhaseIs(d, STAGED) && d.stage.Tree? && Exact(d.stage.artifact)
    case PRIOR_MOVED => PhaseIs(d, PRE_SWAP) && d.final.Absent?
    case PROMOTED => PhaseIs(d, PRIOR_MOVED) && d.stage.Absent?
    case COMMITTED => PhaseIs(d, PROMOTED) && d.final.Tree? && Exact(d.final.artifact)
  }

  predicate Enabled(w: World, a: Action) {
    var d := w.disk;
    match a
    case SetTemp(_) => !w.status.Finished?
    case Mark(p) => d.temp && MarkEnabled(w, p)
    case MakeStage => PhaseIs(d, INIT) && d.stage.Absent?
    case Work(_) => PhaseIs(d, BUILDING)
    case MoveAside => PhaseIs(d, PRE_SWAP) && d.final.Tree? && Safe(d.final.artifact) && d.backup.Absent?
    case Install => PhaseIs(d, PRIOR_MOVED) && d.stage.Tree? && d.final.Absent?
    case DropBackupFile(f) => PhaseIs(d, COMMITTED) && d.backup.Tree? && f in d.backup.artifact.files
    case DropBackupDir => PhaseIs(d, COMMITTED) && d.backup.Tree? && d.backup.artifact.files == {}
    case UnlinkJournal =>
      && PhaseIs(d, COMMITTED) && d.stage.Absent? && d.backup.Absent? && !d.temp
      && d.final.Tree? && Exact(d.final.artifact)
    case WriteReceipt => w.status.Finished?
  }

  function Apply(w: World, a: Action): World
    requires Enabled(w, a)
  {
    var d := w.disk;
    match a
    case SetTemp(on) => w.(disk := d.(temp := on))
    case Mark(p) => Journaled(w, p)
    case MakeStage => w.(disk := d.(stage := Tree(Artifact({}, "", "", false, false))))
    case Work(stage) => w.(disk := d.(stage := stage))
    case MoveAside => w.(disk := d.(final := Absent, backup := d.final))
    case Install => w.(disk := d.(final := d.stage, stage := Absent))
    case DropBackupFile(f) => w.(disk := d.(backup := Tree(WithoutFile(d.backup.artifact, f))))
    case DropBackupDir => w.(disk := d.(backup := Absent))
    case UnlinkJournal => w.(disk := d.(journal := None), status := Finished)
    case WriteReceipt => w.(receipt := true)
  }

  // The build once its journal names phase `p`; the directory then staged is the candidate.
  function Journaled(w: World, p: Phase): World {
    w.(disk := w.disk.(journal := Some(Journal(w.request.sha, w.request.date, p)), temp := false),
       status := Open, candidate := if p.STAGED? then w.disk.stage else w.candidate)
  }

  function WithoutFile(a: Artifact, f: FileName): Artifact {
    a.(files := a.files - {f})
  }

  function Fresh(rq: Request, prior: Dir, temp: bool): World {
    World(rq, prior, Absent, NotBegun, false, Settled(prior).(temp := temp))
  }

  predicate Admissible(w: World, acts: seq<Action>)
    decreases |acts|
  {
    acts == [] || (Enabled(w, acts[0]) && Admissible(Apply(w, acts[0]), acts[1..]))
  }

  function Run(w: World, acts: seq<Action>): World
    requires Admissible(w, acts)
    decreases |acts|
  {
    if acts == [] then w else Run(Apply(w, acts[0]), acts[1..])
  }

  // ---------- Recovery ----------

  datatype RecoveryAction = DropStage | DropFinal | DropBackup | Restore | ClearJournal

  datatype RecoveryError =
    | PathsWithoutJournal | WrongSourceSha | UnsafePrevious | ThreeDirectories | UnsafeRecovered

  // The actions a recovery takes after it has removed the temporary journal, or the error
  // it raises. Every check is made before the first of the actions.
  function Plan(expected: Option<Sha>, d: Disk): Result<seq<RecoveryAction>, RecoveryError> {
    if d.journal.None? then
      if d.stage.Tree? || d.backup.Tree? then Err(PathsWithoutJournal) else Ok([])
    else if expected.Some? && d.journal.value.sha != expected.value then
      Err(WrongSourceSha)
    else if d.backup.Tree? && d.final.Absent? then
      if !Safe(d.backup.artifact) then Err(UnsafePrevious)
      else if d.stage.Tree? then Ok([DropStage, Restore, ClearJournal])
      else Ok([Restore, ClearJournal])
    else if d.backup.Tree? then
      if d.stage.Tree? then Err(ThreeDirectories)
      else if !Safe(d.backup.artifact) then Err(UnsafePrevious)
      else if d.journal.value.phase.COMMITTED? && Recoverable(d.final.artifact, d.journal.value) then
        Ok([DropBackup, ClearJournal])
      else Ok([DropFinal, Restore, ClearJournal])
    else if d.stage.Tree? then
      if !SafeDir(d.final) then Err(UnsafePrevious) else Ok([DropStage, ClearJournal])
    else if d.final.Tree? && Late(d.journal.value.phase)
            && !(d.journal.value.phase.COMMITTED? && Recoverable(d.final.artifact, d.journal.value)) then
      Ok([DropFinal, ClearJournal])
    else if !SafeDir(d.final) then Err(UnsafeRecovered)
    else Ok([ClearJournal])
  }

  function Do(d: Disk, a: RecoveryAction): Disk {
    match a
    case DropStage => d.(stage := Absent)
    case DropFinal => d.(final := Absent)
    case DropBackup => d.(backup := Absent)
    case Restore => d.(final := d.backup, backup := Absent)
    case ClearJournal => d.(journal := None)
  }

  function DoAll(d: Disk, acts: seq<RecoveryAction>): Disk
    decreases |acts|
  {
    if acts == [] then d else DoAll(Do(d, acts[0]), acts[1..])
  }

  // What a completed recovery leaves, or the error it raises.
  function Recovered(expected: Option<Sha>, d: Disk): Result<Disk, RecoveryError> {
    match Plan(expected, d)
    case Ok(acts) => Ok(DoAll(d.(temp := false), acts))
    case Err(e) => Err(e)
  }

  // A tree removal in progress.
  predicate Midway(d: Disk, a: RecoveryAction, m: Disk) {
    match a
    case DropStage => PartDir(m.stage, d.stage) && m == d.(stage := m.stage)
    case DropFinal => PartDir(m.final, d.final) && m == d.(final := m.final)
    case DropBackup => PartDir(m.backup, d.backup) && m == d.(backup := m.backup)
    case Restore => false
    case ClearJournal => false
  }

  // `m` can be found on disk after a crash while `acts` were being carried out from `d`.
  predicate CrashDuring(d: Disk, acts: seq<RecoveryAction>, m: Disk)
    decreases |acts|
  {
    || m == d
    || (acts != [] && (Midway(d, acts[0], m) || CrashDuring(Do(d, acts[0]), acts[1..], m)))
  }

  // `m` can be found on disk after a recovery that started from `d` crashed or ended.
  predicate CrashState(expected: Option<Sha>, d: Disk, m: Disk) {
    || m == d
    || m == d.(temp := false)
    || (Plan(expected, d).Ok? && CrashDuring(d.(temp := false), Plan(expected, d).value, m))
  }
}
