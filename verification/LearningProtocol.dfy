/**
  The daily-learning protocol for one output directory and market date: reserve, record the
  source boundary, acquire, bind the input hash, publish the snapshot and its manifest.

  Any number of invocations run at once, each a sequence of small steps on the shared
  files; any of them may stop after any step, and the sources may grow at any time. Only
  the reservation and the binding are serialised, by the invocation lock.

  A hash or signature is its own preimage: the identity of a signed body is the body.

  The source boundary covers only a part of what is read: three tables of the database and
  the ledger and evidence files. The bridge and selection tables are read and hashed too.
 */
module LearningProtocol {
  import opened Wrappers

  type Tid = nat

  // ---------- Requests and files ----------

  // The fields a retry may give differently once the cohort is frozen.
  datatype Window = Window(cutoff: string, sourceIdentity: string, sourceHash: string)

  // The fields it may not: market date, code SHA, request paths and the research-only flags.
  datatype Scope = Scope(marketDate: string, codeSha: string, request: string)

  datatype Args = Args(scope: Scope, window: Window)

  // What the source boundary records and compares. Every change of it has a later generation.
  // `modified` is the latest modification time of the evidence and ledger files, if any.
  datatype Bounded = Bounded(content: string, generation: nat, modified: nat)

  // Everything that is read; `open` is the part outside the boundary.
  datatype Source = Source(bounded: Bounded, open: string)

  type Rows = string

  datatype Phase1 = Phase1(reservedAt: nat, scope: Scope, window: Window)

  // `input` is the hash bound by the one signed extension, phase 2.
  datatype Reservation = Reservation(phase1: Phase1, input: Option<Rows>)

  datatype Boundary = Boundary(reservation: Phase1, bounded: Bounded)

  // The analyzer payload with everything it was selected by.
  datatype Cohort = Cohort(scope: Scope, window: Window, source: Source, rows: Rows)

  datatype Snapshot = Snapshot(cohort: Cohort, reservation: Reservation)

  datatype Manifest = Manifest(reservation: Reservation, snapshot: Snapshot)

  datatype Files = Files(
    reservation: Option<Reservation>, boundary: Option<Boundary>,
    snapshot: Option<Snapshot>, manifest: Option<Manifest>)

  predicate Complete(f: Files) {
    f.snapshot.Some? && f.manifest.Some?
  }

  // ---------- Invocations ----------

  datatype Pc =
    | Waiting(held: Option<Cohort>)                                 // for the lock, to reserve
    | Reserving(held: Option<Cohort>)                               // lock held
    | Checking(held: Option<Cohort>, installed: bool)               // lock held
    | Bounding(held: Option<Cohort>, installed: bool, frozen: bool) // lock held
    | Verifying(held: Option<Cohort>, frozen: bool)                 // lock held
    | Loading
    | Acquiring
    | Binding(cohort: Cohort)
    | Rereading(cohort: Cohort)
    | Publishing(cohort: Cohort, reservation: Reservation)
    | Manifesting(cohort: Cohort, reservation: Reservation)
    | Reading
    | Done(result: Cohort)
    | Stopped                                                       // error or crash

  datatype Thread = Thread(args: Args, pc: Pc)

  // What the files do not say: the whole source when the boundary was recorded, and the
  // acquisition whose hash was bound. No step depends on it.
  datatype History = History(recorded: Option<Source>, bound: Option<Cohort>)

  // `select` stands for the queries: the rows a source yields up to a cutoff.
  datatype State = State(
    select: (Source, string) -> Rows, files: Files, source: Source, lock: Option<Tid>,
    threads: map<Tid, Thread>, history: History)

  datatype Event = Step(tid: Tid, now: nat) | Stop(tid: Tid) | Grow(source: Source) | Start(tid: Tid, args: Args)

  predicate Possible(s: State, e: Event) {
    match e
    case Step(t, _) => t in s.threads
    case Stop(t) => t in s.threads && !s.threads[t].pc.Done?
    case Grow(source) =>
      source.bounded == s.source.bounded || source.bounded.generation > s.source.bounded.generation
    case Start(t, _) => t !in s.threads
  }

  function Apply(s: State, e: Event): State
    requires Possible(s, e)
  {
    match e
    case Step(t, now) => Commit(s, t, Next(s, t, s.threads[t], now))
    case Stop(t) => Commit(s, t, Leave(s, t, s.threads[t], Stopped))
    case Grow(source) => s.(source := source)
    case Start(t, args) => s.(threads := s.threads[t := Thread(args, Waiting(None))])
  }

  // What one step changes: the files, the lock and the invocation that took it.
  datatype Effect = Effect(files: Files, lock: Option<Tid>, thread: Thread, history: History)

  function Goto(s: State, th: Thread, pc: Pc): Effect {
    Effect(s.files, s.lock, th.(pc := pc), s.history)
  }

  // Go on without the lock.
  function Leave(s: State, t: Tid, th: Thread, pc: Pc): Effect {
    Effect(s.files, if s.lock == Some(t) then None else s.lock, th.(pc := pc), s.history)
  }

  function Commit(s: State, t: Tid, e: Effect): State {
    s.(files := e.files, lock := e.lock, threads := s.threads[t := e.thread], history := e.history)
  }

  // Install a file unless it exists; an existing one must be identical.
  function Installed<T(==)>(file: Option<T>, value: T): Option<T> {
    if file.None? then Some(value) else if file.value == value then file else None
  }

  function Acquire(s: State, args: Args): Cohort {
    Cohort(args.scope, args.window, s.source, s.select(s.source, args.window.cutoff))
  }

  // One step of invocation `t`.
  function Next(s: State, t: Tid, th: Thread, now: nat): Effect {
    var f := s.files;
    var args := th.args;
    match th.pc
    case Waiting(held) =>
      if s.lock.Some? then Goto(s, th, th.pc) else Goto(s, th, Reserving(held)).(lock := Some(t))
    case Reserving(held) =>
      if f.reservation.None? then
        var first := Reservation(Phase1(now, args.scope, args.window), None);
        Goto(s, th, Checking(held, true)).(files := f.(reservation := Some(first)))
      else
        Goto(s, th, Checking(held, false))
    case Checking(held, installed) =>
      if f.reservation.Some? && Accepts(f, args)
      then Goto(s, th, Bounding(held, installed, Complete(f)))
      else Leave(s, t, th, Stopped)
    case Bounding(held, installed, frozen) =>
      if f.boundary.Some? then Goto(s, th, Verifying(held, frozen))
      else if !installed || f.reservation.None? then Leave(s, t, th, Stopped)
      else
        var boundary := Boundary(f.reservation.value.phase1, s.source.bounded);
        Goto(s, th, Verifying(held, frozen)).(files := f.(boundary := Some(boundary)),
                                              history := s.history.(recorded := Some(s.source)))
    case Verifying(held, frozen) =>
      if f.reservation.Some? && f.boundary.Some?
         && f.boundary.value.reservation == f.reservation.value.phase1
         && (frozen || f.boundary.value.bounded == s.source.bounded)
      then
        if held.Some? then Leave(s, t, th, Binding(held.value))
        else
          // The reserved window replaces the requested one.
          Leave(s, t, Thread(args.(window := f.reservation.value.phase1.window), th.pc), Loading)
      else Leave(s, t, th, Stopped)
    case Loading =>
      Goto(s, th, if Complete(f) then Reading else Acquiring)
    case Acquiring =>
      // Files that were written after the reservation are refused.
      if f.reservation.None? || s.source.bounded.modified > f.reservation.value.phase1.reservedAt
      then Goto(s, th, Stopped) else Goto(s, th, Waiting(Some(Acquire(s, args))))
    case Binding(cohort) =>
      if s.lock.Some? then Goto(s, th, th.pc)
      else if f.reservation.None? then Goto(s, th, Stopped)
      else if f.reservation.value.input.None? then
        Goto(s, th, Rereading(cohort)).(files := f.(reservation := Some(f.reservation.value.(input := Some(cohort.rows)))),
                                        history := s.history.(bound := Some(cohort)))
      else if f.reservation.value.input.value == cohort.rows then Goto(s, th, Rereading(cohort))
      else Goto(s, th, Stopped)
    case Rereading(cohort) =>
      if f.reservation.None? then Goto(s, th, Stopped) else Goto(s, th, Publishing(cohort, f.reservation.value))
    case Publishing(cohort, reservation) =>
      var file := Installed(f.snapshot, Snapshot(cohort, reservation));
      if file.None? then Goto(s, th, Stopped)
      else Goto(s, th, Manifesting(cohort, reservation)).(files := f.(snapshot := file))
    case Manifesting(cohort, reservation) =>
      var file := Installed(f.manifest, Manifest(reservation, Snapshot(cohort, reservation)));
      if file.None? then Goto(s, th, Stopped)
      else Goto(s, th, Reading).(files := f.(manifest := file))
    case Reading =>
      Goto(s, th, if Authentic(f, args) then Done(f.snapshot.value.cohort) else Stopped)
    case Done(_) => Goto(s, th, th.pc)
    case Stopped => Goto(s, th, th.pc)
  }

  // The stored reservation is for this invocation. Once snapshot and manifest exist, the
  // window may differ.
  predicate Accepts(f: Files, args: Args)
    requires f.reservation.Some?
  {
    && f.reservation.value.phase1.scope == args.scope
    && (Complete(f) || f.reservation.value.phase1.window == args.window)
  }

  // The checks on the frozen evidence before it is used.
  predicate Authentic(f: Files, args: Args) {
    && f.reservation.Some? && Complete(f)
    && f.reservation.value.phase1.scope == args.scope
    && f.manifest.value.reservation == f.reservation.value
    && f.manifest.value.snapshot == f.snapshot.value
    && var cohort := f.snapshot.value.cohort;
       && cohort.scope == args.scope
       && f.reservation.value.phase1.window == cohort.window
       && f.reservation.value.input == Some(cohort.rows)
       && f.snapshot.value.reservation == f.reservation.value
  }

  // ---------- Runs ----------

  function Initial(select: (Source, string) -> Rows, source: Source): State {
    State(select, Files(None, None, None, None), source, None, map[], History(None, None))
  }

  predicate Admissible(s: State, es: seq<Event>)
    decreases |es|
  {
    es == [] || (Possible(s, es[0]) && Admissible(Apply(s, es[0]), es[1..]))
  }

  function Run(s: State, es: seq<Event>): State
    requires Admissible(s, es)
    decreases |es|
  {
    if es == [] then s else Run(Apply(s, es[0]), es[1..])
  }
}
