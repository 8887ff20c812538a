/**
  Whole invocations that nothing interrupts, step by step: when they succeed, and what a
  change of the sources between two of them does.
 */
module LearningRuns {
  import opened Wrappers
  import opened LearningProtocol
  import opened LearningSafety

  // ---------- Solo steps ----------

  function Steps(t: Tid, now: nat, n: nat): seq<Event> {
    if n == 0 then [] else [Step(t, now)] + Steps(t, now, n - 1)
  }

  function At(s: State, t: Tid, args: Args, pc: Pc, lock: Option<Tid>): State {
    s.(threads := s.threads[t := Thread(args, pc)], lock := lock)
  }

  lemma OneStep(s: State, t: Tid, now: nat, s': State, n: nat)
    requires t in s.threads && s' == Apply(s, Step(t, now)) && Admissible(s', Steps(t, now, n))
    ensures Admissible(s, Steps(t, now, n + 1)) && Run(s, Steps(t, now, n + 1)) == Run(s', Steps(t, now, n))
  {
    assert Steps(t, now, n + 1)[1..] == Steps(t, now, n);
  }

  // A reservation request that is accepted takes five steps and gives the lock back.
  ghost predicate Retriable(s: State, args: Args) {
    var f := s.files;
    && f.reservation.Some? && f.boundary.Some? && f.boundary.value.reservation == f.reservation.value.phase1
    && Accepts(f, args) && (Complete(f) || f.boundary.value.bounded == s.source.bounded)
  }

  lemma ReservePhase(s: State, t: Tid, now: nat, args: Args, held: Option<Cohort>)
    requires s.lock.None? && t in s.threads && s.threads[t] == Thread(args, Waiting(held)) && Retriable(s, args)
    ensures
      var bound := args.(window := s.files.reservation.value.phase1.window);
      && Admissible(s, Steps(t, now, 5))
      && Run(s, Steps(t, now, 5)) == if held.None? then At(s, t, bound, Loading, None) else At(s, t, args, Binding(held.value), None)
  {
    var bound := args.(window := s.files.reservation.value.phase1.window);
    var s1 := At(s, t, args, Reserving(held), Some(t));
    var s2 := At(s, t, args, Checking(held, false), Some(t));
    var s3 := At(s, t, args, Bounding(held, false, Complete(s.files)), Some(t));
    var s4 := At(s, t, args, Verifying(held, Complete(s.files)), Some(t));
    var s5 := if held.None? then At(s, t, bound, Loading, None) else At(s, t, args, Binding(held.value), None);
    assert Admissible(s5, Steps(t, now, 0)) && Run(s5, Steps(t, now, 0)) == s5;
    hide Run, Admissible, Steps;
    OneStep(s4, t, now, s5, 0);
    OneStep(s3, t, now, s4, 1);
    OneStep(s2, t, now, s3, 2);
    OneStep(s1, t, now, s2, 3);
    OneStep(s, t, now, s1, 4);
  }

  // With complete files the next two steps authenticate and return them.
  lemma RetryReads(s: State, t: Tid, now: nat, bound: Args)
    requires FilesInv(s) && Complete(s.files) && t in s.threads && s.threads[t] == Thread(bound, Loading)
    requires s.files.reservation.value.phase1.scope == bound.scope
    ensures var done := Done(s.files.snapshot.value.cohort);
            Admissible(s, Steps(t, now, 2)) && Run(s, Steps(t, now, 2)) == At(s, t, bound, done, s.lock)
  {
    var s6 := At(s, t, bound, Reading, s.lock);
    var s7 := At(s, t, bound, Done(s.files.snapshot.value.cohort), s.lock);
    assert Admissible(s7, Steps(t, now, 0)) && Run(s7, Steps(t, now, 0)) == s7;
    hide Run, Admissible, Steps;
    OneStep(s6, t, now, s7, 0);
    OneStep(s, t, now, s6, 1);
  }

  lemma {:induction false} StepsConcat(s: State, t: Tid, now: nat, m: nat, n: nat)
    requires Admissible(s, Steps(t, now, m)) && Admissible(Run(s, Steps(t, now, m)), Steps(t, now, n))
    ensures Admissible(s, Steps(t, now, m + n)) && Run(s, Steps(t, now, m + n)) == Run(Run(s, Steps(t, now, m)), Steps(t, now, n))
    decreases m
  {
    if m > 0 {
      var s' := Apply(s, Step(t, now));
      assert Steps(t, now, m)[1..] == Steps(t, now, m - 1) && Steps(t, now, m + n)[1..] == Steps(t, now, m - 1 + n);
      StepsConcat(s', t, now, m - 1, n);
    }
  }

  // One whole invocation of `n` steps that nothing interrupts.
  function Solo(t: Tid, now: nat, args: Args, n: nat): seq<Event> {
    [Start(t, args)] + Steps(t, now, n)
  }

  lemma SoloRuns(s: State, t: Tid, now: nat, args: Args, n: nat)
    requires t !in s.threads && Admissible(Apply(s, Start(t, args)), Steps(t, now, n))
    ensures Admissible(s, Solo(t, now, args, n)) && Run(s, Solo(t, now, args, n)) == Run(Apply(s, Start(t, args)), Steps(t, now, n))
  {
    hide Steps;
    assert Solo(t, now, args, n)[1..] == Steps(t, now, n);
  }

  // Once the files are complete, an invocation of the same scope succeeds with the frozen
  // cohort, without looking at the sources, whatever window it asks for.
  lemma RetryReturnsFrozen(s: State, t: Tid, now: nat, args: Args)
    requires Inv(s) && Complete(s.files) && s.lock.None? && t !in s.threads
    requires s.files.reservation.value.phase1.scope == args.scope
    ensures var es := Solo(t, now, args, 7);
            Admissible(s, es) && Run(s, es).files == s.files && Finished(Run(s, es), t, s.files.snapshot.value.cohort)
  {
    hide Steps, Next;
    var s0 := Apply(s, Start(t, args));
    var bound := args.(window := s.files.reservation.value.phase1.window);
    ReservePhase(s0, t, now, args, None);
    RetryReads(At(s0, t, bound, Loading, None), t, now, bound);
    StepsConcat(s0, t, now, 5, 2);
    SoloRuns(s, t, now, args, 7);
  }

  // No file was modified after the reservation.
  predicate InTime(s: State)
    requires s.files.reservation.Some?
  {
    s.source.bounded.modified <= s.files.reservation.value.phase1.reservedAt
  }

  // Without complete files the sources are read, and the boundary is checked again ...
  lemma AcquirePhase(s: State, t: Tid, now: nat, args: Args)
    requires s.lock.None? && t in s.threads && s.threads[t] == Thread(args, Loading)
    requires !Complete(s.files) && Retriable(s, args) && InTime(s)
    ensures Admissible(s, Steps(t, now, 7))
    ensures Run(s, Steps(t, now, 7)) == At(s, t, args, Binding(Acquire(s, args)), None)
  {
    var c := Acquire(s, args);
    var s1, s2 := At(s, t, args, Acquiring, None), At(s, t, args, Waiting(Some(c)), None);
    assert Admissible(s2, Steps(t, now, 0)) && Run(s2, Steps(t, now, 0)) == s2;
    OneStep(s1, t, now, s2, 0);
    OneStep(s, t, now, s1, 1);
    hide Steps, Next, Run, Admissible;
    ReservePhase(s2, t, now, args, Some(c));
    StepsConcat(s, t, now, 2, 5);
  }

  // ... unless a file was modified after the reservation.
  lemma AcquireRefused(s: State, t: Tid, now: nat, args: Args, n: nat)
    requires s.lock.None? && t in s.threads && s.threads[t] == Thread(args, Loading)
    requires !Complete(s.files) && s.files.reservation.Some? && !InTime(s) && n >= 2
    ensures Admissible(s, Steps(t, now, n)) && Run(s, Steps(t, now, n)) == At(s, t, args, Stopped, None)
  {
    var s1, s2 := At(s, t, args, Acquiring, None), At(s, t, args, Stopped, None);
    hide Steps, Run, Admissible;
    StoppedStays(s2, t, now, n - 2);
    OneStep(s1, t, now, s2, n - 2);
    OneStep(s, t, now, s1, n - 1);
  }

  // What is on disk agrees with this acquisition.
  predicate Fitting(f: Files, c: Cohort)
    requires f.reservation.Some?
  {
    && f.reservation.value.input in {None, Some(c.rows)}
    && (f.snapshot.Some? ==> f.snapshot.value == Snapshot(c, f.reservation.value))
  }

  function FrozenFiles(f: Files, c: Cohort): Files
    requires f.reservation.Some?
  {
    var bound := f.reservation.value.(input := Some(c.rows));
    f.(reservation := Some(bound), snapshot := Some(Snapshot(c, bound)), manifest := Some(Manifest(bound, Snapshot(c, bound))))
  }

  ghost predicate HasStopped(s: State, t: Tid) {
    t in s.threads && s.threads[t].pc == Stopped
  }

  lemma {:induction false} StoppedStays(s: State, t: Tid, now: nat, n: nat)
    requires HasStopped(s, t)
    ensures Admissible(s, Steps(t, now, n)) && Run(s, Steps(t, now, n)) == s
    decreases n
  {
    if n > 0 {
      assert Apply(s, Step(t, now)).threads == s.threads;
      StoppedStays(s, t, now, n - 1);
      OneStep(s, t, now, s, n - 1);
    }
  }

  // Bind, publish and read: to the end if what is on disk fits ...
  function Bound(s: State, c: Cohort): State
    requires s.files.reservation.Some?
  {
    var r := s.files.reservation.value;
    if r.input.Some? then s
    else s.(files := s.files.(reservation := Some(r.(input := Some(c.rows)))), history := s.history.(bound := Some(c)))
  }

  lemma BindPhase(s: State, t: Tid, now: nat, args: Args, c: Cohort)
    requires s.lock.None? && t in s.threads && s.threads[t] == Thread(args, Binding(c))
    requires s.files.reservation.Some? && s.files.reservation.value.input in {None, Some(c.rows)}
    ensures Admissible(s, Steps(t, now, 2))
    ensures var r := Bound(s, c); Run(s, Steps(t, now, 2)) == At(r, t, args, Publishing(c, r.files.reservation.value), None)
  {
    var r := Bound(s, c);
    var s1, s2 := At(r, t, args, Rereading(c), None), At(r, t, args, Publishing(c, r.files.reservation.value), None);
    assert Admissible(s2, Steps(t, now, 0)) && Run(s2, Steps(t, now, 0)) == s2;
    hide Run, Admissible, Steps;
    OneStep(s1, t, now, s2, 0);
    OneStep(s, t, now, s1, 1);
  }

  lemma InstallPhase(s: State, t: Tid, now: nat, args: Args, c: Cohort, r: Reservation)
    requires s.lock.None? && t in s.threads && s.threads[t] == Thread(args, Publishing(c, r))
    requires s.files.reservation == Some(r) && r.phase1.scope == args.scope == c.scope
    requires c.window == r.phase1.window && r.input == Some(c.rows)
    requires s.files.snapshot in {None, Some(Snapshot(c, r))} && s.files.manifest.None?
    ensures Admissible(s, Steps(t, now, 3))
    ensures Run(s, Steps(t, now, 3)) == At(s.(files := FrozenFiles(s.files, c)), t, args, Done(c), None)
  {
    var g := FrozenFiles(s.files, c);
    var s1 := At(s.(files := g.(manifest := None)), t, args, Manifesting(c, r), None);
    var s2, s3 := At(s.(files := g), t, args, Reading, None), At(s.(files := g), t, args, Done(c), None);
    assert Admissible(s3, Steps(t, now, 0)) && Run(s3, Steps(t, now, 0)) == s3;
    hide Run, Admissible, Steps;
    OneStep(s2, t, now, s3, 0);
    OneStep(s1, t, now, s2, 1);
    OneStep(s, t, now, s1, 2);
  }

  lemma PublishFitting(s: State, t: Tid, now: nat, args: Args, c: Cohort)
    requires FilesInv(s) && s.lock.None? && t in s.threads && s.threads[t] == Thread(args, Binding(c))
    requires s.files.reservation.Some? && !Complete(s.files) && s.files.reservation.value.phase1.scope == args.scope
    requires c.scope == args.scope && c.window == s.files.reservation.value.phase1.window && Fitting(s.files, c)
    ensures Admissible(s, Steps(t, now, 5))
    ensures var s' := Run(s, Steps(t, now, 5)); s'.files == FrozenFiles(s.files, c) && Finished(s', t, c)
  {
    hide Run, Admissible, Steps;
    var r := Bound(s, c);
    BindPhase(s, t, now, args, c);
    InstallPhase(At(r, t, args, Publishing(c, r.files.reservation.value), None), t, now, args, c, r.files.reservation.value);
    StepsConcat(s, t, now, 2, 3);
  }

  // ... and otherwise to a stop that leaves it as it is.
  lemma PublishUnfitting(s: State, t: Tid, now: nat, args: Args, c: Cohort)
    requires FilesInv(s) && s.lock.None? && t in s.threads && s.threads[t] == Thread(args, Binding(c))
    requires s.files.reservation.Some? && !Fitting(s.files, c)
    ensures Admissible(s, Steps(t, now, 5))
    ensures var s' := Run(s, Steps(t, now, 5)); s'.files == s.files && HasStopped(s', t)
  {
    var f := s.files;
    var stop := At(s, t, args, Stopped, None);
    hide Run, Admissible, Steps;
    if f.reservation.value.input != Some(c.rows) {
      StoppedStays(stop, t, now, 4);
      OneStep(s, t, now, stop, 4);
    } else {
      var s1 := At(s, t, args, Rereading(c), None);
      var s2 := At(s, t, args, Publishing(c, f.reservation.value), None);
      StoppedStays(stop, t, now, 2);
      OneStep(s2, t, now, stop, 2);
      OneStep(s1, t, now, s2, 3);
      OneStep(s, t, now, s1, 4);
    }
  }

  // From the loading step on: done exactly when no file was modified after the reservation and
  // what is on disk fits; otherwise stopped with the files as they were.
  lemma FreezePhase(s: State, t: Tid, now: nat, args: Args)
    requires FilesInv(s) && s.lock.None? && t in s.threads && s.threads[t] == Thread(args, Loading)
    requires !Complete(s.files) && Retriable(s, args)
    ensures Admissible(s, Steps(t, now, 12))
    ensures var s', c, done := Run(s, Steps(t, now, 12)), Acquire(s, args), InTime(s) && Fitting(s.files, Acquire(s, args));
            && (done ==> s'.files == FrozenFiles(s.files, c) && Finished(s', t, c))
            && (!done ==> s'.files == s.files && HasStopped(s', t))
  {
    hide Steps, Next, Run, Admissible;
    if InTime(s) {
      var c := Acquire(s, args);
      AcquirePhase(s, t, now, args);
      var s2 := At(s, t, args, Binding(c), None);
      SameFiles(s, s2, Thread(args, Binding(c)));
      if Fitting(s.files, c) { PublishFitting(s2, t, now, args, c); } else { PublishUnfitting(s2, t, now, args, c); }
      StepsConcat(s, t, now, 7, 5);
    } else {
      AcquireRefused(s, t, now, args, 12);
    }
  }

  // An invocation that finds the reservation and the boundary, and incomplete files, freezes
  // what it reads exactly when no file was modified after the reservation and what an earlier
  // one left fits it; otherwise it fails and changes nothing.
  lemma SoloFreezes(s: State, t: Tid, now: nat, args: Args)
    requires FilesInv(s) && s.lock.None? && t !in s.threads && !Complete(s.files) && Retriable(s, args)
    ensures Admissible(s, Solo(t, now, args, 17))
    ensures var s', c, done := Run(s, Solo(t, now, args, 17)), Acquire(s, args), InTime(s) && Fitting(s.files, Acquire(s, args));
            && (done ==> s'.files == FrozenFiles(s.files, c) && Finished(s', t, c))
            && (!done ==> s'.files == s.files && HasStopped(s', t))
  {
    hide Steps, Next, Run, Admissible;
    var s0 := Apply(s, Start(t, args));
    assert args.window == s.files.reservation.value.phase1.window;
    ReservePhase(s0, t, now, args, None);
    var s1 := At(s0, t, args, Loading, None);
    SameFiles(s, s1, Thread(args, Loading));
    FreezePhase(s1, t, now, args);
    StepsConcat(s0, t, now, 5, 12);
    SoloRuns(s, t, now, args, 17);
  }

  // ---------- Sources that change outside the boundary ----------

  lemma {:induction false} RunsConcat(s: State, es: seq<Event>, fs: seq<Event>)
    requires Admissible(s, es) && Admissible(Run(s, es), fs)
    ensures Admissible(s, es + fs) && Run(s, es + fs) == Run(Run(s, es), fs)
    decreases |es|
  {
    if es == [] {
      assert es + fs == fs;
    } else {
      RunsConcat(Apply(s, es[0]), es[1..], fs);
      assert (es + fs)[0] == es[0] && (es + fs)[1..] == es[1..] + fs;
    }
  }

  // A first invocation that has just installed the reservation ...
  function JustReserved(s: State, t: Tid, now: nat, args: Args): State {
    At(s.(files := Files(Some(Reservation(Phase1(now, args.scope, args.window), None)), None, None, None)),
       t, args, Checking(None, true), Some(t))
  }

  lemma ReservationInstalled(s: State, t: Tid, now: nat, args: Args)
    requires s.lock.None? && t in s.threads && s.threads[t] == Thread(args, Waiting(None))
    requires s.files == Files(None, None, None, None)
    ensures Admissible(s, Steps(t, now, 2)) && Run(s, Steps(t, now, 2)) == JustReserved(s, t, now, args)
  {
    var s1, s2 := At(s, t, args, Reserving(None), Some(t)), JustReserved(s, t, now, args);
    assert Admissible(s2, Steps(t, now, 0)) && Run(s2, Steps(t, now, 0)) == s2;
    hide Run, Admissible, Steps;
    OneStep(s1, t, now, s2, 0);
    OneStep(s, t, now, s1, 1);
  }

  // ... and one that then recorded the boundary of the sources as they are.
  function BoundaryRecorded(s: State, t: Tid, args: Args): State
    requires s.files.reservation.Some?
  {
    At(s.(files := s.files.(boundary := Some(Boundary(s.files.reservation.value.phase1, s.source.bounded))),
          history := s.history.(recorded := Some(s.source))), t, args, Loading, None)
  }

  lemma BoundaryPhase(s: State, t: Tid, now: nat, args: Args)
    requires s.lock == Some(t) && t in s.threads && s.threads[t] == Thread(args, Checking(None, true))
    requires s.files.reservation.Some? && s.files.boundary.None? && s.files.snapshot.None?
    requires s.files.reservation.value.phase1.scope == args.scope && s.files.reservation.value.phase1.window == args.window
    ensures Admissible(s, Steps(t, now, 3)) && Run(s, Steps(t, now, 3)) == BoundaryRecorded(s, t, args)
  {
    var s3 := BoundaryRecorded(s, t, args);
    var s1, s2 := At(s, t, args, Bounding(None, true, false), Some(t)), At(s3, t, args, Verifying(None, false), Some(t));
    assert Admissible(s3, Steps(t, now, 0)) && Run(s3, Steps(t, now, 0)) == s3;
    hide Run, Admissible, Steps;
    OneStep(s2, t, now, s3, 0);
    OneStep(s1, t, now, s2, 1);
    OneStep(s, t, now, s1, 2);
  }

  function FirstReserved(s: State, t: Tid, now: nat, args: Args): State {
    BoundaryRecorded(JustReserved(s, t, now, args), t, args)
  }

  lemma FirstReserves(s: State, t: Tid, now: nat, args: Args)
    requires s.lock.None? && t in s.threads && s.threads[t] == Thread(args, Waiting(None))
    requires s.files == Files(None, None, None, None)
    ensures Admissible(s, Steps(t, now, 5)) && Run(s, Steps(t, now, 5)) == FirstReserved(s, t, now, args)
  {
    hide Run, Admissible, Steps, Next;
    ReservationInstalled(s, t, now, args);
    BoundaryPhase(JustReserved(s, t, now, args), t, now, args);
    StepsConcat(s, t, now, 2, 3);
  }

  // The very first invocation freezes what it reads exactly when no file is newer than its
  // own reservation.
  lemma SoloFirst(s: State, t: Tid, now: nat, args: Args)
    requires FilesInv(s) && s.lock.None? && t !in s.threads && s.files == Files(None, None, None, None)
    ensures Admissible(s, Solo(t, now, args, 17))
    ensures var s', c, f := Run(s, Solo(t, now, args, 17)), Acquire(s, args), FirstReserved(s, t, now, args).files;
            && (s.source.bounded.modified <= now ==> s'.files == FrozenFiles(f, c) && Finished(s', t, c))
            && (s.source.bounded.modified > now ==> s'.files == f && HasStopped(s', t))
  {
    hide Steps, Next, Run, Admissible;
    var s0 := Apply(s, Start(t, args));
    FirstReserves(s0, t, now, args);
    var s1 := FirstReserved(s0, t, now, args);
    FreezePhase(s1, t, now, args);
    StepsConcat(s0, t, now, 5, 12);
    SoloRuns(s, t, now, args, 17);
  }

  // An invocation that stops, and sources that then change only outside the boundary.
  function Interrupted(t: Tid, later: Source): seq<Event> {
    [Stop(t), Grow(later)]
  }

  lemma InterruptedRuns(s: State, t: Tid, later: Source)
    requires t in s.threads && !s.threads[t].pc.Done? && s.lock.None? && later.bounded == s.source.bounded
    ensures Admissible(s, Interrupted(t, later))
    ensures Run(s, Interrupted(t, later)) == At(s, t, s.threads[t].args, Stopped, None).(source := later)
  {
    var s1 := Apply(s, Stop(t));
    var s2 := Apply(s1, Grow(later));
    assert Interrupted(t, later)[1..] == [Grow(later)] && [Grow(later)][1..] == [];
    assert Admissible(s2, []) && Run(s2, []) == s2;
    assert Admissible(s1, [Grow(later)]) && Run(s1, [Grow(later)]) == s2;
  }

  // A change outside the boundary before the bind is not noticed: the retry succeeds with
  // rows that the boundary never saw.
  lemma OpenChangeIsFrozen(select: (Source, string) -> Rows, source: Source, later: Source, t: Tid, u: Tid,
                           now: nat, args: Args)
    requires t != u && later.bounded == source.bounded && source.bounded.modified <= now
    requires select(later, args.window.cutoff) != select(source, args.window.cutoff)
    ensures
      var es := Solo(t, now, args, 5) + (Interrupted(t, later) + Solo(u, now, args, 17));
      && Admissible(Initial(select, source), es)
      && var s := Run(Initial(select, source), es);
         var c := Cohort(args.scope, args.window, later, select(later, args.window.cutoff));
         Finished(s, u, c) && s.files.reservation.Some? && s.history.recorded.Some? && c.rows != BoundaryCohort(s).rows
  {
    hide Run, Admissible, Steps, Next;
    var i := Initial(select, source);
    var s0 := Apply(i, Start(t, args));
    FirstReserves(s0, t, now, args);
    SoloRuns(i, t, now, args, 5);
    var s1 := FirstReserved(s0, t, now, args);
    InterruptedRuns(s1, t, later);
    var s2 := At(s1, t, args, Stopped, None).(source := later);
    SoloFreezes(s2, u, now, args);
    var es, fs, gs := Solo(t, now, args, 5), Interrupted(t, later), Solo(u, now, args, 17);
    RunsConcat(s1, fs, gs);
    RunsConcat(i, es, fs + gs);
    InitialInv(select, source);
    RunsConcat(i, es, fs);
    RunKeepsInv(i, es + fs);
    RunKeepsInv(s2, gs);
  }

  // The same change after the bind is noticed by the hash: the retry fails and changes nothing.
  lemma OpenChangeAfterBind(select: (Source, string) -> Rows, source: Source, later: Source, t: Tid, u: Tid,
                           now: nat, args: Args)
    requires t != u && later.bounded == source.bounded && source.bounded.modified <= now
    requires select(later, args.window.cutoff) != select(source, args.window.cutoff)
    ensures
      var es := Solo(t, now, args, 14) + (Interrupted(t, later) + Solo(u, now, args, 17));
      && Admissible(Initial(select, source), es)
      && var s := Run(Initial(select, source), es);
         HasStopped(s, u) && s.files.snapshot.None? && s.files.reservation.Some?
         && s.files.reservation.value.input == Some(select(source, args.window.cutoff))
  {
    hide Run, Admissible, Steps, Next;
    var i := Initial(select, source);
    var s0 := Apply(i, Start(t, args));
    FirstReserves(s0, t, now, args);
    var s1 := FirstReserved(s0, t, now, args);
    var c := Acquire(s1, args);
    AcquirePhase(s1, t, now, args);
    var s2 := At(s1, t, args, Binding(c), None);
    BindPhase(s2, t, now, args, c);
    StepsConcat(s1, t, now, 7, 2);
    StepsConcat(s0, t, now, 5, 9);
    SoloRuns(i, t, now, args, 14);
    var r := Bound(s2, c);
    var s3 := At(r, t, args, Publishing(c, r.files.reservation.value), None);
    InterruptedRuns(s3, t, later);
    var s4 := At(s3, t, args, Stopped, None).(source := later);
    SoloFreezes(s4, u, now, args);
    var es, fs, gs := Solo(t, now, args, 14), Interrupted(t, later), Solo(u, now, args, 17);
    RunsConcat(s3, fs, gs);
    RunsConcat(i, es, fs + gs);
  }
}
