/**
  Which states of a date can still lead to a success, and which are blocked for good.
 */
module LearningOutcome {
  import opened Wrappers
  import opened LearningProtocol
  import opened LearningSafety
  import opened LearningRuns

  // ---------- A crash that cannot be retried ----------

  // A reservation whose installer stopped before it recorded the source boundary.
  ghost predicate Wedged(s: State) {
    && s.files.reservation.Some? && s.files.boundary.None?
    && forall t | t in s.threads :: !JustInstalled(s.threads[t].pc)
  }

  predicate JustInstalled(pc: Pc) {
    (pc.Checking? || pc.Bounding?) && pc.installed
  }

  lemma EventKeepsWedged(s: State, e: Event)
    requires Inv(s) && Wedged(s) && Possible(s, e)
    ensures Wedged(Apply(s, e))
  {
    match e
    case Step(t, now) =>
      assert !JustInstalled(s.threads[t].pc) && PcInv(s, s.threads[t]);
    case _ =>
  }

  // It fails closed for good: no invocation ever succeeds and nothing is ever frozen.
  lemma {:induction false} WedgedForever(s: State, es: seq<Event>, t: Tid, c: Cohort)
    requires Inv(s) && Wedged(s) && Admissible(s, es)
    ensures Run(s, es).files.snapshot.None? && !Finished(Run(s, es), t, c)
    decreases |es|
  {
    if es == [] {
      if t in s.threads { assert PcInv(s, s.threads[t]); }
    } else {
      EventKeepsInv(s, es[0]);
      EventKeepsWedged(s, es[0]);
      WedgedForever(Apply(s, es[0]), es[1..], t, c);
    }
  }

  // And every first invocation passes through a point where a crash does this.
  lemma CrashBeforeBoundary(select: (Source, string) -> Rows, source: Source, t: Tid, args: Args)
    ensures var es := [Start(t, args), Step(t, 0), Step(t, 0), Stop(t)];
            Admissible(Initial(select, source), es) && Wedged(Run(Initial(select, source), es))
  {
    var s0 := Initial(select, source);
    var s1 := Apply(s0, Start(t, args));
    var s2 := Apply(s1, Step(t, 0));
    var s3 := Apply(s2, Step(t, 0));
    var s4 := Apply(s3, Stop(t));
    var es := [Start(t, args), Step(t, 0), Step(t, 0), Stop(t)];
    assert es[1..] == [Step(t, 0), Step(t, 0), Stop(t)] && es[1..][1..] == [Step(t, 0), Stop(t)];
    assert es[1..][1..][1..] == [Stop(t)] && es[1..][1..][1..][1..] == [];
    assert Admissible(s4, []) && Run(s4, []) == s4;
    assert Admissible(s3, [Stop(t)]) && Run(s3, [Stop(t)]) == s4;
    assert Admissible(s2, [Step(t, 0), Stop(t)]) && Run(s2, [Step(t, 0), Stop(t)]) == s4;
  }

  // ---------- Every blocked date ----------

  // No invocation is under way.
  ghost predicate Quiet(s: State) {
    s.lock.None? && forall t | t in s.threads :: s.threads[t].pc.Done? || s.threads[t].pc.Stopped?
  }

  // The reservation is there and nothing complete, and what the reservation promises cannot
  // be kept: there is no boundary, the bounded sources have changed since, or a file had been
  // modified between the two.
  predicate Blocked(s: State) {
    var f := s.files;
    f.reservation.Some? && !Complete(f) && (f.boundary.None? || Overtaken(s) || !InTime(s))
  }

  predicate Overtaken(s: State)
    requires s.files.boundary.Some?
  {
    s.files.boundary.value.bounded != s.source.bounded
  }

  // How far an invocation gets while the date is blocked.
  ghost predicate Harmless(pc: Pc) {
    || pc.Waiting? || pc.Reserving? || pc.Loading? || pc.Acquiring? || pc.Stopped?
    || (pc.Checking? && !pc.installed) || (pc.Bounding? && !pc.installed && !pc.frozen) || (pc.Verifying? && !pc.frozen)
  }

  // The last clause of Blocked, once for all: the boundary itself is newer than the reservation.
  ghost predicate Barred(s: State) {
    var f := s.files;
    && f.reservation.Some? && !Complete(f)
    && (f.boundary.None? || Overtaken(s) || f.boundary.value.bounded.modified > f.reservation.value.phase1.reservedAt)
    && forall t | t in s.threads :: Harmless(s.threads[t].pc)
  }

  lemma BlockedIsBarred(s: State)
    requires Inv(s) && Quiet(s) && Blocked(s)
    ensures Barred(s)
  {
    forall t | t in s.threads ensures Harmless(s.threads[t].pc) { assert PcInv(s, s.threads[t]); }
  }

  // One step of an invocation that has got no further.
  lemma StepStaysBarred(s: State, t: Tid, th: Thread, now: nat)
    requires FilesInv(s) && PcInv(s, th) && Harmless(th.pc)
    requires s.files.reservation.Some? && !Complete(s.files)
    requires s.files.boundary.None? || Overtaken(s)
             || s.files.boundary.value.bounded.modified > s.files.reservation.value.phase1.reservedAt
    ensures var e := Next(s, t, th, now); e.files == s.files && Harmless(e.thread.pc)
  {
  }

  lemma EventKeepsBarred(s: State, e: Event)
    requires Inv(s) && Barred(s) && Possible(s, e)
    ensures Barred(Apply(s, e))
  {
    match e
    case Step(t, now) =>
      assert PcInv(s, s.threads[t]) && Harmless(s.threads[t].pc);
      StepStaysBarred(s, t, s.threads[t], now);
    case _ =>
  }

  // A blocked date stays blocked: no continuation ever succeeds, and the files are never complete.
  lemma {:induction false} BlockedForever(s: State, es: seq<Event>, t: Tid, c: Cohort)
    requires Inv(s) && Barred(s) && Admissible(s, es)
    ensures !Complete(Run(s, es).files) && !Finished(Run(s, es), t, c)
    decreases |es|
  {
    if es == [] {
      if t in s.threads { assert Harmless(s.threads[t].pc); }
    } else {
      EventKeepsInv(s, es[0]);
      EventKeepsBarred(s, es[0]);
      BlockedForever(Apply(s, es[0]), es[1..], t, c);
    }
  }

  // Some continuation succeeds.
  ghost predicate CanSucceed(s: State) {
    exists es, t, c :: Admissible(s, es) && Finished(Run(s, es), t, c)
  }

  // A date that is not blocked can still succeed: if the open part of the sources is again what
  // it was at the interrupted acquisition, a retry of the reserved request completes it.
  lemma OpenDateSucceeds(s: State, t: Tid, args: Args)
    requires Inv(s) && Quiet(s) && !Blocked(s) && t !in s.threads
    ensures CanSucceed(s)
  {
    hide Run, Admissible, Next, Inv, Steps, Solo;
    var f := s.files;
    QuietFiles(s);
    if Complete(f) {
      var again := Args(f.reservation.value.phase1.scope, f.reservation.value.phase1.window);
      RetryReturnsFrozen(s, t, 0, again);
      Witness(s, Solo(t, 0, again, 7), t, f.snapshot.value.cohort);
    } else if f.reservation.None? {
      var now := s.source.bounded.modified;
      SoloFirst(s, t, now, args);
      Witness(s, Solo(t, now, args, 17), t, Acquire(s, args));
    } else {
      var again := Args(f.reservation.value.phase1.scope, f.reservation.value.phase1.window);
      var was := Interruption(s);
      var s1 := s.(source := was);
      GrowBack(s, was);
      SoloFreezes(s1, t, 0, again);
      RunsConcat(s, [Grow(was)], Solo(t, 0, again, 17));
      Witness(s, [Grow(was)] + Solo(t, 0, again, 17), t, Acquire(s1, again));
    }
  }

  lemma Witness(s: State, es: seq<Event>, t: Tid, c: Cohort)
    requires Admissible(s, es) && Finished(Run(s, es), t, c)
    ensures CanSucceed(s)
  {
  }

  // What the interrupted invocation had read, as far as it left a trace.
  function Interruption(s: State): Source {
    if s.files.snapshot.Some? then s.files.snapshot.value.cohort.source
    else if s.files.reservation.Some? && s.files.reservation.value.input.Some? && s.history.bound.Some?
    then s.history.bound.value.source
    else s.source
  }

  lemma QuietFiles(s: State)
    requires Inv(s)
    ensures FilesInv(s)
    ensures s.files.reservation.None? ==> s.files == Files(None, None, None, None)
    ensures Complete(s.files) ==> s.files.reservation.Some?
  {
  }

  lemma GrowBack(s: State, was: Source)
    requires was.bounded == s.source.bounded
    ensures Admissible(s, [Grow(was)]) && Run(s, [Grow(was)]) == s.(source := was)
  {
    Singly(s, Grow(was));
  }

  // Between invocations a date can still succeed exactly when it is not blocked.
  lemma DateIsOpenIff(s: State, t: Tid, args: Args)
    requires Inv(s) && Quiet(s) && t !in s.threads
    ensures CanSucceed(s) <==> !Blocked(s)
  {
    if Blocked(s) {
      BlockedIsBarred(s);
      forall es, u, c | Admissible(s, es) ensures !Finished(Run(s, es), u, c) { BlockedForever(s, es, u, c); }
    } else {
      OpenDateSucceeds(s, t, args);
    }
  }

  // A file that is modified after the reservation and before the boundary blocks the date: the
  // boundary records it, and every acquisition refuses it.
  lemma GrownBeforeBoundary(select: (Source, string) -> Rows, source: Source, later: Source, t: Tid, now: nat, args: Args)
    requires later.bounded.generation > source.bounded.generation && later.bounded.modified > now
    ensures
      var es := Solo(t, now, args, 2) + ([Grow(later)] + (Steps(t, now, 3) + [Stop(t)]));
      && Admissible(Initial(select, source), es)
      && var s := Run(Initial(select, source), es);
         Inv(s) && Quiet(s) && Blocked(s) && s.files.boundary.Some? && !Overtaken(s)
  {
    hide Run, Admissible, Steps, Next, Inv;
    var i := Initial(select, source);
    var s0 := Apply(i, Start(t, args));
    ReservationInstalled(s0, t, now, args);
    SoloRuns(i, t, now, args, 2);
    var s1 := JustReserved(s0, t, now, args);
    var s2 := s1.(source := later);
    Singly(s1, Grow(later));
    BoundaryPhase(s2, t, now, args);
    var s3 := BoundaryRecorded(s2, t, args);
    Singly(s3, Stop(t));
    RunsConcat(s2, Steps(t, now, 3), [Stop(t)]);
    RunsConcat(s1, [Grow(later)], Steps(t, now, 3) + [Stop(t)]);
    RunsConcat(i, Solo(t, now, args, 2), [Grow(later)] + (Steps(t, now, 3) + [Stop(t)]));
    InitialInv(select, source);
    RunKeepsInv(i, Solo(t, now, args, 2) + ([Grow(later)] + (Steps(t, now, 3) + [Stop(t)])));
    assert Run(s3, [Stop(t)]) == At(s3, t, args, Stopped, None);
  }

  lemma Singly(s: State, e: Event)
    requires Possible(s, e)
    ensures Admissible(s, [e]) && Run(s, [e]) == Apply(s, e)
  {
    var s1 := Apply(s, e);
    assert [e][1..] == [] && Admissible(s1, []) && Run(s1, []) == s1;
  }
}
