/**
  The daily-learning invocation as the program runs it, with the files it installs and
  replaces as fields. Each durable change is noted as a step of the protocol, so that a
  run of these methods is a run of the protocol.
 */
module DailyLearning {
  import opened Wrappers
  import opened LearningProtocol
  import opened LearningSafety
  import opened LearningRuns

  class Store {
    const select: (Source, string) -> Rows

    var reservation: Option<Reservation>
    var boundary: Option<Boundary>
    var snapshot: Option<Snapshot>
    var manifest: Option<Manifest>
    var lock: Option<Tid>
    var source: Source

    ghost var origin: State
    ghost var events: seq<Event>

    function Stored(): Files
      reads this
    {
      Files(reservation, boundary, snapshot, manifest)
    }

    // The fields are where the noted events lead.
    ghost predicate Tracks()
      reads this
    {
      && Inv(origin) && Admissible(origin, events)
      && var s := Run(origin, events);
         s.select == select && s.files == Stored() && s.source == source && s.lock == lock
    }

    ghost function Now(): State
      requires Tracks()
      reads this
    {
      Run(origin, events)
    }

    // The invocation is at `pc`.
    ghost predicate At(t: Tid, args: Args, pc: Pc)
      requires Tracks()
      reads this
    {
      t in Now().threads && Now().threads[t] == Thread(args, pc)
    }

    constructor (select: (Source, string) -> Rows, source: Source)
      ensures Tracks() && Stored() == Files(None, None, None, None) && this.source == source && lock.None?
      ensures this.select == select && Now().threads == map[]
    {
      this.select, this.source := select, source;
      reservation, boundary, snapshot, manifest, lock := None, None, None, None, None;
      origin, events := Initial(select, source), [];
    }

    // Note an event that has just been carried out.
    ghost method Record(e: Event, s: State)
      requires Inv(origin) && Admissible(origin, events) && s == Run(origin, events)
      requires Possible(s, e)
      requires var s' := Apply(s, e);
               s'.select == select && s'.files == Stored() && s'.source == source && s'.lock == lock
      modifies this`events
      ensures Tracks() && Now() == Apply(s, e)
      ensures Inv(Now()) && Later(s, Now())
    {
      RunConcat(origin, events, e);
      RunKeepsInv(origin, events);
      EventKeepsInv(s, e);
      events := events + [e];
    }

    method Begin(t: Tid, args: Args)
      requires Tracks() && t !in Now().threads
      modifies this`events
      ensures Tracks() && At(t, args, Waiting(None)) && Now().threads.Keys == old(Now().threads.Keys) + {t}
    {
      ghost var s := Now();
      Record(Start(t, args), s);
    }

    // Take the free lock; install the reservation or check the existing one.
    method ReserveFile(t: Tid, args: Args, held: Option<Cohort>, now: nat) returns (ok: bool, installed: bool, frozen: bool)
      requires Tracks() && At(t, args, Waiting(held)) && lock.None?
      modifies this`reservation, this`lock, this`events
      ensures Tracks() && Now().threads.Keys == old(Now().threads.Keys)
      ensures installed == old(reservation.None?) && frozen == Complete(Stored())
      ensures reservation == if installed then Some(NewReservation(args, now)) else old(reservation)
      ensures ok <==> Accepts(Stored(), args)
      ensures ok ==> At(t, args, Bounding(held, installed, frozen)) && lock == Some(t)
      ensures !ok ==> At(t, args, Stopped) && lock.None?
    {
      hide Inv, Admissible, Run, Later;
      ghost var s0 := Now();
      lock := Some(t);
      Record(Step(t, now), s0);
      ghost var s1 := Now();
      installed := reservation.None?;
      if installed {
        reservation := Some(NewReservation(args, now));
      }
      Record(Step(t, now), s1);
      ghost var s2 := Now();
      frozen := snapshot.Some? && manifest.Some?;
      var phase1 := reservation.value.phase1;
      ok := phase1.scope == args.scope && (frozen || phase1.window == args.window);
      if !ok {
        lock := None;
      }
      Record(Step(t, now), s2);
    }

    // Record the source boundary of a reservation just installed, or compare the bounded part
    // of the sources with it; then give up the lock.
    method ReserveBoundary(t: Tid, args: Args, held: Option<Cohort>, installed: bool, frozen: bool) returns (ok: bool)
      requires Tracks() && At(t, args, Bounding(held, installed, frozen)) && lock == Some(t) && reservation.Some?
      modifies this`boundary, this`lock, this`events
      ensures Tracks() && Now().threads.Keys == old(Now().threads.Keys) && lock.None?
      ensures boundary == if old(boundary.None?) && installed then Some(Boundary(reservation.value.phase1, source.bounded)) else old(boundary)
      ensures ok <==> && boundary.Some? && boundary.value.reservation == reservation.value.phase1
                      && (frozen || boundary.value.bounded == source.bounded)
      ensures !ok ==> At(t, args, Stopped)
      ensures ok ==>
                if held.None? then At(t, args.(window := reservation.value.phase1.window), Loading)
                else At(t, args, Binding(held.value))
    {
      hide Inv, Admissible, Run, Later;
      ghost var s0 := Now();
      var phase1 := reservation.value.phase1;
      if boundary.None? {
        if !installed {
          lock := None;
          Record(Step(t, 0), s0);
          return false;
        }
        boundary := Some(Boundary(phase1, source.bounded));
      }
      Record(Step(t, 0), s0);
      ghost var s1 := Now();
      lock := None;
      ok := boundary.value.reservation == phase1 && (frozen || boundary.value.bounded == source.bounded);
      Record(Step(t, 0), s1);
    }

    // Reserve, or check an existing reservation.
    method Reserve(t: Tid, args: Args, held: Option<Cohort>, now: nat) returns (window: Option<Window>)
      requires Tracks() && At(t, args, Waiting(held)) && lock.None?
      modifies this`reservation, this`boundary, this`lock, this`events
      ensures Tracks() && lock.None? && Now().threads.Keys == old(Now().threads.Keys)
      ensures Evolves(old(Stored()), Stored())
      ensures window.Some? <==> old(Reservable(args))
      ensures window.None? ==> At(t, args, Stopped) && Stored() == old(Stored())
      ensures window.Some? ==>
                && reservation == old(if reservation.Some? then reservation else Some(NewReservation(args, now)))
                && boundary == old(if boundary.Some? then boundary else Some(Boundary(NewReservation(args, now).phase1, source.bounded)))
                && window.value == reservation.value.phase1.window
                && (if held.None? then At(t, args.(window := window.value), Loading) else At(t, args, Binding(held.value)))
    {
      RunKeepsInv(origin, events);
      assert reservation.None? ==> boundary.None? && !Complete(Stored());
      hide Inv, Admissible, Run, Later;
      var ok, installed, frozen := ReserveFile(t, args, held, now);
      if !ok {
        return None;
      }
      ok := ReserveBoundary(t, args, held, installed, frozen);
      return if ok then Some(reservation.value.phase1.window) else None;
    }

    // Whether a reservation request would be accepted now.
    predicate Reservable(args: Args)
      reads this
    {
      if reservation.None? then boundary.None?
      else
        && boundary.Some? && boundary.value.reservation == reservation.value.phase1
        && reservation.value.phase1.scope == args.scope
        && ((snapshot.Some? && manifest.Some?)
            || (reservation.value.phase1.window == args.window && boundary.value.bounded == source.bounded))
    }

    // Extend the reservation by the input hash, once.
    method Bind(t: Tid, args: Args, cohort: Cohort) returns (ok: bool)
      requires Tracks() && At(t, args, Binding(cohort)) && lock.None? && reservation.Some?
      modifies this`reservation, this`events
      ensures Tracks() && Now().threads.Keys == old(Now().threads.Keys)
      ensures Evolves(old(Stored()), Stored())
      ensures ok <==> old(reservation.value.input.None? || reservation.value.input == Some(cohort.rows))
      ensures ok ==> reservation == Some(old(reservation.value).(input := Some(cohort.rows))) && At(t, args, Rereading(cohort))
      ensures !ok ==> reservation == old(reservation) && At(t, args, Stopped)
    {
      ghost var s := Now();
      RunKeepsInv(origin, events);
      if reservation.value.input.None? {
        reservation := Some(reservation.value.(input := Some(cohort.rows)));
      } else if reservation.value.input != Some(cohort.rows) {
        Record(Step(t, 0), s);
        return false;
      }
      Record(Step(t, 0), s);
      ok := true;
    }

    // Read the bound reservation again and install the snapshot; one that is already there must
    // be identical.
    method InstallSnapshot(t: Tid, args: Args, cohort: Cohort) returns (ok: bool)
      requires Tracks() && At(t, args, Rereading(cohort)) && reservation.Some?
      modifies this`snapshot, this`events
      ensures Tracks() && Now().threads.Keys == old(Now().threads.Keys)
      ensures ok <==> old(snapshot) in {None, Some(Snapshot(cohort, reservation.value))}
      ensures ok ==> snapshot == Some(Snapshot(cohort, reservation.value)) && At(t, args, Manifesting(cohort, reservation.value))
      ensures !ok ==> At(t, args, Stopped) && snapshot == old(snapshot)
    {
      hide Inv, Admissible, Run, Later;
      ghost var s0 := Now();
      var payload := Snapshot(cohort, reservation.value);
      Record(Step(t, 0), s0);
      ghost var s1 := Now();
      ok := snapshot.None? || snapshot.value == payload;
      if ok {
        snapshot := Some(payload);
      }
      Record(Step(t, 0), s1);
    }

    // Install the manifest in the same way.
    method InstallManifest(t: Tid, args: Args, cohort: Cohort, bound: Reservation) returns (ok: bool)
      requires Tracks() && At(t, args, Manifesting(cohort, bound))
      modifies this`manifest, this`events
      ensures Tracks() && Now().threads.Keys == old(Now().threads.Keys)
      ensures ok <==> old(manifest) in {None, Some(Manifest(bound, Snapshot(cohort, bound)))}
      ensures ok ==> manifest == Some(Manifest(bound, Snapshot(cohort, bound))) && At(t, args, Reading)
      ensures !ok ==> At(t, args, Stopped) && manifest == old(manifest)
    {
      hide Inv, Admissible, Run, Later;
      ghost var s := Now();
      var signed := Manifest(bound, Snapshot(cohort, bound));
      ok := manifest.None? || manifest.value == signed;
      if ok {
        manifest := Some(signed);
      }
      Record(Step(t, 0), s);
    }

    // Install the snapshot and then the manifest; files already there must be identical.
    method Publish(t: Tid, args: Args, cohort: Cohort) returns (ok: bool)
      requires Tracks() && At(t, args, Rereading(cohort)) && reservation.Some?
      modifies this`snapshot, this`manifest, this`events
      ensures Tracks() && Now().threads.Keys == old(Now().threads.Keys)
      ensures var sn := Snapshot(cohort, reservation.value);
              var mf := Manifest(reservation.value, sn);
              && (ok <==> old(snapshot) in {None, Some(sn)} && old(manifest) in {None, Some(mf)})
              && (ok ==> snapshot == Some(sn) && manifest == Some(mf) && At(t, args, Reading))
      ensures !ok ==> At(t, args, Stopped) && (old(manifest.None?) ==> Stored() == old(Stored()))
    {
      hide Inv, Admissible, Run, Later;
      ok := InstallSnapshot(t, args, cohort);
      if ok {
        ok := InstallManifest(t, args, cohort, reservation.value);
      }
    }

    // What an acquisition would read now.
    function Present(args: Args): Cohort
      reads this
    {
      Cohort(args.scope, args.window, source, select(source, args.window.cutoff))
    }

    // No evidence or ledger file was modified after `reservedAt`.
    predicate Settled(reservedAt: nat)
      reads this
    {
      source.bounded.modified <= reservedAt
    }

    // Acquire the cohort, check the boundary again, bind its hash and publish it: done exactly
    // when no file was modified after the reservation and the orphans of an earlier crash fit
    // what is acquired now.
    method Freeze(t: Tid, args: Args, now: nat) returns (ok: bool, ghost cohort: Cohort)
      requires Tracks() && At(t, args, Acquiring) && lock.None?
      requires Reservable(args) && reservation.Some? && !Complete(Stored())
      modifies this`reservation, this`boundary, this`snapshot, this`manifest, this`lock, this`events
      ensures Tracks() && lock.None? && Now().threads.Keys == old(Now().threads.Keys)
      ensures cohort == Present(args)
      ensures ok <==> old(Settled(reservation.value.phase1.reservedAt) && Fitting(Stored(), Present(args)))
      ensures ok ==> Stored() == FrozenFiles(old(Stored()), cohort) && At(t, args, Reading)
      ensures !ok ==> Stored() == old(Stored()) && At(t, args, Stopped)
    {
      hide Inv, Admissible, Run, Later;
      RunKeepsInv(origin, events);
      WrittenInOrder(Now());
      cohort := Present(args);
      var read := AcquireEvidence(t, args);
      if read.None? {
        return false, cohort;
      }
      var again := Reserve(t, args, read, now);
      ok := Bind(t, args, read.value);
      if ok {
        ok := Publish(t, args, read.value);
      }
    }

    // Read the sources. Files that were modified after the reservation are refused.
    method AcquireEvidence(t: Tid, args: Args) returns (cohort: Option<Cohort>)
      requires Tracks() && At(t, args, Acquiring) && reservation.Some?
      modifies this`events
      ensures Tracks() && Now().threads.Keys == old(Now().threads.Keys)
      ensures cohort == if Settled(reservation.value.phase1.reservedAt) then Some(Present(args)) else None
      ensures At(t, args, if cohort.Some? then Waiting(cohort) else Stopped)
    {
      hide Inv, Admissible, Run, Later;
      ghost var s := Now();
      cohort := None;
      if source.bounded.modified <= reservation.value.phase1.reservedAt {
        cohort := Some(Cohort(args.scope, args.window, source, select(source, args.window.cutoff)));
      }
      Record(Step(t, 0), s);
    }

    // Use the frozen files, or make them.
    method LoadOrFreeze(t: Tid, args: Args, now: nat) returns (result: Option<Cohort>)
      requires Tracks() && lock.None? && At(t, args, Loading) && Reservable(args) && reservation.Some?
      modifies this`reservation, this`boundary, this`snapshot, this`manifest, this`lock, this`events
      ensures Tracks() && lock.None?
      ensures result.Some? <==>
                old(Complete(Stored()) || (Settled(reservation.value.phase1.reservedAt) && Fitting(Stored(), Present(args))))
      ensures result.Some? ==> Finished(Now(), t, result.value) && Complete(Stored())
      ensures result.Some? ==> result.value == if old(Complete(Stored())) then old(snapshot.value.cohort) else Present(args)
      ensures result.None? ==> Stored() == old(Stored())
    {
      hide Inv, Admissible, Run, Later, Fitting, Authentic, Accepts;
      var frozen := snapshot.Some? && manifest.Some?;
      Load(t, args);
      if !frozen {
        var ok, cohort := Freeze(t, args, now);
        if !ok {
          return None;
        }
      }
      result := Read(t, args);
    }

    // The files are complete, or can be completed by a request made `now`.
    predicate Freezable(args: Args, now: nat)
      reads this
    {
      if reservation.None? then Settled(now)
      else Complete(Stored()) || (Settled(reservation.value.phase1.reservedAt) && Fitting(Stored(), Present(args)))
    }

    // One whole invocation with the store to itself. The first one freezes what the sources
    // hold now; one that finds complete files returns the frozen cohort; and one that finds an
    // earlier crash succeeds if what that left fits what it reads itself. None accepts files
    // that were modified after the reservation.
    method RunDaily(t: Tid, args: Args, now: nat) returns (result: Option<Cohort>)
      requires Tracks() && lock.None? && t !in Now().threads
      modifies this`reservation, this`boundary, this`snapshot, this`manifest, this`lock, this`events
      ensures Tracks() && lock.None?
      ensures result.Some? <==>
                old(Reservable(args) && Freezable(args, now))
      ensures result.Some? ==> Finished(Now(), t, result.value) && Complete(Stored())
      ensures result.Some? ==> result.value == if old(Complete(Stored())) then old(snapshot.value.cohort) else Present(args)
      ensures result.None? && old(reservation.Some?) ==> Stored() == old(Stored())
    {
      hide Inv, Admissible, Run, Later, Fitting, Authentic, Accepts, Finished;
      RunKeepsInv(origin, events);
      WrittenInOrder(Now());
      Begin(t, args);
      var window := Reserve(t, args, None, now);
      if window.None? {
        return None;
      }
      var bound := args.(window := window.value);
      if reservation.value.input.None? && snapshot.None? { NothingToFit(Stored(), Present(bound)); }
      result := LoadOrFreeze(t, bound, now);
    }

    // Decide whether the frozen files are used or still to be made.
    method Load(t: Tid, args: Args)
      requires Tracks() && At(t, args, Loading)
      modifies this`events
      ensures Tracks() && Now().threads.Keys == old(Now().threads.Keys)
      ensures At(t, args, if Complete(Stored()) then Reading else Acquiring)
    {
      hide Inv, Admissible, Run, Later;
      ghost var s := Now();
      Record(Step(t, 0), s);
    }

    // Authenticate the frozen files and return their cohort. In a run of the protocol the
    // checks can only fail over the scope.
    method Read(t: Tid, args: Args) returns (result: Option<Cohort>)
      requires Tracks() && At(t, args, Reading)
      modifies this`events
      ensures Tracks() && Now().threads.Keys == old(Now().threads.Keys)
      ensures result == if Authentic(Stored(), args) then Some(snapshot.value.cohort) else None
      ensures Complete(Stored()) ==> (result.Some? <==> reservation.Some? && reservation.value.phase1.scope == args.scope)
      ensures result.Some? ==> Finished(Now(), t, result.value)
    {
      RunKeepsInv(origin, events);
      if Complete(Stored()) { CompleteIsAuthentic(Now(), args); }
      hide Inv, Admissible, Run, Later;
      ghost var s := Now();
      result := None;
      if reservation.Some? && snapshot.Some? && manifest.Some? {
        var bound, body, signed := reservation.value, snapshot.value, manifest.value;
        var cohort := body.cohort;
        if bound.phase1.scope == args.scope && signed.reservation == bound && signed.snapshot == body
           && cohort.scope == args.scope && bound.phase1.window == cohort.window && bound.input == Some(cohort.rows)
           && body.reservation == bound
        {
          result := Some(cohort);
        }
      }
      Record(Step(t, 0), s);
    }
  }

  // Each file is written only after the ones before it.
  lemma WrittenInOrder(s: State)
    requires Inv(s)
    ensures var f := s.files;
            && (f.boundary.Some? ==> f.reservation.Some?) && (f.manifest.Some? ==> f.snapshot.Some?)
            && (f.snapshot.Some? ==> f.boundary.Some? && f.reservation.value.input.Some?)
  {
  }

  // With nothing bound or installed, everything fits.
  lemma NothingToFit(f: Files, c: Cohort)
    requires f.reservation.Some? && f.reservation.value.input.None? && f.snapshot.None?
    ensures Fitting(f, c)
  {
  }

  // What an interrupted invocation left fits an acquisition made now exactly when that reads
  // the bound rows again and, if a snapshot was installed, from the very same sources.
  lemma OrphansMatch(s: State)
    requires Inv(s) && s.files.reservation.Some? && s.files.boundary.Some?
    requires s.files.boundary.value.bounded == s.source.bounded
    ensures
      var f, p1 := s.files, s.files.reservation.value.phase1;
      var c := Cohort(p1.scope, p1.window, s.source, s.select(s.source, p1.window.cutoff));
      && (f.reservation.value.input.Some? ==> s.history.bound.Some?)
      && (Fitting(f, c) <==>
            && (f.reservation.value.input.Some? ==> s.history.bound.value.rows == c.rows)
            && (f.snapshot.Some? ==> f.snapshot.value.cohort.source == s.source))
      && (f.manifest.Some? ==> f.snapshot.Some?)
  {
  }

  // Whatever is on disk, the reader accepts under one signed manifest only one reservation and
  // one cohort, which is of the scope asked for, of the reserved window and of the bound rows.
  lemma ManifestDetermines(f: Files, g: Files, a: Args, b: Args)
    requires Authentic(f, a) && Authentic(g, b) && f.manifest == g.manifest
    ensures f.reservation == g.reservation && f.snapshot == g.snapshot
    ensures var p1, cohort := f.reservation.value.phase1, f.snapshot.value.cohort;
            && p1.scope == cohort.scope == a.scope == b.scope && p1.window == cohort.window
            && f.reservation.value.input == Some(cohort.rows)
            && f.snapshot.value.reservation == f.reservation.value == f.manifest.value.reservation
  {
  }

  // The checks of the reader are implied by the protocol, up to the scope asked for.
  lemma CompleteIsAuthentic(s: State, args: Args)
    requires Inv(s) && Complete(s.files)
    ensures s.files.reservation.Some?
    ensures Authentic(s.files, args) <==> s.files.reservation.value.phase1.scope == args.scope
  {
  }

  lemma {:induction false} RunConcat(s: State, es: seq<Event>, e: Event)
    requires Admissible(s, es) && Possible(Run(s, es), e)
    ensures Admissible(s, es + [e]) && Run(s, es + [e]) == Apply(Run(s, es), e)
    decreases |es|
  {
    if es == [] {
      assert Admissible(Apply(s, e), []) && Run(Apply(s, e), []) == Apply(s, e);
      assert ([] + [e])[1..] == [];
    } else {
      RunConcat(Apply(s, es[0]), es[1..], e);
      assert (es + [e])[0] == es[0] && (es + [e])[1..] == es[1..] + [e];
    }
  }

  function NewReservation(args: Args, now: nat): Reservation {
    Reservation(Phase1(now, args.scope, args.window), None)
  }
}
