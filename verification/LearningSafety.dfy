/**
  What every interleaving of invocations, crashes and growing sources keeps, and why a
  retry can only reproduce the frozen cohort.
 */
module LearningSafety {
  import opened Wrappers
  import opened LearningProtocol

  // ---------- The invariant ----------

  // An acquisition that the boundary allows: the reserved scope and window, the bounded part
  // of the source as the boundary has it, and no file modified after the reservation.
  ghost predicate Kept(s: State, c: Cohort) {
    var f := s.files;
    && f.reservation.Some? && f.boundary.Some?
    && c.scope == f.reservation.value.phase1.scope && c.window == f.reservation.value.phase1.window
    && c.rows == s.select(c.source, c.window.cutoff) && c.source.bounded == f.boundary.value.bounded
    && c.source.bounded.modified <= f.reservation.value.phase1.reservedAt
  }

  ghost predicate FilesInv(s: State) {
    var f := s.files;
    && (f.boundary.Some? ==>
          && f.reservation.Some? && f.boundary.value.reservation == f.reservation.value.phase1
          && NoLater(f.boundary.value.bounded, s.source.bounded)
          && s.history.recorded.Some? && s.history.recorded.value.bounded == f.boundary.value.bounded)
    && (f.reservation.Some? && f.reservation.value.input.Some? ==>
          && s.history.bound.Some? && Kept(s, s.history.bound.value)
          && f.reservation.value.input == Some(s.history.bound.value.rows))
    && (f.snapshot.Some? ==>
          && f.reservation.Some? && Kept(s, f.snapshot.value.cohort) && f.snapshot.value.reservation == f.reservation.value
          && f.reservation.value.input == Some(f.snapshot.value.cohort.rows))
    && (f.manifest.Some? ==>
          f.snapshot.Some? && f.manifest.value == Manifest(f.reservation.value, f.snapshot.value))
  }

  // Observed no later than `now`; equal generations mean equal contents.
  predicate NoLater(past: Bounded, now: Bounded) {
    past.generation <= now.generation && (past.generation == now.generation ==> past == now)
  }

  ghost predicate Holds(pc: Pc) {
    pc.Reserving? || pc.Checking? || pc.Bounding? || pc.Verifying?
  }

  // A cohort read after the boundary was recorded.
  ghost predicate ReadSince(s: State, c: Cohort) {
    var f := s.files;
    && f.reservation.Some? && f.boundary.Some?
    && c.scope == f.reservation.value.phase1.scope && c.window == f.reservation.value.phase1.window
    && c.rows == s.select(c.source, c.window.cutoff) && c.source.bounded.modified <= f.reservation.value.phase1.reservedAt
    && NoLater(f.boundary.value.bounded, c.source.bounded) && NoLater(c.source.bounded, s.source.bounded)
  }

  ghost predicate Reserved(s: State, args: Args) {
    s.files.reservation.Some? && s.files.boundary.Some? && s.files.reservation.value.phase1.scope == args.scope
  }

  // Either the boundary allows the cohort, or a cohort is already published.
  ghost predicate MayPublish(s: State, c: Cohort) {
    ReadSince(s, c) && (Kept(s, c) || Complete(s.files))
  }

  ghost predicate PcInv(s: State, th: Thread) {
    var f := s.files;
    && (th.pc.Waiting? || th.pc.Reserving? || th.pc.Checking? || th.pc.Bounding? || th.pc.Verifying? ==>
          th.pc.held.Some? ==> ReadSince(s, th.pc.held.value))
    && match th.pc
       case Checking(_, _) => f.reservation.Some?
       case Bounding(_, _, frozen) => f.reservation.Some? && Checked(s, th.args, frozen)
       case Verifying(_, frozen) => f.boundary.Some? && Checked(s, th.args, frozen)
       case Loading => Reserved(s, th.args) && th.args.window == f.reservation.value.phase1.window
       case Acquiring => Reserved(s, th.args) && th.args.window == f.reservation.value.phase1.window
       case Binding(c) => MayPublish(s, c)
       case Rereading(c) => MayPublish(s, c) && f.reservation.value.input == Some(c.rows)
       case Publishing(c, r) => MayPublish(s, c) && f.reservation == Some(r) && r.input == Some(c.rows)
       case Manifesting(c, r) =>
         MayPublish(s, c) && f.reservation == Some(r) && f.snapshot == Some(Snapshot(c, r))
       case Done(c) => Complete(f) && c == f.snapshot.value.cohort
       case _ => true
  }

  ghost predicate Checked(s: State, args: Args, frozen: bool) {
    && s.files.reservation.Some? && s.files.reservation.value.phase1.scope == args.scope
    && (if frozen then Complete(s.files) else s.files.reservation.value.phase1.window == args.window)
  }

  ghost predicate Inv(s: State) {
    && FilesInv(s)
    && (forall t | t in s.threads :: Holds(s.threads[t].pc) <==> s.lock == Some(t))
    && (s.lock.Some? ==> s.lock.value in s.threads)
    && (forall t | t in s.threads :: PcInv(s, s.threads[t]))
  }

  // ---------- One step ----------

  // The reservation is written once and extended at most once; the boundary, the snapshot
  // and the manifest are written once.
  ghost predicate Evolves(f: Files, g: Files) {
    && (f.reservation.Some? ==>
          && g.reservation.Some? && g.reservation.value.phase1 == f.reservation.value.phase1
          && (f.reservation.value.input.Some? ==> g.reservation.value.input == f.reservation.value.input))
    && (f.boundary.Some? ==> g.boundary == f.boundary)
    && (f.snapshot.Some? ==> g.snapshot == f.snapshot)
    && (f.manifest.Some? ==> g.manifest == f.manifest)
  }

  ghost predicate Later(s: State, s': State) {
    && s'.select == s.select && Evolves(s.files, s'.files) && NoLater(s.source.bounded, s'.source.bounded)
    && (s.files.boundary.Some? ==> s'.history.recorded == s.history.recorded)
    && (s.files.reservation.Some? && s.files.reservation.value.input.Some? ==> s'.history.bound == s.history.bound)
  }

  lemma OthersKeep(s: State, s': State, th: Thread)
    requires FilesInv(s) && PcInv(s, th) && Later(s, s')
    ensures PcInv(s', th)
  {
  }

  // The invocation's own part of a step: it moves the files forward and lands in a state
  // its next step can rely on.
  ghost predicate Sound(s: State, e: Effect) {
    var s' := s.(files := e.files, history := e.history);
    Later(s, s') && FilesInv(s') && PcInv(s', e.thread)
  }

  lemma ReserveSound(s: State, t: Tid, th: Thread, now: nat)
    requires FilesInv(s) && PcInv(s, th)
    requires th.pc.Waiting? || th.pc.Reserving? || th.pc.Checking?
    ensures Sound(s, Next(s, t, th, now))
  {
  }

  lemma BoundarySound(s: State, t: Tid, th: Thread, now: nat)
    requires FilesInv(s) && PcInv(s, th)
    requires th.pc.Bounding? || th.pc.Verifying?
    ensures Sound(s, Next(s, t, th, now))
  {
  }

  lemma AcquireSound(s: State, t: Tid, th: Thread, now: nat)
    requires FilesInv(s) && PcInv(s, th)
    requires th.pc.Loading? || th.pc.Acquiring? || th.pc.Reading? || th.pc.Done? || th.pc.Stopped?
    ensures Sound(s, Next(s, t, th, now))
  {
  }

  lemma BindSound(s: State, t: Tid, th: Thread, now: nat)
    requires FilesInv(s) && PcInv(s, th)
    requires th.pc.Binding? || th.pc.Rereading?
    ensures Sound(s, Next(s, t, th, now))
  {
  }

  lemma PublishSound(s: State, t: Tid, th: Thread, now: nat)
    requires FilesInv(s) && PcInv(s, th)
    requires th.pc.Publishing? || th.pc.Manifesting?
    ensures Sound(s, Next(s, t, th, now))
  {
  }

  lemma StepSound(s: State, t: Tid, th: Thread, now: nat)
    requires FilesInv(s) && PcInv(s, th)
    ensures Sound(s, Next(s, t, th, now))
  {
    hide *;
    if th.pc.Waiting? || th.pc.Reserving? || th.pc.Checking? {
      ReserveSound(s, t, th, now);
    } else if th.pc.Bounding? || th.pc.Verifying? {
      BoundarySound(s, t, th, now);
    } else if th.pc.Binding? || th.pc.Rereading? {
      BindSound(s, t, th, now);
    } else if th.pc.Publishing? || th.pc.Manifesting? {
      PublishSound(s, t, th, now);
    } else {
      AcquireSound(s, t, th, now);
    }
  }

  lemma StepKeepsLock(s: State, t: Tid, th: Thread, now: nat)
    requires Holds(th.pc) <==> s.lock == Some(t)
    ensures var e := Next(s, t, th, now);
            && (Holds(e.thread.pc) <==> e.lock == Some(t))
            && (e.lock == s.lock || (s.lock == None && e.lock == Some(t)) || (s.lock == Some(t) && e.lock == None))
  {
  }

  lemma CommitKeepsInv(s: State, t: Tid, e: Effect)
    requires Inv(s) && t in s.threads
    requires Sound(s, e)
    requires Holds(e.thread.pc) <==> e.lock == Some(t)
    requires e.lock == s.lock || (s.lock == None && e.lock == Some(t)) || (s.lock == Some(t) && e.lock == None)
    ensures Inv(Commit(s, t, e)) && Later(s, Commit(s, t, e))
  {
    var s', mid := Commit(s, t, e), s.(files := e.files, history := e.history);
    SameFiles(mid, s', e.thread);
    forall u | u in s'.threads ensures PcInv(s', s'.threads[u]) && (Holds(s'.threads[u].pc) <==> s'.lock == Some(u)) {
      if u != t { OthersKeep(s, s', s.threads[u]); }
    }
  }

  lemma SameFiles(s: State, s': State, th: Thread)
    requires s'.files == s.files && s'.select == s.select && s'.source == s.source && s'.history == s.history
    ensures FilesInv(s') == FilesInv(s) && PcInv(s', th) == PcInv(s, th)
  {
  }

  // Every event of every run keeps the invariant, and changes the files only forward.
  lemma EventKeepsInv(s: State, e: Event)
    requires Inv(s) && Possible(s, e)
    ensures Inv(Apply(s, e)) && Later(s, Apply(s, e))
  {
    var s' := Apply(s, e);
    match e
    case Step(t, now) =>
      StepSound(s, t, s.threads[t], now);
      StepKeepsLock(s, t, s.threads[t], now);
      CommitKeepsInv(s, t, Next(s, t, s.threads[t], now));
    case Stop(t) =>
      SameFiles(s, s.(files := s.files), s.threads[t]);
      CommitKeepsInv(s, t, Leave(s, t, s.threads[t], Stopped));
    case Grow(source) =>
      forall u | u in s'.threads ensures PcInv(s', s'.threads[u]) {
        OthersKeep(s, s', s.threads[u]);
      }
    case Start(t, args) =>
      forall u | u in s'.threads ensures PcInv(s', s'.threads[u]) {
        if u != t { SameFiles(s, s', s.threads[u]); }
      }
  }

  lemma LaterIsTransitive(a: State, b: State, c: State)
    requires Later(a, b) && Later(b, c)
    ensures Later(a, c)
  {
  }

  lemma {:induction false} RunKeepsInv(s: State, es: seq<Event>)
    requires Inv(s) && Admissible(s, es)
    ensures Inv(Run(s, es)) && Later(s, Run(s, es))
    decreases |es|
  {
    if es != [] {
      EventKeepsInv(s, es[0]);
      RunKeepsInv(Apply(s, es[0]), es[1..]);
      LaterIsTransitive(s, Apply(s, es[0]), Run(s, es));
    }
  }

  // ---------- Whole runs ----------

  lemma InitialInv(select: (Source, string) -> Rows, source: Source)
    ensures Inv(Initial(select, source))
  {
  }

  // Over every interleaving of invocations, crashes and growing sources: the input hash
  // changes at most once, from unbound to one value; the boundary names the phase-1
  // reservation before and after binding; an installed manifest names the bound one.
  lemma ProtocolInvariant(select: (Source, string) -> Rows, source: Source, es: seq<Event>, more: seq<Event>)
    requires Admissible(Initial(select, source), es)
    requires Admissible(Run(Initial(select, source), es), more)
    ensures
      var a := Run(Initial(select, source), es);
      var f, g := a.files, Run(a, more).files;
      && Evolves(f, g)
      && (g.boundary.Some? ==> g.reservation.Some? && g.boundary.value.reservation == g.reservation.value.phase1)
      && (g.manifest.Some? ==>
            && g.reservation.Some? && g.reservation.value.input.Some?
            && g.manifest.value.reservation == g.reservation.value
            && g.snapshot == Some(g.manifest.value.snapshot))
  {
    InitialInv(select, source);
    RunKeepsInv(Initial(select, source), es);
    RunKeepsInv(Run(Initial(select, source), es), more);
  }

  ghost predicate Finished(s: State, t: Tid, c: Cohort) {
    t in s.threads && s.threads[t].pc == Done(c)
  }

  // What the sources held when the boundary was recorded, up to the reserved cutoff.
  ghost function BoundaryCohort(s: State): Cohort
    requires s.files.reservation.Some? && s.history.recorded.Some?
  {
    var p1, source := s.files.reservation.value.phase1, s.history.recorded.value;
    Cohort(p1.scope, p1.window, source, s.select(source, p1.window.cutoff))
  }

  // From the moment the boundary exists, whatever is ever frozen or returned has the reserved
  // scope and window, the bounded part of the source as the boundary has it, and the rows of
  // the one acquisition whose hash was bound; whatever crashes in between, whatever window a
  // retry asks for and however the sources have grown. Once the files are complete it is the
  // frozen cohort itself.
  lemma OnlyTheFrozenCohort(select: (Source, string) -> Rows, source: Source, es: seq<Event>, more: seq<Event>, t: Tid, c: Cohort)
    requires Admissible(Initial(select, source), es)
    requires Admissible(Run(Initial(select, source), es), more)
    ensures
      var a := Run(Initial(select, source), es);
      var b := Run(a, more);
      && (a.files.boundary.Some? ==>
            && (b.files.snapshot.Some? ==> Kept(a, b.files.snapshot.value.cohort))
            && (Finished(b, t, c) ==>
                  && Kept(a, c) && b.history.bound.Some? && Kept(a, b.history.bound.value)
                  && c.rows == b.history.bound.value.rows))
      && (Complete(a.files) && Finished(b, t, c) ==> c == a.files.snapshot.value.cohort)
  {
    var a := Run(Initial(select, source), es);
    InitialInv(select, source);
    RunKeepsInv(Initial(select, source), es);
    RunKeepsInv(a, more);
    if t in Run(a, more).threads { assert PcInv(Run(a, more), Run(a, more).threads[t]); }
  }

  // Whatever is on disk, an invocation goes past the boundary only if that names the stored
  // reservation, and without frozen files only if the bounded sources are those of the
  // boundary. Otherwise it stops; and it changes no file.
  lemma BoundaryIsChecked(s: State, t: Tid, th: Thread, now: nat)
    requires th.pc.Verifying?
    ensures var e := Next(s, t, th, now); var f := s.files;
            && e.files == f
            && (e.thread.pc != Stopped <==>
                  && f.reservation.Some? && f.boundary.Some? && f.boundary.value.reservation == f.reservation.value.phase1
                  && (th.pc.frozen || f.boundary.value.bounded == s.source.bounded))
  {
  }

  // So a success returns the cohort of the boundary exactly when the part of the source that
  // the boundary leaves open had the same content at its acquisition; and its rows are those
  // of the boundary exactly when the acquisition whose hash was bound read the same rows.
  lemma BoundaryCohortIff(select: (Source, string) -> Rows, source: Source, es: seq<Event>, t: Tid, c: Cohort)
    requires Admissible(Initial(select, source), es) && Finished(Run(Initial(select, source), es), t, c)
    ensures
      var s := Run(Initial(select, source), es);
      && s.files.reservation.Some? && s.history.recorded.Some? && s.history.bound.Some?
      && var was, bound := BoundaryCohort(s), s.history.bound.value;
         && (c == was <==> c.source.open == s.history.recorded.value.open)
         && (bound == was <==> bound.source.open == s.history.recorded.value.open)
         && (c.rows == was.rows <==> bound.rows == was.rows)
         && (bound.source.open == s.history.recorded.value.open ==> c.rows == was.rows)
  {
    var s := Run(Initial(select, source), es);
    InitialInv(select, source);
    RunKeepsInv(Initial(select, source), es);
    assert PcInv(s, s.threads[t]);
    SameSource(s, c);
    SameSource(s, s.history.bound.value);
  }

  lemma SameSource(s: State, c: Cohort)
    requires FilesInv(s) && Kept(s, c)
    ensures s.history.recorded.Some? && (c == BoundaryCohort(s) <==> c.source.open == s.history.recorded.value.open)
  {
    assert c.source == Source(c.source.bounded, c.source.open);
  }

  // Where different open contents always give different rows, the bound acquisition decides:
  // a success returns the cohort of the boundary exactly when the open part did not change
  // between the boundary and that acquisition.
  lemma BoundAcquisitionDecides(select: (Source, string) -> Rows, source: Source, es: seq<Event>, t: Tid, c: Cohort)
    requires Admissible(Initial(select, source), es) && Finished(Run(Initial(select, source), es), t, c)
    requires forall b: Bounded, u, v, cutoff :: select(Source(b, u), cutoff) == select(Source(b, v), cutoff) ==> u == v
    ensures
      var s := Run(Initial(select, source), es);
      && s.files.reservation.Some? && s.history.recorded.Some? && s.history.bound.Some?
      && c == s.history.bound.value
      && (c == BoundaryCohort(s) <==> s.history.bound.value.source.open == s.history.recorded.value.open)
  {
    var s := Run(Initial(select, source), es);
    BoundaryCohortIff(select, source, es, t, c);
    InitialInv(select, source);
    RunKeepsInv(Initial(select, source), es);
    assert PcInv(s, s.threads[t]);
    var bound := s.history.bound.value;
    assert c.source == Source(c.source.bounded, c.source.open) && bound.source == Source(c.source.bounded, bound.source.open);
  }
}
