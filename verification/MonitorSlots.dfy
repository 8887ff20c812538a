/**
  The schedule of the monitor loop: slots a fixed interval apart, of which every one is
  either worked or recorded as a gap. Times are integer ticks.
 */
module MonitorSlots {
  // ---------- One iteration ----------

  // The slots from `due` on that have been overdue for a whole interval at `observed`.
  function Missed(due: int, observed: int, interval: int): seq<int>
    requires interval > 0
    decreases observed - due
  {
    if due + interval <= observed then [due] + Missed(due + interval, observed, interval) else []
  }

  // The newest slot that is due, or the first one still to come.
  function Pending(due: int, observed: int, interval: int): int
    requires interval > 0
    decreases observed - due
  {
    if due + interval <= observed then Pending(due + interval, observed, interval) else due
  }

  // The gap loop: one receipt a missed slot, if gap persistence is on.
  method RecordGaps(firstDue: int, observed: int, interval: int, persist: bool) returns (receipts: seq<int>)
    requires interval > 0
    ensures receipts == if persist then Missed(firstDue, observed, interval) else []
  {
    receipts := [];
    if !persist {
      return;
    }
    var due := firstDue;
    while due + interval <= observed
      invariant receipts + Missed(due, observed, interval) == Missed(firstDue, observed, interval)
      decreases observed - due
    {
      receipts := receipts + [due];
      due := due + interval;
    }
  }

  // The loop that moves the schedule on.
  method Advance(due: int, observed: int, interval: int) returns (next: int)
    requires interval > 0
    ensures next == Pending(due, observed, interval)
  {
    next := due;
    while next + interval <= observed
      invariant Pending(next, observed, interval) == Pending(due, observed, interval)
      decreases observed - next
    {
      next := next + interval;
    }
  }

  // ---------- The loop ----------

  datatype Schedule = Schedule(next: int, worked: seq<int>, gaps: seq<int>)

  // One pass: work the pending slot, then settle every slot that the work overran.
  function Pass(s: Schedule, observed: int, interval: int, persist: bool): Schedule
    requires interval > 0
  {
    var due := s.next + interval;
    Schedule(Pending(due, observed, interval), s.worked + [s.next],
             s.gaps + if persist then Missed(due, observed, interval) else [])
  }

  // The clock readings after each pass decide everything.
  function Passes(s: Schedule, observations: seq<int>, interval: int, persist: bool): Schedule
    requires interval > 0
    decreases |observations|
  {
    if observations == [] then s
    else Pass(Passes(s, observations[..|observations| - 1], interval, persist),
              observations[|observations| - 1], interval, persist)
  }

  method RunLoop(start: int, observations: seq<int>, interval: int, persist: bool) returns (s: Schedule)
    requires interval > 0
    ensures s == Passes(Schedule(start, [], []), observations, interval, persist)
  {
    s := Schedule(start, [], []);
    for i := 0 to |observations|
      invariant s == Passes(Schedule(start, [], []), observations[..i], interval, persist)
    {
      assert observations[..i + 1][..i] == observations[..i];
      var due := s.next + interval;
      var receipts := RecordGaps(due, observations[i], interval, persist);
      var next := Advance(due, observations[i], interval);
      s := Schedule(next, s.worked + [s.next], s.gaps + receipts);
    }
    assert observations[..|observations|] == observations;
  }

  // ---------- Every slot exactly once ----------

  // The slots from `first` up to but not including `end`.
  function SlotsUpTo(first: int, end: int, interval: int): seq<int>
    requires interval > 0
    decreases end - first
  {
    if first < end then [first] + SlotsUpTo(first + interval, end, interval) else []
  }

  lemma {:induction false} SlotsAreTheSchedule(first: int, end: int, interval: int, k: nat)
    requires interval > 0
    ensures k < |SlotsUpTo(first, end, interval)| <==> first + k * interval < end
    ensures k < |SlotsUpTo(first, end, interval)| ==> SlotsUpTo(first, end, interval)[k] == first + k * interval
    decreases k
  {
    if k > 0 {
      assert k * interval == (k - 1) * interval + interval;
      if first < end {
        SlotsAreTheSchedule(first + interval, end, interval, k - 1);
      } else {
        Positive(k, interval);
      }
    }
  }

  lemma Positive(k: nat, interval: int)
    requires interval > 0
    ensures k * interval >= 0
  {
  }

  // The two loops stop at the same slot: the gaps are exactly the slots that are skipped.
  lemma {:induction false} LoopsAgree(due: int, observed: int, interval: int)
    requires interval > 0
    ensures Missed(due, observed, interval) == SlotsUpTo(due, Pending(due, observed, interval), interval)
    ensures due <= Pending(due, observed, interval) && Pending(due, observed, interval) + interval > observed
    ensures Pending(due, observed, interval) > due ==> Pending(due, observed, interval) <= observed
    decreases observed - due
  {
    if due + interval <= observed { LoopsAgree(due + interval, observed, interval); }
  }

  // `next` is a slot of the schedule that starts at `first`.
  predicate OnSchedule(first: int, next: int, interval: int)
    requires interval > 0
    decreases next - first
  {
    next == first || (first < next && OnSchedule(first + interval, next, interval))
  }

  lemma {:induction false} PendingOnSchedule(due: int, observed: int, interval: int)
    requires interval > 0
    ensures OnSchedule(due, Pending(due, observed, interval), interval)
    decreases observed - due
  {
    if due + interval <= observed {
      PendingOnSchedule(due + interval, observed, interval);
      LoopsAgree(due + interval, observed, interval);
    }
  }

  lemma {:induction false} ScheduleJoins(a: int, b: int, c: int, interval: int)
    requires interval > 0 && OnSchedule(a, b, interval) && b <= c
    ensures SlotsUpTo(a, b, interval) + SlotsUpTo(b, c, interval) == SlotsUpTo(a, c, interval)
    ensures OnSchedule(b, c, interval) ==> OnSchedule(a, c, interval)
    decreases b - a
  {
    if a < b { ScheduleJoins(a + interval, b, c, interval); }
  }

  // Worked and recorded slots together are the slots before the pending one.
  ghost predicate Accounted(start: int, s: Schedule, interval: int)
    requires interval > 0
  {
    && multiset(s.worked) + multiset(s.gaps) == multiset(SlotsUpTo(start, s.next, interval))
    && OnSchedule(start, s.next, interval) && s.next >= start
  }

  lemma Regroup(worked: seq<int>, gaps: seq<int>, past: seq<int>, slot: int, missed: seq<int>)
    requires multiset(worked) + multiset(gaps) == multiset(past)
    ensures multiset(worked + [slot]) + multiset(gaps + missed) == multiset(past + ([slot] + missed))
  {
    assert multiset(past + ([slot] + missed)) == multiset(past) + multiset{slot} + multiset(missed);
  }

  // The slots of one pass: the worked one, then the missed ones.
  lemma PassSlots(next: int, observed: int, interval: int)
    requires interval > 0
    ensures var end := Pending(next + interval, observed, interval);
            && SlotsUpTo(next, end, interval) == [next] + Missed(next + interval, observed, interval)
            && OnSchedule(next, end, interval) && end >= next
  {
    LoopsAgree(next + interval, observed, interval);
    PendingOnSchedule(next + interval, observed, interval);
  }

  lemma PassAccounts(start: int, s: Schedule, observed: int, interval: int)
    requires interval > 0 && Accounted(start, s, interval)
    ensures Accounted(start, Pass(s, observed, interval, true), interval)
  {
    hide SlotsUpTo, Missed, Pending, OnSchedule;
    var gaps := Missed(s.next + interval, observed, interval);
    PassSlots(s.next, observed, interval);
    ScheduleJoins(start, s.next, Pending(s.next + interval, observed, interval), interval);
    Regroup(s.worked, s.gaps, SlotsUpTo(start, s.next, interval), s.next, gaps);
  }

  lemma NothingYet(start: int, interval: int)
    requires interval > 0
    ensures Accounted(start, Schedule(start, [], []), interval)
  {
  }

  // Whatever the work durations, with gap receipts on every slot before the final pending
  // one is worked or recorded, once; and at most one overdue slot is left pending.
  lemma {:induction false} EverySlotOnce(start: int, observations: seq<int>, interval: int)
    requires interval > 0
    ensures var s := Passes(Schedule(start, [], []), observations, interval, true);
            && Accounted(start, s, interval)
            && (observations != [] ==> s.next + interval > observations[|observations| - 1])
    decreases |observations|
  {
    hide SlotsUpTo, Missed, Pending, OnSchedule, Accounted;
    if observations == [] {
      NothingYet(start, interval);
    } else {
      var before, observed := observations[..|observations| - 1], observations[|observations| - 1];
      var s := Passes(Schedule(start, [], []), before, interval, true);
      EverySlotOnce(start, before, interval);
      PassAccounts(start, s, observed, interval);
      LoopsAgree(s.next + interval, observed, interval);
    }
  }

  // No slot occurs twice, so the receipts and the work are disjoint.
  lemma SlotsAreDistinct(first: int, end: int, interval: int, j: nat, k: nat)
    requires interval > 0 && j < k < |SlotsUpTo(first, end, interval)|
    ensures SlotsUpTo(first, end, interval)[j] < SlotsUpTo(first, end, interval)[k]
  {
    SlotsAreTheSchedule(first, end, interval, j);
    SlotsAreTheSchedule(first, end, interval, k);
    assert (k - j) * interval == k * interval - j * interval;
  }

  // With gap receipts off, a slot is lost exactly when some pass overran a whole interval.
  lemma {:induction false} WithoutReceipts(start: int, observations: seq<int>, interval: int)
    requires interval > 0
    ensures var s := Passes(Schedule(start, [], []), observations, interval, false);
            && s.gaps == [] && |s.worked| == |observations|
            && s.next >= start + |observations| * interval
            && (s.next == start + |observations| * interval
                <==> forall i :: 0 <= i < |observations| ==> InTime(start, observations, i, interval))
    decreases |observations|
  {
    var n := |observations|;
    if n > 0 {
      var before, observed := observations[..n - 1], observations[n - 1];
      WithoutReceipts(start, before, interval);
      var s := Passes(Schedule(start, [], []), before, interval, false);
      hide Pending, Missed;
      PendingStays(s.next + interval, observed, interval);
      Multiples(n, interval);
      forall i | 0 <= i < n - 1 ensures InTime(start, observations, i, interval) == InTime(start, before, i, interval) {}
      assert InTime(start, observations, n - 1, interval) <==> observed < start + n * interval + interval;
      hide InTime;
    }
  }

  lemma PendingStays(due: int, observed: int, interval: int)
    requires interval > 0
    ensures Pending(due, observed, interval) >= due
    ensures Pending(due, observed, interval) == due <==> observed < due + interval
  {
    if due + interval <= observed { LoopsAgree(due + interval, observed, interval); }
  }

  lemma Multiples(n: nat, interval: int)
    ensures n * interval == (n - 1) * interval + interval
    ensures (n - 1 + 2) * interval == n * interval + interval
  {
  }

  // Pass i was over before a whole interval had gone by after its successor's slot.
  predicate InTime(start: int, observations: seq<int>, i: nat, interval: int)
    requires i < |observations|
  {
    observations[i] < start + (i + 2) * interval
  }
}
