/**
  The lists of one scan: candidates sorted by score, ranked, and cut to length.
 */
module Ranking {
  // A scored row, as far as ranking looks at it; `row` tells equal ones apart.
  datatype Candidate = Candidate(row: nat, score: real, dollarVolume: real, avoid: bool)
  datatype Ranked = Ranked(rank: nat, candidate: Candidate)

  datatype Config = Config(topN: nat, explosiveThreshold: real, explosiveTopN: nat)
  datatype Scan = Scan(all: seq<Ranked>, ranked: seq<Ranked>, explosive: seq<Ranked>, avoid: seq<Ranked>)

  // ---------- Sorting ----------

  // Candidates with the same key stay in order.
  datatype Key = Key(primary: real, secondary: real)

  predicate Above(a: Key, b: Key)
  {
    a.primary > b.primary || (a.primary == b.primary && a.secondary > b.secondary)
  }

  function ByScoreAndVolume(c: Candidate): Key { Key(c.score, c.dollarVolume) }

  function ByScore(c: Candidate): Key { Key(c.score, 0.0) }

  function Insert(c: Candidate, sorted: seq<Candidate>, key: Candidate -> Key): seq<Candidate>
  {
    if sorted == [] || !Above(key(sorted[0]), key(c)) then [c] + sorted
    else [sorted[0]] + Insert(c, sorted[1..], key)
  }

  // sorted(..., reverse=True)
  function SortDescending(s: seq<Candidate>, key: Candidate -> Key): seq<Candidate>
  {
    if s == [] then [] else Insert(s[0], SortDescending(s[1..], key), key)
  }

  function WithAvoid(s: seq<Candidate>, avoid: bool): seq<Candidate>
  {
    if s == [] then [] else (if s[0].avoid == avoid then [s[0]] else []) + WithAvoid(s[1..], avoid)
  }

  function AssignRanks(s: seq<Candidate>): (r: seq<Ranked>)
    ensures |r| == |s| && forall i :: 0 <= i < |s| ==> r[i] == Ranked(i + 1, s[i])
  {
    seq(|s|, i requires 0 <= i < |s| => Ranked(i + 1, s[i]))
  }

  function AtLeast(s: seq<Ranked>, threshold: real): seq<Ranked>
  {
    if s == [] then []
    else (if s[0].candidate.score >= threshold then [s[0]] else []) + AtLeast(s[1..], threshold)
  }

  function Take<T>(s: seq<T>, n: nat): seq<T>
  {
    if n <= |s| then s[..n] else s
  }

  function RankedInFull(scored: seq<Candidate>): seq<Ranked>
  {
    AssignRanks(SortDescending(WithAvoid(scored, false), ByScoreAndVolume))
  }

  function ScoreUniverse(scored: seq<Candidate>, c: Config): Scan
  {
    var ranked := RankedInFull(scored);
    Scan(AssignRanks(SortDescending(scored, ByScore)), Take(ranked, c.topN),
         Take(AtLeast(ranked, c.explosiveThreshold), c.explosiveTopN),
         AssignRanks(SortDescending(WithAvoid(scored, true), ByScoreAndVolume)))
  }

  // ---------- The sort sorts ----------

  ghost predicate Descending(s: seq<Candidate>, key: Candidate -> Key)
  {
    forall i, j :: 0 <= i < j < |s| ==> !Above(key(s[j]), key(s[i]))
  }

  lemma AboveIsAnOrder(a: Key, b: Key, c: Key)
    ensures !Above(a, b) && !Above(b, c) ==> !Above(a, c)
    ensures Above(a, b) ==> !Above(b, a)
  {
  }

  lemma {:induction false} InsertSorts(c: Candidate, sorted: seq<Candidate>, key: Candidate -> Key)
    requires Descending(sorted, key)
    ensures Descending(Insert(c, sorted, key), key)
    ensures multiset(Insert(c, sorted, key)) == multiset(sorted) + multiset{c}
    decreases |sorted|
  {
    hide Above;
    if sorted != [] {
      assert sorted == [sorted[0]] + sorted[1..];
      if Above(key(sorted[0]), key(c)) {
        InsertSorts(c, sorted[1..], key);
        var rest := Insert(c, sorted[1..], key);
        forall j | 0 <= j < |rest| ensures !Above(key(rest[j]), key(sorted[0])) {
          assert rest[j] in multiset(rest);
          AboveIsAnOrder(key(sorted[0]), key(c), key(c));
        }
      } else {
        forall j | 0 <= j < |sorted| ensures !Above(key(sorted[j]), key(c)) {
          AboveIsAnOrder(key(sorted[j]), key(sorted[0]), key(c));
        }
      }
    }
  }

  lemma {:induction false} SortSorts(s: seq<Candidate>, key: Candidate -> Key)
    ensures Descending(SortDescending(s, key), key)
    ensures multiset(SortDescending(s, key)) == multiset(s)
    decreases |s|
  {
    if s != [] {
      SortSorts(s[1..], key);
      InsertSorts(s[0], SortDescending(s[1..], key), key);
      assert s == [s[0]] + s[1..];
    }
  }

  function WithKey(s: seq<Candidate>, key: Candidate -> Key, k: Key): seq<Candidate>
  {
    if s == [] then [] else (if key(s[0]) == k then [s[0]] else []) + WithKey(s[1..], key, k)
  }

  lemma {:induction false} InsertIsStable(c: Candidate, sorted: seq<Candidate>, key: Candidate -> Key, k: Key)
    requires Descending(sorted, key)
    ensures WithKey(Insert(c, sorted, key), key, k)
         == (if key(c) == k then [c] else []) + WithKey(sorted, key, k)
    decreases |sorted|
  {
    if sorted != [] && Above(key(sorted[0]), key(c)) {
      InsertIsStable(c, sorted[1..], key, k);
      var rest := Insert(c, sorted[1..], key);
      assert ([sorted[0]] + rest)[1..] == rest;
    } else {
      assert ([c] + sorted)[1..] == sorted;
    }
  }

  // Candidates with equal keys keep the order in which they were scored.
  lemma {:induction false} SortIsStable(s: seq<Candidate>, key: Candidate -> Key, k: Key)
    ensures WithKey(SortDescending(s, key), key, k) == WithKey(s, key, k)
    decreases |s|
  {
    if s != [] {
      SortIsStable(s[1..], key, k);
      SortSorts(s[1..], key);
      InsertIsStable(s[0], SortDescending(s[1..], key), key, k);
    }
  }

  // ---------- The lists of a scan ----------

  lemma {:induction false} FiltersPartition(s: seq<Candidate>)
    ensures multiset(WithAvoid(s, false)) + multiset(WithAvoid(s, true)) == multiset(s)
    decreases |s|
  {
    if s != [] {
      FiltersPartition(s[1..]);
      assert s == [s[0]] + s[1..];
    }
  }

  function Unranked(s: seq<Ranked>): (r: seq<Candidate>)
    ensures |r| == |s| && forall i :: 0 <= i < |s| ==> r[i] == s[i].candidate
  {
    seq(|s|, i requires 0 <= i < |s| => s[i].candidate)
  }

  ghost predicate RanksFromOne(s: seq<Ranked>)
  {
    forall i :: 0 <= i < |s| ==> s[i].rank == i + 1
  }

  lemma {:induction false} FilterKeepsOnly(s: seq<Candidate>, avoid: bool)
    ensures forall c :: c in WithAvoid(s, avoid) <==> c in s && c.avoid == avoid
    decreases |s|
  {
    if s != [] { FilterKeepsOnly(s[1..], avoid); }
  }

  lemma SortedMembers(s: seq<Candidate>, key: Candidate -> Key)
    ensures forall c :: c in SortDescending(s, key) <==> c in s
  {
    SortSorts(s, key);
    assert forall c :: c in SortDescending(s, key) <==> c in multiset(SortDescending(s, key));
    assert forall c :: c in s <==> c in multiset(s);
  }

  ghost predicate Falling(s: seq<Ranked>)
  {
    forall i, j :: 0 <= i < j < |s| ==> s[j].candidate.score <= s[i].candidate.score
  }

  // And equal scores fall by dollar volume.
  ghost predicate FallingByVolume(s: seq<Ranked>)
  {
    forall i, j :: 0 <= i < j < |s| ==>
      var a, b := s[i].candidate, s[j].candidate; b.score < a.score || (b.score == a.score && b.dollarVolume <= a.dollarVolume)
  }

  lemma DescendingFalls(s: seq<Candidate>)
    ensures Descending(s, ByScoreAndVolume) ==> FallingByVolume(AssignRanks(s))
    ensures Descending(s, ByScore) ==> Falling(AssignRanks(s))
  {
    var r := AssignRanks(s);
    forall i, j | 0 <= i < j < |s| && Descending(s, ByScoreAndVolume)
      ensures s[j].score < s[i].score || (s[j].score == s[i].score && s[j].dollarVolume <= s[i].dollarVolume)
    {
      assert !Above(ByScoreAndVolume(s[j]), ByScoreAndVolume(s[i]));
    }
    forall i, j | 0 <= i < j < |s| && Descending(s, ByScore) ensures s[j].score <= s[i].score {
      assert !Above(ByScore(s[j]), ByScore(s[i]));
    }
  }

  // Nothing is lost or doubled between the full ranked list and the avoid list, both fall by
  // score and volume, and the ranks of every list count from one.
  lemma ListsPartitionTheScan(scored: seq<Candidate>, c: Config)
    ensures var ranked, scan := RankedInFull(scored), ScoreUniverse(scored, c);
            && multiset(Unranked(ranked)) + multiset(Unranked(scan.avoid)) == multiset(scored)
            && multiset(Unranked(scan.all)) == multiset(scored)
            && (forall x :: x in ranked ==> !x.candidate.avoid) && (forall x :: x in scan.avoid ==> x.candidate.avoid)
            && FallingByVolume(ranked) && FallingByVolume(scan.avoid) && Falling(scan.all)
            && scan.ranked <= ranked && |scan.ranked| == (if c.topN <= |ranked| then c.topN else |ranked|)
            && RanksFromOne(scan.ranked) && RanksFromOne(scan.avoid) && RanksFromOne(scan.all) && RanksFromOne(scan.explosive)
  {
    var good, bad := WithAvoid(scored, false), WithAvoid(scored, true);
    hide SortDescending, WithAvoid, Descending;
    FiltersPartition(scored);
    FilterKeepsOnly(scored, false);
    FilterKeepsOnly(scored, true);
    SortedMembers(good, ByScoreAndVolume);
    SortedMembers(bad, ByScoreAndVolume);
    SortSorts(good, ByScoreAndVolume);
    SortSorts(bad, ByScoreAndVolume);
    SortSorts(scored, ByScore);
    DescendingFalls(SortDescending(good, ByScoreAndVolume));
    DescendingFalls(SortDescending(bad, ByScoreAndVolume));
    DescendingFalls(SortDescending(scored, ByScore));
    hide Falling, FallingByVolume;
    ExplosiveIsAPrefix(scored, c);
    assert Unranked(AssignRanks(SortDescending(good, ByScoreAndVolume))) == SortDescending(good, ByScoreAndVolume);
    assert Unranked(AssignRanks(SortDescending(bad, ByScoreAndVolume))) == SortDescending(bad, ByScoreAndVolume);
    assert Unranked(AssignRanks(SortDescending(scored, ByScore))) == SortDescending(scored, ByScore);
  }

  // Filtering a falling list by a threshold keeps a prefix of it.
  lemma {:induction false} ThresholdKeepsPrefix(s: seq<Ranked>, threshold: real)
    requires Falling(s)
    ensures AtLeast(s, threshold) <= s
    ensures var n := |AtLeast(s, threshold)|;
            forall i :: 0 <= i < |s| ==> (s[i].candidate.score >= threshold <==> i < n)
    decreases |s|
  {
    if s != [] {
      ThresholdKeepsPrefix(s[1..], threshold);
      if s[0].candidate.score < threshold {
        BelowKeepsNothing(s[1..], threshold);
      } else {
        assert s == [s[0]] + s[1..];
      }
    }
  }

  lemma {:induction false} BelowKeepsNothing(s: seq<Ranked>, threshold: real)
    requires forall i :: 0 <= i < |s| ==> s[i].candidate.score < threshold
    ensures AtLeast(s, threshold) == []
    decreases |s|
  {
    if s != [] { BelowKeepsNothing(s[1..], threshold); }
  }

  // The explosive list is the beginning of the full ranked list, as far as the threshold and
  // its own length reach; so it is part of the returned list exactly when it is not longer
  // than that, which holds at every scan if its length is set no larger.
  lemma ExplosiveIsAPrefix(scored: seq<Candidate>, c: Config)
    ensures var ranked, scan := RankedInFull(scored), ScoreUniverse(scored, c);
            && scan.explosive <= ranked
            && (forall i :: 0 <= i < |ranked| ==>
                 (i < |scan.explosive| <==> ranked[i].candidate.score >= c.explosiveThreshold && i < c.explosiveTopN))
            && (scan.explosive <= scan.ranked <==> |scan.explosive| <= c.topN)
            && (c.explosiveTopN <= c.topN ==> scan.explosive <= scan.ranked)
  {
    var good := WithAvoid(scored, false);
    SortSorts(good, ByScoreAndVolume);
    var ranked := RankedInFull(scored);
    forall i, j | 0 <= i < j < |ranked| ensures ranked[j].candidate.score <= ranked[i].candidate.score {
      var sorted := SortDescending(good, ByScoreAndVolume);
      assert !Above(ByScoreAndVolume(sorted[j]), ByScoreAndVolume(sorted[i]));
    }
    hide RankedInFull, SortDescending, WithAvoid, AtLeast;
    ThresholdKeepsPrefix(ranked, c.explosiveThreshold);
  }
}
