/**
 * On-call coverage of a stay: the shifts are swept in order of their start and the stretches of the
 * window that no shift covers are reported. The reference definition is the set of covered instants.
 */
module OnCall {
  import opened Basics
  import opened Sorting

  const MAX_SHIFT_DAYS: int := 14

  datatype Shift = Shift(packageId: Option<string>, startsAt: int, endsAt: int)

  datatype Gap = Gap(from: int, to: int)

  datatype ShiftError = EndNotAfterStart | TooLong | UnknownShift

  // ---------------------------------------------------------------- pointwise definition

  predicate Covers(c: Shift, t: int) {
    c.startsAt <= t < c.endsAt
  }

  ghost predicate Covered(creneaux: seq<Shift>, t: int) {
    exists i :: 0 <= i < |creneaux| && Covers(creneaux[i], t)
  }

  ghost predicate InGap(gaps: seq<Gap>, t: int) {
    exists k :: 0 <= k < |gaps| && gaps[k].from <= t < gaps[k].to
  }

  /** Shifts as `verifierPeriode` accepts them. */
  predicate ValidPeriod(startsAt: int, endsAt: int) {
    0 < endsAt - startsAt <= MAX_SHIFT_DAYS * JOUR_MS
  }

  ghost predicate AllPositive(creneaux: seq<Shift>) {
    forall c | c in creneaux :: c.startsAt < c.endsAt
  }

  /** Gaps inside the window, none empty, in order and never touching each other. */
  ghost predicate Canonical(gaps: seq<Gap>, from: int, to: int) {
    && (forall k | 0 <= k < |gaps| :: from <= gaps[k].from < gaps[k].to <= to)
    && (forall k, l | 0 <= k < l < |gaps| :: gaps[k].to < gaps[l].from)
  }

  // ---------------------------------------------------------------- the sweep

  function StartOf(c: Shift): int {
    c.startsAt
  }

  /** Gaps from the cursor to the end of the window, given the shifts still to sweep. */
  function GapsFrom(curseur: int, to: int, tries: seq<Shift>): seq<Gap>
    decreases |tries|
  {
    if curseur >= to then []
    else if tries == [] then [Gap(curseur, to)]
    else
      var c := tries[0];
      (if c.startsAt > curseur then [Gap(curseur, Min(c.startsAt, to))] else []) +
      GapsFrom(Max(curseur, c.endsAt), to, tries[1..])
  }

  function Gaps(from: int, to: int, creneaux: seq<Shift>): seq<Gap> {
    GapsFrom(from, to, StableSort(creneaux, StartOf))
  }

  method TrousDeCouverture(from: int, to: int, creneaux: seq<Shift>) returns (trous: seq<Gap>)
    ensures trous == Gaps(from, to, creneaux)
    ensures forall t | from <= t < to :: InGap(trous, t) <==> !Covered(creneaux, t)
    ensures AllPositive(creneaux) ==> Canonical(trous, from, to)
  {
    hide StableSort;
    var tries := StableSort(creneaux, StartOf);
    trous := [];
    var curseur := from;
    var i := 0;
    while i < |tries|
      invariant 0 <= i <= |tries|
      invariant trous + GapsFrom(curseur, to, tries[i..]) == Gaps(from, to, creneaux)
    {
      var c := tries[i];
      if curseur >= to {
        break;
      }
      ghost var rest := GapsFrom(Max(curseur, c.endsAt), to, tries[i..][1..]);
      assert tries[i..][1..] == tries[i + 1..];
      var debut := c.startsAt;
      if debut > curseur {
        ghost var gap := [Gap(curseur, Min(debut, to))];
        assert trous + (gap + rest) == (trous + gap) + rest;
        trous := trous + [Gap(curseur, Min(debut, to))];
      } else {
        assert GapsFrom(curseur, to, tries[i..]) == rest;
      }
      curseur := Max(curseur, c.endsAt);
      i := i + 1;
    }
    if curseur < to {
      trous := trous + [Gap(curseur, to)];
    }
    GapsArePointwise(from, to, creneaux);
    if AllPositive(creneaux) {
      GapsAreCanonical(from, to, creneaux);
    }
  }

  // ---------------------------------------------------------------- gaps are the uncovered instants

  lemma InGapAppend(a: seq<Gap>, b: seq<Gap>, t: int)
    ensures InGap(a + b, t) <==> InGap(a, t) || InGap(b, t)
  {
    if InGap(a, t) {
      var k :| 0 <= k < |a| && a[k].from <= t < a[k].to;
      assert (a + b)[k] == a[k];
    }
    if InGap(b, t) {
      var k :| 0 <= k < |b| && b[k].from <= t < b[k].to;
      assert (a + b)[|a| + k] == b[k];
    }
  }

  lemma CoveredHead(tries: seq<Shift>, t: int)
    requires tries != []
    ensures Covered(tries, t) <==> Covers(tries[0], t) || Covered(tries[1..], t)
  {
    if Covered(tries[1..], t) {
      var i :| 0 <= i < |tries[1..]| && Covers(tries[1..][i], t);
      assert Covers(tries[i + 1], t);
    }
    if Covered(tries, t) && !Covers(tries[0], t) {
      var i :| 0 <= i < |tries| && Covers(tries[i], t);
      assert Covers(tries[1..][i - 1], t);
    }
  }

  /** From the cursor on, an instant is in a gap exactly when no remaining shift covers it. */
  lemma {:induction false} GapsFromPointwise(curseur: int, to: int, tries: seq<Shift>, t: int)
    requires Sorted(tries, StartOf)
    requires t < to
    ensures InGap(GapsFrom(curseur, to, tries), t) ==> curseur <= t
    ensures curseur <= t ==> (InGap(GapsFrom(curseur, to, tries), t) <==> !Covered(tries, t))
    decreases |tries|
  {
    if curseur >= to {
    } else if tries == [] {
      var last := [Gap(curseur, to)];
      assert curseur <= t ==> last[0].from <= t < last[0].to;
    } else {
      var c := tries[0];
      var gap := if c.startsAt > curseur then [Gap(curseur, Min(c.startsAt, to))] else [];
      var next := Max(curseur, c.endsAt);
      forall i, j | 0 <= i < j < |tries[1..]| ensures StartOf(tries[1..][i]) <= StartOf(tries[1..][j]) {
        assert StartOf(tries[i + 1]) <= StartOf(tries[j + 1]);
      }
      GapsFromPointwise(next, to, tries[1..], t);
      InGapAppend(gap, GapsFrom(next, to, tries[1..]), t);
      CoveredHead(tries, t);
      assert InGap(gap, t) <==> curseur <= t < c.startsAt by {
        if curseur <= t < c.startsAt {
          assert gap[0].from <= t < gap[0].to;
        }
      }
      if t < c.startsAt {
        forall i | 0 <= i < |tries| ensures !Covers(tries[i], t) {
          assert StartOf(tries[0]) <= StartOf(tries[i]);
        }
      }
    }
  }

  lemma CoveredSorted(creneaux: seq<Shift>, t: int)
    ensures Covered(StableSort(creneaux, StartOf), t) <==> Covered(creneaux, t)
  {
    var tries := StableSort(creneaux, StartOf);
    SameElements(creneaux, StartOf);
    if Covered(tries, t) {
      var i :| 0 <= i < |tries| && Covers(tries[i], t);
      assert tries[i] in creneaux;
    }
    if Covered(creneaux, t) {
      var i :| 0 <= i < |creneaux| && Covers(creneaux[i], t);
      assert creneaux[i] in tries;
    }
  }

  /** An instant of the window is in a reported gap exactly when no shift covers it, for any list of shifts. */
  lemma GapsArePointwise(from: int, to: int, creneaux: seq<Shift>)
    ensures forall t | from <= t < to :: InGap(Gaps(from, to, creneaux), t) <==> !Covered(creneaux, t)
  {
    forall t | from <= t < to ensures InGap(Gaps(from, to, creneaux), t) <==> !Covered(creneaux, t) {
      SortedPermutation(creneaux, StartOf);
      GapsFromPointwise(from, to, StableSort(creneaux, StartOf), t);
      CoveredSorted(creneaux, t);
    }
  }

  // ---------------------------------------------------------------- gaps are canonical

  lemma CanonicalCons(g: Gap, rest: seq<Gap>, next: int, from: int, to: int)
    requires from <= g.from < g.to <= to && g.to < next
    requires Canonical(rest, next, to)
    ensures Canonical([g] + rest, from, to)
  {
    var all := [g] + rest;
    forall k, l | 0 <= k < l < |all| ensures all[k].to < all[l].from {
      assert all[l] == rest[l - 1];
      if k > 0 {
        assert all[k] == rest[k - 1];
      }
    }
  }

  lemma CanonicalFromEarlier(gaps: seq<Gap>, next: int, from: int, to: int)
    requires from <= next && Canonical(gaps, next, to)
    ensures Canonical(gaps, from, to)
  {
  }

  lemma GapsFromEnds(curseur: int, to: int, tries: seq<Shift>)
    requires curseur >= to || tries == []
    ensures Canonical(GapsFrom(curseur, to, tries), curseur, to)
  {
  }

  lemma {:induction false} GapsFromCanonical(curseur: int, to: int, tries: seq<Shift>)
    requires AllPositive(tries)
    ensures Canonical(GapsFrom(curseur, to, tries), curseur, to)
    decreases |tries|
  {
    hide Canonical;
    if curseur >= to || tries == [] {
      GapsFromEnds(curseur, to, tries);
    } else {
      var c := tries[0];
      assert c in tries;
      var next := Max(curseur, c.endsAt);
      var rest := GapsFrom(next, to, tries[1..]);
      GapsFromCanonical(next, to, tries[1..]);
      if c.startsAt <= curseur {
        assert GapsFrom(curseur, to, tries) == rest;
        CanonicalFromEarlier(rest, next, curseur, to);
      } else {
        CanonicalCons(Gap(curseur, Min(c.startsAt, to)), rest, next, curseur, to);
      }
    }
  }

  /** Gaps of shifts of positive duration are nonempty, sorted and strictly separated. */
  lemma GapsAreCanonical(from: int, to: int, creneaux: seq<Shift>)
    requires AllPositive(creneaux)
    ensures Canonical(Gaps(from, to, creneaux), from, to)
  {
    SameElements(creneaux, StartOf);
    GapsFromCanonical(from, to, StableSort(creneaux, StartOf));
  }

  /** A shift that ends before it starts breaks this, which is why such a shift is refused when written. */
  lemma InvertedShiftSplitsAGap()
    ensures var gaps := Gaps(0, 10, [Shift(None, 5, 2)]);
            gaps == [Gap(0, 5), Gap(2, 10)] && !Canonical(gaps, 0, 10)
  {
    var one := [Shift(None, 5, 2)];
    assert StableSort(one[1..], StartOf) == [];
    assert StableSort(one, StartOf) == one;
    assert GapsFrom(2, 10, one[1..]) == [Gap(2, 10)];
    var gaps := Gaps(0, 10, one);
    assert gaps == [Gap(0, 5)] + [Gap(2, 10)];
    assert gaps[0].to >= gaps[1].from;
  }

  lemma CanonicalTail(g: seq<Gap>, from: int, to: int)
    requires g != [] && Canonical(g, from, to)
    ensures Canonical(g[1..], g[0].to, to)
    ensures forall t | t <= g[0].to :: !InGap(g[1..], t)
  {
    forall k | 0 <= k < |g[1..]| ensures g[0].to < g[1..][k].from {
      assert g[1..][k] == g[k + 1];
    }
  }

  /** The instants of the first gap are in a gap; the one that follows them is not. */
  lemma FirstGap(g: seq<Gap>, from: int, to: int, t: int)
    requires g != [] && Canonical(g, from, to)
    ensures g[0].from <= t < g[0].to ==> InGap(g, t)
    ensures !InGap(g, g[0].to)
  {
    CanonicalTail(g, from, to);
    assert g == [g[0]] + g[1..];
    InGapAppend([g[0]], g[1..], g[0].to);
    assert !InGap([g[0]], g[0].to);
  }

  /** The first gap of one list starts and ends with the first gap of the other. */
  lemma FirstGapsAgree(a: seq<Gap>, b: seq<Gap>, from: int, to: int)
    requires a != [] && Canonical(a, from, to) && Canonical(b, from, to)
    requires forall t | from <= t < to :: InGap(a, t) <==> InGap(b, t)
    ensures b != [] && b[0].from <= a[0].from && (b[0].from == a[0].from ==> b[0].to >= a[0].to)
  {
    FirstGap(a, from, to, a[0].from);
    assert InGap(b, a[0].from);
    var k :| 0 <= k < |b| && b[k].from <= a[0].from < b[k].to;
    assert b[0].from <= b[k].from;
    FirstGap(a, from, to, b[0].to);
    FirstGap(b, from, to, b[0].to);
  }

  /** Strictly separated gaps are determined by the instants they contain. */
  lemma {:induction false} CanonicalIsUnique(a: seq<Gap>, b: seq<Gap>, from: int, to: int)
    requires Canonical(a, from, to) && Canonical(b, from, to)
    requires forall t | from <= t < to :: InGap(a, t) <==> InGap(b, t)
    ensures a == b
    decreases |a|
  {
    if a == [] {
      if b != [] {
        FirstGapsAgree(b, a, from, to);
      }
    } else {
      FirstGapsAgree(a, b, from, to);
      FirstGapsAgree(b, a, from, to);
      assert a[0] == b[0];
      CanonicalTail(a, from, to);
      CanonicalTail(b, from, to);
      assert a == [a[0]] + a[1..] && b == [b[0]] + b[1..];
      forall t | a[0].to <= t < to ensures InGap(a[1..], t) <==> InGap(b[1..], t) {
        InGapAppend([a[0]], a[1..], t);
        InGapAppend([b[0]], b[1..], t);
        assert from <= t;
      }
      CanonicalIsUnique(a[1..], b[1..], a[0].to, to);
    }
  }

  /**
   * The report depends only on which instants of the window are covered: the order of the shifts,
   * their duplication and the way they overlap do not matter.
   */
  lemma GapsDependOnlyOnCoverage(from: int, to: int, a: seq<Shift>, b: seq<Shift>)
    requires AllPositive(a) && AllPositive(b)
    requires forall t | from <= t < to :: Covered(a, t) <==> Covered(b, t)
    ensures Gaps(from, to, a) == Gaps(from, to, b)
  {
    GapsAreCanonical(from, to, a);
    GapsAreCanonical(from, to, b);
    GapsArePointwise(from, to, a);
    GapsArePointwise(from, to, b);
    CanonicalIsUnique(Gaps(from, to, a), Gaps(from, to, b), from, to);
  }

  // ---------------------------------------------------------------- coverage of a stay

  /** `startsAt: { lt: to }, endsAt: { gt: from }`. */
  function Overlapping(creneaux: seq<Shift>, from: int, to: int): seq<Shift> {
    if creneaux == [] then []
    else (if creneaux[0].startsAt < to && creneaux[0].endsAt > from then [creneaux[0]] else []) +
         Overlapping(creneaux[1..], from, to)
  }

  lemma {:induction false} OverlappingMembers(creneaux: seq<Shift>, from: int, to: int, c: Shift)
    ensures c in Overlapping(creneaux, from, to) <==> c in creneaux && c.startsAt < to && c.endsAt > from
  {
    if creneaux != [] {
      OverlappingMembers(creneaux[1..], from, to, c);
    }
  }

  /** The database filter on the window never changes the gaps. */
  lemma PrefilterKeepsGaps(from: int, to: int, creneaux: seq<Shift>)
    requires AllPositive(creneaux)
    ensures Gaps(from, to, Overlapping(creneaux, from, to)) == Gaps(from, to, creneaux)
  {
    var kept := Overlapping(creneaux, from, to);
    forall c | c in kept ensures c.startsAt < c.endsAt {
      OverlappingMembers(creneaux, from, to, c);
    }
    forall t | from <= t < to ensures Covered(kept, t) <==> Covered(creneaux, t) {
      if Covered(kept, t) {
        var i :| 0 <= i < |kept| && Covers(kept[i], t);
        OverlappingMembers(creneaux, from, to, kept[i]);
      }
      if Covered(creneaux, t) {
        var i :| 0 <= i < |creneaux| && Covers(creneaux[i], t);
        OverlappingMembers(creneaux, from, to, creneaux[i]);
      }
    }
    GapsDependOnlyOnCoverage(from, to, kept, creneaux);
  }

  function TotalLength(gaps: seq<Gap>): int {
    if gaps == [] then 0 else TotalLength(gaps[..|gaps| - 1]) + (gaps[|gaps| - 1].to - gaps[|gaps| - 1].from)
  }

  ghost function CoveredInstants(creneaux: seq<Shift>, from: int, to: int): set<int> {
    set t | from <= t < to && Covered(creneaux, t)
  }

  ghost function InstantsInGaps(gaps: seq<Gap>, from: int, to: int): set<int> {
    set t | from <= t < to && InGap(gaps, t)
  }

  ghost function Interval(first: int, end: int): set<int>
    decreases end - first
  {
    if first >= end then {} else Interval(first, end - 1) + {end - 1}
  }

  lemma {:induction false} IntervalSize(first: int, end: int)
    ensures forall t :: t in Interval(first, end) <==> first <= t < end
    ensures |Interval(first, end)| == Max(0, end - first)
    decreases end - first
  {
    if first < end {
      IntervalSize(first, end - 1);
    }
  }

  lemma InGapSnoc(init: seq<Gap>, last: Gap, t: int)
    ensures InGap(init + [last], t) <==> InGap(init, t) || last.from <= t < last.to
  {
    InGapAppend(init, [last], t);
    if last.from <= t < last.to {
      assert [last][0].from <= t < [last][0].to;
    }
  }

  lemma BeforeLastGap(init: seq<Gap>, last: Gap, from: int, to: int, t: int)
    requires Canonical(init + [last], from, to) && InGap(init, t)
    ensures t < last.from
  {
    var k :| 0 <= k < |init| && init[k].from <= t < init[k].to;
    assert (init + [last])[k] == init[k] && (init + [last])[|init|] == last;
  }

  /** One more gap adds its own instants, and no instant twice. */
  lemma InstantsSnoc(init: seq<Gap>, last: Gap, from: int, to: int)
    requires Canonical(init + [last], from, to)
    ensures |InstantsInGaps(init + [last], from, to)| == |InstantsInGaps(init, from, to)| + (last.to - last.from)
  {
    hide Canonical, InGap, Interval;
    var head, tail := InstantsInGaps(init, from, to), Interval(last.from, last.to);
    IntervalSize(last.from, last.to);
    LastGapInside(init, last, from, to);
    forall t ensures t in InstantsInGaps(init + [last], from, to) <==> t in head || t in tail {
      InGapSnoc(init, last, t);
    }
    assert InstantsInGaps(init + [last], from, to) == head + tail;
    forall t | t in head ensures t !in tail {
      BeforeLastGap(init, last, from, to, t);
    }
    assert head !! tail;
  }

  lemma LastGapInside(init: seq<Gap>, last: Gap, from: int, to: int)
    requires Canonical(init + [last], from, to)
    ensures from <= last.from < last.to <= to && Canonical(init, from, to)
  {
    assert (init + [last])[|init|] == last;
    assert forall k | 0 <= k < |init| :: init[k] == (init + [last])[k];
  }

  /** The lengths of strictly separated gaps add up to the number of instants in them. */
  lemma {:induction false} LengthCountsInstants(gaps: seq<Gap>, from: int, to: int)
    requires Canonical(gaps, from, to)
    ensures TotalLength(gaps) == |InstantsInGaps(gaps, from, to)|
  {
    if gaps == [] {
      assert InstantsInGaps(gaps, from, to) == {};
    } else {
      hide Canonical, InstantsInGaps;
      var init, last := gaps[..|gaps| - 1], gaps[|gaps| - 1];
      assert gaps == init + [last];
      LastGapInside(init, last, from, to);
      LengthCountsInstants(init, from, to);
      InstantsSnoc(init, last, from, to);
    }
  }

  /** The length of the stay is the covered time plus the time in the reported gaps. */
  lemma CoverageConservesTime(from: int, to: int, creneaux: seq<Shift>)
    requires from <= to && AllPositive(creneaux)
    ensures (to - from) - TotalLength(Gaps(from, to, creneaux)) == |CoveredInstants(creneaux, from, to)|
  {
    var gaps := Gaps(from, to, creneaux);
    GapsAreCanonical(from, to, creneaux);
    GapsArePointwise(from, to, creneaux);
    LengthCountsInstants(gaps, from, to);
    CoveredAndUncovered(from, to, creneaux, gaps);
  }

  lemma CoveredAndUncovered(from: int, to: int, creneaux: seq<Shift>, gaps: seq<Gap>)
    requires from <= to && forall t | from <= t < to :: InGap(gaps, t) <==> !Covered(creneaux, t)
    ensures |CoveredInstants(creneaux, from, to)| + |InstantsInGaps(gaps, from, to)| == to - from
  {
    hide InGap, Covered, Interval;
    IntervalSize(from, to);
    var covered, uncovered := CoveredInstants(creneaux, from, to), InstantsInGaps(gaps, from, to);
    assert Interval(from, to) == covered + uncovered;
    assert covered !! uncovered;
  }

  // ---------------------------------------------------------------- the service

  /** `Math.round((ms / HEURE_MS) * 10)`: tenths of hours, halves rounded up. */
  function TenthsOfHours(ms: int): int {
    (20 * ms + HEURE_MS) / (2 * HEURE_MS)
  }

  datatype Coverage = Coverage(from: int, to: int, totalTenths: int, coveredTenths: int, gaps: seq<Gap>)

  function VerifierPeriode(startsAt: int, endsAt: int): (r: Result<(), ShiftError>)
    ensures r.Ok? <==> ValidPeriod(startsAt, endsAt)
    ensures r.Ok? <==> startsAt < endsAt <= startsAt + 14 * 86_400_000
    ensures r == Err(EndNotAfterStart) <==> endsAt <= startsAt
  {
    if endsAt <= startsAt then Err(EndNotAfterStart)
    else if endsAt - startsAt > MAX_SHIFT_DAYS * JOUR_MS then Err(TooLong)
    else Ok(())
  }

  /** Shifts of the package and shifts that hold for every package. */
  predicate Concerns(c: Shift, packageId: string) {
    c.packageId == Some(packageId) || c.packageId == None
  }

  ghost predicate OnCallAt(shifts: map<nat, Shift>, packageId: string, t: int) {
    exists id :: id in shifts && Concerns(shifts[id], packageId) && Covers(shifts[id], t)
  }

  ghost function OnCallInstants(shifts: map<nat, Shift>, packageId: string, from: int, to: int): set<int> {
    set t | from <= t < to && OnCallAt(shifts, packageId, t)
  }

  /** Somebody is on call for a package when a shift of that package, or one of no package in particular, is running. */
  lemma OnCallIff(shifts: map<nat, Shift>, packageId: string, t: int)
    ensures OnCallAt(shifts, packageId, t) <==>
            exists id :: id in shifts && shifts[id].startsAt <= t < shifts[id].endsAt &&
                         (shifts[id].packageId.Some? ==> shifts[id].packageId.value == packageId)
  {
    if OnCallAt(shifts, packageId, t) {
      var id :| id in shifts && Concerns(shifts[id], packageId) && Covers(shifts[id], t);
      assert shifts[id].startsAt <= t < shifts[id].endsAt;
    }
    if id :| id in shifts && shifts[id].startsAt <= t < shifts[id].endsAt &&
             (shifts[id].packageId.Some? ==> shifts[id].packageId.value == packageId) {
      assert Concerns(shifts[id], packageId) && Covers(shifts[id], t);
    }
  }

  /** Hours are reported to the nearest tenth, six minutes being 360 000 milliseconds, a half going up. */
  lemma TenthsAreNearest(ms: int)
    ensures -360_000 < 2 * (TenthsOfHours(ms) * 360_000 - ms) <= 360_000
  {
  }

  /** The shifts of one agency. */
  class OnCallService {
    var shifts: map<nat, Shift>
    var nextId: nat

    ghost predicate Valid()
      reads this
    {
      forall id | id in shifts :: id < nextId && ValidPeriod(shifts[id].startsAt, shifts[id].endsAt)
    }

    constructor ()
      ensures Valid() && shifts == map[]
    {
      shifts := map[];
      nextId := 0;
    }

    method CreateShift(packageId: Option<string>, startsAt: int, endsAt: int) returns (r: Result<nat, ShiftError>)
      requires Valid()
      modifies this
      ensures Valid()
      ensures r.Ok? <==> ValidPeriod(startsAt, endsAt)
      ensures r.Ok? ==> r.value !in old(shifts) && shifts == old(shifts)[r.value := Shift(packageId, startsAt, endsAt)]
      ensures r.Err? ==> shifts == old(shifts)
    {
      match VerifierPeriode(startsAt, endsAt)
      case Err(e) => r := Err(e);
      case Ok(_) =>
        shifts := shifts[nextId := Shift(packageId, startsAt, endsAt)];
        r := Ok(nextId);
        nextId := nextId + 1;
    }

    method UpdateShift(id: nat, startsAt: Option<int>, endsAt: Option<int>) returns (r: Result<(), ShiftError>)
      requires Valid()
      modifies this
      ensures Valid()
      ensures r == Err(UnknownShift) <==> id !in old(shifts)
      ensures id in old(shifts) ==>
                var start, end := startsAt.GetOr(old(shifts)[id].startsAt), endsAt.GetOr(old(shifts)[id].endsAt);
                && (r.Ok? <==> ValidPeriod(start, end))
                && (r == Err(EndNotAfterStart) <==> end <= start)
      ensures r.Ok? ==> id in old(shifts) &&
                        shifts == old(shifts)[id := Shift(old(shifts)[id].packageId,
                                                          startsAt.GetOr(old(shifts)[id].startsAt),
                                                          endsAt.GetOr(old(shifts)[id].endsAt))]
      ensures r.Err? ==> shifts == old(shifts)
    {
      if id !in shifts {
        return Err(UnknownShift);
      }
      var actuel := shifts[id];
      var start, end := startsAt.GetOr(actuel.startsAt), endsAt.GetOr(actuel.endsAt);
      match VerifierPeriode(start, end)
      case Err(e) => r := Err(e);
      case Ok(_) =>
        shifts := shifts[id := Shift(actuel.packageId, start, end)];
        r := Ok(());
    }

    method DeleteShift(id: nat) returns (r: Result<(), ShiftError>)
      requires Valid()
      modifies this
      ensures Valid()
      ensures r == if id in old(shifts) then Ok(()) else Err(UnknownShift)
      ensures shifts == old(shifts) - {id}
    {
      r := if id in shifts then Ok(()) else Err(UnknownShift);
      shifts := shifts - {id};
    }

    /** The rows a query returns, in whatever order the database yields them. */
    method Rows(packageId: string, from: int, to: int) returns (rows: seq<Shift>)
      ensures forall c :: c in rows <==> (exists id :: id in shifts && shifts[id] == c && Concerns(c, packageId)
                                                       && c.startsAt < to && c.endsAt > from)
    {
      rows := [];
      var remaining := shifts.Keys;
      while remaining != {}
        invariant remaining <= shifts.Keys
        invariant forall c | c in rows :: exists id :: id in shifts - remaining && shifts[id] == c
        invariant forall c | c in rows :: Concerns(c, packageId) && c.startsAt < to && c.endsAt > from
        invariant forall id | id in shifts - remaining ::
                    Concerns(shifts[id], packageId) && shifts[id].startsAt < to && shifts[id].endsAt > from ==>
                    shifts[id] in rows
        decreases remaining
      {
        var id :| id in remaining;
        var c := shifts[id];
        remaining := remaining - {id};
        if Concerns(c, packageId) && c.startsAt < to && c.endsAt > from {
          rows := rows + [c];
        }
        assert id in shifts - remaining;
      }
      forall c | c in rows ensures exists id :: id in shifts && shifts[id] == c {
        var id :| id in shifts - remaining && shifts[id] == c;
      }
    }

    /** Coverage of a stay, from its first day to midnight of the last one. */
    method GetCoverage(packageId: string, startDate: int, endDate: int) returns (r: Coverage)
      requires Valid()
      ensures r.from == startDate && r.to == endDate + JOUR_MS
      ensures Canonical(r.gaps, r.from, r.to)
      ensures forall t | r.from <= t < r.to :: InGap(r.gaps, t) <==> !OnCallAt(shifts, packageId, t)
      ensures r.totalTenths == TenthsOfHours(r.to - r.from)
      ensures r.from <= r.to ==>
                r.coveredTenths == TenthsOfHours(|OnCallInstants(shifts, packageId, r.from, r.to)|)
    {
      var from, to := startDate, endDate + JOUR_MS;
      var creneaux := Rows(packageId, from, to);
      assert AllPositive(creneaux);
      forall t | from <= t < to ensures Covered(creneaux, t) <==> OnCallAt(shifts, packageId, t) {
        RowsCover(packageId, from, to, creneaux, t);
      }
      var gaps := TrousDeCouverture(from, to, creneaux);
      var trousMs := TotalLength(gaps);
      if from <= to {
        CoverageConservesTime(from, to, creneaux);
        assert CoveredInstants(creneaux, from, to) == OnCallInstants(shifts, packageId, from, to);
      }
      r := Coverage(from, to, TenthsOfHours(to - from), TenthsOfHours(to - from - trousMs), gaps);
    }

    lemma RowsCover(packageId: string, from: int, to: int, rows: seq<Shift>, t: int)
      requires forall c :: c in rows <==> (exists id :: id in shifts && shifts[id] == c && Concerns(c, packageId)
                                                        && c.startsAt < to && c.endsAt > from)
      requires from <= t < to
      ensures Covered(rows, t) <==> OnCallAt(shifts, packageId, t)
    {
      if Covered(rows, t) {
        var i :| 0 <= i < |rows| && Covers(rows[i], t);
        assert rows[i] in rows;
      }
      if OnCallAt(shifts, packageId, t) {
        var id :| id in shifts && Concerns(shifts[id], packageId) && Covers(shifts[id], t);
        assert shifts[id] in rows;
        var i :| 0 <= i < |rows| && rows[i] == shifts[id];
        assert Covers(rows[i], t);
      }
    }
  }
}
